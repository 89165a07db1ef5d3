/**
 * The journal-summary renderer: locate the log block among the page's
 * top-level blocks, descend `nest` levels, match every entry against the
 * pattern, turn each match into (tag, elapsed hours) and total the hours per
 * tag. Any failure (no log block, an entry the pattern does not match)
 * replaces the whole table by one error message.
 */
module JournalSummary {
  import opened Wrappers
  import opened Outline
  import opened Clock
  import opened Tally
  import opened EntryPattern

  /** The settings the renderer reads; the `regexp` setting is the Matcher. */
  datatype Settings = Settings(keyword: string, nest: nat)

  /** The defaults of the `keyword` and `nest` settings. */
  const DefaultSettings := Settings("## Log", 1)

  /** The two ways the computation aborts inside the renderer's `try`. */
  datatype Error =
    | NotFound(keyword: string)   // no top-level block has the keyword as its text
    | ParseFailure(text: string)  // the first entry whose text the pattern does not match

  /** What the renderer puts in the slot: the table rows, or the text of the caught error. */
  datatype View = Table(rows: seq<TagTotal>) | ErrorText(message: string)

  /**
   * `${e}` for the caught error. The thrown `Error` renders as `Error: ` and
   * its message; a failed match surfaces as the engine's TypeError for
   * reading `groups` of null, which does not name the entry.
   */
  function Message(e: Error): string
  {
    match e
    case NotFound(k) => "Error: \"" + k + "\" not exist"
    case ParseFailure(_) => "TypeError: Cannot read properties of null (reading 'groups')"
  }

  /** `part` occurs in `s` at position `i`. */
  predicate OccursAt(s: string, part: string, i: int)
  {
    0 <= i <= |s| - |part| && s[i..i + |part|] == part
  }

  ghost predicate Mentions(s: string, part: string)
  {
    exists i :: OccursAt(s, part, i)
  }

  /** The error shown when the log block is missing names the configured keyword. */
  lemma NotFoundMentionsKeyword(keyword: string)
    ensures Mentions(Message(NotFound(keyword)), keyword)
  {
    var s := Message(NotFound(keyword));
    assert OccursAt(s, keyword, 8);
  }

  function Display(r: Result<seq<TagTotal>, Error>): View
  {
    match r
    case Success(rows) => Table(rows)
    case Failure(e) => ErrorText(Message(e))
  }

  // ----- per-entry parsing -----

  /** The object the per-entry `map` returns: the tag and `elapsed / 60`. */
  function ToEntry(g: Groups): (e: LogEntry)
    ensures e.tag == g.tag
    ensures e.hours * 60.0 == (Minutes(g.end) - Minutes(g.start)) as real
  {
    LogEntry(g.tag, Hours(Elapsed(g.start, g.end)))
  }

  predicate AllMatched(entries: seq<Block>, matcher: Matcher)
  {
    forall i :: 0 <= i < |entries| ==> matcher(entries[i].text).Some?
  }

  /** `i` is the first entry, in order, that the pattern does not match. */
  predicate FirstUnmatched(entries: seq<Block>, matcher: Matcher, i: int)
  {
    0 <= i < |entries| && matcher(entries[i].text).None? &&
    forall j :: 0 <= j < i ==> matcher(entries[j].text).Some?
  }

  /**
   * `children.map(...)`: every entry is matched in order; the first one
   * that does not match throws, so no entry list is produced at all.
   */
  function ParseEntries(entries: seq<Block>, matcher: Matcher): (r: Result<seq<LogEntry>, Error>)
    ensures r.Success? <==> AllMatched(entries, matcher)
    ensures r.Success? ==> |r.value| == |entries|
    ensures r.Success? ==> forall i :: 0 <= i < |entries| ==>
      matcher(entries[i].text).Some? && r.value[i] == ToEntry(matcher(entries[i].text).value)
    ensures r.Failure? ==> r.error.ParseFailure?
  {
    if entries == [] then Success([])
    else
      match matcher(entries[0].text)
      case None => Failure(ParseFailure(entries[0].text))
      case Some(g) =>
        match ParseEntries(entries[1..], matcher)
        case Failure(e) => Failure(e)
        case Success(rest) =>
          assert forall i :: 0 < i < |entries| ==> entries[i] == entries[1..][i - 1];
          Success([ToEntry(g)] + rest)
  }

  /** A failed parse reports the first entry, in order, that the pattern does not match. */
  lemma {:induction false} ParseFailureNamesFirst(entries: seq<Block>, matcher: Matcher)
    requires ParseEntries(entries, matcher).Failure?
    ensures exists i :: (FirstUnmatched(entries, matcher, i) &&
                         ParseEntries(entries, matcher).error == ParseFailure(entries[i].text))
  {
    if matcher(entries[0].text).None? {
      assert FirstUnmatched(entries, matcher, 0);
    } else {
      ParseFailureNamesFirst(entries[1..], matcher);
      var i :| FirstUnmatched(entries[1..], matcher, i) &&
        ParseEntries(entries[1..], matcher).error == ParseFailure(entries[1..][i].text);
      assert FirstUnmatched(entries, matcher, i + 1);
    }
  }

  // ----- the pipeline -----

  /** The entries the renderer parses: `nest` levels below the first log block's children. */
  function ExtractSpec(tree: seq<Block>, settings: Settings): Result<seq<Block>, Error>
  {
    match Locate(tree, settings.keyword)
    case None => Failure(NotFound(settings.keyword))
    case Some(node) => Success(FlattenN(node.children, settings.nest))
  }

  /** Locate, descend, parse every entry and total the hours per tag. */
  function SummarySpec(tree: seq<Block>, settings: Settings, matcher: Matcher): Result<seq<TagTotal>, Error>
  {
    match ExtractSpec(tree, settings)
    case Failure(e) => Failure(e)
    case Success(entries) =>
      match ParseEntries(entries, matcher)
      case Failure(e) => Failure(e)
      case Success(contents) => Success(GroupSum(contents))
  }

  /** The lookup and the nest loop, up to the point where the entries are parsed. */
  method Extract(tree: seq<Block>, settings: Settings) returns (r: Result<seq<Block>, Error>)
    ensures r == ExtractSpec(tree, settings)
    ensures r.Failure? <==> forall i :: 0 <= i < |tree| ==> tree[i].text != settings.keyword
    ensures r.Failure? ==> r.error == NotFound(settings.keyword)
  {
    var node := Locate(tree, settings.keyword);
    if node.None? {
      return Failure(NotFound(settings.keyword));
    }
    var entries := Descend(node.value.children, settings.nest);
    return Success(entries);
  }

  /** The renderer's body: the view it provides for the slot. */
  method Summarize(tree: seq<Block>, settings: Settings, matcher: Matcher) returns (v: View)
    ensures v == Display(SummarySpec(tree, settings, matcher))
  {
    var extracted := Extract(tree, settings);
    if extracted.Failure? {
      return ErrorText(Message(extracted.error));
    }
    var contents := ParseEntries(extracted.value, matcher);
    if contents.Failure? {
      return ErrorText(Message(contents.error));
    }
    var agg := Reduce(contents.value);
    return Table(agg);
  }

  // ----- properties of the pipeline -----

  /** Without a top-level block whose text is the keyword, the result is exactly the NotFound error, whose message names the keyword. */
  lemma MissingLogBlock(tree: seq<Block>, settings: Settings, matcher: Matcher)
    ensures SummarySpec(tree, settings, matcher) == Failure(NotFound(settings.keyword)) <==>
      forall i :: 0 <= i < |tree| ==> tree[i].text != settings.keyword
    ensures (forall i :: 0 <= i < |tree| ==> tree[i].text != settings.keyword) ==>
      Display(SummarySpec(tree, settings, matcher)).ErrorText? &&
      Mentions(Display(SummarySpec(tree, settings, matcher)).message, settings.keyword)
  {
    NotFoundMentionsKeyword(settings.keyword);
  }

  /**
   * Only the first block in document order whose text is the keyword is
   * used: the blocks after it, further keyword blocks included, change nothing.
   */
  lemma FirstLogBlockDecides(tree: seq<Block>, settings: Settings, matcher: Matcher, i: int, later: seq<Block>)
    requires IsFirstHit(tree, settings.keyword, i)
    ensures SummarySpec(tree[..i + 1] + later, settings, matcher) == SummarySpec(tree, settings, matcher)
    ensures ExtractSpec(tree, settings) == Success(FlattenN(tree[i].children, settings.nest))
  {
    var cut := tree[..i + 1] + later;
    assert cut[i] == tree[i];
    assert IsFirstHit(cut, settings.keyword, i) by {
      forall j | 0 <= j < i ensures cut[j].text != settings.keyword {
        assert cut[j] == tree[j];
      }
    }
    FirstHitDecides(tree, settings.keyword, i);
    FirstHitDecides(cut, settings.keyword, i);
  }

  /**
   * All or nothing: one entry that the pattern does not match makes the
   * whole result an error, however many entries before it matched; the
   * error names the first such entry.
   */
  lemma UnmatchedEntryAborts(tree: seq<Block>, settings: Settings, matcher: Matcher, k: int)
    requires ExtractSpec(tree, settings).Success?
    requires 0 <= k < |ExtractSpec(tree, settings).value|
    requires matcher(ExtractSpec(tree, settings).value[k].text).None?
    ensures SummarySpec(tree, settings, matcher).Failure?
    ensures exists j :: (0 <= j <= k && FirstUnmatched(ExtractSpec(tree, settings).value, matcher, j) &&
                         SummarySpec(tree, settings, matcher).error == ParseFailure(ExtractSpec(tree, settings).value[j].text))
  {
    var entries := ExtractSpec(tree, settings).value;
    var r := ParseEntries(entries, matcher);
    ParseFailureNamesFirst(entries, matcher);
    var j :| FirstUnmatched(entries, matcher, j) && r.error == ParseFailure(entries[j].text);
    assert j <= k;
  }

  /** The tags the pattern captures from the entries, in order. */
  function CapturedTags(entries: seq<Block>, matcher: Matcher): (ts: seq<string>)
    requires AllMatched(entries, matcher)
    ensures |ts| == |entries|
  {
    seq(|entries|, i requires 0 <= i < |entries| && AllMatched(entries, matcher) => matcher(entries[i].text).value.tag)
  }

  /** Elapsed minutes of one matched entry. */
  function EntryMinutes(b: Block, matcher: Matcher): int
    requires matcher(b.text).Some?
  {
    var g := matcher(b.text).value;
    Elapsed(g.start, g.end)
  }

  /** The elapsed minutes of exactly the entries whose captured tag is `tag`, added up. */
  function MinutesFor(entries: seq<Block>, matcher: Matcher, tag: string): int
    requires AllMatched(entries, matcher)
  {
    if entries == [] then 0
    else
      var last := entries[|entries| - 1];
      MinutesFor(entries[..|entries| - 1], matcher, tag) +
        (if matcher(last.text).value.tag == tag then EntryMinutes(last, matcher) else 0)
  }

  /** The elapsed minutes of all the entries, added up. */
  function TotalMinutes(entries: seq<Block>, matcher: Matcher): int
    requires AllMatched(entries, matcher)
  {
    if entries == [] then 0
    else TotalMinutes(entries[..|entries| - 1], matcher) + EntryMinutes(entries[|entries| - 1], matcher)
  }

  /** The parsed entries carry exactly the captured tags, in order. */
  lemma ParsedTags(entries: seq<Block>, matcher: Matcher)
    requires AllMatched(entries, matcher)
    ensures EntryTags(ParseEntries(entries, matcher).value) == CapturedTags(entries, matcher)
  {
  }

  /** Summing the hours of the parsed entries tagged `tag` is summing their minutes and dividing by 60. */
  lemma {:induction false} ParsedHours(entries: seq<Block>, matcher: Matcher, es: seq<LogEntry>, tag: string)
    requires AllMatched(entries, matcher) && |es| == |entries|
    requires forall i :: 0 <= i < |es| ==> es[i] == ToEntry(matcher(entries[i].text).value)
    ensures SumHours(WithTag(es, tag)) == MinutesFor(entries, matcher, tag) as real / 60.0
    ensures SumHours(es) == TotalMinutes(entries, matcher) as real / 60.0
  {
    if es != [] {
      var n := |es|;
      var w0 := WithTag(es[..n - 1], tag);
      ParsedHours(entries[..n - 1], matcher, es[..n - 1], tag);
      if es[n - 1].tag == tag {
        assert (w0 + [es[n - 1]])[..|w0|] == w0;
      } else {
        assert w0 + [] == w0;
      }
    }
  }

  /**
   * A table that is shown lists every captured tag once, in the order of
   * its first entry; each total is the elapsed minutes of exactly the
   * entries with that tag divided by 60, and the totals add up to the
   * minutes of all entries divided by 60.
   */
  lemma SuccessfulSummary(tree: seq<Block>, settings: Settings, matcher: Matcher)
    requires SummarySpec(tree, settings, matcher).Success?
    ensures ExtractSpec(tree, settings).Success? && AllMatched(ExtractSpec(tree, settings).value, matcher)
    ensures var rows, entries := SummarySpec(tree, settings, matcher).value, ExtractSpec(tree, settings).value;
      NoDup(Tags(rows)) &&
      (forall t :: t in Tags(rows) <==> t in CapturedTags(entries, matcher)) &&
      (forall i, j :: 0 <= i < j < |rows| ==>
        FirstIndex(CapturedTags(entries, matcher), rows[i].tag) < FirstIndex(CapturedTags(entries, matcher), rows[j].tag)) &&
      (forall i :: 0 <= i < |rows| ==> rows[i].total == MinutesFor(entries, matcher, rows[i].tag) as real / 60.0) &&
      SumTotals(rows) == TotalMinutes(entries, matcher) as real / 60.0
  {
    var entries := ExtractSpec(tree, settings).value;
    var es := ParseEntries(entries, matcher).value;
    var rows := GroupSum(es);
    ParsedTags(entries, matcher);
    GroupSumTags(es);
    GroupSumOrder(es);
    GroupSumTotals(es);
    GroupSumGrandTotal(es);
    forall i | 0 <= i < |rows|
      ensures rows[i].total == MinutesFor(entries, matcher, rows[i].tag) as real / 60.0
    {
      ParsedHours(entries, matcher, es, rows[i].tag);
    }
    ParsedHours(entries, matcher, es, "");
  }

  /**
   * A journal page whose "## Log" block has two children, each holding one
   * entry, summarised with the default settings and the default pattern.
   */
  lemma DefaultSettingsExample()
    ensures SummarySpec(
      [Block("## Log", [
          Block("Morning", [Block("`09:00 - 09:30` #work", [])]),
          Block("Afternoon", [Block("`10:00 - 11:00` #meeting", [])])])],
      DefaultSettings, DefaultMatch)
      == Success([TagTotal("#work", 0.5), TagTotal("#meeting", 1.0)])
  {
    assert IsClockText("09:00") && IsClockText("09:30") && IsClockText("10:00") && IsClockText("11:00");
    var g1, g2 := Groups("09:00", "09:30", "#work"), Groups("10:00", "11:00", "#meeting");
    WorkEntryMatches();
    MeetingEntryMatches();
    ExampleHours(g1, g2);
    TwoEntryLog("## Log", "Morning", "Afternoon", "`09:00 - 09:30` #work", "`10:00 - 11:00` #meeting", DefaultMatch, g1, g2);
  }

  /** The default pattern captures start, end and tag of the example's first entry. */
  lemma WorkEntryMatches()
    ensures DefaultMatch("`09:00 - 09:30` #work") == Some(Groups("09:00", "09:30", "#work"))
  {
    assert IsClockText("09:00") && IsClockText("09:30") && IsTag("#work");
    assert EntryText("09:00", "09:30", "#work") == "`09:00 - 09:30` #work";
    DefaultMatchEntryText("09:00", "09:30", "#work");
  }

  /** The default pattern captures start, end and tag of the example's second entry. */
  lemma MeetingEntryMatches()
    ensures DefaultMatch("`10:00 - 11:00` #meeting") == Some(Groups("10:00", "11:00", "#meeting"))
  {
    assert IsClockText("10:00") && IsClockText("11:00") && IsTag("#meeting");
    assert EntryText("10:00", "11:00", "#meeting") == "`10:00 - 11:00` #meeting";
    DefaultMatchEntryText("10:00", "11:00", "#meeting");
  }

  lemma ExampleHours(g1: Groups, g2: Groups)
    requires g1 == Groups("09:00", "09:30", "#work") && g2 == Groups("10:00", "11:00", "#meeting")
    ensures ToEntry(g1) == LogEntry("#work", 0.5) && ToEntry(g2) == LogEntry("#meeting", 1.0)
  {
    ClockDigits("09:00");
    ClockDigits("09:30");
    ClockDigits("10:00");
    ClockDigits("11:00");
  }

  /** The summary of a log block with two children holding one entry each, two different tags, nest 1. */
  lemma TwoEntryLog(keyword: string, a: string, b: string, t1: string, t2: string, matcher: Matcher, g1: Groups, g2: Groups)
    requires matcher(t1) == Some(g1) && matcher(t2) == Some(g2) && g1.tag != g2.tag
    ensures SummarySpec([Block(keyword, [Block(a, [Block(t1, [])]), Block(b, [Block(t2, [])])])], Settings(keyword, 1), matcher)
      == Success([TagTotal(g1.tag, ToEntry(g1).hours), TagTotal(g2.tag, ToEntry(g2).hours)])
  {
    var e1, e2 := Block(t1, []), Block(t2, []);
    var log := Block(keyword, [Block(a, [e1]), Block(b, [e2])]);
    FirstHitDecides([log], keyword, 0);
    assert FlattenOnce(log.children[1..]) == [e2] by {
      assert FlattenOnce(log.children[1..][1..]) == [];
    }
    assert FlattenN(log.children, 1) == FlattenOnce(log.children) == [e1, e2];
    var w, m := ToEntry(g1), ToEntry(g2);
    assert ParseEntries([e2], matcher) == Success([m]) by {
      assert [e2][1..] == [];
      assert [m] + [] == [m];
    }
    assert ParseEntries([e1, e2], matcher) == Success([w, m]) by {
      assert [e1, e2][1..] == [e2];
      assert [w] + [m] == [w, m];
    }
    var es := [w, m];
    assert es[..1] == [w] && es[..1][..0] == [];
    var r1 := [TagTotal(w.tag, w.hours)];
    assert GroupSum([w]) == r1;
    assert Bump(r1, m.tag, m.hours) == r1 + Bump(r1[1..], m.tag, m.hours);
    assert GroupSum(es) == r1 + [TagTotal(m.tag, m.hours)];
    assert ExtractSpec([log], Settings(keyword, 1)) == Success([e1, e2]);
    assert SummarySpec([log], Settings(keyword, 1), matcher) == Success(GroupSum(es));
    assert r1 + [TagTotal(m.tag, m.hours)] == [TagTotal(g1.tag, w.hours), TagTotal(g2.tag, m.hours)];
  }
}
