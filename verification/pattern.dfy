/**
 * The captures of the entry pattern, and the pattern of the default
 * `regexp` setting, `(?<start>\d{2}:\d{2}) - (?<end>\d{2}:\d{2})` (?<tag>#\S+)
 * between backquotes as written in the setting, searched for anywhere in an
 * entry's text. Every part of it has a fixed width except the tag, which
 * takes the longest run of non-whitespace after `#`, so the first match is
 * found by trying each start position in turn.
 */
module EntryPattern {
  import opened Wrappers
  import opened Clock

  /** The named captures `start`, `end` and `tag` of a match. */
  datatype Groups = Groups(start: ClockText, end: ClockText, tag: string)

  /** `text.match(regexp)`: the captures of a match, or None where `match` returns null. */
  type Matcher = string -> Option<Groups>

  /** `\s` of JavaScript regular expressions: the Unicode white space and line terminators. */
  predicate IsSpace(c: char)
  {
    var n := c as int;
    (9 <= n <= 13) || n == 32 || n == 0xA0 || n == 0x1680 || (0x2000 <= n <= 0x200A) ||
    n == 0x2028 || n == 0x2029 || n == 0x202F || n == 0x205F || n == 0x3000 || n == 0xFEFF
  }

  /** Length of the longest run of non-white-space characters of `s` from `i` on (greedy `\S*`). */
  function RunLength(s: string, i: nat): (n: nat)
    requires i <= |s|
    ensures i + n <= |s|
    ensures forall k :: i <= k < i + n ==> !IsSpace(s[k])
    ensures i + n == |s| || IsSpace(s[i + n])
    decreases |s| - i
  {
    if i == |s| || IsSpace(s[i]) then 0 else 1 + RunLength(s, i + 1)
  }

  /** Width of the fixed part: a backquote, `HH:MM - HH:MM`, a backquote, a space and `#`. */
  const FixedWidth: nat := 17

  /** The default pattern matches `s` starting at position `p`. */
  predicate MatchesAt(s: string, p: int)
  {
    0 <= p && p + FixedWidth < |s| &&
    s[p] == '`' && IsClockText(s[p + 1..p + 6]) && s[p + 6..p + 9] == " - " &&
    IsClockText(s[p + 9..p + 14]) && s[p + 14..p + 17] == "` #" && !IsSpace(s[p + 17])
  }

  /** The captures of the match at `p`; the tag keeps its `#` and runs as far as it can. */
  function CapturesAt(s: string, p: int): Groups
    requires MatchesAt(s, p)
  {
    Groups(s[p + 1..p + 6], s[p + 9..p + 14], s[p + 16..p + 18 + RunLength(s, p + 18)])
  }

  /** `q` is the first position at or after `p` where the pattern matches. */
  predicate FirstMatchFrom(s: string, p: int, q: int)
  {
    MatchesAt(s, q) && forall k :: p <= k < q ==> !MatchesAt(s, k)
  }

  /** The leftmost position, from `p` on, where the pattern matches. */
  function SearchFrom(s: string, p: nat): (r: Option<nat>)
    ensures r.None? <==> forall q :: p <= q ==> !MatchesAt(s, q)
    ensures r.Some? ==> FirstMatchFrom(s, p, r.value)
    decreases |s| - p
  {
    if |s| <= p + FixedWidth then None
    else if MatchesAt(s, p) then Some(p)
    else SearchFrom(s, p + 1)
  }

  /** `text.match(regexp)` for the default `regexp` setting: the captures of the leftmost match. */
  function DefaultMatch(text: string): (r: Option<Groups>)
    ensures r.None? <==> forall q :: !MatchesAt(text, q)
    ensures r.Some? ==> exists q :: FirstMatchFrom(text, 0, q) && r.value == CapturesAt(text, q)
  {
    match SearchFrom(text, 0)
    case None => None
    case Some(q) => Some(CapturesAt(text, q))
  }

  /** A tag as the default pattern captures it: `#` followed by at least one non-white-space character. */
  predicate IsTag(tag: string)
  {
    |tag| >= 2 && tag[0] == '#' && forall k :: 1 <= k < |tag| ==> !IsSpace(tag[k])
  }

  /** Every tag the default pattern captures has the shape `#\S+`, cut where white space begins. */
  lemma CapturedTagShape(s: string, p: int)
    requires MatchesAt(s, p)
    ensures IsTag(CapturesAt(s, p).tag)
    ensures var end := p + 16 + |CapturesAt(s, p).tag|; end == |s| || IsSpace(s[end])
  {
    var tag := CapturesAt(s, p).tag;
    assert tag[0] == s[p + 14..p + 17][2] == '#';
    forall k | 1 <= k < |tag| ensures !IsSpace(tag[k]) {
      assert tag[k] == s[p + 16 + k];
    }
  }

  /** The entry text `` `start - end` tag `` as a journal line writes it. */
  function EntryText(start: ClockText, end: ClockText, tag: string): string
  {
    "`" + start + " - " + end + "` " + tag
  }

  /** The default pattern reads back the times and the tag of an entry text. */
  lemma DefaultMatchEntryText(start: ClockText, end: ClockText, tag: string)
    requires IsTag(tag)
    ensures DefaultMatch(EntryText(start, end, tag)) == Some(Groups(start, end, tag))
  {
    var s := EntryText(start, end, tag);
    assert s[1..6] == start && s[6..9] == " - " && s[9..14] == end && s[14..17] == "` #";
    assert s[16..] == tag;
    assert MatchesAt(s, 0);
    RunToEnd(s, 18);
    assert s[16..18 + RunLength(s, 18)] == tag;
  }

  lemma {:induction false} RunToEnd(s: string, i: nat)
    requires i <= |s| && forall k :: i <= k < |s| ==> !IsSpace(s[k])
    ensures RunLength(s, i) == |s| - i
    decreases |s| - i
  {
    if i < |s| {
      RunToEnd(s, i + 1);
    }
  }
}
