# Journal summary, modelled in Dafny

This project models the core of the Logseq plugin `logseq-journal-summary`. The
plugin's macro renderer `{{renderer journal-summary}}` turns the time log on a
journal page into a table of hours per tag. Given the page's block tree and
the plugin settings, the renderer:

1. finds the first top-level block whose text is exactly the `keyword`
   setting (default `## Log`). If there is none, it shows the error
   `Error: "<keyword>" not exist`;
2. starts from that block's children and replaces them by their own children
   `nest` times (default 1);
3. matches every resulting entry against the `regexp` setting, which has the
   named groups `start`, `end` and `tag`. It converts the two `HH:MM` captures
   to minutes and takes `end - start`. This value can be negative and never
   wraps past midnight. Dividing it by 60 gives hours. A single entry that does
   not match aborts the whole table;
4. adds up the hours per tag, keeping tags in the order they first appear,
   and shows the (tag, total) pairs.

Modules:

- `Wrappers` (wrappers.dfy): `Option` and `Result`.
- `Outline` (outline.dfy): blocks, the keyword lookup (`Filter`, `Locate`),
  one level of flattening (`FlattenOnce`), its `k`-fold iteration
  (`FlattenN`), and the nest loop as a method (`Descend`). There are lemmas on
  document order, on the empty sequence, on composition, and a
  characterisation of the entries as the blocks `nest` levels below the log
  block's children.
- `Clock` (clock.dfy): the `HH:MM` captures, `parseInt` on digit strings
  (`ParseDecimal`) and its round trip with zero-padded formatting. Also the
  elapsed minutes, hours as exact reals, and the no-wrap behaviour.
- `EntryPattern` (pattern.dfy): the captures (`Groups`) and the abstract
  matcher type. Also the pattern of the default `regexp` setting, written out
  as a leftmost search (`DefaultMatch`).
- `Tally` (tally.dfy): the per-tag reduction. `GroupSum` specifies it on an
  association list. `Reduce` is the loop over a dictionary plus its key
  insertion order, which is how a JavaScript object behaves. Lemmas cover
  uniqueness, first-seen order, per-tag sums and the grand total.
- `JournalSummary` (summary.dfy): settings, errors and messages, the per-entry
  parse (`ParseEntries`, all or nothing), the whole pipeline as a function
  (`SummarySpec`) and as methods (`Extract`, `Summarize`), and its properties.

The regular expression engine is not modelled in general. A pattern is a
function `string -> Option<Groups>`, and only the default pattern is given
concretely. The host's block tree arrives as a value.

Two behaviours of the code are modelled as written:

- A non-matching entry surfaces as the engine's `TypeError` for reading
  `groups` of `null` (index.js:60), so the rendered text names no entry.
  `Error.ParseFailure` still records which entry failed first, but `Message`
  renders the TypeError text. That text is the V8 wording used by the host
  and is engine-dependent.
- Elapsed minutes are not checked (index.js:65-68): `23:00` to `01:00` gives
  -1320 minutes (-22 hours) (`Clock.NoDayWrap`, `Clock.ElapsedExamples`).

The default pattern requires the opening backquote, so the entries in
`JournalSummary.DefaultSettingsExample` are written as `` `09:00 - 09:30` #work ``.

## Model

| member | source | states |
|---|---|---|
| `Outline.Filter` | index.js:47 | the kept blocks are exactly the top-level blocks whose text equals the keyword; the result is empty iff no block's text equals it |
| `Outline.Locate` | index.js:47-52 | nothing is found iff no top-level block's text equals the keyword; otherwise the block found is the first such block in document order |
| `Outline.FilterHead` | index.js:47 | the head of the filtered list is the first top-level block, in document order, whose text is the keyword |
| `Outline.FirstHitDecides` | index.js:47 | once block `i` is the first one with the keyword, the lookup returns it whatever follows it |
| `Outline.FlattenOnce` | index.js:56 | `map(child => child.children).flat()` contains exactly the children of the blocks it is given |
| `Outline.Descend` | index.js:54-57 | the nest loop yields `nest` successive flattenings of the log block's children; with `nest = 0` it yields the children themselves; its results are exactly the blocks `nest` levels below those children |
| `Outline.FlattenEmpty` | index.js:55-56 | flattening an empty sequence any number of times gives the empty sequence |
| `Outline.FlattenOnceAppend` | index.js:56 | one flattening distributes over concatenation, so document order is preserved |
| `Outline.FlattenNAppend` | index.js:55-56 | `k` flattenings distribute over concatenation |
| `Outline.FlattenNCompose` | index.js:55-56 | flattening `j + k` times equals flattening `j` times and then `k` times |
| `Outline.FlattenNDescendants` | index.js:54-57 | after `k` flattenings a block is present iff it lies exactly `k` levels below one of the starting blocks |
| `Clock.ParseDecimal` | index.js:66-68 | `parseInt` on `n` decimal digits gives a value below 10^n |
| `Clock.ParsePadded` | index.js:66-68 | `parseInt` reads back any number written with zero padding |
| `Clock.PaddedParse` | index.js:66-68 | writing a parsed digit string back with the same width reproduces it |
| `Clock.TwoDigits` | index.js:66-68 | a two-digit string is read as ten times its first digit plus its second |
| `Clock.ParseClock` | index.js:62-63 | splitting an `HH:MM` capture on `:` and reading both halves gives an hour and a minute, each below 100 |
| `Clock.ParseThenFormat` | index.js:62-68 | reading an `HH:MM` capture and writing it back reproduces the capture |
| `Clock.FormatThenParse` | index.js:62-68 | writing an hour and a minute as `HH:MM` and reading them back gives the same pair |
| `Clock.ClockDigits` | index.js:62-68 | the hour and minute of a capture, digit by digit |
| `Clock.Hours` | index.js:72 | hours times 60 equal the elapsed minutes, computed exactly |
| `Clock.NoDayWrap` | index.js:65-68 | for two times of day, elapsed minutes are negative exactly when the end is earlier in the day than the start, and stay strictly within one day either way |
| `Clock.ElapsedExamples` | index.js:65-72 | 09:00 to 10:30 is 90 minutes (1.5 hours); 23:00 to 01:00 is -1320 minutes (-22 hours) |
| `EntryPattern.RunLength` | index.js:25 | greedy `\S*`: the run stays in the text, contains no white space, and stops at white space or at the end of the text |
| `EntryPattern.SearchFrom` | index.js:60 | no position is found iff the default pattern matches nowhere from `p` on; otherwise the position found is the leftmost match |
| `EntryPattern.DefaultMatch` | index.js:25 | the default `regexp` gives null iff it matches nowhere; otherwise it returns the captures of the leftmost match |
| `EntryPattern.CapturedTagShape` | index.js:25 | every captured tag is `#` followed by at least one non-white-space character, and it extends up to white space or the end of the text |
| `EntryPattern.DefaultMatchEntryText` | index.js:25 | on `` `HH:MM - HH:MM` #tag `` the default pattern captures exactly those start, end and tag |
| `Tally.BumpTags` | index.js:78 | one update keeps existing keys in place and appends the tag only when it is new |
| `Tally.BumpTotal` | index.js:78 | with distinct keys, one update adds the hours to the tag's own total and leaves every other pair unchanged |
| `Tally.BumpNew` | index.js:78 | a tag not yet present becomes a new last pair holding the entry's hours (a missing key counts as 0) |
| `Tally.BumpSum` | index.js:78 | one update raises the sum of all totals by exactly the entry's hours |
| `Tally.GroupSumTags` | index.js:76-81 | in the aggregation each tag appears at most once, and exactly the entries' tags appear |
| `Tally.GroupSumOrder` | index.js:76-81 | tags appear in the order of their first occurrence among the entries |
| `Tally.GroupSumTotals` | index.js:77-80 | each tag's total is the sum of the hours of exactly the entries with that tag |
| `Tally.GroupSumTotalAt` | index.js:77-80 | the same, for one pair of the aggregation |
| `Tally.NoneWithTag` | index.js:77-80 | a tag that no entry carries collects no entries |
| `Tally.GroupSumGrandTotal` | index.js:77-80 | the totals add up to the hours of all entries |
| `Tally.GroupSumExample` | index.js:76-81 | entries A 1 h, B 0.5 h, A 0.5 h aggregate to `[(A, 1.5), (B, 0.5)]` |
| `Tally.Reduce` | index.js:76-81 | the reduce over a dictionary with insertion-ordered keys, followed by `Object.entries`, returns the specified aggregation and repeats no tag |
| `Tally.AccumulateStep` | index.js:78 | one dictionary update (the old total, or 0 for a new key, plus the hours) keeps its keys distinct and in step with the key order, and amounts to one update of the entries |
| `Tally.AccumulateExisting` | index.js:78 | updating a key that is present changes its pair in place |
| `Tally.AccumulateNew` | index.js:78 | writing a new key appends its pair after all the others |
| `Tally.EntriesOfTags` | index.js:76 | `Object.entries` lists the keys in insertion order |
| `Tally.AppendEntry` | index.js:76 | a key added last comes out last in `Object.entries` |
| `JournalSummary.NotFoundMentionsKeyword` | index.js:51 | the "not exist" message contains the configured keyword |
| `JournalSummary.ToEntry` | index.js:65-73 | an entry keeps the captured tag, and its hours times 60 equal end minutes minus start minutes |
| `JournalSummary.ParseEntries` | index.js:59-74 | parsing succeeds iff every entry matches; the result then has one entry per block, in order, built from that block's captures; a failure is always a ParseFailure |
| `JournalSummary.ParseFailureNamesFirst` | index.js:59-60 | a failed parse names the first entry, in order, that the pattern does not match |
| `JournalSummary.Extract` | index.js:47-57 | the lookup and nest loop fail iff no top-level block has the keyword as its text, and the failure is then NotFound(keyword); otherwise they give the specified entries |
| `JournalSummary.Summarize` | index.js:47-117 | the renderer shows the table of the specified aggregation, or the message of the first failure |
| `JournalSummary.MissingLogBlock` | index.js:47-52 | the result is NotFound(keyword) iff no top-level block's text equals the keyword; the displayed error then names the keyword |
| `JournalSummary.FirstLogBlockDecides` | index.js:47 | only the first keyword block is used: replacing everything after it, including other keyword blocks, changes nothing, and the entries are that block's descendants |
| `JournalSummary.UnmatchedEntryAborts` | index.js:59-60 | one entry that does not match makes the whole result an error even if earlier entries matched, and the error names the first unmatched entry |
| `JournalSummary.ParsedTags` | index.js:59-74 | the parsed entries carry the captured tags in entry order |
| `JournalSummary.ParsedHours` | index.js:65-80 | the hours of the entries with a tag add up to those entries' elapsed minutes divided by 60, and the same holds for all entries |
| `JournalSummary.SuccessfulSummary` | index.js:76-81 | a shown table lists each captured tag once, in first-seen order; each total is that tag's elapsed minutes / 60; the totals add up to all elapsed minutes / 60 |
| `JournalSummary.TwoEntryLog` | index.js:47-81 | with nest 1, a log block with two children holding one entry each, under different tags, gives one pair per tag in entry order |
| `JournalSummary.WorkEntryMatches` | index.js:25 | the default pattern captures start `09:00`, end `09:30` and tag `#work` from `` `09:00 - 09:30` #work `` |
| `JournalSummary.MeetingEntryMatches` | index.js:25 | the default pattern captures start `10:00`, end `11:00` and tag `#meeting` from `` `10:00 - 11:00` #meeting `` |
| `JournalSummary.DefaultSettingsExample` | index.js:2-27 | with the default settings and pattern, a "## Log" block whose children hold `` `09:00 - 09:30` #work `` and `` `10:00 - 11:00` #meeting `` gives `[(#work, 0.5), (#meeting, 1.0)]` |

## Left out

- Host glue is not modelled: the settings schema registration, the slash command that inserts the renderer macro, the bootstrap and the `console.log` call (index.js:29-34, 40, 124).
- The block, the page and the page's block tree are fetched asynchronously from the host (index.js:43-45). The model takes the resolved top-level blocks as input.
- The `type === "journal-summary"` dispatch on the macro arguments (index.js:42) is not modelled.
- The HTML table, the error `div` and `logseq.provideUI` (index.js:83-117) are not modelled. The model keeps only their content: the (tag, total) rows, or the message text (`View`).
- The general JavaScript regular expression engine is not modelled. User-supplied patterns are an abstract `Matcher`, and only the default pattern is written out.
- Clock.ParseClock: it handles only the two-digit `HH:MM` captures that the default pattern guarantees. A custom pattern capturing other shapes would reach `parseInt` cases such as NaN or a leading non-digit, and those are not modelled.
- Hours are exact reals. The IEEE-754 rounding of `elapsed / 60` and of the running float sums is not reproduced.
- `Object.entries` lists integer-like keys (such as `"12"`) before the others, and the accumulator `{}` inherits from `Object.prototype` (index.js:77-78): a `__proto__` tag is special, and a tag equal to any inherited property name (`constructor`, `toString`, `valueOf`, `hasOwnProperty`, ...) makes `acc[tag] || 0` read a function, so `+ elapsed` concatenates text instead of adding. The default pattern cannot capture such tags (they lack the leading `#`), but a custom pattern can. Tags are modelled as keys of an empty map, kept in plain insertion order and always added numerically.
- `nest` is a natural number. Fractional, negative or non-numeric settings are not modelled.
- Blocks always carry a (possibly empty) list of children. A block whose `children` field is missing, which `flat()` would keep as `undefined`, is not modelled.
