/**
 * The per-tag reduction: every parsed entry adds its hours to a running total
 * kept under its tag, in a dictionary whose keys keep the order in which they
 * were first written; the result is that dictionary's (tag, total) pairs.
 *
 * GroupSum is the specification, as an association list updated by Bump;
 * Reduce is the loop over a map and its insertion order.
 */
module Tally {

  /** One parsed entry: its tag and its elapsed time in hours. */
  datatype LogEntry = LogEntry(tag: string, hours: real)

  /** One (tag, total) pair of the result, in hours. */
  datatype TagTotal = TagTotal(tag: string, total: real)

  function Tags(rows: seq<TagTotal>): (ts: seq<string>)
    ensures |ts| == |rows| && forall i {:trigger ts[i]} :: 0 <= i < |rows| ==> ts[i] == rows[i].tag
  {
    seq(|rows|, i requires 0 <= i < |rows| => rows[i].tag)
  }

  function EntryTags(es: seq<LogEntry>): (ts: seq<string>)
    ensures |ts| == |es| && forall i {:trigger ts[i]} :: 0 <= i < |es| ==> ts[i] == es[i].tag
  {
    seq(|es|, i requires 0 <= i < |es| => es[i].tag)
  }

  predicate NoDup(ts: seq<string>)
  {
    forall i, j :: 0 <= i < j < |ts| ==> ts[i] != ts[j]
  }

  /**
   * `acc[tag] = (acc[tag] || 0) + hours` on the association list: the pair
   * for `tag` grows by `hours`, or a new pair is appended at the end.
   */
  function Bump(rows: seq<TagTotal>, tag: string, hours: real): seq<TagTotal>
  {
    if rows == [] then [TagTotal(tag, hours)]
    else if rows[0].tag == tag then [TagTotal(tag, rows[0].total + hours)] + rows[1..]
    else [rows[0]] + Bump(rows[1..], tag, hours)
  }

  /** Bump keeps the tags where they are and appends `tag` only when it is new. */
  lemma {:induction false} BumpTags(rows: seq<TagTotal>, tag: string, hours: real)
    ensures Tags(Bump(rows, tag, hours)) == if tag in Tags(rows) then Tags(rows) else Tags(rows) + [tag]
  {
    if rows != [] {
      assert Tags(rows) == [rows[0].tag] + Tags(rows[1..]);
      if rows[0].tag != tag {
        BumpTags(rows[1..], tag, hours);
        assert Tags(Bump(rows, tag, hours)) == [rows[0].tag] + Tags(Bump(rows[1..], tag, hours));
      }
    }
  }

  /** The fold of the entries, oldest first, into an initially empty table. */
  function GroupSum(es: seq<LogEntry>): seq<TagTotal>
  {
    if es == [] then []
    else
      var last := es[|es| - 1];
      Bump(GroupSum(es[..|es| - 1]), last.tag, last.hours)
  }

  // ----- reference definitions -----

  /** The entries that carry `tag`, in order. */
  function WithTag(es: seq<LogEntry>, tag: string): seq<LogEntry>
  {
    if es == [] then []
    else
      var last := es[|es| - 1];
      WithTag(es[..|es| - 1], tag) + (if last.tag == tag then [last] else [])
  }

  function SumHours(es: seq<LogEntry>): real
  {
    if es == [] then 0.0 else SumHours(es[..|es| - 1]) + es[|es| - 1].hours
  }

  function SumTotals(rows: seq<TagTotal>): real
  {
    if rows == [] then 0.0 else rows[0].total + SumTotals(rows[1..])
  }

  /** Position of the first occurrence of `t` in `ts`, or `|ts|` when it does not occur. */
  function FirstIndex(ts: seq<string>, t: string): (k: nat)
    ensures k <= |ts|
    ensures k < |ts| <==> t in ts
    ensures k < |ts| ==> ts[k] == t
    ensures forall j :: 0 <= j < k ==> ts[j] != t
  {
    if ts == [] then 0
    else if ts[0] == t then 0
    else 1 + FirstIndex(ts[1..], t)
  }

  // ----- lemmas about one step -----

  /** With distinct tags, Bump adds `hours` to the one pair carrying `tag` and leaves the others alone. */
  lemma {:induction false} BumpTotal(rows: seq<TagTotal>, tag: string, hours: real, i: int)
    requires NoDup(Tags(rows)) && 0 <= i < |rows|
    ensures i < |Bump(rows, tag, hours)| && Bump(rows, tag, hours)[i] ==
      if rows[i].tag == tag then TagTotal(tag, rows[i].total + hours) else rows[i]
  {
    assert Tags(rows) == [rows[0].tag] + Tags(rows[1..]);
    NoDupTail(Tags(rows));
    if i > 0 && rows[0].tag != tag {
      BumpTotal(rows[1..], tag, hours, i - 1);
    } else if i > 0 {
      assert Tags(rows)[0] != Tags(rows)[i];
    }
  }

  lemma NoDupTail(ts: seq<string>)
    requires ts != [] && NoDup(ts)
    ensures NoDup(ts[1..])
  {
    var rest := ts[1..];
    forall i, j | 0 <= i < j < |rest| ensures rest[i] != rest[j] {
      assert rest[i] == ts[i + 1] && rest[j] == ts[j + 1];
    }
  }

  /** A tag not yet in the table lands in a new pair at the end. */
  lemma {:induction false} BumpNew(rows: seq<TagTotal>, tag: string, hours: real)
    requires tag !in Tags(rows)
    ensures Bump(rows, tag, hours) == rows + [TagTotal(tag, hours)]
  {
    if rows != [] {
      assert Tags(rows) == [rows[0].tag] + Tags(rows[1..]);
      BumpNew(rows[1..], tag, hours);
      assert rows == [rows[0]] + rows[1..];
    }
  }

  lemma {:induction false} BumpSum(rows: seq<TagTotal>, tag: string, hours: real)
    ensures SumTotals(Bump(rows, tag, hours)) == SumTotals(rows) + hours
  {
    if rows != [] && rows[0].tag != tag {
      BumpSum(rows[1..], tag, hours);
      var r := Bump(rows, tag, hours);
      assert r[1..] == Bump(rows[1..], tag, hours);
    } else if rows != [] {
      var r := Bump(rows, tag, hours);
      assert r[1..] == rows[1..];
    }
  }

  lemma EntryTagsPrefix(es: seq<LogEntry>)
    requires es != []
    ensures EntryTags(es) == EntryTags(es[..|es| - 1]) + [es[|es| - 1].tag]
  {
  }

  lemma {:induction false} FirstIndexAppend(ts: seq<string>, x: string, t: string)
    requires t in ts || t == x
    ensures FirstIndex(ts + [x], t) == if t in ts then FirstIndex(ts, t) else |ts|
  {
    var k := FirstIndex(ts + [x], t);
    if t in ts {
      var k0 := FirstIndex(ts, t);
      assert (ts + [x])[k0] == t;
    } else {
      assert (ts + [x])[|ts|] == t;
    }
  }

  // ----- properties of the whole reduction -----

  /** Each tag appears at most once, and exactly the tags of the entries appear. */
  lemma {:induction false} GroupSumTags(es: seq<LogEntry>)
    ensures NoDup(Tags(GroupSum(es)))
    ensures forall t :: t in Tags(GroupSum(es)) <==> t in EntryTags(es)
  {
    if es != [] {
      var p, x := es[..|es| - 1], es[|es| - 1];
      GroupSumTags(p);
      BumpTags(GroupSum(p), x.tag, x.hours);
      EntryTagsPrefix(es);
    }
  }

  /** Tags are listed in the order of their first occurrence among the entries. */
  lemma {:induction false} GroupSumOrder(es: seq<LogEntry>)
    ensures forall i, j :: 0 <= i < j < |GroupSum(es)| ==>
      FirstIndex(EntryTags(es), GroupSum(es)[i].tag) < FirstIndex(EntryTags(es), GroupSum(es)[j].tag)
  {
    if es != [] {
      var p, x := es[..|es| - 1], es[|es| - 1];
      var r0, r := GroupSum(p), GroupSum(es);
      GroupSumOrder(p);
      GroupSumTags(p);
      BumpTags(r0, x.tag, x.hours);
      EntryTagsPrefix(es);
      forall i, j | 0 <= i < j < |r|
        ensures FirstIndex(EntryTags(es), r[i].tag) < FirstIndex(EntryTags(es), r[j].tag)
      {
        assert Tags(r)[i] == r[i].tag && Tags(r)[j] == r[j].tag;
        assert Tags(r0)[i] == r0[i].tag;
        assert r0[i].tag in EntryTags(p);
        FirstIndexAppend(EntryTags(p), x.tag, r[i].tag);
        if j < |r0| {
          assert Tags(r0)[j] == r0[j].tag;
          assert r0[j].tag in EntryTags(p);
          FirstIndexAppend(EntryTags(p), x.tag, r[j].tag);
        } else {
          FirstIndexAppend(EntryTags(p), x.tag, r[j].tag);
        }
      }
    }
  }

  /** Each tag's total is the sum of the hours of exactly the entries with that tag. */
  lemma GroupSumTotals(es: seq<LogEntry>)
    ensures forall i :: 0 <= i < |GroupSum(es)| ==> GroupSum(es)[i].total == SumHours(WithTag(es, GroupSum(es)[i].tag))
  {
    forall i | 0 <= i < |GroupSum(es)|
      ensures GroupSum(es)[i].total == SumHours(WithTag(es, GroupSum(es)[i].tag))
    {
      GroupSumTotalAt(es, i);
    }
  }

  lemma {:induction false} GroupSumTotalAt(es: seq<LogEntry>, i: int)
    requires 0 <= i < |GroupSum(es)|
    ensures GroupSum(es)[i].total == SumHours(WithTag(es, GroupSum(es)[i].tag))
  {
    var p, x := es[..|es| - 1], es[|es| - 1];
    var r0, r := GroupSum(p), GroupSum(es);
    assert r == Bump(r0, x.tag, x.hours);
    GroupSumTags(p);
    BumpTags(r0, x.tag, x.hours);
    var t := Tags(r)[i];
    var w0 := WithTag(p, t);
    assert WithTag(es, t) == w0 + (if x.tag == t then [x] else []);
    if i < |r0| {
      GroupSumTotalAt(p, i);
      BumpTotal(r0, x.tag, x.hours, i);
      assert t == r0[i].tag;
      if x.tag == t {
        assert (w0 + [x])[..|w0|] == w0;
        assert SumHours(w0 + [x]) == SumHours(w0) + x.hours;
      } else {
        assert WithTag(es, t) == w0;
      }
    } else {
      BumpNew(r0, x.tag, x.hours);
      NoneWithTag(p, t);
      assert [x][..0] == [];
    }
  }

  /** A tag that no entry carries collects nothing. */
  lemma {:induction false} NoneWithTag(es: seq<LogEntry>, t: string)
    requires t !in EntryTags(es)
    ensures WithTag(es, t) == []
  {
    if es != [] {
      EntryTagsPrefix(es);
      NoneWithTag(es[..|es| - 1], t);
    }
  }

  /** The totals add up to the hours of all the entries. */
  lemma {:induction false} GroupSumGrandTotal(es: seq<LogEntry>)
    ensures SumTotals(GroupSum(es)) == SumHours(es)
  {
    if es != [] {
      GroupSumGrandTotal(es[..|es| - 1]);
      BumpSum(GroupSum(es[..|es| - 1]), es[|es| - 1].tag, es[|es| - 1].hours);
    }
  }

  /** [A: 1 h, B: 0.5 h, A: 0.5 h] reduces to [(A, 1.5), (B, 0.5)]. */
  lemma GroupSumExample()
    ensures GroupSum([LogEntry("A", 1.0), LogEntry("B", 0.5), LogEntry("A", 0.5)]) ==
      [TagTotal("A", 1.5), TagTotal("B", 0.5)]
  {
    var es := [LogEntry("A", 1.0), LogEntry("B", 0.5), LogEntry("A", 0.5)];
    assert es[..2][..1] == es[..1] && es[..1][..0] == [] && es[..|es| - 1] == es[..2];
    var r1 := [TagTotal("A", 1.0)];
    assert GroupSum(es[..1]) == r1;
    var r2 := r1 + [TagTotal("B", 0.5)];
    assert Bump(r1, "B", 0.5) == r2 by { assert Bump(r1[1..], "B", 0.5) == [TagTotal("B", 0.5)]; }
    assert GroupSum(es[..2]) == r2;
    assert Bump(r2, "A", 0.5) == [TagTotal("A", 1.5), TagTotal("B", 0.5)] by { assert r2[1..] == [TagTotal("B", 0.5)]; }
  }

  // ----- the loop over the dictionary -----

  /** `Object.entries(acc)`: the (key, value) pairs in key insertion order. */
  function EntriesOf(order: seq<string>, acc: map<string, real>): (rows: seq<TagTotal>)
    requires forall t :: t in order ==> t in acc
  {
    if order == [] then []
    else
      [TagTotal(order[0], acc[order[0]])] + EntriesOf(order[1..], acc)
  }

  /**
   * The reduce: a dictionary `acc` and the order its keys were first
   * written, updated entry by entry; the result is `Object.entries(acc)`.
   */
  method Reduce(contents: seq<LogEntry>) returns (agg: seq<TagTotal>)
    ensures agg == GroupSum(contents)
    ensures NoDup(Tags(agg))
  {
    var order: seq<string> := [];
    var acc: map<string, real> := map[];
    for i := 0 to |contents|
      invariant NoDup(order)
      invariant forall t :: t in order <==> t in acc
      invariant EntriesOf(order, acc) == GroupSum(contents[..i])
    {
      var e := contents[i];
      ghost var rows := GroupSum(contents[..i]);
      assert GroupSum(contents[..i + 1]) == Bump(rows, e.tag, e.hours) by {
        assert contents[..i + 1][..i] == contents[..i];
      }
      // acc[tag] = (acc[tag] || 0) + elapsed, a new key joining the end of the key order
      ghost var order0, acc0 := order, acc;
      var prior := if e.tag in acc then acc[e.tag] else 0.0;
      if e.tag !in acc {
        order := order + [e.tag];
      }
      acc := acc[e.tag := prior + e.hours];
      AccumulateStep(order0, acc0, e.tag, e.hours, order, acc);
    }
    assert contents[..|contents|] == contents;
    agg := EntriesOf(order, acc);
    GroupSumTags(contents);
  }

  /** One step of the reduce on the dictionary is one Bump on its entries. */
  lemma AccumulateStep(order: seq<string>, acc: map<string, real>, tag: string, hours: real,
                       order': seq<string>, acc': map<string, real>)
    requires NoDup(order) && forall t :: t in order <==> t in acc
    requires order' == if tag in acc then order else order + [tag]
    requires acc' == acc[tag := (if tag in acc then acc[tag] else 0.0) + hours]
    ensures NoDup(order') && forall t :: t in order' <==> t in acc'
    ensures EntriesOf(order', acc') == Bump(EntriesOf(order, acc), tag, hours)
  {
    if tag in acc {
      assert order' == order && acc' == acc[tag := acc[tag] + hours];
      AccumulateExisting(order, acc, tag, hours);
    } else {
      assert order' == order + [tag] && acc' == acc[tag := 0.0 + hours];
      AccumulateNew(order, acc, tag, hours);
    }
    forall t ensures t in order' <==> t in acc' {
      assert t in order' <==> t in order || t == tag;
    }
  }

  /** The keys of `Object.entries(acc)` come out in insertion order. */
  lemma {:induction false} EntriesOfTags(order: seq<string>, acc: map<string, real>)
    requires forall t :: t in order ==> t in acc
    ensures Tags(EntriesOf(order, acc)) == order
  {
    if order != [] {
      EntriesOfTags(order[1..], acc);
      assert Tags(EntriesOf(order, acc)) == [order[0]] + Tags(EntriesOf(order[1..], acc));
    }
  }

  lemma {:induction false} EntriesAgree(order: seq<string>, acc: map<string, real>, acc': map<string, real>)
    requires forall t :: t in order ==> t in acc && t in acc' && acc[t] == acc'[t]
    ensures EntriesOf(order, acc) == EntriesOf(order, acc')
  {
    if order != [] {
      EntriesAgree(order[1..], acc, acc');
    }
  }

  /** Adding to a key already present updates its pair in place. */
  lemma {:induction false} AccumulateExisting(order: seq<string>, acc: map<string, real>, tag: string, hours: real)
    requires NoDup(order) && tag in order
    requires forall t :: t in order ==> t in acc
    ensures EntriesOf(order, acc[tag := acc[tag] + hours]) == Bump(EntriesOf(order, acc), tag, hours)
  {
    var acc' := acc[tag := acc[tag] + hours];
    var rest := order[1..];
    NoDupTail(order);
    if order[0] == tag {
      assert tag !in rest by {
        forall j | 0 <= j < |rest| ensures rest[j] != tag {
          assert order[0] != order[j + 1];
        }
      }
      EntriesAgree(rest, acc, acc');
    } else {
      AccumulateExisting(rest, acc, tag, hours);
      EntriesAgree(rest, acc[tag := acc[tag] + hours], acc');
    }
  }

  /** Adding to a new key appends its pair at the end. */
  lemma {:induction false} AccumulateNew(order: seq<string>, acc: map<string, real>, tag: string, hours: real)
    requires tag !in order
    requires forall t :: t in order ==> t in acc
    ensures NoDup(order) ==> NoDup(order + [tag])
    ensures EntriesOf(order + [tag], acc[tag := 0.0 + hours]) == Bump(EntriesOf(order, acc), tag, hours)
  {
    var acc' := acc[tag := 0.0 + hours];
    AppendEntry(order, tag, acc');
    EntriesAgree(order, acc, acc');
    EntriesOfTags(order, acc);
    BumpNew(EntriesOf(order, acc), tag, hours);
  }

  lemma {:induction false} AppendEntry(order: seq<string>, tag: string, acc: map<string, real>)
    requires forall t :: t in order + [tag] ==> t in acc
    ensures EntriesOf(order + [tag], acc) == EntriesOf(order, acc) + [TagTotal(tag, acc[tag])]
  {
    if order != [] {
      assert (order + [tag])[1..] == order[1..] + [tag];
      AppendEntry(order[1..], tag, acc);
    }
  }
}
