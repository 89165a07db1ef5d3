/**
 * The outline the host hands to the renderer: a page's top-level blocks,
 * each with its text and its ordered children. This module locates the log
 * block among the top-level blocks and flattens its descendants level by
 * level, as the renderer does before parsing the entries.
 */
module Outline {
  import opened Wrappers

  datatype Block = Block(text: string, children: seq<Block>)

  /** `tree.filter(t => t.content === keyword)`: the top-level blocks whose text is exactly `keyword`, in order. */
  function Filter(tree: seq<Block>, keyword: string): (hits: seq<Block>)
    ensures |hits| <= |tree|
    ensures forall b :: b in hits <==> b in tree && b.text == keyword
    ensures hits == [] <==> forall i :: 0 <= i < |tree| ==> tree[i].text != keyword
  {
    if tree == [] then []
    else (if tree[0].text == keyword then [tree[0]] else []) + Filter(tree[1..], keyword)
  }

  /** The first block whose text is exactly `keyword` (the destructuring `const [node] = ...`). */
  function Locate(tree: seq<Block>, keyword: string): (r: Option<Block>)
    ensures r.None? <==> forall i :: 0 <= i < |tree| ==> tree[i].text != keyword
    ensures r.Some? ==> r.value.text == keyword
    ensures r.Some? ==> exists i :: IsFirstHit(tree, keyword, i) && tree[i] == r.value
  {
    var hits := Filter(tree, keyword);
    if hits == [] then None
    else
      FilterHead(tree, keyword);
      Some(hits[0])
  }

  /** `i` is the first position in document order whose text is `keyword`. */
  predicate IsFirstHit(tree: seq<Block>, keyword: string, i: int)
  {
    0 <= i < |tree| && tree[i].text == keyword &&
    forall j :: 0 <= j < i ==> tree[j].text != keyword
  }

  lemma {:induction false} FilterHead(tree: seq<Block>, keyword: string)
    requires Filter(tree, keyword) != []
    ensures exists i :: IsFirstHit(tree, keyword, i) && tree[i] == Filter(tree, keyword)[0]
  {
    if tree[0].text == keyword {
      assert IsFirstHit(tree, keyword, 0);
    } else {
      assert Filter(tree, keyword) == Filter(tree[1..], keyword);
      FilterHead(tree[1..], keyword);
      var i :| IsFirstHit(tree[1..], keyword, i) && tree[1..][i] == Filter(tree[1..], keyword)[0];
      assert IsFirstHit(tree, keyword, i + 1);
    }
  }

  /** Two outlines that agree up to the first hit locate the same block: later blocks are never consulted. */
  lemma FirstHitDecides(tree: seq<Block>, keyword: string, i: int)
    requires IsFirstHit(tree, keyword, i)
    ensures Locate(tree, keyword) == Some(tree[i])
  {
  }

  /** `children.map((child) => child.children).flat()`: one level down, in document order. */
  function FlattenOnce(bs: seq<Block>): (r: seq<Block>)
    ensures forall c :: c in r <==> exists b :: b in bs && c in b.children
  {
    if bs == [] then []
    else
      var r := bs[0].children + FlattenOnce(bs[1..]);
      assert forall b :: b in bs <==> b == bs[0] || b in bs[1..];
      r
  }

  /** `k` successive applications of FlattenOnce, as the nest loop performs them. */
  function FlattenN(bs: seq<Block>, k: nat): seq<Block>
  {
    if k == 0 then bs else FlattenOnce(FlattenN(bs, k - 1))
  }

  /**
   * The nest loop: starting from the log block's children, replace the
   * current sequence by its children `nest` times.
   */
  method Descend(children: seq<Block>, nest: nat) returns (entries: seq<Block>)
    ensures entries == FlattenN(children, nest)
    ensures nest == 0 ==> entries == children
    ensures forall c :: c in entries <==> exists b :: b in children && DescendsAt(b, c, nest)
  {
    entries := children;
    for i := 0 to nest
      invariant entries == FlattenN(children, i)
    {
      entries := FlattenOnce(entries);
    }
    FlattenNDescendants(children, nest);
  }

  // ----- properties of flattening -----

  /** `c` sits exactly `k` levels below `b` (k = 0 means `c` is `b`). */
  ghost predicate DescendsAt(b: Block, c: Block, k: nat)
    decreases k
  {
    if k == 0 then b == c
    else exists d :: d in b.children && DescendsAt(d, c, k - 1)
  }

  /** Flattening the empty sequence any number of times gives the empty sequence. */
  lemma {:induction false} FlattenEmpty(k: nat)
    ensures FlattenN([], k) == []
  {
    if k > 0 {
      FlattenEmpty(k - 1);
    }
  }

  /** Flattening distributes over concatenation: document order is kept. */
  lemma {:induction false} FlattenOnceAppend(a: seq<Block>, b: seq<Block>)
    ensures FlattenOnce(a + b) == FlattenOnce(a) + FlattenOnce(b)
  {
    if a == [] {
      assert a + b == b;
    } else {
      assert (a + b)[1..] == a[1..] + b;
      FlattenOnceAppend(a[1..], b);
    }
  }

  lemma {:induction false} FlattenNAppend(a: seq<Block>, b: seq<Block>, k: nat)
    ensures FlattenN(a + b, k) == FlattenN(a, k) + FlattenN(b, k)
  {
    if k > 0 {
      FlattenNAppend(a, b, k - 1);
      FlattenOnceAppend(FlattenN(a, k - 1), FlattenN(b, k - 1));
    }
  }

  /** Flattening `j + k` times is flattening `j` times and then `k` times. */
  lemma {:induction false} FlattenNCompose(bs: seq<Block>, j: nat, k: nat)
    ensures FlattenN(bs, j + k) == FlattenN(FlattenN(bs, j), k)
  {
    if k > 0 {
      FlattenNCompose(bs, j, k - 1);
    }
  }

  /** The entries after `k` flattenings are exactly the blocks `k` levels below the starting blocks. */
  lemma {:induction false} FlattenNDescendants(bs: seq<Block>, k: nat)
    ensures forall c :: c in FlattenN(bs, k) <==> exists b :: b in bs && DescendsAt(b, c, k)
    decreases k
  {
    if k > 0 {
      FlattenNCompose(bs, 1, k - 1);
      var once := FlattenOnce(bs);
      FlattenNDescendants(once, k - 1);
      forall c
        ensures c in FlattenN(bs, k) <==> exists b :: b in bs && DescendsAt(b, c, k)
      {
        if c in FlattenN(bs, k) {
          var d :| d in once && DescendsAt(d, c, k - 1);
          var b :| b in bs && d in b.children;
          assert DescendsAt(b, c, k);
        }
        if exists b :: b in bs && DescendsAt(b, c, k) {
          var b :| b in bs && DescendsAt(b, c, k);
          var d :| d in b.children && DescendsAt(d, c, k - 1);
          assert d in once;
        }
      }
    }
  }
}
