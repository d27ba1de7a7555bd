/**
 The merge sort of src/c/utlist.h as functions on sequences of elements: one merge, one pass
 over runs of a given width, and why doubling the width sorts stably.

 Stability is stated through any labelling `rank` that increases along the input: equal
 elements must leave in the order of their labels.
 */
module MergeSpec {
  /** An element of a utlist list; sorting changes its links only. */
  class Elt {
    const val: int
    var prev: Elt?
    var next: Elt?

    constructor (v: int)
      ensures val == v
    {
      val := v;
      prev, next := null, null;
    }
  }

  type Cmp = (int, int) -> int
  type Rank = Elt -> int

  ghost predicate TotalPreorder(cmp: Cmp) {
    && (forall a, b :: cmp(a, b) <= 0 || cmp(b, a) <= 0)
    && (forall a, b, c :: cmp(a, b) <= 0 && cmp(b, c) <= 0 ==> cmp(a, c) <= 0)
  }

  predicate Le(cmp: Cmp, x: Elt, y: Elt) {
    cmp(x.val, y.val) <= 0
  }

  /** `x` must stand before `y`: smaller, or equal and labelled earlier. */
  ghost predicate Before(cmp: Cmp, rank: Rank, x: Elt, y: Elt) {
    Le(cmp, x, y) && (Le(cmp, y, x) ==> rank(x) < rank(y))
  }

  ghost predicate Ordered(cmp: Cmp, rank: Rank, s: seq<Elt>) {
    forall i, j :: 0 <= i < j < |s| ==> Before(cmp, rank, s[i], s[j])
  }

  ghost predicate RankBelow(rank: Rank, s: seq<Elt>, t: seq<Elt>) {
    forall x, y :: x in s && y in t ==> rank(x) < rank(y)
  }

  ghost function Merge(cmp: Cmp, p: seq<Elt>, q: seq<Elt>): seq<Elt> {
    if p == [] then q
    else if q == [] then p
    else if Le(cmp, p[0], q[0]) then [p[0]] + Merge(cmp, p[1..], q)
    else [q[0]] + Merge(cmp, p, q[1..])
  }

  ghost function Min(a: int, b: int): int {
    if a < b then a else b
  }

  /** One pass: neighbouring runs of width w are merged pairwise. */
  ghost function Pass(cmp: Cmp, s: seq<Elt>, w: nat): seq<Elt>
    requires w > 0
  {
    if |s| <= w then s
    else
      var h := Min(2 * w, |s|);
      Merge(cmp, s[..w], s[w..h]) + Pass(cmp, s[h..], w)
  }

  /** Every run of width w is ordered, and labels grow from run to run. */
  ghost predicate Runs(cmp: Cmp, rank: Rank, s: seq<Elt>, w: nat)
    requires w > 0
  {
    if |s| <= w then Ordered(cmp, rank, s)
    else Ordered(cmp, rank, s[..w]) && RankBelow(rank, s[..w], s[w..]) && Runs(cmp, rank, s[w..], w)
  }

  lemma {:induction false} MergeSame(cmp: Cmp, p: seq<Elt>, q: seq<Elt>)
    ensures multiset(Merge(cmp, p, q)) == multiset(p) + multiset(q)
    ensures |Merge(cmp, p, q)| == |p| + |q|
    decreases |p| + |q|
  {
    if p != [] && q != [] {
      if Le(cmp, p[0], q[0]) {
        MergeSame(cmp, p[1..], q);
        assert p == [p[0]] + p[1..];
      } else {
        MergeSame(cmp, p, q[1..]);
        assert q == [q[0]] + q[1..];
      }
    }
  }

  lemma SameMembers(s: seq<Elt>, t: seq<Elt>)
    requires multiset(s) == multiset(t)
    ensures forall x :: x in s <==> x in t
  {
    assert forall x :: x in s <==> x in multiset(s);
  }

  lemma SamePlaces(s: seq<Elt>, t: seq<Elt>)
    requires multiset(s) == multiset(t)
    ensures forall i :: 0 <= i < |s| ==> s[i] in t
  {
    assert forall i :: 0 <= i < |s| ==> s[i] in multiset(s);
  }

  ghost predicate From(m: seq<Elt>, p: seq<Elt>, q: seq<Elt>) {
    forall x :: x in m ==> x in p || x in q
  }

  lemma MergeMembers(cmp: Cmp, p: seq<Elt>, q: seq<Elt>, m: seq<Elt>)
    requires m == Merge(cmp, p, q)
    ensures From(m, p, q)
  {
    MergeSame(cmp, p, q);
    assert multiset(p + q) == multiset(p) + multiset(q);
    SameMembers(m, p + q);
  }

  /** A head that belongs before everything may be put in front. */
  lemma ConsOrdered(cmp: Cmp, rank: Rank, x: Elt, s: seq<Elt>)
    requires Ordered(cmp, rank, s) && forall y :: y in s ==> Before(cmp, rank, x, y)
    ensures Ordered(cmp, rank, [x] + s)
  {
  }

  lemma BeforeTrans(cmp: Cmp, rank: Rank, x: Elt, y: Elt, z: Elt)
    requires TotalPreorder(cmp) && Before(cmp, rank, x, y) && Before(cmp, rank, y, z)
    ensures Before(cmp, rank, x, z)
  {
  }

  /** What goes in front of a merge: x is the head of one run and belongs before the other. */
  lemma FrontOfMerge(cmp: Cmp, rank: Rank, x: Elt, rest: seq<Elt>, other: seq<Elt>, m: seq<Elt>)
    requires TotalPreorder(cmp) && Ordered(cmp, rank, [x] + rest) && Ordered(cmp, rank, other) && Ordered(cmp, rank, m)
    requires other != [] ==> Before(cmp, rank, x, other[0])
    requires From(m, rest, other)
    ensures Ordered(cmp, rank, [x] + m)
  {
    forall y | y in m
      ensures Before(cmp, rank, x, y)
    {
      if y in rest {
        var i :| 0 <= i < |rest| && rest[i] == y;
        assert ([x] + rest)[0] == x && ([x] + rest)[i + 1] == y;
      } else {
        HeadBefore(cmp, rank, x, other, y);
      }
    }
    ConsOrdered(cmp, rank, x, m);
  }

  /** Merging two ordered runs, the first labelled lower, gives an ordered run. */
  lemma {:induction false} MergeOrdered(cmp: Cmp, rank: Rank, p: seq<Elt>, q: seq<Elt>)
    requires TotalPreorder(cmp) && Ordered(cmp, rank, p) && Ordered(cmp, rank, q) && RankBelow(rank, p, q)
    ensures Ordered(cmp, rank, Merge(cmp, p, q))
    decreases |p| + |q|
  {
    if p != [] && q != [] {
      assert p[0] in p && q[0] in q;
      if Le(cmp, p[0], q[0]) {
        MergeOrdered(cmp, rank, p[1..], q);
        var m := Merge(cmp, p[1..], q);
        MergeMembers(cmp, p[1..], q, m);
        assert p == [p[0]] + p[1..];
        FrontOfMerge(cmp, rank, p[0], p[1..], q, m);
      } else {
        MergeOrdered(cmp, rank, p, q[1..]);
        var m := Merge(cmp, p, q[1..]);
        MergeMembers(cmp, p, q[1..], m);
        assert q == [q[0]] + q[1..];
        FrontOfMerge(cmp, rank, q[0], q[1..], p, m);
      }
    }
  }

  lemma HeadBefore(cmp: Cmp, rank: Rank, x: Elt, s: seq<Elt>, y: Elt)
    requires TotalPreorder(cmp) && s != [] && Ordered(cmp, rank, s) && y in s && Before(cmp, rank, x, s[0])
    ensures Before(cmp, rank, x, y)
  {
    if y != s[0] {
      BeforeTrans(cmp, rank, x, s[0], y);
    }
  }

  lemma {:induction false} PassSame(cmp: Cmp, s: seq<Elt>, w: nat)
    requires w > 0
    ensures multiset(Pass(cmp, s, w)) == multiset(s) && |Pass(cmp, s, w)| == |s|
    decreases |s|
  {
    if |s| > w {
      var h := Min(2 * w, |s|);
      MergeSame(cmp, s[..w], s[w..h]);
      PassSame(cmp, s[h..], w);
      assert s == s[..w] + s[w..h] + s[h..];
    }
  }

  /** One pass doubles the width of the ordered runs. */
  lemma {:induction false} PassRuns(cmp: Cmp, rank: Rank, s: seq<Elt>, w: nat)
    requires w > 0 && TotalPreorder(cmp) && Runs(cmp, rank, s, w)
    ensures Runs(cmp, rank, Pass(cmp, s, w), 2 * w)
    decreases |s|
  {
    if |s| > w {
      var h := Min(2 * w, |s|);
      var p, q, rest := s[..w], s[w..h], s[h..];
      assert s[w..][..h - w] == q && s[w..][h - w..] == rest;
      assert Runs(cmp, rank, s[w..], w);
      assert Ordered(cmp, rank, q) && RankBelow(rank, p, q);
      MergeOrdered(cmp, rank, p, q);
      MergeSame(cmp, p, q);
      if h < |s| {
        RestRuns(cmp, rank, s, w);
        PassRuns(cmp, rank, rest, w);
        PassSame(cmp, rest, w);
        var m, t := Merge(cmp, p, q), Pass(cmp, rest, w);
        SameMembers(t, rest);
        MergeMembers(cmp, p, q, m);
        assert RankBelow(rank, m, t);
        assert (m + t)[..2 * w] == m && (m + t)[2 * w..] == t;
      } else {
        assert rest == [];
        assert Pass(cmp, s, w) == Merge(cmp, p, q);
      }
    }
  }

  lemma RestRuns(cmp: Cmp, rank: Rank, s: seq<Elt>, w: nat)
    requires w > 0 && Runs(cmp, rank, s, w) && 2 * w < |s|
    ensures Runs(cmp, rank, s[2 * w..], w)
    ensures RankBelow(rank, s[..w], s[2 * w..]) && RankBelow(rank, s[w..2 * w], s[2 * w..])
  {
    var t := s[w..];
    assert t[w..] == s[2 * w..] && t[..w] == s[w..2 * w];
  }

  /** Single elements are ordered runs. */
  lemma {:induction false} SingleRuns(cmp: Cmp, rank: Rank, s: seq<Elt>)
    requires forall i, j :: 0 <= i < j < |s| ==> rank(s[i]) < rank(s[j])
    ensures Runs(cmp, rank, s, 1)
  {
    if |s| > 1 {
      SingleRuns(cmp, rank, s[1..]);
    }
  }
}
