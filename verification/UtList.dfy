/**
 The doubly linked list macros of src/c/utlist.h that the router uses, and `DL_SORT`.

 The head's `prev` points at the tail and the tail's `next` is NULL; the ghost sequence
 `nodes` lists the elements in order.
 */
module UtList {
  import opened Wrappers
  import opened MergeSpec

  ghost predicate Distinct(s: seq<Elt>) {
    forall i, j :: 0 <= i < j < |s| ==> s[i] != s[j]
  }

  /** From position k on, each element points at the next one, and the last at NULL. */
  ghost predicate Forward(s: seq<Elt>, k: int)
    reads s`next
  {
    && (forall i {:trigger s[i].next} :: 0 <= k <= i < |s| - 1 ==> s[i].next == s[i + 1])
    && (0 <= k < |s| ==> s[|s| - 1].next == null)
  }

  ghost predicate Backward(s: seq<Elt>)
    reads s`prev
  {
    forall i {:trigger s[i].prev} :: 0 < i < |s| ==> s[i].prev == s[i - 1]
  }

  /** A well formed list. */
  ghost predicate DList(nodes: seq<Elt>, head: Elt?)
    reads nodes
  {
    && Distinct(nodes) && Forward(nodes, 0) && Backward(nodes)
    && if nodes == [] then head == null
       else head == nodes[0] && nodes[0].prev == nodes[|nodes| - 1]
  }

  ghost function At(s: seq<Elt>, k: nat): Elt? {
    if k < |s| then s[k] else null
  }

  /** `DL_APPEND2` */
  method Append(ghost nodes: seq<Elt>, head: Elt?, add: Elt) returns (h: Elt)
    requires DList(nodes, head) && add !in nodes
    modifies nodes, add
    ensures DList(nodes + [add], h)
  {
    if head != null {
      add.prev := head.prev;
      head.prev.next := add;
      head.prev := add;
      add.next := null;
      h := head;
    } else {
      h := add;
      h.prev := h;
      h.next := null;
    }
  }

  lemma DistinctWithout(s: seq<Elt>, k: nat)
    requires Distinct(s) && k < |s|
    ensures Distinct(s[..k] + s[k + 1..])
  {
    var t := s[..k] + s[k + 1..];
    forall i, j | 0 <= i < j < |t|
      ensures t[i] != t[j]
    {
      assert t[i] == s[if i < k then i else i + 1] && t[j] == s[if j < k then j else j + 1];
    }
  }

  /** `DL_DELETE2` */
  method Delete(ghost nodes: seq<Elt>, head: Elt?, del: Elt, ghost k: nat) returns (h: Elt?)
    requires DList(nodes, head) && k < |nodes| && del == nodes[k]
    modifies nodes
    ensures DList(nodes[..k] + nodes[k + 1..], h)
    ensures del.next == old(del.next)
  {
    ghost var after := nodes[..k] + nodes[k + 1..];
    assert forall i :: 0 <= i < |after| ==> after[i] == if i < k then nodes[i] else nodes[i + 1];
    DistinctWithout(nodes, k);
    assert k > 0 ==> del.prev == nodes[k - 1];
    assert k == 0 ==> del.prev == nodes[|nodes| - 1] && del == head;
    assert del.next == At(nodes, k + 1);
    h := head;
    if del.prev == del {
      h := null;
    } else if del == head {
      del.next.prev := del.prev;
      h := del.next;
    } else {
      del.prev.next := del.next;
      if del.next != null {
        del.next.prev := del.prev;
      } else {
        head.prev := del.prev;
      }
    }
  }

  /**
   `DL_FOREACH_SAFE2` with a deletion in its body, as `chirouter_arp_pending_req_free_frames` uses
   it; `visited` lists what the body was run for, and in what order.
   */
  method DeleteEach(ghost nodes: seq<Elt>, head: Elt?) returns (h: Elt?, ghost visited: seq<Elt>)
    requires DList(nodes, head)
    modifies nodes
    ensures h == null && visited == nodes
  {
    hide *;
    h, visited := head, [];
    var el := head;
    ghost var k := 0;
    HeadFirst(nodes, head);
    while el != null
      invariant 0 <= k <= |nodes| && el == At(nodes, k) && DList(nodes[k..], h) && visited == nodes[..k]
      decreases |nodes| - k
    {
      visited := visited + [el];
      PrefixMore(nodes, k);
      el, h := DeleteFront(nodes, h, el, k);
      k := k + 1;
    }
    NothingLeft(nodes, k, h);
  }

  /** One round: the successor is read before the element is deleted. */
  method DeleteFront(ghost nodes: seq<Elt>, head: Elt?, el: Elt, ghost k: nat) returns (tmp: Elt?, h: Elt?)
    requires k <= |nodes| && DList(nodes[k..], head) && el == At(nodes, k)
    modifies nodes
    ensures k < |nodes| && DList(nodes[k + 1..], h) && tmp == At(nodes, k + 1)
  {
    hide *;
    FrontOf(nodes, k, head);
    tmp := el.next;
    h := Delete(nodes[k..], head, el, 0);
    assert nodes[k..][..0] + nodes[k..][1..] == nodes[k + 1..];
  }

  lemma PrefixMore(nodes: seq<Elt>, k: nat)
    ensures At(nodes, k) != null ==>
              k < |nodes| && nodes[..k + 1] == nodes[..k] + [nodes[k]] && At(nodes, k) == nodes[k]
  {
  }

  lemma HeadFirst(nodes: seq<Elt>, head: Elt?)
    requires DList(nodes, head)
    ensures nodes[0..] == nodes && nodes[..0] == [] && head == At(nodes, 0)
  {
  }

  lemma FrontOf(nodes: seq<Elt>, k: nat, h: Elt?)
    requires k <= |nodes| && DList(nodes[k..], h) && At(nodes, k) != null
    ensures k < |nodes| && At(nodes, k) == nodes[k] == nodes[k..][0] && nodes[k].next == At(nodes, k + 1)
    ensures forall x :: x in nodes[k..] ==> x in nodes
  {
    if k + 1 < |nodes| { assert nodes[k..][1] == nodes[k + 1]; }
  }

  lemma NothingLeft(nodes: seq<Elt>, k: nat, h: Elt?)
    requires k <= |nodes| && DList(nodes[k..], h) && At(nodes, k) == null
    ensures k == |nodes| && h == null && nodes[..k] == nodes
  {
  }

  /** The output list of a pass: linked both ways but for its ends. */
  ghost predicate Emitted(out: seq<Elt>, head: Elt?, tail: Elt?)
    reads out
  {
    && Distinct(out) && Backward(out)
    && (forall i {:trigger out[i].next} :: 0 <= i < |out| - 1 ==> out[i].next == out[i + 1])
    && if out == [] then head == null && tail == null
       else head == out[0] && tail == out[|out| - 1] && head.prev == null
  }

  /** The end of the inner loop body of `DL_SORT2`: `e` becomes the new tail. */
  method Emit(ghost out: seq<Elt>, head: Elt?, tail: Elt?, e: Elt) returns (h: Elt, t: Elt)
    requires Emitted(out, head, tail) && e !in out
    modifies (if tail == null then {} else {tail})`next, e`prev
    ensures Emitted(out + [e], h, t)
  {
    if tail != null {
      tail.next := e;
      h := head;
    } else {
      h := e;
    }
    e.prev := tail;
    t := e;
  }

  /** The elements still to be emitted: positions i .. mid - 1 of one run, and everything from j on. */
  ghost predicate Waiting(s: seq<Elt>, i: int, mid: int, j: int, out: seq<Elt>)
    reads s`next
  {
    && 0 <= i <= mid <= j <= |s|
    && (forall t {:trigger s[t].next} :: i <= t < mid - 1 ==> s[t].next == s[t + 1])
    && Forward(s, j)
    && (forall t {:trigger s[t]} :: i <= t < mid || j <= t < |s| ==> s[t] !in out)
    && (forall x :: x in out ==> x in s)
  }

  lemma MergeTakesFirst(cmp: Cmp, s: seq<Elt>, i: int, mid: int, j: int, hi: int)
    requires 0 <= i < mid <= j <= hi <= |s| && (j < hi ==> Le(cmp, s[i], s[j]))
    ensures Merge(cmp, s[i..mid], s[j..hi]) == [s[i]] + Merge(cmp, s[i + 1..mid], s[j..hi])
  {
    assert s[i..mid][1..] == s[i + 1..mid];
    assert s[i..mid] == [s[i]] + s[i + 1..mid];
  }

  lemma MergeTakesSecond(cmp: Cmp, s: seq<Elt>, i: int, mid: int, j: int, hi: int)
    requires 0 <= i <= mid <= j < hi <= |s| && (i < mid ==> !Le(cmp, s[i], s[j]))
    ensures Merge(cmp, s[i..mid], s[j..hi]) == [s[j]] + Merge(cmp, s[i..mid], s[j + 1..hi])
  {
    assert s[j..hi][1..] == s[j + 1..hi];
    assert s[j..hi] == [s[j]] + s[j + 1..hi];
  }

  /** One element moves from the front of a run to the output. */
  method EmitFrom(ghost s: seq<Elt>, ghost out: seq<Elt>, head: Elt?, tail: Elt?, e: Elt,
                  ghost i: nat, ghost mid: nat, ghost j: nat, ghost first: bool) returns (h: Elt, t: Elt)
    requires Distinct(s) && Waiting(s, i, mid, j, out) && Emitted(out, head, tail)
    requires if first then i < mid && e == s[i] else j < |s| && e == s[j]
    modifies s`next, s`prev
    ensures Emitted(out + [e], h, t)
    ensures if first then Waiting(s, i + 1, mid, j, out + [e]) else Waiting(s, i, mid, j + 1, out + [e])
  {
    assert e in s && (out != [] ==> tail in out);
    h, t := Emit(out, head, tail, e);
  }

  /** One round of the merging loop: the next element leaves its run. */
  method MergeStep(cmp: Cmp, p0: Elt?, q0: Elt?, psize0: nat, qsize0: nat, head: Elt?, tail: Elt?,
                   ghost s: seq<Elt>, ghost i0: nat, ghost mid: nat, ghost j0: nat, ghost hi: nat, ghost done: seq<Elt>)
      returns (p: Elt?, q: Elt?, psize: nat, qsize: nat, h: Elt, t: Elt, ghost i: nat, ghost j: nat,
          ghost out: seq<Elt>)
    requires Distinct(s) && Emitted(done, head, tail) && Waiting(s, i0, mid, j0, done)
    requires psize0 == mid - i0 && hi == Min(j0 + qsize0, |s|) && (i0 < mid ==> p0 == s[i0]) && q0 == At(s, j0)
    requires psize0 > 0 || (qsize0 > 0 && q0 != null)
    modifies s`next, s`prev
    ensures Emitted(out, h, t) && Waiting(s, i, mid, j, out) && psize + qsize < psize0 + qsize0
    ensures psize == mid - i && hi == Min(j + qsize, |s|) && (i < mid ==> p == s[i]) && q == At(s, j)
    ensures out + Merge(cmp, s[i..mid], s[j..hi]) == done + Merge(cmp, s[i0..mid], s[j0..hi])
  {
    hide Waiting, Emitted, Merge, Distinct, Le;
    NextWaiting(s, i0, mid, j0, done);
    p, q, psize, qsize, i, j := p0, q0, psize0, qsize0, i0, j0;
    var fromP := psize != 0 && (qsize == 0 || q == null || Le(cmp, p, q));
    var e: Elt := if fromP then p else q;
    if fromP {
      MergeTakesFirst(cmp, s, i, mid, j, hi);
      p, psize := p.next, psize - 1;
    } else {
      MergeTakesSecond(cmp, s, i, mid, j, hi);
      q, qsize := q.next, qsize - 1;
    }
    h, t := EmitFrom(s, done, head, tail, e, i, mid, j, fromP);
    if fromP { i := i + 1; } else { j := j + 1; }
    out := done + [e];
    Associate(done, [e], Merge(cmp, s[i..mid], s[j..hi]));
  }

  /** The merging loop of `DL_SORT2` on two neighbouring runs, of psize and at most w elements. */
  method MergeRuns(cmp: Cmp, p0: Elt, q0: Elt?, psize0: nat, w: nat, head: Elt?, tail: Elt?,
                   ghost s: seq<Elt>, ghost lo: nat, ghost mid: nat, ghost hi: nat, ghost done: seq<Elt>)
      returns (h: Elt?, t: Elt?, q: Elt?, ghost out: seq<Elt>)
    requires Distinct(s) && mid == lo + psize0 <= |s| && lo < mid && p0 == s[lo] && q0 == At(s, mid)
    requires Emitted(done, head, tail) && Waiting(s, lo, mid, mid, done) && hi == Min(mid + w, |s|)
    modifies s`next, s`prev
    ensures out == done + Merge(cmp, s[lo..mid], s[mid..hi])
    ensures Emitted(out, h, t) && q == At(s, hi) && Waiting(s, hi, hi, hi, out)
  {
    var p: Elt?, psize, qsize := p0, psize0, w;
    h, t, q, out := head, tail, q0, done;
    ghost var i: nat, j: nat := lo, mid;
    hide Emitted, Merge, Distinct;
    while psize > 0 || (qsize > 0 && q != null)
      invariant psize == mid - i && hi == Min(j + qsize, |s|) && (i < mid ==> p == s[i]) && q == At(s, j)
      invariant Emitted(out, h, t) && Waiting(s, i, mid, j, out)
      invariant out + Merge(cmp, s[i..mid], s[j..hi]) == done + Merge(cmp, s[lo..mid], s[mid..hi])
      decreases psize + qsize
    {
      p, q, psize, qsize, h, t, i, j, out := MergeStep(cmp, p, q, psize, qsize, h, t, s, i, mid, j, hi, out);
    }
    assert Merge(cmp, s[i..mid], s[j..hi]) == [] by { MergeSame(cmp, s[i..mid], s[j..hi]); }
    WaitingShift(s, mid, j, out);
  }

  lemma NextWaiting(s: seq<Elt>, i: int, mid: int, j: int, out: seq<Elt>)
    requires Waiting(s, i, mid, j, out)
    ensures 0 <= i <= mid <= j <= |s|
    ensures i < mid - 1 ==> s[i].next == s[i + 1]
    ensures j < |s| ==> s[j].next == At(s, j + 1)
  {
  }

  lemma WaitingShift(s: seq<Elt>, mid: int, j: int, out: seq<Elt>)
    requires Waiting(s, mid, mid, j, out)
    ensures Waiting(s, j, j, j, out)
  {
  }

  /** The counting loop of `DL_SORT2`: step over at most insize elements. */
  method StepOver(p: Elt, insize: nat, ghost s: seq<Elt>, ghost k: nat) returns (q: Elt?, psize: nat)
    requires k < |s| && p == s[k] && Forward(s, k) && insize > 0
    ensures psize == Min(insize, |s| - k) && q == At(s, k + psize)
  {
    q, psize := p, 0;
    var i := 0;
    while i < insize && q != null
      invariant 0 <= i <= insize && psize == i <= |s| - k && q == At(s, k + psize)
    {
      psize := psize + 1;
      q := q.next;
      i := i + 1;
    }
  }

  lemma PassStep(cmp: Cmp, s: seq<Elt>, k: nat, mid: nat, hi: nat, w: nat)
    requires w > 0 && k < |s| && mid == Min(k + w, |s|) && hi == Min(mid + w, |s|)
    ensures Pass(cmp, s[k..], w) == Merge(cmp, s[k..mid], s[mid..hi]) + Pass(cmp, s[hi..], w)
  {
    var r := s[k..];
    if |r| <= w {
      assert s[k..mid] == r && s[mid..hi] == [] && s[hi..] == [];
    } else {
      assert r[..w] == s[k..mid] && r[w..Min(2 * w, |r|)] == s[mid..hi] && r[Min(2 * w, |r|)..] == s[hi..];
    }
  }

  /** One round of the pass: the next pair of runs is merged. */
  method MergeNext(cmp: Cmp, p0: Elt, insize: nat, head: Elt?, tail: Elt?,
                   ghost s: seq<Elt>, ghost k0: nat, ghost done: seq<Elt>)
      returns (p: Elt?, h: Elt?, t: Elt?, ghost k: nat, ghost out: seq<Elt>)
    requires Distinct(s) && insize > 0 && k0 < |s| && p0 == s[k0]
    requires Emitted(done, head, tail) && Waiting(s, k0, k0, k0, done)
    modifies s`next, s`prev
    ensures k == Min(k0 + 2 * insize, |s|) && p == At(s, k) && Emitted(out, h, t) && Waiting(s, k, k, k, out)
    ensures out + Pass(cmp, s[k..], insize) == done + Pass(cmp, s[k0..], insize)
  {
    var q, psize := StepOver(p0, insize, s, k0);
    ghost var mid := k0 + psize;
    k := Min(mid + insize, |s|);
    PassStep(cmp, s, k0, mid, k, insize);
    assert Waiting(s, k0, mid, mid, done);
    hide Emitted, Waiting, Merge, Pass, Distinct;
    h, t, p, out := MergeRuns(cmp, p0, q, psize, insize, head, tail, s, k0, mid, k, done);
    Associate(done, Merge(cmp, s[k0..mid], s[mid..k]), Pass(cmp, s[k..], insize));
  }

  /** The last two assignments of a pass. */
  method CloseEnds(head: Elt, tail: Elt, ghost out: seq<Elt>)
    requires Emitted(out, head, tail)
    modifies head`prev, tail`next
    ensures DList(out, head)
  {
    head.prev := tail;
    tail.next := null;
  }

  /** One pass of `DL_SORT2`, with its count of merges. */
  method SortPass(cmp: Cmp, head: Elt, insize: nat, ghost s: seq<Elt>)
      returns (h: Elt, nmerges: nat, ghost out: seq<Elt>)
    requires DList(s, head) && insize > 0 && s != []
    modifies s`next, s`prev
    ensures out == Pass(cmp, s, insize) && DList(out, h)
    ensures nmerges <= 1 <==> |s| <= 2 * insize
  {
    var p: Elt?, first: Elt?, tail: Elt? := head, null, null;
    nmerges, out := 0, [];
    ghost var k: nat := 0;
    assert s[0..] == s;
    assert Emitted(out, first, tail) && Waiting(s, 0, 0, 0, out);
    hide Emitted, Waiting, Pass, Distinct, DList;
    while p != null
      invariant k <= |s| && p == At(s, k) && Emitted(out, first, tail) && Waiting(s, k, k, k, out)
      invariant out + Pass(cmp, s[k..], insize) == Pass(cmp, s, insize)
      invariant nmerges == 0 <==> k == 0
      invariant nmerges == 1 ==> k == Min(2 * insize, |s|)
      invariant nmerges >= 2 ==> |s| > 2 * insize
      decreases |s| - k
    {
      nmerges := nmerges + 1;
      p, first, tail, k, out := MergeNext(cmp, p, insize, first, tail, s, k, out);
    }
    assert s[k..] == [];
    PassSame(cmp, s, insize);
    PassSame(cmp, [], insize);
    EndsInside(s, out, first, tail);
    h := first;
    CloseEnds(first, tail, out);
  }

  lemma EndsInside(s: seq<Elt>, out: seq<Elt>, head: Elt?, tail: Elt?)
    requires out != [] && Emitted(out, head, tail) && Waiting(s, |s|, |s|, |s|, out)
    ensures head != null && tail != null && head in s && tail in s
  {
    assert out[0] in out && out[|out| - 1] in out;
  }

  /**
   `DL_SORT2`: the elements come out linked both ways, in the comparator's order, equal ones
   in the order of any labelling that grew along the input.
   */
  method Sort(cmp: Cmp, head: Elt?, ghost s: seq<Elt>, ghost rank: Rank) returns (h: Elt?, ghost out: seq<Elt>)
    requires DList(s, head) && TotalPreorder(cmp)
    requires forall i, j :: 0 <= i < j < |s| ==> rank(s[i]) < rank(s[j])
    modifies s`next, s`prev
    ensures DList(out, h) && multiset(out) == multiset(s) && Ordered(cmp, rank, out)
  {
    h, out := head, s;
    if h != null {
      var insize, looping := 1, true;
      SingleRuns(cmp, rank, s);
      hide DList, TotalPreorder, Ordered;
      while looping
        invariant insize > 0 && DList(out, h) && h != null && multiset(out) == multiset(s) && |out| == |s|
        invariant Runs(cmp, rank, out, insize)
        invariant !looping ==> |out| <= insize
        decreases looping, |s| - insize
      {
        ghost var was := out;
        var nmerges;
        SamePlaces(out, s);
        h, nmerges, out := SortPass(cmp, h, insize, out);
        PassSame(cmp, was, insize);
        PassRuns(cmp, rank, was, insize);
        if nmerges <= 1 {
          looping := false;
        }
        insize := insize * 2;
      }
    }
  }
}
