/**
 `list_sort` of src/c/simclist.c: a quicksort that walks the links with two cursors and swaps
 data pointers, with a selection sort for short stretches.

 Positions are indices into the ghost sequence `nodes`; `d` is the data the nodes hold.
 */
module SimCSort {
  import opened SortSpec
  import opened SimCEntry

  const MIN_QUICKSORT_ELS := 24

  ghost predicate Holds(nodes: seq<Entry>, d: seq<Data>)
    reads nodes`data
  {
    |d| == |nodes| && forall i {:trigger nodes[i]} {:trigger d[i]} :: 0 <= i < |nodes| ==> nodes[i].data == d[i]
  }

  /** Exchange the data of two entries. */
  method SwapData(ghost nodes: seq<Entry>, ghost d: seq<Data>, x: Entry, y: Entry, ghost i: nat, ghost j: nat)
    requires Chain(nodes) && Holds(nodes, d) && i < |nodes| && j < |nodes| && x == nodes[i] && y == nodes[j]
    modifies x`data, y`data
    ensures Holds(nodes, Swap(d, i, j))
  {
    var tmp := x.data;
    x.data := y.data;
    y.data := tmp;
  }

  /** The rotation of the clean-up loops: x, the pivot's neighbour y, and the pivot z. */
  method Rotate(ghost nodes: seq<Entry>, ghost d: seq<Data>, x: Entry, y: Entry, z: Entry,
                ghost i: nat, ghost j: nat, ghost k: nat)
    requires Chain(nodes) && Holds(nodes, d) && i < |nodes| && j < |nodes| && k < |nodes| && k != i && k != j
    requires x == nodes[i] && y == nodes[j] && z == nodes[k]
    modifies x`data, y`data, z`data
    ensures Holds(nodes, Swap(Swap(d, i, k), i, j))
  {
    var tmp := x.data;
    x.data := y.data;
    y.data := z.data;
    z.data := tmp;
  }

  /** The smallest element from `first` on, as the inner loop of the selection sort finds it. */
  method FindFirst(ghost nodes: seq<Entry>, ghost d: seq<Data>, cmp: Comparator, versus: int,
                   firstunsorted: Entry, lel: Entry, ghost first: nat, ghost last: nat)
      returns (toswap: Entry, ghost t: nat)
    requires Chain(nodes) && Holds(nodes, d) && TotalPreorder(cmp)
    requires first <= last < |nodes| - 1 && firstunsorted == nodes[first] && lel == nodes[last]
    ensures first <= t <= last && toswap == nodes[t]
    ensures forall i :: first <= i <= last ==> Le(cmp, versus, d[t], d[i])
  {
    hide TotalPreorder, Le, Product;
    toswap, t := firstunsorted, first;
    var cursor := firstunsorted.next;
    ghost var c := first + 1;
    LeTotal(cmp, versus, d[first], d[first]);
    while cursor != lel.next
      invariant first < c <= last + 1 && cursor == nodes[c]
      invariant first <= t < c && toswap == nodes[t]
      invariant forall i :: first <= i < c ==> Le(cmp, versus, d[t], d[i])
      decreases last - c
    {
      LeTotal(cmp, versus, d[t], d[c]);
      if Product(cmp, versus, toswap.data, cursor.data) > 0 {
        NewFirst(cmp, versus, d, first, t, c);
        toswap, t := cursor, c;
      }
      cursor := cursor.next;
      c := c + 1;
    }
  }

  lemma NewFirst(cmp: Comparator, versus: int, d: seq<Data>, a: nat, t: nat, c: nat)
    requires TotalPreorder(cmp) && a <= t < c < |d| && !Le(cmp, versus, d[t], d[c])
    requires forall i :: a <= i < c ==> Le(cmp, versus, d[t], d[i])
    ensures forall i :: a <= i <= c ==> Le(cmp, versus, d[c], d[i])
  {
    LeTotal(cmp, versus, d[t], d[c]);
    forall i | a <= i <= c
      ensures Le(cmp, versus, d[c], d[i])
    {
      if i == c {
        LeTotal(cmp, versus, d[c], d[c]);
      } else {
        LeTrans(cmp, versus, d[c], d[t], d[i]);
      }
    }
  }

  /** The sorted part never has to give way to the rest. */
  ghost predicate Settled(cmp: Comparator, versus: int, d: seq<Data>, a: int, f: int, b: int)
    requires 0 <= a <= f <= b <= |d|
  {
    forall i, j :: a <= i < f && i < j < b ==> Le(cmp, versus, d[i], d[j])
  }

  lemma SettledStep(cmp: Comparator, versus: int, d: seq<Data>, a: int, f: int, t: int, b: int)
    requires TotalPreorder(cmp) && 0 <= a <= f <= t < b <= |d| && Settled(cmp, versus, d, a, f, b)
    requires forall i :: f <= i < b ==> Le(cmp, versus, d[t], d[i])
    ensures Settled(cmp, versus, Swap(d, f, t), a, f + 1, b)
  {
    var e := Swap(d, f, t);
    forall i, j | a <= i < f + 1 && i < j < b
      ensures Le(cmp, versus, e[i], e[j])
    {
      if i < f {
        assert e[i] == d[i];
        assert e[j] == d[if j == f then t else if j == t then f else j];
      } else {
        assert e[i] == d[t];
        assert e[j] == d[if j == t then f else j];
      }
    }
  }

  lemma SettledSorted(cmp: Comparator, versus: int, d: seq<Data>, a: int, b: int)
    requires 0 <= a < b <= |d|
    ensures Settled(cmp, versus, d, a, a, b) && Perm(d, d, a, b)
    ensures Settled(cmp, versus, d, a, b - 1, b) ==> Sorted(cmp, versus, d, a, b)
  {
  }

  /** One round of the outer loop: the smallest remaining element is swapped to the front. */
  method SelectOne(ghost nodes: seq<Entry>, ghost start: seq<Data>, ghost d: seq<Data>, cmp: Comparator, versus: int,
                   firstunsorted: Entry, lel: Entry, ghost first: nat, ghost f: nat, ghost last: nat)
      returns (ghost e: seq<Data>)
    requires Chain(nodes) && Holds(nodes, d) && TotalPreorder(cmp)
    requires first <= f <= last < |nodes| - 1 && firstunsorted == nodes[f] && lel == nodes[last]
    requires Settled(cmp, versus, d, first, f, last + 1) && Perm(start, d, first, last + 1)
    modifies nodes`data
    ensures |e| == |d| && Holds(nodes, e)
    ensures Perm(start, e, first, last + 1) && Settled(cmp, versus, e, first, f + 1, last + 1)
  {
    hide TotalPreorder, Le, Perm, Settled, Swap;
    var toswap;
    ghost var t;
    toswap, t := FindFirst(nodes, d, cmp, versus, firstunsorted, lel, f, last);
    SettledStep(cmp, versus, d, first, f, t, last + 1);
    e := Swap(d, f, t);
    PermSwapped(start, d, f, t, first, last + 1);
    if toswap != firstunsorted {
      SwapData(nodes, d, firstunsorted, toswap, f, t);
    } else {
      SwapSelf(d, f);
    }
  }

  /** What a loop that hides the predicates needs to know of two positions. */
  lemma Facts(nodes: seq<Entry>, d: seq<Data>, i: nat, j: nat)
    requires Chain(nodes) && Holds(nodes, d) && i < |nodes| && j < |nodes|
    ensures |d| == |nodes| && nodes[i].data == d[i] && nodes[j].data == d[j]
    ensures i + 1 < |nodes| ==> nodes[i].next == nodes[i + 1]
    ensures 0 < i ==> nodes[i].prev == nodes[i - 1]
    ensures nodes[i] == nodes[j] <==> i == j
  {
  }

  lemma NextNode(nodes: seq<Entry>, i: nat, j: nat)
    requires Chain(nodes) && i < |nodes| - 1 && j < |nodes|
    ensures nodes[i].next == nodes[i + 1] && (nodes[i] == nodes[j] <==> i == j)
  {
  }

  /** `list_sort_selectionsort`. */
  method SelectionSort(ghost nodes: seq<Entry>, ghost d: seq<Data>, cmp: Comparator, versus: int,
                       first: nat, fel: Entry, last: nat, lel: Entry) returns (ghost e: seq<Data>)
    requires Chain(nodes) && Holds(nodes, d) && TotalPreorder(cmp)
    requires first <= last < |nodes| - 1 && fel == nodes[first] && lel == nodes[last]
    modifies nodes`data
    ensures Holds(nodes, e) && Perm(d, e, first, last + 1) && Sorted(cmp, versus, e, first, last + 1)
  {
    hide *;
    e := d;
    Facts(nodes, d, first, last);
    SettledSorted(cmp, versus, d, first, last + 1);
    if last <= first {
      return;
    }
    var firstunsorted := fel;
    ghost var f: nat := first;
    while firstunsorted != lel
      invariant first <= f <= last && firstunsorted == nodes[f]
      invariant |e| == |d| && Holds(nodes, e) && Perm(d, e, first, last + 1)
          && Settled(cmp, versus, e, first, f, last + 1)
      decreases last - f
    {
      e := SelectOne(nodes, d, e, cmp, versus, firstunsorted, lel, first, f, last);
      NextNode(nodes, f, last);
      firstunsorted := firstunsorted.next;
      f := f + 1;
    }
    NextNode(nodes, f, last);
    SettledSorted(cmp, versus, e, first, last + 1);
  }

  /** The cursor loops that bring the quicksort to its randomly chosen pivot. */
  method FindPivot(ghost nodes: seq<Entry>, first: nat, fel: Entry, last: nat, lel: Entry, pivotid: nat)
      returns (pivot: Entry)
    requires Chain(nodes) && first + pivotid <= last < |nodes| && fel == nodes[first] && lel == nodes[last]
    ensures pivot == nodes[first + pivotid]
  {
    if pivotid < (last - first + 1) / 2 {
      pivot := fel;
      for i := 0 to pivotid
        invariant pivot == nodes[first + i]
      {
        pivot := pivot.next;
      }
    } else {
      pivot := lel;
      var i := last - first;
      while i > pivotid
        invariant pivotid <= i <= last - first && pivot == nodes[first + i]
      {
        pivot, i := pivot.prev, i - 1;
      }
    }
  }

  /** Left of `l` nothing belongs after the pivot; right of `r` nothing belongs before it. */
  ghost predicate Sides(cmp: Comparator, versus: int, d: seq<Data>, a: int, l: int, p: int, r: int, b: int)
    requires 0 <= a <= l <= p <= r < b <= |d|
  {
    && (forall i :: a <= i < l ==> Le(cmp, versus, d[i], d[p]))
    && (forall i :: r < i < b ==> Le(cmp, versus, d[p], d[i]))
  }

  lemma SidesSwap(cmp: Comparator, versus: int, d: seq<Data>, a: int, l: int, p: int, r: int, b: int)
    requires TotalPreorder(cmp) && 0 <= a <= l < p < r < b <= |d| && Sides(cmp, versus, d, a, l, p, r, b)
    requires Product(cmp, versus, d[l], d[p]) > 0 && Product(cmp, versus, d[r], d[p]) < 0
    ensures Sides(cmp, versus, Swap(d, l, r), a, l + 1, p, r - 1, b)
  {
    LeTotal(cmp, versus, d[l], d[p]);
    LeTotal(cmp, versus, d[r], d[p]);
  }

  /** The clean-up rotations move the pivot one place past an element on the wrong side. */
  lemma SidesRotateLeft(cmp: Comparator, versus: int, d: seq<Data>, a: int, l: int, p: int, b: int)
    requires TotalPreorder(cmp) && 0 <= a <= l < p < b <= |d| && Sides(cmp, versus, d, a, l, p, p, b)
    requires Product(cmp, versus, d[l], d[p]) > 0
    ensures Sides(cmp, versus, Swap(Swap(d, l, p), l, p - 1), a, l, p - 1, p - 1, b)
  {
    LeTotal(cmp, versus, d[l], d[p]);
    var e := Swap(Swap(d, l, p), l, p - 1);
    assert e[p - 1] == d[p] && e[p] == d[l];
  }

  lemma SidesRotateRight(cmp: Comparator, versus: int, d: seq<Data>, a: int, p: int, r: int, b: int)
    requires TotalPreorder(cmp) && 0 <= a <= p < r < b <= |d| && Sides(cmp, versus, d, a, p, p, r, b)
    requires Product(cmp, versus, d[r], d[p]) < 0
    ensures Sides(cmp, versus, Swap(Swap(d, r, p), r, p + 1), a, p + 1, p + 1, r, b)
  {
    LeTotal(cmp, versus, d[r], d[p]);
    var e := Swap(Swap(d, r, p), r, p + 1);
    assert e[p + 1] == d[p] && e[p] == d[r];
  }

  /** The left cursor passes what may stay left of the pivot, and stops at the first larger element or at the pivot. */
  method ScanRightward(ghost nodes: seq<Entry>, ghost d: seq<Data>, cmp: Comparator, versus: int,
                       start: Entry, pivot: Entry, ghost a: nat, ghost from: nat, ghost p: nat, ghost r: nat,
                       ghost b: nat)
      returns (left: Entry, ghost l: nat)
    requires Chain(nodes) && Holds(nodes, d) && a <= from <= p <= r < b <= |nodes|
    requires start == nodes[from] && pivot == nodes[p] && Sides(cmp, versus, d, a, from, p, r, b)
    ensures from <= l <= p && left == nodes[l] && Sides(cmp, versus, d, a, l, p, r, b)
    ensures l == p || Product(cmp, versus, d[l], d[p]) > 0
  {
    left, l := start, from;
    while left != pivot && Product(cmp, versus, left.data, pivot.data) <= 0
      invariant from <= l <= p && left == nodes[l] && Sides(cmp, versus, d, a, l, p, r, b)
      decreases p - l
    {
      left, l := left.next, l + 1;
    }
  }

  /**
   The right cursor passes what may stay right of the pivot, and stops at the first smaller element
   or at the pivot.
   */
  method ScanLeftward(ghost nodes: seq<Entry>, ghost d: seq<Data>, cmp: Comparator, versus: int,
                      start: Entry, pivot: Entry, ghost a: nat, ghost l: nat, ghost p: nat, ghost from: nat,
                      ghost b: nat)
      returns (right: Entry, ghost r: nat)
    requires Chain(nodes) && Holds(nodes, d) && TotalPreorder(cmp) && a <= l <= p <= from < b <= |nodes|
    requires start == nodes[from] && pivot == nodes[p] && Sides(cmp, versus, d, a, l, p, from, b)
    ensures p <= r <= from && right == nodes[r] && Sides(cmp, versus, d, a, l, p, r, b)
    ensures r == p || Product(cmp, versus, d[r], d[p]) < 0
  {
    right, r := start, from;
    hide Product, TotalPreorder;
    while right != pivot && Product(cmp, versus, right.data, pivot.data) >= 0
      invariant p <= r <= from && right == nodes[r] && Sides(cmp, versus, d, a, l, p, r, b)
      decreases r - p
    {
      LeTotal(cmp, versus, d[r], d[p]);
      right, r := right.prev, r - 1;
    }
  }

  /** Exchange the data under the two cursors and move both towards the pivot. */
  method SwapInward(ghost nodes: seq<Entry>, ghost was: seq<Data>, ghost d: seq<Data>, cmp: Comparator, versus: int,
                    left0: Entry, right0: Entry, ghost first: nat, ghost l: nat, ghost p: nat, ghost r: nat,
                    ghost last: nat)
      returns (left: Entry, right: Entry, ghost e: seq<Data>)
    requires Chain(nodes) && Holds(nodes, d) && TotalPreorder(cmp) && first <= l < p < r <= last < |nodes|
    requires left0 == nodes[l] && right0 == nodes[r] && Perm(was, d, first, last + 1)
    requires Sides(cmp, versus, d, first, l, p, r, last + 1)
    requires Product(cmp, versus, d[l], d[p]) > 0 && Product(cmp, versus, d[r], d[p]) < 0
    modifies nodes`data
    ensures |e| == |nodes| && Holds(nodes, e) && Perm(was, e, first, last + 1)
    ensures left == nodes[l + 1] && right == nodes[r - 1] && Sides(cmp, versus, e, first, l + 1, p, r - 1, last + 1)
  {
    SidesSwap(cmp, versus, d, first, l, p, r, last + 1);
    PermSwapped(was, d, l, r, first, last + 1);
    left, right := left0.next, right0.prev;
    hide Sides, Perm, Swap, Product, TotalPreorder;
    SwapData(nodes, d, left0, right0, l, r);
    e := Swap(d, l, r);
  }

  lemma BeforePartition(nodes: seq<Entry>, d: seq<Data>, cmp: Comparator, versus: int, first: nat, p: nat, last: nat)
    requires Chain(nodes) && Holds(nodes, d) && first <= p <= last < |nodes|
    ensures |d| == |nodes| && forall i :: 0 <= i < |nodes| && i != p ==> nodes[i] != nodes[p]
    ensures Perm(d, d, first, last + 1) && Sides(cmp, versus, d, first, first, p, last, last + 1)
  {
  }

  /** The main loop of the partition: the cursors close in until one of them is at the pivot. */
  method CloseIn(ghost nodes: seq<Entry>, ghost d: seq<Data>, cmp: Comparator, versus: int,
                 fel: Entry, lel: Entry, pivot: Entry, ghost first: nat, ghost p: nat, ghost last: nat)
      returns (left: Entry, right: Entry, ghost l: nat, ghost r: nat, ghost e: seq<Data>)
    requires Chain(nodes) && Holds(nodes, d) && TotalPreorder(cmp) && first <= p <= last < |nodes|
    requires fel == nodes[first] && lel == nodes[last] && pivot == nodes[p]
    modifies nodes`data
    ensures Holds(nodes, e) && Perm(d, e, first, last + 1) && first <= l <= p <= r <= last && (l == p || r == p)
    ensures left == nodes[l] && right == nodes[r] && Sides(cmp, versus, e, first, l, p, r, last + 1)
  {
    hide *;
    left, right, l, r, e := fel, lel, first, last, d;
    BeforePartition(nodes, d, cmp, versus, first, p, last);
    while left != pivot && right != pivot
      invariant Chain(nodes) && |e| == |nodes| && Holds(nodes, e) && Perm(d, e, first, last + 1)
      invariant first <= l <= p <= r <= last
      invariant left == nodes[l] && right == nodes[r] && Sides(cmp, versus, e, first, l, p, r, last + 1)
      decreases r - l
    {
      left, l := ScanRightward(nodes, e, cmp, versus, left, pivot, first, l, p, r, last + 1);
      right, r := ScanLeftward(nodes, e, cmp, versus, right, pivot, first, l, p, r, last + 1);
      if left != pivot && right != pivot {
        left, right, e := SwapInward(nodes, d, e, cmp, versus, left, right, first, l, p, r, last);
        l, r := l + 1, r - 1;
      }
    }
  }

  lemma SidesAdvance(cmp: Comparator, versus: int, d: seq<Data>, a: int, l: int, p: int, r: int, b: int)
    requires TotalPreorder(cmp) && 0 <= a <= l <= p <= r < b <= |d| && Sides(cmp, versus, d, a, l, p, r, b)
    ensures l < p && Product(cmp, versus, d[l], d[p]) <= 0 ==> Sides(cmp, versus, d, a, l + 1, p, r, b)
    ensures p < r && Product(cmp, versus, d[r], d[p]) >= 0 ==> Sides(cmp, versus, d, a, l, p, r - 1, b)
    ensures l == p == r ==> Partitioned(cmp, versus, d, a, p, b)
  {
    LeTotal(cmp, versus, d[r], d[p]);
  }

  /** One rotation of the left clean-up loop. */
  method TurnLeft(ghost nodes: seq<Entry>, ghost was: seq<Data>, ghost d: seq<Data>, cmp: Comparator, versus: int,
                  left: Entry, pivot: Entry, ghost a: nat, ghost l: nat, ghost p: nat, ghost b: nat)
      returns (ghost e: seq<Data>)
    requires Chain(nodes) && Holds(nodes, d) && TotalPreorder(cmp) && a <= l < p < b <= |nodes|
    requires left == nodes[l] && pivot == nodes[p] && Product(cmp, versus, d[l], d[p]) > 0
    requires Sides(cmp, versus, d, a, l, p, p, b) && Perm(was, d, a, b)
    modifies nodes`data
    ensures |e| == |nodes| && Holds(nodes, e) && Perm(was, e, a, b) && Sides(cmp, versus, e, a, l, p - 1, p - 1, b)
  {
    hide TotalPreorder, Sides, Perm, Swap;
    SidesRotateLeft(cmp, versus, d, a, l, p, b);
    PermSwapped(was, d, l, p, a, b);
    PermSwapped(was, Swap(d, l, p), l, p - 1, a, b);
    Rotate(nodes, d, left, pivot.prev, pivot, l, p - 1, p);
    e := Swap(Swap(d, l, p), l, p - 1);
  }

  /** One rotation of the right clean-up loop. */
  method TurnRight(ghost nodes: seq<Entry>, ghost was: seq<Data>, ghost d: seq<Data>, cmp: Comparator, versus: int,
                   right: Entry, pivot: Entry, ghost a: nat, ghost p: nat, ghost r: nat, ghost b: nat)
      returns (ghost e: seq<Data>)
    requires Chain(nodes) && Holds(nodes, d) && TotalPreorder(cmp) && a <= p < r < b <= |nodes|
    requires right == nodes[r] && pivot == nodes[p] && Product(cmp, versus, d[r], d[p]) < 0
    requires Sides(cmp, versus, d, a, p, p, r, b) && Perm(was, d, a, b)
    modifies nodes`data
    ensures |e| == |nodes| && Holds(nodes, e) && Perm(was, e, a, b) && Sides(cmp, versus, e, a, p + 1, p + 1, r, b)
  {
    hide TotalPreorder, Sides, Perm, Swap;
    SidesRotateRight(cmp, versus, d, a, p, r, b);
    PermSwapped(was, d, r, p, a, b);
    PermSwapped(was, Swap(d, r, p), r, p + 1, a, b);
    Rotate(nodes, d, right, pivot.next, pivot, r, p + 1, p);
    e := Swap(Swap(d, r, p), r, p + 1);
  }

  /** One round of the left clean-up loop: the cursor advances, or the pivot steps back. */
  method StepLeft(ghost nodes: seq<Entry>, ghost was: seq<Data>, ghost d: seq<Data>, cmp: Comparator, versus: int,
                  left0: Entry, pivot0: Entry, ghost a: nat, ghost l0: nat, ghost p0: nat, ghost b: nat)
      returns (left: Entry, pivot: Entry, turned: bool, ghost l: nat, ghost p: nat, ghost e: seq<Data>)
    requires Chain(nodes) && Holds(nodes, d) && TotalPreorder(cmp) && a <= l0 < p0 < b <= |nodes|
    requires left0 == nodes[l0] && pivot0 == nodes[p0]
    requires Sides(cmp, versus, d, a, l0, p0, p0, b) && Perm(was, d, a, b)
    modifies nodes`data
    ensures l + (p0 - p) == l0 + 1 && p == (if turned then p0 - 1 else p0)
    ensures l <= p && left == nodes[l] && pivot == nodes[p]
    ensures |e| == |nodes| && Holds(nodes, e) && Perm(was, e, a, b) && Sides(cmp, versus, e, a, l, p, p, b)
  {
    hide TotalPreorder, Sides, Perm;
    left, pivot, l, p, e := left0, pivot0, l0, p0, d;
    SidesAdvance(cmp, versus, d, a, l, p, p, b);
    turned := Product(cmp, versus, left.data, pivot.data) > 0;
    if turned {
      e := TurnLeft(nodes, was, d, cmp, versus, left, pivot, a, l, p, b);
      pivot, p := pivot.prev, p - 1;
    } else {
      left, l := left.next, l + 1;
    }
  }

  /** One round of the right clean-up loop. */
  method StepRight(ghost nodes: seq<Entry>, ghost was: seq<Data>, ghost d: seq<Data>, cmp: Comparator, versus: int,
                   right0: Entry, pivot0: Entry, ghost a: nat, ghost p0: nat, ghost r0: nat, ghost b: nat)
      returns (right: Entry, pivot: Entry, turned: bool, ghost p: nat, ghost r: nat, ghost e: seq<Data>)
    requires Chain(nodes) && Holds(nodes, d) && TotalPreorder(cmp) && a <= p0 < r0 < b <= |nodes|
    requires right0 == nodes[r0] && pivot0 == nodes[p0]
    requires Sides(cmp, versus, d, a, p0, p0, r0, b) && Perm(was, d, a, b)
    modifies nodes`data
    ensures r + (p0 - p) == r0 - 1 && p == (if turned then p0 + 1 else p0)
    ensures p <= r && right == nodes[r] && pivot == nodes[p]
    ensures |e| == |nodes| && Holds(nodes, e) && Perm(was, e, a, b) && Sides(cmp, versus, e, a, p, p, r, b)
  {
    hide TotalPreorder, Sides, Perm;
    right, pivot, p, r, e := right0, pivot0, p0, r0, d;
    SidesAdvance(cmp, versus, d, a, p, p, r, b);
    turned := Product(cmp, versus, right.data, pivot.data) < 0;
    if turned {
      e := TurnRight(nodes, was, d, cmp, versus, right, pivot, a, p, r, b);
      pivot, p := pivot.next, p + 1;
    } else {
      right, r := right.prev, r - 1;
    }
  }

  /** The clean-up loop for a longer left part; the source's `break` repeats the loop guard. */
  method CleanLeft(ghost nodes: seq<Entry>, ghost d: seq<Data>, cmp: Comparator, versus: int,
                   start: Entry, piv: Entry, pid: nat, ghost first: nat, ghost from: nat, ghost last: nat)
      returns (pivot: Entry, pivotid: int, ghost e: seq<Data>)
    requires Chain(nodes) && Holds(nodes, d) && TotalPreorder(cmp) && first <= from <= first + pid <= last < |nodes|
    requires start == nodes[from] && piv == nodes[first + pid]
    requires Sides(cmp, versus, d, first, from, first + pid, first + pid, last + 1)
    modifies nodes`data
    ensures Holds(nodes, e) && Perm(d, e, first, last + 1)
    ensures 0 <= pivotid && first + pivotid <= last && pivot == nodes[first + pivotid]
    ensures Partitioned(cmp, versus, e, first, first + pivotid, last + 1)
  {
    pivot, pivotid, e := piv, pid, d;
    var left := start;
    ghost var l: nat, p: nat := from, first + pid;
    assert |d| == |nodes| && Perm(d, e, first, last + 1);
    hide TotalPreorder, Product, Sides, Perm, Partitioned, Holds;
    while left != pivot
      invariant first <= l <= p <= last && p == first + pivotid && left == nodes[l] && pivot == nodes[p]
      invariant |e| == |nodes| && Holds(nodes, e) && Perm(d, e, first, last + 1)
      invariant Sides(cmp, versus, e, first, l, p, p, last + 1)
      decreases p - l
    {
      var turned;
      left, pivot, turned, l, p, e := StepLeft(nodes, d, e, cmp, versus, left, pivot, first, l, p, last + 1);
      pivotid := if turned then pivotid - 1 else pivotid;
    }
    SidesAdvance(cmp, versus, e, first, l, p, p, last + 1);
  }

  /** The clean-up loop for a longer right part; the source's `break` repeats the loop guard. */
  method CleanRight(ghost nodes: seq<Entry>, ghost d: seq<Data>, cmp: Comparator, versus: int,
                   start: Entry, piv: Entry, pid: nat, ghost first: nat, ghost from: nat, ghost last: nat)
      returns (pivot: Entry, pivotid: int, ghost e: seq<Data>)
    requires Chain(nodes) && Holds(nodes, d) && TotalPreorder(cmp) && first + pid <= from <= last < |nodes|
    requires start == nodes[from] && piv == nodes[first + pid]
    requires Sides(cmp, versus, d, first, first + pid, first + pid, from, last + 1)
    modifies nodes`data
    ensures Holds(nodes, e) && Perm(d, e, first, last + 1)
    ensures 0 <= pivotid && first + pivotid <= last && pivot == nodes[first + pivotid]
    ensures Partitioned(cmp, versus, e, first, first + pivotid, last + 1)
  {
    pivot, pivotid, e := piv, pid, d;
    var right := start;
    ghost var r: nat, p: nat := from, first + pid;
    assert |d| == |nodes| && Perm(d, e, first, last + 1);
    hide TotalPreorder, Product, Sides, Perm, Partitioned, Holds;
    while right != pivot
      invariant first <= p <= r <= last && p == first + pivotid && right == nodes[r] && pivot == nodes[p]
      invariant |e| == |nodes| && Holds(nodes, e) && Perm(d, e, first, last + 1)
      invariant Sides(cmp, versus, e, first, p, p, r, last + 1)
      decreases r - p
    {
      var turned;
      right, pivot, turned, p, r, e := StepRight(nodes, d, e, cmp, versus, right, pivot, first, p, r, last + 1);
      pivotid := if turned then pivotid + 1 else pivotid;
    }
    SidesAdvance(cmp, versus, e, first, p, p, r, last + 1);
  }

  /** The partition around any pivot: `pivotid` is its final offset from `first`. */
  method Partition(ghost nodes: seq<Entry>, ghost d: seq<Data>, cmp: Comparator, versus: int,
                   first: nat, fel: Entry, last: nat, lel: Entry, pid: nat)
      returns (pivot: Entry, pivotid: int, ghost e: seq<Data>)
    requires Chain(nodes) && Holds(nodes, d) && TotalPreorder(cmp) && first + pid <= last < |nodes|
    requires fel == nodes[first] && lel == nodes[last]
    modifies nodes`data
    ensures Holds(nodes, e) && Perm(d, e, first, last + 1)
    ensures 0 <= pivotid && first + pivotid <= last && pivot == nodes[first + pivotid]
    ensures Partitioned(cmp, versus, e, first, first + pivotid, last + 1)
  {
    hide TotalPreorder, Partitioned;
    var piv := FindPivot(nodes, first, fel, last, lel, pid);
    var left, right;
    ghost var l, r, met;
    left, right, l, r, met := CloseIn(nodes, d, cmp, versus, fel, lel, piv, first, first + pid, last);
    if right == piv {
      pivot, pivotid, e := CleanLeft(nodes, met, cmp, versus, left, piv, pid, first, l, last);
    } else {
      pivot, pivotid, e := CleanRight(nodes, met, cmp, versus, right, piv, pid, first, r, last);
    }
    PermTrans(d, met, e, first, last + 1);
  }

  /** `list_sort_quicksort`; the pivot offset is any number the generator may give. */
  method QuickSort(ghost nodes: seq<Entry>, ghost d: seq<Data>, cmp: Comparator, versus: int,
                   first: nat, fel: Entry, last: nat, lel: Entry) returns (ghost e: seq<Data>)
    requires Chain(nodes) && Holds(nodes, d) && TotalPreorder(cmp)
    requires first <= last < |nodes| - 1 && fel == nodes[first] && lel == nodes[last]
    modifies nodes`data
    ensures Holds(nodes, e) && Perm(d, e, first, last + 1) && Sorted(cmp, versus, e, first, last + 1)
    decreases last - first, 1
  {
    if last <= first || last - first + 1 <= MIN_QUICKSORT_ELS {
      e := SelectionSort(nodes, d, cmp, versus, first, fel, last, lel);
      return;
    }
    hide TotalPreorder, Partitioned, Perm, Sorted;
    var pid: nat :| pid <= last - first;
    var pivot, pivotid;
    ghost var parted;
    pivot, pivotid, parted := Partition(nodes, d, cmp, versus, first, fel, last, lel, pid);
    e := SortSides(nodes, d, parted, cmp, versus, first, fel, last, lel, pivot, pivotid);
  }

  /** The two recursive calls. */
  method SortSides(ghost nodes: seq<Entry>, ghost d: seq<Data>, ghost parted: seq<Data>, cmp: Comparator, versus: int,
                   first: nat, fel: Entry, last: nat, lel: Entry, pivot: Entry, pivotid: int)
      returns (ghost e: seq<Data>)
    requires Chain(nodes) && Holds(nodes, parted) && TotalPreorder(cmp)
    requires first <= last < |nodes| - 1 && fel == nodes[first] && lel == nodes[last]
    requires 0 <= pivotid && first + pivotid <= last && pivot == nodes[first + pivotid]
    requires Perm(d, parted, first, last + 1) && Partitioned(cmp, versus, parted, first, first + pivotid, last + 1)
    modifies nodes`data
    ensures Holds(nodes, e) && Perm(d, e, first, last + 1) && Sorted(cmp, versus, e, first, last + 1)
    decreases last - first, 0
  {
    hide TotalPreorder, Partitioned, Perm, Sorted;
    ghost var p := first + pivotid;
    ghost var half := parted;
    Nothing(cmp, versus, parted, first, p);
    if pivotid > 0 {
      half := QuickSort(nodes, parted, cmp, versus, first, fel, first + pivotid - 1, pivot.prev);
    }
    FirstHalf(cmp, versus, d, parted, half, first, p, last + 1);
    e := half;
    Nothing(cmp, versus, half, p + 1, last + 1);
    if first + pivotid < last {
      e := QuickSort(nodes, half, cmp, versus, first + pivotid + 1, pivot.next, last, lel);
    }
    SecondHalf(cmp, versus, d, half, e, first, p, last + 1);
  }

  lemma Nothing(cmp: Comparator, versus: int, d: seq<Data>, a: int, b: int)
    requires 0 <= a <= b <= |d|
    ensures Perm(d, d, a, b) && (a == b ==> Sorted(cmp, versus, d, a, b))
  {
  }

  /** Sorting one side of a partition leaves it a partition. */
  lemma FirstHalf(cmp: Comparator, versus: int, d: seq<Data>, parted: seq<Data>, half: seq<Data>, a: int, p: int,
                  b: int)
    requires 0 <= a <= p < b <= |parted| && Perm(d, parted, a, b) && Partitioned(cmp, versus, parted, a, p, b)
    requires Perm(parted, half, a, p)
    ensures |half| == |parted| && Perm(d, half, a, b) && Partitioned(cmp, versus, half, a, p, b)
  {
    PartitionedAfterPerm(cmp, versus, parted, half, a, p, b, a, p);
  }

  /** Sorting the other side as well sorts the whole. */
  lemma SecondHalf(cmp: Comparator, versus: int, d: seq<Data>, half: seq<Data>, e: seq<Data>, a: int, p: int, b: int)
    requires TotalPreorder(cmp) && 0 <= a <= p < b <= |half| && Perm(d, half, a, b)
    requires Partitioned(cmp, versus, half, a, p, b) && Sorted(cmp, versus, half, a, p)
    requires Perm(half, e, p + 1, b) && Sorted(cmp, versus, e, p + 1, b)
    ensures Perm(d, e, a, b) && Sorted(cmp, versus, e, a, b)
  {
    PartitionedAfterPerm(cmp, versus, half, e, a, p, b, p + 1, b);
    SortedAfterPerm(cmp, versus, half, e, a, p, p + 1, b);
    JoinSorted(cmp, versus, e, a, p, b);
  }
}
