/**
 The list of src/c/simclist.c: a doubly linked list between two sentinels, with a pointer to
 the middle element and a small array of spare entries.

 The ghost field `nodes` lists the entries from the head sentinel to the tail sentinel, so the
 element of index i is nodes[i + 1]; `contents` is the abstract sequence of data pointers.
 */
module SimCList {
  import opened Wrappers
  import opened SimCEntry
  import opened SortSpec
  import opened SimCSort

  const MAX_SPARE_ELEMS := 5

  ghost function Inserted<T>(s: seq<T>, k: nat, x: T): seq<T>
    requires k <= |s|
  {
    s[..k] + [x] + s[k..]
  }

  /** The sequence without its elements a .. b - 1. */
  ghost function Cut<T>(s: seq<T>, a: nat, b: nat): seq<T>
    requires a <= b <= |s|
  {
    s[..a] + s[b..]
  }

  lemma InsertedLength<T>(s: seq<T>, k: nat, x: T)
    requires k <= |s|
    ensures |Inserted(s, k, x)| == |s| + 1
    ensures forall y :: y in Inserted(s, k, x) <==> y == x || y in s
  {
  }

  lemma InsertedAt<T>(s: seq<T>, k: nat, x: T, i: nat)
    requires k <= |s| && i <= |s|
    ensures |Inserted(s, k, x)| == |s| + 1
    ensures Inserted(s, k, x)[i] == if i < k then s[i] else if i == k then x else s[i - 1]
  {
  }

  lemma InsertedBefore<T>(s: seq<T>, k: nat, x: T, i: nat)
    requires k <= |s| && i < |s|
    ensures |Inserted(s, k, x)| == |s| + 1
    ensures s[i] == Inserted(s, k, x)[if i < k then i else i + 1]
  {
  }

  lemma CutLength<T>(s: seq<T>, a: nat, b: nat)
    requires a <= b <= |s|
    ensures |Cut(s, a, b)| == |s| - (b - a)
    ensures forall y :: y in Cut(s, a, b) ==> y in s
  {
  }

  lemma CutAt<T>(s: seq<T>, a: nat, b: nat, i: nat)
    requires a <= b <= |s| && i < |s| - (b - a)
    ensures |Cut(s, a, b)| == |s| - (b - a)
    ensures Cut(s, a, b)[i] == if i < a then s[i] else s[i + (b - a)]
  {
  }

  lemma CutGone<T>(s: seq<T>, a: nat, b: nat, k: nat)
    requires a <= k < b <= |s| && (forall i, j :: 0 <= i < j < |s| ==> s[i] != s[j])
    ensures s[k] !in Cut(s, a, b)
  {
  }

  lemma CutStep<T>(s: seq<T>, a: nat, i: nat)
    requires a <= i < |s| && (forall i, j :: 0 <= i < j < |s| ==> s[i] != s[j])
    ensures forall y :: y in Cut(s, a, i + 1) ==> y in Cut(s, a, i)
    ensures s[i] in Cut(s, a, i) && s[i] !in Cut(s, a, i + 1) && s[i] in s
  {
    assert Cut(s, a, i)[a] == s[i];
    assert s[i..] == [s[i]] + s[i + 1..];
    CutGone(s, a, i + 1, i);
  }

  /** How many spares there are when some entries are offered to those that are there. */
  function Spares(have: nat, offered: nat): nat {
    if have + offered <= MAX_SPARE_ELEMS then have + offered else MAX_SPARE_ELEMS
  }

  /** C's `x / 2`, which truncates toward zero. */
  function Truncate(x: int): int {
    if x >= 0 then x / 2 else -(-x / 2)
  }

  /** The four pointer assignments that link a new entry after nodes[k]. */
  method LinkAfter(ghost nodes: seq<Entry>, ghost k: nat, prec: Entry, lent: Entry)
    requires Chain(nodes) && k < |nodes| - 1 && prec == nodes[k] && lent !in nodes
    modifies {nodes[k]}`next, {nodes[k + 1]}`prev, lent`next, lent`prev
    ensures Chain(Inserted(nodes, k + 1, lent))
    ensures nodes[0].prev == old(nodes[0].prev) && nodes[|nodes| - 1].next == old(nodes[|nodes| - 1].next)
  {
    var succ := prec.next;
    prec.next := lent;
    lent.prev := prec;
    lent.next := succ;
    succ.prev := lent;
    ghost var after := Inserted(nodes, k + 1, lent);
    assert forall i :: 0 <= i < |after| ==>
      after[i] == if i <= k then nodes[i] else if i == k + 1 then lent else nodes[i - 1];
  }

  /** The two pointer assignments that close the gap between nodes[a] and nodes[b]. */
  method Bridge(ghost nodes: seq<Entry>, ghost a: nat, ghost b: nat, left: Entry, right: Entry)
    requires Chain(nodes) && a < b < |nodes| && left == nodes[a] && right == nodes[b]
    modifies left`next, right`prev
    ensures Chain(Cut(nodes, a + 1, b))
    ensures nodes[0].prev == old(nodes[0].prev) && nodes[|nodes| - 1].next == old(nodes[|nodes| - 1].next)
  {
    left.next := right;
    right.prev := left;
    ghost var after := Cut(nodes, a + 1, b);
    assert forall i :: 0 <= i < |after| ==> after[i] == if i <= a then nodes[i] else nodes[i + (b - a - 1)];
  }

  /** Allocates an entry behind the last one of a chain. */
  method AppendEntry(ghost nodes: seq<Entry>, last: Entry, data: Data) returns (e: Entry)
    requires Chain(nodes) && |nodes| > 0 && last == nodes[|nodes| - 1]
    modifies last`next
    ensures fresh(e) && Chain(nodes + [e]) && e.data == data && e.next == null
  {
    e := new Entry();
    last.next := e;
    e.prev := last;
    e.data := data;
  }

  class List {
    var head: Entry
    var tail: Entry
    var mid: Entry?
    var numels: nat
    var spareels: array<Entry?>
    var spareelsnum: nat
    var iterActive: bool
    ghost var nodes: seq<Entry>
    ghost var contents: seq<Data>
    ghost var repr: set<object>

    /** The invariant that `list_repOk` checks, plus the ownership the C code relies on. */
    ghost predicate Valid()
      reads this, nodes, spareels
    {
      && Shape()
      && mid == (if numels == 0 then null else nodes[(numels - 1) / 2 + 1])
    }

    /** Everything but the position of `mid`. */
    ghost predicate Shape()
      reads this`head, this`tail, this`numels, this`spareels, this`spareelsnum
      reads this`nodes, this`contents, this`repr, nodes, spareels
    {
      Linked() && SparesAvoid(nodes)
    }

    ghost predicate Linked()
      reads this`head, this`tail, this`numels, this`spareels
      reads this`nodes, this`contents, this`repr, nodes
    {
      LinksOk() && Holding()
    }

    ghost predicate LinksOk()
      reads this`head, this`tail, this`numels, this`spareels, this`nodes, this`repr, nodes`next, nodes`prev
    {
      && this !in repr && spareels in repr
      && |nodes| == numels + 2
      && (forall i {:trigger nodes[i]} :: 0 <= i < |nodes| ==> nodes[i] in repr)
      && Chain(nodes)
      && nodes[0] == head && nodes[numels + 1] == tail
      && head.prev == null && tail.next == null
    }

    ghost predicate Holding()
      reads this`numels, this`nodes, this`contents, nodes`data
    {
      && |contents| == numels && |nodes| == numels + 2
      && (forall i {:trigger nodes[i]} :: 0 < i <= numels ==> nodes[i].data == contents[i - 1])
    }

    /** The spare entries are distinct, owned, and none of those given. */
    ghost predicate SparesAvoid(keep: seq<Entry>)
      reads this`spareels, this`spareelsnum, this`repr, spareels
    {
      && spareels.Length == MAX_SPARE_ELEMS && spareelsnum <= MAX_SPARE_ELEMS
      && forall i :: 0 <= i < spareelsnum ==>
           && spareels[i] != null && spareels[i] in repr && spareels[i] !in keep
           && forall j :: 0 <= j < i ==> spareels[i] != spareels[j]
    }

    /** `list_init` on a new object. */
    constructor ()
      ensures Valid() && fresh(repr) && contents == [] && !iterActive
    {
      var h := new Entry();
      var t := new Entry();
      h.next := t;
      t.prev := h;
      var spare := new Entry?[MAX_SPARE_ELEMS];
      head, tail, mid, numels, iterActive, spareels, spareelsnum := h, t, null, 0, false, spare, 0;
      nodes, contents, repr := [h, t], [], {spare, h, t};
      new;
      assert nodes[0] == head && nodes[1] == tail && head != tail && Chain(nodes);
      NoSpares(nodes);
      hide Chain, SparesAvoid;
      Closed();
    }

    /** What the operations use of a valid list, */
    lemma Expose()
      requires Valid()
      ensures Shape() && this !in repr && |nodes| == numels + 2 && |contents| == numels
      ensures numels > 0 ==> mid == nodes[(numels - 1) / 2 + 1]
    {
    }

    /** and what they establish to get one back. */
    lemma Restore()
      requires Shape() && |nodes| == numels + 2
      requires mid == if numels == 0 then null else nodes[(numels - 1) / 2 + 1]
      ensures Valid()
    {
    }

    /** `list_findpos`: one of four walks, chosen by where the position lies. */
    method FindPos(pos: int) returns (ptr: Entry?)
      requires Valid()
      ensures pos < -1 || pos > numels ==> ptr == null
      ensures -1 <= pos <= numels ==> ptr == nodes[pos + 1]
    {
      if pos < -1 || pos > numels {
        return null;
      }
      var i: int;
      if numels > 0 && 4 * (pos + 1) <= numels {
        i, ptr := -1, head;
        while i < pos
          invariant -1 <= i <= pos && ptr == nodes[i + 1]
        {
          i, ptr := i + 1, ptr.next;
        }
      } else if numels > 0 && 2 * (pos + 1) < numels {
        i, ptr := (numels - 1) / 2, mid;
        while i > pos
          invariant pos <= i <= numels && ptr == nodes[i + 1]
        {
          i, ptr := i - 1, ptr.prev;
        }
      } else if numels > 0 && 4 * (pos + 1) <= 3 * numels {
        i, ptr := (numels - 1) / 2, mid;
        while i < pos
          invariant -1 <= i <= pos && ptr == nodes[i + 1]
        {
          i, ptr := i + 1, ptr.next;
        }
      } else {
        i, ptr := numels, tail;
        while i > pos
          invariant pos <= i <= numels && ptr == nodes[i + 1]
        {
          i, ptr := i - 1, ptr.prev;
        }
      }
    }

    /** The free-list step of an insertion: reuse a spare entry, or allocate one. */
    method TakeEntry(data: Data) returns (lent: Entry)
      requires Valid()
      modifies this, repr
      ensures Valid() && fresh(repr - old(repr))
      ensures lent in repr && lent !in nodes && lent.data == data
      ensures forall i :: 0 <= i < spareelsnum ==> spareels[i] != lent
      ensures numels == old(numels) && nodes == old(nodes) && contents == old(contents)
      ensures iterActive == old(iterActive)
    {
      if spareelsnum > 0 {
        lent := spareels[spareelsnum - 1];
        spareelsnum := spareelsnum - 1;
      } else {
        lent := new Entry();
        repr := repr + {lent};
      }
      lent.data := data;
    }

    /** The linking step of an insertion; `mid` still points where it did. */
    method LinkIn(lent: Entry, pos: nat, prec: Entry)
      requires Valid() && lent in repr && lent !in nodes && pos <= numels && prec == nodes[pos]
      requires forall i :: 0 <= i < spareelsnum ==> spareels[i] != lent
      modifies this, repr
      ensures Shape() && repr == old(repr) && iterActive == old(iterActive) && mid == old(mid)
      ensures numels == old(numels) + 1 && nodes == Inserted(old(nodes), pos + 1, lent)
      ensures contents == Inserted(old(contents), pos, old(lent.data))
      ensures |nodes| == numels + 2 && Chain(nodes) && this !in repr
    {
      hide Chain, Inserted;
      ghost var was, held := nodes, contents;
      LinkAfter(nodes, pos, prec, lent);
      numels := numels + 1;
      nodes := Inserted(was, pos + 1, lent);
      contents := Inserted(held, pos, lent.data);
      InsertedLength(was, pos + 1, lent);
      InsertedLength(held, pos, lent.data);
      InsertedAt(was, pos + 1, lent, 0);
      InsertedAt(was, pos + 1, lent, numels + 1);
      forall i | 0 <= i < |nodes|
        ensures nodes[i] in repr
      {
        InsertedAt(was, pos + 1, lent, i);
      }
      forall i | 0 < i <= numels
        ensures nodes[i].data == contents[i - 1]
      {
        InsertedAt(was, pos + 1, lent, i);
        InsertedAt(held, pos, lent.data, i - 1);
      }
    }

    /** The mid correction of an insertion, once the entry is linked in. */
    method MidAfterInsert(lent: Entry, pos: nat, ghost was: seq<Entry>)
      requires |was| == numels + 1 && pos < numels && nodes == Inserted(was, pos + 1, lent) && Chain(nodes)
      requires numels >= 2 ==> mid == was[numels / 2]
      modifies this`mid
      ensures mid == nodes[(numels - 1) / 2 + 1]
    {
      hide Inserted;
      ghost var m := numels / 2;
      InsertedAt(was, pos + 1, lent, pos + 1);
      InsertedBefore(was, pos + 1, lent, m);
      if numels == 1 {
        mid := lent;
      } else if numels % 2 == 1 {
        assert (numels - 1) / 2 == m;
        if pos >= (numels - 1) / 2 { mid := mid.next; }
      } else {
        assert (numels - 1) / 2 == m - 1;
        if pos <= (numels - 1) / 2 { mid := mid.prev; }
      }
    }

    /** The rest of an insertion: find the predecessor, link the entry in, correct `mid`. */
    method Place(lent: Entry, pos: nat)
      requires Valid() && lent in repr && lent !in nodes && pos <= numels
      requires forall i :: 0 <= i < spareelsnum ==> spareels[i] != lent
      modifies this, repr
      ensures Valid() && repr == old(repr) && iterActive == old(iterActive)
      ensures contents == Inserted(old(contents), pos, old(lent.data))
    {
      assert |nodes| == numels + 2;
      hide Shape, Chain, Inserted;
      ghost var was := nodes;
      var prec := FindPos(pos - 1);
      LinkIn(lent, pos, prec);
      MidAfterInsert(lent, pos, was);
    }

    /** `list_insert_at`: -1 when iterating or out of range, else 1. */
    method InsertAt(data: Data, pos: nat) returns (rc: int)
      requires Valid()
      modifies this, repr
      ensures Valid() && fresh(repr - old(repr)) && iterActive == old(iterActive)
      ensures rc == if iterActive || pos > |old(contents)| then -1 else 1
      ensures contents == if rc == 1 then Inserted(old(contents), pos, data) else old(contents)
    {
      if iterActive || pos > numels {
        return -1;
      }
      assert |contents| == numels;
      hide Valid, Inserted;
      var lent := TakeEntry(data);
      Place(lent, pos);
      rc := 1;
    }

    /** The mid correction of `list_drop_elem`, made before the entry is unlinked. */
    method MidBeforeDrop(pos: nat)
      requires Shape() && pos < numels && mid == nodes[(numels - 1) / 2 + 1]
      modifies this`mid
      ensures Shape()
      ensures mid == if numels == 1 then null else Cut(nodes, pos + 1, pos + 2)[numels / 2]
    {
      hide Cut;
      if numels >= 2 {
        CutAt(nodes, pos + 1, pos + 2, numels / 2);
      }
      if numels % 2 == 1 {
        if numels == 1 {
          mid := null;
        } else if pos >= numels / 2 {
          mid := mid.prev;
        }
      } else {
        if pos < numels / 2 { mid := mid.next; }
      }
    }

    /** The relinking step of every deletion, with the decrement of `numels`. */
    method CloseGap(left: Entry, right: Entry, a: nat, b: nat)
      requires Linked() && a < b <= numels + 1 && left == nodes[a] && right == nodes[b]
      requires SparesAvoid(Cut(nodes, a + 1, b))
      modifies this, repr
      ensures Shape() && repr == old(repr) && iterActive == old(iterActive) && mid == old(mid)
      ensures numels == old(numels) - (b - a - 1) && nodes == Cut(old(nodes), a + 1, b)
      ensures contents == Cut(old(contents), a, b - 1)
      ensures spareels == old(spareels) && spareelsnum == old(spareelsnum)
      ensures forall i :: 0 <= i < spareels.Length ==> spareels[i] == old(spareels[i])
      ensures |nodes| == numels + 2
    {
      hide *;
      ghost var was, held := nodes, contents;
      Opened();
      CutLength(was, a + 1, b);
      CutLength(held, a, b - 1);
      Bridge(nodes, a, b, left, right);
      numels := numels - (b - a - 1);
      nodes := Cut(was, a + 1, b);
      contents := Cut(held, a, b - 1);
      CutHolds(was, held, a, b);
      Closed();
    }

    lemma Opened()
      requires Linked()
      ensures this !in repr && spareels in repr && |nodes| == numels + 2 && |contents| == numels && Chain(nodes)
      ensures forall i {:trigger nodes[i]} :: 0 <= i < |nodes| ==> nodes[i] in repr
      ensures nodes[0] == head && nodes[numels + 1] == tail && head.prev == null && tail.next == null
      ensures forall i {:trigger nodes[i]} :: 0 < i <= numels ==> nodes[i].data == contents[i - 1]
    {
    }

    lemma Closed()
      requires this !in repr && spareels in repr && |nodes| == numels + 2 && |contents| == numels && Chain(nodes)
      requires forall i {:trigger nodes[i]} :: 0 <= i < |nodes| ==> nodes[i] in repr
      requires nodes[0] == head && nodes[numels + 1] == tail && head.prev == null && tail.next == null
      requires forall i {:trigger nodes[i]} :: 0 < i <= numels ==> nodes[i].data == contents[i - 1]
      requires SparesAvoid(nodes)
      ensures Shape()
    {
    }

    /** Entries and data stay side by side when both lose the same range. */
    lemma CutHolds(was: seq<Entry>, held: seq<Data>, a: nat, b: nat)
      requires |was| == |held| + 2 && a < b <= |held| + 1
      requires forall i {:trigger was[i]} :: 0 <= i < |was| ==> was[i] in repr
      requires forall i {:trigger was[i]} :: 0 < i <= |held| ==> was[i].data == held[i - 1]
      ensures var ns, ds := Cut(was, a + 1, b), Cut(held, a, b - 1);
              && |ns| == |ds| + 2 == |was| - (b - a - 1) && ns[0] == was[0] && ns[|ns| - 1] == was[|was| - 1]
              && (forall i {:trigger ns[i]} :: 0 <= i < |ns| ==> ns[i] in repr)
              && forall i {:trigger ns[i]} :: 0 < i <= |ds| ==> ns[i].data == ds[i - 1]
    {
      var ns, ds := Cut(was, a + 1, b), Cut(held, a, b - 1);
      CutLength(was, a + 1, b);
      CutLength(held, a, b - 1);
      hide Cut;
      forall i | 0 <= i < |ns|
        ensures ns[i] == was[if i <= a then i else i + (b - a - 1)]
      {
        CutAt(was, a + 1, b, i);
      }
      forall i | 0 <= i < |ds|
        ensures ds[i] == held[if i < a then i else i + (b - 1 - a)]
      {
        CutAt(held, a, b - 1, i);
      }
    }

    /** A deleted entry becomes a spare if there is room. */
    method KeepSpare(tmp: Entry, ghost keep: seq<Entry>)
      requires Linked() && SparesAvoid(keep) && tmp in repr && tmp !in keep
      requires forall i :: 0 <= i < spareelsnum ==> spareels[i] != tmp
      modifies this`spareelsnum, spareels
      ensures Linked() && SparesAvoid(keep) && spareelsnum == Spares(old(spareelsnum), 1)
          && spareelsnum <= spareels.Length
      ensures forall i :: 0 <= i < spareelsnum ==> spareels[i] == if i < old(spareelsnum) then old(spareels[i]) else tmp
    {
      if spareelsnum < MAX_SPARE_ELEMS {
        spareels[spareelsnum] := tmp;
        spareelsnum := spareelsnum + 1;
      }
    }

    /** One round of the sparing loops of `list_delete_range` and `list_clear`. */
    method SpareNode(tmp: Entry, ghost a: nat, ghost i: nat)
      requires Linked() && 0 < a <= i <= numels && tmp == nodes[i] && SparesAvoid(Cut(nodes, a, i))
      modifies this`spareelsnum, spareels
      ensures Linked() && SparesAvoid(Cut(nodes, a, i + 1)) && spareelsnum == Spares(old(spareelsnum), 1)
      ensures spareelsnum <= spareels.Length
      ensures forall j :: 0 <= j < spareelsnum ==> spareels[j] == if j < old(spareelsnum) then old(spareels[j]) else tmp
    {
      CutStep(nodes, a, i);
      SkipNode(a, i);
      hide Linked, Chain, Cut;
      KeepSpare(tmp, Cut(nodes, a, i + 1));
    }

    /** Unlink one entry, then keep it as a spare. */
    method TakeOut(tmp: Entry, pos: nat)
      requires Shape() && pos < numels && tmp == nodes[pos + 1]
      modifies this, repr
      ensures Shape() && repr == old(repr) && iterActive == old(iterActive) && mid == old(mid)
      ensures numels == old(numels) - 1 && nodes == Cut(old(nodes), pos + 1, pos + 2)
      ensures contents == Cut(old(contents), pos, pos + 1)
    {
      hide *;
      Alone(tmp, pos);
      Follow(pos);
      Follow(pos + 1);
      CloseGap(tmp.prev, tmp.next, pos, pos + 2);
      Together();
      KeepSpare(tmp, nodes);
      Together();
    }

    /** What taking one entry out needs to know: it is no spare, and the spares do not mind. */
    lemma Alone(tmp: Entry, pos: nat)
      requires Shape() && pos < numels && tmp == nodes[pos + 1]
      ensures Linked() && tmp in repr && tmp !in Cut(nodes, pos + 1, pos + 2)
          && SparesAvoid(Cut(nodes, pos + 1, pos + 2))
      ensures forall i :: 0 <= i < spareelsnum ==> i < spareels.Length && spareels[i] != tmp
      ensures spareelsnum <= spareels.Length && spareels in repr
    {
      assert tmp in nodes;
      assert Cut(nodes, pos + 1, pos + 1) == nodes;
      CutGone(nodes, pos + 1, pos + 2, pos + 1);
      SkipNode(pos + 1, pos + 1);
    }

    lemma Together()
      ensures Linked() && SparesAvoid(nodes) <==> Shape()
    {
    }

    /** `list_drop_elem`, with the decrement of `numels` that each caller makes. */
    method DropElem(tmp: Entry, pos: nat)
      requires Valid() && pos < numels && tmp == nodes[pos + 1]
      modifies this, repr
      ensures Valid() && repr == old(repr) && iterActive == old(iterActive)
      ensures contents == Cut(old(contents), pos, pos + 1)
    {
      assert this !in repr && |nodes| == numels + 2;
      hide Shape, Linked, Cut;
      MidBeforeDrop(pos);
      TakeOut(tmp, pos);
    }

    /** `list_extract_at`: the data pointer, or NULL when iterating or out of range. */
    method ExtractAt(pos: nat) returns (data: Data)
      requires Valid()
      modifies this, repr
      ensures Valid() && repr == old(repr) && iterActive == old(iterActive)
      ensures iterActive || pos >= |old(contents)| ==> data == NULL && contents == old(contents)
      ensures !iterActive && pos < |old(contents)| ==>
                data == old(contents)[pos] && contents == Cut(old(contents), pos, pos + 1)
    {
      if iterActive || pos >= numels {
        return NULL;
      }
      var tmp := FindPos(pos);
      data := tmp.data;
      DropElem(tmp, pos);
    }

    /** `list_delete_at`: -1 when iterating or out of range, else 0. */
    method DeleteAt(pos: nat) returns (rc: int)
      requires Valid()
      modifies this, repr
      ensures Valid() && repr == old(repr) && iterActive == old(iterActive)
      ensures rc == if iterActive || pos >= |old(contents)| then -1 else 0
      ensures contents == if rc == 0 then Cut(old(contents), pos, pos + 1) else old(contents)
    {
      if iterActive || pos >= numels {
        return -1;
      }
      var delendo := FindPos(pos);
      DropElem(delendo, pos);
      rc := 0;
    }

    lemma Follow(i: nat)
      requires Linked() && i <= numels
      ensures |nodes| == numels + 2 && nodes[i].next == nodes[i + 1] && tail == nodes[numels + 1]
      ensures nodes[i + 1].prev == nodes[i]
    {
    }

    /** The first loop of `list_clear`: entries become spares while there is room. */
    method SpareFirst() returns (s: Entry, ghost i: nat)
      requires Shape()
      modifies this`spareelsnum, spareels
      ensures 1 <= i <= numels + 1 && Linked() && s == nodes[i] && SparesAvoid(Cut(nodes, 1, i))
      ensures spareelsnum == old(spareelsnum) + (i - 1) && (spareelsnum == MAX_SPARE_ELEMS || i == numels + 1)
      ensures forall j :: 0 <= j < spareelsnum ==>
                spareels[j] == if j < old(spareelsnum) then old(spareels[j]) else nodes[j - old(spareelsnum) + 1]
    {
      Together();
      NothingCut();
      hide Shape, Linked, SparesAvoid, Cut;
      s := head.next;
      i := 1;
      while spareelsnum < MAX_SPARE_ELEMS && s != tail
        invariant 1 <= i <= numels + 1 && |nodes| == numels + 2 && Linked() && s == nodes[i]
            && SparesAvoid(Cut(nodes, 1, i))
        invariant spareelsnum == old(spareelsnum) + (i - 1) && spareelsnum <= spareels.Length == MAX_SPARE_ELEMS
        invariant forall j :: 0 <= j < spareelsnum ==>
                    spareels[j] == if j < old(spareelsnum) then old(spareels[j]) else nodes[j - old(spareelsnum) + 1]
        decreases numels - i
      {
        Follow(i);
        SpareNode(s, 1, i);
        s := s.next;
        i := i + 1;
      }
      LastNode(i);
    }

    lemma NothingCut()
      requires Linked()
      ensures Cut(nodes, 1, 1) == nodes && |nodes| == numels + 2 && head.next == nodes[1]
      ensures SparesAvoid(nodes) ==> spareelsnum <= spareels.Length == MAX_SPARE_ELEMS
    {
    }

    lemma LastNode(i: nat)
      requires Linked() && i <= numels + 1
      ensures |nodes| == numels + 2 && (nodes[i] == tail <==> i == numels + 1)
    {
    }

    /** The second loop of `list_clear`: the other entries are freed. */
    method FreeRest(s0: Entry, ghost i0: nat)
      requires Linked() && 1 <= i0 <= numels + 1 && s0 == nodes[i0] && SparesAvoid(Cut(nodes, 1, i0))
      ensures SparesAvoid(Cut(nodes, 1, numels + 1))
    {
      LastNode(i0);
      hide Linked, Chain, Cut;
      var s := s0;
      ghost var i := i0;
      while s != tail
        invariant 1 <= i <= numels + 1 && s == nodes[i] && SparesAvoid(Cut(nodes, 1, i))
        decreases numels - i
      {
        LastNode(i);
        Follow(i);
        SkipNode(1, i);
        s := s.next;
        i := i + 1;
      }
      LastNode(i);
    }

    method SpareAll()
      requires Shape()
      modifies this`spareelsnum, spareels
      ensures Linked() && SparesAvoid(Cut(nodes, 1, numels + 1)) && spareelsnum == Spares(old(spareelsnum), numels)
      ensures forall j :: 0 <= j < spareelsnum ==>
                spareels[j] == if j < old(spareelsnum) then old(spareels[j]) else nodes[j - old(spareelsnum) + 1]
    {
      assert spareelsnum <= MAX_SPARE_ELEMS;
      hide Linked, SparesAvoid, Cut;
      var s;
      ghost var i;
      s, i := SpareFirst();
      FreeRest(s, i);
    }

    /** A freed entry is one entry fewer for the spares to avoid. */
    lemma SkipNode(a: nat, i: nat)
      requires Linked() && 0 < a <= i <= numels && SparesAvoid(Cut(nodes, a, i))
      ensures SparesAvoid(Cut(nodes, a, i + 1))
    {
      CutStep(nodes, a, i);
    }

    /** `list_clear`: -1 when iterating, else the number of elements there were. */
    method Clear() returns (rc: int)
      requires Valid()
      modifies this, repr
      ensures Valid() && repr == old(repr) && iterActive == old(iterActive)
      ensures rc == if iterActive then -1 else |old(contents)|
      ensures contents == if iterActive then old(contents) else []
      ensures spareels == old(spareels)
      ensures spareelsnum == Spares(old(spareelsnum), if iterActive then 0 else |old(contents)|)
      ensures forall j :: 0 <= j < spareelsnum ==>
                spareels[j] == if j < old(spareelsnum) then old(spareels[j]) else old(nodes)[j - old(spareelsnum) + 1]
    {
      if iterActive {
        return -1;
      }
      rc := numels;
      SpareAll();
      CloseGap(head, tail, 0, numels + 1);
      mid := null;
    }

    /** The walk of `mid` to the entry that will be in the middle. */
    method MoveMid(target: nat)
      requires Shape() && numels >= 1 && mid == nodes[(numels - 1) / 2 + 1] && target < numels
      modifies this`mid
      ensures Shape() && mid == nodes[target + 1]
    {
      var movedx := target as int - (numels - 1) / 2;
      ghost var start := (numels - 1) / 2;
      if movedx > 0 {
        for i := 0 to movedx
          invariant mid == nodes[start + i + 1]
        {
          mid := mid.next;
        }
      } else {
        for i := 0 to -movedx
          invariant mid == nodes[start - i + 1]
        {
          mid := mid.prev;
        }
      }
    }

    /** The loop of `list_delete_range`: entries posstart .. posend become spares or are freed. */
    method SpareRange(first: Entry, posstart: nat, posend: nat) returns (tmp: Entry)
      requires Shape() && posstart <= posend < numels && first == nodes[posstart + 1]
      modifies this`spareelsnum, spareels
      ensures Linked() && tmp == nodes[posend + 2] && SparesAvoid(Cut(nodes, posstart + 1, posend + 2))
    {
      assert Cut(nodes, posstart + 1, posstart + 1) == nodes;
      hide Cut;
      tmp := first;
      for i := posstart to posend + 1
        invariant Linked() && tmp == nodes[i + 1] && SparesAvoid(Cut(nodes, posstart + 1, i + 1))
      {
        var tmp2 := tmp;
        tmp := tmp.next;
        SpareNode(tmp2, posstart + 1, i + 1);
      }
    }

    /** Unlink a range of entries, having kept what fits as spares. */
    method TakeOutRange(tmp: Entry, posstart: nat, posend: nat)
      requires Shape() && posstart <= posend < numels && tmp == nodes[posstart + 1]
      modifies this, repr
      ensures Shape() && repr == old(repr) && iterActive == old(iterActive) && mid == old(mid)
      ensures numels == old(numels) - (posend - posstart + 1) && nodes == Cut(old(nodes), posstart + 1, posend + 2)
      ensures contents == Cut(old(contents), posstart, posend + 1) && |nodes| == numels + 2
    {
      Follow(posstart);
      hide Chain, Cut;
      var lastvalid := tmp.prev;
      var after := SpareRange(tmp, posstart, posend);
      CloseGap(lastvalid, after, posstart, posend + 2);
    }

    /** `list_delete_range` when some element remains. */
    method DeleteSome(posstart: nat, posend: nat)
      requires Valid() && posstart <= posend < numels && posend - posstart + 1 < numels
      modifies this, repr
      ensures Valid() && repr == old(repr) && iterActive == old(iterActive)
      ensures contents == Cut(old(contents), posstart, posend + 1)
    {
      hide *;
      Expose();
      var numdel := posend - posstart + 1;
      var tmp := FindPos(posstart);
      var midposafter := (numels - 1 - numdel) / 2;
      CutAt(nodes, posstart + 1, posend + 2, midposafter + 1);
      MoveMid(if midposafter < posstart then midposafter else midposafter + numdel);
      TakeOutRange(tmp, posstart, posend);
      Restore();
    }

    /** `list_delete_range`: -1 when iterating or out of range, else the number deleted. */
    method DeleteRange(posstart: nat, posend: nat) returns (rc: int)
      requires Valid()
      modifies this, repr
      ensures Valid() && repr == old(repr) && iterActive == old(iterActive)
      ensures rc == if iterActive || posend < posstart || posend >= |old(contents)| then -1 else posend - posstart + 1
      ensures contents == if rc == -1 then old(contents) else Cut(old(contents), posstart, posend + 1)
    {
      if iterActive || posend < posstart || posend >= numels {
        return -1;
      }
      var numdel := posend - posstart + 1;
      if numdel == numels {
        rc := Clear();
        return;
      }
      DeleteSome(posstart, posend);
      rc := numdel;
    }

    /** These entries, linked both ways between the sentinels, are what the fields describe. */
    ghost predicate Represents(ns: seq<Entry>)
      reads this`head, this`tail, this`mid, this`numels, this`spareelsnum, ns`next, ns`prev
    {
      && Chain(ns) && |ns| == numels + 2 && ns[0] == head && ns[numels + 1] == tail
      && head.prev == null && tail.next == null && spareelsnum <= MAX_SPARE_ELEMS
      && mid == (if numels == 0 then null else ns[(numels - 1) / 2 + 1])
    }

    /** Every list the operations produce is described by its fields. */
    lemma ValidRepresents()
      requires Valid()
      ensures Represents(nodes)
    {
    }

    /**
     `list_repOk`, on any list whatever, valid or not: it accepts exactly the lists whose fields
     describe some chain of entries. The entries that can be reached are finitely many: `heap`.
     */
    method RepOk(ghost heap: set<Entry>) returns (ok: bool)
      requires head in heap && forall e :: e in heap && e.next != null ==> e.next in heap
      ensures ok <==> exists ns :: Represents(ns)
    {
      ok := head != tail && head.prev == null && tail.next == null
        && (numels > 0 || (mid == null && head.next == tail && tail.prev == head))
        && spareelsnum <= MAX_SPARE_ELEMS;
      if !ok {
        BadEnds();
        return;
      }
      if numels == 0 {
        assert Represents([head, tail]);
        return;
      }
      hide *;
      var i, s := 0, head;
      ghost var walk, left;
      i, s, walk, left := WalkToMid(heap);
      ok := i == (numels - 1) / 2 && mid == s;
      if !ok {
        MidRejected(walk, s, heap, left, i);
        return;
      }
      i, s, walk, left := WalkOn(i, s, heap, walk, left);
      ok := i == numels && s == tail;
      EndDecides(walk, s, heap, left, i);
    }

    /** Where a loop stops: at the end, or at a link that is not two-way. */
    ghost predicate Stuck(s: Entry)
      reads s, s.next
    {
      s.next == null || s.next.prev != s
    }

    /** The first loop: up to the middle. */
    method WalkToMid(ghost heap: set<Entry>) returns (i: int, s: Entry, ghost walk: seq<Entry>, ghost left: set<Entry>)
      requires head in heap && (forall e :: e in heap && e.next != null ==> e.next in heap) && head.prev == null
          && numels >= 1
      ensures -1 <= i <= (numels - 1) / 2 && |walk| == i + 2 && Walked(walk, s, heap, left)
      ensures i == (numels - 1) / 2 || Stuck(s)
    {
      i, s, walk, left := -1, head, [head], heap - {head};
      while i < (numels - 1) / 2 && s.next != null && s.next.prev == s
        invariant -1 <= i <= (numels - 1) / 2 && |walk| == i + 2 && Walked(walk, s, heap, left)
        decreases (numels - 1) / 2 - i
      {
        WalkMore(walk, s, heap, left);
        hide Walked;
        i, s := i + 1, s.next;
        walk, left := walk + [s], left - {s};
      }
    }

    /** The second loop: as far as it goes. */
    method WalkOn(i0: int, s0: Entry, ghost heap: set<Entry>, ghost walk0: seq<Entry>, ghost left0: set<Entry>)
      returns (i: int, s: Entry, ghost walk: seq<Entry>, ghost left: set<Entry>)
      requires |walk0| == i0 + 2 && Walked(walk0, s0, heap, left0)
      ensures i >= i0 && |walk| == i + 2 && walk[..|walk0|] == walk0 && Walked(walk, s, heap, left) && Stuck(s)
    {
      i, s, walk, left := i0, s0, walk0, left0;
      hide Walked;
      while s.next != null && s.next.prev == s
        invariant i >= i0 && |walk| == i + 2 && walk[..|walk0|] == walk0 && Walked(walk, s, heap, left)
        decreases |left|
      {
        WalkMore(walk, s, heap, left);
        i, s := i + 1, s.next;
        walk, left := walk + [s], left - {s};
      }
    }

    lemma MidRejected(walk: seq<Entry>, s: Entry, heap: set<Entry>, left: set<Entry>, i: int)
      requires -1 <= i <= (numels - 1) / 2 && |walk| == i + 2 && Walked(walk, s, heap, left) && numels >= 1
      requires (i == (numels - 1) / 2 && mid != s) || (i < (numels - 1) / 2 && Stuck(s))
      ensures forall ns :: !Represents(ns)
    {
      SameWalk(walk, s, heap, left);
    }

    lemma EndDecides(walk: seq<Entry>, s: Entry, heap: set<Entry>, left: set<Entry>, i: int)
      requires numels >= 1 && (numels - 1) / 2 <= i && |walk| == i + 2 && Walked(walk, s, heap, left) && Stuck(s)
      requires walk[(numels - 1) / 2 + 1] == mid && head.prev == null && tail.next == null
          && spareelsnum <= MAX_SPARE_ELEMS
      ensures (i == numels && s == tail) <==> exists ns :: Represents(ns)
    {
      SameWalk(walk, s, heap, left);
      if i == numels && s == tail {
        assert Represents(walk);
      }
    }

    lemma BadEnds()
      ensures (exists ns :: Represents(ns)) ==>
                && head != tail && head.prev == null && tail.next == null
                && (numels > 0 || (mid == null && head.next == tail && tail.prev == head))
                && spareelsnum <= MAX_SPARE_ELEMS
    {
      if ns :| Represents(ns) {
        assert ns[0] != ns[numels + 1];
      }
    }

    /** What the two loops went over, and the entries they have not met. */
    ghost predicate Walked(walk: seq<Entry>, s: Entry, heap: set<Entry>, left: set<Entry>)
      reads this`head, heap`next, heap`prev, walk`next, walk`prev, {head}`prev
    {
      && Chain(walk) && |walk| > 0 && walk[0] == head && head.prev == null && s == walk[|walk| - 1]
      && (forall e :: e in walk ==> e in heap && e !in left) && (forall e :: e in heap ==> e in walk || e in left)
      && forall e :: e in heap && e.next != null ==> e.next in heap
    }

    lemma WalkMore(walk: seq<Entry>, s: Entry, heap: set<Entry>, left: set<Entry>)
      requires Walked(walk, s, heap, left) && s.next != null && s.next.prev == s
      ensures s == walk[|walk| - 1] && s.next in left && Walked(walk + [s.next], s.next, heap, left - {s.next})
    {
      var e := s.next;
      assert s in walk;
      forall j | 0 <= j < |walk|
        ensures walk[j] != e
      {
        if j > 0 { assert walk[j].prev == walk[j - 1]; }
      }
    }

    /** A chain that the fields describe begins with what was walked, and goes on until its end. */
    lemma SameWalk(walk: seq<Entry>, s: Entry, heap: set<Entry>, left: set<Entry>)
      requires Walked(walk, s, heap, left)
      ensures forall ns :: Represents(ns) ==>
                && |walk| <= |ns| && walk == ns[..|walk|] && s == ns[|walk| - 1]
                && (|walk| < |ns| ==> s.next != null && s.next.prev == s) && (|walk| == |ns| ==> s == tail)
    {
      forall ns | Represents(ns)
        ensures |walk| <= |ns| && walk == ns[..|walk|] && s == ns[|walk| - 1]
        ensures |walk| < |ns| ==> s.next != null && s.next.prev == s
        ensures |walk| == |ns| ==> s == tail
      {
        SamePrefix(walk, ns, |walk|);
        assert walk == ns[..|walk|] by { assert walk[..|walk|] == walk; }
        assert s == ns[..|walk|][|walk| - 1];
      }
    }

    lemma {:induction false} SamePrefix(walk: seq<Entry>, ns: seq<Entry>, n: nat)
      requires Chain(walk) && Represents(ns) && 0 < n <= |walk| && walk[0] == head
      ensures n <= |ns| && walk[..n] == ns[..n]
    {
      if n > 1 {
        SamePrefix(walk, ns, n - 1);
        assert walk[n - 2] == walk[..n - 1][n - 2] == ns[n - 2];
        assert walk[n - 2].next == walk[n - 1];
        assert walk[..n] == walk[..n - 1] + [walk[n - 1]];
        if n <= |ns| { assert ns[..n] == ns[..n - 1] + [ns[n - 1]]; }
      }
    }

    /** One copying loop of `list_concat`: src's elements are appended after `el`. */
    static method CopyAfter(src: List, el: Entry, ghost done: seq<Entry>) returns (last: Entry, ghost all: seq<Entry>)
      requires src.Valid() && Chain(done) && |done| > 0 && el == done[|done| - 1]
      requires forall e :: e in done ==> e !in src.repr
      modifies el`next
      ensures Chain(all) && |all| == |done| + src.numels && all[..|done|] == done && last == all[|all| - 1]
      ensures forall i :: |done| <= i < |all| ==> fresh(all[i]) && all[i].data == src.contents[i - |done|]
    {
      var srcel := src.head.next;
      last, all := el, done;
      ghost var n := 0;
      while srcel != src.tail
        invariant 0 <= n <= src.numels && srcel == src.nodes[n + 1] && src.Valid()
        invariant Chain(all) && |all| == |done| + n && all[..|done|] == done && last == all[|all| - 1]
        invariant forall i :: |done| <= i < |all| ==> fresh(all[i]) && all[i].data == src.contents[i - |done|]
        decreases src.numels - n
      {
        src.Follow(n + 1);
        var e := AppendEntry(all, last, srcel.data);
        assert all[..|done|] == done;
        last, all := e, all + [e];
        srcel := srcel.next;
        n := n + 1;
      }
    }

    /** The mid correction of `list_concat`, with C's truncating division written out. */
    method MidAfterConcat(n1: nat, n2: nat)
      requires Shape() && numels == n1 + n2 > 0 && |nodes| == numels + 2 && mid == nodes[n1]
      modifies this`mid
      ensures Shape() && mid == nodes[(numels - 1) / 2 + 1]
    {
      var err: int := n2 - n1;
      if Truncate(err + 1) > 0 {
        err := Truncate(err + 1);
        for cnt := 0 to err
          invariant mid == nodes[n1 + cnt]
        {
          mid := mid.next;
        }
      } else if Truncate(err) < 0 {
        err := Truncate(-err);
        for cnt := 0 to err
          invariant mid == nodes[n1 - cnt]
        {
          mid := mid.prev;
        }
      }
    }

    /** The copying part of `list_concat`, on new entries; `m` is the last copy of l1. */
    static method CopyChain(l1: List, l2: List) returns (h: Entry, m: Entry, t: Entry, ghost all: seq<Entry>)
      requires l1.Valid() && l2.Valid()
      ensures Chain(all) && |all| == l1.numels + l2.numels + 2
      ensures h == all[0] && t == all[|all| - 1] && m == all[l1.numels] && h.prev == null && t.next == null
      ensures forall i {:trigger all[i]} :: 0 <= i < |all| ==> fresh(all[i])
      ensures forall i {:trigger all[i]} :: 0 < i <= l1.numels ==> all[i].data == l1.contents[i - 1]
      ensures forall i {:trigger all[i]} :: l1.numels < i <= l1.numels + l2.numels ==>
                all[i].data == l2.contents[i - 1 - l1.numels]
    {
      assert |l1.contents| == l1.numels && |l2.contents| == l2.numels;
      hide Chain;
      h := new Entry();
      ghost var first;
      m, first := CopyAfter(l1, h, [h]);
      t, all := CopyRest(l2, m, first);
      assert forall i {:trigger all[i]} :: 0 <= i < |first| ==> all[i] == first[i] by {
        assert all[..|first|] == first;
      }
    }

    /** The second copying loop, and the link to the tail sentinel. */
    static method CopyRest(src: List, el: Entry, ghost done: seq<Entry>) returns (t: Entry, ghost all: seq<Entry>)
      requires src.Valid() && Chain(done) && |done| > 0 && el == done[|done| - 1]
      requires forall e :: e in done ==> e !in src.repr
      modifies el`next
      ensures Chain(all) && |all| == |done| + src.numels + 1 && all[..|done|] == done
      ensures t == all[|all| - 1] && t.next == null
      ensures forall i {:trigger all[i]} :: |done| <= i < |all| ==> fresh(all[i])
      ensures forall i {:trigger all[i]} :: |done| <= i < |all| - 1 ==> all[i].data == src.contents[i - |done|]
    {
      assert |src.contents| == src.numels;
      hide Chain;
      var last;
      ghost var copied;
      last, copied := CopyAfter(src, el, done);
      t := AppendEntry(copied, last, NULL);
      all := copied + [t];
    }

    /** The fields of the destination, once its entries exist. */
    method Install(n: nat, h: Entry, m: Entry, t: Entry, spare: array<Entry?>, ghost all: seq<Entry>,
                   ghost held: seq<Data>, ghost own: set<Entry>)
      requires Chain(all) && |all| == n + 2 && |held| == n && spare.Length == MAX_SPARE_ELEMS
      requires h == all[0] && t == all[n + 1] && h.prev == null && t.next == null
      requires forall i {:trigger all[i]} :: 0 <= i < |all| ==> all[i] in own
      requires forall i {:trigger all[i]} :: 0 < i <= n ==> all[i].data == held[i - 1]
      modifies this
      ensures Shape() && mid == m && nodes == all && numels == n && contents == held
      ensures spareels == spare && repr == own + {spare}
    {
      hide *;
      head, tail, mid, numels, iterActive, spareels, spareelsnum := h, t, m, n, false, spare, 0;
      nodes, contents, repr := all, held, own + {spare};
      NoSpares(nodes);
      Closed();
    }

    lemma NoSpares(keep: seq<Entry>)
      requires spareels.Length == MAX_SPARE_ELEMS && spareelsnum == 0
      ensures SparesAvoid(keep)
    {
    }

    /** Everything `list_concat` does but the correction of `mid`. */
    method CopyBoth(l1: List, l2: List)
      requires l1 != this && l2 != this && l1.Valid() && l2.Valid()
      modifies this
      ensures Shape() && fresh(repr) && contents == l1.contents + l2.contents && numels == l1.numels + l2.numels
      ensures |nodes| == numels + 2 && mid == nodes[l1.numels]
    {
      assert MAX_SPARE_ELEMS == 5;
      hide *;
      l1.Expose();
      l2.Expose();
      var h, m, t, all := CopyChain(l1, l2);
      var spare := new Entry?[MAX_SPARE_ELEMS];
      Install(l1.numels + l2.numels, h, m, t, spare, all, l1.contents + l2.contents, set e | e in all);
    }

    /** `list_concat` with this list as the destination: -1 when it is also a source, else 0. */
    method Concat(l1: List, l2: List) returns (rc: int)
      requires l1 != this ==> l1.Valid()
      requires l2 != this ==> l2.Valid()
      requires l1 == this || l2 == this ==> Valid()
      modifies this
      ensures Valid() && rc == if l1 == this || l2 == this then -1 else 0
      ensures rc == 0 ==> l1.Valid() && l2.Valid() && fresh(repr) && contents == l1.contents + l2.contents
      ensures rc == -1 ==> contents == old(contents) && repr == old(repr)
    {
      hide *;
      if l1 == this || l2 == this {
        return -1;
      }
      CopyBoth(l1, l2);
      if numels == 0 {
        mid := null;
      } else {
        MidAfterConcat(l1.numels, l2.numels);
      }
      Restore();
      rc := 0;
    }

    /** The call of the quicksort on two or more elements: data pointers move, links stay. */
    method SortNodes(cmp: Comparator, versus: int) returns (ghost e: seq<Data>)
      requires Shape() && TotalPreorder(cmp) && numels >= 2
      modifies nodes`data
      ensures LinksOk() && SparesAvoid(nodes) && |e| == numels + 2 && Holds(nodes, e)
      ensures multiset(e[1..numels + 1]) == multiset(contents) && Sorted(cmp, versus, e, 1, numels + 1)
    {
      hide *;
      ghost var d := BeforeSort();
      e := QuickSort(nodes, d, cmp, versus, 1, head.next, numels, tail.prev);
      Facts(nodes, e, 0, 0);
      SameMiddle(d, e, 1, numels + 1);
    }

    /** The data of all entries, those of the sentinels included. */
    lemma BeforeSort() returns (d: seq<Data>)
      requires Shape() && numels >= 2
      ensures |d| == numels + 2 == |nodes| && d[1..numels + 1] == contents && Holds(nodes, d) && Chain(nodes)
      ensures LinksOk() && SparesAvoid(nodes) && head.next != null && tail.prev != null
      ensures nodes[1] == head.next && nodes[numels] == tail.prev
    {
      d := [head.data] + contents + [tail.data];
    }

    /** The sort of two or more elements, seen as one on the contents. */
    method SortData(cmp: Comparator, versus: int)
      requires Shape() && TotalPreorder(cmp) && numels >= 2
      modifies this`contents, nodes`data
      ensures Shape() && |contents| == numels
      ensures multiset(contents) == multiset(old(contents)) && Sorted(cmp, versus, contents, 0, numels)
    {
      ghost var e := SortNodes(cmp, versus);
      hide LinksOk, SparesAvoid, Chain;
      contents := e[1..numels + 1];
    }

    /**
     `list_sort`: -1 without a comparator or while iterating; otherwise the data are a
     rearrangement in the order of the comparator and of the sign of `versus`, and every link,
     `mid` and `numels` are as they were.
     */
    method Sort(comparator: Option<Comparator>, versus: int) returns (rc: int)
      requires Valid() && (comparator.Some? ==> TotalPreorder(comparator.value))
      modifies this`contents, nodes`data
      ensures Valid() && rc == if iterActive || comparator.None? then -1 else 0
      ensures rc == -1 ==> contents == old(contents)
      ensures rc == 0 ==> multiset(contents) == multiset(old(contents))
      ensures rc == 0 ==> Sorted(comparator.value, versus, contents, 0, |contents|)
    {
      if iterActive || comparator.None? {
        return -1;
      }
      if numels > 1 {
        SortData(comparator.value, versus);
      }
      rc := 0;
    }
  }
}
