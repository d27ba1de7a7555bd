/**
 `chirouter_get_matching_entry` and `get_forward_ip` of src/c/router.c.

 Addresses and masks are the 32-bit values a little-endian host reads from network byte order,
 so the numeric comparison of masks is a comparison of byte-swapped numbers.
 */
module LongestMatch {
  import opened Wrappers

  type Ip = bv32

  datatype Route = Route(dest: Ip, mask: Ip, gw: Ip, iface: nat)

  function Swap(v: bv32): bv32 {
    ((v & 0xff) << 24) | ((v & 0xff00) << 8) | ((v >> 8) & 0xff00) | (v >> 24)
  }

  /** The contiguous mask of prefix length p, as a number in host order. */
  function Mask(p: bv32): bv32
    requires p <= 32
  {
    0xffff_ffff << (32 - p)
  }

  function And(v: bv32, w: bv32): bv32 {
    v & w
  }

  /** The first p bits of a number in host order, the others cleared: one bit, then p - 1 more. */
  function Prefix(v: bv32, p: bv32): bv32
    requires p <= 32
    decreases p
  {
    if p == 0 then 0 else (v & 0x8000_0000) | (Prefix(v << 1, p - 1) >> 1)
  }

  predicate Covers(mask: Ip, dest: Ip, dst: Ip) {
    And(dst, mask) == dest
  }

  predicate Matches(r: Route, dst: Ip) {
    Covers(r.mask, r.dest, dst)
  }

  predicate Smaller(m: Ip, n: Ip) {
    m < n
  }

  /** Route masks are contiguous; `plen` gives their prefix lengths. */
  ghost predicate Contiguous(table: seq<Route>, plen: seq<bv32>) {
    && |plen| == |table|
    && forall i :: 0 <= i < |table| ==> plen[i] <= 32 && table[i].mask == Swap(Mask(plen[i]))
  }

  /** What the loop holds in `result` after n entries. */
  function Best(table: seq<Route>, dst: Ip, n: nat): (k: Option<nat>)
    requires n <= |table|
    ensures k.Some? ==> k.value < n && Matches(table[k.value], dst)
  {
    if n == 0 then None
    else
      var k := Best(table, dst, n - 1);
      if !Matches(table[n - 1], dst) then k
      else if k.Some? && !Smaller(table[k.value].mask, table[n - 1].mask) then k
      else Some(n - 1)
  }

  /** Entry k is the first of those with the largest mask among the first n entries that match. */
  predicate FirstLargest(table: seq<Route>, dst: Ip, n: nat, k: nat)
    requires n <= |table|
  {
    && k < n && Matches(table[k], dst)
    && forall i :: 0 <= i < n && Matches(table[i], dst) ==>
         !Smaller(table[k].mask, table[i].mask) && (i < k ==> Smaller(table[i].mask, table[k].mask))
  }

  lemma {:induction false} BestIsFirstLargest(table: seq<Route>, dst: Ip, n: nat)
    requires n <= |table|
    ensures var k := Best(table, dst, n);
            && (k.None? <==> forall i :: 0 <= i < n ==> !Matches(table[i], dst))
            && (k.Some? ==> FirstLargest(table, dst, n, k.value))
  {
    hide Covers, Smaller, Matches;
    if n > 0 {
      BestIsFirstLargest(table, dst, n - 1);
      var k, last := Best(table, dst, n - 1), table[n - 1].mask;
      Below(last, last, last);
      if k.Some? {
        forall i | 0 <= i < n
          ensures Smaller(table[k.value].mask, last) && !Smaller(table[k.value].mask, table[i].mask) ==>
              Smaller(table[i].mask, last)
          ensures Smaller(table[i].mask, last) ==> !Smaller(last, table[i].mask)
        {
          Below(table[i].mask, table[k.value].mask, last);
        }
      }
    }
  }

  lemma Below(a: Ip, b: Ip, c: Ip)
    ensures Smaller(b, c) && !Smaller(b, a) ==> Smaller(a, c)
    ensures !Smaller(a, a) && (Smaller(a, c) ==> !Smaller(c, a))
  {
  }

  /**
   Whatever the masks: nothing exactly if no entry matches, else the first matching entry of the
   largest mask, as stored.
   */
  method GetMatchingEntry(table: seq<Route>, dst: Ip) returns (result: Option<nat>)
    ensures result == Best(table, dst, |table|)
    ensures result.None? <==> forall i :: 0 <= i < |table| ==> !Matches(table[i], dst)
    ensures result.Some? ==> FirstLargest(table, dst, |table|, result.value)
  {
    BestIsFirstLargest(table, dst, |table|);
    hide Covers, Smaller, FirstLargest;
    result := None;
    for i := 0 to |table|
      invariant result == Best(table, dst, i)
    {
      if Matches(table[i], dst) {
        if result.Some? {
          if Smaller(table[result.value].mask, table[i].mask) {
            result := Some(i);
          }
        } else {
          result := Some(i);
        }
      }
    }
  }

  /** `get_forward_ip` */
  function ForwardIp(r: Route, dst: Ip): Ip {
    if r.gw != 0 then r.gw else dst
  }

  /** Byte order does not disturb the comparison: of contiguous masks the longer is the larger. */
  lemma MaskOrder(p: bv32, q: bv32)
    requires p <= 32 && q <= 32
    ensures p < q <==> Smaller(Swap(Mask(p)), Swap(Mask(q)))
  {
    if p < q {
      MaskGrows(p, q);
    } else if q < p {
      MaskGrows(q, p);
    }
  }

  lemma MaskGrows(p: bv32, q: bv32)
    requires p < q <= 32
    ensures Swap(Mask(p)) < Swap(Mask(q))
  {
  }

  /** The match is the textbook one: the first p bits agree and the route has no host bits. */
  lemma MatchIsPrefix(r: Route, dst: Ip, p: bv32)
    requires p <= 32 && r.mask == Swap(Mask(p))
    ensures Matches(r, dst) <==> Prefix(Swap(dst), p) == Swap(r.dest)
  {
    hide Swap, Mask, And, Prefix;
    PrefixBits(dst, r.dest, p);
  }

  lemma PrefixBits(dst: Ip, dest: Ip, p: bv32)
    requires p <= 32
    ensures Covers(Swap(Mask(p)), dest, dst) <==> Prefix(Swap(dst), p) == Swap(dest)
  {
    hide Swap, Mask, And, Prefix;
    SwapTwice(dest);
    SwapTwice(Mask(p));
    SwapTwice(And(dst, Swap(Mask(p))));
    SwapAnd(dst, Swap(Mask(p)));
    MaskCuts(Swap(dst), p);
  }

  lemma SwapTwice(v: bv32)
    ensures Swap(Swap(v)) == v
  {
  }

  lemma SwapAnd(v: bv32, w: bv32)
    ensures Swap(And(v, w)) == And(Swap(v), Swap(w))
  {
  }

  lemma {:induction false} MaskCuts(v: bv32, p: bv32)
    requires p <= 32
    ensures And(v, Mask(p)) == Prefix(v, p)
    decreases p
  {
    if p == 0 {
      assert Mask(0) == 0;
    } else {
      MaskCuts(v << 1, p - 1);
      MaskStep(p);
      Distribute(v, Mask(p - 1));
      hide Mask;
    }
  }

  lemma MaskStep(p: bv32)
    requires 0 < p <= 32
    ensures Mask(p) == (Mask(p - 1) >> 1) | 0x8000_0000
  {
  }

  lemma Distribute(v: bv32, m: bv32)
    ensures v & ((m >> 1) | 0x8000_0000) == (v & 0x8000_0000) | (((v << 1) & m) >> 1)
  {
  }

  /**
   The lookup finds nothing exactly when no entry matches; otherwise it finds a matching entry
   of maximal prefix length, the earliest of those.
   */
  lemma {:induction false} BestIsLongest(table: seq<Route>, plen: seq<bv32>, dst: Ip, n: nat)
    requires Contiguous(table, plen) && n <= |table|
    ensures var k := Best(table, dst, n);
            && (k.None? <==> forall i :: 0 <= i < n ==> !Matches(table[i], dst))
            && (k.Some? ==> forall i :: 0 <= i < n && Matches(table[i], dst) ==>
                  plen[i] < plen[k.value] || (plen[i] == plen[k.value] && k.value <= i))
  {
    hide Covers, Smaller, Swap, Mask;
    if n > 0 {
      BestIsLongest(table, plen, dst, n - 1);
      var k := Best(table, dst, n - 1);
      if k.Some? {
        MaskOrder(plen[k.value], plen[n - 1]);
      }
    }
  }
}
