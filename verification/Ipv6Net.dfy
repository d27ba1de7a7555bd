/** Membership of IPv6 addresses in networks, in lib/pox/pox/lib/addresses.py, on numbers. */
module Ipv6Net {
  import opened Wrappers
  import opened Ipv6

  function Pow2(n: nat): (p: nat)
    ensures p >= 1
  {
    if n == 0 then 1 else 2 * Pow2(n - 1)
  }

  lemma {:induction false} PowSum(a: nat, b: nat)
    ensures Pow2(a) * Pow2(b) == Pow2(a + b)
  {
    if a > 0 {
      PowSum(a - 1, b);
      assert Pow2(a) * Pow2(b) == 2 * (Pow2(a - 1) * Pow2(b));
    }
  }

  /** Quotient and remainder are unique. */
  lemma DivMod(v: nat, m: nat, q: nat, r: nat)
    requires m > 0 && v == q * m + r && r < m
    ensures v / m == q && v % m == r
  {
    var q', r' := v / m, v % m;
    assert v == q' * m + r';
    Scale(q - q', m);
    Scale(q' - q, m);
    assert (q - q') * m == r' - r;
  }

  lemma Scale(k: int, m: nat)
    ensures k >= 1 ==> k * m >= m
    ensures (-k) * m == -(k * m)
  {
    if k >= 1 { assert k * m == (k - 1) * m + m; }
  }

  /** The number of an address: its bytes, the first one highest. */
  function Num(a: seq<Group>): nat {
    if a == [] then 0 else Num(a[..|a| - 1]) * GROUP + a[|a| - 1]
  }

  /** The check of `parse_cidr`: the host part must be zero unless it may stay. */
  function CheckCidr(n: nat, bits: nat, allowHost: bool): Option<(nat, nat)>
    requires bits <= 128
  {
    if !allowHost && n % Pow2(128 - bits) != 0 then None else Some((n, bits))
  }

  /** The comparison of `in_network`. */
  predicate InNetwork(x: nat, net: (nat, nat))
    requires net.1 <= 128
  {
    x - x % Pow2(128 - net.1) == net.0
  }

  /** An address is in a network that `parse_cidr` accepts exactly if it has the same prefix. */
  lemma SamePrefix(x: nat, n: nat, bits: nat)
    requires bits <= 128 && CheckCidr(n, bits, false).Some?
    ensures InNetwork(x, CheckCidr(n, bits, false).value) <==> x / Pow2(128 - bits) == n / Pow2(128 - bits)
  {
    var p := Pow2(128 - bits);
    assert x == x / p * p + x % p && n == n / p * p;
  }

  /** With host bits allowed to stay, a network that has some contains nothing. */
  lemma HostBitsMatchNothing(x: nat, n: nat, bits: nat)
    requires bits <= 128 && n % Pow2(128 - bits) != 0
    ensures CheckCidr(n, bits, false).None? && !InNetwork(x, CheckCidr(n, bits, true).value)
  {
    var p := Pow2(128 - bits);
    var q := x / p;
    if x - x % p == n {
      assert n == q * p + 0;
      DivMod(n, p, q, 0);
    }
  }

  /** `is_ipv4_mapped` is membership in ::ffff:0:0/96. */
  lemma MappedIsNetwork(a: Address)
    ensures IsMapped(a) <==> InNetwork(Num(a), (Num([0, 0, 0, 0, 0, 0xffff, 0, 0]), 96))
  {
    Pow32();
    NumSplit(a);
    NumSplit([0, 0, 0, 0, 0, 0xffff, 0, 0]);
    HighMapped(a);
    hide Num, Pow2, High, IsMapped;
    var h, l := High(a), a[6] * GROUP + a[7];
    DivMod(Num(a), 0x1_0000_0000, h, l);
    assert Num([0, 0, 0, 0, 0, 0xffff, 0, 0]) == 0xffff * 0x1_0000_0000 by {
      HighMapped([0, 0, 0, 0, 0, 0xffff, 0, 0]);
      assert IsMapped([0, 0, 0, 0, 0, 0xffff, 0, 0]) by { MappedPrefix(); }
    }
  }

  lemma MappedPrefix()
    ensures IsMapped([0, 0, 0, 0, 0, 0xffff, 0, 0])
  {
  }

  lemma HighMapped(a: Address)
    ensures High(a) == 0xffff <==> IsMapped(a)
  {
    assert a[..6] == [a[0], a[1], a[2], a[3], a[4], a[5]];
  }

  function High(a: Address): nat {
    ((((a[0] * GROUP + a[1]) * GROUP + a[2]) * GROUP + a[3]) * GROUP + a[4]) * GROUP + a[5]
  }

  lemma NumPush(a: seq<Group>, g: Group)
    ensures Num(a + [g]) == Num(a) * GROUP + g
  {
    assert (a + [g])[..|a|] == a;
  }

  lemma NumSplit(a: Address)
    ensures Num(a) == High(a) * 0x1_0000_0000 + (a[6] * GROUP + a[7])
  {
    var a1: seq<Group> := [a[0]];
    var a2, a3 := a1 + [a[1]], a1 + [a[1]] + [a[2]];
    var a4, a5 := a3 + [a[3]], a3 + [a[3]] + [a[4]];
    var a6, a7 := a5 + [a[5]], a5 + [a[5]] + [a[6]];
    assert Num([]) == 0 && [] + a1 == a1 && a7 + [a[7]] == a;
    NumPush([], a[0]);
    NumPush(a1, a[1]);
    NumPush(a2, a[2]);
    NumPush(a3, a[3]);
    NumPush(a4, a[4]);
    NumPush(a5, a[5]);
    NumPush(a6, a[6]);
    NumPush(a7, a[7]);
  }

  lemma Pow32()
    ensures Pow2(32) == 0x1_0000_0000
  {
    assert Pow2(8) == 256;
    PowSum(8, 8);
    PowSum(16, 16);
  }
}
