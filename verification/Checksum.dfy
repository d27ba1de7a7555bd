/**
 `cksum` of src/c/utils.c: the Internet checksum (section 1 of RFC 1071) computed with a 32-bit
 accumulator on a little-endian host.
 */
module Checksum {
  type Byte = b: int | 0 <= b < 256

  const WORD := 0x1_0000
  const UINT32 := 0x1_0000_0000

  /** The longest block whose word sum cannot leave 32 bits: 65537 words of 0xffff. */
  const MAX_BLOCK := 131074

  function Word(hi: Byte, lo: Byte): (w: nat)
    ensures w < WORD
  {
    (hi as int) * 256 + lo as int
  }

  /** The sum of the big-endian words; an odd last byte is the high half of its word. */
  function WordSum(d: seq<Byte>): nat {
    if |d| >= 2 then Word(d[0], d[1]) + WordSum(d[2..])
    else if |d| == 1 then Word(d[0], 0)
    else 0
  }

  /** One's complement addition identifies 0xffff with 0 and never turns a positive sum into 0. */
  function OnesSum(s: nat): (r: nat)
    ensures r <= 0xffff && (r == 0 <==> s == 0) && r % 0xffff == s % 0xffff
  {
    if s == 0 then 0 else (s - 1) % 0xffff + 1
  }

  function Htons(x: nat): (r: nat)
    requires x < WORD
    ensures r < WORD
  {
    x % 256 * 256 + x / 256
  }

  /** The two bytes that storing a 16-bit value writes on a little-endian host. */
  function Stored(v: nat): seq<Byte>
    requires v < WORD
  {
    [v % 256, v / 256]
  }

  /** The value `cksum` returns for a block with this word sum. */
  function Finish(s: nat): (r: nat)
    ensures r < WORD && r != 0
  {
    var c := Htons(0xffff - OnesSum(s));
    if c != 0 then c else 0xffff
  }

  /** The accumulator folded by the second loop of `cksum`. */
  method FoldCarries(s: nat) returns (sum: nat)
    ensures sum == OnesSum(s)
  {
    sum := s;
    while sum > 0xffff
      invariant sum % 0xffff == s % 0xffff && (sum == 0 <==> s == 0)
      decreases sum
    {
      FoldStep(sum);
      sum := sum / WORD + sum % WORD;
    }
    OnesUnique(s, sum);
  }

  lemma FoldStep(s: nat)
    requires s > 0xffff
    ensures 0 < s / WORD + s % WORD < s
    ensures (s / WORD + s % WORD) % 0xffff == s % 0xffff
  {
    var q, r := s / WORD, s % WORD;
    assert s == q * 0xffff + (q + r);
    ModAddMultiple(q + r, q);
  }

  lemma {:induction false} ModAddMultiple(x: nat, q: nat)
    ensures (q * 0xffff + x) % 0xffff == x % 0xffff
  {
    if q > 0 {
      ModAddMultiple(x, q - 1);
      assert q * 0xffff + x == ((q - 1) * 0xffff + x) + 0xffff;
    }
  }

  lemma OnesUnique(s: nat, r: nat)
    requires r <= 0xffff && r % 0xffff == s % 0xffff && (r == 0 <==> s == 0)
    ensures r == OnesSum(s)
  {
  }

  /** `cksum`: the first loop adds modulo 2^32, whatever the length. */
  method Cksum(d: seq<Byte>) returns (r: nat)
    ensures r == Finish(WordSum(d) % UINT32)
    ensures |d| <= MAX_BLOCK ==> r == Finish(WordSum(d))
  {
    var sum, i := 0, 0;
    ghost var total: nat := 0;
    while |d| - i >= 2
      invariant 0 <= i <= |d| && sum == total % UINT32
      invariant total + WordSum(d[i..]) == WordSum(d)
    {
      assert d[i..][2..] == d[i + 2..];
      WrapAdd(total, Word(d[i], d[i + 1]));
      sum := (sum + Word(d[i], d[i + 1])) % UINT32;
      total := total + Word(d[i], d[i + 1]);
      i := i + 2;
    }
    if |d| - i > 0 {
      WrapAdd(total, Word(d[i], 0));
      sum := (sum + Word(d[i], 0)) % UINT32;
      total := total + Word(d[i], 0);
    }
    assert total == WordSum(d);
    SmallSum(d);
    hide WordSum;
    sum := FoldCarries(sum);
    sum := Htons(0xffff - sum);
    r := if sum != 0 then sum else 0xffff;
  }

  lemma SmallSum(d: seq<Byte>)
    ensures |d| <= MAX_BLOCK ==> WordSum(d) % UINT32 == WordSum(d)
  {
    SumBound(d);
  }

  lemma WrapAdd(a: nat, b: nat)
    ensures (a % UINT32 + b) % UINT32 == (a + b) % UINT32
  {
    var q := a / UINT32;
    assert a + b == a % UINT32 + b + q * UINT32;
  }

  lemma {:induction false} SumBound(d: seq<Byte>)
    ensures WordSum(d) <= (|d| + 1) / 2 * 0xffff
    ensures |d| <= MAX_BLOCK ==> WordSum(d) < UINT32
  {
    if |d| >= 2 {
      SumBound(d[2..]);
    }
  }

  function Ones(n: nat): seq<Byte> {
    seq(n, _ => 0xff)
  }

  /** The accumulator is exact for every block of at most n bytes, if and only if n <= 131074. */
  lemma MaxBlockIsSharp(n: nat)
    ensures (forall d: seq<Byte> :: |d| <= n ==> WordSum(d) < UINT32) <==> n <= MAX_BLOCK
  {
    if n <= MAX_BLOCK {
      forall d: seq<Byte> | |d| <= n
        ensures WordSum(d) < UINT32
      {
        SumBound(d);
      }
    } else {
      SumOfOnes(n);
      assert |Ones(n)| <= n && WordSum(Ones(n)) >= UINT32;
    }
  }

  lemma {:induction false} SumOfOnes(n: nat)
    ensures WordSum(Ones(n)) == n / 2 * 0xffff + n % 2 * 0xff00
  {
    if n >= 2 {
      SumOfOnes(n - 2);
      assert Ones(n)[2..] == Ones(n - 2);
    }
  }

  /** The block with a value stored at an even offset. */
  function StoreAt(d: seq<Byte>, off: nat, v: nat): (r: seq<Byte>)
    requires off + 2 <= |d| && v < WORD
    ensures |r| == |d| && r[..off] == d[..off] && r[off + 2..] == d[off + 2..]
  {
    d[..off] + Stored(v) + d[off + 2..]
  }

  lemma {:induction false} SumAfterStore(d: seq<Byte>, off: nat, v: nat)
    requires off % 2 == 0 && off + 2 <= |d| && v < WORD && d[off] == 0 && d[off + 1] == 0
    ensures WordSum(StoreAt(d, off, v)) == WordSum(d) + Htons(v)
  {
    var e := StoreAt(d, off, v);
    if off == 0 {
      assert e[2..] == d[2..];
    } else {
      SumAfterStore(d[2..], off - 2, v);
      assert e[2..] == StoreAt(d[2..], off - 2, v);
    }
  }

  /**
   A block whose zeroed checksum field receives the computed value always verifies: its word
   sum is all ones, and running `cksum` on it again returns 0xffff.
   */
  lemma StoredChecksumVerifies(d: seq<Byte>, off: nat)
    requires off % 2 == 0 && off + 2 <= |d| && d[off] == 0 && d[off + 1] == 0
    ensures var e := StoreAt(d, off, Finish(WordSum(d)));
            OnesSum(WordSum(e)) == 0xffff && Finish(WordSum(e)) == 0xffff
  {
    hide *;
    SumAfterStore(d, off, Finish(WordSum(d)));
    FinishStored(WordSum(d));
    ComplementCancels(WordSum(d), Htons(Finish(WordSum(d))));
  }

  /** In the host's order the stored value is the complement of the sum, with 0xffff for zero. */
  lemma FinishStored(s: nat)
    ensures var c := Htons(Finish(s));
            0 < c && (c == 0xffff - OnesSum(s) || (c == 0xffff && OnesSum(s) == 0xffff))
  {
    HtonsTwice(0xffff - OnesSum(s));
    HtonsTwice(0xffff);
  }

  lemma HtonsTwice(x: nat)
    requires x < WORD
    ensures Htons(Htons(x)) == x && (Htons(x) == 0 <==> x == 0)
  {
    var lo, hi := x % 256, x / 256;
    assert (lo * 256 + hi) % 256 == hi && (lo * 256 + hi) / 256 == lo;
  }

  lemma ComplementCancels(s: nat, c: nat)
    requires 0 < c && (c == 0xffff - OnesSum(s) || (c == 0xffff && OnesSum(s) == 0xffff))
    ensures OnesSum(s + c) == 0xffff && Finish(s + c) == 0xffff
  {
    var q := s / 0xffff;
    assert (s + c) % 0xffff == 0 by {
      var k := if s == 0 then 1 else (s - 1) / 0xffff + (if c == 0xffff - OnesSum(s) then 1 else 2);
      assert s + c == k * 0xffff;
      ModAddMultiple(0, k);
    }
  }
}
