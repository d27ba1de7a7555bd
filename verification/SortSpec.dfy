/** What sorting a stretch of a sequence means, for the orders that SimCList comparators define. */
module SortSpec {
  import opened SimCEntry

  type Comparator = (Data, Data) -> int

  /** The sign is antisymmetric and "not after" is transitive. */
  ghost predicate TotalPreorder(cmp: Comparator) {
    && (forall a, b :: cmp(a, b) > 0 <==> cmp(b, a) < 0)
    && (forall a, b, c :: cmp(a, b) >= 0 && cmp(b, c) >= 0 ==> cmp(a, c) >= 0)
  }

  /** The product whose sign every comparison of the sort tests. */
  function Product(cmp: Comparator, versus: int, a: Data, b: Data): int {
    cmp(a, b) * -versus
  }

  /** `a` may stand before `b`. With versus 0 every order is accepted. */
  predicate Le(cmp: Comparator, versus: int, a: Data, b: Data) {
    Product(cmp, versus, a, b) <= 0
  }

  lemma LeByCases(cmp: Comparator, versus: int, a: Data, b: Data)
    ensures versus > 0 ==> (Le(cmp, versus, a, b) <==> cmp(a, b) >= 0)
    ensures versus < 0 ==> (Le(cmp, versus, a, b) <==> cmp(a, b) <= 0)
    ensures versus == 0 ==> Product(cmp, versus, a, b) == 0
    ensures versus > 0 ==> (Product(cmp, versus, a, b) < 0 <==> cmp(a, b) > 0)
    ensures versus < 0 ==> (Product(cmp, versus, a, b) < 0 <==> cmp(a, b) < 0)
  {
    var c := cmp(a, b);
    if versus > 0 {
      SignOfProduct(c, versus);
    } else if versus < 0 {
      SignOfProduct(c, -versus);
      assert c * -versus == c * (-versus);
    }
  }

  lemma {:induction false} SignOfProduct(c: int, v: int)
    requires v > 0
    ensures (c * v > 0 <==> c > 0) && (c * v < 0 <==> c < 0)
    ensures c * -v == -(c * v)
    decreases v
  {
    if v > 1 {
      SignOfProduct(c, v - 1);
      assert c * v == c * (v - 1) + c;
    }
  }

  lemma LeTotal(cmp: Comparator, versus: int, a: Data, b: Data)
    requires TotalPreorder(cmp)
    ensures Product(cmp, versus, a, b) > 0 <==> !Le(cmp, versus, a, b)
    ensures Product(cmp, versus, a, b) < 0 <==> !Le(cmp, versus, b, a)
    ensures Le(cmp, versus, a, b) || Le(cmp, versus, b, a)
    ensures Le(cmp, versus, a, a)
  {
    LeByCases(cmp, versus, a, b);
    LeByCases(cmp, versus, b, a);
    LeByCases(cmp, versus, a, a);
  }

  lemma LeTrans(cmp: Comparator, versus: int, a: Data, b: Data, c: Data)
    requires TotalPreorder(cmp) && Le(cmp, versus, a, b) && Le(cmp, versus, b, c)
    ensures Le(cmp, versus, a, c)
  {
    LeByCases(cmp, versus, a, b);
    LeByCases(cmp, versus, b, c);
    LeByCases(cmp, versus, a, c);
  }

  ghost predicate Sorted(cmp: Comparator, versus: int, d: seq<Data>, a: int, b: int)
    requires 0 <= a <= b <= |d|
  {
    forall i, j :: a <= i < j < b ==> Le(cmp, versus, d[i], d[j])
  }

  /** The stretch a .. b - 1 was rearranged and nothing else moved. */
  ghost predicate Perm(was: seq<Data>, d: seq<Data>, a: int, b: int) {
    && |was| == |d| && 0 <= a <= b <= |d|
    && (forall i :: 0 <= i < |d| && (i < a || b <= i) ==> d[i] == was[i])
    && multiset(d) == multiset(was)
  }

  lemma PermTrans(x: seq<Data>, y: seq<Data>, z: seq<Data>, a: int, b: int)
    requires Perm(x, y, a, b) && Perm(y, z, a, b)
    ensures Perm(x, z, a, b)
  {
  }

  lemma ThreeParts(d: seq<Data>, a: int, b: int)
    requires 0 <= a <= b <= |d|
    ensures multiset(d) == multiset(d[..a]) + multiset(d[a..b]) + multiset(d[b..])
  {
    assert d == d[..a] + d[a..b] + d[b..];
  }

  lemma Cancel(m: multiset<Data>, x: multiset<Data>, y: multiset<Data>, n: multiset<Data>)
    requires m + x + n == m + y + n
    ensures x == y
  {
    assert x == (m + x + n) - m - n;
  }

  lemma SameMiddle(was: seq<Data>, d: seq<Data>, a: int, b: int)
    requires Perm(was, d, a, b)
    ensures multiset(d[a..b]) == multiset(was[a..b])
  {
    assert d[..a] == was[..a] && d[b..] == was[b..];
    ThreeParts(d, a, b);
    ThreeParts(was, a, b);
    Cancel(multiset(d[..a]), multiset(d[a..b]), multiset(was[a..b]), multiset(d[b..]));
  }

  /** Of a rearranged stretch, every element was in that stretch before. */
  lemma PermElement(was: seq<Data>, d: seq<Data>, a: int, b: int, i: int) returns (j: int)
    requires Perm(was, d, a, b) && a <= i < b
    ensures a <= j < b && was[j] == d[i]
  {
    SameMiddle(was, d, a, b);
    assert d[i] == d[a..b][i - a] && d[i] in d[a..b];
    assert d[i] in multiset(was[a..b]);
    assert d[i] in was[a..b];
    var k :| 0 <= k < |was[a..b]| && was[a..b][k] == d[i];
    j := a + k;
  }

  function Swap(d: seq<Data>, i: int, j: int): (r: seq<Data>)
    requires 0 <= i < |d| && 0 <= j < |d|
    ensures |r| == |d|
  {
    d[i := d[j]][j := d[i]]
  }

  lemma SwapSelf(d: seq<Data>, i: int)
    requires 0 <= i < |d|
    ensures Swap(d, i, i) == d
  {
  }

  lemma PermSwapped(was: seq<Data>, d: seq<Data>, i: int, j: int, a: int, b: int)
    requires Perm(was, d, a, b) && a <= i < b && a <= j < b
    ensures Perm(was, Swap(d, i, j), a, b)
  {
    MultisetSwap(d, i, j);
  }

  lemma MultisetSwap(s: seq<Data>, i: int, j: int)
    requires 0 <= i < |s| && 0 <= j < |s|
    ensures multiset(Swap(s, i, j)) == multiset(s)
  {
  }

  /** Around the pivot at p: nothing before it belongs after it, nor the reverse. */
  ghost predicate Partitioned(cmp: Comparator, versus: int, d: seq<Data>, a: int, p: int, b: int)
    requires 0 <= a <= p < b <= |d|
  {
    && (forall i :: a <= i < p ==> Le(cmp, versus, d[i], d[p]))
    && (forall i :: p < i < b ==> Le(cmp, versus, d[p], d[i]))
  }

  lemma PartitionedAfterPerm(cmp: Comparator, versus: int, was: seq<Data>, d: seq<Data>, a: int, p: int, b: int,
                             lo: int, hi: int)
    requires 0 <= a <= p < b <= |was| && Partitioned(cmp, versus, was, a, p, b)
    requires Perm(was, d, lo, hi) && ((a == lo && hi == p) || (lo == p + 1 && hi == b))
    ensures Partitioned(cmp, versus, d, a, p, b)
  {
    forall i | a <= i < b && i != p
      ensures i < p ==> Le(cmp, versus, d[i], d[p])
      ensures i > p ==> Le(cmp, versus, d[p], d[i])
    {
      if lo <= i < hi {
        var j := PermElement(was, d, lo, hi, i);
      }
    }
  }

  lemma SortedAfterPerm(cmp: Comparator, versus: int, was: seq<Data>, d: seq<Data>, a: int, b: int, lo: int, hi: int)
    requires 0 <= a <= b <= |was| && Sorted(cmp, versus, was, a, b)
    requires Perm(was, d, lo, hi) && b <= lo
    ensures Sorted(cmp, versus, d, a, b)
  {
  }

  /** Two sorted sides of a pivot make a sorted whole. */
  lemma JoinSorted(cmp: Comparator, versus: int, d: seq<Data>, a: int, p: int, b: int)
    requires TotalPreorder(cmp) && 0 <= a <= p < b <= |d| && Partitioned(cmp, versus, d, a, p, b)
    requires Sorted(cmp, versus, d, a, p) && Sorted(cmp, versus, d, p + 1, b)
    ensures Sorted(cmp, versus, d, a, b)
  {
    forall i, j | a <= i < j < b
      ensures Le(cmp, versus, d[i], d[j])
    {
      if i < p < j {
        LeTrans(cmp, versus, d[i], d[p], d[j]);
      }
    }
  }
}
