/**
 The switch graph of lib/pox/pox/forwarding/l2_multi.py, and what a shortest path in it is.

 Nothing here mentions the algorithm: a path is a sequence of switches whose neighbours are
 linked, and a distance is shortest when some path attains it and no path beats it.
 */
module PathSpec {
  import opened Wrappers

  type Switch = int
  type Port = int

  /** `adjacency[a][b]`: the port of `a` that leads to `b`; an absent key is Python's None. */
  type Adjacency = map<(Switch, Switch), Port>

  /** A cell of `path_map`: the distance and the intermediate switch. */
  datatype Cell = Cell(dist: nat, via: Option<Switch>)
  type PathMap = map<(Switch, Switch), Cell>

  ghost predicate IsPath(adj: Adjacency, p: seq<Switch>, i: Switch, j: Switch) {
    && |p| > 0 && p[0] == i && p[|p| - 1] == j
    && forall t :: 0 < t < |p| ==> (p[t - 1], p[t]) in adj
  }

  /** There is a path of exactly n hops. */
  ghost predicate Reach(adj: Adjacency, i: Switch, j: Switch, n: nat) {
    exists p :: IsPath(adj, p, i, j) && |p| == n + 1
  }

  ghost predicate Connected(adj: Adjacency, i: Switch, j: Switch) {
    exists n: nat :: Reach(adj, i, j, n)
  }

  ghost predicate Shortest(adj: Adjacency, i: Switch, j: Switch, d: nat) {
    && Reach(adj, i, j, d)
    && forall n: nat :: Reach(adj, i, j, n) ==> d <= n
  }

  /** Every switch of the path strictly between its ends belongs to `ks`. */
  ghost predicate InteriorIn(p: seq<Switch>, ks: set<Switch>) {
    forall t :: 0 < t < |p| - 1 ==> p[t] in ks
  }

  /** Links join known switches, and a link is recorded from both of its ends. */
  ghost predicate WellLinked(adj: Adjacency, switches: set<Switch>) {
    forall e :: e in adj ==> e.0 in switches && e.1 in switches && (e.1, e.0) in adj
  }

  /** A recorded intermediate splits a shortest path into two shorter shortest paths. */
  ghost predicate ViaSplits(adj: Adjacency, pm: PathMap, i: Switch, j: Switch)
    requires (i, j) in pm
  {
    match pm[(i, j)].via
    case None => pm[(i, j)].dist == 1 && (i, j) in adj
    case Some(k) =>
      && k != i && k != j && (i, k) in pm && (k, j) in pm
      && pm[(i, k)].dist >= 1 && pm[(k, j)].dist >= 1
      && pm[(i, j)].dist == pm[(i, k)].dist + pm[(k, j)].dist
  }

  /**
   What a filled cache must say. The diagonal is left out on purpose: a switch that joins
   after the cache was filled has no diagonal cell, and the lookups never read one.
   */
  ghost predicate Coherent(adj: Adjacency, pm: PathMap) {
    forall i, j | i != j ::
      && ((i, j) in pm <==> Connected(adj, i, j))
      && ((i, j) in pm ==> Shortest(adj, i, j, pm[(i, j)].dist) && ViaSplits(adj, pm, i, j))
  }

  lemma ReachZero(adj: Adjacency, i: Switch, j: Switch)
    ensures Reach(adj, i, j, 0) <==> i == j
  {
    if i == j {
      assert IsPath(adj, [i], i, j);
    }
  }

  lemma ReachOne(adj: Adjacency, i: Switch, j: Switch)
    requires (i, j) in adj
    ensures Reach(adj, i, j, 1)
  {
    assert IsPath(adj, [i, j], i, j);
  }

  lemma JoinPaths(adj: Adjacency, p: seq<Switch>, q: seq<Switch>, i: Switch, k: Switch, j: Switch)
    requires IsPath(adj, p, i, k) && IsPath(adj, q, k, j)
    ensures IsPath(adj, p + q[1..], i, j)
  {
    var r := p + q[1..];
    forall t | 0 < t < |r|
      ensures (r[t - 1], r[t]) in adj
    {
      if t >= |p| {
        assert r[t] == q[t - |p| + 1] && r[t - 1] == q[t - |p|];
      }
    }
  }

  lemma ReachJoin(adj: Adjacency, i: Switch, k: Switch, j: Switch, m: nat, n: nat)
    requires Reach(adj, i, k, m) && Reach(adj, k, j, n)
    ensures Reach(adj, i, j, m + n)
  {
    var p :| IsPath(adj, p, i, k) && |p| == m + 1;
    var q :| IsPath(adj, q, k, j) && |q| == n + 1;
    JoinPaths(adj, p, q, i, k, j);
    assert |p + q[1..]| == m + n + 1;
  }

  lemma PathInside(adj: Adjacency, switches: set<Switch>, p: seq<Switch>, i: Switch, j: Switch)
    requires WellLinked(adj, switches) && IsPath(adj, p, i, j) && |p| > 1
    ensures forall t :: 0 <= t < |p| ==> p[t] in switches
  {
    assert (p[0], p[1]) in adj;
    forall t | 0 < t < |p|
      ensures p[t] in switches
    {
      assert (p[t - 1], p[t]) in adj;
    }
  }

  lemma FirstAndLast(p: seq<Switch>, k: Switch, s: int) returns (a: int, b: int)
    requires 0 < s < |p| - 1 && p[s] == k
    ensures 0 < a <= b < |p| - 1 && p[a] == k && p[b] == k
    ensures forall t :: 0 < t < a ==> p[t] != k
    ensures forall t :: b < t < |p| - 1 ==> p[t] != k
  {
    a, b := 1, |p| - 2;
    while p[a] != k
      invariant 0 < a <= s && forall t :: 0 < t < a ==> p[t] != k
      decreases s - a
    {
      a := a + 1;
    }
    while p[b] != k
      invariant s <= b < |p| - 1 && forall t :: b < t < |p| - 1 ==> p[t] != k
      decreases b
    {
      b := b - 1;
    }
  }

  /** A path that visits k splits into parts whose interiors avoid k. */
  lemma SplitAt(adj: Adjacency, p: seq<Switch>, i: Switch, k: Switch, j: Switch, ks: set<Switch>, s: int)
      returns (q: seq<Switch>, r: seq<Switch>)
    requires IsPath(adj, p, i, j) && InteriorIn(p, ks + {k})
    requires 0 < s < |p| - 1 && p[s] == k
    ensures IsPath(adj, q, i, k) && InteriorIn(q, ks)
    ensures IsPath(adj, r, k, j) && InteriorIn(r, ks)
    ensures (|q| - 1) + (|r| - 1) <= |p| - 1
  {
    var a, b := FirstAndLast(p, k, s);
    q, r := p[..a + 1], p[b..];
    forall t | 0 < t < |r| - 1
      ensures r[t] in ks
    {
      assert r[t] == p[b + t] && p[b + t] != k;
    }
    forall t | 0 < t < |r|
      ensures (r[t - 1], r[t]) in adj
    {
      assert r[t] == p[b + t] && r[t - 1] == p[b + t - 1];
    }
  }
}
