/**
 `_calc_paths` of lib/pox/pox/forwarding/l2_multi.py: Floyd-Warshall run in place on one map.

 Because cells are overwritten while they are being read, a phase is described only by upper
 bounds (`Below`, `Relaxed`); soundness and the intermediates are kept cell by cell, and
 exactness appears when the last phase ends.
 */
module FloydWarshall {
  import opened Wrappers
  import opened PathSpec

  function Elems(s: seq<Switch>): set<Switch> {
    set x | x in s
  }

  /** What every moment of the computation keeps. */
  ghost predicate Sound(adj: Adjacency, pm: PathMap) {
    forall i, j :: (i, j) in pm ==> Reach(adj, i, j, pm[(i, j)].dist) && ViaBounds(adj, pm, i, j)
  }

  /** Of a recorded intermediate only an inequality is known until the last phase is over. */
  ghost predicate ViaBounds(adj: Adjacency, pm: PathMap, i: Switch, j: Switch)
    requires (i, j) in pm
  {
    match pm[(i, j)].via
    case None => (pm[(i, j)].dist == 0 && i == j) || (pm[(i, j)].dist == 1 && (i, j) in adj)
    case Some(k) =>
      && k != i && k != j && (i, k) in pm && (k, j) in pm
      && pm[(i, j)].dist >= pm[(i, k)].dist + pm[(k, j)].dist
  }

  ghost predicate Diagonal(pm: PathMap, sws: set<Switch>) {
    forall k :: k in sws ==> (k, k) in pm && pm[(k, k)].dist == 0
  }

  /** No path through `ks` beats the map. */
  ghost predicate Optimal(adj: Adjacency, pm: PathMap, ks: set<Switch>, sws: set<Switch>) {
    forall i, j, p | i in sws && j in sws && IsPath(adj, p, i, j) && InteriorIn(p, ks) ::
      (i, j) in pm && pm[(i, j)].dist <= |p| - 1
  }

  ghost predicate Below(pm: PathMap, was: PathMap) {
    forall e :: e in was ==> e in pm && pm[e].dist <= was[e].dist
  }

  ghost predicate Relaxed(pm: PathMap, was: PathMap, i: Switch, k: Switch, j: Switch) {
    (i, k) in was && (k, j) in was ==>
      (i, j) in pm && pm[(i, j)].dist <= was[(i, k)].dist + was[(k, j)].dist
  }

  lemma PhaseOptimal(adj: Adjacency, pm: PathMap, was: PathMap, ks: set<Switch>, k: Switch, sws: set<Switch>)
    requires Optimal(adj, was, ks, sws) && Below(pm, was) && k in sws
    requires forall i, j :: i in sws && j in sws ==> Relaxed(pm, was, i, k, j)
    ensures Optimal(adj, pm, ks + {k}, sws)
  {
    forall i, j, p | i in sws && j in sws && IsPath(adj, p, i, j) && InteriorIn(p, ks + {k})
      ensures (i, j) in pm && pm[(i, j)].dist <= |p| - 1
    {
      if s :| 0 < s < |p| - 1 && p[s] == k {
        var q, r := SplitAt(adj, p, i, k, j, ks, s);
        assert Relaxed(pm, was, i, k, j);
      } else {
        assert InteriorIn(p, ks);
      }
    }
  }

  lemma LongPathHasInterior(p: seq<Switch>)
    requires |p| >= 3
    ensures !InteriorIn(p, {})
  {
    var none: set<Switch> := {};
    assert p[1] !in none;
  }

  lemma BaseOptimal(adj: Adjacency, pm: PathMap, sws: set<Switch>)
    requires Diagonal(pm, sws)
    requires forall i, j :: (i, j) in adj && i in sws ==> (i, j) in pm && pm[(i, j)].dist <= 1
    ensures Optimal(adj, pm, {}, sws)
  {
    forall i, j, p | i in sws && j in sws && IsPath(adj, p, i, j) && InteriorIn(p, {})
      ensures (i, j) in pm && pm[(i, j)].dist <= |p| - 1
    {
      assert |p| < 3 by {
        if |p| >= 3 { LongPathHasInterior(p); }
      }
      if |p| == 2 {
        assert (p[0], p[1]) in adj;
      }
    }
  }

  /** Lowering one cell cannot break what is recorded about the others. */
  lemma ViaKept(adj: Adjacency, pm: PathMap, i: Switch, j: Switch, cell: Cell, x: Switch, y: Switch)
    requires (x, y) in pm && (x, y) != (i, j) && ViaBounds(adj, pm, x, y)
    requires (i, j) !in pm || cell.dist < pm[(i, j)].dist
    ensures ViaBounds(adj, pm[(i, j) := cell], x, y)
  {
  }

  /** One relaxation keeps soundness and never raises a cell. */
  lemma UpdateKeeps(adj: Adjacency, pm: PathMap, i: Switch, k: Switch, j: Switch, sws: set<Switch>, cell: Cell)
    requires Sound(adj, pm) && Diagonal(pm, sws) && i in sws && j in sws
    requires (i, k) in pm && (k, j) in pm && cell == Cell(pm[(i, k)].dist + pm[(k, j)].dist, Some(k))
    requires (i, j) !in pm || cell.dist < pm[(i, j)].dist
    ensures Sound(adj, pm[(i, j) := cell]) && Diagonal(pm[(i, j) := cell], sws) && Below(pm[(i, j) := cell], pm)
  {
    hide Reach, ViaBounds;
    assert k != i && k != j && i != j;
    ReachJoin(adj, i, k, j, pm[(i, k)].dist, pm[(k, j)].dist);
    forall x, y | (x, y) in pm && (x, y) != (i, j)
      ensures ViaBounds(adj, pm[(i, j) := cell], x, y)
    {
      ViaKept(adj, pm, i, j, cell, x, y);
    }
    NewVia(adj, pm, i, k, j, cell);
  }

  lemma NewVia(adj: Adjacency, pm: PathMap, i: Switch, k: Switch, j: Switch, cell: Cell)
    requires (i, k) in pm && (k, j) in pm && k != i && k != j
    requires cell == Cell(pm[(i, k)].dist + pm[(k, j)].dist, Some(k))
    ensures ViaBounds(adj, pm[(i, j) := cell], i, j)
  {
  }

  /** When no phase is left, every bound is an equality. */
  lemma LastPhase(adj: Adjacency, pm: PathMap, sws: set<Switch>)
    requires WellLinked(adj, sws) && Sound(adj, pm) && Optimal(adj, pm, sws, sws)
    requires forall i, j :: (i, j) in pm ==> i in sws && j in sws
    ensures Coherent(adj, pm)
  {
    forall i, j, n: nat | i != j && Reach(adj, i, j, n)
      ensures (i, j) in pm && pm[(i, j)].dist <= n
    {
      CellBelow(adj, pm, sws, i, j, n);
    }
    forall i, j | i != j && (i, j) in pm
      ensures Shortest(adj, i, j, pm[(i, j)].dist) && ViaSplits(adj, pm, i, j)
    {
      assert ViaBounds(adj, pm, i, j);
      match pm[(i, j)].via
      case None =>
      case Some(k) =>
        var m, n := pm[(i, k)].dist, pm[(k, j)].dist;
        ReachZero(adj, i, k);
        ReachZero(adj, k, j);
        ReachJoin(adj, i, k, j, m, n);
    }
  }

  lemma CellBelow(adj: Adjacency, pm: PathMap, sws: set<Switch>, i: Switch, j: Switch, n: nat)
    requires WellLinked(adj, sws) && Optimal(adj, pm, sws, sws) && i != j && Reach(adj, i, j, n)
    ensures (i, j) in pm && pm[(i, j)].dist <= n
  {
    var p :| IsPath(adj, p, i, j) && |p| == n + 1;
    PathInside(adj, sws, p, i, j);
    assert p[0] == i && p[|p| - 1] == j;
    assert InteriorIn(p, sws);
  }

  /** The map before the first phase: distance 1 along links, 0 on the diagonal. */
  ghost function Links(adj: Adjacency, ks: set<Switch>): PathMap {
    map e | e in adj.Keys + (set k | k in ks :: (k, k)) && e.0 in ks ::
      if e.0 == e.1 then Cell(0, None) else Cell(1, None)
  }

  lemma LinksStart(adj: Adjacency, sws: set<Switch>)
    requires WellLinked(adj, sws)
    ensures var pm := Links(adj, sws);
            Sound(adj, pm) && Diagonal(pm, sws) && Optimal(adj, pm, {}, sws)
  {
    var pm := Links(adj, sws);
    forall i, j | (i, j) in pm
      ensures Reach(adj, i, j, pm[(i, j)].dist)
    {
      if i == j { ReachZero(adj, i, j); } else { ReachOne(adj, i, j); }
    }
    BaseOptimal(adj, pm, sws);
  }

  ghost function Row(adj: Adjacency, k: Switch): PathMap {
    map e | e in adj && e.0 == k :: Cell(1, None)
  }

  lemma LinksStep(adj: Adjacency, ks: set<Switch>, k: Switch)
    ensures (Links(adj, ks) + Row(adj, k))[(k, k) := Cell(0, None)] == Links(adj, ks + {k})
  {
    var pm, after := (Links(adj, ks) + Row(adj, k))[(k, k) := Cell(0, None)], Links(adj, ks + {k});
    assert forall e :: e in pm <==> e in after;
    assert forall e :: e in pm ==> pm[e] == after[e];
  }

  /** The row loop: a cell of distance 1 for each link of k. */
  method FillRow(adj: Adjacency, k: Switch, before: PathMap) returns (pm: PathMap)
    ensures pm == before + Row(adj, k)
  {
    pm := before;
    var row := set e | e in adj && e.0 == k;
    while row != {}
      invariant row <= adj.Keys && forall e :: e in row ==> e.0 == k
      invariant pm == before + map e | e in adj && e.0 == k && e !in row :: Cell(1, None)
    {
      var e :| e in row;
      pm := pm[e := Cell(1, None)];
      row := row - {e};
    }
  }

  /** The first loop: each switch gets its row, then its diagonal cell. */
  method FillLinks(adj: Adjacency, sws: seq<Switch>) returns (pm: PathMap)
    ensures pm == Links(adj, Elems(sws))
  {
    pm := map[];
    assert pm == Links(adj, Elems(sws[..0]));
    hide Links, Row;
    for n := 0 to |sws|
      invariant pm == Links(adj, Elems(sws[..n]))
    {
      var k := sws[n];
      pm := FillRow(adj, k, pm);
      pm := pm[(k, k) := Cell(0, None)];
      LinksStep(adj, Elems(sws[..n]), k);
      assert Elems(sws[..n + 1]) == Elems(sws[..n]) + {k};
    }
    assert sws[..|sws|] == sws;
  }

  /** One phase: every pair is tried through k. */
  method RelaxThrough(adj: Adjacency, sws: seq<Switch>, k: Switch, before: PathMap) returns (pm: PathMap)
    requires Sound(adj, before) && Diagonal(before, Elems(sws))
    requires forall i, j :: (i, j) in before ==> i in sws && j in sws
    ensures Sound(adj, pm) && Diagonal(pm, Elems(sws)) && Below(pm, before)
    ensures forall i, j :: (i, j) in pm ==> i in sws && j in sws
    ensures forall i, j :: i in sws && j in sws ==> Relaxed(pm, before, i, k, j)
  {
    ghost var S := Elems(sws);
    hide Sound, Diagonal;
    pm := before;
    for a := 0 to |sws|
      invariant Sound(adj, pm) && Diagonal(pm, S) && Below(pm, before)
      invariant forall i, j :: (i, j) in pm ==> i in sws && j in sws
      invariant forall i, j :: i in sws[..a] && j in sws ==> Relaxed(pm, before, i, k, j)
    {
      var i := sws[a];
      for b := 0 to |sws|
        invariant Sound(adj, pm) && Diagonal(pm, S) && Below(pm, before)
        invariant forall i, j :: (i, j) in pm ==> i in sws && j in sws
        invariant forall x, y :: x in sws[..a] && y in sws ==> Relaxed(pm, before, x, k, y)
        invariant forall y :: y in sws[..b] ==> Relaxed(pm, before, i, k, y)
      {
        var j := sws[b];
        if (i, k) in pm {
          if (k, j) in pm {
            var ikj := pm[(i, k)].dist + pm[(k, j)].dist;
            if (i, j) !in pm || ikj < pm[(i, j)].dist {
              UpdateKeeps(adj, pm, i, k, j, S, Cell(ikj, Some(k)));
              pm := pm[(i, j) := Cell(ikj, Some(k))];
            }
          }
        }
        assert sws[..b + 1] == sws[..b] + [j];
      }
      assert sws[..|sws|] == sws;
      assert sws[..a + 1] == sws[..a] + [i];
    }
    assert sws[..|sws|] == sws;
  }

  /** `_calc_paths`, for any order in which the dictionary lists the switches. */
  method CalcPaths(adj: Adjacency, sws: seq<Switch>) returns (pm: PathMap)
    requires WellLinked(adj, Elems(sws))
    ensures Coherent(adj, pm)
    ensures forall s :: s in sws ==> (s, s) in pm && pm[(s, s)].dist == 0
  {
    ghost var S := Elems(sws);
    pm := FillLinks(adj, sws);
    LinksStart(adj, S);
    for n := 0 to |sws|
      invariant Sound(adj, pm) && Diagonal(pm, S)
      invariant forall i, j :: (i, j) in pm ==> i in sws && j in sws
      invariant Optimal(adj, pm, Elems(sws[..n]), S)
    {
      ghost var was := pm;
      pm := RelaxThrough(adj, sws, sws[n], pm);
      PhaseOptimal(adj, pm, was, Elems(sws[..n]), sws[n], S);
      assert Elems(sws[..n + 1]) == Elems(sws[..n]) + {sws[n]};
    }
    assert sws[..|sws|] == sws;
    LastPhase(adj, pm, S);
  }
}
