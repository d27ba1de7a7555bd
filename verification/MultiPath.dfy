/**
 The controller state of lib/pox/pox/forwarding/l2_multi.py: the adjacency, the lazily filled
 path cache, and the events that change them.

 Switch objects are identified with their datapath ids, and the nested default dictionaries
 are maps on pairs in which a missing key stands for None.
 */
module MultiPath {
  import opened Wrappers
  import opened PathSpec
  import opened FloydWarshall

  /** A link as the discovery component reports it, one direction at a time. */
  datatype Link = Link(dpid1: Switch, port1: Port, dpid2: Switch, port2: Port)

  function Flip(l: Link): Link {
    Link(l.dpid2, l.port2, l.dpid1, l.port1)
  }

  /** One element of a cooked path. */
  datatype Hop = Hop(sw: Switch, inPort: Port, outPort: Port)

  function Nodes(r: seq<Hop>): seq<Switch> {
    seq(|r|, t requires 0 <= t < |r| => r[t].sw)
  }

  /** `_check_path`: consecutive hops use the ports recorded for the link between them. */
  predicate CheckPath(adj: Adjacency, p: seq<Hop>) {
    forall t :: 0 < t < |p| ==>
      && (p[t - 1].sw, p[t].sw) in adj && adj[(p[t - 1].sw, p[t].sw)] == p[t - 1].outPort
      && (p[t].sw, p[t - 1].sw) in adj && adj[(p[t].sw, p[t - 1].sw)] == p[t].inPort
  }

  datatype State = State(switches: set<Switch>, adjacency: Adjacency, pathMap: PathMap)

  datatype Event =
    | LinkUp(link: Link, discovered: set<Link>)
    | LinkDown(link: Link, discovered: set<Link>)
    | Join(dpid: Switch)
    | Query

  /** The invariant: links are two-way, and a filled cache tells the truth about them. */
  ghost predicate Inv(s: State) {
    && WellLinked(s.adjacency, s.switches)
    && (s.pathMap == map[] || Coherent(s.adjacency, s.pathMap))
  }

  function WithLink(adj: Adjacency, l: Link): Adjacency {
    adj[(l.dpid1, l.dpid2) := l.port1][(l.dpid2, l.dpid1) := l.port2]
  }

  /** A discovered link between the same two switches that was also seen in reverse. */
  predicate Replaces(ll: Link, l: Link, discovered: set<Link>) {
    ll in discovered && ll.dpid1 == l.dpid1 && ll.dpid2 == l.dpid2 && Flip(ll) in discovered
  }

  /** The transitions; the choice of a replacement link is left open, as dictionary order is. */
  ghost predicate Step(s: State, e: Event, s': State) {
    match e
    case Join(d) => s' == s.(switches := s.switches + {d})
    case Query =>
      s' == s || (s.pathMap == map[] && s' == s.(pathMap := s'.pathMap) && Coherent(s.adjacency, s'.pathMap))
    case LinkUp(l, discovered) =>
      if l.dpid1 !in s.switches || l.dpid2 !in s.switches then s' == s
      else
        var adj := if (l.dpid1, l.dpid2) !in s.adjacency && Flip(l) in discovered
                   then WithLink(s.adjacency, l) else s.adjacency;
        s' == State(s.switches, adj, map[])
    case LinkDown(l, discovered) =>
      if l.dpid1 !in s.switches || l.dpid2 !in s.switches then s' == s
      else
        var adj := s.adjacency - {(l.dpid1, l.dpid2), (l.dpid2, l.dpid1)};
        || (s' == State(s.switches, adj, map[]) && !exists ll :: Replaces(ll, l, discovered))
        || (exists ll :: Replaces(ll, l, discovered) && s' == State(s.switches, WithLink(adj, ll), map[]))
  }

  lemma StepKeepsInv(s: State, e: Event, s': State)
    requires Inv(s) && Step(s, e, s')
    ensures Inv(s')
  {
    assert WellLinked(s'.adjacency, s'.switches);
    if e.Join? || e.Query? {
      assert s'.adjacency == s.adjacency;
    }
  }

  /** A run: one state more than there are events, each step allowed. */
  ghost predicate Run(states: seq<State>, events: seq<Event>) {
    && |states| == |events| + 1
    && forall t :: 0 <= t < |events| ==> Step(states[t], events[t], states[t + 1])
  }

  /** In every run the cache is empty or exact for the links of that moment. */
  lemma {:induction false} RunKeepsInv(states: seq<State>, events: seq<Event>)
    requires Run(states, events) && Inv(states[0])
    ensures forall t :: 0 <= t < |states| ==> Inv(states[t])
  {
    if |events| > 0 {
      var n := |events| - 1;
      RunKeepsInv(states[..n + 1], events[..n]);
      assert Inv(states[..n + 1][n]);
      StepKeepsInv(states[n], events[n], states[n + 1]);
    }
  }

  // ----- the ports of links

  /** The link is discovered, from a to b, and so is its reverse. */
  predicate TwoWay(l: Link, a: Switch, b: Switch, discovered: set<Link>) {
    && l in discovered && l.dpid1 == a && l.dpid2 == b
    && Link(b, l.port2, a, l.port1) in discovered
  }

  /** Each end of the link is recorded with its own port; a switch linked to itself keeps the second. */
  predicate Recorded(adj: Adjacency, l: Link) {
    && (l.dpid1, l.dpid2) in adj && (l.dpid1 != l.dpid2 ==> adj[(l.dpid1, l.dpid2)] == l.port1)
    && (l.dpid2, l.dpid1) in adj && adj[(l.dpid2, l.dpid1)] == l.port2
  }

  ghost predicate SameElsewhere(adj: Adjacency, after: Adjacency, a: Switch, b: Switch) {
    forall e :: e != (a, b) && e != (b, a) ==>
      (e in after <==> e in adj) && (e in adj ==> e in after && after[e] == adj[e])
  }

  /**
   A link event between known switches. A link that comes up is recorded if its ends were not
   connected and its reverse is discovered; when one goes down its ends stay connected exactly
   if some discovered link joins them both ways, and then by such a link. Nothing else changes.
   */
  ghost predicate LinkOutcome(s: State, l: Link, removed: bool, discovered: set<Link>, s': State) {
    var a, b := l.dpid1, l.dpid2;
    if a !in s.switches || b !in s.switches then s' == s
    else
      && s'.switches == s.switches && s'.pathMap == map[] && SameElsewhere(s.adjacency, s'.adjacency, a, b)
      && (!removed ==>
            if (a, b) !in s.adjacency && Link(b, l.port2, a, l.port1) in discovered then Recorded(s'.adjacency, l)
            else s'.adjacency == s.adjacency)
      && (removed ==>
            && ((a, b) in s'.adjacency <==> exists ll :: TwoWay(ll, a, b, discovered))
            && ((b, a) in s'.adjacency <==> (a, b) in s'.adjacency)
            && ((a, b) in s'.adjacency ==>
                  exists ll :: TwoWay(ll, a, b, discovered) && Recorded(s'.adjacency, ll)))
  }

  lemma WithLinkRecords(adj: Adjacency, l: Link)
    ensures Recorded(WithLink(adj, l), l) && SameElsewhere(adj, WithLink(adj, l), l.dpid1, l.dpid2)
  {
  }

  /** Every link event has this outcome. */
  lemma EveryLinkEvent(s: State, l: Link, removed: bool, discovered: set<Link>, s': State)
    requires Step(s, if removed then LinkDown(l, discovered) else LinkUp(l, discovered), s')
    ensures LinkOutcome(s, l, removed, discovered, s')
  {
    if l.dpid1 in s.switches && l.dpid2 in s.switches {
      var adj := s.adjacency - {(l.dpid1, l.dpid2), (l.dpid2, l.dpid1)};
      forall ll
        ensures Replaces(ll, l, discovered) <==> TwoWay(ll, l.dpid1, l.dpid2, discovered)
      {
      }
      WithLinkRecords(s.adjacency, l);
      if removed && exists ll :: Replaces(ll, l, discovered) {
        var ll :| Replaces(ll, l, discovered) && s' == State(s.switches, WithLink(adj, ll), map[]);
        WithLinkRecords(adj, ll);
        assert TwoWay(ll, l.dpid1, l.dpid2, discovered) && Recorded(s'.adjacency, ll);
      }
      hide WithLink, Recorded;
    }
  }

  /** The links that the events report or find discovered. */
  ghost function SeenIn(events: seq<Event>): set<Link> {
    if events == [] then {}
    else
      var e := events[|events| - 1];
      SeenIn(events[..|events| - 1]) + if e.LinkUp? || e.LinkDown? then {e.link} + e.discovered else {}
  }

  /** Both ports recorded for a pair are those of one link that was seen in both directions. */
  ghost predicate PairSeen(adj: Adjacency, seen: set<Link>, a: Switch, b: Switch)
    requires (a, b) in adj && (b, a) in adj
  {
    var l := Link(a, adj[(a, b)], b, adj[(b, a)]);
    l in seen && Link(b, adj[(b, a)], a, adj[(a, b)]) in seen
  }

  ghost predicate PortsSeen(adj: Adjacency, seen: set<Link>) {
    forall a, b :: (a, b) in adj && a != b ==> (b, a) in adj && PairSeen(adj, seen, a, b)
  }

  lemma LinkKeepsSeen(s: State, l: Link, removed: bool, discovered: set<Link>, s': State, seen: set<Link>)
    requires LinkOutcome(s, l, removed, discovered, s') && PortsSeen(s.adjacency, seen)
    ensures PortsSeen(s'.adjacency, seen + ({l} + discovered))
  {
    var adj, all := s'.adjacency, seen + ({l} + discovered);
    forall a, b | (a, b) in adj && a != b
      ensures (b, a) in adj && PairSeen(adj, all, a, b)
    {
      if {a, b} == {l.dpid1, l.dpid2} && adj != s.adjacency {
        var x :| Recorded(adj, x) && x in all && Link(x.dpid2, x.port2, x.dpid1, x.port1) in all
                 && {x.dpid1, x.dpid2} == {a, b};
        assert (a == x.dpid1 && b == x.dpid2) || (a == x.dpid2 && b == x.dpid1);
      } else {
        assert PairSeen(s.adjacency, seen, a, b);
      }
    }
  }

  /** In every run from the start, every pair of recorded ports belongs to one link seen in the run. */
  lemma {:induction false} RunPortsSeen(states: seq<State>, events: seq<Event>)
    requires Run(states, events) && states[0].adjacency == map[]
    ensures PortsSeen(states[|events|].adjacency, SeenIn(events))
  {
    if |events| > 0 {
      var n := |events| - 1;
      RunPortsSeen(states[..n + 1], events[..n]);
      assert Step(states[n], events[n], states[n + 1]);
      var e := events[n];
      if e.LinkUp? || e.LinkDown? {
        EveryLinkEvent(states[n], e.link, e.LinkDown?, e.discovered, states[n + 1]);
        LinkKeepsSeen(states[n], e.link, e.LinkDown?, e.discovered, states[n + 1], SeenIn(events[..n]));
      }
      hide Step, Run, LinkOutcome, PairSeen;
    }
  }

  /** A shortest path stays at no switch. */
  lemma NoStay(adj: Adjacency, p: seq<Switch>, src: Switch, dst: Switch, t: int)
    requires IsPath(adj, p, src, dst) && Shortest(adj, src, dst, |p| - 1) && 0 < t < |p|
    ensures p[t - 1] != p[t]
  {
    if p[t - 1] == p[t] {
      var q := p[..t] + p[t + 1..];
      forall u | 0 < u < |q|
        ensures (q[u - 1], q[u]) in adj
      {
        assert q[u] == p[if u < t then u else u + 1];
        assert q[u - 1] == if u - 1 < t then p[u - 1] else p[u];
      }
      assert IsPath(adj, q, src, dst);
      assert Reach(adj, src, dst, |p| - 2);
    }
  }

  /**
   The paths that `_get_path` gives lead over links that were seen: what leaves a switch by a
   hop's port arrives at the next hop's port, and the way back is a link too.
   */
  lemma HopsAreLinks(states: seq<State>, events: seq<Event>, p: seq<Hop>, src: Switch, dst: Switch, t: int)
    requires Run(states, events) && states[0].adjacency == map[]
    requires var adj := states[|events|].adjacency;
             |p| > 0 && IsPath(adj, Nodes(p), src, dst) && Shortest(adj, src, dst, |p| - 1) && CheckPath(adj, p)
    requires 0 < t < |p|
    ensures Link(p[t - 1].sw, p[t - 1].outPort, p[t].sw, p[t].inPort) in SeenIn(events)
    ensures Link(p[t].sw, p[t].inPort, p[t - 1].sw, p[t - 1].outPort) in SeenIn(events)
  {
    var adj := states[|events|].adjacency;
    RunPortsSeen(states, events);
    NoStay(adj, Nodes(p), src, dst, t);
    assert PairSeen(adj, SeenIn(events), p[t - 1].sw, p[t].sw);
    hide Run, Shortest, SeenIn;
  }

  lemma CellFacts(adj: Adjacency, pm: PathMap, i: Switch, j: Switch)
    requires Coherent(adj, pm) && i != j
    ensures (i, j) in pm <==> Connected(adj, i, j)
    ensures (i, j) in pm ==> Shortest(adj, i, j, pm[(i, j)].dist) && ViaSplits(adj, pm, i, j)
    ensures (i, j) in adj ==> IsPath(adj, [i] + [] + [j], i, j)
  {
  }

  lemma ShortestUnique(adj: Adjacency, i: Switch, j: Switch, m: nat, n: nat)
    requires Shortest(adj, i, j, m) && Shortest(adj, i, j, n)
    ensures m == n
  {
  }

  lemma JoinRaw(adj: Adjacency, i: Switch, p: seq<Switch>, k: Switch, q: seq<Switch>, j: Switch)
    requires IsPath(adj, [i] + p + [k], i, k) && IsPath(adj, [k] + q + [j], k, j)
    ensures IsPath(adj, [i] + (p + [k] + q) + [j], i, j)
  {
    JoinPaths(adj, [i] + p + [k], [k] + q + [j], i, k, j);
    assert [i] + p + [k] + ([k] + q + [j])[1..] == [i] + (p + [k] + q) + [j];
  }

  lemma CheckMore(adj: Adjacency, p: seq<Hop>, h: Hop)
    requires CheckPath(adj, p)
    requires |p| > 0 ==>
               var last := p[|p| - 1];
               && (last.sw, h.sw) in adj && adj[(last.sw, h.sw)] == last.outPort
               && (h.sw, last.sw) in adj && adj[(h.sw, last.sw)] == h.inPort
    ensures CheckPath(adj, p + [h])
  {
  }

  /** The loop of `_get_path` that adds the ports. */
  method Cook(adj: Adjacency, ghost known: set<Switch>, path: seq<Switch>, firstPort: Port, finalPort: Port)
      returns (hops: seq<Hop>)
    requires WellLinked(adj, known) && |path| > 0 && IsPath(adj, path, path[0], path[|path| - 1])
    ensures Nodes(hops) == path && CheckPath(adj, hops)
    ensures hops[0].inPort == firstPort && hops[|hops| - 1].outPort == finalPort
  {
    hops := [];
    assert CheckPath(adj, hops);
    hide CheckPath;
    var inPort := firstPort;
    for t := 1 to |path|
      invariant |hops| == t - 1
      invariant forall u :: 0 <= u < t - 1 ==> hops[u].sw == path[u]
      invariant CheckPath(adj, hops)
      invariant t == 1 ==> inPort == firstPort
      invariant t > 1 ==>
        && hops[0].inPort == firstPort
        && (path[t - 2], path[t - 1]) in adj && adj[(path[t - 2], path[t - 1])] == hops[t - 2].outPort
        && (path[t - 1], path[t - 2]) in adj && adj[(path[t - 1], path[t - 2])] == inPort
    {
      var s1, s2 := path[t - 1], path[t];
      assert (s1, s2) in adj && (s2, s1) in adj;
      CheckMore(adj, hops, Hop(s1, inPort, adj[(s1, s2)]));
      hops := hops + [Hop(s1, inPort, adj[(s1, s2)])];
      inPort := adj[(s2, s1)];
    }
    CheckMore(adj, hops, Hop(path[|path| - 1], inPort, finalPort));
    hops := hops + [Hop(path[|path| - 1], inPort, finalPort)];
  }

  class L2Multi {
    var switches: seq<Switch>  // the switches dictionary, in its iteration order
    var adjacency: Adjacency
    var pathMap: PathMap

    ghost function Now(): State
      reads this
    {
      State(Elems(switches), adjacency, pathMap)
    }

    constructor ()
      ensures Inv(Now()) && Now() == State({}, map[], map[])
    {
      switches, adjacency, pathMap := [], map[], map[];
    }

    /** `_handle_ConnectionUp`: the cache is not cleared. */
    method ConnectionUp(dpid: Switch)
      requires Inv(Now())
      modifies this
      ensures Inv(Now()) && Step(old(Now()), Join(dpid), Now())
    {
      if dpid !in switches {
        switches := switches + [dpid];
      }
      StepKeepsInv(old(Now()), Join(dpid), Now());
    }

    /** `_handle_LinkEvent`; false stands for the KeyError of an unknown switch. */
    method LinkEvent(l: Link, removed: bool, discovered: set<Link>) returns (known: bool)
      requires Inv(Now())
      modifies this
      ensures Inv(Now())
      ensures Step(old(Now()), if removed then LinkDown(l, discovered) else LinkUp(l, discovered), Now())
      ensures known <==> l.dpid1 in old(switches) && l.dpid2 in old(switches)
      ensures known ==> pathMap == map[]
      ensures LinkOutcome(old(Now()), l, removed, discovered, Now())
    {
      if l.dpid1 !in switches || l.dpid2 !in switches {
        return false;
      }
      pathMap := map[];
      if removed {
        adjacency := adjacency - {(l.dpid1, l.dpid2), (l.dpid2, l.dpid1)};
        if ll :| ll in discovered && Replaces(ll, l, discovered) {
          adjacency := WithLink(adjacency, ll);
        }
      } else if (l.dpid1, l.dpid2) !in adjacency && Flip(l) in discovered {
        adjacency := WithLink(adjacency, l);
      }
      StepKeepsInv(old(Now()), if removed then LinkDown(l, discovered) else LinkUp(l, discovered), Now());
      EveryLinkEvent(old(Now()), l, removed, discovered, Now());
      hide LinkOutcome;
      known := true;
    }

    /** `_get_raw_path`: the switches strictly between src and dst on a shortest path. */
    method GetRawPath(src: Switch, dst: Switch) returns (r: Option<seq<Switch>>)
      requires Inv(Now())
      modifies this`pathMap
      ensures Inv(Now()) && Step(old(Now()), Query, Now())
      ensures old(pathMap) != map[] ==> pathMap == old(pathMap)
      ensures src == dst ==> r == Some([])
      ensures src != dst ==> (r.Some? <==> Connected(adjacency, src, dst))
      ensures src != dst && r.Some? ==>
                && IsPath(adjacency, [src] + r.value + [dst], src, dst)
                && Shortest(adjacency, src, dst, |r.value| + 1)
      decreases if pathMap == map[] then 1 else 0, if (src, dst) in pathMap then pathMap[(src, dst)].dist else 0
    {
      hide Connected, Coherent, Shortest, IsPath, WellLinked;
      if |pathMap| == 0 {
        pathMap := CalcPaths(adjacency, switches);
      }
      if src == dst {
        return Some([]);
      }
      CellFacts(adjacency, pathMap, src, dst);
      if (src, dst) !in pathMap {
        return None;
      }
      match pathMap[(src, dst)].via
      case None => r := Some([]);
      case Some(k) =>
        CellFacts(adjacency, pathMap, src, k);
        CellFacts(adjacency, pathMap, k, dst);
        var p := GetRawPath(src, k);
        var q := GetRawPath(k, dst);
        ShortestUnique(adjacency, src, k, |p.value| + 1, pathMap[(src, k)].dist);
        ShortestUnique(adjacency, k, dst, |q.value| + 1, pathMap[(k, dst)].dist);
        JoinRaw(adjacency, src, p.value, k, q.value, dst);
        r := Some(p.value + [k] + q.value);
    }

    /** `_get_path`: a shortest path with its ports, and the closing assertion of the source. */
    method GetPath(src: Switch, dst: Switch, firstPort: Port, finalPort: Port) returns (r: Option<seq<Hop>>)
      requires Inv(Now())
      modifies this`pathMap
      ensures Inv(Now()) && Step(old(Now()), Query, Now())
      ensures r.Some? <==> Connected(adjacency, src, dst)
      ensures r.Some? ==>
                && |r.value| > 0 && r.value[0].inPort == firstPort && r.value[|r.value| - 1].outPort == finalPort
                && IsPath(adjacency, Nodes(r.value), src, dst)
                && Shortest(adjacency, src, dst, |r.value| - 1)
                && CheckPath(adjacency, r.value)
    {
      var path := [src];
      if src == dst {
        ReachZero(adjacency, src, dst);
      } else {
        var raw := GetRawPath(src, dst);
        if raw.None? {
          return None;
        }
        path := [src] + raw.value + [dst];
      }
      var hops := Cook(adjacency, Elems(switches), path, firstPort, finalPort);
      assert CheckPath(adjacency, hops);
      r := Some(hops);
    }
  }
}
