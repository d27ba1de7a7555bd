/**
 What whole runs say about each ARP reply and each datagram that came in: where a hardware
 address on the wire was learnt, and how often the router spoke about a datagram.
 */
module RouterFates {
  import opened Wrappers
  import opened LongestMatch
  import opened Packets
  import opened RouterSpec
  import opened RouterProofs
  import opened RouterRuns

  // ----- where hardware addresses come from

  /** The event is an ARP reply, for the interface it came in on, that gives this address to x. */
  predicate Reports(cfg: Config, e: Event, x: Ip, mac: Mac)
    requires e.Arrival? ==> WellFormed(cfg, e.frame)
  {
    && e.Arrival? && IsArp(e.frame.raw) && ArpOp(e.frame.raw) == 2
    && Load(e.frame.raw, 38) == cfg.ifaces[e.frame.inIface].ip && Load(e.frame.raw, 28) == x
    && e.frame.raw[22..28] == mac
  }

  ghost predicate Reported(cfg: Config, es: seq<Event>, x: Ip, mac: Mac)
    requires GoodEvents(cfg, es)
  {
    exists i :: 0 <= i < |es| && Reports(cfg, es[i], x, mac)
  }

  lemma StepReports(cfg: Config, st: State, e: Event, x: Ip, mac: Mac)
    requires WellFormedConfig(cfg) && AllRoutable(cfg, st.pending) && (e.Arrival? ==> WellFormed(cfg, e.frame))
    requires (x, mac) in Step(cfg, st, e).reports
    ensures (x, mac) in st.reports || Reports(cfg, e, x, mac)
  {
    hide RouterSpec.Route, Tick, FreeSlot, PendingLookup, ReleaseAll;
    if e.Arrival? && IsIp(e.frame.raw) {
      RouteReports(cfg, st, e.frame);
    }
    assert e.Round? ==> Tick(st, e.now).reports == st.reports by { TickReports(st, if e.Round? then e.now else 0); }
  }

  lemma TickReports(st: State, now: int)
    ensures Tick(st, now).reports == st.reports
  {
  }

  lemma RouteReports(cfg: Config, st: State, f: Frame)
    requires WellFormedConfig(cfg) && Datagram(cfg, f)
    ensures RouterSpec.Route(cfg, st, f).reports == st.reports
  {
  }

  /** An address in the log was reported by an ARP reply of the run. */
  lemma {:induction false} ReportsCome(cfg: Config, st: State, es: seq<Event>, x: Ip, mac: Mac)
    requires WellFormedConfig(cfg) && GoodEvents(cfg, es) && Inv(cfg, st) && (x, mac) in Run(cfg, st, es).reports
    ensures (x, mac) in st.reports || Reported(cfg, es, x, mac)
    decreases |es|
  {
    hide *;
    if es == [] {
      NoEvents(cfg, st, es);
    } else {
      FirstStep(cfg, st, es);
      var next := Step(cfg, st, es[0]);
      ReportsCome(cfg, next, es[1..], x, mac);
      if (x, mac) in next.reports {
        StepReports(cfg, st, es[0], x, mac);
      }
      ReportedMore(cfg, es, x, mac);
    }
  }

  lemma FirstStep(cfg: Config, st: State, es: seq<Event>)
    requires WellFormedConfig(cfg) && GoodEvents(cfg, es) && Inv(cfg, st) && es != []
    ensures AllRoutable(cfg, st.pending) && (es[0].Arrival? ==> WellFormed(cfg, es[0].frame))
        && GoodEvents(cfg, es[1..])
    ensures Inv(cfg, Step(cfg, st, es[0])) && Run(cfg, st, es) == Run(cfg, Step(cfg, st, es[0]), es[1..])
  {
    InvRoutable(cfg, st);
    StepKeeps(cfg, st, es[0]);
    hide Inv, Step;
  }

  lemma ReportedMore(cfg: Config, es: seq<Event>, x: Ip, mac: Mac)
    requires GoodEvents(cfg, es) && es != []
    ensures GoodEvents(cfg, es[1..]) && (es[0].Arrival? ==> WellFormed(cfg, es[0].frame))
    ensures Reports(cfg, es[0], x, mac) || Reported(cfg, es[1..], x, mac) ==> Reported(cfg, es, x, mac)
  {
    hide Reports;
    if Reported(cfg, es[1..], x, mac) {
      var i :| 0 <= i < |es| - 1 && Reports(cfg, es[1..][i], x, mac);
      assert Reports(cfg, es[i + 1], x, mac);
    }
  }

  /**
   Next-hop safety of whole runs: a forwarded datagram leaves on the interface of the earliest
   longest match for its destination, for a hardware address that an ARP reply of the run,
   addressed to the interface it came in on, reported for that route's next hop.
   */
  lemma ForwardedAsReported(cfg: Config, st: State, es: seq<Event>, plen: seq<bv32>, i: nat)
    requires WellFormedConfig(cfg) && GoodEvents(cfg, es) && Started(st) && Contiguous(cfg.table, plen)
    requires i < |RunFrom(cfg, st, es).trace| && RunFrom(cfg, st, es).trace[i].Forward?
    ensures var o := RunFrom(cfg, st, es).trace[i];
            && Datagram(cfg, o.frame) && Ttl(o.frame.raw) != 1
            && exists k :: 0 <= k < |cfg.table| && LongestFor(cfg.table, plen, IpDst(o.frame.raw), k)
                 && o.iface == cfg.table[k].iface
                 && Reported(cfg, es, ForwardIp(cfg.table[k], IpDst(o.frame.raw)), o.mac)
  {
    StartKeeps(cfg, st);
    var end := RunFrom(cfg, st, es);
    var o := end.trace[i];
    ForwardedRightly(cfg, end, plen, i);
    var k :| 0 <= k < |cfg.table| && LongestFor(cfg.table, plen, IpDst(o.frame.raw), k)
             && o.iface == cfg.table[k].iface && (ForwardIp(cfg.table[k], IpDst(o.frame.raw)), o.mac) in end.reports;
    hide Inv, Run, LongestFor;
    ReportsCome(cfg, st, es, ForwardIp(cfg.table[k], IpDst(o.frame.raw)), o.mac);
  }

  // ----- what is said about a datagram

  /** How often the router answered or forwarded the frame at once. */
  function Direct(trace: seq<Output>, f: Frame): nat {
    if trace == [] then 0
    else (if (trace[0].Forward? || trace[0].Icmp?) && !trace[0].queued && trace[0].frame == f then 1 else 0)
         + Direct(trace[1..], f)
  }

  lemma {:induction false} DirectConcat(s: seq<Output>, t: seq<Output>, f: Frame)
    ensures Direct(s + t, f) == Direct(s, f) + Direct(t, f)
  {
    if s == [] {
      assert s + t == t;
    } else {
      DirectConcat(s[1..], t, f);
      assert (s + t)[1..] == s[1..] + t && (s + t)[0] == s[0];
    }
  }

  lemma DirectOne(trace: seq<Output>, o: Output, f: Frame)
    ensures Direct(trace + [o], f)
         == Direct(trace, f) + if (o.Forward? || o.Icmp?) && !o.queued && o.frame == f then 1 else 0
  {
    DirectConcat(trace, [o], f);
    assert [o][1..] == [];
  }

  lemma {:induction false} NoneDirect(out: seq<Output>, f: Frame)
    requires forall i :: 0 <= i < |out| ==> (out[i].Forward? || out[i].Icmp? ==> out[i].queued)
    ensures Direct(out, f) == 0
  {
    if out != [] { NoneDirect(out[1..], f); }
  }

  lemma {:induction false} TickDirect(pending: seq<Pending>, f: Frame)
    ensures Direct(TickOutputs(pending), f) == 0
  {
    if pending != [] {
      TickDirect(pending[1..], f);
      NoneDirect(TickOutput(pending[0]), f);
      DirectConcat(TickOutput(pending[0]), TickOutputs(pending[1..]), f);
    }
  }

  /** An ICMP message for the receiving interface that is no echo request and not on its last hop. */
  predicate Ignored(cfg: Config, f: Frame)
    requires Datagram(cfg, f)
  {
    && IpDst(f.raw) == cfg.ifaces[f.inIface].ip && Proto(f.raw) == PROTO_ICMP
    && Ttl(f.raw) != 1 && f.raw[ETH + IPH] != ECHO_REQUEST
  }

  /** A datagram that comes in is answered at once or withheld, exactly one of these, unless it is ignored. */
  lemma IpDirect(cfg: Config, st: State, g: Frame, f: Frame)
    requires WellFormedConfig(cfg) && Datagram(cfg, g)
    ensures var after := HandleIp(cfg, st, g);
            Direct(after.trace, f) + multiset(after.held)[f]
            == Direct(st.trace, f) + multiset(st.held)[f] + if g == f && !Ignored(cfg, g) then 1 else 0
  {
    var after := HandleIp(cfg, st, g);
    if after.held == st.held {
      if after.trace != st.trace {
        var o := AnswerOf(cfg, st, g);
        DirectOne(st.trace, o, f);
      } else {
        SilentOnlyIfIgnored(cfg, st, g);
      }
    } else {
      WithheldOnlyIfRouted(cfg, st, g);
      if after.trace != st.trace {
        DirectOne(st.trace, after.trace[|st.trace|], f);
      }
    }
  }

  lemma AnswerOf(cfg: Config, st: State, g: Frame) returns (o: Output)
    requires WellFormedConfig(cfg) && Datagram(cfg, g)
    requires HandleIp(cfg, st, g).held == st.held && HandleIp(cfg, st, g).trace != st.trace
    ensures HandleIp(cfg, st, g).trace == st.trace + [o]
    ensures (o.Forward? || o.Icmp?) && !o.queued && o.frame == g && !Ignored(cfg, g)
  {
    hide CacheLookup, PendingLookup, NextHop, RouteOf, Load;
    var after := HandleIp(cfg, st, g);
    o := after.trace[|st.trace|];
    assert |st.held + [g]| == |st.held| + 1;
  }

  lemma SilentOnlyIfIgnored(cfg: Config, st: State, g: Frame)
    requires WellFormedConfig(cfg) && Datagram(cfg, g)
    requires HandleIp(cfg, st, g).held == st.held && HandleIp(cfg, st, g).trace == st.trace
    ensures Ignored(cfg, g)
  {
    hide CacheLookup, PendingLookup, NextHop, RouteOf;
    assert |st.held + [g]| == |st.held| + 1;
    assert forall o :: |st.trace + [o]| == |st.trace| + 1;
  }

  lemma WithheldOnlyIfRouted(cfg: Config, st: State, g: Frame)
    requires WellFormedConfig(cfg) && Datagram(cfg, g) && HandleIp(cfg, st, g).held != st.held
    ensures var after := HandleIp(cfg, st, g);
            && after.held == st.held + [g] && !Ignored(cfg, g)
            && (after.trace == st.trace || exists o: Output :: o.ArpRequest? && after.trace == st.trace + [o])
  {
    hide CacheLookup, PendingLookup, NextHop, RouteOf, Load;
  }

  lemma ArpDirect(cfg: Config, st: State, g: Frame, now: int, f: Frame)
    requires WellFormedConfig(cfg) && WellFormed(cfg, g) && IsArp(g.raw) && AllRoutable(cfg, st.pending)
    ensures var after := HandleArp(cfg, st, g, now);
            Direct(after.trace, f) == Direct(st.trace, f) && after.held == st.held
  {
    var sha: Mac, spa := g.raw[22..28], Load(g.raw, 28);
    DirectOne(st.trace, ArpReply(g.inIface, sha, spa), f);
    LearnDirect(cfg, st, spa, sha, now, f);
    hide Learn, Direct;
  }

  lemma LearnDirect(cfg: Config, st: State, ip: Ip, mac: Mac, now: int, f: Frame)
    requires WellFormedConfig(cfg) && AllRoutable(cfg, st.pending)
    ensures Direct(Learn(cfg, st, ip, mac, now).trace, f) == Direct(st.trace, f)
        && Learn(cfg, st, ip, mac, now).held == st.held
  {
    if PendingLookup(st.pending, ip).Some? {
      var frames := st.pending[PendingLookup(st.pending, ip).value].withheld;
      NoneDirect(ReleaseAll(cfg, frames, mac), f);
      DirectConcat(st.trace, ReleaseAll(cfg, frames, mac), f);
    }
    hide Direct, ReleaseAll;
  }

  lemma StepDirect(cfg: Config, st: State, e: Event, f: Frame)
    requires WellFormedConfig(cfg) && AllRoutable(cfg, st.pending) && (e.Arrival? ==> WellFormed(cfg, e.frame))
    requires !st.stopped && Datagram(cfg, f)
    ensures var after := Step(cfg, st, e);
            Direct(after.trace, f) + multiset(after.held)[f]
            == Direct(st.trace, f) + multiset(st.held)[f]
               + if e.Arrival? && e.frame == f && !Ignored(cfg, f) then 1 else 0
  {
    match e
    case Round(now) =>
      TickDirect(st.pending, f);
      DirectConcat(st.trace, TickOutputs(st.pending), f);
    case Arrival(g, now) =>
      if IsIp(g.raw) {
        IpDirect(cfg, st, g, f);
      } else if IsArp(g.raw) {
        ArpDirect(cfg, st, g, now, f);
      }
      hide Direct, HandleIp, HandleArp, Ignored;
  }

  /** How many of the arriving frames are f, if such a frame calls for anything. */
  function Due(cfg: Config, es: seq<Event>, f: Frame): nat
    requires Datagram(cfg, f)
  {
    if Ignored(cfg, f) then 0 else multiset(Arrivals(es))[f]
  }

  lemma DueFirst(cfg: Config, es: seq<Event>, f: Frame)
    requires Datagram(cfg, f) && es != []
    ensures Due(cfg, es, f)
         == Due(cfg, es[1..], f) + if es[0].Arrival? && es[0].frame == f && !Ignored(cfg, f) then 1 else 0
  {
    hide Ignored;
    var first := if es[0].Arrival? then [es[0].frame] else [];
    assert multiset(first + Arrivals(es[1..])) == multiset(first) + multiset(Arrivals(es[1..]));
  }

  lemma {:induction false} RunDirect(cfg: Config, st: State, es: seq<Event>, f: Frame)
    requires WellFormedConfig(cfg) && GoodEvents(cfg, es) && Inv(cfg, st) && Datagram(cfg, f)
        && !Run(cfg, st, es).stopped
    ensures var end := Run(cfg, st, es);
            Direct(end.trace, f) + multiset(end.held)[f] == Direct(st.trace, f) + multiset(st.held)[f] + Due(cfg, es, f)
    decreases |es|
  {
    if st.stopped { StoppedStays(cfg, st, es); }
    hide *;
    if es == [] {
      NoEvents(cfg, st, es);
      NothingDue(cfg, es, f);
    } else {
      FirstStep(cfg, st, es);
      StepDirect(cfg, st, es[0], f);
      DueFirst(cfg, es, f);
      RunDirect(cfg, Step(cfg, st, es[0]), es[1..], f);
    }
  }

  lemma NothingDue(cfg: Config, es: seq<Event>, f: Frame)
    requires Datagram(cfg, f) && es == []
    ensures Due(cfg, es, f) == 0
  {
  }

  /**
   Every datagram, once: when frames are told apart and the router did not stop, each datagram
   that came in was answered or forwarded at once, or has one outcome after waiting, or still
   waits, exactly one of these; and none of them if it is ignored or never came.
   */
  lemma EveryDatagramOnce(cfg: Config, st: State, es: seq<Event>, f: Frame)
    requires WellFormedConfig(cfg) && GoodEvents(cfg, es) && Started(st) && DistinctFrames(Arrivals(es))
    requires Datagram(cfg, f) && !RunFrom(cfg, st, es).stopped
    ensures var end := RunFrom(cfg, st, es);
            Direct(end.trace, f)
            + (match NextHop(cfg, f)
               case None => 0
               case Some(x) => multiset(SettledFor(cfg, end.trace, x))[f] + multiset(WaitingFor(end.pending, x))[f])
            == if f in Arrivals(es) && !Ignored(cfg, f) then 1 else 0
  {
    hide *;
    StartKeeps(cfg, st);
    StartEmpty(cfg, st, es, f);
    var end := RunFrom(cfg, st, es);
    RunDirect(cfg, st, es, f);
    DistinctCount(Arrivals(es), f);
    match NextHop(cfg, f)
    case None =>
      NeverHeld(cfg, end, f);
    case Some(x) =>
      IsForHop(cfg, f, x);
      Conservation(cfg, st, es, f, x);
      HeldDistinct(cfg, st, es);
      DistinctCount(end.held, f);
  }

  lemma StartEmpty(cfg: Config, st: State, es: seq<Event>, f: Frame)
    requires WellFormedConfig(cfg) && GoodEvents(cfg, es) && Started(st) && DistinctFrames(Arrivals(es))
    requires Datagram(cfg, f)
    ensures Inv(cfg, st) && RunFrom(cfg, st, es) == Run(cfg, st, es)
    ensures Direct(st.trace, f) == 0 && multiset(st.held)[f] == 0 && DistinctFrames(st.held + Arrivals(es))
    ensures Due(cfg, es, f) == if Ignored(cfg, f) then 0 else multiset(Arrivals(es))[f]
  {
    StartKeeps(cfg, st);
    assert st.held + Arrivals(es) == Arrivals(es);
    hide Inv, Run, Ignored, Arrivals, DistinctFrames;
  }

  lemma NeverHeld(cfg: Config, st: State, f: Frame)
    requires Inv(cfg, st) && Datagram(cfg, f) && NextHop(cfg, f).None?
    ensures multiset(st.held)[f] == 0
  {
    assert f !in st.held;
  }

  lemma IsForHop(cfg: Config, f: Frame, x: Ip)
    requires Datagram(cfg, f) && NextHop(cfg, f) == Some(x)
    ensures ForHop(cfg, f, x)
  {
  }
}
