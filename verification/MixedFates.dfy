/**
 The results of RouterFates for runs in which rounds of the ARP thread fall between the locked
 sections of the handler: where a hardware address was learnt, and what became of each datagram.
 */
module MixedFates {
  import opened LongestMatch
  import opened Packets
  import opened RouterSpec
  import opened RouterProofs
  import opened RouterRuns
  import opened RouterFates
  import opened ArpInterleaving

  // ----- where hardware addresses come from

  ghost predicate ReportedIn(cfg: Config, ms: seq<Move>, x: Ip, mac: Mac)
    requires GoodMoves(cfg, ms)
  {
    exists i :: 0 <= i < |ms| && ReportMove(cfg, ms[i], x, mac)
  }

  predicate ReportMove(cfg: Config, m: Move, x: Ip, mac: Mac)
    requires GoodMove(cfg, m)
  {
    m.Arrive? && Reports(cfg, Arrival(m.frame, m.now), x, mac)
  }

  lemma BeginReports(cfg: Config, st: State, f: Frame, now: int, x: Ip, mac: Mac)
    requires WellFormedConfig(cfg) && WellFormed(cfg, f) && AllRoutable(cfg, st.pending)
    requires (x, mac) in Begin(cfg, st, f, now).st.reports
    ensures (x, mac) in st.reports || Reports(cfg, Arrival(f, now), x, mac)
  {
    hide RouterSpec.Route, FreeSlot, Learn, NextHop;
    if !IsRouted(cfg, f) && !IsReply(cfg, f) && IsIp(f.raw) {
      RouteReports(cfg, st, f);
    }
  }

  lemma NextReports(cfg: Config, s: System, m: Move, x: Ip, mac: Mac)
    requires WellFormedConfig(cfg) && SystemInv(cfg, s) && GoodMove(cfg, m) && (x, mac) in Next(cfg, s, m).st.reports
    ensures (x, mac) in s.st.reports || ReportMove(cfg, m, x, mac)
  {
    InvRoutable(cfg, s.st);
    hide Begin, Reports;
    match m
    case Arrive(f, now) =>
      if (x, mac) in Begin(cfg, s.st, f, now).st.reports { BeginReports(cfg, s.st, f, now, x, mac); }
    case Resume =>
    case ArpRound(now) =>
  }

  lemma FirstOf(cfg: Config, s: System, ms: seq<Move>)
    requires WellFormedConfig(cfg) && SystemInv(cfg, s) && GoodMoves(cfg, ms) && ms != []
    ensures GoodMove(cfg, ms[0]) && GoodMoves(cfg, ms[1..]) && SystemInv(cfg, Next(cfg, s, ms[0]))
    ensures Interleave(cfg, s, ms) == Interleave(cfg, Next(cfg, s, ms[0]), ms[1..])
  {
    NextKeeps(cfg, s, ms[0]);
    hide SystemInv, Next;
  }

  lemma NoMoves(cfg: Config, s: System, ms: seq<Move>)
    requires WellFormedConfig(cfg) && SystemInv(cfg, s) && ms == []
    ensures GoodMoves(cfg, ms) && Interleave(cfg, s, ms) == s
  {
  }

  lemma ReportedOnce(cfg: Config, ms: seq<Move>, x: Ip, mac: Mac)
    requires GoodMoves(cfg, ms) && ms != []
    ensures GoodMove(cfg, ms[0]) && GoodMoves(cfg, ms[1..])
    ensures ReportMove(cfg, ms[0], x, mac) || ReportedIn(cfg, ms[1..], x, mac) ==> ReportedIn(cfg, ms, x, mac)
  {
    hide ReportMove;
    if ReportedIn(cfg, ms[1..], x, mac) {
      var i :| 0 <= i < |ms| - 1 && ReportMove(cfg, ms[1..][i], x, mac);
      assert ReportMove(cfg, ms[i + 1], x, mac);
    }
  }

  lemma {:induction false} MixedReportsCome(cfg: Config, s: System, ms: seq<Move>, x: Ip, mac: Mac)
    requires WellFormedConfig(cfg) && SystemInv(cfg, s) && GoodMoves(cfg, ms)
    requires (x, mac) in Interleave(cfg, s, ms).st.reports
    ensures (x, mac) in s.st.reports || ReportedIn(cfg, ms, x, mac)
    decreases |ms|
  {
    hide *;
    if ms == [] {
      NoMoves(cfg, s, ms);
    } else {
      FirstOf(cfg, s, ms);
      var next := Next(cfg, s, ms[0]);
      MixedReportsCome(cfg, next, ms[1..], x, mac);
      if (x, mac) in next.st.reports {
        NextReports(cfg, s, ms[0], x, mac);
      }
      ReportedOnce(cfg, ms, x, mac);
    }
  }

  /**
   Next-hop safety of every mixed run: a forwarded datagram leaves on the interface of the
   earliest longest match for its destination, for a hardware address that an ARP reply of the
   run, addressed to the interface it came in on, reported for that route's next hop.
   */
  lemma MixedForwardedAsReported(cfg: Config, st: State, ms: seq<Move>, plen: seq<bv32>, i: nat)
    requires WellFormedConfig(cfg) && GoodMoves(cfg, ms) && Started(st) && Contiguous(cfg.table, plen)
    ensures SystemInv(cfg, System(st, Idle, 0))
    ensures var end := Interleave(cfg, System(st, Idle, 0), ms).st;
            i < |end.trace| && end.trace[i].Forward? ==>
              var o := end.trace[i];
              && Datagram(cfg, o.frame) && Ttl(o.frame.raw) != 1
              && exists k :: 0 <= k < |cfg.table| && LongestFor(cfg.table, plen, IpDst(o.frame.raw), k)
                   && o.iface == cfg.table[k].iface
                   && ReportedIn(cfg, ms, ForwardIp(cfg.table[k], IpDst(o.frame.raw)), o.mac)
  {
    StartKeeps(cfg, st);
    var end := Interleave(cfg, System(st, Idle, 0), ms).st;
    if i < |end.trace| && end.trace[i].Forward? {
      var o := end.trace[i];
      ForwardedRightly(cfg, end, plen, i);
      var k :| 0 <= k < |cfg.table| && LongestFor(cfg.table, plen, IpDst(o.frame.raw), k)
               && o.iface == cfg.table[k].iface
               && (ForwardIp(cfg.table[k], IpDst(o.frame.raw)), o.mac) in end.reports;
      hide Inv, Interleave, LongestFor;
      MixedReportsCome(cfg, System(st, Idle, 0), ms, ForwardIp(cfg.table[k], IpDst(o.frame.raw)), o.mac);
    }
  }

  // ----- what becomes of a datagram

  /** The handler is busy with the frame. */
  function InHand(phase: Phase, f: Frame): nat {
    match phase
    case Missed(g, _, _) => if g == f then 1 else 0
    case NoRequest(g, _, _) => if g == f then 1 else 0
    case FoundRequest(g, _, _, _, _) => if g == f then 1 else 0
    case FoundEntry(g, _, _, _) => if g == f then 1 else 0
    case _ => 0
  }

  /** Resuming now loses the frame, by the condition of JoinsInTime. */
  predicate Loses(s: System, m: Move, f: Frame) {
    m.Resume? && !s.st.stopped && s.phase.FoundRequest? && s.phase.frame == f && s.phase.sent + s.rounds > MAX_SENT
  }

  /** The move takes the frame up, and the frame calls for something. */
  predicate TakesUp(cfg: Config, s: System, m: Move, f: Frame)
    requires Datagram(cfg, f)
  {
    m.Arrive? && m.frame == f && s.phase.Idle? && !s.st.stopped && !Ignored(cfg, f)
  }

  function Account(s: System, f: Frame): nat {
    Direct(s.st.trace, f) + multiset(s.st.held)[f] + InHand(s.phase, f)
  }

  lemma BeginAccount(cfg: Config, st: State, g: Frame, now: int, f: Frame)
    requires WellFormedConfig(cfg) && WellFormed(cfg, g) && AllRoutable(cfg, st.pending) && Datagram(cfg, f)
    ensures Account(Begin(cfg, st, g, now), f)
         == Account(System(st, Idle, 0), f) + if g == f && !Ignored(cfg, f) then 1 else 0
  {
    hide Direct, HandleIp, HandleArp, CacheLookup, FreeSlot, RouteOf, NextHop;
    if IsRouted(cfg, g) {
      RoutedNotIgnored(cfg, g);
    } else if IsReply(cfg, g) {
      assert g != f;
    } else if IsIp(g.raw) {
      IpDirect(cfg, st, g, f);
    } else if IsArp(g.raw) {
      ArpDirect(cfg, st, g, now, f);
    }
    hide Ignored;
  }

  lemma RoutedNotIgnored(cfg: Config, g: Frame)
    requires WellFormed(cfg, g) && IsRouted(cfg, g)
    ensures !Ignored(cfg, g)
  {
  }

  lemma ContinueAccount(cfg: Config, s: System, f: Frame)
    requires WellFormedConfig(cfg) && SystemInv(cfg, s) && AllRoutable(cfg, s.st.pending) && !s.st.stopped
    ensures Account(Continue(cfg, s), f) + (if Loses(s, Resume, f) then 1 else 0) == Account(s, f)
  {
    hide Inv, Direct, ReleaseAll;
    var st := s.st;
    match s.phase
    case Idle =>
    case Missed(g, hop, iface) =>
    case NoRequest(g, hop, iface) =>
      DirectOne(st.trace, ArpRequest(iface, hop), f);
    case FoundRequest(g, hop, iface, sent, born) =>
      LookupGone(st.pending, hop);
    case FoundEntry(g, hop, iface, slot) =>
      DirectOne(st.trace, Icmp(g, TIME_EXCEEDED, 0, false), f);
      DirectOne(st.trace, Forward(g, iface, st.cache[slot].mac, false), f);
    case Learned(ip, mac) =>
      if PendingLookup(st.pending, ip).Some? {
        var frames := st.pending[PendingLookup(st.pending, ip).value].withheld;
        ReleasedDirect(cfg, frames, mac, f);
        DirectConcat(st.trace, ReleaseAll(cfg, frames, mac), f);
      }
  }

  lemma ReleasedDirect(cfg: Config, frames: seq<Frame>, mac: Mac, f: Frame)
    requires WellFormedConfig(cfg) && Routable(cfg, frames)
    ensures Direct(ReleaseAll(cfg, frames, mac), f) == 0
  {
    NoneDirect(ReleaseAll(cfg, frames, mac), f);
  }

  /** One move: what is taken up is answered, withheld, in hand or lost. */
  lemma NextAccount(cfg: Config, s: System, m: Move, f: Frame)
    requires WellFormedConfig(cfg) && SystemInv(cfg, s) && GoodMove(cfg, m) && Datagram(cfg, f)
    ensures Account(Next(cfg, s, m), f) + (if Loses(s, m, f) then 1 else 0)
         == Account(s, f) + if TakesUp(cfg, s, m, f) then 1 else 0
  {
    InvRoutable(cfg, s.st);
    hide Begin, Continue, Direct, Ignored;
    match m
    case Arrive(g, now) =>
      BeginAccount(cfg, s.st, g, now, f);
    case Resume =>
      if !s.st.stopped { ContinueAccount(cfg, s, f); }
    case ArpRound(now) =>
      TickDirect(s.st.pending, f);
      DirectConcat(s.st.trace, TickOutputs(s.st.pending), f);
  }

  /** How often the run takes the frame up, and how often it loses it. */
  ghost function TakenUp(cfg: Config, s: System, ms: seq<Move>, f: Frame): nat
    requires WellFormedConfig(cfg) && SystemInv(cfg, s) && GoodMoves(cfg, ms) && Datagram(cfg, f)
    decreases |ms|
  {
    if ms == [] then 0
    else
      NextKeeps(cfg, s, ms[0]);
      (if TakesUp(cfg, s, ms[0], f) then 1 else 0) + TakenUp(cfg, Next(cfg, s, ms[0]), ms[1..], f)
  }

  ghost function Lost(cfg: Config, s: System, ms: seq<Move>, f: Frame): nat
    requires WellFormedConfig(cfg) && SystemInv(cfg, s) && GoodMoves(cfg, ms)
    decreases |ms|
  {
    if ms == [] then 0
    else
      NextKeeps(cfg, s, ms[0]);
      (if Loses(s, ms[0], f) then 1 else 0) + Lost(cfg, Next(cfg, s, ms[0]), ms[1..], f)
  }

  lemma {:induction false} RunAccount(cfg: Config, s: System, ms: seq<Move>, f: Frame)
    requires WellFormedConfig(cfg) && SystemInv(cfg, s) && GoodMoves(cfg, ms) && Datagram(cfg, f)
    ensures Account(Interleave(cfg, s, ms), f) + Lost(cfg, s, ms, f) == Account(s, f) + TakenUp(cfg, s, ms, f)
    decreases |ms|
  {
    if ms != [] {
      FirstOf(cfg, s, ms);
      NextAccount(cfg, s, ms[0], f);
      hide SystemInv, Next, Account, Loses, TakesUp;
      RunAccount(cfg, Next(cfg, s, ms[0]), ms[1..], f);
    }
  }

  /** How often the frame comes in; arrivals told apart come once. */
  function Comings(ms: seq<Move>, f: Frame): nat {
    if ms == [] then 0 else (if ms[0].Arrive? && ms[0].frame == f then 1 else 0) + Comings(ms[1..], f)
  }

  lemma {:induction false} TakenUpAsItComes(cfg: Config, s: System, ms: seq<Move>, f: Frame)
    requires WellFormedConfig(cfg) && SystemInv(cfg, s) && GoodMoves(cfg, ms) && Datagram(cfg, f)
    ensures TakenUp(cfg, s, ms, f) <= Comings(ms, f)
    ensures Ignored(cfg, f) ==> TakenUp(cfg, s, ms, f) == 0
    decreases |ms|
  {
    if ms != [] {
      FirstOf(cfg, s, ms);
      hide SystemInv, Next, Ignored;
      TakenUpAsItComes(cfg, Next(cfg, s, ms[0]), ms[1..], f);
    }
  }

  /**
   Every datagram, in every mixed run: each time the handler took it up it was answered or
   forwarded at once, or has one outcome after waiting, or still waits, or is in the handler's
   hands, or was lost between lookup and addition; exactly one of these.
   */
  lemma MixedEveryDatagramOnce(cfg: Config, st: State, ms: seq<Move>, f: Frame)
    requires WellFormedConfig(cfg) && GoodMoves(cfg, ms) && Started(st) && Datagram(cfg, f)
    ensures SystemInv(cfg, System(st, Idle, 0))
    ensures var s := System(st, Idle, 0);
            var end := Interleave(cfg, s, ms);
            && Direct(end.st.trace, f)
               + (match NextHop(cfg, f)
                  case None => 0
                  case Some(x) =>
                    multiset(SettledFor(cfg, end.st.trace, x))[f] + multiset(WaitingFor(end.st.pending, x))[f])
               + InHand(end.phase, f) + Lost(cfg, s, ms, f)
               == TakenUp(cfg, s, ms, f) <= Comings(ms, f)
  {
    StartKeeps(cfg, st);
    var s := System(st, Idle, 0);
    var end := Interleave(cfg, s, ms);
    RunAccount(cfg, s, ms, f);
    TakenUpAsItComes(cfg, s, ms, f);
    assert Account(s, f) == 0;
    HeldPlaces(cfg, end.st, f);
    hide Inv, Interleave, Lost, TakenUp, Direct, SettledFor, WaitingFor;
  }

  /** A withheld frame is settled or waits. */
  lemma HeldPlaces(cfg: Config, st: State, f: Frame)
    requires Inv(cfg, st) && Datagram(cfg, f)
    ensures multiset(st.held)[f]
         == match NextHop(cfg, f)
            case None => 0
            case Some(x) => multiset(SettledFor(cfg, st.trace, x))[f] + multiset(WaitingFor(st.pending, x))[f]
  {
    match NextHop(cfg, f)
    case None =>
      assert f !in st.held;
    case Some(x) =>
      HeldForCounts(cfg, st.held, f, x);
      assert Balanced(cfg, st, x);
      assert multiset(SettledFor(cfg, st.trace, x) + WaitingFor(st.pending, x))[f]
           == multiset(SettledFor(cfg, st.trace, x))[f] + multiset(WaitingFor(st.pending, x))[f];
  }
}
