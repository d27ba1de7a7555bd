/**
 Whole runs of the router: what the invariant says about every reachable state, in the terms
 of the datagrams, the wire and the clock.
 */
module RouterRuns {
  import opened Wrappers
  import opened LongestMatch
  import opened Packets
  import opened RouterSpec
  import opened RouterProofs

  ghost predicate GoodEvents(cfg: Config, es: seq<Event>) {
    forall i :: 0 <= i < |es| && es[i].Arrival? ==> WellFormed(cfg, es[i].frame)
  }

  /** The state after a run; it satisfies the invariant if the first state does. */
  ghost function Run(cfg: Config, st: State, es: seq<Event>): (r: State)
    requires WellFormedConfig(cfg) && GoodEvents(cfg, es) && Inv(cfg, st)
    ensures Inv(cfg, r)
    decreases |es|
  {
    if es == [] then st
    else
      StepKeeps(cfg, st, es[0]);
      Run(cfg, Step(cfg, st, es[0]), es[1..])
  }

  lemma {:induction false} NoneSettled(cfg: Config, x: Ip)
    ensures HeldFor(cfg, [], x) == SettledFor(cfg, [], x) + WaitingFor([], x)
  {
  }

  lemma StartKeeps(cfg: Config, st: State)
    requires Started(st)
    ensures Inv(cfg, st)
  {
    forall x: Ip
      ensures Balanced(cfg, st, x)
    {
      NoneSettled(cfg, x);
    }
  }

  /** The state after a run of a router that has just been configured. */
  ghost function RunFrom(cfg: Config, st: State, es: seq<Event>): (r: State)
    requires WellFormedConfig(cfg) && GoodEvents(cfg, es) && Started(st)
    ensures Inv(cfg, r)
  {
    StartKeeps(cfg, st);
    Run(cfg, st, es)
  }

  // ----- conservation

  ghost predicate DistinctFrames(fs: seq<Frame>) {
    forall i, j :: 0 <= i < j < |fs| ==> fs[i] != fs[j]
  }

  lemma {:induction false} HeldForCounts(cfg: Config, held: seq<Frame>, f: Frame, x: Ip)
    ensures multiset(HeldFor(cfg, held, x))[f] == if ForHop(cfg, f, x) then multiset(held)[f] else 0
  {
    hide ForHop;
    if held == [] {
      assert HeldFor(cfg, held, x) == [];
    } else {
      var n := |held| - 1;
      HeldForCounts(cfg, held[..n], f, x);
      LastHeld(cfg, held, x);
      hide HeldFor;
      CountLast(held[..n], held[n], f);
      CountLast(HeldFor(cfg, held[..n], x), held[n], f);
    }
  }

  lemma LastHeld(cfg: Config, held: seq<Frame>, x: Ip)
    requires held != []
    ensures var n := |held| - 1;
            && held == held[..n] + [held[n]]
            && HeldFor(cfg, held, x)
               == if ForHop(cfg, held[n], x) then HeldFor(cfg, held[..n], x) + [held[n]] else HeldFor(cfg, held[..n], x)
  {
    hide ForHop;
  }

  lemma CountLast(fs: seq<Frame>, g: Frame, f: Frame)
    ensures multiset(fs + [g])[f] == multiset(fs)[f] + if g == f then 1 else 0
  {
  }

  lemma {:induction false} DistinctCount(fs: seq<Frame>, f: Frame)
    requires DistinctFrames(fs)
    ensures multiset(fs)[f] == if f in fs then 1 else 0
  {
    if fs != [] {
      DistinctCount(fs[1..], f);
      assert fs == [fs[0]] + fs[1..];
    }
  }

  /**
   In every state of a run, a withheld datagram is waiting in the request for its next hop or
   has met its fate, never both, never twice; and the trace and the queues hold no other.
   */
  lemma WithheldOnce(cfg: Config, st: State, f: Frame, x: Ip)
    requires Inv(cfg, st) && DistinctFrames(st.held) && ForHop(cfg, f, x)
    ensures multiset(SettledFor(cfg, st.trace, x))[f] + multiset(WaitingFor(st.pending, x))[f]
            == if f in st.held then 1 else 0
  {
    assert Balanced(cfg, st, x);
    HeldForCounts(cfg, st.held, f, x);
    DistinctCount(st.held, f);
    assert multiset(SettledFor(cfg, st.trace, x) + WaitingFor(st.pending, x))[f]
         == multiset(SettledFor(cfg, st.trace, x))[f] + multiset(WaitingFor(st.pending, x))[f];
  }

  function Arrivals(es: seq<Event>): seq<Frame> {
    if es == [] then []
    else (if es[0].Arrival? then [es[0].frame] else []) + Arrivals(es[1..])
  }

  lemma StepHeld(cfg: Config, st: State, e: Event)
    requires WellFormedConfig(cfg) && AllRoutable(cfg, st.pending) && (e.Arrival? ==> WellFormed(cfg, e.frame))
    ensures var held := Step(cfg, st, e).held;
            held == st.held || (e.Arrival? && held == st.held + [e.frame])
  {
  }

  lemma StillDistinct(held: seq<Frame>, after: seq<Frame>, es: seq<Event>)
    requires es != [] && DistinctFrames(held + Arrivals(es))
    requires after == held || (es[0].Arrival? && after == held + [es[0].frame])
    ensures DistinctFrames(after + Arrivals(es[1..]))
  {
    if es[0].Arrival? {
      assert Arrivals(es) == [es[0].frame] + Arrivals(es[1..]);
      Associate(held, [es[0].frame], Arrivals(es[1..]));
      DistinctWithout(held, es[0].frame, Arrivals(es[1..]));
    } else {
      assert Arrivals(es) == Arrivals(es[1..]);
    }
  }

  lemma DistinctWithout(a: seq<Frame>, f: Frame, b: seq<Frame>)
    requires DistinctFrames(a + [f] + b)
    ensures DistinctFrames(a + b)
  {
    var all, rest := a + [f] + b, a + b;
    assert forall i :: 0 <= i < |rest| ==> rest[i] == all[if i < |a| then i else i + 1];
  }

  lemma {:induction false} HeldDistinct(cfg: Config, st: State, es: seq<Event>)
    requires WellFormedConfig(cfg) && GoodEvents(cfg, es) && Inv(cfg, st) && DistinctFrames(st.held + Arrivals(es))
    ensures DistinctFrames(Run(cfg, st, es).held)
    decreases |es|
  {
    if es == [] {
      assert st.held + Arrivals(es) == st.held;
    } else {
      StepKeeps(cfg, st, es[0]);
      StepHeld(cfg, st, es[0]);
      hide Inv;
      hide Step;
      var st' := Step(cfg, st, es[0]);
      StillDistinct(st.held, st'.held, es);
      HeldDistinct(cfg, st', es[1..]);
    }
  }

  /**
   Conservation, for every run of a started router whose arriving frames are told apart: a
   withheld datagram is in exactly one place, and outcomes for one next hop come in arrival order.
   An outcome is a forward, Time Exceeded for a last hop, or Host Unreachable.
   */
  lemma Conservation(cfg: Config, st: State, es: seq<Event>, f: Frame, x: Ip)
    requires WellFormedConfig(cfg) && GoodEvents(cfg, es) && Started(st)
    requires DistinctFrames(Arrivals(es)) && ForHop(cfg, f, x)
    ensures var end := RunFrom(cfg, st, es);
            && multiset(SettledFor(cfg, end.trace, x))[f] + multiset(WaitingFor(end.pending, x))[f]
               == (if f in end.held then 1 else 0)
            && SettledFor(cfg, end.trace, x) <= HeldFor(cfg, end.held, x)
            && forall i :: 0 <= i < |end.trace| && Settles(cfg, end.trace[i], x) ==> Outcome(end.trace[i])
  {
    assert st.held + Arrivals(es) == Arrivals(es);
    StartKeeps(cfg, st);
    HeldDistinct(cfg, st, es);
    var end := RunFrom(cfg, st, es);
    WithheldOnce(cfg, end, f, x);
    assert Balanced(cfg, end, x);
    SettledOutcomes(cfg, end, x);
  }

  /** What can become of a withheld datagram. */
  predicate Outcome(o: Output)
    requires (o.Forward? || o.Icmp?) && |o.frame.raw| >= ETH + IPH
  {
    || (o.Forward? && Ttl(o.frame.raw) != 1)
    || (o.Icmp? && o.kind == TIME_EXCEEDED && o.code == 0 && Ttl(o.frame.raw) == 1)
    || (o.Icmp? && o.kind == DEST_UNREACHABLE && o.code == HOST_UNREACHABLE)
  }

  lemma SettledOutcomes(cfg: Config, st: State, x: Ip)
    requires SafeTrace(cfg, st)
    ensures forall i :: 0 <= i < |st.trace| && Settles(cfg, st.trace[i], x) ==> Outcome(st.trace[i])
  {
    forall i | 0 <= i < |st.trace| && Settles(cfg, st.trace[i], x)
      ensures Outcome(st.trace[i])
    {
      assert SafeOutput(cfg, st.reports, st.trace[i]);
    }
  }

  // ----- what leaves the router

  /**
   Next-hop safety. A forwarded datagram leaves on the interface of the earliest longest match
   for its destination, addressed to a hardware address that an ARP reply reported for the next
   hop of that route, with one hop less to live and a header that verifies.
   */
  lemma ForwardedRightly(cfg: Config, st: State, plen: seq<bv32>, i: nat)
    requires WellFormedConfig(cfg) && Inv(cfg, st) && Contiguous(cfg.table, plen)
    requires i < |st.trace| && st.trace[i].Forward?
    ensures var o := st.trace[i];
            && Datagram(cfg, o.frame) && o.iface < |cfg.ifaces|
            && (exists k :: 0 <= k < |cfg.table| && LongestFor(cfg.table, plen, IpDst(o.frame.raw), k)
                  && o.iface == cfg.table[k].iface
                  && (ForwardIp(cfg.table[k], IpDst(o.frame.raw)), o.mac) in st.reports)
            && Bytes(cfg, o)[..6] == o.mac && Bytes(cfg, o)[6..12] == cfg.ifaces[o.iface].mac
            && HeaderVerifies(Bytes(cfg, o)[ETH..ETH + IPH])
            && Ttl(Bytes(cfg, o)) == Decrement(Ttl(o.frame.raw)) && Ttl(o.frame.raw) != 1
            && IpDst(Bytes(cfg, o)) == IpDst(o.frame.raw)
  {
    var o := st.trace[i];
    assert SafeOutput(cfg, st.reports, o);
    var dst := IpDst(o.frame.raw);
    var k := RouteOf(cfg, o.frame).value;
    assert cfg.table[k] in cfg.table;
    BestIsLongest(cfg.table, plen, dst, |cfg.table|);
    assert LongestFor(cfg.table, plen, dst, k);
    ForwardedFacts(o.frame.raw, o.mac, cfg.ifaces[o.iface].mac);
    HopFacts(o.frame.raw, Bytes(cfg, o), o.mac, cfg.ifaces[o.iface].mac);
  }

  /** Entry k matches, no matching entry has a longer mask, and no earlier one has as long a mask. */
  ghost predicate LongestFor(table: seq<LongestMatch.Route>, plen: seq<bv32>, dst: Ip, k: nat)
    requires |plen| == |table|
  {
    && k < |table| && Matches(table[k], dst)
    && forall i :: 0 <= i < |table| && Matches(table[i], dst) ==>
         plen[i] < plen[k] || (plen[i] == plen[k] && k <= i)
  }

  /** Nothing the router sends for a datagram is refused by `chirouter_send_frame`. */
  lemma NothingRefused(cfg: Config, st: State, i: nat)
    requires WellFormedConfig(cfg) && Inv(cfg, st) && i < |st.trace| && (st.trace[i].Forward? || st.trace[i].Icmp?)
    ensures var o := st.trace[i];
            var out := if o.Forward? then o.iface else o.frame.inIface;
            && Datagram(cfg, o.frame) && out < |cfg.ifaces| && (o.Icmp? ==> Answerable(o.frame.raw, o.kind))
            && ETH <= |Bytes(cfg, o)| <= FRAME_MAX && Bytes(cfg, o)[6..12] == cfg.ifaces[out].mac
  {
    var o := st.trace[i];
    assert SafeOutput(cfg, st.reports, o);
    if o.Forward? {
      assert cfg.table[RouteOf(cfg, o.frame).value] in cfg.table;
      ForwardedFacts(o.frame.raw, o.mac, cfg.ifaces[o.iface].mac);
    } else {
      var a := cfg.ifaces[o.frame.inIface];
      IcmpFacts(o.frame.raw, o.kind, o.code, a.mac, a.ip);
    }
  }

  // ----- every datagram

  /** Some interface of the router has the datagram's destination as its address. */
  predicate ForRouter(cfg: Config, f: Frame)
    requires Datagram(cfg, f)
  {
    exists i :: 0 <= i < |cfg.ifaces| && cfg.ifaces[i].ip == IpDst(f.raw)
  }

  /** The router says one thing at once about the datagram, and withholds nothing. */
  predicate Answered(before: State, after: State, f: Frame) {
    && after.held == before.held && after.pending == before.pending && |after.trace| == |before.trace| + 1
    && after.trace[..|before.trace|] == before.trace
    && var o := after.trace[|before.trace|];
    (o.Forward? || o.Icmp?) && o.frame == f && !o.queued
  }

  /** It asks for the next hop if nobody has yet, and the datagram waits. */
  predicate Waits(before: State, after: State, f: Frame, hop: Ip) {
    && after.held == before.held + [f]
    && (if PendingLookup(before.pending, hop).Some? then after.trace == before.trace
        else |after.trace| == |before.trace| + 1 && after.trace[|before.trace|].ArpRequest?
             && after.trace[|before.trace|].ip == hop)
    && exists k :: 0 <= k < |after.pending| && after.pending[k].ip == hop
         && after.pending[k].withheld != [] && after.pending[k].withheld[|after.pending[k].withheld| - 1] == f
  }

  /**
   A datagram is answered, withheld or ignored, and never two of these. It is ignored only if
   it is an ICMP message for the receiving interface other than an echo request; it is forwarded
   only if it is for nobody here and can still live; Time Exceeded answers a last hop only, Net
   Unreachable a destination that no route matches.
   */
  predicate Fate(cfg: Config, st: State, after: State, f: Frame)
    requires Datagram(cfg, f)
  {
    if Answered(st, after, f) then
      var o := after.trace[|st.trace|];
      && (o.Forward? ==> !ForRouter(cfg, f) && Ttl(f.raw) != 1 && NextHop(cfg, f).Some?)
      && (o.Icmp? && o.kind == TIME_EXCEEDED ==> Ttl(f.raw) == 1)
      && (o.Icmp? && o.kind == ECHO_REPLY ==> Proto(f.raw) == PROTO_ICMP && ForRouter(cfg, f))
      && (o.Icmp? && o.kind == DEST_UNREACHABLE && o.code == NET_UNREACHABLE <==>
            !ForRouter(cfg, f) && RouteOf(cfg, f).None?)
    else if after == st then
      Proto(f.raw) == PROTO_ICMP && f.raw[ETH + IPH] != ECHO_REQUEST && IpDst(f.raw) == cfg.ifaces[f.inIface].ip
    else
      !ForRouter(cfg, f) && NextHop(cfg, f).Some? && Waits(st, after, f, NextHop(cfg, f).value)
  }

  lemma OneFate(cfg: Config, st: State, f: Frame, now: int)
    requires WellFormedConfig(cfg) && Inv(cfg, st) && !st.stopped && Datagram(cfg, f)
    ensures AllRoutable(cfg, st.pending) && Fate(cfg, st, Step(cfg, st, Arrival(f, now)), f)
  {
    InvRoutable(cfg, st);
    hide Inv, AllRoutable, Fate, Withhold, CacheLookup;
    if !ForRouter(cfg, f) && NextHop(cfg, f).Some? && CacheLookup(st.cache, NextHop(cfg, f).value).None? {
      WithheldFate(cfg, st, f, NextHop(cfg, f).value);
    } else {
      AnsweredFate(cfg, st, f);
    }
  }

  lemma WithheldFate(cfg: Config, st: State, f: Frame, hop: Ip)
    requires WellFormedConfig(cfg) && Datagram(cfg, f) && !ForRouter(cfg, f) && NextHop(cfg, f) == Some(hop)
    ensures Fate(cfg, st, Withhold(st, f, hop, OutIface(cfg, f)), f)
  {
    hide RouteOf, ForRouter;
    var after := Withhold(st, f, hop, OutIface(cfg, f));
    assert after.held != st.held by { assert |after.held| == |st.held| + 1; }
    var k := if PendingLookup(st.pending, hop).Some? then PendingLookup(st.pending, hop).value else |st.pending|;
    assert after.pending[k].ip == hop && after.pending[k].withheld[|after.pending[k].withheld| - 1] == f;
  }

  lemma AnsweredFate(cfg: Config, st: State, f: Frame)
    requires WellFormedConfig(cfg) && Datagram(cfg, f)
    requires !ForRouter(cfg, f) && NextHop(cfg, f).Some? ==> CacheLookup(st.cache, NextHop(cfg, f).value).Some?
    ensures Fate(cfg, st, HandleIp(cfg, st, f), f)
  {
    hide RouteOf, CacheLookup, Waits, Load;
  }

  // ----- the life of a pending request

  /** There is a request for x that was sent n times. */
  ghost predicate Asks(pending: seq<Pending>, x: Ip, n: nat) {
    exists k :: 0 <= k < |pending| && pending[k].ip == x && pending[k].timesSent == n
  }

  ghost predicate Gone(pending: seq<Pending>, x: Ip) {
    forall k :: 0 <= k < |pending| ==> pending[k].ip != x
  }

  /** An ARP reply that reports x to the interface it came in on. */
  ghost predicate Answers(cfg: Config, e: Event, x: Ip)
    requires e.Arrival? ==> WellFormed(cfg, e.frame)
  {
    && e.Arrival? && IsArp(e.frame.raw) && ArpOp(e.frame.raw) == 2
    && Load(e.frame.raw, 38) == cfg.ifaces[e.frame.inIface].ip && Load(e.frame.raw, 28) == x
  }

  lemma WithholdAsks(st: State, f: Frame, hop: Ip, iface: nat, x: Ip, n: nat)
    requires Asks(st.pending, x, n)
    ensures Asks(Withhold(st, f, hop, iface).pending, x, n)
  {
    var k :| 0 <= k < |st.pending| && st.pending[k].ip == x && st.pending[k].timesSent == n;
    var after := Withhold(st, f, hop, iface).pending;
    assert after[k].ip == x && after[k].timesSent == n;
  }

  lemma LearnAsks(cfg: Config, st: State, ip: Ip, mac: Mac, now: int, x: Ip, n: nat)
    requires WellFormedConfig(cfg) && AllRoutable(cfg, st.pending) && Asks(st.pending, x, n) && ip != x
    ensures Asks(Learn(cfg, st, ip, mac, now).pending, x, n)
  {
    var k :| 0 <= k < |st.pending| && st.pending[k].ip == x && st.pending[k].timesSent == n;
    var after := Learn(cfg, st, ip, mac, now).pending;
    if after != st.pending {
      var d := PendingLookup(st.pending, ip).value;
      assert after == Removed(st.pending, d);
      assert after[if k < d then k else k - 1] == st.pending[k];
    }
  }

  lemma {:induction false} TickAsks(pending: seq<Pending>, k: nat)
    requires k < |pending| && pending[k].timesSent < MAX_SENT
    ensures Asks(TickKeep(pending), pending[k].ip, pending[k].timesSent + 1)
  {
    var r, rest, after := pending[0], pending[1..], TickKeep(pending);
    var n := if r.timesSent < MAX_SENT then 1 else 0;
    if k == 0 {
      assert after[0].ip == r.ip;
    } else {
      TickAsks(rest, k - 1);
      var j :| 0 <= j < |TickKeep(rest)| && TickKeep(rest)[j].ip == pending[k].ip
               && TickKeep(rest)[j].timesSent == pending[k].timesSent + 1;
      assert after[j + n] == TickKeep(rest)[j];
    }
  }

  lemma TickGone(pending: seq<Pending>, k: nat)
    requires Unique(pending) && k < |pending| && pending[k].timesSent >= MAX_SENT
    ensures Gone(TickKeep(pending), pending[k].ip)
  {
    TickKept(pending);
    forall j | 0 <= j < |TickKeep(pending)|
      ensures TickKeep(pending)[j].ip != pending[k].ip
    {
      assert Kept(pending, TickKeep(pending)[j]);
    }
  }

  /** Only a tick or an answer changes how often x was asked for. */
  lemma StepAsks(cfg: Config, st: State, e: Event, x: Ip, n: nat)
    requires WellFormedConfig(cfg) && Inv(cfg, st) && (e.Arrival? ==> WellFormed(cfg, e.frame))
    requires !st.stopped && Asks(st.pending, x, n) && !Answers(cfg, e, x)
    ensures AllRoutable(cfg, st.pending)
    ensures e.Arrival? ==> Asks(Step(cfg, st, e).pending, x, n)
    ensures e.Round? && n < MAX_SENT ==> Asks(Step(cfg, st, e).pending, x, n + 1)
    ensures e.Round? && n >= MAX_SENT ==> Gone(Step(cfg, st, e).pending, x)
  {
    InvRoutable(cfg, st);
    match e
    case Round(now) =>
      var k :| 0 <= k < |st.pending| && st.pending[k].ip == x && st.pending[k].timesSent == n;
      if n < MAX_SENT { TickAsks(st.pending, k); } else { TickGone(st.pending, k); }
    case Arrival(f, now) =>
      hide Inv, Asks, Gone, Withhold, Learn;
      if IsIp(f.raw) {
        if NextHop(cfg, f).Some? {
          WithholdAsks(st, f, NextHop(cfg, f).value, OutIface(cfg, f), x, n);
        }
      } else if IsArp(f.raw) && Load(f.raw, 28) != x {
        LearnAsks(cfg, st, Load(f.raw, 28), f.raw[22..28], now, x, n);
      }
  }

  function Rounds(es: seq<Event>): nat {
    if es == [] then 0 else (if es[0].Round? then 1 else 0) + Rounds(es[1..])
  }

  ghost predicate Unanswered(cfg: Config, es: seq<Event>, x: Ip)
    requires GoodEvents(cfg, es)
  {
    forall i :: 0 <= i < |es| ==> !Answers(cfg, es[i], x)
  }

  lemma {:induction false} StoppedStays(cfg: Config, st: State, es: seq<Event>)
    requires WellFormedConfig(cfg) && GoodEvents(cfg, es) && Inv(cfg, st) && st.stopped
    ensures Run(cfg, st, es) == st
    decreases |es|
  {
    if es != [] {
      StepKeeps(cfg, st, es[0]);
      StoppedStays(cfg, st, es[1..]);
    }
  }

  lemma NoEvents(cfg: Config, st: State, es: seq<Event>)
    requires WellFormedConfig(cfg) && GoodEvents(cfg, es) && Inv(cfg, st) && es == []
    ensures Rounds(es) == 0 && Run(cfg, st, es) == st
  {
  }

  lemma FirstEvent(cfg: Config, st: State, es: seq<Event>, x: Ip)
    requires WellFormedConfig(cfg) && GoodEvents(cfg, es) && Inv(cfg, st) && es != [] && Unanswered(cfg, es, x)
    ensures AllRoutable(cfg, st.pending) && (es[0].Arrival? ==> WellFormed(cfg, es[0].frame))
        && GoodEvents(cfg, es[1..])
    ensures Inv(cfg, Step(cfg, st, es[0])) && Run(cfg, st, es) == Run(cfg, Step(cfg, st, es[0]), es[1..])
    ensures !Answers(cfg, es[0], x) && Unanswered(cfg, es[1..], x)
    ensures Rounds(es) == (if es[0].Round? then 1 else 0) + Rounds(es[1..])
  {
    InvRoutable(cfg, st);
    StepKeeps(cfg, st, es[0]);
    hide Inv, Step, Answers;
  }

  /** While no answer comes, a request is sent once per tick, up to five times. */
  lemma {:induction false} RequestLives(cfg: Config, st: State, es: seq<Event>, x: Ip, n: nat)
    requires WellFormedConfig(cfg) && GoodEvents(cfg, es) && Inv(cfg, st) && Unanswered(cfg, es, x)
    requires Asks(st.pending, x, n) && n + Rounds(es) <= MAX_SENT && !Run(cfg, st, es).stopped
    ensures Asks(Run(cfg, st, es).pending, x, n + Rounds(es))
    decreases |es|
  {
    hide *;
    if es == [] {
      NoEvents(cfg, st, es);
    } else {
      if st.stopped { StoppedStays(cfg, st, es); }
      FirstEvent(cfg, st, es, x);
      StepAsks(cfg, st, es[0], x, n);
      StepKeeps(cfg, st, es[0]);
      RequestLives(cfg, Step(cfg, st, es[0]), es[1..], x, if es[0].Round? then n + 1 else n);
    }
  }

  /** A new request that nobody answers is pending through four ticks and gone at the fifth. */
  lemma RequestDies(cfg: Config, st: State, es: seq<Event>, x: Ip, now: int)
    requires WellFormedConfig(cfg) && GoodEvents(cfg, es) && Inv(cfg, st) && Unanswered(cfg, es, x)
    requires Asks(st.pending, x, 1) && Rounds(es) <= 4 && !Run(cfg, st, es).stopped
    ensures Asks(Run(cfg, st, es).pending, x, 1 + Rounds(es))
    ensures Rounds(es) == 4 ==> Gone(Tick(Run(cfg, st, es), now).pending, x)
  {
    RequestLives(cfg, st, es, x, 1);
    var end := Run(cfg, st, es);
    hide Inv, Asks, Gone, Run, Tick, Unanswered;
    if Rounds(es) == 4 {
      StepAsks(cfg, end, Round(now), x, 5);
      assert Step(cfg, end, Round(now)) == Tick(end, now);
    }
  }
}
