/**
 Mixed runs of the handler and the ARP thread: one in which a frame is lost, and the life of a
 request in any of them.
 */
module ArpRuns {
  import opened Wrappers
  import opened Checksum
  import opened LongestMatch
  import opened Packets
  import opened RouterSpec
  import opened RouterProofs
  import opened RouterRuns
  import opened ArpInterleaving

  function Wait(n: nat): (ms: seq<Move>)
    ensures forall i :: 0 <= i < |ms| ==> ms[i].ArpRound?
  {
    if n == 0 then [] else [ArpRound(0)] + Wait(n - 1)
  }

  /** The frame is lost from every state in which a request was just found, if the rounds are many enough. */
  lemma {:induction false} LateFrameLost(cfg: Config, s: System, n: nat)
    requires WellFormedConfig(cfg) && SystemInv(cfg, s) && s.phase.FoundRequest? && !s.st.stopped
    requires s.phase.sent + s.rounds + n > MAX_SENT
    ensures var late := Interleave(cfg, s, Wait(n));
            late.st.held == s.st.held && Next(cfg, late, Resume).st == late.st && Next(cfg, late, Resume).phase.Idle?
    decreases n
  {
    hide *;
    if n == 0 {
      NoWait(cfg, s);
      Late(cfg, s);
    } else {
      var next := OneRound(cfg, s, n);
      LateFrameLost(cfg, next, n - 1);
    }
  }

  lemma Late(cfg: Config, s: System)
    requires WellFormedConfig(cfg) && SystemInv(cfg, s) && s.phase.FoundRequest? && !s.st.stopped
    requires s.phase.sent + s.rounds > MAX_SENT
    ensures Next(cfg, s, Resume).st == s.st && Next(cfg, s, Resume).phase.Idle?
  {
    JoinsInTime(cfg, s);
    hide SystemInv;
  }

  lemma NoWait(cfg: Config, s: System)
    requires WellFormedConfig(cfg) && SystemInv(cfg, s)
    ensures Wait(0) == [] && Interleave(cfg, s, []) == s
  {
  }

  lemma OneRound(cfg: Config, s: System, n: nat) returns (next: System)
    requires WellFormedConfig(cfg) && SystemInv(cfg, s) && !s.st.stopped && n > 0
    ensures next == System(Tick(s.st, 0), s.phase, s.rounds + 1) && SystemInv(cfg, next)
    ensures next.st.held == s.st.held && !next.st.stopped
    ensures Interleave(cfg, s, Wait(n)) == Interleave(cfg, next, Wait(n - 1))
  {
    var m := ArpRound(0);
    NextKeeps(cfg, s, m);
    next := Next(cfg, s, m);
    assert Wait(n)[0] == m && Wait(n)[1..] == Wait(n - 1);
    hide Inv, PhaseOk;
  }

  // ----- a run in which a frame is lost

  /** Two frames for the same next hop: the first opens a request, the second finds it. */
  function TwoFrames(f: Frame, g: Frame): seq<Move> {
    [Arrive(f, 0), Resume, Resume, Arrive(g, 0), Resume]
  }

  lemma {:induction false} InterleaveConcat(cfg: Config, s: System, a: seq<Move>, b: seq<Move>)
    requires WellFormedConfig(cfg) && SystemInv(cfg, s) && GoodMoves(cfg, a) && GoodMoves(cfg, b)
    ensures GoodMoves(cfg, a + b) && Interleave(cfg, s, a + b) == Interleave(cfg, Interleave(cfg, s, a), b)
    decreases |a|
  {
    if a == [] {
      assert a + b == b;
    } else {
      NextKeeps(cfg, s, a[0]);
      hide SystemInv, Next;
      assert (a + b)[0] == a[0] && (a + b)[1..] == a[1..] + b;
      InterleaveConcat(cfg, Next(cfg, s, a[0]), a[1..], b);
    }
  }

  lemma OneMove(cfg: Config, s: System, m: Move)
    requires WellFormedConfig(cfg) && SystemInv(cfg, s) && GoodMove(cfg, m)
    ensures GoodMoves(cfg, [m]) && Interleave(cfg, s, [m]) == Next(cfg, s, m)
  {
    NextKeeps(cfg, s, m);
    hide SystemInv, Next;
    assert [m][1..] == [];
  }

  lemma FirstOpens(cfg: Config, st: State, f: Frame)
    requires WellFormedConfig(cfg) && Started(st) && WellFormed(cfg, f) && IsRouted(cfg, f)
    ensures var hop, iface := NextHop(cfg, f).value, OutIface(cfg, f);
            var s0, s1 := System(st, Idle, 0), System(st, Missed(f, hop, iface), 0);
            var s2 := System(st, NoRequest(f, hop, iface), 0);
            && SystemInv(cfg, s0) && Next(cfg, s0, Arrive(f, 0)) == s1
            && SystemInv(cfg, s1) && Next(cfg, s1, Resume) == s2
            && SystemInv(cfg, s2) && Next(cfg, s2, Resume) == System(Open(st, f, hop, iface), Idle, 0)
            && SystemInv(cfg, System(Open(st, f, hop, iface), Idle, 0))
  {
    StartKeeps(cfg, st);
    InvRoutable(cfg, st);
    var hop, iface := NextHop(cfg, f).value, OutIface(cfg, f);
    var s0, s1 := System(st, Idle, 0), System(st, Missed(f, hop, iface), 0);
    var s2 := System(st, NoRequest(f, hop, iface), 0);
    NextKeeps(cfg, s0, Arrive(f, 0));
    assert Next(cfg, s0, Arrive(f, 0)) == s1;
    NextKeeps(cfg, s1, Resume);
    assert Next(cfg, s1, Resume) == s2;
    NextKeeps(cfg, s2, Resume);
    hide Inv, PhaseOk, OutIface, NextHop;
  }

  lemma SecondMoves(cfg: Config, st: State, f: Frame, g: Frame, hop: Ip, iface: nat)
    requires WellFormedConfig(cfg) && Started(st) && WellFormed(cfg, g) && IsRouted(cfg, g)
        && NextHop(cfg, g) == Some(hop)
    requires SystemInv(cfg, System(Open(st, f, hop, iface), Idle, 0))
    ensures var s3 := System(Open(st, f, hop, iface), Idle, 0);
            var s4 := System(s3.st, Missed(g, hop, OutIface(cfg, g)), 0);
            && Next(cfg, s3, Arrive(g, 0)) == s4 && SystemInv(cfg, s4)
            && Next(cfg, s4, Resume) == System(s3.st, FoundRequest(g, hop, OutIface(cfg, g), 1, 0), 0)
  {
    var s3 := System(Open(st, f, hop, iface), Idle, 0);
    InvRoutable(cfg, s3.st);
    NextKeeps(cfg, s3, Arrive(g, 0));
    hide Inv, PhaseOk, OutIface, NextHop;
  }

  lemma FiveMoves(cfg: Config, s: System, a: Move, b: Move, c: Move, d: Move, e: Move)
    requires WellFormedConfig(cfg) && SystemInv(cfg, s)
    requires GoodMove(cfg, a) && GoodMove(cfg, b) && GoodMove(cfg, c) && GoodMove(cfg, d) && GoodMove(cfg, e)
    ensures GoodMoves(cfg, [a, b, c, d, e])
    ensures var s1 := Next(cfg, s, a);
            SystemInv(cfg, s1) && var s2 := Next(cfg, s1, b);
            SystemInv(cfg, s2) && var s3 := Next(cfg, s2, c);
            SystemInv(cfg, s3) && var s4 := Next(cfg, s3, d);
            SystemInv(cfg, s4) && Interleave(cfg, s, [a, b, c, d, e]) == Next(cfg, s4, e)
  {
    NextKeeps(cfg, s, a);
    var s1 := Next(cfg, s, a);
    NextKeeps(cfg, s1, b);
    var s2 := Next(cfg, s1, b);
    NextKeeps(cfg, s2, c);
    var s3 := Next(cfg, s2, c);
    NextKeeps(cfg, s3, d);
    var s4 := Next(cfg, s3, d);
    hide SystemInv, Next, GoodMove;
    OneMove(cfg, s4, e);
    InterleaveMore(cfg, s3, d, [e]);
    InterleaveMore(cfg, s2, c, [d, e]);
    InterleaveMore(cfg, s1, b, [c, d, e]);
    InterleaveMore(cfg, s, a, [b, c, d, e]);
    assert [d] + [e] == [d, e] && [c] + [d, e] == [c, d, e] && [b] + [c, d, e] == [b, c, d, e];
    assert [a] + [b, c, d, e] == [a, b, c, d, e];
  }

  lemma InterleaveMore(cfg: Config, s: System, m: Move, ms: seq<Move>)
    requires WellFormedConfig(cfg) && SystemInv(cfg, s) && GoodMove(cfg, m) && GoodMoves(cfg, ms)
    ensures GoodMoves(cfg, [m] + ms) && SystemInv(cfg, Next(cfg, s, m))
    ensures Interleave(cfg, s, [m] + ms) == Interleave(cfg, Next(cfg, s, m), ms)
  {
    NextKeeps(cfg, s, m);
    hide SystemInv, Next;
    assert ([m] + ms)[1..] == ms;
  }

  /** After these moves of a started router the second frame has found the request of the first. */
  lemma SecondFinds(cfg: Config, st: State, f: Frame, g: Frame)
    requires WellFormedConfig(cfg) && Started(st) && WellFormed(cfg, f) && WellFormed(cfg, g)
    requires IsRouted(cfg, f) && IsRouted(cfg, g) && NextHop(cfg, f) == NextHop(cfg, g)
    ensures SystemInv(cfg, System(st, Idle, 0)) && GoodMoves(cfg, TwoFrames(f, g))
    ensures Interleave(cfg, System(st, Idle, 0), TwoFrames(f, g))
         == System(Open(st, f, NextHop(cfg, f).value, OutIface(cfg, f)),
             FoundRequest(g, NextHop(cfg, g).value, OutIface(cfg, g), 1, 0), 0)
  {
    hide SystemInv, Next, Started, OutIface, Open;
    FirstOpens(cfg, st, f);
    SecondMoves(cfg, st, f, g, NextHop(cfg, f).value, OutIface(cfg, f));
    FiveMoves(cfg, System(st, Idle, 0), Arrive(f, 0), Resume, Resume, Arrive(g, 0), Resume);
  }

  /** The moves of a run that loses the second frame. */
  function LosingMoves(f: Frame, g: Frame): seq<Move> {
    TwoFrames(f, g) + (Wait(MAX_SENT) + [Resume])
  }

  /**
   From the start: two frames for one next hop, and five rounds before the second is added. The
   handler is done with it, yet it is not withheld and nothing was sent for it.
   */
  lemma SecondLost(cfg: Config, st: State, f: Frame, g: Frame)
    requires WellFormedConfig(cfg) && Started(st) && WellFormed(cfg, f) && WellFormed(cfg, g) && f != g
    requires IsRouted(cfg, f) && IsRouted(cfg, g) && NextHop(cfg, f) == NextHop(cfg, g)
    ensures SystemInv(cfg, System(st, Idle, 0)) && GoodMoves(cfg, LosingMoves(f, g))
    ensures var end := Interleave(cfg, System(st, Idle, 0), LosingMoves(f, g));
            && end.phase.Idle? && !end.st.stopped && g !in end.st.held && Unheard(end.st.trace, g)
  {
    SecondFinds(cfg, st, f, g);
    var s0, ms := System(st, Idle, 0), TwoFrames(f, g);
    var s := Interleave(cfg, s0, ms);
    var late := Interleave(cfg, s, Wait(MAX_SENT));
    assert s.st.held == [f] && !s.st.stopped && Unheard(s.st.trace, g);
    assert s.st.pending[0].withheld == [f] && |s.st.pending| == 1;
    assert OnlyOthers(s.st.pending, g);
    hide SystemInv, Next, Started, NextHop, OutIface, Open, IsRouted, WellFormed, Interleave, Wait, TwoFrames;
    hide Unheard, OnlyOthers;
    LateFrameLost(cfg, s, MAX_SENT);
    WaitUnheard(cfg, s, MAX_SENT, g);
    WaitGood(cfg);
    OneMove(cfg, late, Resume);
    InterleaveConcat(cfg, s, Wait(MAX_SENT), [Resume]);
    InterleaveConcat(cfg, s0, ms, Wait(MAX_SENT) + [Resume]);
  }

  /** One default route, and one interface. */
  function SmallRouter(): Config {
    Config([Iface([2, 0, 0, 0, 0, 1], 0)], [LongestMatch.Route(0, 0, 1, 0)])
  }

  function EmptyRouter(): State {
    State(seq(ARPCACHE_SIZE, _ => CacheEntry(false, 0, [0, 0, 0, 0, 0, 0], 0)), [], [], [], {}, false)
  }

  /** Such a run exists. */
  lemma FrameLost()
    ensures exists cfg, st, f, g ::
              && WellFormedConfig(cfg) && Started(st) && WellFormed(cfg, f) && WellFormed(cfg, g) && f != g
              && SystemInv(cfg, System(st, Idle, 0)) && GoodMoves(cfg, LosingMoves(f, g))
              && var end := Interleave(cfg, System(st, Idle, 0), LosingMoves(f, g));
              end.phase.Idle? && !end.st.stopped && g !in end.st.held && Unheard(end.st.trace, g)
  {
    var cfg, st, f, g := SmallRouter(), EmptyRouter(), Frame(0, PaddedRequest(), 0), Frame(1, PaddedRequest(), 0);
    RequestRouted(f);
    RequestRouted(g);
    hide SmallRouter, EmptyRouter, PaddedRequest, NextHop, Interleave, SystemInv, LosingMoves, WellFormed, IsRouted;
    assert Started(st) by { EmptyStarted(); }
    SecondLost(cfg, st, f, g);
  }

  lemma EmptyStarted()
    ensures Started(EmptyRouter())
  {
  }

  lemma RequestRouted(f: Frame)
    requires f.raw == PaddedRequest() && f.inIface == 0
    ensures var cfg := SmallRouter();
            WellFormedConfig(cfg) && WellFormed(cfg, f) && IsRouted(cfg, f) && NextHop(cfg, f) == Some(1)
  {
    hide Joined, Wide;
    var cfg, dst := SmallRouter(), IpDst(f.raw);
    assert f.raw[12] == 8 && f.raw[13] == 0 && f.raw[16] == 0 && f.raw[17] == 28 && |f.raw| == 60;
    DestinationIs(f.raw);
    DefaultRoute(dst);
    hide LongestMatch.Covers, Load;
    assert Best(cfg.table, dst, 0).None? && Best(cfg.table, dst, 1) == Some(0);
  }

  lemma DestinationIs(raw: seq<Byte>)
    requires raw == PaddedRequest()
    ensures |raw| == 60 && IpDst(raw) != 0
  {
    assert raw[30] == 10 && raw[31] == 0 && raw[32] == 1 && raw[33] == 9;
    Nonzero(Wide(raw[30]), Wide(raw[31]) << 8, Wide(raw[32]) << 16, Wide(raw[33]) << 24);
  }

  lemma Nonzero(a: bv32, b: bv32, c: bv32, d: bv32)
    requires a == 10
    ensures a | b | c | d != 0
  {
  }

  lemma DefaultRoute(dst: Ip)
    ensures Matches(LongestMatch.Route(0, 0, 1, 0), dst)
  {
  }

  /** Nothing was sent for the frame, */
  predicate Unheard(trace: seq<Output>, g: Frame) {
    forall i :: 0 <= i < |trace| ==> (trace[i].Forward? || trace[i].Icmp? ==> trace[i].frame != g)
  }

  /** and no request withholds it. */
  predicate OnlyOthers(pending: seq<Pending>, g: Frame) {
    forall k :: 0 <= k < |pending| ==> g !in pending[k].withheld
  }

  lemma WaitGood(cfg: Config)
    ensures GoodMoves(cfg, Wait(MAX_SENT)) && GoodMoves(cfg, [Resume])
  {
  }

  lemma {:induction false} TickUnheard(pending: seq<Pending>, g: Frame)
    requires OnlyOthers(pending, g)
    ensures Unheard(TickOutputs(pending), g) && OnlyOthers(TickKeep(pending), g)
  {
    if pending != [] {
      assert g !in pending[0].withheld;
      TickUnheard(pending[1..], g);
    }
  }

  lemma {:induction false} WaitUnheard(cfg: Config, s: System, n: nat, g: Frame)
    requires WellFormedConfig(cfg) && SystemInv(cfg, s) && !s.st.stopped
    requires Unheard(s.st.trace, g) && OnlyOthers(s.st.pending, g)
    ensures var late := Interleave(cfg, s, Wait(n)); Unheard(late.st.trace, g) && !late.st.stopped
    decreases n
  {
    hide *;
    if n == 0 {
      NoWait(cfg, s);
    } else {
      TickedUnheard(s.st, g);
      var next := OneRound(cfg, s, n);
      WaitUnheard(cfg, next, n - 1, g);
    }
  }

  lemma TickedUnheard(st: State, g: Frame)
    requires Unheard(st.trace, g) && OnlyOthers(st.pending, g)
    ensures Unheard(Tick(st, 0).trace, g) && OnlyOthers(Tick(st, 0).pending, g)
  {
    TickUnheard(st.pending, g);
    hide TickOutputs, TickKeep;
  }

  // ----- the life of a request

  function RoundsIn(ms: seq<Move>): nat {
    if ms == [] then 0 else (if ms[0].ArpRound? then 1 else 0) + RoundsIn(ms[1..])
  }

  /** No frame of the run is an ARP reply that reports x, and none is being dealt with. */
  ghost predicate NoAnswer(cfg: Config, s: System, ms: seq<Move>, x: Ip)
    requires GoodMoves(cfg, ms)
  {
    && (s.phase.Learned? ==> s.phase.ip != x)
    && forall i :: 0 <= i < |ms| && ms[i].Arrive? ==> !Answers(cfg, Arrival(ms[i].frame, ms[i].now), x)
  }

  lemma BeginAged(cfg: Config, st: State, f: Frame, now: int, x: Ip, n: nat, born: nat)
    requires WellFormedConfig(cfg) && WellFormed(cfg, f) && AllRoutable(cfg, st.pending) && n <= MAX_SENT
    requires Aged(st.pending, x, n, born) && !Answers(cfg, Arrival(f, now), x)
    ensures var next := Begin(cfg, st, f, now);
            Aged(next.st.pending, x, n, born) && (next.phase.Learned? ==> next.phase.ip != x)
  {
    hide Aged, CacheLookup, FreeSlot, Learn;
    if !IsRouted(cfg, f) && !IsReply(cfg, f) {
      OtherFrames(cfg, st, f, now);
    }
    hide HandleFrame, NextHop;
  }

  lemma OtherFrames(cfg: Config, st: State, f: Frame, now: int)
    requires WellFormedConfig(cfg) && WellFormed(cfg, f) && AllRoutable(cfg, st.pending) && !IsRouted(cfg, f)
        && !IsReply(cfg, f)
    ensures HandleFrame(cfg, st, f, now).pending == st.pending
  {
    hide Withhold, Learn, CacheLookup, RouteOf;
  }

  lemma ContinueAged(cfg: Config, s: System, x: Ip, n: nat, born: nat)
    requires WellFormedConfig(cfg) && SystemInv(cfg, s) && AllRoutable(cfg, s.st.pending) && n <= MAX_SENT
    requires Aged(s.st.pending, x, n, born) && (s.phase.Learned? ==> s.phase.ip != x)
    ensures var next := Continue(cfg, s);
            Aged(next.st.pending, x, n, born) && !next.phase.Learned?
  {
    hide Aged, Inv, ReleaseAll, PhaseOk, Open, Removed;
    var pending := s.st.pending;
    match s.phase
    case Idle =>
    case Missed(f, hop, iface) =>
    case NoRequest(f, hop, iface) =>
      OpenAged(s.st, f, hop, iface, x, n, born);
    case FoundRequest(f, hop, iface, sent, b) =>
      if PendingLookup(pending, hop).Some? {
        UpdateAged(pending, PendingLookup(pending, hop).value, f, x, n, born);
      }
    case FoundEntry(f, hop, iface, slot) =>
    case Learned(ip, mac) =>
      if PendingLookup(pending, ip).Some? {
        RemovedAged(pending, PendingLookup(pending, ip).value, x, n, born);
      }
  }

  lemma OpenAged(st: State, f: Frame, hop: Ip, iface: nat, x: Ip, n: nat, born: nat)
    requires n <= MAX_SENT && Aged(st.pending, x, n, born)
    ensures Aged(Open(st, f, hop, iface).pending, x, n, born)
  {
    var k :| 0 <= k < |st.pending| && st.pending[k].ip == x && st.pending[k].timesSent == n
        && st.pending[k].born == born;
    assert Open(st, f, hop, iface).pending[k] == st.pending[k];
  }

  lemma UpdateAged(pending: seq<Pending>, j: nat, f: Frame, x: Ip, n: nat, born: nat)
    requires n <= MAX_SENT && Aged(pending, x, n, born) && j < |pending|
    ensures Aged(pending[j := pending[j].(withheld := pending[j].withheld + [f])], x, n, born)
  {
    var after := pending[j := pending[j].(withheld := pending[j].withheld + [f])];
    var k :| 0 <= k < |pending| && pending[k].ip == x && pending[k].timesSent == n && pending[k].born == born;
    assert after[k].ip == x && after[k].timesSent == n && after[k].born == born;
  }

  lemma RemovedAged(pending: seq<Pending>, d: nat, x: Ip, n: nat, born: nat)
    requires n <= MAX_SENT && Aged(pending, x, n, born) && d < |pending| && pending[d].ip != x
    ensures Aged(Removed(pending, d), x, n, born)
  {
    var k :| 0 <= k < |pending| && pending[k].ip == x && pending[k].timesSent == n && pending[k].born == born;
    assert Removed(pending, d)[if k < d then k else k - 1] == pending[k];
  }

  lemma NextAged(cfg: Config, s: System, m: Move, x: Ip, n: nat, born: nat)
    requires WellFormedConfig(cfg) && SystemInv(cfg, s) && GoodMove(cfg, m) && !s.st.stopped && n <= MAX_SENT
    requires Aged(s.st.pending, x, n, born) && (s.phase.Learned? ==> s.phase.ip != x)
    requires m.Arrive? ==> !Answers(cfg, Arrival(m.frame, m.now), x)
    ensures var next := Next(cfg, s, m);
            && Aged(next.st.pending, x, if m.ArpRound? then n + 1 else n, born)
            && (next.phase.Learned? ==> next.phase.ip != x)
  {
    InvRoutable(cfg, s.st);
    hide Aged, Begin, Continue, Answers;
    match m
    case Arrive(f, now) => BeginAged(cfg, s.st, f, now, x, n, born);
    case Resume => ContinueAged(cfg, s, x, n, born);
    case ArpRound(now) => TickAges(s.st.pending, x, n, born);
  }

  lemma {:induction false} StoppedForever(cfg: Config, s: System, ms: seq<Move>)
    requires WellFormedConfig(cfg) && SystemInv(cfg, s) && GoodMoves(cfg, ms) && s.st.stopped
    ensures Interleave(cfg, s, ms) == s
    decreases |ms|
  {
    if ms != [] {
      NextKeeps(cfg, s, ms[0]);
      assert Next(cfg, s, ms[0]) == s;
      hide SystemInv, Next;
      StoppedForever(cfg, s, ms[1..]);
    }
  }

  lemma NotStopped(cfg: Config, s: System, ms: seq<Move>)
    requires WellFormedConfig(cfg) && SystemInv(cfg, s) && GoodMoves(cfg, ms) && !Interleave(cfg, s, ms).st.stopped
    ensures !s.st.stopped
  {
    if s.st.stopped { StoppedForever(cfg, s, ms); }
  }

  /** The next round, whenever it comes, removes the request. */
  ghost predicate GoneNext(cfg: Config, s: System, x: Ip)
    requires WellFormedConfig(cfg) && SystemInv(cfg, s)
  {
    forall now :: Gone(Next(cfg, s, ArpRound(now)).st.pending, x)
  }

  /**
   While no answer comes, a request grows older by one with each round, wherever the rounds
   fall: it is pending while it was sent at most five times and gone with the next round.
   */
  lemma {:induction false} RequestAges(cfg: Config, s: System, ms: seq<Move>, x: Ip, n: nat, born: nat)
    requires WellFormedConfig(cfg) && SystemInv(cfg, s) && GoodMoves(cfg, ms) && NoAnswer(cfg, s, ms, x)
    requires Aged(s.st.pending, x, n, born) && n + RoundsIn(ms) <= MAX_SENT && !Interleave(cfg, s, ms).st.stopped
    ensures var end := Interleave(cfg, s, ms);
            && Aged(end.st.pending, x, n + RoundsIn(ms), born)
            && (n + RoundsIn(ms) == MAX_SENT ==> GoneNext(cfg, end, x))
    decreases |ms|
  {
    hide *;
    NotStopped(cfg, s, ms);
    if ms == [] {
      LastRound(cfg, s, ms, x, n, born);
    } else {
      FirstMove(cfg, s, ms, x);
      NextAged(cfg, s, ms[0], x, n, born);
      var next := Next(cfg, s, ms[0]);
      StillNoAnswer(cfg, s, next, ms, x);
      RequestAges(cfg, next, ms[1..], x, if ms[0].ArpRound? then n + 1 else n, born);
    }
  }

  lemma FirstMove(cfg: Config, s: System, ms: seq<Move>, x: Ip)
    requires WellFormedConfig(cfg) && SystemInv(cfg, s) && GoodMoves(cfg, ms) && ms != [] && NoAnswer(cfg, s, ms, x)
    ensures GoodMove(cfg, ms[0]) && (ms[0].Arrive? ==> WellFormed(cfg, ms[0].frame)) && GoodMoves(cfg, ms[1..])
    ensures SystemInv(cfg, Next(cfg, s, ms[0]))
        && Interleave(cfg, s, ms) == Interleave(cfg, Next(cfg, s, ms[0]), ms[1..])
    ensures RoundsIn(ms) == (if ms[0].ArpRound? then 1 else 0) + RoundsIn(ms[1..])
    ensures s.phase.Learned? ==> s.phase.ip != x
    ensures ms[0].Arrive? ==> !Answers(cfg, Arrival(ms[0].frame, ms[0].now), x)
  {
    NextKeeps(cfg, s, ms[0]);
    hide SystemInv, Next, Answers;
  }

  lemma StillNoAnswer(cfg: Config, s: System, next: System, ms: seq<Move>, x: Ip)
    requires GoodMoves(cfg, ms) && ms != [] && NoAnswer(cfg, s, ms, x) && (next.phase.Learned? ==> next.phase.ip != x)
    ensures GoodMoves(cfg, ms[1..]) && NoAnswer(cfg, next, ms[1..], x)
  {
    hide Answers;
  }

  lemma LastRound(cfg: Config, s: System, ms: seq<Move>, x: Ip, n: nat, born: nat)
    requires WellFormedConfig(cfg) && SystemInv(cfg, s) && !s.st.stopped && Aged(s.st.pending, x, n, born)
        && n <= MAX_SENT && ms == []
    ensures RoundsIn(ms) == 0 && Interleave(cfg, s, ms) == s
    ensures n == MAX_SENT ==> GoneNext(cfg, s, x)
  {
    TickAges(s.st.pending, x, n, born);
    hide SystemInv, Gone;
  }
}
