/**
 The frame handler of src/c/router.c as the sequence of its locked sections, with rounds of the
 ARP thread between any two of them.

 The handler looks a next hop up in the cache, then in the pending requests, then adds to what
 it found, and gives `lock_arp` up in between. Everything the atomic steps keep is still kept,
 but for one thing: a frame is lost if its request gives up between the lookup and the addition.
 */
module ArpInterleaving {
  import opened Wrappers
  import opened LongestMatch
  import opened Packets
  import opened RouterSpec
  import opened RouterProofs
  import opened RouterRuns

  /** What the handler holds in its local variables while it is without the lock. */
  datatype Phase =
    | Idle
    | Missed(frame: Frame, hop: Ip, iface: nat)
    | NoRequest(frame: Frame, hop: Ip, iface: nat)
    | FoundRequest(frame: Frame, hop: Ip, iface: nat, sent: nat, born: nat)
    | FoundEntry(frame: Frame, hop: Ip, iface: nat, slot: nat)
    | Learned(ip: Ip, mac: Mac)

  /** `rounds` counts the ARP rounds since the handler last held the lock. */
  datatype System = System(st: State, phase: Phase, rounds: nat)

  predicate IsRouted(cfg: Config, f: Frame)
    requires WellFormed(cfg, f)
  {
    && IsIp(f.raw) && !(exists i :: 0 <= i < |cfg.ifaces| && cfg.ifaces[i].ip == IpDst(f.raw))
    && NextHop(cfg, f).Some?
  }

  predicate IsReply(cfg: Config, f: Frame)
    requires WellFormed(cfg, f)
  {
    !IsIp(f.raw) && IsArp(f.raw) && Load(f.raw, 38) == cfg.ifaces[f.inIface].ip && ArpOp(f.raw) == 2
  }

  /** The handler up to the first time it gives the lock up, or to its end. */
  function Begin(cfg: Config, st: State, f: Frame, now: int): System
    requires WellFormedConfig(cfg) && WellFormed(cfg, f) && AllRoutable(cfg, st.pending)
  {
    if IsRouted(cfg, f) then
      var hop, iface := NextHop(cfg, f).value, OutIface(cfg, f);
      match CacheLookup(st.cache, hop)
      case None => System(st, Missed(f, hop, iface), 0)
      case Some(c) => System(st, FoundEntry(f, hop, iface, c), 0)
    else if IsReply(cfg, f) then
      var ip, mac: Mac := Load(f.raw, 28), f.raw[22..28];
      var st := st.(reports := st.reports + {(ip, mac)});
      match FreeSlot(st.cache)
      case None => System(st.(stopped := true), Idle, 0)
      case Some(c) => System(st.(cache := st.cache[c := CacheEntry(true, ip, mac, now)]), Learned(ip, mac), 0)
    else System(HandleFrame(cfg, st, f, now), Idle, 0)
  }

  function Open(st: State, f: Frame, hop: Ip, iface: nat): State {
    st.(trace := st.trace + [ArpRequest(iface, hop)],
        pending := st.pending + [Pending(hop, iface, 1, [f], |st.trace|)],
        held := st.held + [f])
  }

  /** The next locked section of the handler. */
  function Continue(cfg: Config, s: System): System
    requires WellFormedConfig(cfg) && AllRoutable(cfg, s.st.pending)
    requires s.phase.FoundEntry? ==>
               s.phase.slot < |s.st.cache| && WellFormed(cfg, s.phase.frame) && IsIp(s.phase.frame.raw)
  {
    var st := s.st;
    match s.phase
    case Idle => s
    case Missed(f, hop, iface) =>
      (match PendingLookup(st.pending, hop)
       case None => System(st, NoRequest(f, hop, iface), 0)
       case Some(k) => System(st, FoundRequest(f, hop, iface, st.pending[k].timesSent, st.pending[k].born), 0))
    case NoRequest(f, hop, iface) => System(Open(st, f, hop, iface), Idle, 0)
    case FoundRequest(f, hop, iface, sent, born) =>
      (match PendingLookup(st.pending, hop)
       case None => System(st, Idle, 0)
       case Some(k) =>
         var r := st.pending[k];
         System(st.(pending := st.pending[k := r.(withheld := r.withheld + [f])], held := st.held + [f]), Idle, 0))
    case FoundEntry(f, hop, iface, slot) =>
      var mac := st.cache[slot].mac;
      var o := if Ttl(f.raw) == 1 then Icmp(f, TIME_EXCEEDED, 0, false) else Forward(f, iface, mac, false);
      System(Send(st, o), Idle, 0)
    case Learned(ip, mac) =>
      (match PendingLookup(st.pending, ip)
       case None => System(st, Idle, 0)
       case Some(k) =>
         var out := ReleaseAll(cfg, st.pending[k].withheld, mac);
         System(st.(trace := st.trace + out, pending := Removed(st.pending, k)), Idle, 0))
  }

  datatype Move = Arrive(frame: Frame, now: int) | Resume | ArpRound(now: int)

  /** What the handler remembers is still true, or has changed only as the rounds since explain. */
  ghost predicate PhaseOk(cfg: Config, s: System)
    requires WellFormedConfig(cfg)
  {
    match s.phase
    case Idle => true
    case Missed(f, hop, iface) => Bound(cfg, f, hop, iface)
    case NoRequest(f, hop, iface) => Bound(cfg, f, hop, iface) && Gone(s.st.pending, hop)
    case FoundRequest(f, hop, iface, sent, born) =>
      Bound(cfg, f, hop, iface) && 1 <= sent <= MAX_SENT && Aged(s.st.pending, hop, sent + s.rounds, born)
    case FoundEntry(f, hop, iface, slot) =>
      Bound(cfg, f, hop, iface) && slot < |s.st.cache| && s.st.cache[slot].ip == hop
          && (hop, s.st.cache[slot].mac) in s.st.reports
    case Learned(ip, mac) => (ip, mac) in s.st.reports
  }

  ghost predicate Bound(cfg: Config, f: Frame, hop: Ip, iface: nat)
    requires WellFormedConfig(cfg)
  {
    ForHop(cfg, f, hop) && iface == OutIface(cfg, f)
  }

  /** The request that was found has been sent n times if that is at most five, and has given up otherwise. */
  ghost predicate Aged(pending: seq<Pending>, hop: Ip, n: nat, born: nat) {
    if n > MAX_SENT then Gone(pending, hop)
    else exists k :: 0 <= k < |pending| && pending[k].ip == hop && pending[k].timesSent == n && pending[k].born == born
  }

  ghost predicate SystemInv(cfg: Config, s: System)
    requires WellFormedConfig(cfg)
  {
    Inv(cfg, s.st) && PhaseOk(cfg, s)
  }

  predicate GoodMove(cfg: Config, m: Move) {
    m.Arrive? ==> WellFormed(cfg, m.frame)
  }

  predicate GoodMoves(cfg: Config, ms: seq<Move>) {
    forall i :: 0 <= i < |ms| ==> GoodMove(cfg, ms[i])
  }

  /** A frame is taken up only when the previous one is done with; a stopped router does nothing more. */
  ghost function Next(cfg: Config, s: System, m: Move): (t: System)
    requires WellFormedConfig(cfg) && SystemInv(cfg, s) && GoodMove(cfg, m)
  {
    InvRoutable(cfg, s.st);
    if s.st.stopped then s
    else match m
      case Arrive(f, now) => if s.phase.Idle? then Begin(cfg, s.st, f, now) else s
      case Resume => Continue(cfg, s)
      case ArpRound(now) => System(Tick(s.st, now), s.phase, s.rounds + 1)
  }

  lemma BeginKeeps(cfg: Config, st: State, f: Frame, now: int)
    requires WellFormedConfig(cfg) && WellFormed(cfg, f) && AllRoutable(cfg, st.pending) && Inv(cfg, st)
    ensures SystemInv(cfg, Begin(cfg, st, f, now))
  {
    if IsRouted(cfg, f) {
      if CacheLookup(st.cache, NextHop(cfg, f).value).Some? {
        var c := CacheLookup(st.cache, NextHop(cfg, f).value).value;
        assert (st.cache[c].ip, st.cache[c].mac) in st.reports;
      }
    } else if IsReply(cfg, f) {
      var ip, mac: Mac := Load(f.raw, 28), f.raw[22..28];
      var slot := if FreeSlot(st.cache).Some? then FreeSlot(st.cache).value else 0;
      CacheKeeps(cfg, st, ip, mac, slot, now);
      hide Inv;
      if FreeSlot(st.cache).None? {
        StoppedKeeps(cfg, st.(reports := st.reports + {(ip, mac)}));
      }
    } else {
      hide Inv;
      if IsIp(f.raw) {
        HandleIpKeeps(cfg, st, f);
      } else if IsArp(f.raw) {
        HandleArpKeeps(cfg, st, f, now);
      }
    }
  }

  lemma ContinueKeeps(cfg: Config, s: System)
    requires WellFormedConfig(cfg) && SystemInv(cfg, s) && AllRoutable(cfg, s.st.pending)
    ensures SystemInv(cfg, Continue(cfg, s))
  {
    var st := s.st;
    match s.phase
    case Idle =>
    case Missed(f, hop, iface) => LookupKeeps(cfg, s);
    case NoRequest(f, hop, iface) =>
      LookupGone(st.pending, hop);
      hide Inv;
      assert Open(st, f, hop, iface) == Withhold(st, f, hop, iface);
      OpenKeeps(cfg, st, f, hop, iface);
    case FoundRequest(f, hop, iface, sent, born) =>
      hide Inv;
      if PendingLookup(st.pending, hop).Some? {
        JoinKeeps(cfg, st, f, hop, iface);
      }
    case FoundEntry(f, hop, iface, slot) =>
      hide Inv;
      IcmpKeeps(cfg, st, f, TIME_EXCEEDED, 0);
      if Ttl(f.raw) != 1 {
        SendKeeps(cfg, st, Forward(f, iface, st.cache[slot].mac, false));
      }
    case Learned(ip, mac) =>
      hide Inv;
      if PendingLookup(st.pending, ip).Some? {
        SettleKeeps(cfg, st, PendingLookup(st.pending, ip).value, mac);
      }
  }

  lemma LookupKeeps(cfg: Config, s: System)
    requires WellFormedConfig(cfg) && SystemInv(cfg, s) && AllRoutable(cfg, s.st.pending) && s.phase.Missed?
    ensures PhaseOk(cfg, Continue(cfg, s))
  {
    var k := PendingLookup(s.st.pending, s.phase.hop);
    LookupGone(s.st.pending, s.phase.hop);
    if k.Some? {
      assert HopOk(cfg, s.st.pending[k.value]);
    }
  }

  lemma LookupGone(pending: seq<Pending>, x: Ip)
    ensures Gone(pending, x) <==> PendingLookup(pending, x).None?
  {
  }

  lemma {:induction false} TickKeepsGone(pending: seq<Pending>, x: Ip)
    requires Gone(pending, x)
    ensures Gone(TickKeep(pending), x)
  {
    if pending != [] {
      assert pending[0].ip != x;
      TickKeepsGone(pending[1..], x);
    }
  }

  lemma RoundKeeps(cfg: Config, s: System, now: int)
    requires WellFormedConfig(cfg) && SystemInv(cfg, s)
    ensures SystemInv(cfg, System(Tick(s.st, now), s.phase, s.rounds + 1))
  {
    TickKeeps(cfg, s.st, now);
    match s.phase
    case Idle =>
    case Missed(f, hop, iface) =>
    case NoRequest(f, hop, iface) => TickKeepsGone(s.st.pending, hop);
    case FoundRequest(f, hop, iface, sent, born) => TickAges(s.st.pending, hop, sent + s.rounds, born);
    case FoundEntry(f, hop, iface, slot) =>
    case Learned(ip, mac) =>
  }

  lemma TickAges(pending: seq<Pending>, hop: Ip, n: nat, born: nat)
    requires Unique(pending) && Aged(pending, hop, n, born)
    ensures Aged(TickKeep(pending), hop, n + 1, born)
  {
    if n > MAX_SENT {
      TickKeepsGone(pending, hop);
    } else {
      var k :| 0 <= k < |pending| && pending[k].ip == hop && pending[k].timesSent == n && pending[k].born == born;
      if n == MAX_SENT { TickGone(pending, k); } else { TickAged(pending, k); }
    }
  }

  lemma {:induction false} TickAged(pending: seq<Pending>, k: nat)
    requires k < |pending| && pending[k].timesSent < MAX_SENT
    ensures Aged(TickKeep(pending), pending[k].ip, pending[k].timesSent + 1, pending[k].born)
  {
    var r, rest, after := pending[0], pending[1..], TickKeep(pending);
    var n := if r.timesSent < MAX_SENT then 1 else 0;
    if k == 0 {
      assert after[0] == r.(timesSent := r.timesSent + 1);
    } else {
      TickAged(rest, k - 1);
      var j :| 0 <= j < |TickKeep(rest)| && TickKeep(rest)[j].ip == pending[k].ip
               && TickKeep(rest)[j].timesSent == pending[k].timesSent + 1 && TickKeep(rest)[j].born == pending[k].born;
      assert after[j + n] == TickKeep(rest)[j];
    }
  }

  /** Every move keeps the whole invariant of the atomic router, wherever the rounds fall. */
  lemma NextKeeps(cfg: Config, s: System, m: Move)
    requires WellFormedConfig(cfg) && SystemInv(cfg, s) && GoodMove(cfg, m)
    ensures SystemInv(cfg, Next(cfg, s, m))
  {
    InvRoutable(cfg, s.st);
    match m
    case Arrive(f, now) => BeginKeeps(cfg, s.st, f, now);
    case Resume => ContinueKeeps(cfg, s);
    case ArpRound(now) => RoundKeeps(cfg, s, now);
  }

  /** The state after a run in which moves of the two threads are mixed at will. */
  ghost function Interleave(cfg: Config, s: System, ms: seq<Move>): (t: System)
    requires WellFormedConfig(cfg) && SystemInv(cfg, s) && GoodMoves(cfg, ms)
    ensures SystemInv(cfg, t)
    decreases |ms|
  {
    if ms == [] then s
    else
      NextKeeps(cfg, s, ms[0]);
      Interleave(cfg, Next(cfg, s, ms[0]), ms[1..])
  }

  /**
   In every state of every mixed run, pending requests have distinct addresses, and each was
   sent between one and five times, which is how often its ARP request went out since it was added.
   */
  lemma PendingDistinct(cfg: Config, st: State, ms: seq<Move>, i: nat, j: nat)
    requires WellFormedConfig(cfg) && Started(st) && GoodMoves(cfg, ms)
    ensures SystemInv(cfg, System(st, Idle, 0))
    ensures var end := Interleave(cfg, System(st, Idle, 0), ms).st;
            && (i < j < |end.pending| ==> end.pending[i].ip != end.pending[j].ip)
            && (i < |end.pending| ==>
                  var r := end.pending[i];
                  && 1 <= r.timesSent <= MAX_SENT && r.born <= |end.trace|
                  && RequestsFor(end.trace[r.born..], r.ip) == r.timesSent)
  {
    StartKeeps(cfg, st);
    var end := Interleave(cfg, System(st, Idle, 0), ms).st;
    if i < |end.pending| {
      assert HopOk(cfg, end.pending[i]) && CountOk(end.trace, end.pending[i]);
    }
  }

  /**
   A frame about to be added to a request that was found joins it, and that very request, if
   and only if the request, with the rounds since, was sent at most five times; otherwise the
   frame is nowhere.
   */
  lemma JoinsInTime(cfg: Config, s: System)
    requires WellFormedConfig(cfg) && SystemInv(cfg, s) && s.phase.FoundRequest? && !s.st.stopped
    ensures var after := Next(cfg, s, Resume).st;
            && (s.phase.sent + s.rounds <= MAX_SENT <==> after.held == s.st.held + [s.phase.frame])
            && (s.phase.sent + s.rounds > MAX_SENT ==> after == s.st)
            && (s.phase.sent + s.rounds <= MAX_SENT ==>
                  exists k :: 0 <= k < |after.pending| && after.pending[k].born == s.phase.born
                    && after.pending[k].ip == s.phase.hop && s.phase.frame in after.pending[k].withheld)
  {
    InvRoutable(cfg, s.st);
    LookupGone(s.st.pending, s.phase.hop);
    if s.phase.sent + s.rounds <= MAX_SENT {
      JoinsFound(s.st.pending, s.phase.hop, s.phase.sent + s.rounds, s.phase.born, s.phase.frame);
    }
    assert |s.st.held + [s.phase.frame]| == |s.st.held| + 1;
    hide Inv;
  }

  /** The lookup finds the very request, and the frame goes to its end. */
  lemma JoinsFound(pending: seq<Pending>, hop: Ip, n: nat, born: nat, f: Frame)
    requires Unique(pending) && n <= MAX_SENT && Aged(pending, hop, n, born)
    ensures PendingLookup(pending, hop).Some?
    ensures var k := PendingLookup(pending, hop).value;
            var after := pending[k := pending[k].(withheld := pending[k].withheld + [f])];
            after[k].born == born && after[k].ip == hop && f in after[k].withheld
  {
    var k :| 0 <= k < |pending| && pending[k].ip == hop && pending[k].timesSent == n && pending[k].born == born;
    assert PendingLookup(pending, hop) == Some(k);
  }

  /** Without a round in between, the sections add up to the atomic step. */
  lemma Uninterrupted(cfg: Config, st: State, f: Frame, now: int)
    requires WellFormedConfig(cfg) && WellFormed(cfg, f) && Inv(cfg, st) && !st.stopped
    ensures AllRoutable(cfg, st.pending)
    ensures var s := System(st, Idle, 0);
            var one := Next(cfg, s, Arrive(f, now));
            SystemInv(cfg, one)
            && var two := Next(cfg, one, Resume);
            SystemInv(cfg, two) && Next(cfg, two, Resume) == System(Step(cfg, st, Arrival(f, now)), Idle, 0)
  {
    InvRoutable(cfg, st);
    var s := System(st, Idle, 0);
    var one := Next(cfg, s, Arrive(f, now));
    NextKeeps(cfg, s, Arrive(f, now));
    NextKeeps(cfg, one, Resume);
    if IsRouted(cfg, f) {
      RoutedSections(cfg, st, f, now);
    } else if IsReply(cfg, f) {
      ReplySections(cfg, st, f, now);
    }
    hide Inv, PhaseOk, IsRouted, IsReply, HandleFrame;
  }

  lemma RoutedSections(cfg: Config, st: State, f: Frame, now: int)
    requires WellFormedConfig(cfg) && WellFormed(cfg, f) && AllRoutable(cfg, st.pending) && IsRouted(cfg, f)
    ensures var one := Begin(cfg, st, f, now);
            one.st == st && Continue(cfg, Continue(cfg, one)) == System(HandleFrame(cfg, st, f, now), Idle, 0)
  {
    hide CacheLookup, PendingLookup, NextHop, RouteOf;
  }

  lemma ReplySections(cfg: Config, st: State, f: Frame, now: int)
    requires WellFormedConfig(cfg) && WellFormed(cfg, f) && AllRoutable(cfg, st.pending) && IsReply(cfg, f)
        && !IsRouted(cfg, f)
    ensures var one := Begin(cfg, st, f, now);
            var all := System(HandleFrame(cfg, st, f, now), Idle, 0);
            if one.st.stopped && !st.stopped then one == all else Continue(cfg, one) == all && Continue(cfg, all) == all
  {
    hide FreeSlot, PendingLookup;
  }
}
