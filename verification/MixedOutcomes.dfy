/**
 The results of RouterOutcomes for the handler in its locked sections, with any number of ARP
 rounds between two of them.
 */
module MixedOutcomes {
  import opened Wrappers
  import opened LongestMatch
  import opened Packets
  import opened RouterSpec
  import opened RouterProofs
  import opened RouterRuns
  import opened RouterFates
  import opened RouterOutcomes
  import opened ArpInterleaving
  import opened ArpRuns

  function RoundsAt(ts: seq<int>): (ms: seq<Move>)
    ensures |ms| == |ts| && forall i :: 0 <= i < |ms| ==> ms[i].ArpRound?
  {
    seq(|ts|, i requires 0 <= i < |ts| => ArpRound(ts[i]))
  }

  /** The state after these rounds alone. */
  function Rounded(st: State, ts: seq<int>): State
    decreases |ts|
  {
    if ts == [] then st else Rounded(Tick(st, ts[0]), ts[1..])
  }

  lemma {:induction false} RoundsPass(cfg: Config, s: System, ts: seq<int>)
    requires WellFormedConfig(cfg) && SystemInv(cfg, s) && !s.st.stopped
    ensures GoodMoves(cfg, RoundsAt(ts))
    ensures Interleave(cfg, s, RoundsAt(ts)) == System(Rounded(s.st, ts), s.phase, s.rounds + |ts|)
    ensures !Rounded(s.st, ts).stopped
    decreases |ts|
  {
    hide *;
    if ts == [] {
      NoRounds(cfg, s);
    } else {
      OneRoundAt(cfg, s, ts);
      var next := System(Tick(s.st, ts[0]), s.phase, s.rounds + 1);
      RoundsPass(cfg, next, ts[1..]);
      InterleaveMore(cfg, s, ArpRound(ts[0]), RoundsAt(ts[1..]));
    }
  }

  lemma NoRounds(cfg: Config, s: System)
    requires WellFormedConfig(cfg) && SystemInv(cfg, s)
    ensures RoundsAt([]) == [] && GoodMoves(cfg, []) && Interleave(cfg, s, []) == s && Rounded(s.st, []) == s.st
  {
  }

  lemma OneRoundAt(cfg: Config, s: System, ts: seq<int>)
    requires WellFormedConfig(cfg) && SystemInv(cfg, s) && !s.st.stopped && ts != []
    ensures var next := System(Tick(s.st, ts[0]), s.phase, s.rounds + 1);
            && GoodMove(cfg, ArpRound(ts[0])) && Next(cfg, s, ArpRound(ts[0])) == next
            && SystemInv(cfg, next) && !next.st.stopped
    ensures RoundsAt(ts) == [ArpRound(ts[0])] + RoundsAt(ts[1..])
    ensures Rounded(s.st, ts) == Rounded(Tick(s.st, ts[0]), ts[1..])
  {
    RoundKeeps(cfg, s, ts[0]);
    NotStoppedByRound(s.st, ts[0]);
    hide SystemInv, Tick, Rounded;
    assert Rounded(s.st, ts) == Rounded(Tick(s.st, ts[0]), ts[1..]) by { FirstRounded(s.st, ts); }
  }

  lemma FirstRounded(st: State, ts: seq<int>)
    requires ts != []
    ensures Rounded(st, ts) == Rounded(Tick(st, ts[0]), ts[1..])
  {
    hide Tick;
  }

  lemma NotStoppedByRound(st: State, now: int)
    ensures Tick(st, now).stopped == st.stopped
  {
  }

  /** One move of the handler, then rounds. */
  lemma MoveThenRounds(cfg: Config, s: System, m: Move, ts: seq<int>, ms: seq<Move>) returns (u: System)
    requires WellFormedConfig(cfg) && SystemInv(cfg, s) && GoodMove(cfg, m) && GoodMoves(cfg, ms)
    requires !Next(cfg, s, m).st.stopped
    ensures var t := Next(cfg, s, m); u == System(Rounded(t.st, ts), t.phase, t.rounds + |ts|) && !u.st.stopped
    ensures SystemInv(cfg, u)
    ensures GoodMoves(cfg, [m] + RoundsAt(ts) + ms)
    ensures Interleave(cfg, s, [m] + RoundsAt(ts) + ms) == Interleave(cfg, u, ms)
  {
    hide *;
    OneMove(cfg, s, m);
    NextKeeps(cfg, s, m);
    var t := Next(cfg, s, m);
    RoundsPass(cfg, t, ts);
    u := Interleave(cfg, t, RoundsAt(ts));
    InterleaveConcat(cfg, t, RoundsAt(ts), ms);
    InterleaveMore(cfg, s, m, RoundsAt(ts) + ms);
    assert [m] + RoundsAt(ts) + ms == [m] + (RoundsAt(ts) + ms);
  }

  // ----- the first section

  /** Whatever is no reply and has no route by a next hop is dealt with in one section, as in the atomic step. */
  lemma DoneAtOnce(cfg: Config, st: State, f: Frame, now: int)
    requires WellFormedConfig(cfg) && WellFormed(cfg, f) && Inv(cfg, st) && !st.stopped
    requires forall x, mac :: !Reports(cfg, Arrival(f, now), x, mac)
    requires IsIp(f.raw) ==> ForRouter(cfg, f) || Unroutable(cfg, f)
    ensures AllRoutable(cfg, st.pending)
    ensures Next(cfg, System(st, Idle, 0), Arrive(f, now)) == System(Step(cfg, st, Arrival(f, now)), Idle, 0)
  {
    InvRoutable(cfg, st);
    if IsIp(f.raw) { NoHop(cfg, f); }
    hide HandleFrame, NextHop, Unroutable, Inv;
    if IsReply(cfg, f) {
      ReplyReports(cfg, f, now);
      assert false;
    }
  }

  lemma ReplyReports(cfg: Config, f: Frame, now: int)
    requires WellFormed(cfg, f) && IsReply(cfg, f)
    ensures Reports(cfg, Arrival(f, now), Load(f.raw, 28), f.raw[22..28])
  {
  }

  lemma LooksUp(cfg: Config, st: State, f: Frame, now: int, k: nat, x: Ip)
    requires WellFormedConfig(cfg) && Inv(cfg, st) && !st.stopped && Datagram(cfg, f)
    requires !ForRouter(cfg, f) && Goes(cfg, f, k, x)
    ensures k < |cfg.table|
    ensures var t := Next(cfg, System(st, Idle, 0), Arrive(f, now));
            && t.st == st
            && (Uncached(st.cache, x) ==> t == System(st, Missed(f, x, cfg.table[k].iface), 0))
            && forall c: nat :: Cached(st.cache, x, c) ==> t == System(st, FoundEntry(f, x, cfg.table[k].iface, c), 0)
  {
    InvRoutable(cfg, st);
    Matching(cfg, f, k);
    RouteFound(cfg, f);
    RouteGives(cfg, f);
    EntryFound(st.cache, x);
    assert IsRouted(cfg, f);
    hide Inv, NextHop, RouteOf, Goes, Cached, Uncached, IsRouted;
  }

  lemma {:induction false} RoundedSlot(st: State, ts: seq<int>, c: nat)
    requires c < |st.cache|
    ensures |Rounded(st, ts).cache| == |st.cache| && Rounded(st, ts).cache[c].mac == st.cache[c].mac
    decreases |ts|
  {
    if ts != [] {
      assert Tick(st, ts[0]).cache[c].mac == st.cache[c].mac;
      RoundedSlot(Tick(st, ts[0]), ts[1..], c);
    }
  }

  lemma EntrySends(cfg: Config, s: System)
    requires WellFormedConfig(cfg) && SystemInv(cfg, s) && !s.st.stopped && s.phase.FoundEntry?
    ensures Datagram(cfg, s.phase.frame) && s.phase.slot < |s.st.cache|
    ensures var f, t := s.phase.frame, Next(cfg, s, Resume);
            && t.phase.Idle?
            && (Ttl(f.raw) == 1 ==> Says(s.st, t.st, Icmp(f, TIME_EXCEEDED, 0, false)))
            && (Ttl(f.raw) != 1 ==> Says(s.st, t.st, Forward(f, s.phase.iface, s.st.cache[s.phase.slot].mac, false)))
  {
    InvRoutable(cfg, s.st);
    hide Inv;
  }

  /**
   A datagram whose next hop is cached when it comes in leaves for the cached address, or
   expires, however many rounds pass before the handler resumes.
   */
  lemma ForwardedInTwoSections(cfg: Config, st: State, f: Frame, now: int, ts: seq<int>, k: nat, x: Ip, c: nat)
    requires WellFormedConfig(cfg) && Inv(cfg, st) && !st.stopped && Datagram(cfg, f)
    requires !ForRouter(cfg, f) && Goes(cfg, f, k, x) && Cached(st.cache, x, c)
    ensures k < |cfg.table| && GoodMoves(cfg, [Arrive(f, now)] + RoundsAt(ts) + [Resume])
    ensures var end := Interleave(cfg, System(st, Idle, 0), [Arrive(f, now)] + RoundsAt(ts) + [Resume]);
            && end.phase.Idle?
            && (Ttl(f.raw) == 1 ==> Says(Rounded(st, ts), end.st, Icmp(f, TIME_EXCEEDED, 0, false)))
            && (Ttl(f.raw) != 1 ==>
                  Says(Rounded(st, ts), end.st, Forward(f, cfg.table[k].iface, st.cache[c].mac, false)))
  {
    var s := System(st, Idle, 0);
    LooksUp(cfg, st, f, now, k, x);
    ResumeGood(cfg);
    assert c < |st.cache|;
    hide *;
    IdleOk(cfg, st);
    ArriveGood(cfg, f, now);
    var u := MoveThenRounds(cfg, s, Arrive(f, now), ts, [Resume]);
    OneMove(cfg, u, Resume);
    EntrySends(cfg, u);
    RoundedSlot(st, ts, c);
  }

  lemma IdleOk(cfg: Config, st: State)
    requires WellFormedConfig(cfg) && Inv(cfg, st)
    ensures SystemInv(cfg, System(st, Idle, 0))
  {
  }

  lemma ResumeGood(cfg: Config)
    ensures GoodMove(cfg, Resume) && GoodMoves(cfg, [Resume])
  {
  }

  lemma ArriveGood(cfg: Config, f: Frame, now: int)
    requires Datagram(cfg, f)
    ensures GoodMove(cfg, Arrive(f, now))
  {
  }

  // ----- a datagram that has to wait

  lemma MissLooks(cfg: Config, s: System)
    requires WellFormedConfig(cfg) && SystemInv(cfg, s) && !s.st.stopped && s.phase.Missed?
    ensures var f, x, iface := s.phase.frame, s.phase.hop, s.phase.iface;
            var t := Next(cfg, s, Resume);
            && t.st == s.st
            && (Gone(s.st.pending, x) ==> t == System(s.st, NoRequest(f, x, iface), 0))
            && (forall j :: 0 <= j < |s.st.pending| && s.st.pending[j].ip == x ==>
                  t == System(s.st, FoundRequest(f, x, iface, s.st.pending[j].timesSent, s.st.pending[j].born), 0))
  {
    InvRoutable(cfg, s.st);
    assert Unique(s.st.pending);
    hide Inv, PhaseOk;
  }

  lemma NoRequestOpens(cfg: Config, s: System)
    requires WellFormedConfig(cfg) && SystemInv(cfg, s) && !s.st.stopped && s.phase.NoRequest?
    ensures var t := Next(cfg, s, Resume);
            t.phase.Idle? && Joins(s.st, t.st, s.phase.frame, s.phase.hop, s.phase.iface)
  {
    InvRoutable(cfg, s.st);
    hide Inv;
  }

  lemma FoundJoins(cfg: Config, s: System)
    requires WellFormedConfig(cfg) && SystemInv(cfg, s) && !s.st.stopped && s.phase.FoundRequest?
    ensures var t := Next(cfg, s, Resume);
            && t.phase.Idle?
            && (s.phase.sent + s.rounds > 5 ==> t.st == s.st)
            && (s.phase.sent + s.rounds <= 5 ==> Joins(s.st, t.st, s.phase.frame, s.phase.hop, s.phase.iface))
  {
    Resumes(cfg, s);
    FoundPhase(cfg, s);
    LookupGone(s.st.pending, s.phase.hop);
    hide SystemInv, Next, Unique, Aged;
    ContinuesFound(cfg, s);
    if s.phase.sent + s.rounds <= 5 {
      JoinsFound(s.st.pending, s.phase.hop, s.phase.sent + s.rounds, s.phase.born, s.phase.frame);
    }
  }

  lemma Resumes(cfg: Config, s: System)
    requires WellFormedConfig(cfg) && SystemInv(cfg, s) && !s.st.stopped
    ensures AllRoutable(cfg, s.st.pending) && Unique(s.st.pending)
    ensures s.phase.FoundEntry? ==>
              s.phase.slot < |s.st.cache| && WellFormed(cfg, s.phase.frame) && IsIp(s.phase.frame.raw)
    ensures Next(cfg, s, Resume) == Continue(cfg, s)
  {
    InvRoutable(cfg, s.st);
    assert Unique(s.st.pending);
    hide Inv, Continue;
  }

  lemma FoundPhase(cfg: Config, s: System)
    requires WellFormedConfig(cfg) && SystemInv(cfg, s) && s.phase.FoundRequest?
    ensures Aged(s.st.pending, s.phase.hop, s.phase.sent + s.rounds, s.phase.born)
    ensures s.phase.sent + s.rounds > 5 ==> Gone(s.st.pending, s.phase.hop)
  {
    hide Inv;
  }

  lemma ContinuesFound(cfg: Config, s: System)
    requires WellFormedConfig(cfg) && AllRoutable(cfg, s.st.pending) && Unique(s.st.pending) && s.phase.FoundRequest?
    ensures var t := Continue(cfg, s);
            && t.phase.Idle?
            && (PendingLookup(s.st.pending, s.phase.hop).None? ==> t.st == s.st)
            && (PendingLookup(s.st.pending, s.phase.hop).Some? ==>
                  Joins(s.st, t.st, s.phase.frame, s.phase.hop, s.phase.iface))
  {
    if PendingLookup(s.st.pending, s.phase.hop).Some? { OneRequest(s.st.pending, s.phase.hop); }
    hide AllRoutable, Unique, ReleaseAll;
  }

  lemma OneRequest(pending: seq<Pending>, x: Ip)
    requires Unique(pending) && PendingLookup(pending, x).Some?
    ensures forall j :: 0 <= j < |pending| && pending[j].ip == x ==> j == PendingLookup(pending, x).value
  {
  }

  /** The request for x, with these rounds more, has given up. */
  ghost predicate GivesUp(pending: seq<Pending>, x: Ip, rounds: nat) {
    exists j :: 0 <= j < |pending| && pending[j].ip == x && pending[j].timesSent + rounds > 5
  }

  /**
   A datagram whose next hop is not cached when it comes in: it joins the request that is pending
   when the handler adds it, or opens one, unless the one it found has given up since the lookup.
   */
  lemma WaitsInThreeSections(cfg: Config, st: State, f: Frame, now: int, ts: seq<int>, us: seq<int>, k: nat, x: Ip)
    requires WellFormedConfig(cfg) && Inv(cfg, st) && !st.stopped && Datagram(cfg, f)
    requires !ForRouter(cfg, f) && Goes(cfg, f, k, x) && Uncached(st.cache, x)
    ensures k < |cfg.table| && GoodMoves(cfg, [Arrive(f, now)] + RoundsAt(ts) + ([Resume] + RoundsAt(us) + [Resume]))
    ensures var end := Interleave(cfg, System(st, Idle, 0),
                         [Arrive(f, now)] + RoundsAt(ts) + ([Resume] + RoundsAt(us) + [Resume]));
            var found, last := Rounded(st, ts), Rounded(Rounded(st, ts), us);
            && end.phase.Idle?
            && (GivesUp(found.pending, x, |us|) ==> end.st == last)
            && (!GivesUp(found.pending, x, |us|) ==> Joins(last, end.st, f, x, cfg.table[k].iface))
  {
    var s, tail := System(st, Idle, 0), [Resume] + RoundsAt(us) + [Resume];
    LooksUp(cfg, st, f, now, k, x);
    ResumeGood(cfg);
    assert GoodMoves(cfg, tail);
    hide *;
    IdleOk(cfg, st);
    ArriveGood(cfg, f, now);
    var u := MoveThenRounds(cfg, s, Arrive(f, now), ts, tail);
    MissLooks(cfg, u);
    var v := MoveThenRounds(cfg, u, Resume, us, [Resume]);
    OneMove(cfg, v, Resume);
    Added(cfg, u, v, us, x);
  }

  lemma Added(cfg: Config, u: System, v: System, us: seq<int>, x: Ip)
    requires WellFormedConfig(cfg) && SystemInv(cfg, u) && !u.st.stopped && u.phase.Missed? && u.phase.hop == x
    requires SystemInv(cfg, v) && !v.st.stopped
    requires var t := Next(cfg, u, Resume); v == System(Rounded(t.st, us), t.phase, t.rounds + |us|)
    ensures var end := Next(cfg, v, Resume);
            && end.phase.Idle?
            && (GivesUp(u.st.pending, x, |us|) ==> end.st == v.st)
            && (!GivesUp(u.st.pending, x, |us|) ==> Joins(v.st, end.st, u.phase.frame, x, u.phase.iface))
  {
    hide SystemInv, Next, Joins, Rounded;
    MissLooks(cfg, u);
    if Gone(u.st.pending, x) {
      NoRequestOpens(cfg, v);
    } else {
      FoundJoins(cfg, v);
    }
  }

  // ----- an ARP reply

  lemma ReplyCaches(cfg: Config, st: State, f: Frame, now: int, x: Ip, mac: Mac)
    requires WellFormedConfig(cfg) && WellFormed(cfg, f) && Inv(cfg, st) && !st.stopped
    requires Reports(cfg, Arrival(f, now), x, mac)
    ensures var t, noted := Next(cfg, System(st, Idle, 0), Arrive(f, now)), Noted(st, x, mac);
            && ((forall i :: 0 <= i < |st.cache| ==> st.cache[i].valid) ==>
                  t == System(noted.(stopped := true), Idle, 0))
            && (forall c: nat :: FirstFree(st.cache, c) ==>
                  t == System(noted.(cache := st.cache[c := CacheEntry(true, x, mac, now)]), Learned(x, mac), 0))
  {
    InvRoutable(cfg, st);
    hide Inv;
    assert IsReply(cfg, f) && !IsRouted(cfg, f);
    assert forall c: nat :: FirstFree(st.cache, c) ==> FreeSlot(st.cache) == Some(c);
    hide IsReply, IsRouted;
  }

  lemma ReplyReleases(cfg: Config, s: System)
    requires WellFormedConfig(cfg) && SystemInv(cfg, s) && !s.st.stopped && s.phase.Learned?
    ensures var t := Next(cfg, s, Resume); t.phase.Idle? && ReleaseOutcome(cfg, s.st, t.st, s.phase.ip, s.phase.mac)
  {
    Resumes(cfg, s);
    InvHopsOk(cfg, s);
    hide SystemInv, Next, HopsOk, Unique, AllRoutable;
    ContinuesLearned(cfg, s);
  }

  lemma InvHopsOk(cfg: Config, s: System)
    requires WellFormedConfig(cfg) && SystemInv(cfg, s)
    ensures HopsOk(cfg, s.st.pending)
  {
    hide PhaseOk;
  }

  lemma ContinuesLearned(cfg: Config, s: System)
    requires WellFormedConfig(cfg) && AllRoutable(cfg, s.st.pending) && s.phase.Learned?
    requires Unique(s.st.pending) && HopsOk(cfg, s.st.pending)
    ensures var t := Continue(cfg, s); t.phase.Idle? && ReleaseOutcome(cfg, s.st, t.st, s.phase.ip, s.phase.mac)
  {
    Releases(cfg, s.st, s.phase.ip, s.phase.mac);
    hide ReleaseOutcome, PendingLookup, ReleaseAll, Removed, HopsOk, Unique, AllRoutable;
  }

  /**
   An ARP reply with a free cache slot: the address is cached, and when the handler resumes,
   after any rounds, all that still waits for it leaves; every datagram ever withheld for it
   has its outcome then.
   */
  lemma ReleasedInTwoSections(cfg: Config, st: State, f: Frame, now: int, ts: seq<int>, x: Ip, mac: Mac, c: nat)
    requires WellFormedConfig(cfg) && WellFormed(cfg, f) && Inv(cfg, st) && !st.stopped
    requires Reports(cfg, Arrival(f, now), x, mac) && FirstFree(st.cache, c)
    ensures GoodMoves(cfg, [Arrive(f, now)] + RoundsAt(ts) + [Resume])
    ensures var end := Interleave(cfg, System(st, Idle, 0), [Arrive(f, now)] + RoundsAt(ts) + [Resume]);
            var cached := Noted(st, x, mac).(cache := st.cache[c := CacheEntry(true, x, mac, now)]);
            && end.phase.Idle? && ReleaseOutcome(cfg, Rounded(cached, ts), end.st, x, mac)
            && SettledFor(cfg, end.st.trace, x) == HeldFor(cfg, end.st.held, x)
  {
    var s := System(st, Idle, 0);
    ReplyCaches(cfg, st, f, now, x, mac);
    ResumeGood(cfg);
    assert c < |st.cache| && GoodMove(cfg, Arrive(f, now));
    hide *;
    IdleOk(cfg, st);
    var u := MoveThenRounds(cfg, s, Arrive(f, now), ts, [Resume]);
    OneMove(cfg, u, Resume);
    ReplyReleases(cfg, u);
    NextKeeps(cfg, u, Resume);
    NothingWaits(cfg, Rounded(Next(cfg, s, Arrive(f, now)).st, ts), Next(cfg, u, Resume), x, mac);
  }

  lemma NothingWaits(cfg: Config, st: State, t: System, x: Ip, mac: Mac)
    requires WellFormedConfig(cfg) && SystemInv(cfg, t) && ReleaseOutcome(cfg, st, t.st, x, mac)
    ensures SettledFor(cfg, t.st.trace, x) == HeldFor(cfg, t.st.held, x)
  {
    assert Balanced(cfg, t.st, x);
    WaitingNone(t.st.pending, x);
    hide AllReleased, PhaseOk;
  }
}
