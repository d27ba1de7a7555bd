/**
 Address resolution from end to end: the bytes of ARP messages, the answer of a neighbour that
 runs the same program, and what a run of the router owes to an answer once it came.
 */
module RouterResolution {
  import opened Checksum
  import opened LongestMatch
  import opened Packets
  import opened RouterSpec
  import opened RouterProofs
  import opened RouterRuns
  import opened RouterFates
  import opened RouterOutcomes

  // ----- what an answer brings about

  lemma GoodLast(cfg: Config, es: seq<Event>, e: Event)
    requires GoodEvents(cfg, es + [e])
    ensures GoodEvents(cfg, es) && (e.Arrival? ==> WellFormed(cfg, e.frame)) && GoodEvents(cfg, [e])
    ensures es != [] ==> GoodEvents(cfg, es[1..] + [e]) && (es + [e])[1..] == es[1..] + [e] && (es + [e])[0] == es[0]
  {
    hide WellFormed;
    forall i | 0 <= i < |es| && es[i].Arrival?
      ensures WellFormed(cfg, es[i].frame)
    {
      assert (es + [e])[i] == es[i];
    }
    assert (es + [e])[|es|] == e;
    assert es != [] ==> (es + [e])[1..] == es[1..] + [e];
  }

  lemma {:induction false} RunLast(cfg: Config, st: State, es: seq<Event>, e: Event)
    requires WellFormedConfig(cfg) && GoodEvents(cfg, es + [e]) && Inv(cfg, st)
    ensures GoodEvents(cfg, es) && (e.Arrival? ==> WellFormed(cfg, e.frame))
    ensures AllRoutable(cfg, Run(cfg, st, es).pending)
    ensures Run(cfg, st, es + [e]) == Step(cfg, Run(cfg, st, es), e)
    decreases |es|
  {
    hide *;
    GoodLast(cfg, es, e);
    if es == [] {
      NoEvents(cfg, st, es);
      assert es + [e] == [e] && [e][1..] == [];
      FirstStep(cfg, st, [e]);
      NoEvents(cfg, Step(cfg, st, e), []);
    } else {
      FirstStep(cfg, st, es);
      RunLast(cfg, Step(cfg, st, es[0]), es[1..], e);
      FirstStep(cfg, st, es + [e]);
    }
  }

  lemma StoppedStep(cfg: Config, st: State, e: Event)
    requires WellFormedConfig(cfg) && AllRoutable(cfg, st.pending) && (e.Arrival? ==> WellFormed(cfg, e.frame))
    requires !Step(cfg, st, e).stopped
    ensures !st.stopped
  {
  }

  lemma ReplyClears(cfg: Config, st: State, e: Event, x: Ip, mac: Mac)
    requires WellFormedConfig(cfg) && Inv(cfg, st) && !st.stopped && (e.Arrival? ==> WellFormed(cfg, e.frame))
    requires Reports(cfg, e, x, mac)
    ensures AllRoutable(cfg, st.pending)
    ensures !Step(cfg, st, e).stopped ==>
              && Gone(Step(cfg, st, e).pending, x) && FreeSlot(st.cache).Some?
              && (Uncached(st.cache, x) ==> Cached(Step(cfg, st, e).cache, x, FreeSlot(st.cache).value))
              && Step(cfg, st, e).cache == st.cache[FreeSlot(st.cache).value := CacheEntry(true, x, mac, e.now)]
  {
    EveryReply(cfg, st, e, x, mac);
    hide Inv, Step, Reports, WellFormed, ReplyOutcome, Gone;
    if FreeSlot(st.cache).Some? {
      ReplyMeans(cfg, st, Step(cfg, st, e), x, mac, e.now);
    } else {
      FullStops(cfg, st, Step(cfg, st, e), x, mac, e.now);
    }
  }

  lemma ReplyMeans(cfg: Config, st: State, after: State, x: Ip, mac: Mac, now: int)
    requires ReplyOutcome(cfg, st, after, x, mac, now) && FreeSlot(st.cache).Some?
    ensures var c := FreeSlot(st.cache).value;
            && Gone(after.pending, x) && AllReleased(cfg, st.trace, after.trace, WaitingFor(st.pending, x), x, mac)
            && after.cache == st.cache[c := CacheEntry(true, x, mac, now)]
            && (Uncached(st.cache, x) ==> Cached(after.cache, x, c))
  {
    assert FirstFree(st.cache, FreeSlot(st.cache).value);
    hide AllReleased, Gone, Cached;
  }

  lemma FullStops(cfg: Config, st: State, after: State, x: Ip, mac: Mac, now: int)
    requires ReplyOutcome(cfg, st, after, x, mac, now) && FreeSlot(st.cache).None?
    ensures after.stopped
  {
    hide ReleaseOutcome, Cached;
  }

  /** Once an answer for x was cached nothing waits for x: every datagram ever withheld for it has its outcome. */
  lemma AnsweredRun(cfg: Config, st: State, es: seq<Event>, e: Event, x: Ip, mac: Mac)
    requires WellFormedConfig(cfg) && GoodEvents(cfg, es + [e]) && Started(st)
    requires (e.Arrival? ==> WellFormed(cfg, e.frame)) && Reports(cfg, e, x, mac)
    requires !RunFrom(cfg, st, es + [e]).stopped
    ensures var end := RunFrom(cfg, st, es + [e]);
            && Gone(end.pending, x) && WaitingFor(end.pending, x) == []
            && SettledFor(cfg, end.trace, x) == HeldFor(cfg, end.held, x)
  {
    StartKeeps(cfg, st);
    RunLast(cfg, st, es, e);
    var before, end := Run(cfg, st, es), Run(cfg, st, es + [e]);
    StoppedStep(cfg, before, e);
    ReplyClears(cfg, before, e, x, mac);
    assert Balanced(cfg, end, x);
    WaitingNone(end.pending, x);
    hide Inv, Run, Step, Reports, WellFormed;
  }

  /**
   An address is renewed: a reply comes for x while an entry for x, in slot i, is valid. Lookups
   find the new one exactly if the first free slot c is before i; otherwise the old one serves on.
   */
  lemma RenewedAddress(cfg: Config, st: State, e: Event, x: Ip, mac: Mac, i: nat, c: nat)
    requires WellFormedConfig(cfg) && Inv(cfg, st) && !st.stopped && (e.Arrival? ==> WellFormed(cfg, e.frame))
    requires Reports(cfg, e, x, mac) && Cached(st.cache, x, i) && FirstFree(st.cache, c)
    ensures AllRoutable(cfg, st.pending)
    ensures var after := Step(cfg, st, e).cache;
            && Cached(after, x, if c < i then c else i) && i < |after| == |st.cache|
            && after[i] == st.cache[i] && after[c] == CacheEntry(true, x, mac, e.now)
  {
    EveryReply(cfg, st, e, x, mac);
    InvRoutable(cfg, st);
    hide Inv, Step, Reports, WellFormed, AllReleased, Gone;
    assert ReleaseOutcome(cfg, Noted(st, x, mac).(cache := st.cache[c := CacheEntry(true, x, mac, e.now)]),
             Step(cfg, st, e), x, mac);
    assert c != i;
  }

  /** It happens: of two replies for one address that come first to a router, the second is not used. */
  lemma SecondReplyUnused(cfg: Config, st: State, e: Event, d: Event, x: Ip, m: Mac, n: Mac)
    requires WellFormedConfig(cfg) && Started(st) && GoodEvents(cfg, [e] + [d])
    requires e.Arrival? && WellFormed(cfg, e.frame) && Reports(cfg, e, x, m)
    requires d.Arrival? && WellFormed(cfg, d.frame) && Reports(cfg, d, x, n)
    ensures var end := RunFrom(cfg, st, [e] + [d]);
            && !end.stopped && (x, n) in end.reports
            && Cached(end.cache, x, 0) && |end.cache| > 0 && end.cache[0].mac == m
  {
    StartKeeps(cfg, st);
    StartCache(st, x);
    hide *;
    RunLast(cfg, st, [e], d);
    RunLast(cfg, st, [], e);
    NoEvents(cfg, st, []);
    assert [] + [e] == [e];
    var one := Run(cfg, st, [e]);
    EveryReply(cfg, st, e, x, m);
    FirstReply(cfg, st, one, x, m, e.now);
    EveryReply(cfg, one, d, x, n);
    SecondReply(cfg, one, Run(cfg, st, [e] + [d]), x, n, d.now);
    FromStart(cfg, st, [e] + [d]);
  }

  lemma FromStart(cfg: Config, st: State, es: seq<Event>)
    requires WellFormedConfig(cfg) && GoodEvents(cfg, es) && Started(st)
    ensures Inv(cfg, st) && RunFrom(cfg, st, es) == Run(cfg, st, es)
  {
    StartKeeps(cfg, st);
    hide Inv, Run;
  }

  lemma StartCache(st: State, x: Ip)
    requires Started(st)
    ensures |st.cache| > 1 && !st.stopped && forall i :: 0 <= i < |st.cache| ==> !st.cache[i].valid
  {
  }

  lemma FirstReply(cfg: Config, st: State, one: State, x: Ip, m: Mac, t: int)
    requires |st.cache| > 1 && !st.stopped && forall i :: 0 <= i < |st.cache| ==> !st.cache[i].valid
    requires ReplyOutcome(cfg, st, one, x, m, t)
    ensures !one.stopped && |one.cache| > 1 && Cached(one.cache, x, 0) && one.cache[0].mac == m
    ensures FirstFree(one.cache, 1)
  {
    assert FirstFree(st.cache, 0);
    assert one.cache == st.cache[0 := CacheEntry(true, x, m, t)];
    hide AllReleased, Gone;
  }

  lemma SecondReply(cfg: Config, one: State, two: State, x: Ip, n: Mac, u: int)
    requires !one.stopped && |one.cache| > 1 && Cached(one.cache, x, 0) && FirstFree(one.cache, 1)
    requires ReplyOutcome(cfg, one, two, x, n, u)
    ensures !two.stopped && (x, n) in two.reports && |two.cache| > 1
    ensures Cached(two.cache, x, 0) && two.cache[0] == one.cache[0]
  {
    hide AllReleased, Gone;
  }

  // ----- how long an answer serves

  /** No round of the run is later than the given time. */
  predicate Within(es: seq<Event>, time: int) {
    forall i :: 0 <= i < |es| && es[i].Round? ==> es[i].now <= time
  }

  lemma StepCached(cfg: Config, st: State, e: Event, x: Ip, c: nat)
    requires WellFormedConfig(cfg) && Inv(cfg, st) && !st.stopped && (e.Arrival? ==> WellFormed(cfg, e.frame))
    requires Cached(st.cache, x, c) && !Answers(cfg, e, x) && Within([e], st.cache[c].timeAdded + 15)
    ensures AllRoutable(cfg, st.pending)
    ensures Cached(Step(cfg, st, e).cache, x, c) && Step(cfg, st, e).cache[c] == st.cache[c]
  {
    InvRoutable(cfg, st);
    hide Inv, Cached;
    match e
    case Round(now) =>
      assert [e][0].now <= st.cache[c].timeAdded + 15;
      RoundCached(st.cache, now, x, c);
    case Arrival(f, now) =>
      if IsArp(f.raw) && !IsIp(f.raw) && Load(f.raw, 28) != x {
        LearnCached(cfg, st, Load(f.raw, 28), f.raw[22..28], now, x, c);
      }
      CacheUntouched(cfg, st, f, now);
  }

  lemma CacheUntouched(cfg: Config, st: State, f: Frame, now: int)
    requires WellFormedConfig(cfg) && WellFormed(cfg, f) && AllRoutable(cfg, st.pending)
    ensures IsIp(f.raw) ==> HandleFrame(cfg, st, f, now).cache == st.cache
    ensures !IsIp(f.raw) && !(IsArp(f.raw) && Load(f.raw, 38) == cfg.ifaces[f.inIface].ip && ArpOp(f.raw) == 2) ==>
              HandleFrame(cfg, st, f, now).cache == st.cache
  {
    hide Learn, RouteOf, NextHop, CacheLookup, PendingLookup;
  }

  lemma RoundCached(cache: seq<CacheEntry>, now: int, x: Ip, c: nat)
    requires Cached(cache, x, c) && now <= cache[c].timeAdded + 15
    ensures Cached(Purge(cache, now), x, c) && Purge(cache, now)[c] == cache[c]
  {
  }

  lemma LearnCached(cfg: Config, st: State, y: Ip, mac: Mac, now: int, x: Ip, c: nat)
    requires WellFormedConfig(cfg) && AllRoutable(cfg, st.pending) && Cached(st.cache, x, c) && y != x
    ensures var after := Learn(cfg, st, y, mac, now); Cached(after.cache, x, c) && after.cache[c] == st.cache[c]
  {
    hide PendingLookup, ReleaseAll;
  }

  /**
   A cached address serves for fifteen seconds: with no round later than that and no other
   answer for x, its entry stays as it is, the first for x.
   */
  lemma {:induction false} EntryLives(cfg: Config, st: State, es: seq<Event>, x: Ip, c: nat)
    requires WellFormedConfig(cfg) && GoodEvents(cfg, es) && Inv(cfg, st) && Unanswered(cfg, es, x)
    requires Cached(st.cache, x, c) && Within(es, st.cache[c].timeAdded + 15) && !Run(cfg, st, es).stopped
    ensures Cached(Run(cfg, st, es).cache, x, c) && Run(cfg, st, es).cache[c] == st.cache[c]
    decreases |es|
  {
    if st.stopped { StoppedStays(cfg, st, es); }
    assert c < |st.cache|;
    hide *;
    if es == [] {
      NoEvents(cfg, st, es);
    } else {
      FirstEvent(cfg, st, es, x);
      FirstWithin(es, st.cache[c].timeAdded + 15);
      StepCached(cfg, st, es[0], x, c);
      var next := Step(cfg, st, es[0]);
      CachedBounds(next.cache, x, c);
      EntryLives(cfg, next, es[1..], x, c);
    }
  }

  lemma CachedBounds(cache: seq<CacheEntry>, x: Ip, c: nat)
    requires Cached(cache, x, c)
    ensures c < |cache|
  {
  }

  lemma FirstWithin(es: seq<Event>, time: int)
    requires es != [] && Within(es, time)
    ensures Within([es[0]], time) && Within(es[1..], time)
  {
  }

  /**
   From an answer to the wire. The reply e reports x, which was not cached. While no round comes
   later than fifteen seconds after it and no other reply for x, a datagram whose best route
   goes by way of x is forwarded at once, on that route's interface, to the reported address.
   */
  lemma ForwardedOnceKnown(cfg: Config, st: State, e: Event, es: seq<Event>, f: Frame, now: int,
                           k: nat, x: Ip, mac: Mac)
    requires WellFormedConfig(cfg) && Inv(cfg, st) && !st.stopped && Uncached(st.cache, x)
    requires GoodEvents(cfg, [e] + es + [Arrival(f, now)]) && GoodEvents(cfg, [e] + es)
    requires (e.Arrival? ==> WellFormed(cfg, e.frame)) && Reports(cfg, e, x, mac)
    requires GoodEvents(cfg, es) && Unanswered(cfg, es, x) && Within(es, e.now + 15)
    requires Datagram(cfg, f) && !ForRouter(cfg, f) && Goes(cfg, f, k, x) && Ttl(f.raw) != 1
    requires !Run(cfg, st, [e] + es).stopped
    ensures k < |cfg.table|
    ensures Says(Run(cfg, st, [e] + es), Run(cfg, st, [e] + es + [Arrival(f, now)]),
                 Forward(f, cfg.table[k].iface, mac, false))
  {
    hide *;
    RouteBounds(cfg, f, k, x);
    ReplyClears(cfg, st, e, x, mac);
    InvRoutable(cfg, st) by { InvHops(cfg, st); }
    var next := Step(cfg, st, e);
    assert ([e] + es)[0] == e && ([e] + es)[1..] == es;
    FirstStep(cfg, st, [e] + es);
    if next.stopped { StoppedStays(cfg, next, es); }
    var c := FreeSlot(st.cache).value;
    EntryLives(cfg, next, es, x, c);
    var end := Run(cfg, next, es);
    RunLast(cfg, st, [e] + es, Arrival(f, now));
    EveryDatagram(cfg, end, f, now);
    OnHop(cfg, end, Step(cfg, end, Arrival(f, now)), f, k, x, c);
  }

  lemma InvHops(cfg: Config, st: State)
    requires Inv(cfg, st)
    ensures HopsOk(cfg, st.pending)
  {
  }

  lemma RouteBounds(cfg: Config, f: Frame, k: nat, x: Ip)
    requires Datagram(cfg, f) && Goes(cfg, f, k, x)
    ensures k < |cfg.table|
  {
  }

  lemma OnHop(cfg: Config, st: State, after: State, f: Frame, k: nat, x: Ip, c: nat)
    requires Datagram(cfg, f) && DatagramOutcome(cfg, st, after, f) && !ForRouter(cfg, f) && Goes(cfg, f, k, x)
    requires Cached(st.cache, x, c) && Ttl(f.raw) != 1
    ensures k < |cfg.table| && c < |st.cache|
    ensures Says(st, after, Forward(f, cfg.table[k].iface, st.cache[c].mac, false))
  {
    assert HopOutcome(cfg, st, after, f, k, x);
    hide Goes, OwnOutcome, Says, Unroutable;
  }

  // ----- ARP messages on the wire

  const ARP_REQUEST: Byte := 1
  const ARP_REPLY: Byte := 2
  const BROADCAST: Mac := [255, 255, 255, 255, 255, 255]
  const NO_MAC: Mac := [0, 0, 0, 0, 0, 0]

  /** An Ethernet header of type 0x0806, then hardware type 1, protocol 0x0800, sizes 6 and 4, and the operation. */
  function ArpFrame(op: Byte, src: Mac, spa: Ip, dst: Mac, tha: Mac, tpa: Ip): (raw: seq<Byte>)
    ensures |raw| == 42
  {
    dst + src + [8, 6, 0, 1, 8, 0, 6, 4, 0, op] + src + IpBytes(spa) + tha + IpBytes(tpa)
  }

  /** The frame that `chirouter_send_arp_message` sends. */
  function ArpBytes(cfg: Config, o: Output): (raw: seq<Byte>)
    requires (o.ArpRequest? || o.ArpReply?) && o.iface < |cfg.ifaces|
    ensures |raw| == 42
  {
    var own := cfg.ifaces[o.iface];
    match o
    case ArpRequest(_, ip) => ArpFrame(ARP_REQUEST, own.mac, own.ip, BROADCAST, NO_MAC, ip)
    case ArpReply(_, mac, ip) => ArpFrame(ARP_REPLY, own.mac, own.ip, mac, mac, ip)
  }

  lemma Widened(v: bv8)
    ensures (v as bv32) as int == v as int
  {
  }

  lemma WordBack(v: bv32)
    ensures (v as int) as bv32 == v
  {
  }

  lemma ByteBack(v: bv8)
    ensures (v as int) as bv32 == v as bv32
  {
    Widened(v);
    WordBack(v as bv32);
  }

  lemma Narrow(v: bv32)
    ensures ((v & 0xff) as bv8) as bv32 == v & 0xff
  {
  }

  lemma LowBits(v: bv32)
    ensures Wide(Low(v)) == v & 0xff
  {
    ByteBack((v & 0xff) as bv8);
    Narrow(v);
  }

  lemma FourBytes(v: bv32, a: bv32, b: bv32, c: bv32, d: bv32)
    requires a == v & 0xff && b == (v >> 8) & 0xff && c == (v >> 16) & 0xff && d == (v >> 24) & 0xff
    ensures Joined(a, b, c, d) == v
  {
  }

  lemma FourLows(v: bv32)
    ensures Joined(Wide(Low(v)), Wide(Low(v >> 8)), Wide(Low(v >> 16)), Wide(Low(v >> 24))) == v
  {
    hide Wide, Low, Joined;
    LowBits(v);
    LowBits(v >> 8);
    LowBits(v >> 16);
    LowBits(v >> 24);
    FourBytes(v, Wide(Low(v)), Wide(Low(v >> 8)), Wide(Low(v >> 16)), Wide(Low(v >> 24)));
  }

  lemma Loaded(raw: seq<Byte>, off: nat)
    requires off + 4 <= |raw|
    ensures Load(raw, off)
         == Joined(Wide(raw[off]), Wide(raw[off + 1]), Wide(raw[off + 2]), Wide(raw[off + 3]))
  {
    hide Joined;
  }

  lemma LoadBack(raw: seq<Byte>, off: nat, v: Ip)
    requires off + 4 <= |raw| && raw[off..off + 4] == IpBytes(v)
    ensures Load(raw, off) == v
  {
    hide *;
    FirstFour(raw, off, v);
    Loaded(raw, off);
    FourLows(v);
  }

  lemma FirstFour(raw: seq<Byte>, off: nat, v: Ip)
    requires off + 4 <= |raw| && raw[off..off + 4] == IpBytes(v)
    ensures raw[off] == Low(v) && raw[off + 1] == Low(v >> 8) && raw[off + 2] == Low(v >> 16)
        && raw[off + 3] == Low(v >> 24)
  {
    var b := raw[off..off + 4];
    assert raw[off] == b[0] && raw[off + 1] == b[1] && raw[off + 2] == b[2] && raw[off + 3] == b[3];
    hide Low;
  }

  /** The receiver reads the fields where the sender wrote them. */
  lemma ArpFields(op: Byte, src: Mac, spa: Ip, dst: Mac, tha: Mac, tpa: Ip)
    ensures var raw := ArpFrame(op, src, spa, dst, tha, tpa);
            && !IsIp(raw) && IsArp(raw) && raw[..6] == dst && raw[6..12] == src
            && Word(raw[20], raw[21]) == op && raw[22..28] == src && Load(raw, 28) == spa && Load(raw, 38) == tpa
  {
    var raw := ArpFrame(op, src, spa, dst, tha, tpa);
    assert raw[28..32] == IpBytes(spa) && raw[38..42] == IpBytes(tpa);
    LoadBack(raw, 28, spa);
    LoadBack(raw, 38, tpa);
    hide Load, IpBytes;
  }

  /**
   Two routers on one link. A asks on interface i for the address of B's interface j, and the
   request reaches it; B answers, and when the answer reaches interface i of A, with a free cache
   slot, everything that waited there for the address leaves for B's hardware address.
   */
  lemma NeighbourAnswers(a: Config, sa: State, b: Config, sb: State, i: nat, j: nat, id: nat, now: int)
    requires WellFormedConfig(a) && Inv(a, sa) && !sa.stopped && WellFormedConfig(b) && Inv(b, sb) && !sb.stopped
    requires i < |a.ifaces| && j < |b.ifaces| && FreeSlot(sa.cache).Some?
    ensures AllRoutable(a, sa.pending) && AllRoutable(b, sb.pending)
    ensures var x, mac := b.ifaces[j].ip, b.ifaces[j].mac;
            var asked := Frame(id, ArpBytes(a, ArpRequest(i, x)), j);
            var o := ArpReply(j, a.ifaces[i].mac, a.ifaces[i].ip);
            var told := Frame(id, ArpBytes(b, o), i);
            && asked.raw[..6] == BROADCAST && told.raw[..6] == a.ifaces[i].mac
            && WellFormed(b, asked) && Says(sb, Step(b, sb, Arrival(asked, now)), o)
            && WellFormed(a, told)
            && var after := Step(a, sa, Arrival(told, now));
            AllReleased(a, sa.trace, after.trace, WaitingFor(sa.pending, x), x, mac) && Gone(after.pending, x)
  {
    var x, mac := b.ifaces[j].ip, b.ifaces[j].mac;
    ArpFields(ARP_REQUEST, a.ifaces[i].mac, a.ifaces[i].ip, BROADCAST, NO_MAC, x);
    ArpFields(ARP_REPLY, mac, x, a.ifaces[i].mac, a.ifaces[i].mac, a.ifaces[i].ip);
    var asked := Frame(id, ArpBytes(a, ArpRequest(i, x)), j);
    var told := Frame(id, ArpBytes(b, ArpReply(j, a.ifaces[i].mac, a.ifaces[i].ip)), i);
    hide ArpFrame, Inv, Step, AllReleased, Gone, IsIp, IsArp, EtherType, Load, WellFormedIp, ReplyOutcome;
    EveryOtherFrame(b, sb, asked, now);
    EveryReply(a, sa, Arrival(told, now), x, mac);
    ReplyMeans(a, sa, Step(a, sa, Arrival(told, now)), x, mac, now);
  }
}
