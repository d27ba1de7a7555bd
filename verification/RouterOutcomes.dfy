/**
 What the handler does with each kind of frame, exactly: which output, which cache slot, which
 request. The terms are those of the routing table, the cache and the pending requests alone.
 */
module RouterOutcomes {
  import opened Wrappers
  import opened Checksum
  import opened LongestMatch
  import opened Packets
  import opened RouterSpec
  import opened RouterProofs
  import opened RouterRuns
  import opened RouterFates

  // ----- what is looked up

  /** Slot c is the first valid one for x. */
  ghost predicate Cached(cache: seq<CacheEntry>, x: Ip, c: nat) {
    && c < |cache| && cache[c].valid && cache[c].ip == x
    && forall i :: 0 <= i < c ==> !(cache[i].valid && cache[i].ip == x)
  }

  ghost predicate Uncached(cache: seq<CacheEntry>, x: Ip) {
    forall i :: 0 <= i < |cache| ==> !(cache[i].valid && cache[i].ip == x)
  }

  /** No route matches. */
  ghost predicate Unroutable(cfg: Config, f: Frame)
    requires Datagram(cfg, f)
  {
    forall k :: 0 <= k < |cfg.table| ==> !Matches(cfg.table[k], Load(f.raw, 30))
  }

  /** Route k is the first matching one of largest mask, and x is its gateway or, without one, the destination. */
  ghost predicate Goes(cfg: Config, f: Frame, k: nat, x: Ip)
    requires Datagram(cfg, f)
  {
    && FirstLargest(cfg.table, Load(f.raw, 30), |cfg.table|, k)
    && (cfg.table[k].gw != 0 ==> x == cfg.table[k].gw)
    && (cfg.table[k].gw == 0 ==> x == Load(f.raw, 30))
  }

  /** With contiguous masks, that is the earliest of the longest matching prefixes. */
  lemma LongestIsLargest(table: seq<LongestMatch.Route>, plen: seq<bv32>, dst: Ip, k: nat)
    requires Contiguous(table, plen)
    ensures FirstLargest(table, dst, |table|, k) <==> LongestFor(table, plen, dst, k)
  {
    hide Matches, Smaller, Swap, Mask;
    if k < |table| {
      forall i | 0 <= i < |table|
        ensures Smaller(table[k].mask, table[i].mask) <==> plen[k] < plen[i]
        ensures Smaller(table[i].mask, table[k].mask) <==> plen[i] < plen[k]
      {
        MaskOrder(plen[k], plen[i]);
        MaskOrder(plen[i], plen[k]);
      }
    }
  }

  lemma LargestIsOne(table: seq<LongestMatch.Route>, dst: Ip, n: nat, j: nat, k: nat)
    requires n <= |table| && FirstLargest(table, dst, n, j) && FirstLargest(table, dst, n, k)
    ensures j == k
  {
    hide Matches, Smaller;
  }

  /** The lookups find what was named. */
  lemma RouteFound(cfg: Config, f: Frame)
    requires Datagram(cfg, f)
    ensures Unroutable(cfg, f) <==> RouteOf(cfg, f).None?
    ensures forall k: nat, x: Ip :: Goes(cfg, f, k, x) <==> RouteOf(cfg, f) == Some(k) && NextHop(cfg, f) == Some(x)
  {
    BestIsFirstLargest(cfg.table, Load(f.raw, 30), |cfg.table|);
    hide Best, Matches, FirstLargest;
    forall k: nat, x: Ip
      ensures Goes(cfg, f, k, x) <==> RouteOf(cfg, f) == Some(k) && NextHop(cfg, f) == Some(x)
    {
      if Goes(cfg, f, k, x) {
        assert RouteOf(cfg, f).Some? by { assert Matches(cfg.table[k], Load(f.raw, 30)) by { Matching(cfg, f, k); } }
        LargestIsOne(cfg.table, Load(f.raw, 30), |cfg.table|, k, RouteOf(cfg, f).value);
      }
    }
  }

  lemma Matching(cfg: Config, f: Frame, k: nat)
    requires Datagram(cfg, f) && FirstLargest(cfg.table, Load(f.raw, 30), |cfg.table|, k)
    ensures k < |cfg.table| && Matches(cfg.table[k], Load(f.raw, 30))
  {
  }

  lemma EntryFound(cache: seq<CacheEntry>, x: Ip)
    ensures Uncached(cache, x) <==> CacheLookup(cache, x).None?
    ensures forall c: nat :: Cached(cache, x, c) <==> CacheLookup(cache, x) == Some(c)
  {
  }

  // ----- datagrams

  /** The router sends o, and that is all. */
  ghost predicate Says(st: State, after: State, o: Output) {
    after == st.(trace := st.trace + [o])
  }

  /**
   A datagram for the receiving interface. Protocols are by number, 6 for TCP, 17 for UDP and 1
   for ICMP, and so are ICMP types and codes (RFC 792): 0 and 8 for Echo, 11 for Time Exceeded, 3
   for Destination Unreachable with codes 0 to 3 for net, host, protocol and port.
   */
  ghost predicate OwnOutcome(st: State, after: State, f: Frame)
    requires WellFormedIp(f.raw)
  {
    var proto, last := f.raw[23], f.raw[22] == 1;
    && (proto == 6 || proto == 17 ==>
          Says(st, after, Icmp(f, 3, 3, false)))
    && (proto != 6 && proto != 17 && last ==> Says(st, after, Icmp(f, 11, 0, false)))
    && (proto == 1 && !last && f.raw[34] == 8 ==> Says(st, after, Icmp(f, 0, 0, false)))
    && (proto == 1 && !last && f.raw[34] != 8 ==> after == st)
    && (proto !in {6, 17, 1} && !last ==>
          Says(st, after, Icmp(f, 3, 2, false)))
  }

  /** The datagram waits for x: in the request that is pending, else in a new one, which is sent for the first time. */
  ghost predicate Joins(st: State, after: State, f: Frame, x: Ip, iface: nat) {
    && after.cache == st.cache && after.held == st.held + [f] && after.reports == st.reports
    && after.stopped == st.stopped
    && ((forall j :: 0 <= j < |st.pending| ==> st.pending[j].ip != x) ==>
          && after.trace == st.trace + [ArpRequest(iface, x)]
          && after.pending == st.pending + [Pending(x, iface, 1, [f], |st.trace|)])
    && (forall j :: 0 <= j < |st.pending| && st.pending[j].ip == x ==>
          && after.trace == st.trace
          && after.pending == st.pending[j := st.pending[j].(withheld := st.pending[j].withheld + [f])])
  }

  /** A datagram with a route k by way of x. */
  ghost predicate HopOutcome(cfg: Config, st: State, after: State, f: Frame, k: nat, x: Ip)
    requires Datagram(cfg, f) && k < |cfg.table|
  {
    && (Uncached(st.cache, x) ==> Joins(st, after, f, x, cfg.table[k].iface))
    && (forall c: nat :: Cached(st.cache, x, c) ==>
          && (f.raw[22] == 1 ==> Says(st, after, Icmp(f, 11, 0, false)))
          && (f.raw[22] != 1 ==> Says(st, after, Forward(f, cfg.table[k].iface, st.cache[c].mac, false))))
  }

  /**
   Every datagram, every state: the answer for the receiving interface, Host Unreachable for
   another interface of the router, Net Unreachable without a route, and with one the datagram
   leaves for the cached address, expires, or waits.
   */
  ghost predicate DatagramOutcome(cfg: Config, st: State, after: State, f: Frame)
    requires Datagram(cfg, f)
  {
    var mine := Load(f.raw, 30) == cfg.ifaces[f.inIface].ip;
    && (mine ==> OwnOutcome(st, after, f))
    && (!mine && ForRouter(cfg, f) ==> Says(st, after, Icmp(f, 3, 1, false)))
    && (!ForRouter(cfg, f) && Unroutable(cfg, f) ==>
          Says(st, after, Icmp(f, 3, 0, false)))
    && (!ForRouter(cfg, f) ==> forall k: nat, x: Ip :: Goes(cfg, f, k, x) ==> HopOutcome(cfg, st, after, f, k, x))
  }

  lemma EveryDatagram(cfg: Config, st: State, f: Frame, now: int)
    requires WellFormedConfig(cfg) && Inv(cfg, st) && !st.stopped && Datagram(cfg, f)
    ensures AllRoutable(cfg, st.pending) && DatagramOutcome(cfg, st, Step(cfg, st, Arrival(f, now)), f)
  {
    InvRoutable(cfg, st);
    assert Unique(st.pending);
    hide Inv, AllRoutable;
    IpOutcome(cfg, st, f);
  }

  lemma IpOutcome(cfg: Config, st: State, f: Frame)
    requires WellFormedConfig(cfg) && Unique(st.pending) && Datagram(cfg, f)
    ensures DatagramOutcome(cfg, st, HandleIp(cfg, st, f), f)
  {
    var after := HandleIp(cfg, st, f);
    assert Load(f.raw, 30) == cfg.ifaces[f.inIface].ip ==> ForRouter(cfg, f);
    RouteFound(cfg, f);
    hide Unroutable, Goes, HopOutcome, RouteOf, NextHop;
    forall k: nat, x: Ip | !ForRouter(cfg, f) && Goes(cfg, f, k, x)
      ensures k < |cfg.table| && HopOutcome(cfg, st, after, f, k, x)
    {
      Routed(cfg, st, f, k, x);
    }
    assert !ForRouter(cfg, f) && Unroutable(cfg, f) ==> NextHop(cfg, f).None? by { hide *; NoHop(cfg, f); }
  }

  lemma NoHop(cfg: Config, f: Frame)
    requires Datagram(cfg, f)
    ensures NextHop(cfg, f).None? <==> Unroutable(cfg, f)
  {
    RouteFound(cfg, f);
  }

  lemma Routed(cfg: Config, st: State, f: Frame, k: nat, x: Ip)
    requires WellFormedConfig(cfg) && Unique(st.pending) && Datagram(cfg, f) && Goes(cfg, f, k, x)
    ensures k < |cfg.table| && HopOutcome(cfg, st, RouterSpec.Route(cfg, st, f), f, k, x)
  {
    Matching(cfg, f, k);
    RouteFound(cfg, f);
    EntryFound(st.cache, x);
    assert NextHop(cfg, f) == Some(x) && OutIface(cfg, f) == cfg.table[k].iface;
    hide Goes, RouteOf, NextHop, Joins, Cached, Uncached, Withhold, Unique;
    if Uncached(st.cache, x) {
      Withheld(st, f, x, cfg.table[k].iface);
    }
  }

  lemma Withheld(st: State, f: Frame, x: Ip, iface: nat)
    requires Unique(st.pending)
    ensures Joins(st, Withhold(st, f, x, iface), f, x, iface)
  {
  }

  // ----- ARP messages

  /** What the router sends for a withheld datagram once the address of its next hop x is known. */
  ghost predicate Released(cfg: Config, o: Output, f: Frame, x: Ip, mac: Mac)
    requires Datagram(cfg, f)
  {
    && (f.raw[22] == 1 ==> o == Icmp(f, 11, 0, true))
    && (f.raw[22] != 1 ==> exists k: nat :: Goes(cfg, f, k, x) && o == Forward(f, cfg.table[k].iface, mac, true))
  }

  /** The output has grown by one release for each of the frames, in their order. */
  ghost predicate AllReleased(cfg: Config, trace: seq<Output>, after: seq<Output>, fs: seq<Frame>, x: Ip, mac: Mac) {
    && |after| == |trace| + |fs| && after[..|trace|] == trace
    && forall i :: 0 <= i < |fs| ==> Datagram(cfg, fs[i]) && Released(cfg, after[|trace| + i], fs[i], x, mac)
  }

  /** Everything that waited for x leaves, the request for x is gone, and nothing else changes. */
  ghost predicate ReleaseOutcome(cfg: Config, st: State, after: State, x: Ip, mac: Mac) {
    && after == st.(trace := after.trace, pending := after.pending)
    && AllReleased(cfg, st.trace, after.trace, WaitingFor(st.pending, x), x, mac)
    && Gone(after.pending, x)
    && (Gone(st.pending, x) ==> after.pending == st.pending)
    && (forall d :: 0 <= d < |st.pending| && st.pending[d].ip == x ==>
          after.pending == st.pending[..d] + st.pending[d + 1..])
  }

  /** The state with the reply logged and, in slot c, cached. */
  function Noted(st: State, x: Ip, mac: Mac): State {
    st.(reports := st.reports + {(x, mac)})
  }

  ghost predicate FirstFree(cache: seq<CacheEntry>, c: nat) {
    c < |cache| && !cache[c].valid && forall i :: 0 <= i < c ==> cache[i].valid
  }

  /**
   An ARP reply for the receiving interface. With a free slot it is cached, with the time, in the
   first one, and everything that waited for x leaves; without one the router stops. Lookups for
   x find the new entry exactly if no earlier one is for x: an older entry is not replaced.
   */
  ghost predicate ReplyOutcome(cfg: Config, st: State, after: State, x: Ip, mac: Mac, now: int) {
    && ((forall i :: 0 <= i < |st.cache| ==> st.cache[i].valid) ==> after == Noted(st, x, mac).(stopped := true))
    && (forall c: nat :: FirstFree(st.cache, c) ==>
          && ReleaseOutcome(cfg, Noted(st, x, mac).(cache := st.cache[c := CacheEntry(true, x, mac, now)]),
               after, x, mac)
          && (Cached(after.cache, x, c) <==> forall i :: 0 <= i < c ==> st.cache[i].ip != x))
  }

  lemma EveryReply(cfg: Config, st: State, e: Event, x: Ip, mac: Mac)
    requires WellFormedConfig(cfg) && Inv(cfg, st) && !st.stopped && (e.Arrival? ==> WellFormed(cfg, e.frame))
    requires Reports(cfg, e, x, mac)
    ensures AllRoutable(cfg, st.pending) && ReplyOutcome(cfg, st, Step(cfg, st, e), x, mac, e.now)
  {
    InvRoutable(cfg, st);
    assert Unique(st.pending) && HopsOk(cfg, st.pending);
    hide Inv, Learn, ReplyOutcome, Step, Reports;
    ReplyLearns(cfg, st, e, x, mac);
    LearnOutcome(cfg, st, x, mac, e.now);
  }

  lemma LearnOutcome(cfg: Config, st: State, x: Ip, mac: Mac, now: int)
    requires WellFormedConfig(cfg) && Unique(st.pending) && HopsOk(cfg, st.pending) && AllRoutable(cfg, st.pending)
    ensures ReplyOutcome(cfg, st, Learn(cfg, st, x, mac, now), x, mac, now)
  {
    hide Learn, ReleaseOutcome, Cached, AllRoutable, HopsOk, Unique, Noted;
    if forall i :: 0 <= i < |st.cache| ==> st.cache[i].valid {
      FullCache(cfg, st, x, mac, now);
    }
    forall c: nat | FirstFree(st.cache, c)
      ensures ReleaseOutcome(cfg, Noted(st, x, mac).(cache := st.cache[c := CacheEntry(true, x, mac, now)]),
                Learn(cfg, st, x, mac, now), x, mac)
      ensures Cached(Learn(cfg, st, x, mac, now).cache, x, c) <==> forall i :: 0 <= i < c ==> st.cache[i].ip != x
    {
      SlotFilled(cfg, st, x, mac, now, c);
    }
  }

  lemma FullCache(cfg: Config, st: State, x: Ip, mac: Mac, now: int)
    requires WellFormedConfig(cfg) && AllRoutable(cfg, st.pending)
    requires forall i :: 0 <= i < |st.cache| ==> st.cache[i].valid
    ensures Learn(cfg, st, x, mac, now) == Noted(st, x, mac).(stopped := true)
  {
  }

  lemma SlotFilled(cfg: Config, st: State, x: Ip, mac: Mac, now: int, c: nat)
    requires WellFormedConfig(cfg) && Unique(st.pending) && HopsOk(cfg, st.pending) && AllRoutable(cfg, st.pending)
    requires FirstFree(st.cache, c)
    ensures var after := Learn(cfg, st, x, mac, now);
            && ReleaseOutcome(cfg, Noted(st, x, mac).(cache := st.cache[c := CacheEntry(true, x, mac, now)]),
                 after, x, mac)
            && (Cached(after.cache, x, c) <==> forall i :: 0 <= i < c ==> st.cache[i].ip != x)
  {
    assert FreeSlot(st.cache) == Some(c);
    NewEntryFound(st.cache, CacheEntry(true, x, mac, now), c);
    Releases(cfg, Noted(st, x, mac).(cache := st.cache[c := CacheEntry(true, x, mac, now)]), x, mac);
    hide ReleaseAll, PendingLookup, ReleaseOutcome, Removed, AllRoutable, HopsOk, Unique, Cached;
  }

  lemma NewEntryFound(cache: seq<CacheEntry>, e: CacheEntry, c: nat)
    requires FirstFree(cache, c) && e.valid
    ensures Cached(cache[c := e], e.ip, c) <==> forall i :: 0 <= i < c ==> cache[i].ip != e.ip
  {
    assert forall i :: 0 <= i < c ==> cache[c := e][i] == cache[i];
  }

  lemma ReplyLearns(cfg: Config, st: State, e: Event, x: Ip, mac: Mac)
    requires WellFormedConfig(cfg) && AllRoutable(cfg, st.pending) && !st.stopped
    requires (e.Arrival? ==> WellFormed(cfg, e.frame)) && Reports(cfg, e, x, mac)
    ensures Step(cfg, st, e) == Learn(cfg, st, x, mac, e.now)
  {
    hide Learn;
  }

  /** The part of the handler after the address is cached. */
  lemma Releases(cfg: Config, st: State, x: Ip, mac: Mac)
    requires WellFormedConfig(cfg) && Unique(st.pending) && HopsOk(cfg, st.pending) && AllRoutable(cfg, st.pending)
    ensures var k := PendingLookup(st.pending, x);
            && (k.None? ==> ReleaseOutcome(cfg, st, st, x, mac))
            && (k.Some? ==>
                  ReleaseOutcome(cfg, st,
                    st.(trace := st.trace + ReleaseAll(cfg, st.pending[k.value].withheld, mac),
                        pending := Removed(st.pending, k.value)), x, mac))
  {
    var k := PendingLookup(st.pending, x);
    if k.None? {
      WaitingNone(st.pending, x);
    } else {
      WaitingAt(st.pending, k.value, x);
      assert HopOk(cfg, st.pending[k.value]);
      ReleasedAll(cfg, st.trace, st.pending[k.value], mac);
      hide ReleaseAll, AllReleased, HopOk, WaitingFor;
    }
  }

  lemma ReleasedAll(cfg: Config, trace: seq<Output>, r: Pending, mac: Mac)
    requires WellFormedConfig(cfg) && HopOk(cfg, r) && Routable(cfg, r.withheld)
    ensures AllReleased(cfg, trace, trace + ReleaseAll(cfg, r.withheld, mac), r.withheld, r.ip, mac)
  {
    hide RouteOf, NextHop, Goes;
    forall i | 0 <= i < |r.withheld|
      ensures Released(cfg, Release(cfg, r.withheld[i], mac), r.withheld[i], r.ip, mac)
    {
      var f := r.withheld[i];
      assert ForHop(cfg, f, r.ip);
      RouteFound(cfg, f);
      RouteGives(cfg, f);
      assert Goes(cfg, f, RouteOf(cfg, f).value, r.ip);
    }
  }

  lemma RouteGives(cfg: Config, f: Frame)
    requires WellFormedConfig(cfg) && Datagram(cfg, f) && RouteOf(cfg, f).Some?
    ensures RouteOf(cfg, f).value < |cfg.table| && OutIface(cfg, f) == cfg.table[RouteOf(cfg, f).value].iface
  {
  }

  /**
   Other frames: an ARP request for the receiving interface is answered to its sender; an ARP
   message for another address or with another operation, and a frame of another type, is ignored.
   */
  ghost predicate OtherOutcome(cfg: Config, st: State, after: State, f: Frame)
    requires WellFormed(cfg, f)
  {
    var mine := EtherType(f.raw) == 0x0806 && Load(f.raw, 38) == cfg.ifaces[f.inIface].ip;
    && (mine && Word(f.raw[20], f.raw[21]) == 1 ==>
          Says(st, after, ArpReply(f.inIface, f.raw[22..28], Load(f.raw, 28))))
    && (!mine || Word(f.raw[20], f.raw[21]) !in {1, 2} ==> after == st)
  }

  lemma EveryOtherFrame(cfg: Config, st: State, f: Frame, now: int)
    requires WellFormedConfig(cfg) && Inv(cfg, st) && !st.stopped && WellFormed(cfg, f) && !IsIp(f.raw)
    ensures AllRoutable(cfg, st.pending) && OtherOutcome(cfg, st, Step(cfg, st, Arrival(f, now)), f)
  {
    InvRoutable(cfg, st);
    hide Inv, Learn;
  }

  /** What becomes of an inbound frame, whatever it is. */
  ghost predicate FrameOutcome(cfg: Config, st: State, after: State, f: Frame, now: int)
    requires WellFormed(cfg, f)
  {
    && (EtherType(f.raw) in {0x0800, 0x86DD} ==> DatagramOutcome(cfg, st, after, f))
    && (EtherType(f.raw) !in {0x0800, 0x86DD} ==> OtherOutcome(cfg, st, after, f))
    && (forall x, mac :: Reports(cfg, Arrival(f, now), x, mac) ==> ReplyOutcome(cfg, st, after, x, mac, now))
  }

  lemma EveryFrame(cfg: Config, st: State, f: Frame, now: int)
    requires WellFormedConfig(cfg) && Inv(cfg, st) && !st.stopped && WellFormed(cfg, f)
    ensures AllRoutable(cfg, st.pending) && FrameOutcome(cfg, st, Step(cfg, st, Arrival(f, now)), f, now)
  {
    InvRoutable(cfg, st);
    hide Inv, DatagramOutcome, OtherOutcome, ReplyOutcome, Step, Reports;
    if IsIp(f.raw) {
      EveryDatagram(cfg, st, f, now);
    } else {
      EveryOtherFrame(cfg, st, f, now);
    }
    forall x, mac | Reports(cfg, Arrival(f, now), x, mac)
      ensures ReplyOutcome(cfg, st, Step(cfg, st, Arrival(f, now)), x, mac, now)
    {
      EveryReply(cfg, st, Arrival(f, now), x, mac);
    }
  }

  // ----- rounds of the ARP thread

  /** A request is sent again, or everything that waits in it is answered. */
  function Spoken(r: Pending): nat {
    if r.timesSent < 5 then 1 else |r.withheld|
  }

  /** Where in a round the outputs for request k begin, and which place it then has, if it stays. */
  function SpokenBefore(pending: seq<Pending>, k: nat): nat
    requires k <= |pending|
  {
    if k == 0 then 0 else Spoken(pending[0]) + SpokenBefore(pending[1..], k - 1)
  }

  function KeptBefore(pending: seq<Pending>, k: nat): nat
    requires k <= |pending|
  {
    if k == 0 then 0 else (if pending[0].timesSent < 5 then 1 else 0) + KeptBefore(pending[1..], k - 1)
  }

  /** What the round does for request k. */
  ghost predicate RoundOutcome(pending: seq<Pending>, k: nat, out: seq<Output>, after: seq<Pending>)
    requires k < |pending|
  {
    var r, at, place := pending[k], SpokenBefore(pending, k), KeptBefore(pending, k);
    && at + Spoken(r) <= |out|
    && (r.timesSent < 5 ==>
          && out[at] == ArpRequest(r.iface, r.ip)
          && place < |after| && after[place] == r.(timesSent := r.timesSent + 1))
    && (r.timesSent >= 5 ==> forall i :: 0 <= i < |r.withheld| ==>
          out[at + i] == Icmp(r.withheld[i], 3, 1, true))
  }

  lemma {:induction false} RoundSays(pending: seq<Pending>, k: nat)
    requires k < |pending|
    ensures RoundOutcome(pending, k, TickOutputs(pending), TickKeep(pending))
  {
    var r, rest := pending[0], pending[1..];
    var kept := if r.timesSent < 5 then [r.(timesSent := r.timesSent + 1)] else [];
    if k == 0 {
      FirstSpoken(pending);
    } else {
      RoundSays(rest, k - 1);
      SpokenLater(pending, k, TickOutput(r), TickOutputs(rest), kept, TickKeep(rest));
      hide RoundOutcome;
    }
  }

  lemma FirstSpoken(pending: seq<Pending>)
    requires pending != []
    ensures RoundOutcome(pending, 0, TickOutputs(pending), TickKeep(pending))
  {
    hide TickKeep, TickOutputs;
    var r := pending[0];
    assert TickOutputs(pending) == TickOutput(r) + TickOutputs(pending[1..]) by { FirstOfRound(pending); }
    assert r.timesSent < 5 ==> TickKeep(pending) != [] && TickKeep(pending)[0] == r.(timesSent := r.timesSent + 1) by {
      FirstOfRound(pending);
    }
  }

  lemma FirstOfRound(pending: seq<Pending>)
    requires pending != []
    ensures TickOutputs(pending) == TickOutput(pending[0]) + TickOutputs(pending[1..])
    ensures var r := pending[0];
            TickKeep(pending) == (if r.timesSent < 5 then [r.(timesSent := r.timesSent + 1)] else [])
                                 + TickKeep(pending[1..])
  {
  }

  lemma SpokenLater(pending: seq<Pending>, k: nat, first: seq<Output>, rest: seq<Output>,
                    kept: seq<Pending>, after: seq<Pending>)
    requires 0 < k < |pending| && RoundOutcome(pending[1..], k - 1, rest, after)
    requires |first| == Spoken(pending[0]) && |kept| == if pending[0].timesSent < 5 then 1 else 0
    ensures RoundOutcome(pending, k, first + rest, kept + after)
  {
    var at, place := SpokenBefore(pending[1..], k - 1), KeptBefore(pending[1..], k - 1);
    assert SpokenBefore(pending, k) == |first| + at && KeptBefore(pending, k) == |kept| + place;
    var r := pending[k];
    assert pending[1..][k - 1] == r;
    hide SpokenBefore, KeptBefore;
    assert forall j :: at <= j < at + Spoken(r) ==> rest[j] == (first + rest)[|first| + j];
  }

  lemma {:induction false} RoundSizes(pending: seq<Pending>)
    ensures |TickOutputs(pending)| == SpokenBefore(pending, |pending|)
    ensures |TickKeep(pending)| == KeptBefore(pending, |pending|)
  {
    if pending != [] { RoundSizes(pending[1..]); }
  }

  /**
   A round: an entry older than fifteen seconds is no longer valid and no other changes; for
   each request in turn, one sent fewer than five times is sent again and stays in its order, and
   one that was not is gone, with Host Unreachable for everything that waited in it.
   */
  ghost predicate WholeRound(st: State, after: State, now: int) {
    && after == st.(cache := after.cache, trace := after.trace, pending := after.pending)
    && |after.cache| == |st.cache|
    && (forall i :: 0 <= i < |st.cache| ==>
          && (after.cache[i].valid <==> st.cache[i].valid && now - st.cache[i].timeAdded <= 15)
          && after.cache[i] == st.cache[i].(valid := after.cache[i].valid))
    && |after.trace| == |st.trace| + SpokenBefore(st.pending, |st.pending|)
    && after.trace[..|st.trace|] == st.trace
    && |after.pending| == KeptBefore(st.pending, |st.pending|)
    && (forall k :: 0 <= k < |st.pending| ==> RoundOutcome(st.pending, k, after.trace[|st.trace|..], after.pending))
  }

  lemma TickWhole(st: State, now: int)
    ensures WholeRound(st, Tick(st, now), now)
  {
    RoundSizes(st.pending);
    forall k | 0 <= k < |st.pending|
      ensures RoundOutcome(st.pending, k, TickOutputs(st.pending), TickKeep(st.pending))
    {
      RoundSays(st.pending, k);
    }
    var after := Tick(st, now);
    assert after.trace[|st.trace|..] == TickOutputs(st.pending);
    hide TickOutputs, TickKeep, RoundOutcome, SpokenBefore, KeptBefore;
  }

  lemma EveryRound(cfg: Config, st: State, now: int)
    requires WellFormedConfig(cfg) && Inv(cfg, st) && !st.stopped
    ensures AllRoutable(cfg, st.pending) && WholeRound(st, Step(cfg, st, Round(now)), now)
  {
    InvRoutable(cfg, st);
    TickWhole(st, now);
    hide Inv, WholeRound;
  }
}
