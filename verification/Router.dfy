/**
 The router context of src/c/router.c and src/c/arp.c as an object: the cache array, the list
 of pending requests, and the operations on them, each equal to its step of the transition
 system. The withheld and pending lists are sequences here; their links are in UtList.
 */
module Router {
  import opened Wrappers
  import opened LongestMatch
  import opened Packets
  import opened RouterSpec
  import opened RouterProofs
  import opened RouterOutcomes

  /** What a tick does with the first request and with the others. */
  lemma FirstOfTick(pending: seq<Pending>)
    requires pending != []
    ensures var r, rest := pending[0], pending[1..];
            && TickOutputs(pending) == TickOutput(r) + TickOutputs(rest)
            && TickKeep(pending)
               == if r.timesSent < MAX_SENT then [r.(timesSent := r.timesSent + 1)] + TickKeep(rest) else TickKeep(rest)
  {
  }

  class Context {
    const cfg: Config
    const cache: array<CacheEntry>
    var pending: seq<Pending>
    var trace: seq<Output>
    var stopped: bool
    ghost var held: seq<Frame>
    ghost var reports: set<(Ip, Mac)>

    ghost function Now(): State
      reads this, cache
    {
      State(cache[..], pending, trace, held, reports, stopped)
    }

    constructor (cfg: Config)
      ensures this.cfg == cfg && Started(Now()) && fresh(cache)
    {
      this.cfg := cfg;
      cache := new CacheEntry[ARPCACHE_SIZE](_ => CacheEntry(false, 0, [0, 0, 0, 0, 0, 0], 0));
      pending, trace, stopped, held, reports := [], [], false, [], {};
    }

    /** `chirouter_arp_cache_lookup` */
    method LookupCache(ip: Ip) returns (k: Option<nat>)
      ensures k == CacheLookup(cache[..], ip)
    {
      for i := 0 to cache.Length
        invariant forall j :: 0 <= j < i ==> !(cache[j].valid && cache[j].ip == ip)
      {
        if cache[i].valid && cache[i].ip == ip {
          return Some(i);
        }
      }
      return None;
    }

    /** `chirouter_arp_cache_add`: 0 on success, 1 when every entry is in use. */
    method AddToCache(ip: Ip, mac: Mac, now: int) returns (rc: int)
      modifies cache
      ensures match FreeSlot(old(cache[..]))
              case None => rc == 1 && cache[..] == old(cache[..])
              case Some(c) => rc == 0 && cache[..] == old(cache[..])[c := CacheEntry(true, ip, mac, now)]
    {
      for i := 0 to cache.Length
        invariant cache[..] == old(cache[..])
        invariant forall j :: 0 <= j < i ==> cache[j].valid
      {
        if !cache[i].valid {
          assert FreeSlot(old(cache[..])) == Some(i);
          cache[i] := CacheEntry(true, ip, mac, now);
          return 0;
        }
      }
      return 1;
    }

    /** `chirouter_arp_pending_req_lookup` */
    method LookupPending(ip: Ip) returns (k: Option<nat>)
      ensures k == PendingLookup(pending, ip)
    {
      for i := 0 to |pending|
        invariant forall j :: 0 <= j < i ==> pending[j].ip != ip
      {
        if pending[i].ip == ip {
          return Some(i);
        }
      }
      return None;
    }

    /** `chirouter_find_match_router` */
    method FindMatchRouter(f: Frame) returns (found: bool)
      requires Datagram(cfg, f)
      ensures found <==> exists i :: 0 <= i < |cfg.ifaces| && cfg.ifaces[i].ip == IpDst(f.raw)
    {
      for i := 0 to |cfg.ifaces|
        invariant forall j :: 0 <= j < i ==> cfg.ifaces[j].ip != IpDst(f.raw)
      {
        if cfg.ifaces[i].ip == IpDst(f.raw) {
          return true;
        }
      }
      return false;
    }

    /** `chirouter_arp_pending_req_add` and `chirouter_arp_pending_req_add_frame`, as the handler calls them. */
    method AddFrame(f: Frame, hop: Ip, iface: nat)
      modifies this`pending, this`trace, this`held
      ensures Now() == Withhold(old(Now()), f, hop, iface)
    {
      var k := LookupPending(hop);
      if k.None? {
        pending := pending + [Pending(hop, iface, 1, [f], |trace|)];
        trace := trace + [ArpRequest(iface, hop)];
      } else {
        var r := pending[k.value];
        pending := pending[k.value := r.(withheld := r.withheld + [f])];
      }
      held := held + [f];
    }

    /** The part of the handler that routes a datagram. */
    method RouteDatagram(f: Frame)
      requires WellFormedConfig(cfg) && Datagram(cfg, f)
      modifies this`pending, this`trace, this`held
      ensures Now() == RouterSpec.Route(cfg, old(Now()), f)
    {
      var entry := GetMatchingEntry(cfg.table, IpDst(f.raw));
      if entry.None? {
        trace := trace + [Icmp(f, DEST_UNREACHABLE, NET_UNREACHABLE, false)];
        return;
      }
      var r := cfg.table[entry.value];
      assert r in cfg.table;
      var hop := ForwardIp(r, IpDst(f.raw));
      var c := LookupCache(hop);
      if c.None? {
        AddFrame(f, hop, r.iface);
      } else if Ttl(f.raw) == 1 {
        trace := trace + [Icmp(f, TIME_EXCEEDED, 0, false)];
      } else {
        trace := trace + [Forward(f, r.iface, cache[c.value].mac, false)];
      }
    }

    /** The IP branch of `chirouter_process_ethernet_frame`. */
    method ProcessIp(f: Frame)
      requires WellFormedConfig(cfg) && Datagram(cfg, f)
      modifies this`pending, this`trace, this`held
      ensures Now() == HandleIp(cfg, old(Now()), f)
    {
      var mine := IpDst(f.raw) == cfg.ifaces[f.inIface].ip;
      var other := FindMatchRouter(f);
      if mine {
        if Proto(f.raw) == PROTO_TCP || Proto(f.raw) == PROTO_UDP {
          trace := trace + [Icmp(f, DEST_UNREACHABLE, PORT_UNREACHABLE, false)];
        } else if Ttl(f.raw) == 1 {
          trace := trace + [Icmp(f, TIME_EXCEEDED, 0, false)];
        } else if Proto(f.raw) == PROTO_ICMP {
          if f.raw[ETH + IPH] == ECHO_REQUEST {
            trace := trace + [Icmp(f, ECHO_REPLY, 0, false)];
          }
        } else {
          trace := trace + [Icmp(f, DEST_UNREACHABLE, PROTOCOL_UNREACHABLE, false)];
        }
      } else if other {
        trace := trace + [Icmp(f, DEST_UNREACHABLE, HOST_UNREACHABLE, false)];
      } else {
        RouteDatagram(f);
      }
    }

    /** The loop over the withheld frames of an answered request. */
    method ReleaseFrames(frames: seq<Frame>, mac: Mac)
      requires WellFormedConfig(cfg) && Routable(cfg, frames)
      modifies this`trace
      ensures trace == old(trace) + ReleaseAll(cfg, frames, mac)
    {
      for i := 0 to |frames|
        invariant trace == old(trace) + ReleaseAll(cfg, frames, mac)[..i]
      {
        var o := Release(cfg, frames[i], mac);
        assert ReleaseAll(cfg, frames, mac)[..i + 1] == ReleaseAll(cfg, frames, mac)[..i] + [o];
        trace := trace + [o];
      }
      assert ReleaseAll(cfg, frames, mac)[..|frames|] == ReleaseAll(cfg, frames, mac);
    }

    /** An ARP reply addressed to the interface: -1 when the cache is full, which stops the router. */
    method ProcessReply(ip: Ip, mac: Mac, now: int) returns (rc: int)
      requires WellFormedConfig(cfg) && AllRoutable(cfg, pending)
      modifies this, cache
      ensures Now() == Learn(cfg, old(Now()), ip, mac, now)
      ensures rc == if FreeSlot(old(cache[..])).None? then -1 else 0
    {
      reports := reports + {(ip, mac)};
      var added := AddToCache(ip, mac, now);
      if added != 0 {
        stopped := true;
        return -1;
      }
      var k := LookupPending(ip);
      if k.Some? {
        ReleaseFrames(pending[k.value].withheld, mac);
        pending := Removed(pending, k.value);
      }
      rc := 0;
    }

    /** The ARP branch of `chirouter_process_ethernet_frame`. */
    method ProcessArp(f: Frame, now: int) returns (rc: int)
      requires WellFormedConfig(cfg) && WellFormed(cfg, f) && IsArp(f.raw) && AllRoutable(cfg, pending)
      modifies this, cache
      ensures Now() == HandleArp(cfg, old(Now()), f, now)
      ensures rc == 0 || (rc == -1 && stopped)
    {
      rc := 0;
      if Load(f.raw, 38) == cfg.ifaces[f.inIface].ip {
        if ArpOp(f.raw) == 2 {
          rc := ProcessReply(Load(f.raw, 28), f.raw[22..28], now);
        } else if ArpOp(f.raw) == 1 {
          trace := trace + [ArpReply(f.inIface, f.raw[22..28], Load(f.raw, 28))];
        }
      }
    }

    /** `chirouter_process_ethernet_frame`, run while the router has not stopped. */
    method ProcessFrame(f: Frame, now: int) returns (rc: int)
      requires WellFormedConfig(cfg) && WellFormed(cfg, f) && !stopped && Inv(cfg, Now())
      modifies this, cache
      ensures old(AllRoutable(cfg, pending)) && Now() == Step(cfg, old(Now()), Arrival(f, now)) && Inv(cfg, Now())
      ensures FrameOutcome(cfg, old(Now()), Now(), f, now)
      ensures rc == 0 || (rc == -1 && stopped)
    {
      ghost var before := Now();
      InvRoutable(cfg, before);
      StepKeeps(cfg, before, Arrival(f, now));
      EveryFrame(cfg, before, f, now);
      hide Inv, FrameOutcome;
      rc := 0;
      if IsIp(f.raw) {
        ProcessIp(f);
      } else if IsArp(f.raw) {
        rc := ProcessArp(f, now);
      }
    }

    /** The purge loop of `chirouter_arp_process`. */
    method PurgeCache(now: int)
      modifies cache
      ensures cache[..] == Purge(old(cache[..]), now)
    {
      for i := 0 to cache.Length
        invariant forall j :: 0 <= j < cache.Length ==>
                    cache[j] == if j < i then Purge(old(cache[..]), now)[j] else old(cache[j])
      {
        if cache[i].valid && now - cache[i].timeAdded > ENTRY_TIMEOUT {
          cache[i] := cache[i].(valid := false);
        }
      }
    }

    /** `chirouter_arp_process_pending_req`: true stands for ARP_REQ_KEEP. */
    method ProcessPending(r: Pending) returns (keep: bool)
      modifies this`trace
      ensures trace == old(trace) + TickOutput(r) && (keep <==> r.timesSent < MAX_SENT)
    {
      keep := r.timesSent < MAX_SENT;
      if keep {
        trace := trace + [ArpRequest(r.iface, r.ip)];
      } else {
        ghost var out := UnreachableAll(r.withheld);
        for i := 0 to |r.withheld|
          invariant trace == old(trace) + out[..i]
        {
          assert out[..i + 1] == out[..i] + [out[i]];
          trace := trace + [Icmp(r.withheld[i], DEST_UNREACHABLE, HOST_UNREACHABLE, true)];
        }
        assert out[..|out|] == out;
      }
    }

    /** The loop over the pending requests, which deletes the requests that gave up. */
    method ProcessAllPending()
      modifies this`pending, this`trace
      ensures trace == old(trace) + TickOutputs(old(pending)) && pending == TickKeep(old(pending))
    {
      ghost var all := pending;
      var kept: seq<Pending>, rest := [], pending;
      while rest != []
        invariant pending == kept + rest
        invariant trace + TickOutputs(rest) == old(trace) + TickOutputs(all)
        invariant kept + TickKeep(rest) == TickKeep(all)
        decreases |rest|
      {
        FirstOfTick(rest);
        hide TickOutputs, TickKeep, TickOutput;
        var r := rest[0];
        ghost var more := r.(timesSent := r.timesSent + 1);
        Associate(trace, TickOutput(r), TickOutputs(rest[1..]));
        Associate(kept, [more], TickKeep(rest[1..]));
        var keep := ProcessPending(r);
        if keep {
          kept := kept + [r.(timesSent := r.timesSent + 1)];
        }
        rest := rest[1..];
        pending := kept + rest;
      }
    }

    /** One round of `chirouter_arp_process`. */
    method ArpRound(now: int)
      requires !stopped && Inv(cfg, Now())
      modifies this`pending, this`trace, cache
      ensures Now() == Tick(old(Now()), now) && Inv(cfg, Now()) && WholeRound(old(Now()), Now(), now)
    {
      TickKeeps(cfg, Now(), now);
      TickWhole(Now(), now);
      hide Inv, WholeRound;
      PurgeCache(now);
      ProcessAllPending();
    }
  }
}
