/**
 The router of src/c/router.c and src/c/arp.c as a transition system: a step handles one
 inbound frame, or is one round of the one-second ARP thread. Sending appends to a trace.

 Steps are atomic here. The state also logs what was withheld and which ARP replies came in.
 */
module RouterSpec {
  import opened Wrappers
  import opened Checksum
  import opened LongestMatch
  import opened Packets

  const ARPCACHE_SIZE := 100
  const ENTRY_TIMEOUT := 15
  const MAX_SENT := 5

  datatype Iface = Iface(mac: Mac, ip: Ip)
  datatype Config = Config(ifaces: seq<Iface>, table: seq<Route>)

  /** An inbound frame; `id` tells apart frames with the same bytes. */
  datatype Frame = Frame(id: nat, raw: seq<Byte>, inIface: nat)

  datatype CacheEntry = CacheEntry(valid: bool, ip: Ip, mac: Mac, timeAdded: int)

  /** A pending request; `born` is the length of the trace when it was added. */
  datatype Pending = Pending(ip: Ip, iface: nat, timesSent: nat, withheld: seq<Frame>, born: nat)

  /** What the router sends; `queued` marks the fate of a frame that had been withheld. */
  datatype Output =
    | ArpRequest(iface: nat, ip: Ip)
    | ArpReply(iface: nat, mac: Mac, ip: Ip)
    | Forward(frame: Frame, iface: nat, mac: Mac, queued: bool)
    | Icmp(frame: Frame, kind: Byte, code: Byte, queued: bool)

  datatype State = State(
    cache: seq<CacheEntry>,
    pending: seq<Pending>,
    trace: seq<Output>,
    held: seq<Frame>,
    reports: set<(Ip, Mac)>,
    stopped: bool)

  predicate IsIp(raw: seq<Byte>) {
    |raw| >= ETH && (EtherType(raw) == 0x0800 || EtherType(raw) == 0x86DD)
  }

  predicate IsArp(raw: seq<Byte>) {
    |raw| >= ETH && EtherType(raw) == 0x0806
  }

  /** What the server guarantees, and the lengths the handlers rely on. */
  predicate WellFormed(cfg: Config, f: Frame) {
    && f.inIface < |cfg.ifaces| && |f.raw| >= ETH
    && (IsIp(f.raw) ==> WellFormedIp(f.raw))
    && (IsArp(f.raw) ==> |f.raw| >= ETH + 28)
  }

  predicate WellFormedConfig(cfg: Config) {
    forall r :: r in cfg.table ==> r.iface < |cfg.ifaces|
  }

  predicate Datagram(cfg: Config, f: Frame) {
    WellFormed(cfg, f) && IsIp(f.raw)
  }

  function RouteOf(cfg: Config, f: Frame): Option<nat>
    requires Datagram(cfg, f)
  {
    Best(cfg.table, IpDst(f.raw), |cfg.table|)
  }

  function NextHop(cfg: Config, f: Frame): Option<Ip>
    requires Datagram(cfg, f)
  {
    match RouteOf(cfg, f)
    case None => None
    case Some(k) => Some(ForwardIp(cfg.table[k], IpDst(f.raw)))
  }

  function OutIface(cfg: Config, f: Frame): (i: nat)
    requires WellFormedConfig(cfg) && Datagram(cfg, f) && RouteOf(cfg, f).Some?
    ensures i < |cfg.ifaces|
  {
    var k := RouteOf(cfg, f).value;
    assert cfg.table[k] in cfg.table;
    cfg.table[k].iface
  }

  /** The bytes of a frame the router sends on behalf of a datagram. */
  function Bytes(cfg: Config, o: Output): seq<Byte>
    requires o.Forward? || o.Icmp?
    requires Datagram(cfg, o.frame)
    requires o.Forward? ==> o.iface < |cfg.ifaces|
    requires o.Icmp? ==> Answerable(o.frame.raw, o.kind)
  {
    match o
    case Forward(f, iface, mac, _) => Forwarded(f.raw, mac, cfg.ifaces[iface].mac)
    case Icmp(f, kind, code, _) => IcmpFrame(f.raw, kind, code, cfg.ifaces[f.inIface].mac, cfg.ifaces[f.inIface].ip)
  }

  /** `chirouter_arp_cache_lookup`: the first valid entry for the address. */
  function CacheLookup(cache: seq<CacheEntry>, ip: Ip): (k: Option<nat>)
    ensures k.Some? ==> k.value < |cache| && cache[k.value].valid && cache[k.value].ip == ip
    ensures k.Some? ==> forall i :: 0 <= i < k.value ==> !(cache[i].valid && cache[i].ip == ip)
    ensures k.None? ==> forall i :: 0 <= i < |cache| ==> !(cache[i].valid && cache[i].ip == ip)
  {
    if cache == [] then None
    else if cache[0].valid && cache[0].ip == ip then Some(0)
    else match CacheLookup(cache[1..], ip) case None => None case Some(i) => Some(i + 1)
  }

  /** The slot `chirouter_arp_cache_add` uses: the first invalid one. */
  function FreeSlot(cache: seq<CacheEntry>): (k: Option<nat>)
    ensures k.Some? ==> k.value < |cache| && !cache[k.value].valid
    ensures k.Some? ==> forall i :: 0 <= i < k.value ==> cache[i].valid
    ensures k.None? ==> forall i :: 0 <= i < |cache| ==> cache[i].valid
  {
    if cache == [] then None
    else if !cache[0].valid then Some(0)
    else match FreeSlot(cache[1..]) case None => None case Some(i) => Some(i + 1)
  }

  /** `chirouter_arp_pending_req_lookup` */
  function PendingLookup(pending: seq<Pending>, ip: Ip): (k: Option<nat>)
    ensures k.Some? ==> k.value < |pending| && pending[k.value].ip == ip
    ensures k.Some? ==> forall i :: 0 <= i < k.value ==> pending[i].ip != ip
    ensures k.None? ==> forall i :: 0 <= i < |pending| ==> pending[i].ip != ip
  {
    if pending == [] then None
    else if pending[0].ip == ip then Some(0)
    else match PendingLookup(pending[1..], ip) case None => None case Some(i) => Some(i + 1)
  }

  function Send(st: State, o: Output): State {
    st.(trace := st.trace + [o])
  }

  /** No cached address for the next hop: the datagram joins the pending request for it. */
  function Withhold(st: State, f: Frame, hop: Ip, iface: nat): State {
    match PendingLookup(st.pending, hop)
    case None =>
      st.(trace := st.trace + [ArpRequest(iface, hop)],
          pending := st.pending + [Pending(hop, iface, 1, [f], |st.trace|)],
          held := st.held + [f])
    case Some(k) =>
      var r := st.pending[k];
      st.(pending := st.pending[k := r.(withheld := r.withheld + [f])], held := st.held + [f])
  }

  /** The third case of the handler: a datagram for somewhere else. */
  function Route(cfg: Config, st: State, f: Frame): State
    requires WellFormedConfig(cfg) && Datagram(cfg, f)
  {
    if NextHop(cfg, f).None? then Send(st, Icmp(f, DEST_UNREACHABLE, NET_UNREACHABLE, false))
    else
      var hop := NextHop(cfg, f).value;
      match CacheLookup(st.cache, hop)
      case None => Withhold(st, f, hop, OutIface(cfg, f))
      case Some(c) =>
        if Ttl(f.raw) == 1 then Send(st, Icmp(f, TIME_EXCEEDED, 0, false))
        else Send(st, Forward(f, OutIface(cfg, f), st.cache[c].mac, false))
  }

  function HandleIp(cfg: Config, st: State, f: Frame): State
    requires WellFormedConfig(cfg) && Datagram(cfg, f)
  {
    if IpDst(f.raw) == cfg.ifaces[f.inIface].ip then
      if Proto(f.raw) == PROTO_TCP || Proto(f.raw) == PROTO_UDP then
        Send(st, Icmp(f, DEST_UNREACHABLE, PORT_UNREACHABLE, false))
      else if Ttl(f.raw) == 1 then Send(st, Icmp(f, TIME_EXCEEDED, 0, false))
      else if Proto(f.raw) == PROTO_ICMP then
        if f.raw[ETH + IPH] == ECHO_REQUEST then Send(st, Icmp(f, ECHO_REPLY, 0, false)) else st
      else Send(st, Icmp(f, DEST_UNREACHABLE, PROTOCOL_UNREACHABLE, false))
    else if exists i :: 0 <= i < |cfg.ifaces| && cfg.ifaces[i].ip == IpDst(f.raw) then
      Send(st, Icmp(f, DEST_UNREACHABLE, HOST_UNREACHABLE, false))
    else Route(cfg, st, f)
  }

  /** What happens to a withheld datagram when its next hop answers. */
  function Release(cfg: Config, f: Frame, mac: Mac): Output
    requires WellFormedConfig(cfg) && Datagram(cfg, f) && RouteOf(cfg, f).Some?
  {
    if Ttl(f.raw) == 1 then Icmp(f, TIME_EXCEEDED, 0, true)
    else Forward(f, OutIface(cfg, f), mac, true)
  }

  predicate Routable(cfg: Config, frames: seq<Frame>) {
    forall i :: 0 <= i < |frames| ==> Datagram(cfg, frames[i]) && RouteOf(cfg, frames[i]).Some?
  }

  function ReleaseAll(cfg: Config, frames: seq<Frame>, mac: Mac): seq<Output>
    requires WellFormedConfig(cfg) && Routable(cfg, frames)
  {
    seq(|frames|, i requires 0 <= i < |frames| => Release(cfg, frames[i], mac))
  }

  function UnreachableAll(frames: seq<Frame>): seq<Output> {
    seq(|frames|, i requires 0 <= i < |frames| => Icmp(frames[i], DEST_UNREACHABLE, HOST_UNREACHABLE, true))
  }

  function Removed<T>(s: seq<T>, k: nat): seq<T>
    requires k < |s|
  {
    s[..k] + s[k + 1..]
  }

  /** The withheld datagrams of every pending request can be routed. */
  predicate AllRoutable(cfg: Config, pending: seq<Pending>) {
    forall k :: 0 <= k < |pending| ==> Routable(cfg, pending[k].withheld)
  }

  /** An ARP reply for this interface: learn it, then release what waited for it; stop if the cache is full. */
  function Learn(cfg: Config, st: State, ip: Ip, mac: Mac, now: int): State
    requires WellFormedConfig(cfg) && AllRoutable(cfg, st.pending)
  {
    var st := st.(reports := st.reports + {(ip, mac)});
    match FreeSlot(st.cache)
    case None => st.(stopped := true)
    case Some(c) =>
      var st := st.(cache := st.cache[c := CacheEntry(true, ip, mac, now)]);
      match PendingLookup(st.pending, ip)
      case None => st
      case Some(k) =>
        st.(trace := st.trace + ReleaseAll(cfg, st.pending[k].withheld, mac), pending := Removed(st.pending, k))
  }

  function ArpOp(raw: seq<Byte>): nat
    requires |raw| >= ETH + 28
  {
    Word(raw[20], raw[21])
  }

  function HandleArp(cfg: Config, st: State, f: Frame, now: int): State
    requires WellFormedConfig(cfg) && WellFormed(cfg, f) && IsArp(f.raw) && AllRoutable(cfg, st.pending)
  {
    var sha: Mac, spa, tpa := f.raw[22..28], Load(f.raw, 28), Load(f.raw, 38);
    if tpa != cfg.ifaces[f.inIface].ip then st
    else if ArpOp(f.raw) == 2 then Learn(cfg, st, spa, sha, now)
    else if ArpOp(f.raw) == 1 then Send(st, ArpReply(f.inIface, sha, spa))
    else st
  }

  /** `chirouter_process_ethernet_frame` */
  function HandleFrame(cfg: Config, st: State, f: Frame, now: int): State
    requires WellFormedConfig(cfg) && WellFormed(cfg, f) && AllRoutable(cfg, st.pending)
  {
    if IsIp(f.raw) then HandleIp(cfg, st, f)
    else if IsArp(f.raw) then HandleArp(cfg, st, f, now)
    else st
  }

  function Purge(cache: seq<CacheEntry>, now: int): (c: seq<CacheEntry>)
    ensures |c| == |cache|
  {
    seq(|cache|, i requires 0 <= i < |cache| =>
      if cache[i].valid && now - cache[i].timeAdded > ENTRY_TIMEOUT then cache[i].(valid := false) else cache[i])
  }

  /** What one tick sends for a pending request. */
  function TickOutput(r: Pending): seq<Output> {
    if r.timesSent < MAX_SENT then [ArpRequest(r.iface, r.ip)] else UnreachableAll(r.withheld)
  }

  function TickOutputs(pending: seq<Pending>): seq<Output> {
    if pending == [] then [] else TickOutput(pending[0]) + TickOutputs(pending[1..])
  }

  /** The requests a tick keeps: those sent fewer than five times, now sent once more. */
  function TickKeep(pending: seq<Pending>): seq<Pending> {
    if pending == [] then []
    else
      var r := pending[0];
      (if r.timesSent < MAX_SENT then [r.(timesSent := r.timesSent + 1)] else []) + TickKeep(pending[1..])
  }

  /** One round of `chirouter_arp_process`. */
  function Tick(st: State, now: int): State {
    st.(cache := Purge(st.cache, now),
        trace := st.trace + TickOutputs(st.pending),
        pending := TickKeep(st.pending))
  }

  datatype Event = Arrival(frame: Frame, now: int) | Round(now: int)

  /** One step of a running router; a stopped one does nothing more. */
  function Step(cfg: Config, st: State, e: Event): State
    requires WellFormedConfig(cfg) && AllRoutable(cfg, st.pending)
    requires e.Arrival? ==> WellFormed(cfg, e.frame)
  {
    if st.stopped then st
    else match e
      case Arrival(f, now) => HandleFrame(cfg, st, f, now)
      case Round(now) => Tick(st, now)
  }

  predicate Started(st: State) {
    && |st.cache| == ARPCACHE_SIZE && (forall i :: 0 <= i < |st.cache| ==> !st.cache[i].valid)
    && st.pending == [] && st.trace == [] && st.held == [] && st.reports == {} && !st.stopped
  }
}
