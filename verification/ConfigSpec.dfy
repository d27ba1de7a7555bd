/**
 The configuration exchange: what `ChirouterClient.connect` sends for a topology, what the
 state machine of src/c/server.c makes of a message, and the server a topology should lead to.
 */
module ConfigSpec {
  import opened Wrappers
  import opened Checksum
  import opened Messages

  datatype IfaceConf = IfaceConf(hwaddr: Option<Hw>, ip: Quad)
  datatype RouteConf = RouteConf(dest: Quad, mask: Quad, gw: Quad, metric: nat, iface: Bytes)
  datatype RouterConf = RouterConf(name: Bytes, interfaces: map<Bytes, IfaceConf>, rtable: seq<RouteConf>)

  /** Lexicographic order of names. */
  predicate Before(a: Bytes, b: Bytes) {
    b != [] && (a == [] || a[0] < b[0] || (a[0] == b[0] && Before(a[1..], b[1..])))
  }

  /** `sorted(keys)`: every key once, in increasing order. */
  predicate Listing(names: seq<Bytes>, keys: set<Bytes>) {
    && (forall i, j :: 0 <= i < j < |names| ==> Before(names[i], names[j]))
    && (forall x :: x in names ==> x in keys) && (forall x :: x in keys ==> x in names)
  }

  /** The limits of the message fields, and routes that name an interface of their router. */
  predicate RouterFits(r: RouterConf) {
    && |r.interfaces| < 256 && |r.rtable| < 256 && |r.name| <= MAX_ROUTER_NAMELEN
    && (forall x :: x in r.interfaces ==> |x| <= MAX_IFACE_NAMELEN)
    && (forall k :: 0 <= k < |r.rtable| ==> r.rtable[k].metric < WORD && r.rtable[k].iface in r.interfaces)
  }

  predicate TopologyFits(t: seq<RouterConf>) {
    |t| < 256 && forall i :: 0 <= i < |t| ==> RouterFits(t[i])
  }

  /** For each router its interface names in order. */
  predicate Listings(t: seq<RouterConf>, names: seq<seq<Bytes>>) {
    && |names| == |t|
    && forall i :: 0 <= i < |t| ==> Listing(names[i], t[i].interfaces.Keys) && |names[i]| == |t[i].interfaces|
  }

  function Position(names: seq<Bytes>, x: Bytes): (k: nat)
    requires x in names
    ensures k < |names| && names[k] == x
  {
    if names[0] == x then 0 else 1 + Position(names[1..], x)
  }

  function Hardware(i: IfaceConf): Hw {
    if i.hwaddr.None? then [0, 0, 0, 0, 0, 0] else i.hwaddr.value
  }

  predicate RouterReady(rid: nat, r: RouterConf, names: seq<Bytes>) {
    rid < 256 && RouterFits(r) && Listing(names, r.interfaces.Keys) && |names| == |r.interfaces|
  }

  function IfaceMessage(rid: nat, r: RouterConf, names: seq<Bytes>, k: nat): Message
    requires RouterReady(rid, r, names) && k < |names|
  {
    var i := r.interfaces[names[k]];
    Interface(rid, k, Hardware(i), i.ip, names[k])
  }

  function RouteMessage(rid: nat, r: RouterConf, names: seq<Bytes>, k: nat): Message
    requires RouterReady(rid, r, names) && k < |r.rtable|
  {
    var e := r.rtable[k];
    RTableEntry(rid, Position(names, e.iface), e.metric, e.dest, e.mask, e.gw)
  }

  function IfaceMessages(rid: nat, r: RouterConf, names: seq<Bytes>, n: nat): seq<Message>
    requires RouterReady(rid, r, names) && n <= |names|
  {
    if n == 0 then [] else IfaceMessages(rid, r, names, n - 1) + [IfaceMessage(rid, r, names, n - 1)]
  }

  function RouteMessages(rid: nat, r: RouterConf, names: seq<Bytes>, n: nat): seq<Message>
    requires RouterReady(rid, r, names) && n <= |r.rtable|
  {
    if n == 0 then [] else RouteMessages(rid, r, names, n - 1) + [RouteMessage(rid, r, names, n - 1)]
  }

  function RouterMessage(rid: nat, r: RouterConf, names: seq<Bytes>): Message
    requires RouterReady(rid, r, names)
  {
    Router(rid, |names|, |r.rtable|, r.name)
  }

  function RouterMessages(rid: nat, r: RouterConf, names: seq<Bytes>): seq<Message>
    requires RouterReady(rid, r, names)
  {
    [RouterMessage(rid, r, names)] + IfaceMessages(rid, r, names, |names|) + RouteMessages(rid, r, names, |r.rtable|)
  }

  function AllRouters(t: seq<RouterConf>, names: seq<seq<Bytes>>, n: nat): seq<Message>
    requires TopologyFits(t) && Listings(t, names) && n <= |t|
  {
    if n == 0 then [] else AllRouters(t, names, n - 1) + RouterMessages(n - 1, t[n - 1], names[n - 1])
  }

  /** Everything `connect` sends. */
  function Greeting(t: seq<RouterConf>): seq<Message>
    requires |t| < 256
  {
    [Hello(CLIENT_TO_ROUTER), Routers(|t|)]
  }

  function Configuration(t: seq<RouterConf>, names: seq<seq<Bytes>>): seq<Message>
    requires TopologyFits(t) && Listings(t, names)
  {
    Greeting(t) + AllRouters(t, names, |t|) + [EndConfig]
  }

  // ----- the server

  datatype Phase = HelloWait | Configuring | Running

  datatype Iface = Iface(poxIfaceId: Byte, name: Bytes, mac: Hw, ip: Quad)

  /** A routing table entry; the C pointer to the interface is its index. */
  datatype Entry = Entry(dest: Quad, mask: Quad, gw: Quad, metric: nat, iface: nat)

  datatype RouterCtx = RouterCtx(
    rid: Byte, name: Bytes, maxInterfaces: nat, interfaces: seq<Iface>, maxRtable: nat, rtable: seq<Entry>)

  datatype Server = Server(phase: Phase, maxRouters: nat, routers: seq<RouterCtx>)

  /** `chirouter_server_process_single_message`; None is -1. */
  function Process(s: Server, m: Message): Option<Server> {
    match m
    case Hello(_) => if s.phase.HelloWait? then Some(s.(phase := Configuring)) else None
    case Routers(n) => if s.phase.Configuring? then Some(s.(maxRouters := n, routers := [])) else None
    case Router(rid, ni, nr, name) =>
      if s.phase.Configuring? && rid == |s.routers| then
        Some(s.(routers := s.routers + [RouterCtx(rid, name, ni, [], nr, [])]))
      else None
    case Interface(rid, k, hw, ip, name) =>
      if s.phase.Configuring? && rid < |s.routers| && k == |s.routers[rid].interfaces| then
        var r := s.routers[rid];
        Some(s.(routers := s.routers[rid := r.(interfaces := r.interfaces + [Iface(k, name, hw, ip)])]))
      else None
    case RTableEntry(rid, k, metric, dest, mask, gw) =>
      if && s.phase.Configuring? && rid < |s.routers|
         && k < |s.routers[rid].interfaces| && |s.routers[rid].rtable| < s.routers[rid].maxRtable then
        var r := s.routers[rid];
        Some(s.(routers := s.routers[rid := r.(rtable := r.rtable + [Entry(dest, mask, gw, metric, k)])]))
      else None
    case EndConfig =>
      if |s.routers| == s.maxRouters
         && forall i :: 0 <= i < |s.routers| ==> |s.routers[i].interfaces| == s.routers[i].maxInterfaces then
        Some(s.(phase := Running))
      else None
    case Frame(_, rid, k, frame) =>
      if s.phase.Running? && rid < |s.routers| && k < |s.routers[rid].interfaces| then Some(s) else None
  }

  /** The server after a sequence of messages; None if one of them is refused. */
  function Feed(s: Server, ms: seq<Message>): Option<Server>
    decreases |ms|
  {
    if ms == [] then Some(s)
    else match Process(s, ms[0]) case None => None case Some(next) => Feed(next, ms[1..])
  }

  // ----- the server that a topology describes

  function IfaceImage(r: RouterConf, names: seq<Bytes>, k: nat): Iface
    requires Listing(names, r.interfaces.Keys) && k < |names| < 256
  {
    var i := r.interfaces[names[k]];
    Iface(k, names[k], Hardware(i), i.ip)
  }

  function RouteImage(r: RouterConf, names: seq<Bytes>, k: nat): Entry
    requires RouterFits(r) && Listing(names, r.interfaces.Keys) && k < |r.rtable|
  {
    var e := r.rtable[k];
    Entry(e.dest, e.mask, e.gw, e.metric, Position(names, e.iface))
  }

  /** The router with its first n interfaces and its first m routes. */
  function PartImage(rid: nat, r: RouterConf, names: seq<Bytes>, n: nat, m: nat): RouterCtx
    requires RouterReady(rid, r, names) && n <= |names| && m <= |r.rtable|
  {
    RouterCtx(
      rid, r.name,
      |r.interfaces|, seq(n, k requires 0 <= k < n => IfaceImage(r, names, k)),
      |r.rtable|, seq(m, k requires 0 <= k < m => RouteImage(r, names, k)))
  }

  function Image(rid: nat, r: RouterConf, names: seq<Bytes>): RouterCtx
    requires RouterReady(rid, r, names)
  {
    PartImage(rid, r, names, |names|, |r.rtable|)
  }

  function Images(t: seq<RouterConf>, names: seq<seq<Bytes>>, n: nat): seq<RouterCtx>
    requires TopologyFits(t) && Listings(t, names) && n <= |t|
  {
    seq(n, i requires 0 <= i < n => Image(i, t[i], names[i]))
  }
}
