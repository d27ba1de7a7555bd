/**
 The address translator of lib/pox/pox/misc/nat.py: its port allocator, the flows it records,
 and its two steps, a packet sent to the controller and the periodic expiry.
 */
module NatSpec {
  import opened Wrappers

  const TCP := 6
  const UDP := 17
  const DNS := 53
  const LOW_PORTS := 1024
  const FIRST_PORT := 49152
  const PORT_END := 65534
  const FLOW_TIMEOUT := 60
  const FLOW_MEMORY_TIMEOUT := 600
  const DROP_IDLE_TIMEOUT := 1
  const DROP_HARD_TIMEOUT := 10

  /** Header fields that only an exact match looks at. */
  datatype Tag = Tag(dlVlan: nat, dlVlanPcp: nat, nwTos: nat)

  /** The header fields a match of the translator looks at, the others, and what the headers carry. */
  datatype Packet = Packet(
    dlSrc: nat, dlDst: nat, dlType: nat, nwProto: nat,
    nwSrc: nat, nwDst: nat, tpSrc: nat, tpDst: nat, tag: Tag, payload: seq<nat>)

  /** A match; None matches anything. */
  datatype Match = Match(
    dlSrc: Option<nat>, dlDst: Option<nat>, dlType: nat, nwProto: nat,
    nwSrc: nat, nwDst: nat, tpSrc: Option<nat>, tpDst: Option<nat>)
  {
    /** `ofp_match.flip` */
    function Flip(): Match {
      Match(dlDst, dlSrc, dlType, nwProto, nwDst, nwSrc, tpDst, tpSrc)
    }

    predicate Exact() {
      dlSrc.Some? && dlDst.Some? && tpSrc.Some? && tpDst.Some?
    }

    predicate Accepts(p: Packet) {
      && dlSrc in {None, Some(p.dlSrc)} && dlDst in {None, Some(p.dlDst)}
      && dlType == p.dlType && nwProto == p.nwProto && nwSrc == p.nwSrc && nwDst == p.nwDst
      && tpSrc in {None, Some(p.tpSrc)} && tpDst in {None, Some(p.tpDst)}
    }
  }

  /** `make_match` */
  function MatchOf(p: Packet): Match {
    Match(Some(p.dlSrc), Some(p.dlDst), p.dlType, p.nwProto, p.nwSrc, p.nwDst, Some(p.tpSrc), Some(p.tpDst))
  }

  /** The packet a peer sends in answer: both ends swapped. */
  function Reply(p: Packet, tag: Tag, payload: seq<nat>): Packet {
    Packet(p.dlDst, p.dlSrc, p.dlType, p.nwProto, p.nwDst, p.nwSrc, p.tpDst, p.tpSrc, tag, payload)
  }

  /** A port the allocator did not find is None, which no switch accepts in an action. */
  datatype Action =
    | SetDlSrc(mac: nat) | SetDlDst(mac: nat)
    | SetNwSrc(ip: nat) | SetNwDst(ip: nat)
    | SetTpSrc(port: Option<nat>) | SetTpDst(port: Option<nat>)
    | Output(to: nat)

  predicate Sendable(actions: seq<Action>) {
    forall a :: a in actions && (a.SetTpSrc? || a.SetTpDst?) ==> a.port.Some?
  }

  function SetField(a: Action, p: Packet): Packet
    requires !a.Output? && Sendable([a])
  {
    assert a in [a];
    match a
    case SetDlSrc(m) => p.(dlSrc := m)
    case SetDlDst(m) => p.(dlDst := m)
    case SetNwSrc(ip) => p.(nwSrc := ip)
    case SetNwDst(ip) => p.(nwDst := ip)
    case SetTpSrc(port) => p.(tpSrc := port.value)
    case SetTpDst(port) => p.(tpDst := port.value)
  }

  /** What a switch sends when it runs the actions on a packet, with the ports it sends it on. */
  function Perform(actions: seq<Action>, p: Packet): seq<(nat, Packet)>
    requires Sendable(actions)
  {
    if actions == [] then []
    else if actions[0].Output? then [(actions[0].to, p)] + Perform(actions[1..], p)
    else
      assert forall a :: a in [actions[0]] ==> a in actions;
      Perform(actions[1..], SetField(actions[0], p))
  }

  datatype FlowMod = FlowMod(inPort: nat, pattern: Match, actions: seq<Action>)
  {
    predicate Accepts(port: nat, p: Packet) {
      port == inPort && pattern.Accepts(p)
    }
  }

  datatype Config = Config(
    insideIp: nat, outsideIp: nat, dnsIp: Option<nat>,
    outsidePort: nat, outsideEth: nat, isLocal: nat -> bool)

  predicate DnsHack(cfg: Config, m: Match) {
    m.nwProto == UDP && m.tpDst == Some(DNS) && m.nwDst == cfg.insideIp && cfg.dnsIp.Some?
  }

  /** The lasting part of a `Record`: two matches, two ports, two flow entries. */
  datatype Flow = Flow(
    outgoing: Match, incoming: Match, realPort: nat, fakePort: Option<nat>, inbound: FlowMod, outbound: FlowMod)

  /** What claims a port: the protocol and the port the outside sees. */
  function Claim(f: Flow): (nat, Option<nat>) {
    (f.outgoing.nwProto, f.fakePort)
  }

  function If(c: bool, a: Action): seq<Action> {
    if c then [a] else []
  }

  /** The entry for packets from the outside heading in. */
  function Inbound(cfg: Config, gateway: nat, m: Match, port: nat, fake: Option<nat>): FlowMod
    requires m.Exact()
  {
    var hack := DnsHack(cfg, m);
    var turned := m.Flip().(nwDst := cfg.outsideIp, tpDst := fake, dlSrc := Some(gateway), dlDst := None);
    FlowMod(
      cfg.outsidePort,
      if hack then turned.(nwSrc := cfg.dnsIp.value) else turned,
      [SetDlSrc(m.dlDst.value), SetDlDst(m.dlSrc.value), SetNwDst(m.nwSrc)]
      + (If(hack, SetNwSrc(cfg.insideIp))
         + (If(fake != m.tpSrc, SetTpDst(m.tpSrc))
            + [Output(port)])))
  }

  /** The entry for packets from the inside heading out. */
  function Outbound(cfg: Config, gateway: nat, m: Match, port: nat, fake: Option<nat>): FlowMod
    requires m.Exact()
  {
    var hack := DnsHack(cfg, m);
    FlowMod(
      port,
      m,
      [SetDlSrc(cfg.outsideEth), SetNwSrc(cfg.outsideIp)]
      + (If(hack, SetNwDst(if hack then cfg.dnsIp.value else 0))
         + (If(fake != m.tpSrc, SetTpSrc(fake))
            + [SetDlDst(gateway), Output(cfg.outsidePort)])))
  }

  /** The record for a new flow. */
  function Build(cfg: Config, gateway: nat, m: Match, port: nat, fake: Option<nat>): Flow
    requires m.Exact()
  {
    var inbound := Inbound(cfg, gateway, m, port, fake);
    Flow(m, inbound.pattern, m.tpSrc.value, fake, inbound, Outbound(cfg, gateway, m, port, fake))
  }

  /** The numbers a, a + 1, .., b - 1. */
  function Span(a: nat, b: nat): (s: seq<nat>)
    ensures forall q :: q in s <==> a <= q < b
    decreases b - a
  {
    if a < b then [a] + Span(a + 1, b) else []
  }

  /** The ports tried for a flow that starts at `port`, in order. */
  function Scan(port: nat): seq<nat> {
    (if port < PORT_END then Span(port, PORT_END) else [port]) + Span(FIRST_PORT, PORT_END)
  }

  /** The first port of the list that the protocol has not used. */
  function FirstFree(used: set<(nat, nat)>, proto: nat, ports: seq<nat>): (r: Option<nat>)
    ensures r.None? <==> forall q :: q in ports ==> (proto, q) in used
    ensures r.Some? ==> r.value in ports && (proto, r.value) !in used
  {
    if ports == [] then None
    else if (proto, ports[0]) !in used then Some(ports[0])
    else FirstFree(used, proto, ports[1..])
  }

  /** Where the search starts; `random` is what `randint` returns. */
  function StartPort(port: nat, random: nat): nat {
    if port < LOW_PORTS then random else port
  }

  function Pick(used: set<(nat, nat)>, m: Match, random: nat): Option<nat>
    requires m.Exact()
  {
    FirstFree(used, m.nwProto, Scan(StartPort(m.tpSrc.value, random)))
  }

  /** A flow's two entries, sent to the switch at some time. */
  datatype Installed = Installed(flow: Flow, at: int)

  /**
   The entry without actions for an unknown packet from the outside. Its match is exact, which
   puts it before every entry with a wildcard.
   */
  datatype Drop = Drop(inPort: nat, packet: Packet, at: int)
  {
    predicate Accepts(port: nat, p: Packet) {
      port == inPort && p == packet.(payload := p.payload)
    }
  }

  datatype State = State(
    gateway: Option<nat>,
    used: set<(nat, nat)>,
    outgoing: map<Match, Flow>,
    incoming: map<Match, Flow>,
    expiresAt: map<Match, int>,
    installed: set<Installed>,
    drops: set<Drop>,
    clock: int)

  function Touch(st: State, f: Flow, now: int): State {
    st.(expiresAt := st.expiresAt[f.outgoing := now + FLOW_MEMORY_TIMEOUT])
  }

  /** The flow's entries go to the switch; an entry without a port cannot be packed. */
  function Install(st: State, f: Flow, now: int): State {
    if f.fakePort.None? then st else st.(installed := st.installed + {Installed(f, now)})
  }

  /** A packet from the inside that no record covers. */
  function AddFlow(cfg: Config, st: State, m: Match, port: nat, random: nat): State
    requires m.Exact() && st.gateway.Some?
  {
    var fake := Pick(st.used, m, random);
    var f := Build(cfg, st.gateway.value, m, port, fake);
    st.(used := if fake.Some? then st.used + {(m.nwProto, fake.value)} else st.used,
        incoming := st.incoming[f.incoming := f],
        outgoing := st.outgoing[f.outgoing := f])
  }

  datatype Event =
    | PacketIn(port: nat, packet: Packet, random: nat, now: int)
    | GatewayIs(mac: nat, now: int)
    | Expire(now: int)

  /** Packets the translator looks at; others are left to the rest of the switch. */
  predicate Handled(cfg: Config, gateway: Option<nat>, port: nat, p: Packet) {
    && gateway.Some? && p.nwProto in {TCP, UDP}
    && if port == cfg.outsidePort then p.nwDst == cfg.outsideIp
       else !cfg.isLocal(p.nwDst) || DnsHack(cfg, MatchOf(p))
  }

  predicate OpensFlow(cfg: Config, st: State, port: nat, p: Packet) {
    Handled(cfg, st.gateway, port, p) && port != cfg.outsidePort && MatchOf(p) !in st.outgoing
  }

  /** The key under which an inbound packet is looked up. */
  function InboundKey(p: Packet): Match {
    MatchOf(p).(dlDst := None)
  }

  /** `_handle_PacketIn` */
  function HandlePacketIn(cfg: Config, st: State, port: nat, p: Packet, random: nat, now: int): State {
    var m := MatchOf(p);
    if !Handled(cfg, st.gateway, port, p) then st
    else if port == cfg.outsidePort then
      if InboundKey(p) !in st.incoming then st.(drops := st.drops + {Drop(port, p, now)})
      else
        var f := st.incoming[InboundKey(p)];
        Install(Touch(st, f, now), f, now)
    else
      var st := if m in st.outgoing then st else AddFlow(cfg, st, m, port, random);
      Install(Touch(st, st.outgoing[m], now), st.outgoing[m], now)
  }

  /**
   What the handler sends: an ARP request for the gateway, an entry that ignores the packet, or a
   record's two entries, the last of which carries the packet itself.
   */
  datatype Sent = Nothing | AskGateway | Ignore | Entries(first: FlowMod, last: FlowMod)

  /** An entry without a port cannot be packed, and then neither is sent. */
  function EntriesOf(f: Flow, back: bool): Sent {
    if f.fakePort.None? then Nothing
    else if back then Entries(f.outbound, f.inbound) else Entries(f.inbound, f.outbound)
  }

  function SentFor(cfg: Config, st: State, port: nat, p: Packet, random: nat): Sent {
    var m := MatchOf(p);
    if st.gateway.None? then AskGateway
    else if !Handled(cfg, st.gateway, port, p) then Nothing
    else if port == cfg.outsidePort then
      if InboundKey(p) in st.incoming then EntriesOf(st.incoming[InboundKey(p)], true) else Ignore
    else EntriesOf((if m in st.outgoing then st else AddFlow(cfg, st, m, port, random)).outgoing[m], false)
  }

  /** The matches of the records that have expired. */
  function Dead(st: State, now: int): set<Match> {
    set m | m in st.outgoing && m in st.expiresAt && now > st.expiresAt[m]
  }

  function InboundKeys(outgoing: map<Match, Flow>, dead: set<Match>): set<Match> {
    set m | m in dead && m in outgoing :: outgoing[m].incoming
  }

  function PortsOf(outgoing: map<Match, Flow>, dead: set<Match>): set<(nat, nat)> {
    set m | m in dead && m in outgoing && outgoing[m].fakePort.Some? ::
      (outgoing[m].outgoing.nwProto, outgoing[m].fakePort.value)
  }

  /** `_expire`, when every record is in both dictionaries and has its port. */
  function Purge(st: State, now: int): State {
    var dead := Dead(st, now);
    st.(outgoing := st.outgoing - dead,
        incoming := st.incoming - InboundKeys(st.outgoing, dead),
        used := st.used - PortsOf(st.outgoing, dead),
        expiresAt := st.expiresAt - dead)
  }

  /** The record is what the handler builds for the match it is filed under. */
  predicate FlowOk(cfg: Config, m: Match, f: Flow) {
    && m.Exact() && f.outgoing == m && f.fakePort.Some? && m.nwProto in {TCP, UDP}
    && f.outbound.inPort != cfg.outsidePort && f.incoming.dlSrc.Some?
    && f == Build(cfg, f.incoming.dlSrc.value, m, f.outbound.inPort, f.fakePort)
  }

  predicate FlowsOk(cfg: Config, outgoing: map<Match, Flow>) {
    forall m :: m in outgoing ==> FlowOk(cfg, m, outgoing[m])
  }

  predicate FiledIn(outgoing: map<Match, Flow>, incoming: map<Match, Flow>, m: Match)
    requires m in outgoing
  {
    outgoing[m].incoming in incoming && incoming[outgoing[m].incoming] == outgoing[m]
  }

  predicate FiledOut(outgoing: map<Match, Flow>, incoming: map<Match, Flow>, m: Match)
    requires m in incoming
  {
    var f := incoming[m];
    f.incoming == m && f.outgoing in outgoing && outgoing[f.outgoing] == f
  }

  /** Both dictionaries hold the same records, each under its own match. */
  predicate SameRecords(outgoing: map<Match, Flow>, incoming: map<Match, Flow>) {
    && (forall m :: m in outgoing ==> FiledIn(outgoing, incoming, m))
    && (forall m :: m in incoming ==> FiledOut(outgoing, incoming, m))
  }

  predicate Uses(f: Flow, u: (nat, nat)) {
    f.outgoing.nwProto == u.0 && f.fakePort == Some(u.1)
  }

  predicate PortTaken(used: set<(nat, nat)>, f: Flow) {
    f.fakePort.Some? && (f.outgoing.nwProto, f.fakePort.value) in used
  }

  predicate HasUser(outgoing: map<Match, Flow>, u: (nat, nat)) {
    exists m :: m in outgoing && Uses(outgoing[m], u)
  }

  /** The used ports are those of the records, and no two records share one. */
  predicate PortsOk(used: set<(nat, nat)>, outgoing: map<Match, Flow>) {
    && (forall m :: m in outgoing ==> PortTaken(used, outgoing[m]))
    && (forall u :: u in used ==> HasUser(outgoing, u))
    && (forall m, n :: m in outgoing && n in outgoing && m != n ==> Claim(outgoing[m]) != Claim(outgoing[n]))
  }

  /** Every record has a timer, set at most ten minutes ahead. */
  predicate TimersOk(st: State) {
    && st.expiresAt.Keys == st.outgoing.Keys
    && (forall m :: m in st.expiresAt ==> st.expiresAt[m] <= st.clock + FLOW_MEMORY_TIMEOUT)
  }

  /** The record of an entry is still there, and remembered for ten minutes from the entry's installation. */
  predicate Remembered(st: State, e: Installed) {
    var m := e.flow.outgoing;
    && m in st.outgoing && st.outgoing[m] == e.flow
    && m in st.expiresAt && st.expiresAt[m] >= e.at + FLOW_MEMORY_TIMEOUT
  }

  predicate EntryOk(st: State, e: Installed) {
    Remembered(st, e) || st.clock > e.at + FLOW_MEMORY_TIMEOUT
  }

  predicate EntriesOk(st: State) {
    forall e :: e in st.installed ==> EntryOk(st, e)
  }

  predicate DropsOk(cfg: Config, drops: set<Drop>) {
    forall d :: d in drops ==> d.inPort == cfg.outsidePort
  }

  predicate Inv(cfg: Config, st: State) {
    && FlowsOk(cfg, st.outgoing) && SameRecords(st.outgoing, st.incoming) && PortsOk(st.used, st.outgoing)
    && TimersOk(st) && EntriesOk(st) && DropsOk(cfg, st.drops)
  }

  /** A step at a time no earlier than the last. */
  function Step(cfg: Config, st: State, e: Event): State
    requires Inv(cfg, st) && st.clock <= e.now
  {
    var st := st.(clock := e.now);
    match e
    case PacketIn(port, p, random, now) => HandlePacketIn(cfg, st, port, p, random, now)
    case GatewayIs(mac, now) => st.(gateway := Some(mac))
    case Expire(now) => Purge(st, now)
  }

  function Start(now: int): State {
    State(None, {}, map[], map[], map[], {}, {}, now)
  }

  // ----- the switch

  /** The entry is in the switch: its hard timeout has not passed. */
  predicate Active(st: State, e: Installed) {
    e in st.installed && st.clock <= e.at + FLOW_TIMEOUT
  }

  /**
   The drop entries the switch may hold: each for at least a second, longer while packets keep
   matching it, and never more than ten seconds.
   */
  predicate MayHold(st: State, held: set<Drop>) {
    && held <= st.drops
    && forall d :: d in st.drops ==>
         (st.clock <= d.at + DROP_IDLE_TIMEOUT ==> d in held) && (d in held ==> st.clock <= d.at + DROP_HARD_TIMEOUT)
  }

  predicate Dropped(held: set<Drop>, port: nat, p: Packet) {
    exists d :: d in held && d.Accepts(port, p)
  }

  /** One of a flow's two entries. */
  function Entry(f: Flow, back: bool): FlowMod {
    if back then f.inbound else f.outbound
  }

  /** The entry is in the switch and accepts the packet, and this is what its actions send. */
  predicate Sends(st: State, e: Installed, back: bool, port: nat, p: Packet, out: seq<(nat, Packet)>) {
    && Active(st, e) && Entry(e.flow, back).Accepts(port, p)
    && Sendable(Entry(e.flow, back).actions) && out == Perform(Entry(e.flow, back).actions, p)
  }

  ghost predicate EntrySends(st: State, port: nat, p: Packet, out: seq<(nat, Packet)>) {
    exists e, back :: Sends(st, e, back, port, p, out)
  }

  /** What the switch can do with a packet that it need not send to the controller. */
  ghost predicate SwitchSends(st: State, held: set<Drop>, port: nat, p: Packet, out: seq<(nat, Packet)>) {
    if Dropped(held, port, p) then out == [] else EntrySends(st, port, p, out)
  }
}
