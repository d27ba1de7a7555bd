/**
 What the translator does with each packet, exactly, and how long the two entries it sends
 keep the flow working.
 */
module NatOutcomes {
  import opened Wrappers
  import opened NatSpec
  import opened NatProofs

  // ----- one packet

  /** A packet the translator leaves alone: no gateway known, not TCP or UDP, or not for it to translate. */
  predicate LeftAlone(cfg: Config, st: State, port: nat, p: Packet) {
    || st.gateway.None?
    || (p.nwProto != 6 && p.nwProto != 17)
    || (port == cfg.outsidePort && p.nwDst != cfg.outsideIp)
    || (port != cfg.outsidePort && cfg.isLocal(p.nwDst)
        && !(p.nwProto == 17 && p.tpDst == 53 && p.nwDst == cfg.insideIp && cfg.dnsIp.Some?))
  }

  /** The record is remembered for ten minutes from now, and both its entries are with the switch as of now. */
  predicate Refreshed(st: State, after: State, f: Flow, now: int) {
    && after.expiresAt == st.expiresAt[f.outgoing := now + 600]
    && after.installed == st.installed + {Installed(f, now)} && Active(after, Installed(f, now))
    && after.gateway == st.gateway && after.drops == st.drops && after.clock == now
  }

  /** A packet from the inside of a recorded flow; its entry accepts it if it came by the port that opened the flow. */
  predicate OldFlowOutcome(st: State, after: State, port: nat, p: Packet, now: int)
    requires MatchOf(p) in st.outgoing
  {
    var f := st.outgoing[MatchOf(p)];
    && after.used == st.used && after.outgoing == st.outgoing && after.incoming == st.incoming
    && Refreshed(st, after, f, now)
    && f.outbound.pattern.Accepts(p) && (f.outbound.Accepts(port, p) <==> port == f.outbound.inPort)
  }

  /**
   A packet from the inside of a new flow. With a port q that was free: one record more, with the
   current gateway, in both dictionaries, and its entry accepts the packet. Without one the record
   has none, and nothing is sent.
   */
  predicate NewFlowOutcome(cfg: Config, st: State, after: State, port: nat, p: Packet, now: int, fake: Option<nat>) {
    var m := MatchOf(p);
    && m in after.outgoing
    && var f := after.outgoing[m];
    && f.outgoing == m && f.fakePort == fake && f.realPort == p.tpSrc && f.incoming.dlSrc == st.gateway
    && after.outgoing == st.outgoing[m := f] && after.incoming == st.incoming[f.incoming := f]
    && (fake.Some? ==>
          && (p.nwProto, fake.value) !in st.used && after.used == st.used + {(p.nwProto, fake.value)}
          && f.incoming !in st.incoming && FlowOk(cfg, m, f)
          && Refreshed(st, after, f, now) && f.outbound.Accepts(port, p))
    && (fake.None? ==>
          && after.used == st.used && after.expiresAt == st.expiresAt[m := now + 600] && after.installed == st.installed
          && after.gateway == st.gateway && after.drops == st.drops && after.clock == now)
  }

  /** A packet from the outside: the record whose entry accepts it is refreshed; if none does, a drop entry is left. */
  ghost predicate OutsideOutcome(cfg: Config, st: State, after: State, p: Packet, now: int) {
    && (forall m :: m in st.outgoing && st.outgoing[m].inbound.Accepts(cfg.outsidePort, p) ==>
          && after.used == st.used && after.outgoing == st.outgoing && after.incoming == st.incoming
          && Refreshed(st, after, st.outgoing[m], now))
    && ((forall m :: m in st.outgoing ==> !st.outgoing[m].inbound.Accepts(cfg.outsidePort, p)) ==>
          after == st.(clock := now, drops := st.drops + {Drop(cfg.outsidePort, p, now)}))
  }

  /** Every packet, in every state: exactly one of four outcomes. */
  ghost predicate PacketOutcome(cfg: Config, st: State, after: State, port: nat, p: Packet, random: nat, now: int) {
    var inside := !LeftAlone(cfg, st, port, p) && port != cfg.outsidePort;
    && (LeftAlone(cfg, st, port, p) ==> after == st.(clock := now))
    && (!LeftAlone(cfg, st, port, p) && port == cfg.outsidePort ==> OutsideOutcome(cfg, st, after, p, now))
    && (inside && MatchOf(p) in st.outgoing ==> OldFlowOutcome(st, after, port, p, now))
    && (inside && MatchOf(p) !in st.outgoing ==>
          NewFlowOutcome(cfg, st, after, port, p, now, Pick(st.used, MatchOf(p), random)))
  }

  lemma WhoIsHandled(cfg: Config, st: State, port: nat, p: Packet)
    ensures LeftAlone(cfg, st, port, p) <==> !Handled(cfg, st.gateway, port, p)
  {
  }

  lemma InboundAccepts(cfg: Config, m: Match, f: Flow, p: Packet)
    requires FlowOk(cfg, m, f)
    ensures f.inbound.Accepts(cfg.outsidePort, p) <==> f.incoming == InboundKey(p)
    ensures f.outgoing == m && f.fakePort.Some?
  {
  }

  lemma OutboundAccepts(cfg: Config, f: Flow, port: nat, p: Packet)
    requires FlowOk(cfg, MatchOf(p), f)
    ensures f.outgoing == MatchOf(p) && f.fakePort.Some? && f.outbound.pattern.Accepts(p)
    ensures f.outbound.Accepts(port, p) <==> port == f.outbound.inPort
  {
  }

  /** The controller's lookup finds the record whose entry accepts the packet. */
  lemma RecordFound(cfg: Config, st: State, p: Packet)
    requires Inv(cfg, st)
    ensures forall m :: m in st.outgoing && st.outgoing[m].inbound.Accepts(cfg.outsidePort, p) ==>
              InboundKey(p) in st.incoming && st.incoming[InboundKey(p)] == st.outgoing[m]
    ensures InboundKey(p) in st.incoming ==>
              var f := st.incoming[InboundKey(p)];
              f.outgoing in st.outgoing && st.outgoing[f.outgoing] == f && f.fakePort.Some?
              && f.inbound.Accepts(cfg.outsidePort, p)
  {
    hide FlowOk, PortsOk, InboundKey;
    forall m | m in st.outgoing && st.outgoing[m].inbound.Accepts(cfg.outsidePort, p)
      ensures InboundKey(p) in st.incoming && st.incoming[InboundKey(p)] == st.outgoing[m]
    {
      InboundAccepts(cfg, m, st.outgoing[m], p);
      assert FiledIn(st.outgoing, st.incoming, m);
    }
    if InboundKey(p) in st.incoming {
      assert FiledOut(st.outgoing, st.incoming, InboundKey(p));
      InboundAccepts(cfg, st.incoming[InboundKey(p)].outgoing, st.incoming[InboundKey(p)], p);
    }
  }

  lemma RefreshedBy(st: State, f: Flow, now: int)
    requires st.clock == now && f.fakePort.Some?
    ensures var after := Install(Touch(st, f, now), f, now);
            && Refreshed(st, after, f, now) && after.used == st.used
            && after.outgoing == st.outgoing && after.incoming == st.incoming
  {
  }

  lemma OutsideSteps(cfg: Config, st: State, p: Packet, random: nat, now: int)
    requires Handled(cfg, st.gateway, cfg.outsidePort, p)
    ensures var after, k := HandlePacketIn(cfg, st, cfg.outsidePort, p, random, now), InboundKey(p);
            after == if k in st.incoming then Install(Touch(st, st.incoming[k], now), st.incoming[k], now)
                     else st.(drops := st.drops + {Drop(cfg.outsidePort, p, now)})
  {
    hide AddFlow, Install, Touch, Handled;
  }

  lemma OutsideFound(cfg: Config, st: State, after: State, p: Packet, now: int, m: Match)
    requires Inv(cfg, st) && m in st.outgoing && st.outgoing[m].inbound.Accepts(cfg.outsidePort, p)
    requires after.used == st.used && after.outgoing == st.outgoing && after.incoming == st.incoming
    requires Refreshed(st, after, st.outgoing[m], now)
    ensures OutsideOutcome(cfg, st, after, p, now)
  {
    hide Inv, Refreshed, FlowMod.Accepts;
    forall n | n in st.outgoing && st.outgoing[n].inbound.Accepts(cfg.outsidePort, p)
      ensures n == m
    {
      AcceptsOnPort(cfg, st, m, n, p);
    }
  }

  lemma Outside(cfg: Config, st: State, p: Packet, random: nat, now: int)
    requires Inv(cfg, st) && st.clock == now && !LeftAlone(cfg, st, cfg.outsidePort, p)
    ensures OutsideOutcome(cfg, st, HandlePacketIn(cfg, st, cfg.outsidePort, p, random, now), p, now)
  {
    hide *;
    WhoIsHandled(cfg, st, cfg.outsidePort, p);
    RecordFound(cfg, st, p);
    OutsideSteps(cfg, st, p, random, now);
    var after := HandlePacketIn(cfg, st, cfg.outsidePort, p, random, now);
    if InboundKey(p) in st.incoming {
      var f := st.incoming[InboundKey(p)];
      RefreshedBy(st, f, now);
      OutsideFound(cfg, st, after, p, now, f.outgoing);
    } else {
      OutsideUnknown(cfg, st, after, p, now);
    }
  }

  lemma OutsideUnknown(cfg: Config, st: State, after: State, p: Packet, now: int)
    requires forall m :: m in st.outgoing ==> !st.outgoing[m].inbound.Accepts(cfg.outsidePort, p)
    requires st.clock == now && after == st.(drops := st.drops + {Drop(cfg.outsidePort, p, now)})
    ensures OutsideOutcome(cfg, st, after, p, now)
  {
    hide FlowMod.Accepts;
  }

  lemma OldFlow(cfg: Config, st: State, port: nat, p: Packet, random: nat, now: int)
    requires Inv(cfg, st) && st.clock == now && !LeftAlone(cfg, st, port, p) && port != cfg.outsidePort
    requires MatchOf(p) in st.outgoing
    ensures OldFlowOutcome(st, HandlePacketIn(cfg, st, port, p, random, now), port, p, now)
  {
    WhoIsHandled(cfg, st, port, p);
    OutboundAccepts(cfg, st.outgoing[MatchOf(p)], port, p);
    RefreshedBy(st, st.outgoing[MatchOf(p)], now);
    hide Inv, AddFlow, Handled, LeftAlone, Refreshed, Install, Touch, MatchOf;
    hide FlowMod.Accepts, Match.Accepts;
  }

  /** The record that is built for a packet. */
  lemma NewRecord(cfg: Config, gateway: nat, port: nat, p: Packet, fake: Option<nat>)
    requires port != cfg.outsidePort
    ensures var f := Build(cfg, gateway, MatchOf(p), port, fake);
            && f.outgoing == MatchOf(p) && f.fakePort == fake && f.realPort == p.tpSrc
            && f.incoming.dlSrc == Some(gateway) && f.outbound.Accepts(port, p)
            && (fake.Some? && p.nwProto in {TCP, UDP} ==> FlowOk(cfg, MatchOf(p), f))
  {
  }

  lemma Recorded(st: State, f: Flow, fake: Option<nat>, now: int)
    requires st.clock == now && f.fakePort == fake
    ensures var after := Install(Touch(st, f, now), f, now);
            && (fake.Some? ==> Refreshed(st, after, f, now))
            && (fake.None? ==> after.expiresAt == st.expiresAt[f.outgoing := now + 600]
                               && after.installed == st.installed)
            && after.used == st.used && after.outgoing == st.outgoing && after.incoming == st.incoming
            && after.gateway == st.gateway && after.drops == st.drops && after.clock == now
  {
  }

  lemma NewFlow(cfg: Config, st: State, port: nat, p: Packet, random: nat, now: int)
    requires Inv(cfg, st) && st.clock == now && !LeftAlone(cfg, st, port, p) && port != cfg.outsidePort
    requires MatchOf(p) !in st.outgoing
    ensures NewFlowOutcome(cfg, st, HandlePacketIn(cfg, st, port, p, random, now), port, p, now,
              Pick(st.used, MatchOf(p), random))
  {
    var m := MatchOf(p);
    var fake := Pick(st.used, m, random);
    WhoIsHandled(cfg, st, port, p);
    var f := Build(cfg, st.gateway.value, m, port, fake);
    NewRecord(cfg, st.gateway.value, port, p, fake);
    if fake.Some? {
      PickIsFree(st.used, m, random);
      NewKey(cfg, st, m, f);
    }
    var next := AddFlow(cfg, st, m, port, random);
    Recorded(next, f, fake, now);
    hide Inv, Pick, FlowOk, Build, Handled, Install, Touch, MatchOf;
    hide FlowMod.Accepts;
  }

  lemma PickIsFree(used: set<(nat, nat)>, m: Match, random: nat)
    requires m.Exact() && Pick(used, m, random).Some?
    ensures (m.nwProto, Pick(used, m, random).value) !in used
  {
  }

  lemma NotHandled(cfg: Config, st: State, port: nat, p: Packet, random: nat, now: int)
    requires !Handled(cfg, st.gateway, port, p)
    ensures HandlePacketIn(cfg, st, port, p, random, now) == st
  {
  }

  /** The outcomes do not look at the clock before the step. */
  lemma SameOutside(cfg: Config, st: State, after: State, p: Packet, now: int)
    requires OutsideOutcome(cfg, st.(clock := now), after, p, now)
    ensures OutsideOutcome(cfg, st, after, p, now)
  {
    hide FlowMod.Accepts;
  }

  lemma SameOldFlow(st: State, after: State, port: nat, p: Packet, now: int)
    requires MatchOf(p) in st.outgoing && OldFlowOutcome(st.(clock := now), after, port, p, now)
    ensures OldFlowOutcome(st, after, port, p, now)
  {
    hide FlowMod.Accepts, Match.Accepts, MatchOf;
  }

  lemma SameNewFlow(cfg: Config, st: State, after: State, port: nat, p: Packet, now: int, fake: Option<nat>)
    requires NewFlowOutcome(cfg, st.(clock := now), after, port, p, now, fake)
    ensures NewFlowOutcome(cfg, st, after, port, p, now, fake)
  {
    hide FlowMod.Accepts, FlowOk, MatchOf;
  }

  /** The one clause of the outcome that the packet calls for. */
  lemma OneOutcome(cfg: Config, st: State, after: State, port: nat, p: Packet, random: nat, now: int)
    requires LeftAlone(cfg, st, port, p) ==> after == st.(clock := now)
    requires !LeftAlone(cfg, st, port, p) && port == cfg.outsidePort ==> OutsideOutcome(cfg, st, after, p, now)
    requires !LeftAlone(cfg, st, port, p) && port != cfg.outsidePort && MatchOf(p) in st.outgoing ==>
               OldFlowOutcome(st, after, port, p, now)
    requires !LeftAlone(cfg, st, port, p) && port != cfg.outsidePort && MatchOf(p) !in st.outgoing ==>
               NewFlowOutcome(cfg, st, after, port, p, now, Pick(st.used, MatchOf(p), random))
    ensures PacketOutcome(cfg, st, after, port, p, random, now)
  {
    hide LeftAlone, OutsideOutcome, OldFlowOutcome, NewFlowOutcome, Pick;
  }

  lemma TimePasses(cfg: Config, st: State, port: nat, p: Packet, random: nat, now: int)
    requires Inv(cfg, st) && st.clock <= now
    ensures var at := st.(clock := now);
            && Inv(cfg, at) && (LeftAlone(cfg, at, port, p) <==> LeftAlone(cfg, st, port, p))
            && (LeftAlone(cfg, st, port, p) <==> !Handled(cfg, at.gateway, port, p))
            && Step(cfg, st, PacketIn(port, p, random, now)) == HandlePacketIn(cfg, at, port, p, random, now)
  {
    ClockKeeps(cfg, st, now);
    WhoIsHandled(cfg, st, port, p);
    WhoIsHandled(cfg, st.(clock := now), port, p);
    hide Inv, LeftAlone, HandlePacketIn, Handled;
    assert LeftAlone(cfg, st.(clock := now), port, p) <==> LeftAlone(cfg, st, port, p);
  }

  lemma ExactMatch(p: Packet)
    ensures MatchOf(p).Exact()
  {
  }

  lemma EveryPacket(cfg: Config, st: State, port: nat, p: Packet, random: nat, now: int)
    requires Inv(cfg, st) && st.clock <= now
    ensures PacketOutcome(cfg, st, Step(cfg, st, PacketIn(port, p, random, now)), port, p, random, now)
  {
    hide *;
    var at := st.(clock := now);
    var after := HandlePacketIn(cfg, at, port, p, random, now);
    TimePasses(cfg, st, port, p, random, now);
    if LeftAlone(cfg, st, port, p) {
      NotHandled(cfg, at, port, p, random, now);
    } else if port == cfg.outsidePort {
      Outside(cfg, at, p, random, now);
      SameOutside(cfg, st, after, p, now);
    } else if MatchOf(p) in st.outgoing {
      OldFlow(cfg, at, port, p, random, now);
      SameOldFlow(st, after, port, p, now);
    } else {
      ExactMatch(p);
      NewFlow(cfg, at, port, p, random, now);
      SameNewFlow(cfg, st, after, port, p, now, Pick(st.used, MatchOf(p), random));
    }
    OneOutcome(cfg, st, after, port, p, random, now);
  }

  // ----- what is sent for a packet

  /** The packet is for a recorded flow, or opens one that finds a port. */
  predicate HasEntries(cfg: Config, st: State, port: nat, p: Packet, random: nat) {
    if port == cfg.outsidePort then exists m :: m in st.outgoing && st.outgoing[m].inbound.Accepts(port, p)
    else MatchOf(p) in st.outgoing || Pick(st.used, MatchOf(p), random).Some?
  }

  /**
   Both entries of a record that are now with the switch, the one for the packet's own direction
   last, with the packet; it accepts the packet's headers.
   */
  ghost predicate EntriesSent(cfg: Config, after: State, port: nat, p: Packet, now: int, sent: Sent) {
    && sent.Entries? && sent.last.pattern.Accepts(p)
    && exists f :: Installed(f, now) in after.installed && f.outgoing in after.outgoing
         && after.outgoing[f.outgoing] == f
         && if port == cfg.outsidePort then sent == Entries(f.outbound, f.inbound)
            else sent == Entries(f.inbound, f.outbound) && f.outgoing == MatchOf(p)
  }

  ghost predicate SentOutcome(cfg: Config, st: State, after: State, port: nat, p: Packet, random: nat, now: int,
                              sent: Sent)
  {
    if st.gateway.None? then sent == AskGateway
    else if LeftAlone(cfg, st, port, p) then sent == Nothing
    else if HasEntries(cfg, st, port, p, random) then EntriesSent(cfg, after, port, p, now, sent)
    else sent == if port == cfg.outsidePort then Ignore else Nothing
  }

  lemma EverySent(cfg: Config, st: State, port: nat, p: Packet, random: nat, now: int)
    requires Inv(cfg, st) && st.clock <= now
    ensures SentOutcome(cfg, st, Step(cfg, st, PacketIn(port, p, random, now)), port, p, random, now,
              SentFor(cfg, st, port, p, random))
  {
    WhoIsHandled(cfg, st, port, p);
    if !LeftAlone(cfg, st, port, p) {
      hide *;
      if port == cfg.outsidePort {
        SentOutside(cfg, st, p, random, now);
      } else {
        SentInside(cfg, st, port, p, random, now);
      }
    }
  }

  lemma SentOutside(cfg: Config, st: State, p: Packet, random: nat, now: int)
    requires Inv(cfg, st) && st.clock <= now && !LeftAlone(cfg, st, cfg.outsidePort, p)
    ensures SentOutcome(cfg, st, Step(cfg, st, PacketIn(cfg.outsidePort, p, random, now)), cfg.outsidePort, p, random,
              now, SentFor(cfg, st, cfg.outsidePort, p, random))
  {
    hide *;
    var port, after := cfg.outsidePort, Step(cfg, st, PacketIn(cfg.outsidePort, p, random, now));
    WhoIsHandled(cfg, st, port, p);
    RecordFound(cfg, st, p);
    EveryPacket(cfg, st, port, p, random, now);
    OutsidePart(cfg, st, after, p, random, now);
    if InboundKey(p) in st.incoming {
      EntriesBack(cfg, st, after, p, now, st.incoming[InboundKey(p)]);
    }
    SentBack(cfg, st, after, p, random, now);
  }

  lemma OutsidePart(cfg: Config, st: State, after: State, p: Packet, random: nat, now: int)
    requires PacketOutcome(cfg, st, after, cfg.outsidePort, p, random, now) && !LeftAlone(cfg, st, cfg.outsidePort, p)
    ensures OutsideOutcome(cfg, st, after, p, now)
  {
    hide LeftAlone, OutsideOutcome, NewFlowOutcome, OldFlowOutcome;
  }

  lemma EntriesBack(cfg: Config, st: State, after: State, p: Packet, now: int, f: Flow)
    requires OutsideOutcome(cfg, st, after, p, now) && f.outgoing in st.outgoing && st.outgoing[f.outgoing] == f
    requires f.inbound.Accepts(cfg.outsidePort, p)
    ensures EntriesSent(cfg, after, cfg.outsidePort, p, now, Entries(f.outbound, f.inbound))
  {
    assert Installed(f, now) in after.installed;
    hide Match.Accepts;
  }

  lemma SentBack(cfg: Config, st: State, after: State, p: Packet, random: nat, now: int)
    requires !LeftAlone(cfg, st, cfg.outsidePort, p) && Handled(cfg, st.gateway, cfg.outsidePort, p)
    requires if InboundKey(p) in st.incoming then
               var f := st.incoming[InboundKey(p)];
               f.outgoing in st.outgoing && st.outgoing[f.outgoing] == f && f.fakePort.Some?
               && f.inbound.Accepts(cfg.outsidePort, p)
               && EntriesSent(cfg, after, cfg.outsidePort, p, now, Entries(f.outbound, f.inbound))
             else forall m :: m in st.outgoing ==> !st.outgoing[m].inbound.Accepts(cfg.outsidePort, p)
    ensures SentOutcome(cfg, st, after, cfg.outsidePort, p, random, now, SentFor(cfg, st, cfg.outsidePort, p, random))
  {
    hide EntriesSent, InboundKey, Handled, AddFlow;
    hide FlowMod.Accepts;
  }

  lemma SentInside(cfg: Config, st: State, port: nat, p: Packet, random: nat, now: int)
    requires Inv(cfg, st) && st.clock <= now && !LeftAlone(cfg, st, port, p) && port != cfg.outsidePort
    ensures SentOutcome(cfg, st, Step(cfg, st, PacketIn(port, p, random, now)), port, p, random, now,
              SentFor(cfg, st, port, p, random))
  {
    hide *;
    var at, after := st.(clock := now), Step(cfg, st, PacketIn(port, p, random, now));
    TimePasses(cfg, st, port, p, random, now);
    EveryPacket(cfg, st, port, p, random, now);
    InsidePart(cfg, st, after, port, p, random, now);
    if MatchOf(p) in st.outgoing { RecordedOk(cfg, st, p); }
    SentThrough(cfg, st, at, after, port, p, random, now);
  }

  lemma RecordedOk(cfg: Config, st: State, p: Packet)
    requires Inv(cfg, st) && MatchOf(p) in st.outgoing
    ensures FlowOkAt(cfg, st, p)
  {
    assert FlowOk(cfg, MatchOf(p), st.outgoing[MatchOf(p)]);
  }

  lemma InsidePart(cfg: Config, st: State, after: State, port: nat, p: Packet, random: nat, now: int)
    requires PacketOutcome(cfg, st, after, port, p, random, now)
    requires !LeftAlone(cfg, st, port, p) && port != cfg.outsidePort
    ensures MatchOf(p) in st.outgoing ==> OldFlowOutcome(st, after, port, p, now)
    ensures MatchOf(p) !in st.outgoing ==>
              NewFlowOutcome(cfg, st, after, port, p, now, Pick(st.used, MatchOf(p), random))
  {
    hide LeftAlone, OutsideOutcome, NewFlowOutcome, OldFlowOutcome, Pick;
  }

  lemma SentThrough(cfg: Config, st: State, at: State, after: State, port: nat, p: Packet, random: nat, now: int)
    requires !LeftAlone(cfg, st, port, p) && port != cfg.outsidePort && Handled(cfg, st.gateway, port, p)
    requires at == st.(clock := now) && after == HandlePacketIn(cfg, at, port, p, random, now)
    requires MatchOf(p) in st.outgoing ==> OldFlowOutcome(st, after, port, p, now) && FlowOkAt(cfg, st, p)
    requires MatchOf(p) !in st.outgoing ==>
               NewFlowOutcome(cfg, st, after, port, p, now, Pick(st.used, MatchOf(p), random))
    ensures SentOutcome(cfg, st, after, port, p, random, now, SentFor(cfg, st, port, p, random))
  {
    var m := MatchOf(p);
    var f := after.outgoing[m];
    NewestFlow(cfg, st, at, port, p, random, now);
    assert SentFor(cfg, st, port, p, random) == EntriesOf(f, false);
    if f.fakePort.Some? {
      assert Installed(f, now) in after.installed;
      assert EntriesSent(cfg, after, port, p, now, Entries(f.inbound, f.outbound));
    }
    hide EntriesSent, LeftAlone, Handled, AddFlow, HandlePacketIn, FlowOk, Pick;
  }

  /** A recorded flow has its port and accepts the packet. */
  predicate FlowOkAt(cfg: Config, st: State, p: Packet)
    requires MatchOf(p) in st.outgoing
  {
    var f := st.outgoing[MatchOf(p)];
    f.fakePort.Some? && f.outgoing == MatchOf(p)
  }

  /** The handler and what it sends speak of the same record. */
  lemma NewestFlow(cfg: Config, st: State, at: State, port: nat, p: Packet, random: nat, now: int)
    requires port != cfg.outsidePort && Handled(cfg, st.gateway, port, p) && at == st.(clock := now)
    ensures var m := MatchOf(p);
            && m in HandlePacketIn(cfg, at, port, p, random, now).outgoing
            && HandlePacketIn(cfg, at, port, p, random, now).outgoing[m]
               == (if m in st.outgoing then st else AddFlow(cfg, st, m, port, random)).outgoing[m]
  {
    hide Pick, Inbound, Outbound;
  }

  // ----- how long a packet keeps its flow working

  lemma StepInstalled(cfg: Config, st: State, e: Event)
    requires Inv(cfg, st) && st.clock <= e.now
    ensures st.installed <= Step(cfg, st, e).installed
  {
    hide Inv, HandlePacketIn, Dead, InboundKeys, PortsOf;
    hide FlowMod.Accepts, FlowOk, LeftAlone, Pick;
    match e
    case PacketIn(port, p, random, now) =>
      EveryPacket(cfg, st, port, p, random, now);
    case GatewayIs(mac, now) =>
    case Expire(now) =>
  }

  /** Entries that were sent are never taken back. */
  lemma {:induction false} InstalledStays(cfg: Config, st: State, events: seq<Event>, last: State)
    requires Inv(cfg, st) && Reaches(cfg, st, events, last)
    ensures st.installed <= last.installed
    decreases |events|
  {
    if events != [] {
      StepKeeps(cfg, st, events[0]);
      StepInstalled(cfg, st, events[0]);
      hide Inv, Step, FindsPort;
      InstalledStays(cfg, Step(cfg, st, events[0]), events[1..], last);
    }
  }

  /** The packet comes by the port of its flow, or opens one and finds a port for it. */
  predicate Served(cfg: Config, st: State, port: nat, p: Packet, random: nat) {
    if MatchOf(p) in st.outgoing then st.outgoing[MatchOf(p)].outbound.inPort == port
    else Pick(st.used, MatchOf(p), random).Some?
  }

  /** Such a packet leaves an active entry for its flow, new or old. */
  lemma EntryAfter(cfg: Config, st: State, port: nat, p: Packet, random: nat, now: int)
    requires Inv(cfg, st) && st.clock <= now && !LeftAlone(cfg, st, port, p) && port != cfg.outsidePort
    requires Served(cfg, st, port, p, random)
    ensures var after := Step(cfg, st, PacketIn(port, p, random, now));
            && Inv(cfg, after) && MatchOf(p) in after.outgoing
            && var f := after.outgoing[MatchOf(p)];
            && FlowOk(cfg, MatchOf(p), f) && f.outbound.inPort == port && Active(after, Installed(f, now))
  {
    var after := Step(cfg, st, PacketIn(port, p, random, now));
    EveryPacket(cfg, st, port, p, random, now);
    StepKeeps(cfg, st, PacketIn(port, p, random, now));
    assert FindsPort(cfg, st, PacketIn(port, p, random, now)) by { ExactMatch(p); }
    hide Inv, Step, LeftAlone, Pick, FlowOk, FindsPort, OutsideOutcome, MatchOf;
    assert FlowsOk(cfg, after.outgoing) by { InvFlows(cfg, after); }
  }

  lemma InvFlows(cfg: Config, st: State)
    requires Inv(cfg, st)
    ensures FlowsOk(cfg, st.outgoing)
  {
  }

  /**
   For sixty seconds, in every run in which ports remain: every packet with the headers of p
   leaves by the switch alone, disguised, and the answer to it comes back to the port p came by,
   unless the switch holds a drop entry with the answer's exact headers.
   */
  lemma FlowServes(cfg: Config, st: State, port: nat, p: Packet, random: nat, now: int, events: seq<Event>,
                   last: State, held: set<Drop>, r: Packet, tag: Tag, payload: seq<nat>, out: seq<(nat, Packet)>)
    requires Inv(cfg, st) && st.clock <= now && !LeftAlone(cfg, st, port, p) && port != cfg.outsidePort
    requires Served(cfg, st, port, p, random) && Inv(cfg, Step(cfg, st, PacketIn(port, p, random, now)))
    requires Reaches(cfg, Step(cfg, st, PacketIn(port, p, random, now)), events, last)
    requires last.clock <= now + 60 && MayHold(last, held) && MatchOf(r) == MatchOf(p)
    ensures var after := Step(cfg, st, PacketIn(port, p, random, now));
            && MatchOf(p) in after.outgoing
            && var f := after.outgoing[MatchOf(p)];
            && f.fakePort.Some? && f.incoming.dlSrc.Some?
            && var answer := Reply(Disguised(cfg, f, r), tag, payload);
            && (SwitchSends(last, held, port, r, out) <==> out == [(cfg.outsidePort, Disguised(cfg, f, r))])
            && (SwitchSends(last, held, cfg.outsidePort, answer, out) <==>
                  out == if Dropped(held, cfg.outsidePort, answer) then [] else [(port, Reply(r, tag, payload))])
  {
    hide *;
    var after := Step(cfg, st, PacketIn(port, p, random, now));
    EntryAfter(cfg, st, port, p, random, now);
    var e := Installed(after.outgoing[MatchOf(p)], now);
    OutboundAccepts(cfg, e.flow, port, r);
    RunKeeps(cfg, after, events, last);
    InstalledStays(cfg, after, events, last);
    StillActive(after, last, e);
    SwitchSendsOut(cfg, last, held, e, port, r, out);
    AnswerReaches(cfg, last, held, e, r, tag, payload, out);
  }

  lemma StillActive(st: State, last: State, e: Installed)
    requires Active(st, e) && st.installed <= last.installed && last.clock <= e.at + 60
    ensures Active(last, e)
  {
  }

  // ----- a host that moves

  /**
   A packet of a recorded flow by another port than the one that opened it: the record is
   refreshed, but no entry of the switch accepts the packet, so that the next one comes to the
   controller again.
   */
  lemma MovedHost(cfg: Config, st: State, port: nat, p: Packet, random: nat, now: int, out: seq<(nat, Packet)>)
    requires Inv(cfg, st) && st.clock <= now && !LeftAlone(cfg, st, port, p) && port != cfg.outsidePort
    requires MatchOf(p) in st.outgoing
    ensures var after := Step(cfg, st, PacketIn(port, p, random, now));
            && OldFlowOutcome(st, after, port, p, now) && Inv(cfg, after)
            && (port != st.outgoing[MatchOf(p)].outbound.inPort ==> !EntrySends(after, port, p, out))
  {
    var after := Step(cfg, st, PacketIn(port, p, random, now));
    EveryPacket(cfg, st, port, p, random, now);
    StepKeeps(cfg, st, PacketIn(port, p, random, now));
    assert FindsPort(cfg, st, PacketIn(port, p, random, now));
    hide Inv, Step, LeftAlone, FindsPort, OutsideOutcome, NewFlowOutcome, MatchOf, Pick;
    if EntrySends(after, port, p, out) && port != st.outgoing[MatchOf(p)].outbound.inPort {
      var e, back :| Sends(after, e, back, port, p, out);
      ActiveIsRecorded(cfg, after, e);
      OutboundElsewhere(cfg, after, e.flow.outgoing, p);
      OutboundMatches(cfg, after, e.flow.outgoing, port, p);
      assert false;
    }
  }

  /** The first packet of a host, and the same packet from it after it moved to port 7. */
  function MovingRun(): seq<Event> {
    [GatewayIs(GATEWAY, 0), Opening(0), Opening(0).(port := 7)]
  }

  /** Such a run. */
  lemma HostMoves()
    ensures exists last: State ::
              && Reaches(SmallSite(), Start(0), MovingRun(), last) && Inv(SmallSite(), last)
              && MatchOf(Opening(0).packet) in last.outgoing
              && forall out :: !EntrySends(last, 7, Opening(0).packet, out)
  {
    hide *;
    MovingEvents();
    var cfg, es, p := SmallSite(), MovingRun(), Opening(0).packet;
    StartFlooded();
    var s1 := Step(cfg, Start(0), es[0]);
    OneMore(s1, 0);
    var s2 := Step(cfg, s1, es[1]);
    OpenedOnPort(s1, s2);
    var s3 := Step(cfg, s2, es[2]);
    MovedHost(cfg, s2, 7, p, FIRST_PORT, 0, []);
    forall out
      ensures !EntrySends(s3, 7, p, out)
    {
      MovedHost(cfg, s2, 7, p, FIRST_PORT, 0, out);
    }
    KnownFlow(s2, s3, 7, p, 0);
    ReachesItself(cfg, s3);
    ReachesMore(cfg, s2, es[2], [], s3);
    ReachesMore(cfg, s1, es[1], [es[2]] + [], s3);
    ReachesMore(cfg, Start(0), es[0], [es[1]] + ([es[2]] + []), s3);
    assert es == [es[0]] + ([es[1]] + ([es[2]] + []));
  }

  lemma MovingEvents()
    ensures Opening(0).PacketIn?
    ensures var es := MovingRun();
            && |es| == 3 && es[0] == GatewayIs(GATEWAY, 0) && es[1] == Opening(0)
            && es[2] == PacketIn(7, Opening(0).packet, FIRST_PORT, 0) == Opening(0).(port := 7) && FIRST_PORT < PORT_END
            && Start(0).clock == 0 && Opening(0).now == 0
  {
  }

  lemma KnownFlow(st: State, after: State, port: nat, p: Packet, now: int)
    requires MatchOf(p) in st.outgoing && OldFlowOutcome(st, after, port, p, now)
    ensures MatchOf(p) in after.outgoing
  {
  }

  lemma OpenedOnPort(s1: State, s2: State)
    requires s1 == Start(0).(gateway := Some(GATEWAY)) && Inv(SmallSite(), s1) && Inv(SmallSite(), s2)
    requires s2 == Step(SmallSite(), s1, Opening(0))
    ensures var e := Opening(0).(port := 7);
            && s2.clock == 0 && MatchOf(e.packet) in s2.outgoing
            && s2.outgoing[MatchOf(e.packet)].outbound.inPort == 1
            && !LeftAlone(SmallSite(), s2, 7, e.packet) && SmallSite().outsidePort != 7
            && FindsPort(SmallSite(), s2, e)
  {
    var p := Opening(0).packet;
    EveryPacket(SmallSite(), s1, 1, p, FIRST_PORT, 0);
    PicksOwn(s1.used, MatchOf(p), FIRST_PORT);
    hide Inv, Step, Pick, OutsideOutcome, FlowOk;
  }
}
