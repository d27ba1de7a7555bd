/** What every run of the translator keeps, and why hosts do not notice it. */
module NatProofs {
  import opened Wrappers
  import opened NatSpec

  /** Where the search for a port starts: low ports are never given to the outside. */
  ghost predicate Begins(m: Match, random: nat, start: nat)
    requires m.Exact()
  {
    && (m.tpSrc.value >= 1024 ==> start == m.tpSrc.value)
    && (m.tpSrc.value < 1024 ==> start == random)
  }

  /** The allocator fails exactly when its whole dynamic range, and every port from the start up, is taken. */
  lemma PickFails(used: set<(nat, nat)>, m: Match, random: nat, start: nat)
    requires m.Exact() && Begins(m, random, start)
    ensures Pick(used, m, random).None? <==>
            && (m.nwProto, start) in used
            && forall q :: (49152 <= q || start <= q) && q < 65534 ==> (m.nwProto, q) in used
  {
    assert start == StartPort(m.tpSrc.value, random);
    assert forall q :: q in Scan(start) <==> q == start || ((FIRST_PORT <= q || start <= q) && q < PORT_END);
  }

  /**
   The port it gives is free, and the first that is: from the start up, then, if all of those are
   taken, from the bottom of the dynamic range.
   */
  lemma PicksFirst(used: set<(nat, nat)>, m: Match, random: nat, start: nat)
    requires m.Exact() && Begins(m, random, start) && Pick(used, m, random).Some?
    ensures var q := Pick(used, m, random).value;
            && (m.nwProto, q) !in used
            && if start <= q then forall r :: start <= r < q ==> (m.nwProto, r) in used
               else
                 && 49152 <= q < 65534 && (m.nwProto, start) in used
                 && (forall r :: start <= r < 65534 || 49152 <= r < q ==> (m.nwProto, r) in used)
  {
    assert start == StartPort(m.tpSrc.value, random);
    var first := if start < PORT_END then Span(start, PORT_END) else [start];
    FirstInPart(used, m.nwProto, first, Span(FIRST_PORT, PORT_END));
    FirstInSpan(used, m.nwProto, start, PORT_END);
    FirstInSpan(used, m.nwProto, FIRST_PORT, PORT_END);
  }

  lemma {:induction false} FirstInPart(used: set<(nat, nat)>, proto: nat, a: seq<nat>, b: seq<nat>)
    ensures FirstFree(used, proto, a + b)
         == if FirstFree(used, proto, a).Some? then FirstFree(used, proto, a) else FirstFree(used, proto, b)
  {
    if a == [] {
      assert a + b == b;
    } else {
      FirstInPart(used, proto, a[1..], b);
      assert (a + b)[1..] == a[1..] + b;
    }
  }

  lemma {:induction false} FirstInSpan(used: set<(nat, nat)>, proto: nat, a: nat, b: nat)
    ensures var q := FirstFree(used, proto, Span(a, b));
            q.Some? ==> forall r :: a <= r < q.value ==> (proto, r) in used
    decreases b - a
  {
    if a < b {
      FirstInSpan(used, proto, a + 1, b);
      assert Span(a, b)[1..] == Span(a + 1, b);
    }
  }

  /** Records that claim different ports are filed under different inbound matches. */
  lemma ClaimInKey(cfg: Config, m: Match, f: Flow)
    requires FlowOk(cfg, m, f)
    ensures f.outgoing == m && f.fakePort.Some? && f.incoming.nwProto == m.nwProto && f.incoming.tpDst == f.fakePort
  {
  }

  /** A record whose port is new has a new inbound match. */
  lemma NewKey(cfg: Config, st: State, m: Match, f: Flow)
    requires Inv(cfg, st) && FlowOk(cfg, m, f) && !PortTaken(st.used, f)
    ensures f.incoming !in st.incoming
  {
    hide FlowOk;
    ClaimInKey(cfg, m, f);
    forall k | k in st.incoming
      ensures k != f.incoming
    {
      var g := st.incoming[k];
      assert FiledOut(st.outgoing, st.incoming, k);
      ClaimInKey(cfg, g.outgoing, g);
      assert PortTaken(st.used, g);
    }
  }

  lemma AddKeepsRecords(outgoing: map<Match, Flow>, incoming: map<Match, Flow>, f: Flow)
    requires SameRecords(outgoing, incoming) && f.outgoing !in outgoing && f.incoming !in incoming
    ensures SameRecords(outgoing[f.outgoing := f], incoming[f.incoming := f])
  {
    var outgoing', incoming' := outgoing[f.outgoing := f], incoming[f.incoming := f];
    forall m | m in outgoing'
      ensures FiledIn(outgoing', incoming', m)
    {
      assert m in outgoing ==> FiledIn(outgoing, incoming, m);
    }
    forall m | m in incoming'
      ensures FiledOut(outgoing', incoming', m)
    {
      assert m in incoming ==> FiledOut(outgoing, incoming, m);
    }
  }

  lemma AddKeepsPorts(used: set<(nat, nat)>, outgoing: map<Match, Flow>, f: Flow)
    requires PortsOk(used, outgoing) && f.outgoing !in outgoing && f.fakePort.Some? && !PortTaken(used, f)
    ensures PortsOk(used + {(f.outgoing.nwProto, f.fakePort.value)}, outgoing[f.outgoing := f])
  {
    var u := (f.outgoing.nwProto, f.fakePort.value);
    var used', outgoing' := used + {u}, outgoing[f.outgoing := f];
    forall v | v in used'
      ensures HasUser(outgoing', v)
    {
      if v == u {
        assert Uses(outgoing'[f.outgoing], v);
      } else {
        assert HasUser(outgoing, v);
        var m :| m in outgoing && Uses(outgoing[m], v);
        assert Uses(outgoing'[m], v);
      }
    }
    forall m | m in outgoing'
      ensures PortTaken(used', outgoing'[m])
      ensures m != f.outgoing ==> Claim(outgoing'[m]) != Claim(f)
    {
      assert m in outgoing ==> PortTaken(used, outgoing[m]);
    }
  }

  /** An entry that was remembered, or is long over, still is when a timer is set again. */
  lemma EntryKept(st: State, e: Installed, m: Match, f: Flow, now: int)
    requires EntryOk(st, e) && TimersOk(st) && st.clock == now
    requires m in st.outgoing ==> st.outgoing[m] == f
    ensures EntryOk(st.(outgoing := st.outgoing[m := f], expiresAt := st.expiresAt[m := now + FLOW_MEMORY_TIMEOUT]), e)
  {
  }

  /** Setting a record's timer and sending its entries again, for an old record or a new one. */
  lemma InstallKeeps(cfg: Config, st: State, now: int, next: State, f: Flow)
    requires Inv(cfg, st) && st.clock == now
    requires f.outgoing in st.outgoing ==> st.outgoing[f.outgoing] == f
    requires FlowOk(cfg, f.outgoing, f)
    requires next.outgoing == st.outgoing[f.outgoing := f] && SameRecords(next.outgoing, next.incoming)
    requires PortsOk(next.used, next.outgoing)
    requires next.expiresAt == st.expiresAt && next.clock == now && next.installed == st.installed
        && next.drops == st.drops
    ensures Inv(cfg, Install(Touch(next, f, now), f, now))
  {
    hide FlowOk, SameRecords, PortsOk, EntryOk;
    ClaimInKey(cfg, f.outgoing, f);
    var last := Install(Touch(next, f, now), f, now);
    NewEntryOk(last, f, now);
    forall e | e in last.installed
      ensures EntryOk(last, e)
    {
      if e in st.installed {
        EntryKept(st, e, f.outgoing, f, now);
        SameEntry(st.(outgoing := last.outgoing, expiresAt := last.expiresAt), last, e);
      }
    }
    assert FlowsOk(cfg, last.outgoing);
  }

  lemma NewEntryOk(st: State, f: Flow, now: int)
    requires f.outgoing in st.outgoing && st.outgoing[f.outgoing] == f
    requires f.outgoing in st.expiresAt && st.expiresAt[f.outgoing] == now + FLOW_MEMORY_TIMEOUT
    ensures EntryOk(st, Installed(f, now))
  {
  }

  lemma SameEntry(a: State, b: State, e: Installed)
    requires a.outgoing == b.outgoing && a.expiresAt == b.expiresAt && a.clock == b.clock
    ensures EntryOk(a, e) <==> EntryOk(b, e)
  {
  }

  /** Exactly the flows that find a port keep the index whole. */
  lemma NewFlowKeeps(cfg: Config, st: State, port: nat, p: Packet, random: nat, now: int)
    requires Inv(cfg, st) && st.clock == now && OpensFlow(cfg, st, port, p)
    ensures Inv(cfg, HandlePacketIn(cfg, st, port, p, random, now)) <==> Pick(st.used, MatchOf(p), random).Some?
  {
    var m := MatchOf(p);
    var fake := Pick(st.used, m, random);
    var f := Build(cfg, st.gateway.value, m, port, fake);
    var next := AddFlow(cfg, st, m, port, random);
    var last := HandlePacketIn(cfg, st, port, p, random, now);
    assert last == Install(Touch(next, f, now), f, now);
    assert m in last.outgoing && last.outgoing[m] == f;
    if fake.Some? {
      assert FlowOk(cfg, m, f) && !PortTaken(st.used, f);
      hide FlowOk, SameRecords, PortsOk, Build, HandlePacketIn, Pick;
      NewKey(cfg, st, m, f);
      AddKeepsRecords(st.outgoing, st.incoming, f);
      AddKeepsPorts(st.used, st.outgoing, f);
      InstallKeeps(cfg, st, now, next, f);
    } else {
      assert !FlowOk(cfg, m, f);
    }
  }

  lemma PurgeKeepsRecords(cfg: Config, outgoing: map<Match, Flow>, incoming: map<Match, Flow>, dead: set<Match>)
    requires FlowsOk(cfg, outgoing) && SameRecords(outgoing, incoming) && dead <= outgoing.Keys
    ensures SameRecords(outgoing - dead, incoming - InboundKeys(outgoing, dead))
  {
    hide FlowOk;
    var out, inc := outgoing - dead, incoming - InboundKeys(outgoing, dead);
    forall m | m in out
      ensures FiledIn(out, inc, m)
    {
      assert FiledIn(outgoing, incoming, m);
      ClaimInKey(cfg, m, outgoing[m]);
      forall n | n in dead
        ensures outgoing[n].incoming != outgoing[m].incoming
      {
        assert FiledIn(outgoing, incoming, n);
        ClaimInKey(cfg, n, outgoing[n]);
      }
    }
    forall k | k in inc
      ensures FiledOut(out, inc, k)
    {
      assert FiledOut(outgoing, incoming, k);
      assert incoming[k].outgoing in dead ==> k in InboundKeys(outgoing, dead);
    }
  }

  lemma PurgeKeepsPorts(used: set<(nat, nat)>, outgoing: map<Match, Flow>, dead: set<Match>)
    requires PortsOk(used, outgoing) && dead <= outgoing.Keys
    ensures PortsOk(used - PortsOf(outgoing, dead), outgoing - dead)
  {
    var used', out := used - PortsOf(outgoing, dead), outgoing - dead;
    forall m | m in out
      ensures PortTaken(used', out[m])
    {
      assert PortTaken(used, outgoing[m]);
      forall n | n in dead
        ensures !Uses(outgoing[n], (outgoing[m].outgoing.nwProto, outgoing[m].fakePort.value))
      {
        assert Claim(outgoing[m]) != Claim(outgoing[n]);
      }
    }
    forall u | u in used'
      ensures HasUser(out, u)
    {
      assert HasUser(outgoing, u);
      var m :| m in outgoing && Uses(outgoing[m], u);
      assert m in dead ==> u in PortsOf(outgoing, dead);
      assert m in out && Uses(out[m], u);
    }
  }

  lemma PurgeKeeps(cfg: Config, st: State, now: int)
    requires Inv(cfg, st) && st.clock == now
    ensures Inv(cfg, Purge(st, now))
  {
    hide FlowOk, SameRecords, PortsOk, InboundKeys, PortsOf;
    var dead := Dead(st, now);
    PurgeKeepsRecords(cfg, st.outgoing, st.incoming, dead);
    PurgeKeepsPorts(st.used, st.outgoing, dead);
    var last := Purge(st, now);
    forall e | e in last.installed
      ensures EntryOk(last, e)
    {
      assert EntryOk(st, e);
    }
  }

  predicate Alive(st: State, m: Match, now: int) {
    m in st.outgoing && m in st.expiresAt && now <= st.expiresAt[m]
  }

  /** The outgoing dictionary and the timers lose the records past their time, */
  lemma PurgeOutgoing(cfg: Config, st: State, now: int)
    requires Inv(cfg, st)
    ensures var last := Purge(st, now);
            && (forall m :: m in last.outgoing <==> Alive(st, m, now)) && last.expiresAt.Keys == last.outgoing.Keys
            && (forall m :: m in last.outgoing ==>
                  last.outgoing[m] == st.outgoing[m] && last.expiresAt[m] == st.expiresAt[m])
  {
    hide FlowOk, SameRecords, PortsOk, EntriesOk;
  }

  /** so does the incoming one, */
  lemma PurgeIncoming(cfg: Config, st: State, now: int)
    requires Inv(cfg, st)
    ensures var last := Purge(st, now);
            && (forall k :: k in last.incoming <==> k in st.incoming && Alive(st, st.incoming[k].outgoing, now))
            && (forall k :: k in last.incoming ==> last.incoming[k] == st.incoming[k])
  {
    hide FlowOk, PortsOk, EntriesOk;
    forall k | k in st.incoming
      ensures k in InboundKeys(st.outgoing, Dead(st, now)) <==> !Alive(st, st.incoming[k].outgoing, now)
    {
      assert FiledOut(st.outgoing, st.incoming, k);
      forall m | m in Dead(st, now) && st.outgoing[m].incoming == k
        ensures m == st.incoming[k].outgoing
      {
        assert FiledIn(st.outgoing, st.incoming, m);
        ClaimInKey(cfg, m, st.outgoing[m]);
      }
    }
  }

  /** the ports that stay in use are those of the records that stay, */
  lemma PurgePorts(cfg: Config, st: State, now: int)
    requires Inv(cfg, st)
    ensures forall u :: u in Purge(st, now).used <==> UserAlive(st, u, now)
  {
    var dead, last := Dead(st, now), Purge(st, now);
    PurgeUsers(st.used, st.outgoing, dead);
    PurgeOutgoing(cfg, st, now);
    hide Inv, PortsOf, Dead;
    forall u: (nat, nat)
      ensures u in last.used <==> UserAlive(st, u, now)
    {
      if u in last.used {
        assert HasUser(last.outgoing, u);
        var m :| m in last.outgoing && Uses(last.outgoing[m], u);
        assert Alive(st, m, now) && Uses(st.outgoing[m], u);
      }
      if UserAlive(st, u, now) {
        var m :| Alive(st, m, now) && Uses(st.outgoing[m], u);
        assert PortTaken(last.used, st.outgoing[m]);
      }
    }
  }

  /** and nothing else changes. */
  lemma PurgeExact(cfg: Config, st: State, now: int)
    requires Inv(cfg, st)
    ensures var last := Purge(st, now);
            && (forall m :: m in last.outgoing <==> Alive(st, m, now))
            && (forall k :: k in last.incoming <==> k in st.incoming && Alive(st, st.incoming[k].outgoing, now))
            && last.outgoing.Items <= st.outgoing.Items && last.incoming.Items <= st.incoming.Items
            && (forall u :: u in last.used <==> UserAlive(st, u, now))
            && last.installed == st.installed && last.drops == st.drops && last.gateway == st.gateway
  {
    PurgeOutgoing(cfg, st, now);
    PurgeIncoming(cfg, st, now);
    PurgePorts(cfg, st, now);
    hide Inv, Alive, UserAlive, Dead, InboundKeys, PortsOf;
  }

  ghost predicate UserAlive(st: State, u: (nat, nat), now: int) {
    exists m :: Alive(st, m, now) && Uses(st.outgoing[m], u)
  }

  lemma PurgeUsers(used: set<(nat, nat)>, outgoing: map<Match, Flow>, dead: set<Match>)
    requires PortsOk(used, outgoing) && dead <= outgoing.Keys
    ensures forall u :: u in used - PortsOf(outgoing, dead) ==> HasUser(outgoing - dead, u)
    ensures forall m :: m in outgoing && m !in dead ==> PortTaken(used - PortsOf(outgoing, dead), outgoing[m])
  {
    PurgeKeepsPorts(used, outgoing, dead);
    forall m | m in outgoing && m !in dead
      ensures PortTaken(used - PortsOf(outgoing, dead), outgoing[m])
    {
      assert PortTaken(used - PortsOf(outgoing, dead), (outgoing - dead)[m]);
    }
  }

  /** The step finds a port if it needs one; this can be told before the step. */
  predicate FindsPort(cfg: Config, st: State, e: Event) {
    e.PacketIn? && OpensFlow(cfg, st, e.port, e.packet) ==> Pick(st.used, MatchOf(e.packet), e.random).Some?
  }

  lemma ClockKeeps(cfg: Config, st: State, now: int)
    requires Inv(cfg, st) && st.clock <= now
    ensures Inv(cfg, st.(clock := now))
  {
    hide FlowOk, SameRecords, PortsOk;
    forall e | e in st.installed
      ensures EntryOk(st.(clock := now), e)
    {
      assert EntryOk(st, e);
    }
  }

  /** A step keeps the index whole exactly when it finds the port it needs. */
  lemma StepKeeps(cfg: Config, st: State, e: Event)
    requires Inv(cfg, st) && st.clock <= e.now
    ensures Inv(cfg, Step(cfg, st, e)) <==> FindsPort(cfg, st, e)
  {
    ClockKeeps(cfg, st, e.now);
    var at := st.(clock := e.now);
    match e
    case Expire(now) => PurgeKeeps(cfg, at, now);
    case GatewayIs(mac, now) => GatewayKeeps(cfg, at, mac);
    case PacketIn(port, p, random, now) =>
      if OpensFlow(cfg, at, port, p) {
        NewFlowKeeps(cfg, at, port, p, random, now);
      } else {
        OldFlowKeeps(cfg, at, port, p, random, now);
      }
  }

  lemma OldFlowKeeps(cfg: Config, st: State, port: nat, p: Packet, random: nat, now: int)
    requires Inv(cfg, st) && st.clock == now && !OpensFlow(cfg, st, port, p)
    ensures Inv(cfg, HandlePacketIn(cfg, st, port, p, random, now))
  {
    hide FlowOk, PortsOk, EntriesOk, TimersOk;
    if Handled(cfg, st.gateway, port, p) && port != cfg.outsidePort {
      var m := MatchOf(p);
      ClaimInKey(cfg, m, st.outgoing[m]);
      assert st.outgoing == st.outgoing[m := st.outgoing[m]];
      InstallKeeps(cfg, st, now, st, st.outgoing[m]);
    } else if Handled(cfg, st.gateway, port, p) && InboundKey(p) in st.incoming {
      var f := st.incoming[InboundKey(p)];
      assert FiledOut(st.outgoing, st.incoming, InboundKey(p));
      assert st.outgoing == st.outgoing[f.outgoing := f];
      InstallKeeps(cfg, st, now, st, f);
    } else if Handled(cfg, st.gateway, port, p) {
      DropKeeps(cfg, st, Drop(port, p, now));
    }
  }

  lemma DropKeeps(cfg: Config, st: State, d: Drop)
    requires Inv(cfg, st) && d.inPort == cfg.outsidePort
    ensures Inv(cfg, st.(drops := st.drops + {d}))
  {
    hide FlowOk, SameRecords, PortsOk;
    forall e | e in st.installed
      ensures EntryOk(st.(drops := st.drops + {d}), e)
    {
      assert EntryOk(st, e);
    }
  }

  /** Records keep the gateway they were made with. */
  lemma GatewayKeeps(cfg: Config, st: State, mac: nat)
    requires Inv(cfg, st)
    ensures Inv(cfg, st.(gateway := Some(mac)))
  {
    hide FlowOk, SameRecords, PortsOk;
    forall e | e in st.installed
      ensures EntryOk(st.(gateway := Some(mac)), e)
    {
      assert EntryOk(st, e);
    }
  }

  /** The states the translator can be in while ports remain. */
  predicate Reaches(cfg: Config, st: State, events: seq<Event>, last: State)
    requires Inv(cfg, st)
    decreases |events|
  {
    if events == [] then last == st
    else
      && st.clock <= events[0].now && FindsPort(cfg, st, events[0])
      && (StepKeeps(cfg, st, events[0]); Reaches(cfg, Step(cfg, st, events[0]), events[1..], last))
  }

  lemma {:induction false} RunKeeps(cfg: Config, st: State, events: seq<Event>, last: State)
    requires Inv(cfg, st) && Reaches(cfg, st, events, last)
    ensures Inv(cfg, last)
    decreases |events|
  {
    if events != [] {
      StepKeeps(cfg, st, events[0]);
      RunKeeps(cfg, Step(cfg, st, events[0]), events[1..], last);
    }
  }

  /** What the outside sees of a packet the flow covers. */
  function Disguised(cfg: Config, f: Flow, p: Packet): Packet
    requires f.fakePort.Some? && f.incoming.dlSrc.Some?
  {
    p.(dlSrc := cfg.outsideEth, dlDst := f.incoming.dlSrc.value, nwSrc := cfg.outsideIp, tpSrc := f.fakePort.value,
       nwDst := if DnsHack(cfg, MatchOf(p)) then cfg.dnsIp.value else p.nwDst)
  }

  lemma PerformSet(a: Action, rest: seq<Action>, p: Packet)
    requires !a.Output? && Sendable([a]) && Sendable(rest)
    ensures Sendable([a] + rest) && Perform([a] + rest, p) == Perform(rest, SetField(a, p))
  {
    assert a in [a] && ([a] + rest)[1..] == rest;
  }

  lemma PerformIf(c: bool, a: Action, rest: seq<Action>, p: Packet)
    requires Sendable(rest) && (c ==> !a.Output? && Sendable([a]))
    ensures Sendable(If(c, a) + rest)
    ensures Perform(If(c, a) + rest, p) == Perform(rest, if c then SetField(a, p) else p)
  {
    if c {
      PerformSet(a, rest, p);
    } else {
      assert If(c, a) + rest == rest;
    }
  }

  lemma PerformOutput(to: nat, p: Packet)
    ensures Sendable([Output(to)]) && Perform([Output(to)], p) == [(to, p)]
  {
  }

  /** The outbound entry sends the disguised packet to the gateway, and nothing else. */
  lemma OutboundSends(cfg: Config, f: Flow, p: Packet)
    requires FlowOk(cfg, f.outgoing, f) && f.outbound.pattern.Accepts(p)
    ensures Sendable(f.outbound.actions)
    ensures Perform(f.outbound.actions, p) == [(cfg.outsidePort, Disguised(cfg, f, p))]
  {
    var m, fake := f.outgoing, f.fakePort;
    var hack := DnsHack(cfg, m);
    var end := [Output(cfg.outsidePort)];
    var gateway, setPort := SetDlDst(f.incoming.dlSrc.value), SetTpSrc(fake);
    var setDns := SetNwDst(if hack then cfg.dnsIp.value else 0);
    var fourth := [gateway] + end;
    var third := If(fake != m.tpSrc, setPort) + fourth;
    var second := If(hack, setDns) + third;
    assert f.outbound.actions == [SetDlSrc(cfg.outsideEth)] + ([SetNwSrc(cfg.outsideIp)] + second);
    assert m == MatchOf(p);
    hide Perform, FlowOk, If;
    var p1 := p.(dlSrc := cfg.outsideEth);
    var p2 := p1.(nwSrc := cfg.outsideIp);
    var p3 := if hack then p2.(nwDst := cfg.dnsIp.value) else p2;
    var p4 := p3.(tpSrc := fake.value);
    PerformOutput(cfg.outsidePort, p4.(dlDst := f.incoming.dlSrc.value));
    PerformSet(gateway, end, p4);
    PerformIf(fake != m.tpSrc, setPort, fourth, p3);
    PerformIf(hack, setDns, third, p2);
    PerformSet(SetNwSrc(cfg.outsideIp), second, p1);
    PerformSet(SetDlSrc(cfg.outsideEth), [SetNwSrc(cfg.outsideIp)] + second, p);
  }

  /**
   The answer to the disguised packet is accepted by the inbound entry, which turns it into the
   answer to the packet.
   */
  lemma InboundRestores(cfg: Config, f: Flow, p: Packet, tag: Tag, payload: seq<nat>)
    requires FlowOk(cfg, f.outgoing, f) && f.outbound.pattern.Accepts(p)
    ensures f.inbound.Accepts(cfg.outsidePort, Reply(Disguised(cfg, f, p), tag, payload))
    ensures Sendable(f.inbound.actions)
    ensures Perform(f.inbound.actions, Reply(Disguised(cfg, f, p), tag, payload))
         == [(f.outbound.inPort, Reply(p, tag, payload))]
  {
    var m, fake, port := f.outgoing, f.fakePort, f.outbound.inPort;
    var hack := DnsHack(cfg, m);
    var end := [Output(port)];
    var setPort, setNw := SetTpDst(m.tpSrc), SetNwSrc(cfg.insideIp);
    var third := If(fake != m.tpSrc, setPort) + end;
    var second := If(hack, setNw) + third;
    var first := [SetNwDst(m.nwSrc)] + second;
    assert f.inbound.actions == [SetDlSrc(m.dlDst.value)] + ([SetDlDst(m.dlSrc.value)] + first);
    assert m == MatchOf(p);
    var q := Reply(Disguised(cfg, f, p), tag, payload);
    assert f.inbound.Accepts(cfg.outsidePort, q);
    hide Perform, FlowOk, If;
    var q1 := q.(dlSrc := p.dlDst);
    var q2 := q1.(dlDst := p.dlSrc);
    var q3 := q2.(nwDst := p.nwSrc);
    var q4 := if hack then q3.(nwSrc := cfg.insideIp) else q3;
    PerformOutput(port, Reply(p, tag, payload));
    PerformIf(fake != m.tpSrc, setPort, end, q4);
    PerformIf(hack, setNw, third, q3);
    PerformSet(SetNwDst(m.nwSrc), second, q2);
    PerformSet(SetDlDst(m.dlSrc.value), first, q1);
    PerformSet(SetDlSrc(m.dlDst.value), [SetDlDst(m.dlSrc.value)] + first, q);
  }

  /** The switch never acts on a record that was forgotten. */
  lemma ActiveIsRecorded(cfg: Config, st: State, e: Installed)
    requires Inv(cfg, st) && Active(st, e)
    ensures e.flow.outgoing in st.outgoing && st.outgoing[e.flow.outgoing] == e.flow
  {
    assert EntryOk(st, e);
  }

  /** A packet is accepted by at most one record's inbound entry. */
  lemma OneInbound(cfg: Config, st: State, m: Match, n: Match, p: Packet)
    requires Inv(cfg, st) && m in st.outgoing && n in st.outgoing
    requires st.outgoing[m].inbound.pattern.Accepts(p) && st.outgoing[n].inbound.pattern.Accepts(p)
    ensures m == n
  {
    assert FlowOk(cfg, m, st.outgoing[m]) && FlowOk(cfg, n, st.outgoing[n]);
    ClaimInKey(cfg, m, st.outgoing[m]);
    ClaimInKey(cfg, n, st.outgoing[n]);
    assert m != n ==> Claim(st.outgoing[m]) != Claim(st.outgoing[n]);
  }

  /**
   A packet that a record covers leaves with the outside address; the answer to what left is
   accepted by that record's inbound entry, by no other record's entry of either kind, and by the
   controller's own lookup; and that entry turns it into the answer to the packet the host sent.
   */
  lemma Transparent(cfg: Config, st: State, m: Match, p: Packet, tag: Tag, payload: seq<nat>)
    requires Inv(cfg, st) && m in st.outgoing && st.outgoing[m].outbound.pattern.Accepts(p)
    ensures var f := st.outgoing[m];
            && f.fakePort.Some? && f.incoming.dlSrc.Some? && Sendable(f.outbound.actions) && Sendable(f.inbound.actions)
            && Perform(f.outbound.actions, p) == [(cfg.outsidePort, Disguised(cfg, f, p))]
            && var answer := Reply(Disguised(cfg, f, p), tag, payload);
            && f.inbound.Accepts(cfg.outsidePort, answer)
            && (forall n :: n in st.outgoing && n != m ==> !st.outgoing[n].inbound.Accepts(cfg.outsidePort, answer))
            && (forall n :: n in st.outgoing ==> !st.outgoing[n].outbound.Accepts(cfg.outsidePort, answer))
            && InboundKey(answer) in st.incoming && st.incoming[InboundKey(answer)] == f
            && Perform(f.inbound.actions, answer) == [(f.outbound.inPort, Reply(p, tag, payload))]
  {
    var f := st.outgoing[m];
    assert FlowOk(cfg, m, f);
    var answer := Reply(Disguised(cfg, f, p), tag, payload);
    OutboundSends(cfg, f, p);
    InboundRestores(cfg, f, p, tag, payload);
    assert InboundKey(answer) == f.incoming && FiledIn(st.outgoing, st.incoming, m);
    hide *;
    forall n | n in st.outgoing
      ensures n != m ==> !st.outgoing[n].inbound.Accepts(cfg.outsidePort, answer)
      ensures !st.outgoing[n].outbound.Accepts(cfg.outsidePort, answer)
    {
      AcceptsOnPort(cfg, st, m, n, answer);
      OutboundElsewhere(cfg, st, n, answer);
    }
  }

  lemma OutboundElsewhere(cfg: Config, st: State, n: Match, p: Packet)
    requires Inv(cfg, st) && n in st.outgoing
    ensures !st.outgoing[n].outbound.Accepts(cfg.outsidePort, p)
    ensures st.outgoing[n].inbound.inPort == cfg.outsidePort
  {
    assert FlowOk(cfg, n, st.outgoing[n]);
  }

  lemma AcceptsOnPort(cfg: Config, st: State, m: Match, n: Match, p: Packet)
    requires Inv(cfg, st) && m in st.outgoing && n in st.outgoing
    ensures st.outgoing[m].inbound.Accepts(cfg.outsidePort, p) && st.outgoing[n].inbound.Accepts(cfg.outsidePort, p)
            ==> m == n
  {
    hide Inv;
    if st.outgoing[m].inbound.Accepts(cfg.outsidePort, p) && st.outgoing[n].inbound.Accepts(cfg.outsidePort, p) {
      OneInbound(cfg, st, m, n, p);
    }
  }

  /** Which entry accepts a packet that one of a record's entries accepts. */
  lemma SameFlow(cfg: Config, st: State, e: Installed, back: bool, e': Installed, back': bool, port: nat, p: Packet)
    requires Inv(cfg, st) && Active(st, e) && Active(st, e')
    requires Entry(e.flow, back).Accepts(port, p) && Entry(e'.flow, back').Accepts(port, p)
    ensures e.flow == e'.flow && back == back'
  {
    var m, n := e.flow.outgoing, e'.flow.outgoing;
    ActiveIsRecorded(cfg, st, e);
    ActiveIsRecorded(cfg, st, e');
    OutboundElsewhere(cfg, st, m, p);
    OutboundElsewhere(cfg, st, n, p);
    AcceptsOnPort(cfg, st, m, n, p);
    OutboundMatches(cfg, st, m, port, p);
    OutboundMatches(cfg, st, n, port, p);
    hide Inv, Active;
  }

  lemma OutboundMatches(cfg: Config, st: State, m: Match, port: nat, p: Packet)
    requires Inv(cfg, st) && m in st.outgoing
    ensures st.outgoing[m].outbound.Accepts(port, p) ==> m == MatchOf(p) && port != cfg.outsidePort
  {
    assert FlowOk(cfg, m, st.outgoing[m]);
  }

  /** With its entries in the switch, a record's packet leaves disguised, whatever else is there. */
  lemma SwitchSendsOut(cfg: Config, st: State, held: set<Drop>, e: Installed, port: nat, p: Packet,
                       out: seq<(nat, Packet)>)
    requires Inv(cfg, st) && MayHold(st, held) && Active(st, e) && e.flow.outbound.Accepts(port, p)
    ensures e.flow.fakePort.Some? && e.flow.incoming.dlSrc.Some?
    ensures SwitchSends(st, held, port, p, out) <==> out == [(cfg.outsidePort, Disguised(cfg, e.flow, p))]
  {
    ActiveIsRecorded(cfg, st, e);
    assert FlowOk(cfg, e.flow.outgoing, e.flow);
    OutboundSends(cfg, e.flow, p);
    assert !Dropped(held, port, p);
    EntryDecides(cfg, st, e, false, port, p, out);
  }

  /** An active entry that accepts a packet decides what is sent for it. */
  lemma EntryDecides(cfg: Config, st: State, e: Installed, back: bool, port: nat, p: Packet, out: seq<(nat, Packet)>)
    requires Inv(cfg, st) && Active(st, e)
    requires Entry(e.flow, back).Accepts(port, p) && Sendable(Entry(e.flow, back).actions)
    ensures EntrySends(st, port, p, out) <==> out == Perform(Entry(e.flow, back).actions, p)
  {
    hide Inv, Active, Perform, Entry;
    if EntrySends(st, port, p, out) {
      var e', back' :| Sends(st, e', back', port, p, out);
      SameFlow(cfg, st, e, back, e', back', port, p);
    }
    if out == Perform(Entry(e.flow, back).actions, p) {
      assert Sends(st, e, back, port, p, out);
    }
  }

  /**
   The answer to what a record's packet became reaches the host, as the answer to that packet,
   exactly if the switch holds no drop entry with the answer's exact headers; otherwise it is lost.
   */
  lemma AnswerReaches(cfg: Config, st: State, held: set<Drop>, e: Installed, p: Packet, tag: Tag, payload: seq<nat>,
                      out: seq<(nat, Packet)>)
    requires Inv(cfg, st) && MayHold(st, held) && Active(st, e) && e.flow.outbound.pattern.Accepts(p)
    ensures e.flow.fakePort.Some? && e.flow.incoming.dlSrc.Some?
    ensures var answer := Reply(Disguised(cfg, e.flow, p), tag, payload);
            SwitchSends(st, held, cfg.outsidePort, answer, out) <==>
            out == if Dropped(held, cfg.outsidePort, answer) then []
                   else [(e.flow.outbound.inPort, Reply(p, tag, payload))]
  {
    ActiveIsRecorded(cfg, st, e);
    assert FlowOk(cfg, e.flow.outgoing, e.flow);
    InboundRestores(cfg, e.flow, p, tag, payload);
    var answer := Reply(Disguised(cfg, e.flow, p), tag, payload);
    EntryDecides(cfg, st, e, true, cfg.outsidePort, answer, out);
  }

  // ----- a run that uses up the ports

  function SmallSite(): Config {
    Config(1, 2, None, 0, 10, (ip: nat) => false)
  }

  const GATEWAY := 11
  const NO_TAG := Tag(0, 0, 0)

  /** A first packet from port FIRST_PORT + i of one host. */
  function Opening(i: nat): Event {
    PacketIn(1, Packet(20, 21, 0x800, TCP, 3, 4, FIRST_PORT + i, 80, NO_TAG, []), FIRST_PORT, 0)
  }

  ghost predicate FirstPorts(used: set<(nat, nat)>, n: nat) {
    forall q: nat :: (TCP, q) in used <==> FIRST_PORT <= q < FIRST_PORT + n
  }

  predicate OneHost(outgoing: map<Match, Flow>, n: nat) {
    forall m :: m in outgoing ==> m.nwSrc == 3 && m.tpSrc.Some? && m.tpSrc.value < FIRST_PORT + n
  }

  ghost predicate Flooded(st: State, n: nat) {
    Inv(SmallSite(), st) && st.gateway == Some(GATEWAY) && st.clock == 0 && FirstPorts(st.used, n)
        && OneHost(st.outgoing, n)
  }

  lemma StepOpens(cfg: Config, st: State, e: Event, q: nat)
    requires Inv(cfg, st) && e.PacketIn? && st.clock == e.now && OpensFlow(cfg, st, e.port, e.packet)
    requires Pick(st.used, MatchOf(e.packet), e.random) == Some(q)
    ensures var next := Step(cfg, st, e);
            && next.used == st.used + {(e.packet.nwProto, q)} && next.clock == e.now && next.gateway == st.gateway
            && next.outgoing.Keys == st.outgoing.Keys + {MatchOf(e.packet)}
  {
    hide Inv, Pick;
    assert st.(clock := e.now) == st;
  }

  lemma PicksOwn(used: set<(nat, nat)>, m: Match, random: nat)
    requires m.Exact() && LOW_PORTS <= m.tpSrc.value < PORT_END && (m.nwProto, m.tpSrc.value) !in used
    ensures Pick(used, m, random) == m.tpSrc
  {
    assert Scan(m.tpSrc.value)[0] == m.tpSrc.value;
  }

  lemma OpeningOpens(st: State, n: nat)
    requires Flooded(st, n) && FIRST_PORT + n < PORT_END
    ensures var p := Opening(n).packet;
            && Inv(SmallSite(), st) && st.clock == Opening(n).now && OpensFlow(SmallSite(), st, Opening(n).port, p)
            && Pick(st.used, MatchOf(p), Opening(n).random) == Some(FIRST_PORT + n)
  {
    hide Inv, Pick, Scan, Span;
    PicksOwn(st.used, MatchOf(Opening(n).packet), Opening(n).random);
  }

  lemma StillFlooded(st: State, n: nat, next: State)
    requires Flooded(st, n) && Inv(SmallSite(), next) && next.clock == 0 && next.gateway == st.gateway
    requires next.used == st.used + {(Opening(n).packet.nwProto, FIRST_PORT + n)}
    requires next.outgoing.Keys == st.outgoing.Keys + {MatchOf(Opening(n).packet)}
    ensures Flooded(next, n + 1)
  {
    hide Inv;
  }

  lemma OneMore(st: State, n: nat)
    requires Flooded(st, n) && FIRST_PORT + n < PORT_END
    ensures Inv(SmallSite(), st) && st.clock == Opening(n).now
    ensures FindsPort(SmallSite(), st, Opening(n)) && Flooded(Step(SmallSite(), st, Opening(n)), n + 1)
    ensures Inv(SmallSite(), Step(SmallSite(), st, Opening(n)))
  {
    OpeningOpens(st, n);
    hide Inv, Step, Pick, OpensFlow, Flooded;
    StepOpens(SmallSite(), st, Opening(n), FIRST_PORT + n);
    StepKeeps(SmallSite(), st, Opening(n));
    StillFlooded(st, n, Step(SmallSite(), st, Opening(n)));
  }

  lemma ReachesMore(cfg: Config, st: State, e: Event, events: seq<Event>, last: State)
    requires Inv(cfg, st) && st.clock <= e.now && FindsPort(cfg, st, e)
    ensures Inv(cfg, Step(cfg, st, e))
    ensures Reaches(cfg, Step(cfg, st, e), events, last) ==> Reaches(cfg, st, [e] + events, last)
  {
    StepKeeps(cfg, st, e);
    hide Inv, Step, FindsPort;
    assert ([e] + events)[1..] == events;
  }

  lemma ReachesNow(st: State, n: nat)
    requires Flooded(st, n)
    ensures Inv(SmallSite(), st) && Reaches(SmallSite(), st, [], st)
  {
    hide Inv;
  }

  lemma {:induction false} Flood(st: State, n: nat)
    requires Flooded(st, n) && FIRST_PORT + n <= PORT_END
    ensures exists events, last :: Reaches(SmallSite(), st, events, last) && Flooded(last, PORT_END - FIRST_PORT)
    decreases PORT_END - FIRST_PORT - n
  {
    hide *;
    if FIRST_PORT + n == PORT_END {
      ReachesNow(st, n);
    } else {
      OneMore(st, n);
      var next := Step(SmallSite(), st, Opening(n));
      Flood(next, n + 1);
      var events, last :| Reaches(SmallSite(), next, events, last) && Flooded(last, PORT_END - FIRST_PORT);
      ReachesMore(SmallSite(), st, Opening(n), events, last);
    }
  }

  /**
   The ports do run out: 16382 flows of one host use the whole range, and the first flow of
   another host from one of those ports then leaves a record without a port in the index.
   */
  lemma PortsRunOut()
    ensures exists events: seq<Event>, last: State, e: Event ::
              && Reaches(SmallSite(), Start(0), events, last) && Inv(SmallSite(), last) && last.clock <= e.now
              && !FindsPort(SmallSite(), last, e) && !Inv(SmallSite(), Step(SmallSite(), last, e))
  {
    hide Inv, Step, Reaches, Flooded, FindsPort, Start;
    StartFlooded();
    var ready := Step(SmallSite(), Start(0), GatewayIs(GATEWAY, 0));
    Flood(ready, 0);
    var events, last :| Reaches(SmallSite(), ready, events, last) && Flooded(last, PORT_END - FIRST_PORT);
    ReachesMore(SmallSite(), Start(0), GatewayIs(GATEWAY, 0), events, last);
    SecondHostFails(last);
    StepKeeps(SmallSite(), last, SecondHost());
  }

  function SecondHost(): Event {
    PacketIn(1, Opening(0).packet.(nwSrc := 5), FIRST_PORT, 0)
  }

  lemma SecondHostFails(st: State)
    requires Flooded(st, PORT_END - FIRST_PORT)
    ensures Inv(SmallSite(), st) && st.clock <= SecondHost().now && !FindsPort(SmallSite(), st, SecondHost())
  {
    hide Inv, Pick, Scan, Span;
    PickFails(st.used, MatchOf(SecondHost().packet), FIRST_PORT, FIRST_PORT);
  }

  lemma StartFlooded()
    ensures Inv(SmallSite(), Start(0)) && Start(0).clock == 0 && FindsPort(SmallSite(), Start(0), GatewayIs(GATEWAY, 0))
    ensures var ready := Step(SmallSite(), Start(0), GatewayIs(GATEWAY, 0));
            Inv(SmallSite(), ready) && Flooded(ready, 0) && ready == Start(0).(gateway := Some(GATEWAY))
  {
  }

  // ----- a run in which an answer is lost

  /** What a server sends to the outside address before anybody asked for it. */
  function Unsolicited(): Packet {
    Packet(GATEWAY, 10, 0x800, TCP, 4, 2, 80, FIRST_PORT, NO_TAG, [])
  }

  function LostRun(): seq<Event> {
    [GatewayIs(GATEWAY, 0), PacketIn(0, Unsolicited(), FIRST_PORT, 0),
     PacketIn(1, Opening(0).packet, FIRST_PORT, 1)]
  }

  lemma AfterUnsolicited(s1: State, s2: State)
    requires s1 == Start(0).(gateway := Some(GATEWAY)) && Inv(SmallSite(), s1)
    requires s2 == Step(SmallSite(), s1, LostRun()[1])
    ensures s2 == s1.(drops := {Drop(0, Unsolicited(), 0)}) && FindsPort(SmallSite(), s1, LostRun()[1])
  {
  }

  lemma AfterOpening(s2: State, s3: State)
    requires s2 == Start(0).(gateway := Some(GATEWAY), drops := {Drop(0, Unsolicited(), 0)}) && Inv(SmallSite(), s2)
    requires s3 == Step(SmallSite(), s2, LostRun()[2])
    ensures FindsPort(SmallSite(), s2, LostRun()[2])
    ensures var f := Build(SmallSite(), GATEWAY, MatchOf(Opening(0).packet), 1, Some(FIRST_PORT));
            && s3.installed == {Installed(f, 1)} && s3.drops == s2.drops && s3.clock == 1
            && f.outbound.Accepts(1, Opening(0).packet) && f.fakePort.Some? && f.incoming.dlSrc.Some?
            && Reply(Disguised(SmallSite(), f, Opening(0).packet), NO_TAG, []) == Unsolicited()
  {
    hide Inv, Pick;
    PicksOwn(s2.used, MatchOf(Opening(0).packet), FIRST_PORT);
  }

  lemma StillDropped(st: State, held: set<Drop>)
    requires st.drops == {Drop(0, Unsolicited(), 0)} && st.clock == 1 && MayHold(st, held)
    ensures Dropped(held, SmallSite().outsidePort, Unsolicited())
    ensures SwitchSends(st, held, SmallSite().outsidePort, Unsolicited(), [])
  {
    var d := Drop(0, Unsolicited(), 0);
    assert d in st.drops;
    assert d in held && d.Accepts(SmallSite().outsidePort, Unsolicited());
  }

  /**
   An answer is lost: the packet came once unasked, a second later a host opens the flow that it
   would belong to, and the drop entry still stands before the flow's own.
   */
  lemma AnswerLost()
    ensures exists last: State, e: Installed ::
              && Reaches(SmallSite(), Start(0), LostRun(), last) && Inv(SmallSite(), last) && Active(last, e)
              && e.flow.outbound.Accepts(1, Opening(0).packet) && e.flow.fakePort.Some? && e.flow.incoming.dlSrc.Some?
              && Reply(Disguised(SmallSite(), e.flow, Opening(0).packet), NO_TAG, []) == Unsolicited()
              && forall held :: MayHold(last, held) ==>
                   && Dropped(held, SmallSite().outsidePort, Unsolicited())
                   && SwitchSends(last, held, SmallSite().outsidePort, Unsolicited(), [])
  {
    hide Inv, Step, FindsPort, Reaches, Build, Active, MayHold, SwitchSends, Dropped, Disguised, Unsolicited;
    hide SmallSite, Start, Flooded;
    var cfg, es := SmallSite(), LostRun();
    StartFlooded();
    StartClock();
    var s1 := Step(cfg, Start(0), es[0]);
    var s2 := Step(cfg, s1, es[1]);
    AfterUnsolicited(s1, s2);
    StepKeeps(cfg, s1, es[1]);
    var s3 := Step(cfg, s2, es[2]);
    AfterOpening(s2, s3);
    StepKeeps(cfg, s2, es[2]);
    ReachesItself(cfg, s3);
    ReachesMore(cfg, s2, es[2], [], s3);
    ReachesMore(cfg, s1, es[1], [es[2]] + [], s3);
    ReachesMore(cfg, Start(0), es[0], [es[1]] + ([es[2]] + []), s3);
    assert es == [es[0]] + ([es[1]] + ([es[2]] + []));
    var e := Installed(Build(cfg, GATEWAY, MatchOf(Opening(0).packet), 1, Some(FIRST_PORT)), 1);
    EntryActive(s3, e);
    forall held | MayHold(s3, held)
      ensures Dropped(held, cfg.outsidePort, Unsolicited()) && SwitchSends(s3, held, cfg.outsidePort, Unsolicited(), [])
    {
      StillDropped(s3, held);
    }
  }

  lemma StartClock()
    ensures Start(0).clock == 0 && Opening(0).now == 0
  {
  }

  lemma ReachesItself(cfg: Config, st: State)
    requires Inv(cfg, st)
    ensures Reaches(cfg, st, [], st)
  {
  }

  lemma EntryActive(st: State, e: Installed)
    requires st.installed == {e} && st.clock == e.at
    ensures Active(st, e)
  {
  }
}
