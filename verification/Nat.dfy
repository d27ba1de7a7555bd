/**
 The `NAT` object of lib/pox/pox/misc/nat.py: a set of used ports and two dictionaries of
 record objects, changed by the packet handler and by the expiry timer.
 */
module Nat {
  import opened Wrappers
  import opened NatSpec
  import opened NatProofs
  import opened NatOutcomes

  class Record {
    const flow: Flow
    var expiresAt: int

    constructor (flow: Flow, now: int)
      ensures this.flow == flow && expiresAt == now + FLOW_MEMORY_TIMEOUT
    {
      this.flow, expiresAt := flow, now + FLOW_MEMORY_TIMEOUT;
    }

    method Touch(now: int)
      modifies this
      ensures expiresAt == now + FLOW_MEMORY_TIMEOUT
    {
      expiresAt := now + FLOW_MEMORY_TIMEOUT;
    }
  }

  ghost function Flows(records: map<Match, Record>): map<Match, Flow> {
    map m | m in records :: records[m].flow
  }

  ghost function Timers(records: map<Match, Record>): map<Match, int>
    reads records.Values
  {
    map m | m in records :: records[m].expiresAt
  }

  /** The dictionaries share their record objects, so that one timer serves both. */
  ghost predicate Shared(byOutgoing: map<Match, Record>, byIncoming: map<Match, Record>) {
    && (forall m :: m in byIncoming ==>
          byIncoming[m].flow.outgoing in byOutgoing && byOutgoing[byIncoming[m].flow.outgoing] == byIncoming[m])
    && (forall m :: m in byOutgoing ==> byOutgoing[m].flow.outgoing == m)
  }

  /** What is left to try once the search is at `port` in its first or second cycle. */
  function Rest(port: nat, cycle: nat): seq<nat> {
    if cycle == 0 then Scan(port) else if cycle == 1 then Span(port, PORT_END) else []
  }

  lemma RestStep(used: set<(nat, nat)>, proto: nat, port: nat, cycle: nat)
    requires cycle < 2 && (cycle == 1 ==> port < PORT_END)
    ensures (proto, port) !in used ==> FirstFree(used, proto, Rest(port, cycle)) == Some(port)
    ensures (proto, port) in used ==>
              FirstFree(used, proto, Rest(port, cycle))
              == FirstFree(used, proto, if port + 1 >= PORT_END then Rest(FIRST_PORT, cycle + 1)
                  else Rest(port + 1, cycle))
  {
    var next := if port + 1 >= PORT_END then Rest(FIRST_PORT, cycle + 1) else Rest(port + 1, cycle);
    hide FirstFree;
    RestCons(port, cycle);
    FreeCons(used, proto, port, next);
  }

  lemma RestCons(port: nat, cycle: nat)
    requires cycle < 2 && (cycle == 1 ==> port < PORT_END)
    ensures Rest(port, cycle) == [port] + if port + 1 >= PORT_END then Rest(FIRST_PORT, cycle + 1)
        else Rest(port + 1, cycle)
  {
    if port < PORT_END {
      assert Span(port, PORT_END) == [port] + Span(port + 1, PORT_END);
    }
  }

  lemma FreeCons(used: set<(nat, nat)>, proto: nat, port: nat, rest: seq<nat>)
    ensures FirstFree(used, proto, [port] + rest) == if (proto, port) !in used then Some(port)
        else FirstFree(used, proto, rest)
  {
    assert ([port] + rest)[1..] == rest;
  }

  class Translator {
    const cfg: Config
    var gatewayEth: Option<nat>
    var used: set<(nat, nat)>
    var byOutgoing: map<Match, Record>
    var byIncoming: map<Match, Record>
    ghost var installed: set<Installed>
    ghost var drops: set<Drop>
    ghost var clock: int

    ghost function Now(): State
      reads this, byOutgoing.Values
    {
      State(gatewayEth, used, Flows(byOutgoing), Flows(byIncoming), Timers(byOutgoing), installed, drops, clock)
    }

    ghost predicate Valid()
      reads this, byOutgoing.Values
    {
      Inv(cfg, Now()) && Shared(byOutgoing, byIncoming)
    }

    constructor (cfg: Config, now: int)
      ensures this.cfg == cfg && Valid() && Now() == Start(now)
    {
      this.cfg := cfg;
      gatewayEth, used, byOutgoing, byIncoming, installed, drops, clock := None, {}, map[], map[], {}, {}, now;
    }

    /** `_pick_port` */
    method PickPort(m: Match, random: nat) returns (r: Option<nat>)
      requires m.Exact()
      modifies this`used
      ensures r == Pick(old(used), m, random)
      ensures used == old(used) + if r.Some? then {(m.nwProto, r.value)} else {}
    {
      hide Rest, FirstFree, Pick, Scan, Span;
      var port: nat := m.tpSrc.value;
      if port < LOW_PORTS {
        port := random;
      }
      var cycle := 0;
      PickStarts(used, m, random);
      while cycle < 2
        invariant 0 <= cycle <= 2 && used == old(used) && (cycle == 1 ==> port < PORT_END)
        invariant Pick(used, m, random) == FirstFree(used, m.nwProto, Rest(port, cycle))
        decreases 2 - cycle, PORT_END - port
      {
        RestStep(used, m.nwProto, port, cycle);
        if (m.nwProto, port) !in used {
          used := used + {(m.nwProto, port)};
          return Some(port);
        }
        port := port + 1;
        if port >= PORT_END {
          port := FIRST_PORT;
          cycle := cycle + 1;
        }
      }
      NothingLeft(used, m.nwProto, port);
      return None;
    }

    /** The branch of the handler that records a new flow. */
    method AddRecord(m: Match, port: nat, random: nat, now: int) returns (record: Record)
      requires m.Exact() && m !in byOutgoing && gatewayEth.Some?
      modifies this`used, this`byOutgoing, this`byIncoming
      ensures fresh(record) && record.flow.outgoing == m && record.expiresAt == now + FLOW_MEMORY_TIMEOUT
      ensures byOutgoing == old(byOutgoing)[m := record]
          && byIncoming == old(byIncoming)[record.flow.incoming := record]
      ensures var st := AddFlow(cfg, old(Now()), m, port, random);
              st.outgoing[m] == record.flow
              && Now() == st.(expiresAt := st.expiresAt[m := now + FLOW_MEMORY_TIMEOUT])
    {
      hide Pick, Flows, Timers;
      var fake := PickPort(m, random);
      record := new Record(Build(cfg, gatewayEth.value, m, port, fake), now);
      FlowsUpdate(byOutgoing, m, record);
      FlowsUpdate(byIncoming, record.flow.incoming, record);
      TimersUpdate(byOutgoing, m, record);
      byIncoming := byIncoming[record.flow.incoming := record];
      byOutgoing := byOutgoing[record.flow.outgoing := record];
    }

    /** The end of the handler: the timer is set and the two entries are sent, unless one has no port to pack. */
    method Resend(record: Record, back: bool, now: int) returns (sent: Sent)
      requires record in byOutgoing.Values && now == clock
      requires Shared(byOutgoing, byIncoming)
      modifies record, this`installed
      ensures Now() == Install(NatSpec.Touch(old(Now()), record.flow, now), record.flow, now)
      ensures sent == EntriesOf(record.flow, back)
    {
      record.Touch(now);
      sent := Nothing;
      if record.flow.fakePort.Some? {
        installed := installed + {Installed(record.flow, now)};
        sent := if back then Entries(record.flow.outbound, record.flow.inbound)
                else Entries(record.flow.inbound, record.flow.outbound);
      }
    }

    /** A packet from the outside for a recorded flow; others are not for us, and are dropped for a while. */
    method Inbound(p: Packet, now: int) returns (sent: Sent)
      requires Shared(byOutgoing, byIncoming) && clock == now
      modifies this`installed, this`drops, byOutgoing.Values
      ensures Shared(byOutgoing, byIncoming)
      ensures var f := old(Flows(byIncoming));
              Now() == if InboundKey(p) !in f then old(Now()).(drops := old(drops) + {Drop(cfg.outsidePort, p, now)})
                       else Install(NatSpec.Touch(old(Now()), f[InboundKey(p)], now), f[InboundKey(p)], now)
      ensures var f := old(Flows(byIncoming));
              sent == if InboundKey(p) in f then EntriesOf(f[InboundKey(p)], true) else Ignore
    {
      if InboundKey(p) in byIncoming {
        sent := Resend(byIncoming[InboundKey(p)], true, now);
      } else {
        drops := drops + {Drop(cfg.outsidePort, p, now)};
        sent := Ignore;
      }
    }

    /** A packet from the inside for a recorded flow. */
    method OutboundOld(m: Match, now: int) returns (sent: Sent)
      requires Shared(byOutgoing, byIncoming) && clock == now && m in byOutgoing
      modifies this`installed, byOutgoing.Values
      ensures Shared(byOutgoing, byIncoming)
      ensures var f := old(Flows(byOutgoing))[m];
              Now() == Install(NatSpec.Touch(old(Now()), f, now), f, now) && sent == EntriesOf(f, false)
    {
      sent := Resend(byOutgoing[m], false, now);
    }

    /** A packet from the inside that opens a flow. */
    method OutboundNew(m: Match, port: nat, random: nat, now: int) returns (sent: Sent)
      requires Shared(byOutgoing, byIncoming) && clock == now && m.Exact() && m !in byOutgoing && gatewayEth.Some?
      modifies this`used, this`byOutgoing, this`byIncoming, this`installed
      ensures Shared(byOutgoing, byIncoming)
      ensures var st := AddFlow(cfg, old(Now()), m, port, random);
              && Now() == Install(NatSpec.Touch(st, st.outgoing[m], now), st.outgoing[m], now)
              && sent == EntriesOf(st.outgoing[m], false)
    {
      hide Shared, Pick, Flows, Timers, AddFlow, Build;
      ghost var out, inc := byOutgoing, byIncoming;
      var record := AddRecord(m, port, random, now);
      SharedMore(out, inc, record);
      assert byOutgoing[m] == record;
      sent := Resend(record, false, now);
    }

    /** The handler, apart from the passing of time. */
    method Dispatch(port: nat, p: Packet, random: nat, now: int) returns (sent: Sent)
      requires Shared(byOutgoing, byIncoming) && clock == now
      modifies this`used, this`byOutgoing, this`byIncoming, this`installed, this`drops, byOutgoing.Values
      ensures Shared(byOutgoing, byIncoming)
      ensures Now() == HandlePacketIn(cfg, old(Now()), port, p, random, now)
      ensures sent == SentFor(cfg, old(Now()), port, p, random)
    {
      hide Shared, Pick, Flows, Timers, Install, NatSpec.Touch, AddFlow, EntriesOf;
      KeysOf(byOutgoing);
      KeysOf(byIncoming);
      if gatewayEth.None? {
        return AskGateway;
      }
      sent := Nothing;
      if p.nwProto != TCP && p.nwProto != UDP {
        return;
      }
      var m := MatchOf(p);
      if port == cfg.outsidePort {
        if p.nwDst == cfg.outsideIp {
          sent := Inbound(p, now);
        }
      } else if !cfg.isLocal(p.nwDst) || DnsHack(cfg, m) {
        if m in byOutgoing {
          sent := OutboundOld(m, now);
        } else {
          sent := OutboundNew(m, port, random, now);
        }
      }
    }

    /** `_handle_PacketIn` */
    method HandlePacket(port: nat, p: Packet, random: nat, now: int) returns (sent: Sent)
      requires Valid() && clock <= now
      modifies this, byOutgoing.Values
      ensures Now() == Step(cfg, old(Now()), PacketIn(port, p, random, now))
      ensures Valid() <==> FindsPort(cfg, old(Now()), PacketIn(port, p, random, now))
      ensures PacketOutcome(cfg, old(Now()), Now(), port, p, random, now)
      ensures SentOutcome(cfg, old(Now()), Now(), port, p, random, now, sent)
    {
      hide Inv, FindsPort, HandlePacketIn, Shared, PacketOutcome, SentOutcome, SentFor;
      StepKeeps(cfg, Now(), PacketIn(port, p, random, now));
      EveryPacket(cfg, Now(), port, p, random, now);
      EverySent(cfg, Now(), port, p, random, now);
      SentAnytime(cfg, Now(), port, p, random, now);
      clock := now;
      sent := Dispatch(port, p, random, now);
    }

    /** `_handle_ARPHelper_ARPReply` for the gateway's address; records keep the gateway they were made with. */
    method LearnGateway(mac: nat, now: int)
      requires Valid() && clock <= now
      modifies this`gatewayEth, this`clock
      ensures Valid() && Now() == Step(cfg, old(Now()), GatewayIs(mac, now))
      ensures Now() == old(Now()).(gateway := Some(mac), clock := now)
    {
      hide Inv, Shared;
      StepKeeps(cfg, Now(), GatewayIs(mac, now));
      clock := now;
      gatewayEth := Some(mac);
    }

    /** The first loop of `_expire`: the records past their time, in whatever order. */
    method CollectDead(now: int) returns (dead: seq<Record>)
      requires Shared(byOutgoing, byIncoming)
      ensures forall i, j :: 0 <= i < j < |dead| ==> dead[i].flow.outgoing != dead[j].flow.outgoing
      ensures forall i :: 0 <= i < |dead| ==>
                dead[i].flow.outgoing in byOutgoing && byOutgoing[dead[i].flow.outgoing] == dead[i]
      ensures Keys(dead) == ExpiredKeys(byOutgoing, now)
    {
      dead := [];
      var left := byOutgoing.Keys;
      while left != {}
        invariant left <= byOutgoing.Keys
        invariant forall i, j :: 0 <= i < j < |dead| ==> dead[i].flow.outgoing != dead[j].flow.outgoing
        invariant forall i :: 0 <= i < |dead| ==>
                    && dead[i].flow.outgoing in byOutgoing && byOutgoing[dead[i].flow.outgoing] == dead[i]
                    && dead[i].flow.outgoing !in left
        invariant Keys(dead) == ExpiredKeys(byOutgoing, now) - left
      {
        var m :| m in left;
        left := left - {m};
        if now > byOutgoing[m].expiresAt {
          KeysMore(dead, byOutgoing[m]);
          dead := dead + [byOutgoing[m]];
        }
      }
    }

    /** The three deletions for one record; false stands for a KeyError, after which the rest is not done. */
    method Remove(r: Record) returns (ok: bool)
      modifies this`used, this`byOutgoing, this`byIncoming
      ensures ok <==>
                r.flow.outgoing in old(byOutgoing) && r.flow.incoming in old(byIncoming) && PortTaken(old(used), r.flow)
      ensures ok ==>
                byOutgoing == old(byOutgoing) - {r.flow.outgoing} && byIncoming == old(byIncoming) - {r.flow.incoming}
      ensures ok ==> used == old(used) - {(r.flow.outgoing.nwProto, r.flow.fakePort.value)}
    {
      if r.flow.outgoing !in byOutgoing {
        return false;
      }
      byOutgoing := byOutgoing - {r.flow.outgoing};
      if r.flow.incoming !in byIncoming {
        return false;
      }
      byIncoming := byIncoming - {r.flow.incoming};
      if r.flow.fakePort.None? || (r.flow.outgoing.nwProto, r.flow.fakePort.value) !in used {
        return false;
      }
      used := used - {(r.flow.outgoing.nwProto, r.flow.fakePort.value)};
      ok := true;
    }

    /** The second loop of `_expire`. */
    method RemoveAll(dead: seq<Record>) returns (ok: bool)
      requires forall i, j :: 0 <= i < j < |dead| ==> dead[i].flow.outgoing != dead[j].flow.outgoing
      requires forall i :: 0 <= i < |dead| ==>
                 dead[i].flow.outgoing in byOutgoing && byOutgoing[dead[i].flow.outgoing] == dead[i]
      modifies this`used, this`byOutgoing, this`byIncoming
      ensures old(Inv(cfg, Now())) ==> ok
      ensures ok ==> forall i :: 0 <= i < |dead| ==> dead[i].flow.fakePort.Some?
      ensures ok ==> byOutgoing == old(byOutgoing) - Keys(dead)
      ensures ok ==> byIncoming == old(byIncoming) - InboundKeys(Flows(old(byOutgoing)), Keys(dead))
      ensures ok ==> used == old(used) - PortsOf(Flows(old(byOutgoing)), Keys(dead))
    {
      ghost var flows := Flows(byOutgoing);
      NoKeys(flows);
      KeysOf(byIncoming);
      hide Inv, Flows, Keys, InboundKeys, PortsOf;
      for i := 0 to |dead|
        invariant forall j :: 0 <= j < i ==> dead[j].flow.fakePort.Some?
        invariant byOutgoing == old(byOutgoing) - Keys(dead[..i])
        invariant byIncoming == old(byIncoming) - InboundKeys(flows, Keys(dead[..i]))
        invariant used == old(used) - PortsOf(flows, Keys(dead[..i]))
      {
        ghost var m := dead[i].flow.outgoing;
        EarlierKeys(dead, i);
        FlowAt(old(byOutgoing), m);
        if old(Inv(cfg, Now())) {
          StillThere(cfg, old(Now()), Keys(dead[..i]), m);
        }
        var removed := Remove(dead[i]);
        if !removed {
          return false;
        }
        assert dead[..i + 1] == dead[..i] + [dead[i]];
        KeysMore(dead[..i], dead[i]);
        KeysStep(flows, Keys(dead[..i]), m);
      }
      assert dead[..|dead|] == dead;
      ok := true;
    }

    /**
     `_expire`: on a whole index it removes exactly the expired records; an expired record
     without a port makes it fail with a KeyError.
     */
    method ExpireRecords(now: int) returns (ok: bool)
      requires Shared(byOutgoing, byIncoming) && clock <= now
      modifies this
      ensures old(Inv(cfg, Now())) ==> ok && Valid() && Now() == Step(cfg, old(Now()), Expire(now))
      ensures ok ==> forall m :: m in old(byOutgoing) && now > old(byOutgoing[m].expiresAt) ==>
                       old(byOutgoing)[m].flow.fakePort.Some?
    {
      hide Inv, Keys, InboundKeys, PortsOf;
      hide Shared, SameRecords, Flows, Timers;
      ghost var st, was := Now(), byOutgoing;
      ghost var wasIn := byIncoming;
      var dead := CollectDead(now);
      ok := RemoveAll(dead);
      clock := now;
      if ok {
        forall m | m in was && now > was[m].expiresAt
          ensures was[m].flow.fakePort.Some?
        {
          KeyIndex(dead, m);
        }
        DeadKeys(was, now, st);
        WithoutKeys(was, Keys(dead));
        WithoutKeys(wasIn, InboundKeys(Flows(was), Keys(dead)));
        if Inv(cfg, st) {
          StepKeeps(cfg, st, Expire(now));
          InvSame(cfg, Now());
          AfterExpiry(was, wasIn, byOutgoing, byIncoming);
        }
      }
    }
  }

  function Keys(records: seq<Record>): set<Match> {
    set r | r in records :: r.flow.outgoing
  }

  ghost function ExpiredKeys(records: map<Match, Record>, now: int): set<Match>
    reads records.Values
  {
    set m | m in records && now > records[m].expiresAt
  }

  lemma NoKeys(flows: map<Match, Flow>)
    ensures Keys([]) == {} && InboundKeys(flows, {}) == {} && PortsOf(flows, {}) == {}
  {
  }

  lemma KeysStep(flows: map<Match, Flow>, dead: set<Match>, m: Match)
    requires m in flows && flows[m].fakePort.Some?
    ensures InboundKeys(flows, dead + {m}) == InboundKeys(flows, dead) + {flows[m].incoming}
    ensures PortsOf(flows, dead + {m}) == PortsOf(flows, dead) + {(flows[m].outgoing.nwProto, flows[m].fakePort.value)}
  {
  }

  lemma EarlierKeys(dead: seq<Record>, i: nat)
    requires i < |dead|
    requires forall i, j :: 0 <= i < j < |dead| ==> dead[i].flow.outgoing != dead[j].flow.outgoing
    ensures dead[i].flow.outgoing !in Keys(dead[..i])
  {
  }

  lemma KeyIndex(dead: seq<Record>, m: Match)
    ensures m in Keys(dead) ==> exists i :: 0 <= i < |dead| && dead[i].flow.outgoing == m
  {
  }

  lemma FlowAt(records: map<Match, Record>, m: Match)
    requires m in records
    ensures m in Flows(records) && Flows(records)[m] == records[m].flow
  {
  }

  /** The record is found in both dictionaries, and its port among the used ones, whatever else was removed before. */
  lemma StillThere(cfg: Config, st: State, dead: set<Match>, m: Match)
    requires Inv(cfg, st) && m in st.outgoing && m !in dead
    ensures st.outgoing[m].outgoing == m
    ensures st.outgoing[m].incoming in st.incoming - InboundKeys(st.outgoing, dead)
    ensures PortTaken(st.used - PortsOf(st.outgoing, dead), st.outgoing[m])
  {
    var gone := dead * st.outgoing.Keys;
    assert InboundKeys(st.outgoing, dead) == InboundKeys(st.outgoing, gone);
    assert PortsOf(st.outgoing, dead) == PortsOf(st.outgoing, gone);
    ClaimInKey(cfg, m, st.outgoing[m]);
    hide FlowOk, InboundKeys, PortsOf;
    PurgeKeepsRecords(cfg, st.outgoing, st.incoming, gone);
    PurgeKeepsPorts(st.used, st.outgoing, gone);
    assert FiledIn(st.outgoing - gone, st.incoming - InboundKeys(st.outgoing, gone), m);
    assert PortTaken(st.used - PortsOf(st.outgoing, gone), (st.outgoing - gone)[m]);
  }

  lemma KeysMore(records: seq<Record>, r: Record)
    ensures Keys(records + [r]) == Keys(records) + {r.flow.outgoing}
  {
    assert forall x :: x in records + [r] <==> x in records || x == r;
  }

  lemma SharedMore(byOutgoing: map<Match, Record>, byIncoming: map<Match, Record>, r: Record)
    requires Shared(byOutgoing, byIncoming) && r.flow.outgoing !in byOutgoing
    ensures Shared(byOutgoing[r.flow.outgoing := r], byIncoming[r.flow.incoming := r])
  {
  }

  lemma KeysOf(records: map<Match, Record>)
    ensures Flows(records).Keys == records.Keys
  {
  }

  lemma FlowsUpdate(records: map<Match, Record>, m: Match, r: Record)
    ensures Flows(records[m := r]) == Flows(records)[m := r.flow]
  {
  }

  lemma TimersUpdate(records: map<Match, Record>, m: Match, r: Record)
    ensures Timers(records[m := r]) == Timers(records)[m := r.expiresAt]
  {
  }

  lemma PickStarts(used: set<(nat, nat)>, m: Match, random: nat)
    requires m.Exact()
    ensures Pick(used, m, random) == FirstFree(used, m.nwProto, Rest(StartPort(m.tpSrc.value, random), 0))
  {
  }

  lemma SentAnytime(cfg: Config, st: State, port: nat, p: Packet, random: nat, now: int)
    ensures SentFor(cfg, st.(clock := now), port, p, random) == SentFor(cfg, st, port, p, random)
  {
    hide Pick, Build, EntriesOf;
  }

  lemma NothingLeft(used: set<(nat, nat)>, proto: nat, port: nat)
    ensures FirstFree(used, proto, Rest(port, 2)).None?
  {
  }

  lemma DeadKeys(records: map<Match, Record>, now: int, st: State)
    requires st.outgoing == Flows(records) && st.expiresAt == Timers(records)
    ensures Dead(st, now) == ExpiredKeys(records, now)
  {
  }

  lemma WithoutKeys(records: map<Match, Record>, dead: set<Match>)
    ensures Flows(records - dead) == Flows(records) - dead && Timers(records - dead) == Timers(records) - dead
  {
  }

  lemma InvSame(cfg: Config, st: State)
    requires Inv(cfg, st)
    ensures SameRecords(st.outgoing, st.incoming)
  {
  }

  /** After an expiry the dictionaries still share their records. */
  lemma AfterExpiry(out: map<Match, Record>, inc: map<Match, Record>, out': map<Match, Record>,
                    inc': map<Match, Record>)
    requires Shared(out, inc) && out'.Keys <= out.Keys && inc'.Keys <= inc.Keys
    requires forall m :: m in out' ==> out'[m] == out[m]
    requires forall m :: m in inc' ==> inc'[m] == inc[m]
    requires SameRecords(Flows(out'), Flows(inc'))
    ensures Shared(out', inc')
  {
    forall m | m in inc'
      ensures inc'[m].flow.outgoing in out'
    {
      assert FiledOut(Flows(out'), Flows(inc'), m);
    }
  }
}
