/**
 The server in terms of the messages alone: which message is accepted after which others, and
 what the server then holds.
 */
module ConfigSequences {
  import opened Wrappers
  import opened Messages
  import opened ConfigSpec
  import opened ConfigProofs
  import opened ConfigRuns

  // ----- what was sent since the routers were last announced

  /** The ROUTER messages, */
  function RouterMsgs(ms: seq<Message>): (rs: seq<Message>)
    ensures forall i :: 0 <= i < |rs| ==> rs[i].Router?
  {
    if ms == [] then []
    else
      var m := ms[|ms| - 1];
      if m.Routers? then [] else RouterMsgs(ms[..|ms| - 1]) + if m.Router? then [m] else []
  }

  /** the INTERFACE messages for router i, */
  function IfaceMsgs(ms: seq<Message>, i: nat): (fs: seq<Message>)
    ensures forall k :: 0 <= k < |fs| ==> fs[k].Interface?
  {
    if ms == [] then []
    else
      var m := ms[|ms| - 1];
      if m.Routers? then [] else IfaceMsgs(ms[..|ms| - 1], i) + if m.Interface? && m.rid == i then [m] else []
  }

  /** and its ROUTING TABLE ENTRY messages. */
  function RouteMsgs(ms: seq<Message>, i: nat): (es: seq<Message>)
    ensures forall k :: 0 <= k < |es| ==> es[k].RTableEntry?
  {
    if ms == [] then []
    else
      var m := ms[|ms| - 1];
      if m.Routers? then [] else RouteMsgs(ms[..|ms| - 1], i) + if m.RTableEntry? && m.rid == i then [m] else []
  }

  /** The number of routers that was announced last. */
  function Announced(ms: seq<Message>): nat {
    if ms == [] then 0
    else if ms[|ms| - 1].Routers? then ms[|ms| - 1].count else Announced(ms[..|ms| - 1])
  }

  predicate Ended(ms: seq<Message>) {
    exists i :: 0 <= i < |ms| && ms[i].EndConfig?
  }

  // ----- which message may follow

  /** The configuration has begun and not ended. */
  predicate Open(ms: seq<Message>) {
    ms != [] && !Ended(ms)
  }

  /** An interface that was sent for a router that was sent. */
  predicate Known(ms: seq<Message>, rid: nat, k: nat) {
    rid < |RouterMsgs(ms)| && k < |IfaceMsgs(ms, rid)|
  }

  predicate MayFollow(ms: seq<Message>, m: Message) {
    match m
    case Hello(_) => ms == []
    case Routers(_) => Open(ms)
    case Router(rid, _, _, _) => Open(ms) && rid == |RouterMsgs(ms)|
    case Interface(rid, k, _, _, _) => Open(ms) && rid < |RouterMsgs(ms)| && k == |IfaceMsgs(ms, rid)|
    case RTableEntry(rid, k, _, _, _, _) =>
      Open(ms) && Known(ms, rid, k) && |RouteMsgs(ms, rid)| < RouterMsgs(ms)[rid].lenRtable
    case EndConfig =>
      && |RouterMsgs(ms)| == Announced(ms)
      && forall i :: 0 <= i < |RouterMsgs(ms)| ==> |IfaceMsgs(ms, i)| == RouterMsgs(ms)[i].numInterfaces
    case Frame(_, rid, k, _) => Ended(ms) && Known(ms, rid, k)
  }

  // ----- what the server holds

  predicate HoldsIface(f: Iface, m: Message)
    requires m.Interface?
  {
    f.poxIfaceId == m.ifaceId && f.name == m.name && f.mac == m.hwaddr && f.ip == m.ip
  }

  predicate HoldsRoute(e: Entry, m: Message)
    requires m.RTableEntry?
  {
    e.dest == m.dest && e.mask == m.mask && e.gw == m.gw && e.metric == m.metric && e.iface == m.ifaceId
  }

  /** Router i is what its messages said, in their order. */
  predicate HoldsRouter(r: RouterCtx, ms: seq<Message>, i: nat)
    requires i < |RouterMsgs(ms)|
  {
    var m, fs, es := RouterMsgs(ms)[i], IfaceMsgs(ms, i), RouteMsgs(ms, i);
    && r.rid == i == m.rid && r.name == m.name && r.maxInterfaces == m.numInterfaces && r.maxRtable == m.lenRtable
    && |r.interfaces| == |fs| && (forall k :: 0 <= k < |fs| ==> HoldsIface(r.interfaces[k], fs[k]))
    && |r.rtable| == |es| && (forall k :: 0 <= k < |es| ==> HoldsRoute(r.rtable[k], es[k]))
  }

  ghost predicate Holds(s: Server, ms: seq<Message>) {
    && (s.phase.HelloWait? <==> ms == []) && (s.phase.Running? <==> Ended(ms))
    && s.maxRouters == Announced(ms)
    && |s.routers| == |RouterMsgs(ms)|
    && (forall i :: 0 <= i < |s.routers| ==> HoldsRouter(s.routers[i], ms, i))
    && (forall i: nat :: |s.routers| <= i ==> IfaceMsgs(ms, i) == [] && RouteMsgs(ms, i) == [])
  }

  lemma EndedMore(ms: seq<Message>, m: Message)
    ensures Ended(ms + [m]) <==> Ended(ms) || m.EndConfig?
  {
    var all := ms + [m];
    if i :| 0 <= i < |ms| && ms[i].EndConfig? {
      assert all[i].EndConfig?;
    }
    assert all[|ms|] == m;
  }

  lemma MsgsMore(ms: seq<Message>, m: Message, i: nat)
    ensures var all := ms + [m];
            && RouterMsgs(all) == (if m.Routers? then [] else RouterMsgs(ms) + if m.Router? then [m] else [])
            && IfaceMsgs(all, i)
               == (if m.Routers? then [] else IfaceMsgs(ms, i) + if m.Interface? && m.rid == i then [m] else [])
            && RouteMsgs(all, i)
               == (if m.Routers? then [] else RouteMsgs(ms, i) + if m.RTableEntry? && m.rid == i then [m] else [])
            && Announced(all) == if m.Routers? then m.count else Announced(ms)
  {
    assert (ms + [m])[..|ms|] == ms;
  }

  /** A server that holds what was sent accepts just what may follow, */
  lemma AcceptedNext(s: Server, ms: seq<Message>, m: Message)
    requires Holds(s, ms)
    ensures Process(s, m).Some? <==> MayFollow(ms, m)
  {
    hide RouterMsgs, IfaceMsgs, RouteMsgs, Announced, Ended;
    assert s.phase.Configuring? <==> Open(ms);
    forall i | 0 <= i < |s.routers|
      ensures |s.routers[i].interfaces| == |IfaceMsgs(ms, i)| && |s.routers[i].rtable| == |RouteMsgs(ms, i)|
      ensures s.routers[i].maxInterfaces == RouterMsgs(ms)[i].numInterfaces
      ensures s.routers[i].maxRtable == RouterMsgs(ms)[i].lenRtable
    {
      assert HoldsRouter(s.routers[i], ms, i);
    }
    hide HoldsRouter;
    match m
    case Hello(_) =>
    case Routers(_) =>
    case Router(_, _, _, _) =>
    case Interface(_, _, _, _, _) =>
    case RTableEntry(_, _, _, _, _, _) =>
    case EndConfig =>
    case Frame(_, _, _, _) =>
  }

  /** An appended element keeps what held of the others. */
  lemma HeldOld(r: RouterCtx, ms: seq<Message>, m: Message, i: nat)
    requires i < |RouterMsgs(ms)| && HoldsRouter(r, ms, i) && !m.Routers?
    requires !(m.Interface? && m.rid == i) && !(m.RTableEntry? && m.rid == i)
    ensures i < |RouterMsgs(ms + [m])| && HoldsRouter(r, ms + [m], i)
  {
    MsgsMore(ms, m, i);
    hide RouterMsgs, IfaceMsgs, RouteMsgs, Announced, HoldsIface, HoldsRoute;
  }

  lemma HeldIface(r: RouterCtx, ms: seq<Message>, m: Message, i: nat)
    requires i < |RouterMsgs(ms)| && HoldsRouter(r, ms, i) && m.Interface? && m.rid == i
    ensures i < |RouterMsgs(ms + [m])|
    ensures HoldsRouter(r.(interfaces := r.interfaces + [Iface(m.ifaceId, m.name, m.hwaddr, m.ip)]), ms + [m], i)
  {
    MsgsMore(ms, m, i);
    assert HoldsIface(Iface(m.ifaceId, m.name, m.hwaddr, m.ip), m);
    hide RouterMsgs, IfaceMsgs, RouteMsgs, Announced, HoldsIface, HoldsRoute;
  }

  lemma HeldRoute(r: RouterCtx, ms: seq<Message>, m: Message, i: nat)
    requires i < |RouterMsgs(ms)| && HoldsRouter(r, ms, i) && m.RTableEntry? && m.rid == i
    ensures i < |RouterMsgs(ms + [m])|
    ensures HoldsRouter(r.(rtable := r.rtable + [Entry(m.dest, m.mask, m.gw, m.metric, m.ifaceId)]), ms + [m], i)
  {
    MsgsMore(ms, m, i);
    assert HoldsRoute(Entry(m.dest, m.mask, m.gw, m.metric, m.ifaceId), m);
    hide RouterMsgs, IfaceMsgs, RouteMsgs, Announced, HoldsIface, HoldsRoute;
  }

  lemma HeldNew(ms: seq<Message>, m: Message)
    requires m.Router? && m.rid == |RouterMsgs(ms)|
    requires IfaceMsgs(ms, m.rid) == [] && RouteMsgs(ms, m.rid) == []
    ensures m.rid < |RouterMsgs(ms + [m])|
    ensures HoldsRouter(RouterCtx(m.rid, m.name, m.numInterfaces, [], m.lenRtable, []), ms + [m], m.rid)
  {
    MsgsMore(ms, m, m.rid);
    hide RouterMsgs, IfaceMsgs, RouteMsgs, Announced, HoldsIface, HoldsRoute;
  }

  lemma HeldRouter(s: Server, ms: seq<Message>, m: Message, i: nat)
    requires Holds(s, ms) && Process(s, m).Some? && i < |Process(s, m).value.routers|
    ensures i < |RouterMsgs(ms + [m])| && HoldsRouter(Process(s, m).value.routers[i], ms + [m], i)
  {
    hide RouterMsgs, IfaceMsgs, RouteMsgs, Announced, Ended, HoldsRouter;
    if m.Router? && m.rid == i {
      HeldNew(ms, m);
    } else if m.Interface? && m.rid == i {
      HeldIface(s.routers[i], ms, m, i);
    } else if m.RTableEntry? && m.rid == i {
      HeldRoute(s.routers[i], ms, m, i);
    } else if !m.Routers? {
      HeldOld(s.routers[i], ms, m, i);
    }
  }

  lemma HeldCounts(s: Server, ms: seq<Message>, m: Message, i: nat)
    requires Holds(s, ms) && Process(s, m).Some?
    ensures var next, all := Process(s, m).value, ms + [m];
            && (next.phase.HelloWait? <==> all == []) && (next.phase.Running? <==> Ended(all))
            && next.maxRouters == Announced(all) && |next.routers| == |RouterMsgs(all)|
            && (i >= |next.routers| ==> IfaceMsgs(all, i) == [] && RouteMsgs(all, i) == [])
  {
    EndedMore(ms, m);
    MsgsMore(ms, m, i);
    hide RouterMsgs, IfaceMsgs, RouteMsgs, Announced, Ended, HoldsRouter;
  }

  /** and then holds that too. */
  lemma HeldNext(s: Server, ms: seq<Message>, m: Message)
    requires Holds(s, ms) && Process(s, m).Some?
    ensures Holds(Process(s, m).value, ms + [m])
  {
    var next := Process(s, m).value;
    HeldCounts(s, ms, m, 0);
    forall i: nat
      ensures i < |next.routers| ==> i < |RouterMsgs(ms + [m])| && HoldsRouter(next.routers[i], ms + [m], i)
      ensures i >= |next.routers| ==> IfaceMsgs(ms + [m], i) == [] && RouteMsgs(ms + [m], i) == []
    {
      HeldCounts(s, ms, m, i);
      if i < |next.routers| { HeldRouter(s, ms, m, i); }
    }
    hide Process, RouterMsgs, IfaceMsgs, RouteMsgs, Announced, Ended, HoldsRouter;
  }

  /**
   All sequences: each message is accepted if and only if it may follow those before it, and the
   server holds exactly what they said.
   */
  lemma {:induction false} AcceptedSequence(ms: seq<Message>)
    ensures Feed(NewServer(), ms).Some? <==> forall n :: 0 <= n < |ms| ==> MayFollow(ms[..n], ms[n])
    ensures Feed(NewServer(), ms).Some? ==> Holds(Feed(NewServer(), ms).value, ms)
    decreases |ms|
  {
    hide *;
    if ms == [] {
      NothingFed(ms);
    } else {
      var before, m := ms[..|ms| - 1], ms[|ms| - 1];
      AcceptedSequence(before);
      LastFed(ms);
      LastFollows(ms);
      if Feed(NewServer(), before).Some? {
        var s := Feed(NewServer(), before).value;
        AcceptedNext(s, before, m);
        if Process(s, m).Some? { HeldNext(s, before, m); }
      }
    }
  }

  lemma NothingFed(ms: seq<Message>)
    requires ms == []
    ensures Feed(NewServer(), ms) == Some(NewServer()) && Holds(NewServer(), ms)
  {
  }

  lemma LastFed(ms: seq<Message>)
    requires ms != []
    ensures var before, m := ms[..|ms| - 1], ms[|ms| - 1];
            && ms == before + [m]
            && Feed(NewServer(), ms)
               == match Feed(NewServer(), before) case None => None case Some(s) => Process(s, m)
  {
    var before, m := ms[..|ms| - 1], ms[|ms| - 1];
    assert ms == before + [m];
    FeedConcat(NewServer(), before, [m]);
    if Feed(NewServer(), before).Some? { FeedOne(Feed(NewServer(), before).value, m); }
    hide Feed, Process;
  }

  lemma LastFollows(ms: seq<Message>)
    requires ms != []
    ensures var before := ms[..|ms| - 1];
            (forall n :: 0 <= n < |ms| ==> MayFollow(ms[..n], ms[n])) <==>
            (forall n :: 0 <= n < |before| ==> MayFollow(before[..n], before[n])) && MayFollow(before, ms[|ms| - 1])
  {
    hide MayFollow;
    var before := ms[..|ms| - 1];
    assert forall k :: 0 <= k < |before| ==> ms[..k] == before[..k] && ms[k] == before[k];
  }

  /** A router of a running server has all its routes if and only if as many were sent as it announced. */
  lemma RoutesComplete(ms: seq<Message>, i: nat)
    requires Feed(NewServer(), ms).Some? && i < |Feed(NewServer(), ms).value.routers|
    ensures var r := Feed(NewServer(), ms).value.routers[i];
            |r.rtable| == r.maxRtable <==> |RouteMsgs(ms, i)| == r.maxRtable
  {
    AcceptedSequence(ms);
    assert HoldsRouter(Feed(NewServer(), ms).value.routers[i], ms, i);
    hide Feed, RouterMsgs, IfaceMsgs, RouteMsgs, MayFollow;
  }
}
