/**
 Arbitrary message sequences: what a server that accepts them is like, and how far the order of
 the messages is checked.
 */
module ConfigRuns {
  import opened Wrappers
  import opened Messages
  import opened ConfigSpec
  import opened ConfigProofs

  /** The server before any message. */
  function NewServer(): Server {
    Server(HelloWait, 0, [])
  }

  predicate HasHello(ms: seq<Message>) {
    exists i :: 0 <= i < |ms| && ms[i].Hello?
  }

  /** END CONFIG as the very first message is accepted: no routers are as many as were announced. */
  lemma EndConfigFirst()
    ensures Feed(NewServer(), [EndConfig]) == Some(Server(Running, 0, []))
  {
    FeedOne(NewServer(), EndConfig);
  }

  lemma {:induction false} OnlyEndConfigs(ms: seq<Message>)
    requires Feed(Server(Running, 0, []), ms).Some?
    ensures !HasHello(ms) && Feed(Server(Running, 0, []), ms) == Some(Server(Running, 0, []))
    decreases |ms|
  {
    if ms != [] {
      OnlyEndConfigs(ms[1..]);
      assert forall i :: 0 < i < |ms| ==> ms[i] == ms[1..][i - 1];
    }
  }

  /**
   A new server accepts a message before HELLO if and only if that message is END CONFIG, and
   then it never sees a HELLO: of the sequences it accepts, those with a HELLO are exactly those
   that do not begin with END CONFIG, and they begin with the HELLO.
   */
  lemma GreetedUnlessEnded(ms: seq<Message>)
    requires ms != [] && Feed(NewServer(), ms).Some?
    ensures HasHello(ms) <==> !ms[0].EndConfig?
    ensures ms[0].Hello? <==> !ms[0].EndConfig?
  {
    if ms[0].EndConfig? {
      OnlyEndConfigs(ms[1..]);
      assert forall i :: 0 < i < |ms| ==> ms[i] == ms[1..][i - 1];
    }
  }

  // ----- what a running server has

  /** Identifiers are consecutive, announced arrays are not overrun, and routes point at interfaces. */
  ghost predicate RouterOk(r: RouterCtx, i: nat) {
    && r.rid == i && |r.rtable| <= r.maxRtable
    && (forall k :: 0 <= k < |r.interfaces| ==> r.interfaces[k].poxIfaceId == k)
    && forall k :: 0 <= k < |r.rtable| ==> r.rtable[k].iface < |r.interfaces|
  }

  /** Every router has as many interfaces as it announced, and there are as many routers as were announced. */
  predicate Complete(s: Server) {
    && |s.routers| == s.maxRouters
    && forall i :: 0 <= i < |s.routers| ==> |s.routers[i].interfaces| == s.routers[i].maxInterfaces
  }

  ghost predicate ServerOk(s: Server) {
    && (forall i :: 0 <= i < |s.routers| ==> RouterOk(s.routers[i], i))
    && (s.phase.Running? ==> Complete(s))
    && (s.phase.HelloWait? ==> s.routers == [])
  }

  lemma ProcessKeeps(s: Server, m: Message)
    requires ServerOk(s) && Process(s, m).Some?
    ensures ServerOk(Process(s, m).value)
  {
    var next := Process(s, m).value;
    forall i | 0 <= i < |next.routers|
      ensures RouterOk(next.routers[i], i)
    {
      if i < |s.routers| { assert RouterOk(s.routers[i], i); }
    }
  }

  /** Whatever was sent, a server that is RUNNING is complete, and identifiers are always consecutive. */
  lemma {:induction false} AlwaysOk(s: Server, ms: seq<Message>)
    requires ServerOk(s) && Feed(s, ms).Some?
    ensures ServerOk(Feed(s, ms).value)
    decreases |ms|
  {
    if ms != [] {
      ProcessKeeps(s, ms[0]);
      hide ServerOk, Process;
      AlwaysOk(Process(s, ms[0]).value, ms[1..]);
    }
  }

  lemma RunningIsComplete(ms: seq<Message>)
    requires Feed(NewServer(), ms).Some?
    ensures var s := Feed(NewServer(), ms).value;
            (s.phase.Running? ==> Complete(s)) && forall i :: 0 <= i < |s.routers| ==> RouterOk(s.routers[i], i)
  {
    AlwaysOk(NewServer(), ms);
  }

  // ----- routes are not counted

  /** A server can run without a route that was announced. */
  lemma RouteMissing()
    ensures var ms := [Hello(1), Routers(1), Router(0, 0, 1, []), EndConfig];
            Feed(NewServer(), ms) == Some(Server(Running, 1, [RouterCtx(0, [], 0, [], 1, [])]))
  {
    var a, b, c := [Hello(1)], [Routers(1)], [Router(0, 0, 1, [])];
    var empty, one := Server(Configuring, 1, []), Server(Configuring, 1, [RouterCtx(0, [], 0, [], 1, [])]);
    FeedOne(NewServer(), Hello(1));
    FeedLast(NewServer(), a, Server(Configuring, 0, []), Routers(1));
    FeedLast(NewServer(), a + b, empty, Router(0, 0, 1, []));
    assert empty.routers + one.routers == one.routers;
    FeedLast(NewServer(), a + b + c, one, EndConfig);
    assert a + b + c + [EndConfig] == [Hello(1), Routers(1), Router(0, 0, 1, []), EndConfig];
  }

  /** A running server takes a frame exactly for an interface it has; for any other it gives up. */
  lemma FrameNeedsInterface(ms: seq<Message>, m: Message)
    requires Feed(NewServer(), ms).Some? && Feed(NewServer(), ms).value.phase.Running? && m.Frame?
    ensures var s := Feed(NewServer(), ms).value;
            Feed(NewServer(), ms + [m])
            == if m.rid < |s.routers| && m.ifaceId < |s.routers[m.rid].interfaces| then Some(s) else None
  {
    FeedLast(NewServer(), ms, Feed(NewServer(), ms).value, m);
  }

  /** A server with no router gives up at the first frame. */
  lemma FrameRefused()
    ensures Feed(NewServer(), [EndConfig, Frame(2, 0, 0, [])]) == None
  {
    EndConfigFirst();
    FrameNeedsInterface([EndConfig], Frame(2, 0, 0, []));
    assert [EndConfig] + [Frame(2, 0, 0, [])] == [EndConfig, Frame(2, 0, 0, [])];
  }
}
