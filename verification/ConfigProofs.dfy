/** The server understands the client. */
module ConfigProofs {
  import opened Wrappers
  import opened Messages
  import opened ConfigSpec

  lemma {:induction false} FeedConcat(s: Server, a: seq<Message>, b: seq<Message>)
    ensures Feed(s, a + b) == match Feed(s, a) case None => None case Some(next) => Feed(next, b)
    decreases |a|
  {
    if a == [] {
      assert a + b == b;
    } else {
      assert (a + b)[0] == a[0] && (a + b)[1..] == a[1..] + b;
      match Process(s, a[0])
      case None =>
      case Some(next) => FeedConcat(next, a[1..], b);
    }
  }

  lemma FeedOne(s: Server, m: Message)
    ensures Feed(s, [m]) == Process(s, m)
  {
    assert [m][1..] == [];
  }

  lemma FeedLast(s: Server, a: seq<Message>, mid: Server, m: Message)
    requires Feed(s, a) == Some(mid)
    ensures Feed(s, a + [m]) == Process(mid, m)
  {
    FeedConcat(s, a, [m]);
    FeedOne(mid, m);
  }

  lemma IfaceAccepted(s: Server, rid: nat, r: RouterConf, names: seq<Bytes>, k: nat)
    requires RouterReady(rid, r, names) && k < |names|
    requires s.phase.Configuring? && |s.routers| == rid + 1 && s.routers[rid] == PartImage(rid, r, names, k, 0)
    ensures Process(s, IfaceMessage(rid, r, names, k))
         == Some(s.(routers := s.routers[rid := PartImage(rid, r, names, k + 1, 0)]))
  {
    assert |names| < 256;
    hide Listing, RouterFits;
    assert PartImage(rid, r, names, k, 0).interfaces + [IfaceImage(r, names, k)]
         == PartImage(rid, r, names, k + 1, 0).interfaces;
  }

  lemma RouteAccepted(s: Server, rid: nat, r: RouterConf, names: seq<Bytes>, k: nat)
    requires RouterReady(rid, r, names) && k < |r.rtable|
    requires s.phase.Configuring? && |s.routers| == rid + 1 && s.routers[rid] == PartImage(rid, r, names, |names|, k)
    ensures Process(s, RouteMessage(rid, r, names, k))
         == Some(s.(routers := s.routers[rid := PartImage(rid, r, names, |names|, k + 1)]))
  {
    assert Position(names, r.rtable[k].iface) < |names|;
    hide Listing, RouterFits, Position;
    assert PartImage(rid, r, names, |names|, k).rtable + [RouteImage(r, names, k)]
         == PartImage(rid, r, names, |names|, k + 1).rtable;
  }

  /** The interfaces of a router are accepted one after the other, */
  lemma {:induction false} IfacesAccepted(s: Server, rid: nat, r: RouterConf, names: seq<Bytes>, n: nat)
    requires RouterReady(rid, r, names) && n <= |names|
    requires s.phase.Configuring? && |s.routers| == rid + 1 && s.routers[rid] == PartImage(rid, r, names, 0, 0)
    ensures Feed(s, IfaceMessages(rid, r, names, n))
         == Some(s.(routers := s.routers[rid := PartImage(rid, r, names, n, 0)]))
  {
    hide Process, RouterReady, PartImage, IfaceMessage;
    if n == 0 {
      assert s.routers[rid := PartImage(rid, r, names, 0, 0)] == s.routers;
    } else {
      IfacesAccepted(s, rid, r, names, n - 1);
      var mid := s.(routers := s.routers[rid := PartImage(rid, r, names, n - 1, 0)]);
      FeedLast(s, IfaceMessages(rid, r, names, n - 1), mid, IfaceMessage(rid, r, names, n - 1));
      IfaceAccepted(mid, rid, r, names, n - 1);
      assert mid.routers[rid := PartImage(rid, r, names, n, 0)] == s.routers[rid := PartImage(rid, r, names, n, 0)];
    }
  }

  /** and so are its routes, each with the identifier of the interface it names. */
  lemma {:induction false} RoutesAccepted(s: Server, rid: nat, r: RouterConf, names: seq<Bytes>, m: nat)
    requires RouterReady(rid, r, names) && m <= |r.rtable|
    requires s.phase.Configuring? && |s.routers| == rid + 1 && s.routers[rid] == PartImage(rid, r, names, |names|, 0)
    ensures Feed(s, RouteMessages(rid, r, names, m))
         == Some(s.(routers := s.routers[rid := PartImage(rid, r, names, |names|, m)]))
  {
    hide Process, RouterReady, PartImage, RouteMessage;
    if m == 0 {
      assert s.routers[rid := PartImage(rid, r, names, |names|, 0)] == s.routers;
    } else {
      RoutesAccepted(s, rid, r, names, m - 1);
      var mid := s.(routers := s.routers[rid := PartImage(rid, r, names, |names|, m - 1)]);
      FeedLast(s, RouteMessages(rid, r, names, m - 1), mid, RouteMessage(rid, r, names, m - 1));
      RouteAccepted(mid, rid, r, names, m - 1);
      assert mid.routers[rid := PartImage(rid, r, names, |names|, m)]
           == s.routers[rid := PartImage(rid, r, names, |names|, m)];
    }
  }

  /** The messages about one router add its image. */
  lemma RouterAccepted(s: Server, rid: nat, r: RouterConf, names: seq<Bytes>)
    requires RouterReady(rid, r, names) && s.phase.Configuring? && |s.routers| == rid
    ensures Feed(s, RouterMessages(rid, r, names)) == Some(s.(routers := s.routers + [Image(rid, r, names)]))
  {
    var head := [RouterMessage(rid, r, names)];
    var ifaces, routes := IfaceMessages(rid, r, names, |names|), RouteMessages(rid, r, names, |r.rtable|);
    var one := s.(routers := s.routers + [PartImage(rid, r, names, 0, 0)]);
    var two := s.(routers := s.routers + [PartImage(rid, r, names, |names|, 0)]);
    var three := s.(routers := s.routers + [Image(rid, r, names)]);
    FeedOne(s, head[0]);
    assert PartImage(rid, r, names, 0, 0) == RouterCtx(rid, r.name, |names|, [], |r.rtable|, []);
    assert Feed(s, head) == Some(one);
    IfacesAccepted(one, rid, r, names, |names|);
    assert one.routers[rid := PartImage(rid, r, names, |names|, 0)] == two.routers;
    RoutesAccepted(two, rid, r, names, |r.rtable|);
    assert two.routers[rid := Image(rid, r, names)] == three.routers;
    FeedConcat(s, head, ifaces);
    FeedConcat(s, head + ifaces, routes);
  }

  lemma ImagesMore(t: seq<RouterConf>, names: seq<seq<Bytes>>, n: nat)
    requires TopologyFits(t) && Listings(t, names) && n < |t|
    ensures |names| == |t| && RouterReady(n, t[n], names[n]) && |Images(t, names, n)| == n
    ensures Images(t, names, n + 1) == Images(t, names, n) + [Image(n, t[n], names[n])]
    ensures AllRouters(t, names, n + 1) == AllRouters(t, names, n) + RouterMessages(n, t[n], names[n])
  {
    hide Listing, RouterFits, Image, RouterMessages;
  }

  lemma NoRouters(t: seq<RouterConf>, names: seq<seq<Bytes>>)
    requires TopologyFits(t) && Listings(t, names)
    ensures Images(t, names, 0) == [] && AllRouters(t, names, 0) == []
  {
  }

  lemma {:induction false} AllAccepted(s: Server, t: seq<RouterConf>, names: seq<seq<Bytes>>, n: nat)
    requires TopologyFits(t) && Listings(t, names) && n <= |t| && s.phase.Configuring? && s.routers == []
    ensures Feed(s, AllRouters(t, names, n)) == Some(s.(routers := Images(t, names, n)))
  {
    hide *;
    if n == 0 {
      NoRouters(t, names);
      FeedNone(s);
    } else {
      AllAccepted(s, t, names, n - 1);
      ImagesMore(t, names, n - 1);
      RouterAccepted(s.(routers := Images(t, names, n - 1)), n - 1, t[n - 1], names[n - 1]);
      FeedConcat(s, AllRouters(t, names, n - 1), RouterMessages(n - 1, t[n - 1], names[n - 1]));
    }
  }

  lemma FeedNone(s: Server)
    ensures Feed(s, []) == Some(s)
  {
  }

  lemma GreetingAccepted(s: Server, t: seq<RouterConf>)
    requires |t| < 256 && s.phase.HelloWait?
    ensures Feed(s, Greeting(t)) == Some(Server(Configuring, |t|, []))
  {
    var hello, count := Hello(CLIENT_TO_ROUTER), Routers(|t|);
    FeedOne(s, hello);
    FeedLast(s, [hello], s.(phase := Configuring), count);
    assert Greeting(t) == [hello] + [count];
  }

  /** A server that waits for a HELLO accepts all that `connect` sends, and then runs the topology. */
  lemma ConfigurationAccepted(s: Server, t: seq<RouterConf>, names: seq<seq<Bytes>>)
    requires TopologyFits(t) && Listings(t, names) && s.phase.HelloWait?
    ensures Feed(s, Configuration(t, names)) == Some(Server(Running, |t|, Images(t, names, |t|)))
  {
    EveryRouterFull(t, names);
    hide Feed, TopologyFits, Listings, Images, AllRouters, Greeting;
    var greeted := Server(Configuring, |t|, []);
    var full := greeted.(routers := Images(t, names, |t|));
    assert Process(full, EndConfig) == Some(full.(phase := Running));
    hide Process;
    GreetingAccepted(s, t);
    AllAccepted(greeted, t, names, |t|);
    FeedConcat(s, Greeting(t), AllRouters(t, names, |t|));
    FeedLast(s, Greeting(t) + AllRouters(t, names, |t|), full, EndConfig);
  }

  /** It begins with HELLO and the number of routers, and ends with END CONFIG. */
  lemma Framed(t: seq<RouterConf>, names: seq<seq<Bytes>>)
    requires TopologyFits(t) && Listings(t, names)
    ensures var ms := Configuration(t, names);
            |ms| >= 3 && ms[0] == Hello(1) && ms[1] == Routers(|t|) && ms[|ms| - 1] == EndConfig
  {
    hide AllRouters, TopologyFits, Listings;
  }

  lemma EveryRouterFull(t: seq<RouterConf>, names: seq<seq<Bytes>>)
    requires TopologyFits(t) && Listings(t, names)
    ensures var rs := Images(t, names, |t|);
            |rs| == |t| && forall i :: 0 <= i < |rs| ==>
              |rs[i].interfaces| == rs[i].maxInterfaces && |rs[i].rtable| == rs[i].maxRtable
  {
    hide Listing, RouterFits;
  }

  /** Names come out of `sorted` in one way only. */
  lemma {:induction false} OneListing(a: seq<Bytes>, b: seq<Bytes>, keys: set<Bytes>)
    requires Listing(a, keys) && Listing(b, keys)
    ensures a == b
    decreases |a|
  {
    BothEmpty(a, b, keys);
    BothEmpty(b, a, keys);
    if a != [] {
      FirstIsLeast(a, b, keys);
      FirstIsLeast(b, a, keys);
      Tail(a, keys);
      Tail(b, keys);
      OneListing(a[1..], b[1..], keys - {a[0]});
    }
  }

  lemma BothEmpty(a: seq<Bytes>, b: seq<Bytes>, keys: set<Bytes>)
    requires Listing(a, keys) && Listing(b, keys)
    ensures a != [] ==> b != []
  {
    if a != [] { assert a[0] in b; }
  }

  lemma Tail(a: seq<Bytes>, keys: set<Bytes>)
    requires Listing(a, keys) && a != []
    ensures Listing(a[1..], keys - {a[0]})
  {
    forall x | x in keys - {a[0]}
      ensures x in a[1..]
    {
      assert x in a;
    }
    forall x | x in a[1..]
      ensures x in keys - {a[0]}
    {
      var i :| 0 <= i < |a[1..]| && a[1..][i] == x;
      assert x == a[i + 1] && Before(a[0], a[i + 1]);
      NotBeforeItself(a[0]);
    }
  }

  lemma FirstIsLeast(a: seq<Bytes>, b: seq<Bytes>, keys: set<Bytes>)
    requires Listing(a, keys) && Listing(b, keys) && a != [] && b != []
    ensures a[0] == b[0]
  {
    assert b[0] in a && a[0] in b;
    var i :| 0 <= i < |a| && a[i] == b[0];
    var j :| 0 <= j < |b| && b[j] == a[0];
    if i > 0 && j > 0 {
      assert Before(a[0], a[i]) && Before(b[0], b[j]);
      NotBothBefore(a[0], b[0]);
    }
  }

  lemma {:induction false} NotBeforeItself(a: Bytes)
    ensures !Before(a, a)
  {
    if a != [] { NotBeforeItself(a[1..]); }
  }

  lemma {:induction false} NotBothBefore(a: Bytes, b: Bytes)
    ensures !(Before(a, b) && Before(b, a))
  {
    if a != [] && b != [] { NotBothBefore(a[1..], b[1..]); }
  }

  /** What the server built, in the topology's own terms. */
  lemma ImageFaithful(t: seq<RouterConf>, names: seq<seq<Bytes>>, i: nat, k: nat, m: nat)
    requires TopologyFits(t) && Listings(t, names) && i < |t|
    ensures var r := Images(t, names, |t|)[i];
            && r.rid == i && r.name == t[i].name
            && |r.interfaces| == |t[i].interfaces| && |r.rtable| == |t[i].rtable|
            && (k < |r.interfaces| ==>
                  var iface := r.interfaces[k];
                  && iface.poxIfaceId == k && iface.name in t[i].interfaces
                  && iface.ip == t[i].interfaces[iface.name].ip
                  && (t[i].interfaces[iface.name].hwaddr.Some? ==>
                        iface.mac == t[i].interfaces[iface.name].hwaddr.value)
                  && (t[i].interfaces[iface.name].hwaddr.None? ==> iface.mac == [0, 0, 0, 0, 0, 0])
                  && (k + 1 < |r.interfaces| ==> Before(iface.name, r.interfaces[k + 1].name)))
            && (m < |r.rtable| ==>
                  var e := r.rtable[m];
                  && e.iface < |r.interfaces| && r.interfaces[e.iface].name == t[i].rtable[m].iface
                  && e.dest == t[i].rtable[m].dest && e.mask == t[i].rtable[m].mask
                  && e.gw == t[i].rtable[m].gw && e.metric == t[i].rtable[m].metric)
  {
    var r := Images(t, names, |t|)[i];
    assert Listing(names[i], t[i].interfaces.Keys);
    if k < |r.interfaces| {
      assert names[i][k] in names[i];
    }
    if m < |r.rtable| {
      assert t[i].rtable[m].iface in t[i].interfaces.Keys;
    }
  }

  /** Messages that fit their fields. */
  predicate Packable(ms: seq<Message>) {
    forall m :: m in ms ==> Fits(m)
  }

  /** No ROUTERS message, which would drop all routers, and no frame. */
  predicate NoReset(ms: seq<Message>) {
    forall m :: m in ms ==> !m.Routers? && !m.Frame?
  }

  lemma JoinMessages(a: seq<Message>, b: seq<Message>)
    ensures Packable(a) && Packable(b) ==> Packable(a + b)
    ensures NoReset(a) && NoReset(b) <==> NoReset(a + b)
  {
    forall m | m in a || m in b
      ensures m in a + b
    {
    }
  }

  lemma NoMessages()
    ensures Packable([]) && NoReset([])
  {
  }

  lemma {:induction false} AllFit(t: seq<RouterConf>, names: seq<seq<Bytes>>, n: nat)
    requires TopologyFits(t) && Listings(t, names) && n <= |t|
    ensures Packable(AllRouters(t, names, n)) && NoReset(AllRouters(t, names, n))
  {
    hide *;
    if n == 0 {
      NoRouters(t, names);
      NoMessages();
    } else {
      AllFit(t, names, n - 1);
      ImagesMore(t, names, n - 1);
      RouterFit(n - 1, t[n - 1], names[n - 1]);
      JoinMessages(AllRouters(t, names, n - 1), RouterMessages(n - 1, t[n - 1], names[n - 1]));
    }
  }

  lemma RouterFit(rid: nat, r: RouterConf, names: seq<Bytes>)
    requires RouterReady(rid, r, names)
    ensures Packable(RouterMessages(rid, r, names)) && NoReset(RouterMessages(rid, r, names))
  {
    IfacesFit(rid, r, names, |names|);
    RoutesFit(rid, r, names, |r.rtable|);
  }

  lemma {:induction false} IfacesFit(rid: nat, r: RouterConf, names: seq<Bytes>, n: nat)
    requires RouterReady(rid, r, names) && n <= |names|
    ensures Packable(IfaceMessages(rid, r, names, n)) && NoReset(IfaceMessages(rid, r, names, n))
  {
    if n > 0 {
      IfacesFit(rid, r, names, n - 1);
      assert names[n - 1] in r.interfaces;
    }
  }

  lemma {:induction false} RoutesFit(rid: nat, r: RouterConf, names: seq<Bytes>, n: nat)
    requires RouterReady(rid, r, names) && n <= |r.rtable|
    ensures Packable(RouteMessages(rid, r, names, n)) && NoReset(RouteMessages(rid, r, names, n))
  {
    if n > 0 { RoutesFit(rid, r, names, n - 1); }
  }

  /**
   The server fed with the buffers in which messages are complete: each message is read, then
   processed; one of an unknown type is skipped.
   */
  function FeedBytes(s: Server, bufs: seq<Bytes>): Option<Server>
    decreases |bufs|
  {
    if bufs == [] then Some(s)
    else if !InBuffer(bufs[0]) then None
    else if !KnownType(bufs[0]) then FeedBytes(s, bufs[1..])
    else if ServerRead(bufs[0]).None? then None
    else match Process(s, ServerRead(bufs[0]).value) case None => None case Some(next) => FeedBytes(next, bufs[1..])
  }

  function PackAll(ms: seq<Message>): seq<Bytes>
    requires Packable(ms)
  {
    if ms == [] then [] else [Pack(ms[0])] + PackAll(ms[1..])
  }

  /** Each buffer begins with the bytes of its message; what follows them is of any kind. */
  predicate Gathered(ms: seq<Message>, bufs: seq<Bytes>) {
    Packable(ms) && |bufs| == |ms| && forall i :: 0 <= i < |ms| ==> |bufs[i]| == MSG_BUFFER && Pack(ms[i]) <= bufs[i]
  }

  lemma {:induction false} FeedPacked(s: Server, ms: seq<Message>, bufs: seq<Bytes>)
    requires Gathered(ms, bufs)
    ensures FeedBytes(s, bufs) == Feed(s, ms)
    decreases |ms|
  {
    if ms != [] {
      var b := bufs[0];
      assert b == Pack(ms[0]) + b[|Pack(ms[0])|..];
      ReadPacked(ms[0], b);
      hide Process, ServerRead, Pack;
      match Process(s, ms[0])
      case None =>
      case Some(next) => FeedPacked(next, ms[1..], bufs[1..]);
    }
  }

  /** The messages of the exchange fit their fields and are short, so that a buffer can hold each of them. */
  lemma ShortMessages(t: seq<RouterConf>, names: seq<seq<Bytes>>)
    requires TopologyFits(t) && Listings(t, names)
    ensures forall m :: m in Configuration(t, names) ==> Fits(m) && |Pack(m)| <= MSG_BUFFER
  {
    AllFit(t, names, |t|);
    hide AllRouters, Listings, TopologyFits, Fits, Pack;
    forall m | m in Configuration(t, names)
      ensures Fits(m) && |Pack(m)| <= MSG_BUFFER
    {
      assert m in Greeting(t) || m in AllRouters(t, names, |t|) || m == EndConfig;
      GreetingFits(t);
      ShortMessage(m);
    }
  }

  lemma GreetingFits(t: seq<RouterConf>)
    requires |t| < 256
    ensures Fits(EndConfig) && forall m :: m in Greeting(t) ==> Fits(m) && !m.Frame?
  {
  }

  lemma ShortMessage(m: Message)
    ensures Fits(m) && !m.Frame? ==> |Pack(m)| <= 48
  {
  }

  /** The whole exchange, through the bytes: a waiting server ends up running the client's topology. */
  lemma Configured(s: Server, t: seq<RouterConf>, names: seq<seq<Bytes>>, bufs: seq<Bytes>)
    requires TopologyFits(t) && Listings(t, names) && s.phase.HelloWait?
    requires Gathered(Configuration(t, names), bufs)
    ensures FeedBytes(s, bufs) == Some(Server(Running, |t|, Images(t, names, |t|)))
  {
    ConfigurationAccepted(s, t, names);
    hide Listings, AllRouters, Images, Feed, FeedBytes, Gathered;
    FeedPacked(s, Configuration(t, names), bufs);
  }

  /** What the server allocated for its routers, interfaces and routes has room for them. */
  ghost predicate InBuffers(s: Server) {
    && |s.routers| <= s.maxRouters
    && forall i :: 0 <= i < |s.routers| ==> RoomIn(s.routers[i])
  }

  ghost predicate RoomIn(r: RouterCtx) {
    |r.interfaces| <= r.maxInterfaces && |r.rtable| <= r.maxRtable
  }

  lemma RoomBefore(s: Server, m: Message)
    requires Process(s, m).Some? && InBuffers(Process(s, m).value) && !m.Routers?
    ensures InBuffers(s)
  {
    var next := Process(s, m).value;
    forall i | 0 <= i < |s.routers|
      ensures RoomIn(s.routers[i])
    {
      assert RoomIn(next.routers[i]);
    }
  }

  lemma {:induction false} RoomAtFirst(s: Server, ms: seq<Message>)
    requires Feed(s, ms).Some? && InBuffers(Feed(s, ms).value) && NoReset(ms)
    ensures InBuffers(s)
    decreases |ms|
  {
    if ms != [] {
      hide InBuffers, Process;
      RoomAtFirst(Process(s, ms[0]).value, ms[1..]);
      RoomBefore(s, ms[0]);
    }
  }

  lemma EndHasRoom(t: seq<RouterConf>, names: seq<seq<Bytes>>)
    requires TopologyFits(t) && Listings(t, names)
    ensures InBuffers(Server(Running, |t|, Images(t, names, |t|)))
  {
    EveryRouterFull(t, names);
    hide Images;
  }

  lemma ConfigurationSplits(t: seq<RouterConf>, names: seq<seq<Bytes>>, a: seq<Message>, b: seq<Message>)
    requires TopologyFits(t) && Listings(t, names) && a + b == AllRouters(t, names, |t|) + [EndConfig]
    ensures |t| < 256 && Configuration(t, names) == (Greeting(t) + a) + b && NoReset(b)
  {
    AllFit(t, names, |t|);
    hide AllRouters, Listings, Greeting;
    Associate(Greeting(t), AllRouters(t, names, |t|), [EndConfig]);
    Associate(Greeting(t), a, b);
    JoinMessages(AllRouters(t, names, |t|), [EndConfig]);
    JoinMessages(a, b);
    hide NoReset, Packable;
  }

  /** At no point of the exchange has the server stored more than it allocated. */
  lemma RoomThroughout(s: Server, t: seq<RouterConf>, names: seq<seq<Bytes>>, a: seq<Message>, b: seq<Message>)
    requires TopologyFits(t) && Listings(t, names) && s.phase.HelloWait?
    requires a + b == AllRouters(t, names, |t|) + [EndConfig]
    ensures Feed(s, Greeting(t) + a).Some? && InBuffers(Feed(s, Greeting(t) + a).value)
  {
    ConfigurationSplits(t, names, a, b);
    hide *;
    ConfigurationAccepted(s, t, names);
    EndHasRoom(t, names);
    FeedConcat(s, Greeting(t) + a, b);
    RoomAtFirst(Feed(s, Greeting(t) + a).value, b);
  }
}
