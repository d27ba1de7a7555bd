/** `ChirouterClient.connect` of src/python/chirouter/client.py as the object that keeps the identifiers. */
module ConfigClient {
  import opened Checksum
  import opened Messages
  import opened ConfigSpec
  import opened ConfigProofs

  lemma {:induction false} BeforeTrans(a: Bytes, b: Bytes, c: Bytes)
    ensures Before(a, b) && Before(b, c) ==> Before(a, c)
  {
    if a != [] && b != [] && c != [] { BeforeTrans(a[1..], b[1..], c[1..]); }
  }

  lemma {:induction false} BeforeTotal(a: Bytes, b: Bytes)
    ensures Before(a, b) || Before(b, a) || a == b
  {
    if a != [] && b != [] {
      BeforeTotal(a[1..], b[1..]);
      assert a == [a[0]] + a[1..] && b == [b[0]] + b[1..];
    }
  }

  predicate Increasing(names: seq<Bytes>) {
    forall i, j :: 0 <= i < j < |names| ==> Before(names[i], names[j])
  }

  lemma InsertKeeps(names: seq<Bytes>, k: nat, x: Bytes)
    requires Increasing(names) && k <= |names|
    requires k > 0 ==> Before(names[k - 1], x)
    requires k < |names| ==> Before(x, names[k])
    ensures Increasing(names[..k] + [x] + names[k..])
  {
    var s := names[..k] + [x] + names[k..];
    forall i, j | 0 <= i < j < |s|
      ensures Before(s[i], s[j])
    {
      if i < k && j == k && i < k - 1 { BeforeTrans(names[i], names[k - 1], x); }
      if i == k && j > k + 1 { BeforeTrans(x, names[k], names[j - 1]); }
    }
  }

  lemma InsertHas(names: seq<Bytes>, k: nat, x: Bytes)
    requires k <= |names|
    ensures forall y :: y in names[..k] + [x] + names[k..] <==> y == x || y in names
  {
    assert names == names[..k] + names[k..];
  }

  /** `sorted(keys)` */
  method Sorted(keys: set<Bytes>) returns (names: seq<Bytes>)
    ensures Listing(names, keys) && |names| == |keys|
  {
    names := [];
    var left := keys;
    while left != {}
      invariant left <= keys && Increasing(names) && |names| + |left| == |keys|
      invariant forall x :: x in names <==> x in keys - left
    {
      var x :| x in left;
      var k := Place(names, x);
      InsertKeeps(names, k, x);
      InsertHas(names, k, x);
      hide Increasing;
      names := names[..k] + [x] + names[k..];
      left := left - {x};
    }
  }

  /** Where a new name belongs. */
  method Place(names: seq<Bytes>, x: Bytes) returns (k: nat)
    requires Increasing(names) && x !in names
    ensures k <= |names| && (k > 0 ==> Before(names[k - 1], x)) && (k < |names| ==> Before(x, names[k]))
  {
    k := |names|;
    while k > 0 && Before(x, names[k - 1])
      invariant k <= |names| && (k < |names| ==> Before(x, names[k]))
    {
      k := k - 1;
    }
    if k > 0 { BeforeTotal(names[k - 1], x); }
  }

  /** Interface e.1 of router e.0 was met, when k interfaces of router n and all of the earlier routers were. */
  predicate Met(names: seq<seq<Bytes>>, n: nat, k: nat, e: (nat, nat)) {
    e.0 < |names| && e.1 < |names[e.0]| && (e.0 < n || (e.0 == n && e.1 < k))
  }

  /** The interfaces known by their identifiers are those that were met. */
  ghost predicate NodesOk(names: seq<seq<Bytes>>, n: nat, k: nat, nodes: map<(nat, nat), (nat, Bytes)>) {
    && (forall e: (nat, nat) :: e in nodes <==> Met(names, n, k, e))
    && (forall e: (nat, nat) :: e in nodes ==> nodes[e] == (e.0, names[e.0][e.1]))
  }

  /** The two dictionaries of interfaces undo each other. */
  ghost predicate Inverse(ids: map<(nat, Bytes), (nat, nat)>, nodes: map<(nat, nat), (nat, Bytes)>) {
    && (forall e :: e in nodes ==> nodes[e] in ids && ids[nodes[e]] == e)
    && (forall x :: x in ids ==> ids[x] in nodes && nodes[ids[x]] == x)
  }

  /** Routers and interfaces are objects in Python; here they are positions in the topology, and names. */
  class Client {
    const topology: seq<RouterConf>
    var routerIds: map<nat, nat>
    var routerNodes: map<nat, nat>
    var ifaceIds: map<(nat, Bytes), (nat, nat)>
    var ifaceNodes: map<(nat, nat), (nat, Bytes)>
    var wire: seq<Bytes>
    ghost var sent: seq<Message>

    ghost predicate Valid()
      reads this`wire, this`sent
    {
      Packable(sent) && wire == PackAll(sent)
    }

    constructor (topology: seq<RouterConf>)
      ensures this.topology == topology && Valid() && sent == []
      ensures routerIds == map[] && routerNodes == map[] && ifaceIds == map[] && ifaceNodes == map[]
    {
      this.topology := topology;
      routerIds, routerNodes, ifaceIds, ifaceNodes, wire, sent := map[], map[], map[], map[], [], [];
    }

    /** `send_msg` */
    method SendMsg(m: Message)
      requires Valid() && Fits(m)
      modifies this`wire, this`sent
      ensures Valid() && sent == old(sent) + [m]
    {
      PackAllMore(sent, m);
      wire := wire + [Pack(m)];
      sent := sent + [m];
    }

    /** The loop over the interfaces of a router. */
    method SendInterfaces(rid: nat, r: RouterConf, ghost names: seq<seq<Bytes>>, order: seq<Bytes>)
      requires Valid() && rid < |names| && order == names[rid] && RouterReady(rid, r, order)
      requires NodesOk(names, rid, 0, ifaceNodes) && Inverse(ifaceIds, ifaceNodes)
      modifies this`wire, this`sent, this`ifaceIds, this`ifaceNodes
      ensures Valid() && sent == old(sent) + IfaceMessages(rid, r, order, |order|)
      ensures NodesOk(names, rid + 1, 0, ifaceNodes) && Inverse(ifaceIds, ifaceNodes)
    {
      hide *;
      NoneYet(rid, r, order);
      var k := 0;
      while k < |order|
        invariant k <= |order| && Valid() && sent == old(sent) + IfaceMessages(rid, r, order, k)
        invariant NodesOk(names, rid, k, ifaceNodes) && Inverse(ifaceIds, ifaceNodes)
      {
        MoreIds(names, rid, k, ifaceIds, ifaceNodes, order, r);
        ifaceIds := ifaceIds[(rid, order[k]) := (rid, k)];
        ifaceNodes := ifaceNodes[(rid, k) := (rid, order[k])];
        SendMsg(IfaceMessage(rid, r, order, k));
        k := k + 1;
      }
      NextRouter(names, rid, ifaceNodes);
    }

    /** The loop over the routes of a router. */
    method SendRoutes(rid: nat, r: RouterConf, ghost names: seq<seq<Bytes>>, ghost order: seq<Bytes>)
      requires Valid() && rid < |names| && order == names[rid] && RouterReady(rid, r, order)
      requires NodesOk(names, rid + 1, 0, ifaceNodes) && Inverse(ifaceIds, ifaceNodes)
      modifies this`wire, this`sent
      ensures Valid() && sent == old(sent) + RouteMessages(rid, r, order, |r.rtable|)
    {
      hide *;
      NoneYet(rid, r, order);
      var k := 0;
      while k < |r.rtable|
        invariant k <= |r.rtable| && Valid() && sent == old(sent) + RouteMessages(rid, r, order, k)
      {
        var e := r.rtable[k];
        RouteId(names, rid, ifaceIds, ifaceNodes, order, r, k);
        var id := ifaceIds[(rid, e.iface)];
        SendMsg(RTableEntry(id.0, id.1, e.metric, e.dest, e.mask, e.gw));
        k := k + 1;
      }
    }

    /** One round of the loop over the routers. */
    method SendRouter(rid: nat, r: RouterConf, ghost names: seq<seq<Bytes>>, order: seq<Bytes>)
      requires Valid() && rid < |names| && order == names[rid] && RouterReady(rid, r, order)
      requires NodesOk(names, rid, 0, ifaceNodes) && Inverse(ifaceIds, ifaceNodes)
      modifies this`wire, this`sent, this`ifaceIds, this`ifaceNodes
      ensures Valid() && sent == old(sent) + RouterMessages(rid, r, order)
      ensures NodesOk(names, rid + 1, 0, ifaceNodes) && Inverse(ifaceIds, ifaceNodes)
    {
      hide *;
      MessagesOf(rid, r, order);
      SendMsg(Router(rid, |r.interfaces|, |r.rtable|, r.name));
      SendInterfaces(rid, r, names, order);
      SendRoutes(rid, r, names, order);
    }

    /** `connect`, but for the socket and the wait for the server's HELLO. */
    method Connect() returns (names: seq<seq<Bytes>>)
      requires Valid() && sent == [] && TopologyFits(topology)
      requires routerIds == map[] && routerNodes == map[] && ifaceIds == map[] && ifaceNodes == map[]
      modifies this
      ensures Valid() && Listings(topology, names) && sent == Configuration(topology, names)
      ensures RoutersMet(|topology|, routerIds, routerNodes)
      ensures NodesOk(names, |topology|, 0, ifaceNodes) && Inverse(ifaceIds, ifaceNodes)
    {
      hide *;
      names := SortAll();
      NoIdsYet(topology, names);
      SendGreeting();
      SendRouters(names);
      SendMsg(EndConfig);
      Whole(topology, names);
    }

    method SendGreeting()
      requires Valid() && |topology| < 256
      modifies this`wire, this`sent
      ensures Valid() && sent == old(sent) + Greeting(topology)
    {
      hide Packable, PackAll;
      SendMsg(Hello(CLIENT_TO_ROUTER));
      SendMsg(Routers(|topology|));
    }

    /** The loop over the routers. */
    method SendRouters(names: seq<seq<Bytes>>)
      requires Valid() && TopologyFits(topology) && Listings(topology, names)
      requires RoutersMet(0, routerIds, routerNodes)
      requires NodesOk(names, 0, 0, ifaceNodes) && Inverse(ifaceIds, ifaceNodes)
      modifies this
      ensures Valid() && sent == old(sent) + AllRouters(topology, names, |topology|)
      ensures RoutersMet(|topology|, routerIds, routerNodes)
      ensures NodesOk(names, |topology|, 0, ifaceNodes) && Inverse(ifaceIds, ifaceNodes)
    {
      hide *;
      NoRouters(topology, names);
      var rid := 0;
      while rid < |topology|
        invariant rid <= |topology| && Valid() && sent == old(sent) + AllRouters(topology, names, rid)
        invariant RoutersMet(rid, routerIds, routerNodes)
        invariant NodesOk(names, rid, 0, ifaceNodes) && Inverse(ifaceIds, ifaceNodes)
      {
        MetOneMore(rid, routerIds, routerNodes);
        ImagesMore(topology, names, rid);
        routerIds := routerIds[rid := rid];
        routerNodes := routerNodes[rid := rid];
        SendRouter(rid, topology[rid], names, names[rid]);
        rid := rid + 1;
      }
    }

    /** The names of every router's interfaces, sorted. */
    method SortAll() returns (names: seq<seq<Bytes>>)
      ensures Listings(topology, names)
    {
      names := [];
      while |names| < |topology|
        invariant |names| <= |topology|
        invariant forall i :: 0 <= i < |names| ==>
                    Listing(names[i], topology[i].interfaces.Keys) && |names[i]| == |topology[i].interfaces|
      {
        var order := Sorted(topology[|names|].interfaces.Keys);
        names := names + [order];
      }
    }
  }

  lemma NoIdsYet(t: seq<RouterConf>, names: seq<seq<Bytes>>)
    requires TopologyFits(t) && Listings(t, names)
    ensures |t| < 256 && |names| == |t| && Fits(EndConfig) && AllRouters(t, names, 0) == []
    ensures NodesOk(names, 0, 0, map[]) && Inverse(map[], map[]) && RoutersMet(0, map[], map[])
  {
  }

  lemma MetOneMore(n: nat, ids: map<nat, nat>, nodes: map<nat, nat>)
    requires RoutersMet(n, ids, nodes)
    ensures RoutersMet(n + 1, ids[n := n], nodes[n := n])
  {
  }

  lemma Whole(t: seq<RouterConf>, names: seq<seq<Bytes>>)
    requires TopologyFits(t) && Listings(t, names)
    ensures Configuration(t, names) == Greeting(t) + AllRouters(t, names, |t|) + [EndConfig]
  {
  }

  /** A router is known by its identifier, which is its position. */
  ghost predicate RoutersMet(n: nat, ids: map<nat, nat>, nodes: map<nat, nat>) {
    && (forall i: nat :: i in ids <==> i < n) && (forall i: nat :: i in nodes <==> i < n)
    && (forall i: nat :: i < n ==> ids[i] == i && nodes[i] == i)
  }

  lemma MessagesOf(rid: nat, r: RouterConf, order: seq<Bytes>)
    requires RouterReady(rid, r, order)
    ensures rid < 256 && |r.interfaces| == |order| < 256 && |r.rtable| < 256
    ensures var m := Router(rid, |r.interfaces|, |r.rtable|, r.name);
            && Fits(m)
            && RouterMessages(rid, r, order) == [m] + IfaceMessages(rid, r, order, |order|)
                + RouteMessages(rid, r, order, |r.rtable|)
  {
  }

  lemma NoneYet(rid: nat, r: RouterConf, order: seq<Bytes>)
    requires RouterReady(rid, r, order)
    ensures IfaceMessages(rid, r, order, 0) == [] && RouteMessages(rid, r, order, 0) == []
  {
  }

  lemma PackAllMore(ms: seq<Message>, m: Message)
    requires Packable(ms) && Fits(m)
    ensures Packable(ms + [m]) && PackAll(ms + [m]) == PackAll(ms) + [Pack(m)]
  {
    if ms != [] {
      PackAllMore(ms[1..], m);
      assert (ms + [m])[1..] == ms[1..] + [m] && (ms + [m])[0] == ms[0];
    }
  }

  lemma NextRouter(names: seq<seq<Bytes>>, n: nat, nodes: map<(nat, nat), (nat, Bytes)>)
    requires n < |names| && NodesOk(names, n, |names[n]|, nodes)
    ensures NodesOk(names, n + 1, 0, nodes)
  {
    forall e: (nat, nat)
      ensures Met(names, n + 1, 0, e) <==> Met(names, n, |names[n]|, e)
    {
    }
  }

  lemma MoreIds(names: seq<seq<Bytes>>, n: nat, k: nat, ids: map<(nat, Bytes), (nat, nat)>,
                nodes: map<(nat, nat), (nat, Bytes)>,
                order: seq<Bytes>, r: RouterConf)
    requires n < |names| && k < |names[n]| && order == names[n] && RouterReady(n, r, order)
    requires NodesOk(names, n, k, nodes) && Inverse(ids, nodes)
    ensures NodesOk(names, n, k + 1, nodes[(n, k) := (n, order[k])])
    ensures Inverse(ids[(n, order[k]) := (n, k)], nodes[(n, k) := (n, order[k])])
    ensures order[k] in r.interfaces && Fits(IfaceMessage(n, r, order, k))
    ensures IfaceMessages(n, r, order, k + 1) == IfaceMessages(n, r, order, k) + [IfaceMessage(n, r, order, k)]
  {
    assert order[k] in r.interfaces;
    forall e | e in nodes
      ensures nodes[e] != (n, order[k]) && e != (n, k)
    {
      assert Met(names, n, k, e);
      if e.0 == n { NotTwice(order, r.interfaces.Keys, e.1, k); }
    }
    forall e: (nat, nat)
      ensures Met(names, n, k + 1, e) <==> Met(names, n, k, e) || e == (n, k)
    {
    }
  }

  lemma NotTwice(order: seq<Bytes>, keys: set<Bytes>, i: nat, j: nat)
    requires Listing(order, keys) && i < |order| && j < |order|
    ensures i != j ==> order[i] != order[j]
  {
    if i != j {
      assert Before(order[if i < j then i else j], order[if i < j then j else i]);
      NotBeforeItself(order[i]);
    }
  }

  /** The dictionary gives the route its interface's identifier. */
  lemma RouteId(names: seq<seq<Bytes>>, n: nat, ids: map<(nat, Bytes), (nat, nat)>,
                nodes: map<(nat, nat), (nat, Bytes)>,
                order: seq<Bytes>, r: RouterConf, k: nat)
    requires n < |names| && order == names[n] && RouterReady(n, r, order) && k < |r.rtable|
    requires NodesOk(names, n + 1, 0, nodes) && Inverse(ids, nodes)
    ensures var e := r.rtable[k];
            && e.iface in order && (n, e.iface) in ids && ids[(n, e.iface)] == (n, Position(order, e.iface))
                && |order| < 256
            && n < 256 && e.metric < WORD && Fits(RouteMessage(n, r, order, k))
            && RouteMessages(n, r, order, k + 1) == RouteMessages(n, r, order, k) + [RouteMessage(n, r, order, k)]
            && RouteMessage(n, r, order, k) == RTableEntry(n, Position(order, e.iface), e.metric, e.dest, e.mask, e.gw)
  {
    var x := r.rtable[k].iface;
    assert x in r.interfaces.Keys;
    var j := Position(order, x);
    assert Met(names, n + 1, 0, (n, j));
    assert nodes[(n, j)] == (n, x);
  }

  /**
   A frame the server sends out of an interface reaches the client under identifiers that its
   dictionaries resolve to the interface of that name, on the router in that place.
   */
  lemma FramesResolve(t: seq<RouterConf>, names: seq<seq<Bytes>>, nodes: map<(nat, nat), (nat, Bytes)>,
                      i: nat, k: nat, frame: Bytes, rest: Bytes)
    requires TopologyFits(t) && Listings(t, names) && NodesOk(names, |t|, 0, nodes)
    requires i < |t| && k < |Images(t, names, |t|)[i].interfaces| && |frame| < WORD - 4
    ensures var r := Images(t, names, |t|)[i];
            var iface := r.interfaces[k];
            match FromBuffer(Pack(Frame(SERVER_FROM_ROUTER, r.rid, iface.poxIfaceId, frame)) + rest)
            case FrameIn(rid, id, f, _) => f == frame && (rid, id) in nodes && nodes[(rid, id)] == (i, iface.name)
            case _ => false
  {
    ImageFaithful(t, names, i, k, 0);
    var r := Images(t, names, |t|)[i];
    FrameReadBack(r.rid, r.interfaces[k].poxIfaceId, frame, rest);
    assert Met(names, |t|, 0, (i, k));
  }
}
