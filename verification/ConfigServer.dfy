/** The server context of src/c/server.c: its state, counters and router records, changed message by message. */
module ConfigServer {
  import opened Wrappers
  import opened Messages
  import opened ConfigSpec
  import opened ConfigProofs

  lemma FeedOneBytes(s: Server, b: Bytes)
    requires InBuffer(b) && NameFollows(b)
    ensures KnownType(b) ==> ServerRead(b).Some?
    ensures FeedBytes(s, [b]) == if KnownType(b) then Process(s, ServerRead(b).value) else Some(s)
  {
    hide ServerRead, Process;
    assert [b][1..] == [];
    assert forall t :: FeedBytes(t, []) == Some(t);
  }

  lemma HelloRead(s: Server, b: Bytes)
    requires InBuffer(b) && KnownType(b) && NameFollows(b)
    ensures ServerRead(b).value.Hello? <==> b[0] == 1
    ensures b[0] == 1 ==> (Process(s, ServerRead(b).value).Some? <==> s.phase.HelloWait?)
  {
  }

  class ServerContext {
    var state: Phase
    var maxRouters: nat
    var routers: seq<RouterCtx>

    ghost function Now(): Server
      reads this
    {
      Server(state, maxRouters, routers)
    }

    constructor ()
      ensures Now() == Server(HelloWait, 0, [])
    {
      state, maxRouters, routers := HelloWait, 0, [];
    }

    /** The check of END CONFIG: every router has the interfaces that were announced. */
    method AllInterfaces() returns (ok: bool)
      ensures ok <==> forall i :: 0 <= i < |routers| ==> |routers[i].interfaces| == routers[i].maxInterfaces
    {
      for i := 0 to |routers|
        invariant forall j :: 0 <= j < i ==> |routers[j].interfaces| == routers[j].maxInterfaces
      {
        if |routers[i].interfaces| != routers[i].maxInterfaces {
          return false;
        }
      }
      return true;
    }

    /** The case for each message type: 0, or -1 with nothing changed. Only a HELLO is answered, with another. */
    method Handle(m: Message) returns (rc: int, reply: Option<Message>)
      modifies this
      ensures match Process(old(Now()), m)
              case Some(next) => rc == 0 && Now() == next
              case None => rc == -1 && Now() == old(Now())
      ensures reply == if m.Hello? && rc == 0 then Some(Hello(SERVER_FROM_ROUTER)) else None
    {
      rc, reply := -1, None;
      match m {
        case Hello(_) =>
          if state == HelloWait {
            reply := Some(Hello(SERVER_FROM_ROUTER));
            state := Configuring;
            rc := 0;
          }
        case Routers(count) =>
          if state == Configuring {
            maxRouters, routers := count, [];
            rc := 0;
          }
        case Router(rid, numInterfaces, lenRtable, name) =>
          if state == Configuring && rid == |routers| {
            routers := routers + [RouterCtx(rid, name, numInterfaces, [], lenRtable, [])];
            rc := 0;
          }
        case Interface(rid, k, hwaddr, ip, name) =>
          if state == Configuring && rid < |routers| && k == |routers[rid].interfaces| {
            var r := routers[rid];
            routers := routers[rid := r.(interfaces := r.interfaces + [Iface(k, name, hwaddr, ip)])];
            rc := 0;
          }
        case RTableEntry(rid, k, metric, dest, mask, gw) =>
          if state == Configuring && rid < |routers| && k < |routers[rid].interfaces|
             && |routers[rid].rtable| < routers[rid].maxRtable {
            var r := routers[rid];
            routers := routers[rid := r.(rtable := r.rtable + [Entry(dest, mask, gw, metric, k)])];
            rc := 0;
          }
        case EndConfig =>
          var full := AllInterfaces();
          if |routers| == maxRouters && full {
            state := Running;
            rc := 0;
          }
        case Frame(_, rid, k, frame) =>
          if state == Running && rid < |routers| && k < |routers[rid].interfaces| {
            rc := 0;
          }
      }
    }

    /** `chirouter_server_process_single_message` */
    method ProcessSingleMessage(buf: Bytes) returns (rc: int, reply: Option<Message>)
      requires InBuffer(buf) && NameFollows(buf)
      modifies this
      ensures match FeedBytes(old(Now()), [buf])
              case Some(next) => rc == 0 && Now() == next
              case None => rc == -1 && Now() == old(Now())
      ensures reply == if buf[0] == 1 && old(state) == HelloWait then Some(Hello(1)) else None
    {
      FeedOneBytes(Now(), buf);
      if !KnownType(buf) {
        return 0, None;
      }
      HelloRead(Now(), buf);
      hide ServerRead, Process;
      rc, reply := Handle(ServerRead(buf).value);
    }
  }
}
