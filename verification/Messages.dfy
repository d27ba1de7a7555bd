/**
 The messages between the controller and the router process: how src/python/chirouter/client.py
 packs them, how the C side reads them through `struct chirouter_msg`, and the reverse for frames.
 */
module Messages {
  import opened Wrappers
  import opened Checksum

  const HELLO := 1
  const ROUTERS := 2
  const ROUTER := 3
  const INTERFACE := 4
  const RTABLE_ENTRY := 5
  const END_CONFIG := 6
  const ETHERNET_FRAME := 7

  /** The subtypes as client.py numbers them; server.h has the last two the other way round. */
  const CLIENT_TO_ROUTER := 1
  const CLIENT_FROM_ROUTER := 2
  const SERVER_FROM_ROUTER := 1

  const MAX_ROUTER_NAMELEN := 8
  const MAX_IFACE_NAMELEN := 32

  type Bytes = seq<Byte>
  type Quad = q: Bytes | |q| == 4 witness [0, 0, 0, 0]
  type Hw = q: Bytes | |q| == 6 witness [0, 0, 0, 0, 0, 0]

  datatype Message =
    | Hello(subtype: Byte)
    | Routers(count: Byte)
    | Router(rid: Byte, numInterfaces: Byte, lenRtable: Byte, name: Bytes)
    | Interface(rid: Byte, ifaceId: Byte, hwaddr: Hw, ip: Quad, name: Bytes)
    | RTableEntry(rid: Byte, ifaceId: Byte, metric: nat, dest: Quad, mask: Quad, gw: Quad)
    | EndConfig
    | Frame(subtype: Byte, rid: Byte, ifaceId: Byte, frame: Bytes)

  /** What `struct.pack` and the buffers of the receiver can hold. */
  predicate Fits(m: Message) {
    && (m.Router? ==> |m.name| <= MAX_ROUTER_NAMELEN)
    && (m.Interface? ==> |m.name| <= MAX_IFACE_NAMELEN)
    && (m.RTableEntry? ==> m.metric < WORD)
    && (m.Frame? ==> |m.frame| < WORD - 4)
  }

  /** A 16-bit number in network byte order. */
  function Be16(n: nat): (b: Bytes)
    requires n < WORD
    ensures |b| == 2 && Word(b[0], b[1]) == n
  {
    [n / 256, n % 256]
  }

  function TypeOf(m: Message): Byte {
    match m
    case Hello(_) => HELLO
    case Routers(_) => ROUTERS
    case Router(_, _, _, _) => ROUTER
    case Interface(_, _, _, _, _) => INTERFACE
    case RTableEntry(_, _, _, _, _, _) => RTABLE_ENTRY
    case EndConfig => END_CONFIG
    case Frame(_, _, _, _) => ETHERNET_FRAME
  }

  function SubtypeOf(m: Message): Byte {
    if m.Hello? || m.Frame? then m.subtype else 0
  }

  function Payload(m: Message): (p: Bytes)
    requires Fits(m)
    ensures |p| < WORD
  {
    match m
    case Hello(_) => []
    case Routers(n) => [n]
    case Router(rid, ni, nr, name) => [rid, ni, nr] + name
    case Interface(rid, k, hw, ip, name) => [rid, k] + hw + ip + name
    case RTableEntry(rid, k, metric, dest, mask, gw) => [rid, k] + Be16(metric) + dest + mask + gw
    case EndConfig => []
    case Frame(_, rid, k, frame) => [rid, k] + Be16(|frame|) + frame
  }

  /** The `pack` methods, and what the C side writes for a frame. */
  function Pack(m: Message): (b: Bytes)
    requires Fits(m)
    ensures |b| == 4 + |Payload(m)| && Word(b[2], b[3]) == |Payload(m)|
  {
    [TypeOf(m), SubtypeOf(m)] + Be16(|Payload(m)|) + Payload(m)
  }

  /** The length of the message that starts a stream, as its header states it. */
  function Length(b: Bytes): nat
    requires |b| >= 4
  {
    4 + Word(b[2], b[3])
  }

  /** The size of the buffer in which either side gathers a message; it keeps what was there before. */
  const MSG_BUFFER := 4096

  /** A buffer that begins with a complete message. */
  predicate InBuffer(buf: Bytes) {
    |buf| == MSG_BUFFER && Length(buf) <= MSG_BUFFER
  }

  predicate KnownType(b: Bytes)
    requires |b| >= 4
  {
    HELLO <= b[0] <= ETHERNET_FRAME
  }

  /** The payload is no shorter than what precedes a name; `name_len` would be negative otherwise. */
  predicate NameFollows(buf: Bytes)
    requires |buf| >= 4
  {
    (buf[0] == ROUTER ==> Length(buf) >= 7) && (buf[0] == INTERFACE ==> Length(buf) >= 16)
  }

  /**
   The fields `chirouter_server_process_single_message` reads. They lie where the structure puts
   them, even past the end of a short message; only a name depends on the payload length, and only
   a frame on its own length. A frame that leaves the buffer is cut off here: it is longer than
   any Ethernet frame, and refused for its length. None is an unknown type, or a name of negative
   length.
   */
  function ServerRead(buf: Bytes): (m: Option<Message>)
    requires InBuffer(buf)
    ensures KnownType(buf) && NameFollows(buf) ==> m.Some?
  {
    var end := Length(buf);
    if buf[0] == HELLO then Some(Hello(buf[1]))
    else if buf[0] == ROUTERS then Some(Routers(buf[4]))
    else if buf[0] == ROUTER && end >= 7 then Some(Router(buf[4], buf[5], buf[6], buf[7..end]))
    else if buf[0] == INTERFACE && end >= 16 then
      Some(Interface(buf[4], buf[5], buf[6..12], buf[12..16], buf[16..end]))
    else if buf[0] == RTABLE_ENTRY then
      Some(RTableEntry(buf[4], buf[5], Word(buf[6], buf[7]), buf[8..12], buf[12..16], buf[16..20]))
    else if buf[0] == END_CONFIG then Some(EndConfig)
    else if buf[0] == ETHERNET_FRAME then
      var stop := 8 + Word(buf[6], buf[7]);
      Some(Frame(buf[1], buf[4], buf[5], buf[8..if stop <= MSG_BUFFER then stop else MSG_BUFFER]))
    else None
  }

  lemma PackedParts(m: Message, rest: Bytes)
    requires Fits(m)
    ensures var b, p, end := Pack(m) + rest, Payload(m), |Pack(m)|;
            && end == Length(b) == 4 + |p| <= |b| && b[0] == TypeOf(m) && b[1] == SubtypeOf(m)
            && (forall i :: 4 <= i < end ==> b[i] == p[i - 4])
            && (forall i, j :: 4 <= i <= j <= end ==> b[i..j] == p[i - 4..j - 4])
  {
    hide Payload;
    var b, p, end := Pack(m) + rest, Payload(m), |Pack(m)|;
    assert b[4..end] == p;
    forall i, j | 4 <= i <= j <= end
      ensures b[i..j] == p[i - 4..j - 4]
    {
      assert b[i..j] == b[4..end][i - 4..j - 4];
    }
  }

  /** The server reads exactly the message that was packed, whatever follows it in the buffer. */
  lemma ReadPacked(m: Message, buf: Bytes)
    requires Fits(m) && |buf| == MSG_BUFFER && |Pack(m)| <= |buf| && buf[..|Pack(m)|] == Pack(m)
    ensures InBuffer(buf) && KnownType(buf) && ServerRead(buf) == Some(m)
  {
    var rest := buf[|Pack(m)|..];
    assert buf == Pack(m) + rest;
    PackedParts(m, rest);
    PayloadParts(m);
    hide Pack, Word, Payload, Be16;
  }

  /** Where the fields lie in a payload. */
  lemma PayloadParts(m: Message)
    requires Fits(m)
    ensures var p := Payload(m);
            match m
            case Routers(n) => p == [n]
            case Router(rid, ni, nr, name) =>
              |p| == 3 + |name| && p[0] == rid && p[1] == ni && p[2] == nr && p[3..|p|] == name
            case Interface(rid, k, hw, ip, name) =>
              |p| == 12 + |name| && p[0] == rid && p[1] == k && p[2..8] == hw && p[8..12] == ip && p[12..|p|] == name
            case RTableEntry(rid, k, metric, dest, mask, gw) =>
              && |p| == 16 && p[0] == rid && p[1] == k && Word(p[2], p[3]) == metric
              && p[4..8] == dest && p[8..12] == mask && p[12..16] == gw
            case Frame(_, rid, k, frame) =>
              |p| == 4 + |frame| && p[0] == rid && p[1] == k && Word(p[2], p[3]) == |frame| && p[4..|p|] == frame
            case _ => p == []
  {
    hide Word;
  }

  /** Every byte of a message: type, subtype, payload length, and the fields at their places. */
  lemma OnTheWire(m: Message)
    requires Fits(m)
    ensures var b := Pack(m);
            && |b| >= 4 && Word(b[2], b[3]) == |b| - 4
            && match m
               case Hello(subtype) => b == [1, subtype, 0, 0]
               case Routers(n) => b == [2, 0, 0, 1, n]
               case Router(rid, ni, nr, name) => b[..2] == [3, 0] && b[4..] == [rid, ni, nr] + name
               case Interface(rid, k, hw, ip, name) => b[..2] == [4, 0] && b[4..] == [rid, k] + hw + ip + name
               case RTableEntry(rid, k, metric, dest, mask, gw) =>
                 && b[..2] == [5, 0] && |b| == 20 && b[4..6] == [rid, k] && Word(b[6], b[7]) == metric
                 && b[8..] == dest + mask + gw
               case EndConfig => b == [6, 0, 0, 0]
               case Frame(subtype, rid, k, frame) =>
                 && b[..2] == [7, subtype] && b[4..6] == [rid, k] && Word(b[6], b[7]) == |frame| && b[8..] == frame
  {
    var b, p := Pack(m), Payload(m);
    assert b[4..] == p && b[..2] == [TypeOf(m), SubtypeOf(m)];
    if m.RTableEntry? || m.Frame? {
      var size := Be16(if m.RTableEntry? then m.metric else |m.frame|);
      assert b[4..6] == p[..2] && b[6] == p[2] == size[0] && b[7] == p[3] == size[1] && b[8..] == p[4..];
    }
    hide Word;
  }

  /** What `from_buffer` gives back; Raised is an exception. */
  datatype Received =
    | NoMessage
    | HelloIn(fromRouter: bool)
    | FrameIn(rid: Byte, ifaceId: Byte, frame: Bytes, fromRouter: bool)
    | Raised

  /** `from_buffer`; the buffer may hold more than the message. */
  function FromBuffer(buf: Bytes): Received
    requires |buf| >= 4 && (buf[0] == ETHERNET_FRAME ==> |buf| >= 8)
  {
    if buf[0] == HELLO then
      if buf[1] == CLIENT_TO_ROUTER then HelloIn(false)
      else if buf[1] == CLIENT_FROM_ROUTER then HelloIn(true)
      else NoMessage
    else if buf[0] == ETHERNET_FRAME then
      if buf[1] != CLIENT_TO_ROUTER && buf[1] != CLIENT_FROM_ROUTER then Raised
      else
        var n := Word(buf[6], buf[7]);
        var end := if 8 + n <= |buf| then 8 + n else |buf|;
        FrameIn(buf[4], buf[5], buf[8..end], buf[1] == CLIENT_FROM_ROUTER)
    else NoMessage
  }

  /**
   A frame message of the server is read back with its identifiers and its bytes, whatever
   follows it in the buffer; but as one to the router, since the two sides number the subtypes
   differently.
   */
  lemma FrameReadBack(rid: Byte, ifaceId: Byte, frame: Bytes, rest: Bytes)
    requires |frame| < WORD - 4
    ensures var m := Frame(SERVER_FROM_ROUTER, rid, ifaceId, frame);
            FromBuffer(Pack(m) + rest) == FrameIn(rid, ifaceId, frame, false)
  {
    var m := Frame(SERVER_FROM_ROUTER, rid, ifaceId, frame);
    var b := Pack(m) + rest;
    assert Pack(m)[4..] == Payload(m);
    assert b[6..8] == Payload(m)[2..4] == Be16(|frame|);
    assert b[8..8 + |frame|] == Payload(m)[4..] == frame;
  }

  /** `from_buffer` raises no exception: it knows the subtype of a frame message. */
  predicate Readable(b: Bytes)
    requires |b| >= 4
  {
    b[0] == ETHERNET_FRAME ==> b[1] == CLIENT_TO_ROUTER || b[1] == CLIENT_FROM_ROUTER
  }

  /** The message says no more about its frame than it holds. */
  predicate Complete(b: Bytes)
    requires |b| >= 4
  {
    b[0] == ETHERNET_FRAME ==> |b| >= 8 && 8 + Word(b[6], b[7]) <= |b|
  }

  lemma ReadsItselfOnly(b: Bytes, rest: Bytes)
    requires |b| >= 4 && Complete(b)
    ensures FromBuffer(b + rest) == FromBuffer(b)
  {
    if b[0] == ETHERNET_FRAME {
      var n := 8 + Word(b[6], b[7]);
      assert (b + rest)[8..n] == b[8..n];
    }
  }
}
