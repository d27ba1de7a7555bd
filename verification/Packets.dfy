/**
 The frames that src/c/router.c reads and builds, byte by byte: an Ethernet header (14 bytes),
 an IPv4 header without options (20 bytes), and an ICMP message.
 */
module Packets {
  import opened Checksum
  import opened LongestMatch

  type Mac = m: seq<Byte> | |m| == 6 witness [0, 0, 0, 0, 0, 0]

  const ETH := 14
  const IPH := 20
  const ICMPH := 8
  const FRAME_MAX := 1514

  const ECHO_REPLY: Byte := 0
  const DEST_UNREACHABLE: Byte := 3
  const ECHO_REQUEST: Byte := 8
  const TIME_EXCEEDED: Byte := 11

  const NET_UNREACHABLE: Byte := 0
  const HOST_UNREACHABLE: Byte := 1
  const PROTOCOL_UNREACHABLE: Byte := 2
  const PORT_UNREACHABLE: Byte := 3

  const PROTO_ICMP: Byte := 1
  const PROTO_TCP: Byte := 6
  const PROTO_UDP: Byte := 17

  function Wide(b: Byte): bv32 {
    b as bv32
  }

  /** The number of these bytes, the first one lowest. */
  function Joined(a: bv32, b: bv32, c: bv32, d: bv32): Ip {
    a | (b << 8) | (c << 16) | (d << 24)
  }

  /** The 32-bit value a little-endian host loads. */
  function Load(raw: seq<Byte>, off: nat): Ip
    requires off + 4 <= |raw|
  {
    Joined(Wide(raw[off]), Wide(raw[off + 1]), Wide(raw[off + 2]), Wide(raw[off + 3]))
  }

  /** Swapped, it is the number of the bytes as the network orders them, the first one highest. */
  lemma NetworkOrder(a: bv32, b: bv32, c: bv32, d: bv32)
    requires a <= 0xff && b <= 0xff && c <= 0xff && d <= 0xff
    ensures Swap(Joined(a, b, c, d)) == (a << 24) | (b << 16) | (c << 8) | d
  {
  }

  function Low(v: bv32): Byte {
    ((v & 0xff) as bv8) as int
  }

  function IpBytes(v: Ip): (b: seq<Byte>)
    ensures |b| == 4
  {
    [Low(v), Low(v >> 8), Low(v >> 16), Low(v >> 24)]
  }

  function EtherType(raw: seq<Byte>): nat
    requires |raw| >= ETH
  {
    Word(raw[12], raw[13])
  }

  function TotalLen(raw: seq<Byte>): nat
    requires |raw| >= ETH + IPH
  {
    Word(raw[16], raw[17])
  }

  function Ttl(raw: seq<Byte>): Byte
    requires |raw| >= ETH + IPH
  {
    raw[22]
  }

  function Proto(raw: seq<Byte>): Byte
    requires |raw| >= ETH + IPH
  {
    raw[23]
  }

  function IpDst(raw: seq<Byte>): Ip
    requires |raw| >= ETH + IPH
  {
    Load(raw, 30)
  }

  /**
   The frames the code reads within bounds: a header without options and eight more bytes, a
   total length that fits the frame, and a whole ICMP header in an ICMP datagram.
   */
  predicate WellFormedIp(raw: seq<Byte>) {
    && ETH + IPH + 8 <= |raw| <= FRAME_MAX
    && IPH <= TotalLen(raw) <= |raw| - ETH
    && (Proto(raw) == PROTO_ICMP ==> IPH + ICMPH <= TotalLen(raw))
  }

  predicate HeaderVerifies(h: seq<Byte>) {
    OnesSum(WordSum(h)) == 0xffff
  }

  function Zeros(n: nat): (z: seq<Byte>)
    ensures |z| == n && forall i :: 0 <= i < n ==> z[i] == 0
  {
    seq(n, _ => 0)
  }

  /** A header with its checksum field cleared and then filled in. */
  function Sealed(h: seq<Byte>, off: nat): (s: seq<Byte>)
    requires off % 2 == 0 && off + 2 <= |h|
    ensures |s| == |h| && s[..off] == h[..off] && s[off + 2..] == h[off + 2..]
    ensures HeaderVerifies(s)
  {
    var z := h[off := 0][off + 1 := 0];
    StoredChecksumVerifies(z, off);
    var s := StoreAt(z, off, Finish(WordSum(z)));
    assert s[..off] == h[..off] && s[off + 2..] == h[off + 2..];
    s
  }

  function EthHeader(dst: Mac, src: Mac): (e: seq<Byte>)
    ensures |e| == ETH && e[..6] == dst && e[6..12] == src && EtherType(e) == 0x0800
  {
    dst + src + [8, 0]
  }

  /** Slices of a frame made of an Ethernet header, an IP header and the rest. */
  lemma Parts(e: seq<Byte>, h: seq<Byte>, m: seq<Byte>)
    requires |e| == ETH && |h| == IPH
    ensures var out := e + h + m;
            && |out| == ETH + IPH + |m| && out[..6] == e[..6] && out[6..12] == e[6..12]
            && out[12] == e[12] && out[13] == e[13]
            && out[ETH..ETH + IPH] == h && out[ETH + IPH..] == m
            && (forall i {:trigger h[i]} :: 0 <= i < IPH ==> out[ETH + i] == h[i])
            && (forall i {:trigger m[i]} :: 0 <= i < |m| ==> out[ETH + IPH + i] == m[i])
  {
  }

  /** Where the fields of the layers lie in a frame. */
  lemma Layers(e: seq<Byte>, h: seq<Byte>, m: seq<Byte>)
    requires |e| == ETH && |h| == IPH && |m| >= ICMPH
    ensures var out := e + h + m;
            && |out| == ETH + IPH + |m| && out[..6] == e[..6] && out[6..12] == e[6..12]
            && out[ETH..ETH + IPH] == h && out[ETH + IPH..] == m
            && out[12] == e[12] && out[13] == e[13] && out[34] == m[0] && out[35] == m[1]
            && out[38..] == m[4..] && out[38..42] == m[4..][..4] && out[42..] == m[4..][4..]
            && out[14] == h[0] && out[15] == h[1] && out[16] == h[2] && out[17] == h[3]
            && out[22] == h[8] && out[23] == h[9]
            && out[18..22] == h[4..8] && out[26..30] == h[12..16] && out[30..34] == h[16..20]
  {
  }

  /** The TTL byte after C's unsigned decrement. */
  function Decrement(ttl: Byte): Byte {
    if ttl == 0 then 255 else ttl - 1
  }

  /** The IP part that `forward_ip_datagram` copies: `len` bytes, then zeros up to the frame's length. */
  function Copied(raw: seq<Byte>): (b: seq<Byte>)
    requires WellFormedIp(raw)
    ensures |b| == |raw| - ETH && b[..TotalLen(raw)] == raw[ETH..ETH + TotalLen(raw)]
  {
    raw[ETH..ETH + TotalLen(raw)] + Zeros(|raw| - ETH - TotalLen(raw))
  }

  /** The frame that `forward_ip_datagram` sends. */
  function Forwarded(raw: seq<Byte>, dst: Mac, src: Mac): seq<Byte>
    requires WellFormedIp(raw)
  {
    var b := Copied(raw);
    EthHeader(dst, src) + Sealed(b[..IPH][8 := Decrement(raw[22])], 10) + b[IPH..]
  }

  /** `memcpy` into a message buffer. */
  method MemCpy(a: array<Byte>, off: nat, s: seq<Byte>)
    requires off + |s| <= a.Length
    modifies a
    ensures forall i :: 0 <= i < a.Length ==> a[i] == if off <= i < off + |s| then s[i - off] else old(a[i])
  {
    forall i | 0 <= i < |s| {
      a[off + i] := s[i];
    }
  }

  /** The buffer `forward_ip_datagram` fills field by field. */
  method FillForward(raw: seq<Byte>, dst: Mac, src: Mac) returns (msg: array<Byte>)
    requires WellFormedIp(raw)
    ensures fresh(msg) && msg[..] == Forwarded(raw, dst, src)
  {
    hide WordSum, OnesSum, Finish, HeaderVerifies;
    msg := new Byte[|raw|](_ => 0);
    MemCpy(msg, 0, dst);
    MemCpy(msg, 6, src);
    MemCpy(msg, 12, [8, 0]);
    ghost var b := Copied(raw);
    MemCpy(msg, ETH, raw[ETH..ETH + TotalLen(raw)]);
    assert msg[..ETH] == EthHeader(dst, src);
    assert msg[ETH..] == b;
    msg[22] := Decrement(raw[22]);
    msg[24], msg[25] := 0, 0;
    ghost var z := b[..IPH][8 := Decrement(raw[22])][10 := 0][11 := 0];
    assert msg[ETH..ETH + IPH] == z && msg[..ETH] == EthHeader(dst, src) && msg[ETH + IPH..] == b[IPH..];
    var c := Cksum(msg[ETH..ETH + IPH]);
    ghost var s := StoreAt(z, 10, c);
    assert s == Sealed(b[..IPH][8 := Decrement(raw[22])], 10);
    MemCpy(msg, 24, [c % 256, c / 256]);
    Reassemble(msg[..], EthHeader(dst, src), s, b[IPH..]);
  }

  lemma Reassemble(msg: seq<Byte>, e: seq<Byte>, h: seq<Byte>, m: seq<Byte>)
    requires |e| == ETH && |h| == IPH && |msg| == ETH + IPH + |m|
    requires msg[..ETH] == e && msg[ETH..ETH + IPH] == h && msg[ETH + IPH..] == m
    ensures msg == e + h + m
  {
    assert msg == msg[..ETH] + msg[ETH..ETH + IPH] + msg[ETH + IPH..];
  }

  /** Every byte of the datagram is carried over but for the TTL and the checksum. */
  lemma ForwardedByte(raw: seq<Byte>, dst: Mac, src: Mac, i: int)
    requires WellFormedIp(raw) && ETH <= i < ETH + TotalLen(raw) && i != 24 && i != 25
    ensures |Forwarded(raw, dst, src)| == |raw|
    ensures Forwarded(raw, dst, src)[i] == if i == 22 then Decrement(raw[22]) else raw[i]
  {
    var b := Copied(raw);
    var h := b[..IPH][8 := Decrement(raw[22])];
    var s := Sealed(h, 10);
    var out := EthHeader(dst, src) + s + b[IPH..];
    assert b[i - ETH] == b[..TotalLen(raw)][i - ETH] == raw[i];
    if i < 24 {
      assert out[i] == s[i - ETH] == s[..10][i - ETH] == h[..10][i - ETH];
    } else if i < 34 {
      assert out[i] == s[i - ETH] == s[12..][i - 26] == h[12..][i - 26];
    } else {
      assert out[i] == b[IPH..][i - 34];
    }
  }

  /**
   A forwarded frame carries the datagram unchanged but for a TTL one lower (0 wraps to 255) and a
   checksum that verifies, and zeros behind it; it leaves with the given addresses and passes the
   checks of `chirouter_send_frame`.
   */
  lemma ForwardedFacts(raw: seq<Byte>, dst: Mac, src: Mac)
    requires WellFormedIp(raw)
    ensures var out := Forwarded(raw, dst, src);
            && |out| == |raw| && ETH <= |out| <= FRAME_MAX
            && out[..6] == dst && out[6..12] == src && EtherType(out) == 0x0800
            && HeaderVerifies(out[ETH..ETH + IPH])
            && out[22] as int == (raw[22] as int + 255) % 256
            && (forall i :: ETH <= i < ETH + TotalLen(raw) && i !in {22, 24, 25} ==> out[i] == raw[i])
            && (forall i :: ETH + TotalLen(raw) <= i < |raw| ==> out[i] == 0)
  {
    ForwardedOutside(raw, dst, src);
    ForwardedTail(raw, dst, src);
    hide Forwarded, HeaderVerifies, Word;
    forall i | ETH <= i < ETH + TotalLen(raw) && i != 24 && i != 25
      ensures Forwarded(raw, dst, src)[i] == if i == 22 then Decrement(raw[22]) else raw[i]
    {
      ForwardedByte(raw, dst, src, i);
    }
  }

  lemma ForwardedOutside(raw: seq<Byte>, dst: Mac, src: Mac)
    requires WellFormedIp(raw)
    ensures var out := Forwarded(raw, dst, src);
            && |out| == |raw| && out[..6] == dst && out[6..12] == src && EtherType(out) == 0x0800
            && HeaderVerifies(out[ETH..ETH + IPH])
  {
    var b := Copied(raw);
    var e, s, m := EthHeader(dst, src), Sealed(b[..IPH][8 := Decrement(raw[22])], 10), b[IPH..];
    assert Forwarded(raw, dst, src) == e + s + m;
    hide Forwarded, Sealed, EthHeader, Copied, HeaderVerifies, Word, Decrement;
    Layers(e, s, m);
  }

  lemma ForwardedTail(raw: seq<Byte>, dst: Mac, src: Mac)
    requires WellFormedIp(raw)
    ensures |Forwarded(raw, dst, src)| == |raw|
    ensures forall i :: ETH + TotalLen(raw) <= i < |raw| ==> Forwarded(raw, dst, src)[i] == 0
  {
    var b := Copied(raw);
    var x, m := EthHeader(dst, src) + Sealed(b[..IPH][8 := Decrement(raw[22])], 10), b[IPH..];
    assert Forwarded(raw, dst, src) == x + m && |x| == ETH + IPH;
    assert forall j :: TotalLen(raw) - IPH <= j < |m| ==> m[j] == 0;
    hide Forwarded, Sealed, EthHeader, Copied, HeaderVerifies, TotalLen, Decrement;
    assert forall i :: ETH + IPH <= i < |raw| ==> (x + m)[i] == m[i - ETH - IPH];
  }

  /** One router forwards the datagram, which it does only when the TTL is not 1. */
  ghost predicate OneHop(before: seq<Byte>, after: seq<Byte>, dst: Mac, src: Mac) {
    WellFormedIp(before) && Ttl(before) != 1 && after == Forwarded(before, dst, src)
  }

  lemma HopFacts(before: seq<Byte>, after: seq<Byte>, dst: Mac, src: Mac)
    requires OneHop(before, after, dst, src)
    ensures WellFormedIp(after) && Ttl(after) == Decrement(Ttl(before)) && IpDst(after) == IpDst(before)
  {
    ForwardedFacts(before, dst, src);
    hide Forwarded;
  }

  /** A datagram on its way from router to router. */
  ghost predicate Journey(frames: seq<seq<Byte>>, hops: seq<(Mac, Mac)>) {
    && |frames| == |hops| + 1 && WellFormedIp(frames[0])
    && forall k :: 0 <= k < |hops| ==> OneHop(frames[k], frames[k + 1], hops[k].0, hops[k].1)
  }

  /** A datagram of TTL t >= 1 is forwarded at most t - 1 times; one of TTL 0 wraps to 255. */
  lemma {:induction false} HopBound(frames: seq<seq<Byte>>, hops: seq<(Mac, Mac)>)
    requires Journey(frames, hops)
    ensures |hops| <= if Ttl(frames[0]) == 0 then 255 else Ttl(frames[0]) as int - 1
    decreases |hops|
  {
    if |hops| > 0 {
      assert OneHop(frames[0], frames[1], hops[0].0, hops[0].1);
      HopFacts(frames[0], frames[1], hops[0].0, hops[0].1);
      hide OneHop, WellFormedIp;
      HopBound(frames[1..], hops[1..]);
    }
  }

  predicate IsEcho(kind: Byte) {
    kind == ECHO_REPLY || kind == ECHO_REQUEST
  }

  /** Echo messages are only sent in answer to ICMP datagrams. */
  predicate Answerable(raw: seq<Byte>, kind: Byte) {
    WellFormedIp(raw) && (IsEcho(kind) ==> Proto(raw) == PROTO_ICMP)
  }

  /** `payload_len` of `chirouter_send_icmp`. */
  function PayloadLen(raw: seq<Byte>, kind: Byte): nat
    requires Answerable(raw, kind)
  {
    if IsEcho(kind) then TotalLen(raw) - IPH - ICMPH else IPH + 8
  }

  /** The ICMP message before its checksum: an echo repeats the request's data, an error quotes the datagram. */
  function IcmpBody(raw: seq<Byte>, kind: Byte, code: Byte): (m: seq<Byte>)
    requires Answerable(raw, kind)
    ensures |m| == ICMPH + PayloadLen(raw, kind)
  {
    [kind, code, 0, 0] +
    if !IsEcho(kind) then [0, 0, 0, 0] + raw[ETH..ETH + IPH + 8]
    else if code == 0 then raw[38..42 + PayloadLen(raw, kind)]
    else Zeros(4 + PayloadLen(raw, kind))
  }

  /** The total length `chirouter_send_icmp` writes. */
  function ReplyLen(raw: seq<Byte>, kind: Byte): (n: nat)
    requires Answerable(raw, kind)
    ensures n < WORD
  {
    if IsEcho(kind) then |raw| - ETH else IPH + ICMPH + PayloadLen(raw, kind)
  }

  function IcmpIpHeader(raw: seq<Byte>, kind: Byte, ip: Ip): (h: seq<Byte>)
    requires Answerable(raw, kind)
    ensures |h| == IPH
  {
    var n := ReplyLen(raw, kind);
    [0x45, 0, n / 256, n % 256, 0, 0, 0, 0, 64, PROTO_ICMP, 0, 0] + IpBytes(ip) + raw[26..30]
  }

  /** The frame that `chirouter_send_icmp` sends on the interface where `raw` came in. */
  function IcmpFrame(raw: seq<Byte>, kind: Byte, code: Byte, mac: Mac, ip: Ip): seq<Byte>
    requires Answerable(raw, kind)
  {
    EthHeader(raw[6..12], mac) + Sealed(IcmpIpHeader(raw, kind, ip), 10) + Sealed(IcmpBody(raw, kind, code), 2)
  }

  /**
   Every ICMP frame goes back to the sender from the address of the receiving interface, with an
   IP header of version 4 and twenty bytes and an ICMP message that both verify; it passes the
   checks of `chirouter_send_frame`.
   An error quotes the IP header and the eight bytes after it; an echo reply repeats identifier,
   sequence number and data of the request. The length field of the header is the length sent,
   except in an echo reply to a frame with padding after the datagram.
   */
  lemma IcmpFacts(raw: seq<Byte>, kind: Byte, code: Byte, mac: Mac, ip: Ip)
    requires Answerable(raw, kind)
    ensures var out := IcmpFrame(raw, kind, code, mac, ip);
            && |out| == ETH + IPH + ICMPH + PayloadLen(raw, kind) <= FRAME_MAX
            && out[..6] == raw[6..12] && out[6..12] == mac
            && HeaderVerifies(out[ETH..ETH + IPH]) && HeaderVerifies(out[ETH + IPH..])
            && out[34] == kind && out[35] == code && out[26..30] == IpBytes(ip) && out[30..34] == raw[26..30]
            && Proto(out) == 1 && Ttl(out) == 64 && out[14] == 0x45 && out[15] == 0 && out[18..22] == [0, 0, 0, 0]
            && (!IsEcho(kind) ==> out[38..42] == [0, 0, 0, 0] && out[42..] == raw[ETH..ETH + IPH + 8])
            && (IsEcho(kind) && code == 0 ==> out[38..] == raw[38..ETH + TotalLen(raw)])
            && (TotalLen(out) == |out| - ETH <==> !IsEcho(kind) || |raw| == ETH + TotalLen(raw))
  {
    IcmpOutside(raw, kind, code, mac, ip);
    IcmpInside(raw, kind, code, mac, ip);
    hide IcmpFrame, Word, HeaderVerifies, IpBytes;
  }

  /** Its length, addresses and checksums, */
  lemma IcmpOutside(raw: seq<Byte>, kind: Byte, code: Byte, mac: Mac, ip: Ip)
    requires Answerable(raw, kind)
    ensures var out := IcmpFrame(raw, kind, code, mac, ip);
            && |out| == ETH + IPH + ICMPH + PayloadLen(raw, kind) <= FRAME_MAX
            && out[..6] == raw[6..12] && out[6..12] == mac
            && HeaderVerifies(out[ETH..ETH + IPH]) && HeaderVerifies(out[ETH + IPH..])
            && out[34] == kind && out[35] == code
            && (!IsEcho(kind) ==> out[38..42] == [0, 0, 0, 0] && out[42..] == raw[ETH..ETH + IPH + 8])
            && (IsEcho(kind) && code == 0 ==> out[38..] == raw[38..ETH + TotalLen(raw)])
  {
    var e, h, m := EthHeader(raw[6..12], mac), Sealed(IcmpIpHeader(raw, kind, ip), 10),
        Sealed(IcmpBody(raw, kind, code), 2);
    assert IcmpFrame(raw, kind, code, mac, ip) == e + h + m && HeaderVerifies(h) && HeaderVerifies(m);
    PayloadRoom(raw, kind);
    IcmpBodyFields(raw, kind, code);
    hide IcmpFrame, Sealed, EthHeader, IcmpIpHeader, IcmpBody, IpBytes, HeaderVerifies, PayloadLen;
    Layers(e, h, m);
  }

  lemma PayloadRoom(raw: seq<Byte>, kind: Byte)
    requires Answerable(raw, kind)
    ensures ETH + IPH + ICMPH + PayloadLen(raw, kind) <= FRAME_MAX
  {
  }

  /** and its IP header. */
  lemma IcmpInside(raw: seq<Byte>, kind: Byte, code: Byte, mac: Mac, ip: Ip)
    requires Answerable(raw, kind)
    ensures var out := IcmpFrame(raw, kind, code, mac, ip);
            && |out| >= ETH + IPH && out[26..30] == IpBytes(ip) && out[30..34] == raw[26..30]
            && out[14] == 0x45 && out[15] == 0 && out[18..22] == [0, 0, 0, 0]
            && Proto(out) == 1 && Ttl(out) == 64 && TotalLen(out) == ReplyLen(raw, kind)
  {
    var e, h, m := EthHeader(raw[6..12], mac), Sealed(IcmpIpHeader(raw, kind, ip), 10),
        Sealed(IcmpBody(raw, kind, code), 2);
    assert IcmpFrame(raw, kind, code, mac, ip) == e + h + m;
    IcmpHeaderFields(raw, kind, ip);
    hide IcmpFrame, Sealed, EthHeader, IcmpIpHeader, IcmpBody, IpBytes, ReplyLen, HeaderVerifies, Word, PayloadLen;
    Layers(e, h, m);
  }

  lemma IcmpHeaderFields(raw: seq<Byte>, kind: Byte, ip: Ip)
    requires Answerable(raw, kind)
    ensures var h := Sealed(IcmpIpHeader(raw, kind, ip), 10);
            && h[12..16] == IpBytes(ip) && h[16..20] == raw[26..30] && Word(h[2], h[3]) == ReplyLen(raw, kind)
            && h[8] == 64 && h[9] == 1 && h[0] == 0x45 && h[1] == 0 && h[4..8] == [0, 0, 0, 0]
  {
    var g := IcmpIpHeader(raw, kind, ip);
    var h := Sealed(g, 10);
    var n := ReplyLen(raw, kind);
    assert Word(n / 256, n % 256) == n;
    assert h[2] == h[..10][2] == g[..10][2] && h[3] == h[..10][3] == g[..10][3];
    assert h[8] == h[..10][8] == g[..10][8] && h[9] == h[..10][9] == g[..10][9];
    assert h[0] == h[..10][0] == g[..10][0] && h[1] == h[..10][1] == g[..10][1] && h[4..8] == h[..10][4..8] == g[4..8];
    assert h[12..16] == h[12..][..4] && g[12..16] == g[12..][..4] == IpBytes(ip);
    assert h[16..20] == h[12..][4..8] && g[16..20] == g[12..][4..8] == raw[26..30];
  }

  lemma IcmpBodyFields(raw: seq<Byte>, kind: Byte, code: Byte)
    requires Answerable(raw, kind)
    ensures var m := Sealed(IcmpBody(raw, kind, code), 2);
            && |m| == ICMPH + PayloadLen(raw, kind) && m[0] == kind && m[1] == code
            && (!IsEcho(kind) ==> m[4..][..4] == [0, 0, 0, 0] && m[4..][4..] == raw[ETH..ETH + IPH + 8])
            && (IsEcho(kind) && code == 0 ==> m[4..] == raw[38..ETH + TotalLen(raw)])
  {
    var b := IcmpBody(raw, kind, code);
    var m := Sealed(b, 2);
    assert m[0] == m[..2][0] && m[1] == m[..2][1] && b[0] == b[..2][0] && b[1] == b[..2][1];
    assert m[4..] == b[4..];
    hide Sealed;
  }

  /** An echo request of 28 bytes for 10.0.1.9, padded to the least size of an Ethernet frame. */
  function PaddedRequest(): seq<Byte> {
    [2, 0, 0, 0, 0, 1, 2, 0, 0, 0, 0, 2, 8, 0,
     0x45, 0, 0, 28, 0, 0, 0, 0, 64, PROTO_ICMP, 0, 0, 10, 0, 0, 2, 10, 0, 1, 9,
     ECHO_REQUEST, 0, 0, 0, 0, 0, 0, 0] + Zeros(18)
  }

  /** The reply to it is 28 bytes long and claims to be 46. */
  lemma PaddedReply(mac: Mac, ip: Ip)
    ensures Answerable(PaddedRequest(), ECHO_REPLY)
    ensures var out := IcmpFrame(PaddedRequest(), ECHO_REPLY, 0, mac, ip);
            |out| == ETH + 28 && TotalLen(out) == 46
  {
    var raw := PaddedRequest();
    assert |raw| == 60 && TotalLen(raw) == 28;
    IcmpFacts(raw, ECHO_REPLY, 0, mac, ip);
    IcmpInside(raw, ECHO_REPLY, 0, mac, ip);
  }
}
