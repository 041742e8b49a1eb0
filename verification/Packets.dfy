/**
 The packet code of wz-udprelay.c: the IPv4/UDP builder (RFC 791 section 3.1, RFC 768),
 the TUN parser, and the SOCKS5 UDP framing (section 7 of RFC 1928).
 */
module Packets {
  import opened Bytes
  import opened Checksum
  import opened Wrappers

  const PROTO_UDP: byte := 17
  const MAX_PACKET := 65535

  /** One UDP datagram with its IPv4 endpoints. */
  datatype Udp = Udp(src: addr, sport: word, dst: addr, dport: word, payload: seq<byte>)

  // ---- the datagram build_packet is meant to write ----

  /** The IPv4 header before its checksum field; see IpTail for what follows the field. */
  function IpHead(total: word): (s: seq<byte>)
    ensures |s| == 10
  {
    [0x45, 0] + Be16(total) + [0, 0, 0, 0, 64, PROTO_UDP]
  }

  function IpTail(u: Udp): (s: seq<byte>)
    ensures |s| == 8
  {
    Be32(u.src) + Be32(u.dst)
  }

  function IpHeader(u: Udp, total: word, cs: word): (s: seq<byte>)
    ensures |s| == 20
  {
    IpHead(total) + Be16(cs) + IpTail(u)
  }

  /** The 12-byte pseudo header of RFC 768. */
  function PseudoHeader(u: Udp, len: word): (s: seq<byte>)
    ensures |s| == 12
  {
    Be32(u.src) + Be32(u.dst) + [0, PROTO_UDP] + Be16(len)
  }

  function UdpHead(u: Udp, len: word): (s: seq<byte>)
    ensures |s| == 6
  {
    Be16(u.sport) + Be16(u.dport) + Be16(len)
  }

  function Segment(u: Udp, len: word, cs: word): (s: seq<byte>)
    ensures |s| == 8 + |u.payload|
  {
    UdpHead(u, len) + Be16(cs) + u.payload
  }

  /** The finished IP header: the checksum field holds the complement of the header's sum. */
  function IpPart(u: Udp): (s: seq<byte>)
    requires 28 + |u.payload| <= MAX_PACKET
    ensures |s| == 20
  {
    IpHeader(u, 28 + |u.payload|, 0xffff - OnesSum(IpHeader(u, 28 + |u.payload|, 0)))
  }

  function UdpCs(u: Udp): (cs: word)
    requires 28 + |u.payload| <= MAX_PACKET
  {
    0xffff - OnesSum(PseudoHeader(u, 8 + |u.payload|) + Segment(u, 8 + |u.payload|, 0))
  }

  function UdpPart(u: Udp): (s: seq<byte>)
    requires 28 + |u.payload| <= MAX_PACKET
    ensures |s| == 8 + |u.payload|
  {
    Segment(u, 8 + |u.payload|, UdpCs(u))
  }

  /** The bytes of a datagram, both checksum fields filled in. */
  function Datagram(u: Udp): (s: seq<byte>)
    requires 28 + |u.payload| <= MAX_PACKET
    ensures |s| == 28 + |u.payload|
  {
    IpPart(u) + UdpPart(u)
  }

  lemma IpPartVerifies(u: Udp)
    requires 28 + |u.payload| <= MAX_PACKET
    ensures OnesSum(IpPart(u)) == 0xffff
  {
    ComplementVerifies(IpHead(28 + |u.payload|), IpTail(u), 0xffff - OnesSum(IpHeader(u, 28 + |u.payload|, 0)));
  }

  lemma UdpPartVerifies(u: Udp)
    requires 28 + |u.payload| <= MAX_PACKET
    ensures OnesSum(PseudoHeader(u, 8 + |u.payload|) + UdpPart(u)) == 0xffff
  {
    var len := 8 + |u.payload|;
    var pre := PseudoHeader(u, len) + UdpHead(u, len);
    Regroup(PseudoHeader(u, len), UdpHead(u, len), Be16(0), u.payload);
    Regroup(PseudoHeader(u, len), UdpHead(u, len), Be16(UdpCs(u)), u.payload);
    ComplementVerifies(pre, u.payload, UdpCs(u));
  }

  lemma Regroup(a: seq<byte>, b: seq<byte>, c: seq<byte>, d: seq<byte>)
    ensures a + (b + c + d) == a + b + c + d
  {
  }

  /** A receiver's two checks succeed: both one's-complement sums come out all ones. */
  lemma DatagramVerifies(u: Udp)
    requires 28 + |u.payload| <= MAX_PACKET
    ensures OnesSum(Datagram(u)[..20]) == 0xffff
    ensures OnesSum(PseudoHeader(u, 8 + |u.payload|) + Datagram(u)[20..]) == 0xffff
  {
    IpPartVerifies(u);
    UdpPartVerifies(u);
    assert Datagram(u)[..20] == IpPart(u);
    assert Datagram(u)[20..] == UdpPart(u);
  }

  // ---- build_packet ----

  predicate SumsTo(s: seq<byte>, n: nat) {
    WordSum(s) == n
  }

  /** The words of s add up to the nine addends. */
  ghost predicate SeedIs(s: seq<byte>, u: Udp, len: word) {
    exists n :: SumsTo(s, n) && n == WordSum(Be32(u.src)) + WordSum(Be32(u.dst)) + 17 + len + u.sport + u.dport + len
  }

  /**
   The nine addends build_packet starts its UDP sum from are the words of the pseudo header
   and of the UDP header with a zero checksum field.
   */
  lemma SeedSum(u: Udp, len: word)
    ensures SeedIs(PseudoHeader(u, len) + UdpHead(u, len) + Be16(0), u, len)
  {
    hide Be16, Be32, WordSum;
    WordSumParts(Be32(u.src), Be32(u.dst), [0, PROTO_UDP], Be16(len));
    WordSumParts(Be16(u.sport), Be16(u.dport), Be16(len), Be16(0));
    WordSumOfTwo(0, PROTO_UDP);
    WordSum16(u.sport);
    WordSum16(u.dport);
    WordSum16(len);
    WordSum16(0);
    WordSumAppend(PseudoHeader(u, len), UdpHead(u, len) + Be16(0));
    assert PseudoHeader(u, len) + UdpHead(u, len) + Be16(0) == PseudoHeader(u, len) + (UdpHead(u, len) + Be16(0));
    assert SumsTo(PseudoHeader(u, len) + UdpHead(u, len) + Be16(0),
                  WordSum(Be32(u.src)) + WordSum(Be32(u.dst)) + 17 + len + u.sport + u.dport + len);
  }

  lemma WordSumParts(a: seq<byte>, b: seq<byte>, c: seq<byte>, d: seq<byte>)
    requires |a| % 2 == 0 && |b| % 2 == 0 && |c| % 2 == 0
    ensures WordSum(a + b + c + d) == WordSum(a) + WordSum(b) + WordSum(c) + WordSum(d)
  {
    WordSumAppend(a + b + c, d);
    WordSumAppend(a + b, c);
    WordSumAppend(a, b);
  }

  lemma WordSum16(w: word)
    ensures WordSum(Be16(w)) == w
  {
  }

  lemma WordSum32(a: addr)
    ensures WordSum(Be32(a)) == a / 0x1_0000 + a % 0x1_0000
  {
    hide Be16, WordSum;
    WordSum16(a / 0x1_0000);
    WordSum16(a % 0x1_0000);
    WordSumAppend(Be16(a / 0x1_0000), Be16(a % 0x1_0000));
  }

  /** The nine addends before the payload loop, in one uint32_t. */
  method SeedAccumulator(u: Udp, len: word) returns (sum: uint32)
    ensures sum as int == WordSum(Be32(u.src)) + WordSum(Be32(u.dst)) + 17 + len + u.sport + u.dport + len
    ensures sum as int <= 9 * 0xffff
  {
    hide Be32, WordSum;
    WordSum32(u.src);
    WordSum32(u.dst);
    sum := 0;
    sum := sum + (u.src / 0x1_0000) as uint32;
    sum := sum + (u.src % 0x1_0000) as uint32;
    sum := sum + (u.dst / 0x1_0000) as uint32;
    sum := sum + (u.dst % 0x1_0000) as uint32;
    sum := sum + PROTO_UDP as uint32;
    sum := sum + len as uint32;
    sum := sum + (u.sport as uint32 + u.dport as uint32);
    sum := sum + len as uint32;
  }

  /** The UDP checksum as build_packet accumulates it; the uint32_t never wraps. */
  method UdpChecksum(u: Udp) returns (cs: word)
    requires 28 + |u.payload| <= MAX_PACKET
    ensures cs == UdpCs(u)
  {
    hide Be16, Be32, WordSum, PseudoHeader, UdpHead, OnesSum, Fold;
    var len: word := 8 + |u.payload|;
    var sum := SeedAccumulator(u, len);
    ghost var head := PseudoHeader(u, len) + UdpHead(u, len) + Be16(0);
    SeedSum(u, len);
    WordSumBound(u.payload);
    sum := AddWords(sum, u.payload);
    WordSumAppend(head, u.payload);
    Regroup(PseudoHeader(u, len), UdpHead(u, len), Be16(0), u.payload);
    DeferredCarries(head + u.payload);
    cs := FoldComplement(sum);
  }

  /** Writes src at the given place, as the byte stores and memcpy calls of build_packet do. */
  method Put(pkt: array<byte>, at: nat, src: seq<byte>)
    requires at + |src| <= pkt.Length
    modifies pkt
    ensures pkt[at..at + |src|] == src
    ensures forall lo, hi :: 0 <= lo <= hi <= at ==> pkt[lo..hi] == old(pkt[lo..hi])
    ensures forall lo, hi :: at + |src| <= lo <= hi <= pkt.Length ==> pkt[lo..hi] == old(pkt[lo..hi])
  {
    forall i | 0 <= i < |src| {
      pkt[at + i] := src[i];
    }
  }

  lemma ZeroField()
    ensures Be16(0) == [0, 0]
  {
  }

  /** The constant bytes and the length field of the header, on a buffer just zeroed. */
  method WriteIpConstants(pkt: array<byte>, total: word)
    requires pkt.Length >= MAX_PACKET
    requires pkt[0..20] == seq(20, _ => 0)
    modifies pkt
    ensures pkt[0..10] == IpHead(total) && pkt[10..12] == [0, 0]
    ensures pkt[10..pkt.Length] == old(pkt[10..pkt.Length])
  {
    hide Be16;
    assert forall i :: 0 <= i < 20 ==> pkt[i] == pkt[0..20][i] == 0;
    var t := Be16(total);
    pkt[0], pkt[2], pkt[3], pkt[8], pkt[9] := 0x45, t[0], t[1], 64, PROTO_UDP;
    assert pkt[10..12] == [pkt[10], pkt[11]];
  }

  /** The header part of build_packet, on a buffer it has just zeroed. */
  method WriteIpHeader(pkt: array<byte>, u: Udp)
    requires 28 + |u.payload| <= MAX_PACKET <= pkt.Length
    requires pkt[0..20] == seq(20, _ => 0)
    modifies pkt
    ensures pkt[..20] == IpPart(u)
    ensures pkt[20..pkt.Length] == old(pkt[20..pkt.Length])
  {
    hide Be16, Be32;
    assert pkt[20..pkt.Length] == pkt[10..pkt.Length][10..];
    var total := 28 + |u.payload|;
    WriteIpConstants(pkt, total);
    ZeroField();
    assert pkt[20..pkt.Length] == pkt[10..pkt.Length][10..];
    Put(pkt, 12, Be32(u.src));
    Put(pkt, 16, Be32(u.dst));
    assert pkt[12..20] == pkt[12..16] + pkt[16..20] == IpTail(u);
    assert pkt[..20] == pkt[0..10] + pkt[10..12] + pkt[12..20] == IpHeader(u, total, 0);
    var cs := V4Checksum(pkt, 20);
    Put(pkt, 10, Be16(cs));
    assert pkt[..20] == pkt[0..10] + pkt[10..12] + pkt[12..20] == IpHeader(u, total, cs);
  }

  /** The UDP part of build_packet: ports, length, checksum, and the payload copied behind them. */
  method WriteUdp(pkt: array<byte>, u: Udp)
    requires 28 + |u.payload| <= MAX_PACKET <= pkt.Length
    modifies pkt
    ensures pkt[0..20] == old(pkt[0..20])
    ensures pkt[20..28 + |u.payload|] == UdpPart(u)
    ensures pkt[28 + |u.payload|..pkt.Length] == old(pkt[28 + |u.payload|..pkt.Length])
  {
    hide Be16, OnesSum;
    var end := 28 + |u.payload|;
    Put(pkt, 20, Be16(u.sport));
    Put(pkt, 22, Be16(u.dport));
    Put(pkt, 24, Be16(8 + |u.payload|));
    assert pkt[20..26] == pkt[20..22] + pkt[22..24] + pkt[24..26] == UdpHead(u, 8 + |u.payload|);
    var cs := UdpChecksum(u);
    Put(pkt, 26, Be16(cs));
    Put(pkt, 28, u.payload);
    assert pkt[20..end] == pkt[20..26] + pkt[26..28] + pkt[28..end];
  }

  /** build_packet: the total length, or 0 with the buffer untouched when it would exceed 65535. */
  method BuildPacket(pkt: array<byte>, u: Udp) returns (total: nat)
    requires pkt.Length >= MAX_PACKET
    modifies pkt
    ensures total == if 28 + |u.payload| > MAX_PACKET then 0 else 28 + |u.payload|
    ensures total == 0 ==> pkt[..] == old(pkt[..])
    ensures total > 0 ==> pkt[..total] == Datagram(u) && pkt[total..pkt.Length] == old(pkt[total..pkt.Length])
  {
    total := 28 + |u.payload|;
    if total > MAX_PACKET {
      return 0;
    }
    hide IpPart, UdpPart;
    ghost var tail := pkt[total..pkt.Length];
    forall i | 0 <= i < total {
      pkt[i] := 0;
    }
    ghost var rest := pkt[20..pkt.Length];
    assert rest[total - 20..] == tail;
    WriteIpHeader(pkt, u);
    assert pkt[total..pkt.Length] == pkt[20..pkt.Length][total - 20..];
    WriteUdp(pkt, u);
    assert pkt[..total] == pkt[0..20] + pkt[20..total];
  }

  // ---- tun_reader's parser ----

  /** What tun_reader makes of the n bytes it read; None where it skips the packet. */
  function ParseTun(buf: seq<byte>): Option<Udp>
  {
    if |buf| < 28 then None
    else if buf[0] / 0x10 != 4 then None
    else
      var ihl := buf[0] % 0x10 * 4;
      if buf[9] != PROTO_UDP then None
      else if ihl < 20 || |buf| < ihl + 8 then None
      else
        var total: int := ReadBe16(buf, 2);
        if total < ihl + 8 || total > |buf| then None
        else Some(Udp(ReadBe32(buf, 12), ReadBe16(buf, ihl), ReadBe32(buf, 16), ReadBe16(buf, ihl + 2),
                      buf[ihl + 8..total]))
  }

  lemma DatagramFields(u: Udp)
    requires 28 + |u.payload| <= MAX_PACKET
    ensures var d := Datagram(u);
            && d[0] == 0x45 && d[2..4] == Be16(28 + |u.payload|) && d[9] == PROTO_UDP
            && d[12..16] == Be32(u.src) && d[16..20] == Be32(u.dst)
            && d[20..22] == Be16(u.sport) && d[22..24] == Be16(u.dport) && d[28..] == u.payload
  {
  }

  /** tun_reader's parser reads back exactly what build_packet wrote. */
  lemma ParseDatagram(u: Udp)
    requires 28 + |u.payload| <= MAX_PACKET
    ensures ParseTun(Datagram(u)) == Some(u)
  {
    var d := Datagram(u);
    DatagramFields(u);
    Be16RoundTrip(28 + |u.payload|, d, 2);
    Be32RoundTrip(u.src, d, 12);
    Be32RoundTrip(u.dst, d, 16);
    Be16RoundTrip(u.sport, d, 20);
    Be16RoundTrip(u.dport, d, 22);
    assert d[28..28 + |u.payload|] == d[28..];
  }

  // ---- SOCKS5 UDP framing ----

  /** The frame relay_send hands to sendto; None where it gives up. */
  function Frame(tip: addr, tport: word, payload: seq<byte>): Option<seq<byte>>
  {
    if 10 + |payload| > MAX_PACKET then None
    else Some([0, 0, 0, 1] + Be32(tip) + Be16(tport) + payload)
  }

  datatype Reply = Reply(tip: addr, tport: word, payload: seq<byte>)

  /** session_thread's reading of one received frame; None where it ignores the frame. */
  function ParseReply(buf: seq<byte>): Option<Reply>
  {
    if |buf| < 10 || buf[2] != 0 then None
    else if buf[3] == 1 then Some(Reply(ReadBe32(buf, 4), ReadBe16(buf, 8), buf[10..]))
    else None
  }

  lemma ParseFrame(tip: addr, tport: word, payload: seq<byte>)
    requires 10 + |payload| <= MAX_PACKET
    ensures ParseReply(Frame(tip, tport, payload).value) == Some(Reply(tip, tport, payload))
  {
    hide Be16, Be32, ReadBe16, ReadBe32;
    var f := Frame(tip, tport, payload).value;
    assert f[4..8] == Be32(tip) && f[8..10] == Be16(tport) && f[10..] == payload;
    Be32RoundTrip(tip, f, 4);
    Be16RoundTrip(tport, f, 8);
  }

  /** inject_reply: the packet written to the TUN for one reply, if any. */
  function Inject(r: Reply, cip: addr, cport: word): Option<seq<byte>>
  {
    if 28 + |r.payload| > MAX_PACKET then None
    else Some(Datagram(Udp(r.tip, r.tport, cip, cport, r.payload)))
  }

  function Swap(u: Udp): Udp {
    Udp(u.dst, u.dport, u.src, u.sport, u.payload)
  }

  /** The far end echoes the frame sent for u, and the client gets u's payload back from u's target. */
  ghost predicate EchoesBack(u: Udp) {
    exists frame, reply, packet ::
      && Frame(u.dst, u.dport, u.payload) == Some(frame)
      && ParseReply(frame) == Some(reply)
      && Inject(reply, u.src, u.sport) == Some(packet)
      && ParseTun(packet) == Some(Swap(u))
  }

  /**
   Any packet the relay accepts from the TUN, whatever its header length, goes all the way
   round: it fits a SOCKS5 frame, and if the far end echoes that frame, the injected packet
   reads back as the same payload between the same endpoints, swapped.
   */
  lemma EchoRoundTrip(buf: seq<byte>, u: Udp)
    requires |buf| <= MAX_PACKET && ParseTun(buf) == Some(u)
    ensures |u.payload| <= 65507
    ensures EchoesBack(u)
  {
    hide Datagram, Be16, Be32, ReadBe16, ReadBe32, ParseReply;
    var frame := Frame(u.dst, u.dport, u.payload).value;
    ParseFrame(u.dst, u.dport, u.payload);
    var reply := ParseReply(frame).value;
    var packet := Inject(reply, u.src, u.sport).value;
    ParseDatagram(Swap(u));
    assert Frame(u.dst, u.dport, u.payload) == Some(frame) && ParseReply(frame) == Some(reply)
           && Inject(reply, u.src, u.sport) == Some(packet) && ParseTun(packet) == Some(Swap(u));
  }
}
