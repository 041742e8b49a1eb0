/**
 The packets tun_reader accepts, written out field by field from RFC 791 section 3.1 and
 RFC 768, and the SOCKS5 datagrams of section 7 of RFC 1928: the parsers accept exactly these
 and read exactly their fields.
 */
module WireFormat {
  import opened Bytes
  import opened Wrappers
  import opened Packets

  /** What a packet holds beside its endpoints and payload; the parser looks at none of it but the header length. */
  datatype Wire = Wire(
    words: nat,             // header length in 32-bit words
    tos: byte,
    identTtl: seq<byte>,    // identification, flags and fragment offset, time to live
    checksum: seq<byte>,
    options: seq<byte>,
    udpLengthSum: seq<byte>,
    trailing: seq<byte>)    // bytes after the total length

  ghost predicate Proper(w: Wire, u: Udp) {
    && 5 <= w.words <= 15
    && |w.identTtl| == 5 && |w.checksum| == 2 && |w.options| == 4 * w.words - 20 && |w.udpLengthSum| == 4
    && 4 * w.words + 8 + |u.payload| <= 65535
  }

  function Front(w: Wire, u: Udp): (s: seq<byte>)
    requires 5 <= w.words <= 15 && |w.identTtl| == 5 && |w.checksum| == 2 && 4 * w.words + 8 + |u.payload| <= 65535
    ensures |s| == 20
  {
    [0x40 + w.words, w.tos] + Be16(4 * w.words + 8 + |u.payload|) + w.identTtl + [17] + w.checksum + Be32(u.src) + Be32(u.dst)
  }

  function Ports(w: Wire, u: Udp): (s: seq<byte>)
    requires |w.udpLengthSum| == 4
    ensures |s| == 8
  {
    Be16(u.sport) + Be16(u.dport) + w.udpLengthSum
  }

  /** The packet's bytes. */
  ghost function Written(w: Wire, u: Udp): seq<byte>
    requires Proper(w, u)
  {
    Front(w, u) + w.options + Ports(w, u) + u.payload + w.trailing
  }

  // ---- every such packet is read as what it says ----

  lemma FrontFields(w: Wire, u: Udp)
    requires Proper(w, u)
    ensures var f := Front(w, u);
            && f[0] == 0x40 + w.words && f[2..4] == Be16(4 * w.words + 8 + |u.payload|) && f[9] == 17
            && f[12..16] == Be32(u.src) && f[16..20] == Be32(u.dst)
  {
    hide Be16, Be32;
  }

  lemma PortsFields(w: Wire, u: Udp)
    requires Proper(w, u)
    ensures Ports(w, u)[0..2] == Be16(u.sport) && Ports(w, u)[2..4] == Be16(u.dport)
  {
    hide Be16;
  }

  lemma Inside(a: seq<byte>, b: seq<byte>, c: seq<byte>, lo: nat, hi: nat)
    requires lo <= hi <= |b|
    ensures (a + b + c)[|a| + lo..|a| + hi] == b[lo..hi]
  {
  }

  /** Where the fields are: the ports and the payload follow the options. */
  lemma WrittenFields(w: Wire, u: Udp)
    requires Proper(w, u)
    ensures var s, ihl := Written(w, u), 4 * w.words;
            && |s| == ihl + 8 + |u.payload| + |w.trailing|
            && s[0] == 0x40 + w.words && s[2..4] == Be16(ihl + 8 + |u.payload|) && s[9] == 17
            && s[12..16] == Be32(u.src) && s[16..20] == Be32(u.dst)
            && s[ihl..ihl + 2] == Be16(u.sport) && s[ihl + 2..ihl + 4] == Be16(u.dport)
            && s[ihl + 8..ihl + 8 + |u.payload|] == u.payload
  {
    hide Be16, Be32, Front, Ports;
    var f, p, none := Front(w, u), Ports(w, u), [];
    var s := Written(w, u);
    FrontFields(w, u);
    PortsFields(w, u);
    var rest := w.options + p + u.payload + w.trailing;
    assert s == none + f + rest;
    Inside(none, f, rest, 2, 4);
    Inside(none, f, rest, 12, 16);
    Inside(none, f, rest, 16, 20);
    assert s == (f + w.options) + p + (u.payload + w.trailing);
    Inside(f + w.options, p, u.payload + w.trailing, 0, 2);
    Inside(f + w.options, p, u.payload + w.trailing, 2, 4);
    assert s == (f + w.options + p) + u.payload + w.trailing;
    Inside(f + w.options + p, u.payload, w.trailing, 0, |u.payload|);
  }

  lemma Nibbles(words: nat)
    requires words <= 15
    ensures (0x40 + words) / 0x10 == 4 && (0x40 + words) % 0x10 == words
  {
  }

  lemma ParseWritten(w: Wire, u: Udp)
    requires Proper(w, u)
    ensures ParseTun(Written(w, u)) == Some(u)
  {
    hide Written, Be16, Be32, ReadBe16, ReadBe32;
    var s, ihl := Written(w, u), 4 * w.words;
    WrittenFields(w, u);
    Nibbles(w.words);
    Be16RoundTrip(ihl + 8 + |u.payload|, s, 2);
    Be32RoundTrip(u.src, s, 12);
    Be32RoundTrip(u.dst, s, 16);
    Be16RoundTrip(u.sport, s, ihl);
    Be16RoundTrip(u.dport, s, ihl + 2);
  }

  // ---- nothing else is accepted ----

  lemma PairSplits(hi: byte, lo: byte)
    ensures Be16(Pair(hi, lo)) == [hi, lo]
  {
  }

  lemma ReadSplits16(buf: seq<byte>, at: nat)
    requires at + 2 <= |buf|
    ensures Be16(ReadBe16(buf, at)) == buf[at..at + 2]
  {
    hide Be16, Pair;
    PairSplits(buf[at], buf[at + 1]);
  }

  lemma ReadSplits32(buf: seq<byte>, at: nat)
    requires at + 4 <= |buf|
    ensures Be32(ReadBe32(buf, at)) == buf[at..at + 4]
  {
    hide Be16, Pair;
    PairSplits(buf[at], buf[at + 1]);
    PairSplits(buf[at + 2], buf[at + 3]);
    assert buf[at..at + 4] == [buf[at], buf[at + 1]] + [buf[at + 2], buf[at + 3]];
  }

  /** The remaining fields of an accepted packet. */
  function FieldsOf(buf: seq<byte>, total: nat): (w: Wire)
    requires |buf| >= 28 && 20 <= buf[0] % 0x10 * 4 && buf[0] % 0x10 * 4 + 8 <= total <= |buf|
  {
    var ihl := buf[0] % 0x10 * 4;
    Wire(buf[0] % 0x10, buf[1], buf[4..9], buf[10..12], buf[20..ihl], buf[ihl + 4..ihl + 8], buf[total..])
  }

  /** The bytes fall into the parts of a packet. */
  ghost predicate FallsInto(buf: seq<byte>, u: Udp, w: Wire, ihl: nat, total: nat) {
    && Proper(w, u) && 20 <= ihl && ihl + 8 <= total <= |buf|
    && buf[..20] == Front(w, u) && buf[20..ihl] == w.options && buf[ihl..ihl + 8] == Ports(w, u)
    && buf[ihl + 8..total] == u.payload && buf[total..] == w.trailing
  }

  ghost predicate HasParts(buf: seq<byte>, u: Udp) {
    exists w, ihl, total :: FallsInto(buf, u, w, ihl, total)
  }

  lemma PartsOf(buf: seq<byte>, u: Udp)
    requires ParseTun(buf) == Some(u)
    ensures HasParts(buf, u)
  {
    hide Be16, Be32, ReadBe16, ReadBe32;
    var total: int := ReadBe16(buf, 2);
    var ihl := buf[0] % 0x10 * 4;
    var w := FieldsOf(buf, total);
    ReadSplits16(buf, 2);
    ReadSplits32(buf, 12);
    ReadSplits32(buf, 16);
    ReadSplits16(buf, ihl);
    ReadSplits16(buf, ihl + 2);
    assert total == 4 * w.words + 8 + |u.payload|;
    assert buf[..20] == [buf[0], buf[1]] + buf[2..4] + buf[4..9] + [buf[9]] + buf[10..12] + buf[12..16] + buf[16..20];
    assert buf[ihl..ihl + 8] == buf[ihl..ihl + 2] + buf[ihl + 2..ihl + 4] + buf[ihl + 4..ihl + 8];
    assert FallsInto(buf, u, w, ihl, total);
  }

  lemma WrittenOf(buf: seq<byte>, u: Udp) returns (w: Wire)
    requires ParseTun(buf) == Some(u)
    ensures Proper(w, u) && Written(w, u) == buf
  {
    hide Front, Ports, ParseTun;
    PartsOf(buf, u);
    var v, ihl: nat, total: nat :| FallsInto(buf, u, v, ihl, total);
    w := v;
    assert buf == buf[..20] + buf[20..ihl] + buf[ihl..ihl + 8] + buf[ihl + 8..total] + buf[total..];
  }

  /** The bytes are those of a packet with u's endpoints and payload, whatever else it holds. */
  ghost predicate IsPacket(buf: seq<byte>, u: Udp) {
    exists w :: Proper(w, u) && Written(w, u) == buf
  }

  /**
   tun_reader accepts exactly the bytes that are such a packet, of any header length, with any
   options, any values in the fields it passes over and anything behind the total length, and
   it reads the packet's own endpoints and payload.
   */
  lemma ParseTunIff(buf: seq<byte>, u: Udp)
    ensures ParseTun(buf) == Some(u) <==> IsPacket(buf, u)
  {
    hide ParseTun, Written;
    if ParseTun(buf) == Some(u) {
      var w := WrittenOf(buf, u);
    }
    if IsPacket(buf, u) {
      var w :| Proper(w, u) && Written(w, u) == buf;
      ParseWritten(w, u);
    }
  }

  /** It skips exactly the bytes that are no such packet. */
  lemma SkippedIff(buf: seq<byte>)
    ensures ParseTun(buf) == None <==> forall u :: !IsPacket(buf, u)
  {
    hide ParseTun, IsPacket;
    if ParseTun(buf).Some? {
      ParseTunIff(buf, ParseTun(buf).value);
    }
    forall u | IsPacket(buf, u)
      ensures ParseTun(buf) == Some(u)
    {
      ParseTunIff(buf, u);
    }
  }

  // ---- SOCKS5 datagrams ----

  /** Two reserved bytes, no fragment, an IPv4 address, a port, and the data. */
  ghost predicate IsSocksDatagram(buf: seq<byte>, r: Reply) {
    exists a: byte, b: byte :: buf == SocksBytes(a, b, r)
  }

  function SocksBytes(a: byte, b: byte, r: Reply): seq<byte> {
    [a, b, 0, 1] + Be32(r.tip) + Be16(r.tport) + r.payload
  }

  lemma ParseSocks(a: byte, b: byte, r: Reply)
    ensures ParseReply(SocksBytes(a, b, r)) == Some(r)
  {
    hide Be16, Be32, ReadBe16, ReadBe32;
    var s := SocksBytes(a, b, r);
    assert s[4..8] == Be32(r.tip) && s[8..10] == Be16(r.tport) && s[10..] == r.payload;
    Be32RoundTrip(r.tip, s, 4);
    Be16RoundTrip(r.tport, s, 8);
  }

  /** The worker passes on exactly the unfragmented IPv4 datagrams, whatever the reserved bytes. */
  lemma ParseReplyIff(buf: seq<byte>, r: Reply)
    ensures ParseReply(buf) == Some(r) <==> IsSocksDatagram(buf, r)
  {
    hide Be16, Be32, ReadBe16, ReadBe32;
    if ParseReply(buf) == Some(r) {
      ReadSplits32(buf, 4);
      ReadSplits16(buf, 8);
      assert buf == [buf[0], buf[1], buf[2], buf[3]] + buf[4..8] + buf[8..10] + buf[10..];
      assert buf == SocksBytes(buf[0], buf[1], r);
    }
    if IsSocksDatagram(buf, r) {
      var a: byte, b: byte :| buf == SocksBytes(a, b, r);
      ParseSocks(a, b, r);
    }
  }

  /** relay_send writes such a datagram with the reserved bytes zero, and gives up exactly above 65535 bytes. */
  lemma FrameIff(tip: addr, tport: word, payload: seq<byte>, f: seq<byte>)
    ensures Frame(tip, tport, payload) == Some(f) <==>
            |f| <= 65535 && f == SocksBytes(0, 0, Reply(tip, tport, payload))
  {
    hide Be16, Be32;
    assert |SocksBytes(0, 0, Reply(tip, tport, payload))| == 10 + |payload|;
  }

  /** The header build_packet writes, byte by byte. */
  lemma BuiltHeader(u: Udp)
    requires 28 + |u.payload| <= MAX_PACKET
    ensures var d := Datagram(u);
            && d[0..2] == [0x45, 0] && d[2..4] == Be16(28 + |u.payload|)
            && d[4..8] == [0, 0, 0, 0] && d[8..10] == [64, 17]
            && d[12..16] == Be32(u.src) && d[16..20] == Be32(u.dst)
            && d[20..22] == Be16(u.sport) && d[22..24] == Be16(u.dport) && d[24..26] == Be16(8 + |u.payload|)
            && d[28..] == u.payload
  {
    hide Be16, Be32, IpPart, UdpPart;
    var d := Datagram(u);
    assert d == [] + IpPart(u) + UdpPart(u) && d == IpPart(u) + UdpPart(u) + [];
    BuiltIp(u);
    BuiltUdp(u);
    Inside([], IpPart(u), UdpPart(u), 0, 2);
    Inside([], IpPart(u), UdpPart(u), 2, 4);
    Inside([], IpPart(u), UdpPart(u), 4, 8);
    Inside([], IpPart(u), UdpPart(u), 8, 10);
    Inside([], IpPart(u), UdpPart(u), 12, 16);
    Inside([], IpPart(u), UdpPart(u), 16, 20);
    Inside(IpPart(u), UdpPart(u), [], 0, 2);
    Inside(IpPart(u), UdpPart(u), [], 2, 4);
    Inside(IpPart(u), UdpPart(u), [], 4, 6);
    Inside(IpPart(u), UdpPart(u), [], 8, |UdpPart(u)|);
  }

  lemma BuiltIp(u: Udp)
    requires 28 + |u.payload| <= MAX_PACKET
    ensures var h := IpPart(u);
            && h[0..2] == [0x45, 0] && h[2..4] == Be16(28 + |u.payload|)
            && h[4..8] == [0, 0, 0, 0] && h[8..10] == [64, 17]
            && h[12..16] == Be32(u.src) && h[16..20] == Be32(u.dst)
  {
    hide Be16, Be32;
  }

  lemma BuiltUdp(u: Udp)
    requires 28 + |u.payload| <= MAX_PACKET
    ensures var s := UdpPart(u);
            && s[0..2] == Be16(u.sport) && s[2..4] == Be16(u.dport) && s[4..6] == Be16(8 + |u.payload|)
            && s[8..] == u.payload
  {
    hide Be16, UdpCs;
  }
}
