/** Fixed-width integers and big-endian byte strings, as wz-udprelay.c handles them. */
module Bytes {

  type byte = x: int | 0 <= x < 0x100
  type word = x: int | 0 <= x < 0x1_0000
  type addr = x: int | 0 <= x < 0x1_0000_0000

  /** The C type of the checksum accumulators: arithmetic on it must be shown not to wrap. */
  newtype uint32 = x: int | 0 <= x < 0x1_0000_0000

  /** (hi << 8) | lo */
  function Pair(hi: byte, lo: byte): (w: word) {
    var h: int := hi;
    h * 0x100 + lo
  }

  function Be16(w: word): (s: seq<byte>)
    ensures |s| == 2
  {
    [w / 0x100, w % 0x100]
  }

  function Be32(a: addr): (s: seq<byte>)
    ensures |s| == 4
  {
    Be16(a / 0x1_0000) + Be16(a % 0x1_0000)
  }

  /** (buf[at] << 8) | buf[at + 1] */
  function ReadBe16(buf: seq<byte>, at: nat): (w: word)
    requires at + 2 <= |buf|
  {
    Pair(buf[at], buf[at + 1])
  }

  /** read32be(buf + at) */
  function ReadBe32(buf: seq<byte>, at: nat): (a: addr)
    requires at + 4 <= |buf|
  {
    var hi: int := Pair(buf[at], buf[at + 1]);
    hi * 0x1_0000 + Pair(buf[at + 2], buf[at + 3])
  }

  lemma Be16RoundTrip(w: word, buf: seq<byte>, at: nat)
    requires at + 2 <= |buf| && buf[at..at + 2] == Be16(w)
    ensures ReadBe16(buf, at) == w
  {
  }

  lemma Be32RoundTrip(a: addr, buf: seq<byte>, at: nat)
    requires at + 4 <= |buf| && buf[at..at + 4] == Be32(a)
    ensures ReadBe32(buf, at) == a
  {
  }
}
