/**
 The Internet checksum of wz-udprelay.c. The C code adds 16-bit words into a 32-bit
 accumulator and folds the carries in at the end; RFC 1071 section 1 defines the sum by
 one's-complement additions, each with its own end-around carry. This module relates the two.
 */
module Checksum {
  import opened Bytes

  /** Plain sum of the big-endian 16-bit words of s, an odd last byte padded with zero. */
  function WordSum(s: seq<byte>): (n: nat)
  {
    if |s| == 0 then 0
    else if |s| == 1 then Pair(s[0], 0)
    else Pair(s[0], s[1]) + WordSum(s[2..])
  }

  /** The carry-folding loop `while (sum >> 16) sum = (sum & 0xffff) + (sum >> 16)`. */
  function Fold(n: nat): word
  {
    if n < 0x1_0000 then n else Fold(n % 0x1_0000 + n / 0x1_0000)
  }

  /** One's-complement addition of RFC 1071 section 1: the carry goes round the end. */
  function OnesAdd(a: word, b: word): word
  {
    if a + b < 0x1_0000 then a + b else a + b - 0xffff
  }

  /** One's-complement sum of RFC 1071 section 1, word after word. */
  function OnesSum(s: seq<byte>): word
  {
    if |s| == 0 then 0
    else if |s| == 1 then Pair(s[0], 0)
    else OnesAdd(Pair(s[0], s[1]), OnesSum(s[2..]))
  }

  /** Folding keeps the residue modulo 65535, and reaches 0 only from 0. */
  lemma {:induction false} FoldResidue(n: nat) returns (q: nat)
    ensures n == q * 0xffff + Fold(n)
    ensures Fold(n) == 0 ==> n == 0
  {
    if n < 0x1_0000 {
      q := 0;
    } else {
      var hi, lo := n / 0x1_0000, n % 0x1_0000;
      assert n == hi * 0x1_0000 + lo;
      q := FoldResidue(lo + hi);
      q := q + hi;
    }
  }

  /** A word other than 0 is determined by its residue. */
  lemma ResidueUnique(x: nat, p: nat, y: nat, q: nat)
    requires 1 <= x <= 0xffff && 1 <= y <= 0xffff
    requires x + p * 0xffff == y + q * 0xffff
    ensures x == y
  {
  }

  /** Deferring all carries to one fold gives the RFC's sum with immediate carries. */
  lemma {:induction false} DeferredCarries(s: seq<byte>)
    ensures Fold(WordSum(s)) == OnesSum(s)
  {
    if |s| >= 2 {
      DeferredCarries(s[2..]);
      FoldAdd(Pair(s[0], s[1]), WordSum(s[2..]));
    }
  }

  lemma FoldAdd(a: word, n: nat)
    ensures Fold(a + n) == OnesAdd(a, Fold(n))
  {
    var p := FoldResidue(n);
    var q := FoldResidue(a + n);
    if a + n > 0 {
      ResidueUnique(OnesAdd(a, Fold(n)), p + (if a + Fold(n) < 0x1_0000 then 0 else 1), Fold(a + n), q);
    }
  }

  lemma {:induction false} WordSumAppend(a: seq<byte>, b: seq<byte>)
    requires |a| % 2 == 0
    ensures WordSum(a + b) == WordSum(a) + WordSum(b)
  {
    if |a| == 0 {
      assert a + b == b;
    } else {
      WordSumAppend(a[2..], b);
      assert (a + b)[2..] == a[2..] + b;
    }
  }

  lemma {:induction false} WordSumBound(s: seq<byte>)
    ensures WordSum(s) <= (|s| + 1) / 2 * 0xffff
  {
    if |s| >= 2 {
      WordSumBound(s[2..]);
      assert (|s| + 1) / 2 == (|s[2..]| + 1) / 2 + 1;
    }
  }

  /**
   A receiver's check: once a checksum field holding zero is replaced by the complement of
   the sum, the one's-complement sum of the whole is all ones.
   */
  lemma ComplementVerifies(before: seq<byte>, after: seq<byte>, cs: word)
    requires |before| % 2 == 0
    requires cs == 0xffff - OnesSum(before + Be16(0) + after)
    ensures OnesSum(before + Be16(cs) + after) == 0xffff
  {
    var rest := WordSum(before) + WordSum(after);
    WordSumAround(before, after, 0);
    WordSumAround(before, after, cs);
    DeferredCarries(before + Be16(0) + after);
    DeferredCarries(before + Be16(cs) + after);
    FoldAdd(cs, rest);
  }

  lemma WordSumAround(before: seq<byte>, after: seq<byte>, w: word)
    requires |before| % 2 == 0
    ensures WordSum(before + Be16(w) + after) == WordSum(before) + w + WordSum(after)
  {
    WordSumAppend(before + Be16(w), after);
    WordSumAppend(before, Be16(w));
  }

  /** `while (sum >> 16) sum = (sum & 0xffff) + (sum >> 16); return ~sum`, on uint32_t. */
  method FoldComplement(start: uint32) returns (cs: word)
    ensures cs == 0xffff - Fold(start as int)
  {
    var sum := start;
    while sum / 0x1_0000 != 0
      invariant Fold(sum as int) == Fold(start as int)
      decreases sum
    {
      sum := sum % 0x1_0000 + sum / 0x1_0000;
    }
    cs := 0xffff - sum as int;
  }

  lemma WordSumSplit(s: seq<byte>, i: nat)
    requires i <= |s| && i % 2 == 0
    ensures WordSum(s) == WordSum(s[..i]) + WordSum(s[i..])
  {
    hide WordSum;
    assert s == s[..i] + s[i..];
    WordSumAppend(s[..i], s[i..]);
  }

  /** The words before position i and the word at i, of an even or an odd tail. */
  lemma WordSumStep(s: seq<byte>, i: nat)
    requires i < |s| && i % 2 == 0
    ensures i + 2 <= |s| ==>
              && WordSum(s[..i + 2]) == WordSum(s[..i]) + Pair(s[i], s[i + 1])
              && WordSum(s[..i + 2]) <= WordSum(s)
    ensures i + 1 == |s| ==> WordSum(s) == WordSum(s[..i]) + Pair(s[i], 0)
  {
    WordSumSplit(s, i);
    if i + 2 <= |s| {
      WordSumSplit(s, i + 2);
      WordSumSplit(s[..i + 2], i);
      assert s[..i + 2][..i] == s[..i];
      assert s[..i + 2][i..] == [s[i], s[i + 1]];
      WordSumOfTwo(s[i], s[i + 1]);
    } else {
      assert s[i..] == [s[i]];
    }
  }

  lemma WordSumOfTwo(a: byte, b: byte)
    ensures WordSum([a, b]) == Pair(a, b)
  {
  }

  /** Adds the words of s to a running uint32_t sum, as both checksum loops do. */
  method AddWords(start: uint32, s: seq<byte>) returns (sum: uint32)
    requires start as int + WordSum(s) < 0x1_0000_0000
    ensures sum as int == start as int + WordSum(s)
  {
    sum := start;
    var i := 0;
    while i < |s|
      invariant 0 <= i <= |s| + 1 && i % 2 == 0
      invariant sum as int == start as int + WordSum(s[..if i < |s| then i else |s|])
    {
      WordSumStep(s, i);
      assert s[..|s|] == s;
      sum := sum + Pair(s[i], if i + 1 < |s| then s[i + 1] else 0) as uint32;
      i := i + 2;
    }
    assert s[..|s|] == s;
  }

  /**
   v4_checksum. The uint32_t accumulator cannot wrap for any length up to 131074 bytes:
   65537 words of 0xffff add up to exactly 2^32 - 1.
   */
  method V4Checksum(data: array<byte>, len: nat) returns (cs: word)
    requires len <= data.Length && len <= 131074
    ensures cs == 0xffff - OnesSum(data[..len])
  {
    WordSumBound(data[..len]);
    var sum := AddWords(0, data[..len]);
    cs := FoldComplement(sum);
    DeferredCarries(data[..len]);
  }

  predicate AllOnes(s: seq<byte>) {
    forall i :: 0 <= i < |s| ==> s[i] == 0xff
  }

  lemma {:induction false} OnesWordSum(s: seq<byte>)
    requires AllOnes(s)
    ensures WordSum(s) == |s| / 2 * 0xffff + if |s| % 2 == 1 then 0xff00 else 0
  {
    if |s| >= 2 {
      OnesWordSum(s[2..]);
      assert |s| / 2 == |s[2..]| / 2 + 1;
    }
  }

  /** One byte more, and the accumulator of v4_checksum can wrap. */
  lemma LongerCanWrap(s: seq<byte>)
    requires AllOnes(s) && |s| == 131075
    ensures WordSum(s) >= 0x1_0000_0000
  {
    hide WordSum;
    OnesWordSum(s);
  }
}
