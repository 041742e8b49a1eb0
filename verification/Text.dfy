/** The string operations of Python that the strategy code relies on. */
module Text {

  predicate StartsWith(s: string, prefix: string) {
    prefix <= s
  }

  /** xs.split(sep), for characters of a string or tokens of a command line alike. */
  function SplitOn<T(==)>(xs: seq<T>, sep: T): (r: seq<seq<T>>)
    ensures |r| >= 1
  {
    if xs == [] then [[]]
    else
      var r := SplitOn(xs[1..], sep);
      if xs[0] == sep then [[]] + r else [[xs[0]] + r[0]] + r[1..]
  }

  /** sep.join(parts), with a one-element separator. */
  function JoinWith<T>(parts: seq<seq<T>>, sep: T): seq<T> {
    if parts == [] then []
    else if |parts| == 1 then parts[0]
    else parts[0] + [sep] + JoinWith(parts[1..], sep)
  }

  function Count<T(==)>(xs: seq<T>, x: T): nat {
    if xs == [] then 0 else (if xs[0] == x then 1 else 0) + Count(xs[1..], x)
  }

  lemma {:induction false} CountAppend<T>(a: seq<T>, b: seq<T>, x: T)
    ensures Count(a + b, x) == Count(a, x) + Count(b, x)
  {
    if a == [] {
      assert a + b == b;
    } else {
      CountAppend(a[1..], b, x);
      assert (a + b)[1..] == a[1..] + b;
    }
  }

  lemma {:induction false} CountZero<T>(xs: seq<T>, x: T)
    ensures Count(xs, x) == 0 <==> x !in xs
  {
    if xs != [] {
      CountZero(xs[1..], x);
      assert xs == [xs[0]] + xs[1..];
    }
  }

  lemma {:induction false} SplitCount<T>(xs: seq<T>, sep: T)
    ensures |SplitOn(xs, sep)| == Count(xs, sep) + 1
  {
    if xs != [] {
      SplitCount(xs[1..], sep);
    }
  }

  /** A part without separators in front of a separator is split off whole. */
  lemma {:induction false} SplitPart<T>(part: seq<T>, sep: T, rest: seq<T>)
    requires sep !in part
    ensures SplitOn(part + [sep] + rest, sep) == [part] + SplitOn(rest, sep)
    ensures SplitOn(part, sep) == [part]
  {
    var xs := part + [sep] + rest;
    if part == [] {
      assert xs[1..] == rest;
    } else {
      SplitPart(part[1..], sep, rest);
      assert xs[1..] == part[1..] + [sep] + rest;
      assert part == [part[0]] + part[1..];
    }
  }

  /** The parts once one more element follows: a separator opens a new part. */
  function Extended<T(==)>(r: seq<seq<T>>, sep: T, x: T): seq<seq<T>>
    requires |r| >= 1
  {
    if x == sep then r + [[]] else r[..|r| - 1] + [r[|r| - 1] + [x]]
  }

  lemma ExtendedTail<T>(p: seq<T>, r: seq<seq<T>>, sep: T, x: T)
    requires |r| >= 1
    ensures [p] + Extended(r, sep, x) == Extended([p] + r, sep, x)
  {
  }

  lemma ExtendedHead<T>(y: T, r: seq<seq<T>>, sep: T, x: T)
    requires |r| >= 1
    ensures var e := Extended(r, sep, x);
            [[y] + e[0]] + e[1..] == Extended([[y] + r[0]] + r[1..], sep, x)
  {
    assert [y] + (r[0] + [x]) == [y] + r[0] + [x];
  }

  lemma {:induction false} SplitSnoc<T>(xs: seq<T>, sep: T, x: T)
    ensures SplitOn(xs + [x], sep) == Extended(SplitOn(xs, sep), sep, x)
  {
    if xs == [] {
      assert xs + [x] == [x] && [x][1..] == xs;
      var none: seq<T> := [];
      assert SplitOn([x][1..], sep) == [none];
      assert Extended([none], sep, x) == if x == sep then [none, none] else [[x]];
      assert [x] + none == [x];
    } else {
      SplitSnoc(xs[1..], sep, x);
      assert (xs + [x])[1..] == xs[1..] + [x];
      ExtendedTail([], SplitOn(xs[1..], sep), sep, x);
      ExtendedHead(xs[0], SplitOn(xs[1..], sep), sep, x);
    }
  }

  lemma JoinTwo<T>(a: seq<T>, b: seq<T>, sep: T)
    ensures JoinWith([a, b], sep) == a + [sep] + b
  {
  }

  lemma {:induction false} JoinSnoc<T>(parts: seq<seq<T>>, sep: T, part: seq<T>)
    ensures JoinWith(parts + [part], sep) == (if parts == [] then [] else JoinWith(parts, sep) + [sep]) + part
  {
    if parts == [] {
      assert parts + [part] == [part];
    } else {
      assert (parts + [part])[1..] == parts[1..] + [part];
      JoinSnoc(parts[1..], sep, part);
      if |parts| == 1 {
        assert JoinWith(parts[1..] + [part], sep) == part;
      }
    }
  }

  ghost predicate Free<T(!new)>(parts: seq<seq<T>>, sep: T) {
    forall i :: 0 <= i < |parts| ==> sep !in parts[i]
  }

  lemma {:induction false} SplitOfJoin<T(!new)>(parts: seq<seq<T>>, sep: T)
    requires parts != [] && Free(parts, sep)
    ensures SplitOn(JoinWith(parts, sep), sep) == parts
  {
    hide SplitOn;
    assert sep !in parts[0];
    if |parts| == 1 {
      SplitPart(parts[0], sep, []);
    } else {
      assert forall i :: 0 <= i < |parts[1..]| ==> parts[1..][i] == parts[i + 1];
      SplitOfJoin(parts[1..], sep);
      SplitPart(parts[0], sep, JoinWith(parts[1..], sep));
    }
  }

  lemma {:induction false} JoinCount<T(!new)>(parts: seq<seq<T>>, sep: T)
    requires parts != []
    ensures Count(JoinWith(parts, sep), sep) >= |parts| - 1
    ensures Count(JoinWith(parts, sep), sep) == |parts| - 1 ==> Free(parts, sep)
  {
    CountZero(parts[0], sep);
    if |parts| > 1 {
      JoinCount(parts[1..], sep);
      CountAppend(parts[0] + [sep], JoinWith(parts[1..], sep), sep);
      CountAppend(parts[0], [sep], sep);
      assert Count([sep], sep) == 1;
      assert parts == [parts[0]] + parts[1..];
    }
  }

  /** Splitting recovers joined parts exactly when none of them holds a separator. */
  lemma SplitJoinIff<T(!new)>(parts: seq<seq<T>>, sep: T)
    requires parts != []
    ensures SplitOn(JoinWith(parts, sep), sep) == parts <==> Free(parts, sep)
    ensures |SplitOn(JoinWith(parts, sep), sep)| == |parts| <==> Free(parts, sep)
  {
    SplitCount(JoinWith(parts, sep), sep);
    JoinCount(parts, sep);
    if Free(parts, sep) {
      SplitOfJoin(parts, sep);
    }
  }

  lemma {:induction false} SplitIsFree<T(!new)>(xs: seq<T>, sep: T)
    ensures Free(SplitOn(xs, sep), sep)
  {
    if xs != [] {
      SplitIsFree(xs[1..], sep);
    }
  }

  /** Splitting keeps every element but the separators. */
  lemma {:induction false} SplitMember<T(!new)>(xs: seq<T>, sep: T, x: T)
    requires x != sep
    ensures x in xs <==> exists i :: 0 <= i < |SplitOn(xs, sep)| && x in SplitOn(xs, sep)[i]
  {
    if xs != [] {
      SplitMember(xs[1..], sep, x);
      var r := SplitOn(xs[1..], sep);
      var r' := SplitOn(xs, sep);
      assert xs == [xs[0]] + xs[1..];
      if i :| 0 <= i < |r| && x in r[i] {
        if xs[0] == sep {
          assert r'[i + 1] == r[i];
        } else {
          assert i > 0 ==> r'[i] == r[i];
          assert x in r'[i];
        }
      }
      if x == xs[0] {
        assert x in r'[0];
      }
    }
  }

  lemma {:induction false} JoinMember<T(!new)>(parts: seq<seq<T>>, sep: T, x: T)
    requires x != sep
    ensures x in JoinWith(parts, sep) <==> exists i :: 0 <= i < |parts| && x in parts[i]
  {
    if |parts| > 1 {
      JoinMember(parts[1..], sep, x);
      assert parts == [parts[0]] + parts[1..];
      if i :| 0 <= i < |parts| && x in parts[i] {
        assert i > 0 ==> parts[i] == parts[1..][i - 1];
      }
    }
  }

  /** s.partition(c): the position of the first c, or the length. */
  function IndexOf(s: string, c: char): (i: nat)
    ensures i <= |s|
    ensures i < |s| ==> s[i] == c
    ensures c !in s[..i]
  {
    if s == "" || s[0] == c then 0
    else
      assert s[..1 + IndexOf(s[1..], c)] == [s[0]] + s[1..][..IndexOf(s[1..], c)];
      1 + IndexOf(s[1..], c)
  }

  function Head(s: string, c: char): string {
    s[..IndexOf(s, c)]
  }

  function Tail(s: string, c: char): string {
    if IndexOf(s, c) < |s| then s[IndexOf(s, c) + 1..] else ""
  }

  lemma PartitionOf(a: string, c: char, b: string)
    requires c !in a
    ensures Head(a + [c] + b, c) == a && Tail(a + [c] + b, c) == b
    ensures Head(a, c) == a && Tail(a, c) == ""
  {
    IndexOfFirst(a, c, b);
  }

  lemma {:induction false} IndexOfFirst(a: string, c: char, b: string)
    requires c !in a
    ensures IndexOf(a + [c] + b, c) == |a| == IndexOf(a, c)
  {
    if a != "" {
      IndexOfFirst(a[1..], c, b);
      assert (a + [c] + b)[1..] == a[1..] + [c] + b;
      assert a == [a[0]] + a[1..];
    }
  }

  predicate Contains(s: string, sub: string) {
    sub <= s || (s != "" && Contains(s[1..], sub))
  }

  /** sub stands in s at some position. */
  ghost predicate StandsIn(s: string, sub: string) {
    exists i :: StandsAt(s, sub, i)
  }

  predicate StandsAt(s: string, sub: string, i: int) {
    0 <= i <= |s| - |sub| && s[i..i + |sub|] == sub
  }

  lemma StandsInFront(s: string, sub: string)
    ensures StandsAt(s, sub, 0) <==> sub <= s
  {
  }

  lemma StandsLater(s: string, sub: string, i: int)
    requires s != "" && i >= 0
    ensures StandsAt(s, sub, i + 1) <==> StandsAt(s[1..], sub, i)
  {
    if i + 1 + |sub| <= |s| {
      assert s[1..][i..i + |sub|] == s[i + 1..i + 1 + |sub|];
    }
  }

  lemma NeverBefore(s: string, sub: string, i: int)
    requires StandsAt(s, sub, i)
    ensures i >= 0 && (s == "" ==> i == 0)
  {
  }

  lemma {:induction false} ContainsIff(s: string, sub: string)
    ensures Contains(s, sub) <==> StandsIn(s, sub)
  {
    hide StandsAt;
    StandsInFront(s, sub);
    if s != "" {
      ContainsIff(s[1..], sub);
      if i :| StandsAt(s[1..], sub, i) {
        NeverBefore(s[1..], sub, i);
        StandsLater(s, sub, i);
      }
    }
    if i :| StandsAt(s, sub, i) {
      NeverBefore(s, sub, i);
      if i > 0 {
        StandsLater(s, sub, i - 1);
      }
    }
  }

  function UpperChar(c: char): char {
    if 'a' <= c <= 'z' then c - 'a' + 'A' else c
  }

  /** s.upper(), on ASCII letters. */
  function Upper(s: string): string {
    seq(|s|, i requires 0 <= i < |s| => UpperChar(s[i]))
  }
}
