/**
 The two tokenizers the strategy code calls: shlex.split (POSIX rules, no comments) and
 str.split, with what each makes of tokens joined by single spaces.
 */
module Shlex {
  import opened Text
  import opened Wrappers

  datatype LexState = Between | InWord | InSingle | InDouble | EscapedInWord | EscapedInDouble

  predicate ShellSpace(c: char) {
    c == ' ' || c == '\t' || c == '\r' || c == '\n'
  }

  /** shlex's automaton: the tokens of s, given its state and the token being built. */
  function Lex(s: string, st: LexState, token: string): Option<seq<string>> {
    if s == "" then
      match st
      case Between => Some([])
      case InWord => Some([token])
      case _ => None   // no closing quotation, or no escaped character
    else
      var c, rest := s[0], s[1..];
      match st
      case Between =>
        if ShellSpace(c) then Lex(rest, Between, "") else Lex(rest, Opens(c), Kept(c))
      case InWord =>
        if ShellSpace(c) then Emit(token, Lex(rest, Between, "")) else Lex(rest, Opens(c), token + Kept(c))
      case InSingle => if c == '\'' then Lex(rest, InWord, token) else Lex(rest, InSingle, token + [c])
      case InDouble =>
        if c == '"' then Lex(rest, InWord, token)
        else if c == '\\' then Lex(rest, EscapedInDouble, token)
        else Lex(rest, InDouble, token + [c])
      case EscapedInWord => Lex(rest, InWord, token + [c])
      case EscapedInDouble => Lex(rest, InDouble, token + if c == '\\' || c == '"' then [c] else ['\\', c])
  }

  /** The state a character of a word leads to; quotes and backslashes are not part of the token. */
  function Opens(c: char): LexState {
    if c == '\'' then InSingle else if c == '"' then InDouble else if c == '\\' then EscapedInWord else InWord
  }

  function Kept(c: char): string {
    if Opens(c) == InWord then [c] else ""
  }

  function Emit(token: string, rest: Option<seq<string>>): Option<seq<string>> {
    if rest.None? then None else Some([token] + rest.value)
  }

  /** shlex.split(s); None where it raises ValueError. */
  function Split(s: string): Option<seq<string>> {
    Lex(s, Between, "")
  }

  // ---- str.split ----

  /** The characters Python's str.isspace accepts. */
  predicate IsSpace(c: char) {
    var n := c as int;
    9 <= n <= 13 || 28 <= n <= 32 || n == 0x85 || n == 0xa0 || n == 0x1680 || 0x2000 <= n <= 0x200a
    || n == 0x2028 || n == 0x2029 || n == 0x202f || n == 0x205f || n == 0x3000
  }

  /** Tab to carriage return, the four separators, the space, and the spaces of Unicode. */
  lemma SpacesAre(c: char)
    ensures IsSpace(c) <==>
            c as int in {9, 10, 11, 12, 13, 28, 29, 30, 31, 32, 133, 160, 5760, 8192, 8193, 8194, 8195, 8196, 8197,
                         8198, 8199, 8200, 8201, 8202, 8232, 8233, 8239, 8287, 12288}
  {
  }

  /** s.split(), given the word being built. */
  function WordsFrom(s: string, word: string): seq<string> {
    if s == "" then Flush(word)
    else if IsSpace(s[0]) then Flush(word) + WordsFrom(s[1..], "")
    else WordsFrom(s[1..], word + [s[0]])
  }

  function Flush(word: string): seq<string> {
    if word == "" then [] else [word]
  }

  /** " ".join(s.split()) */
  function Normalised(s: string): string {
    JoinWith(WordsFrom(s, ""), ' ')
  }

  // ---- which tokens survive being joined and split again ----

  /** What shlex takes into a word as it stands: not one of its spaces, no quote, no backslash. */
  predicate ShellPlainChar(c: char) {
    !ShellSpace(c) && Opens(c) == InWord
  }

  predicate ShellPlain(t: string) {
    t != "" && forall i :: 0 <= i < |t| ==> ShellPlainChar(t[i])
  }

  predicate AllShellPlain(ts: seq<string>) {
    forall i :: 0 <= i < |ts| ==> ShellPlain(ts[i])
  }

  lemma {:induction false} LexWord(t: string, token: string, rest: string)
    requires forall i :: 0 <= i < |t| ==> ShellPlainChar(t[i])
    ensures Lex(t + rest, InWord, token) == Lex(rest, InWord, token + t)
  {
    if t == "" {
      assert t + rest == rest && token + t == token;
    } else {
      assert ShellPlainChar(t[0]);
      assert (t + rest)[1..] == t[1..] + rest;
      LexWord(t[1..], token + [t[0]], rest);
      assert token + [t[0]] + t[1..] == token + t;
    }
  }

  lemma LexPlain(t: string, rest: string)
    requires ShellPlain(t)
    ensures Lex(t + rest, Between, "") == Lex(rest, InWord, t)
  {
    assert ShellPlainChar(t[0]);
    assert (t + rest)[1..] == t[1..] + rest;
    LexWord(t[1..], [t[0]], rest);
    assert [t[0]] + t[1..] == t;
  }

  /** shlex.split undoes joining shell-plain tokens with spaces. */
  lemma {:induction false} SplitOfJoined(ts: seq<string>)
    requires AllShellPlain(ts)
    ensures Split(JoinWith(ts, ' ')) == Some(ts)
  {
    if ts != [] {
      var t := ts[0];
      if |ts| == 1 {
        LexPlain(t, "");
        assert t + "" == t && ts == [t];
      } else {
        var rest := JoinWith(ts[1..], ' ');
        SplitOfJoined(ts[1..]);
        LexPlain(t, [' '] + rest);
        assert t + [' '] + rest == t + ([' '] + rest);
        assert ([' '] + rest)[1..] == rest;
        assert ts == [t] + ts[1..];
      }
    }
  }

  /** The characters of the tokens, and one more for each token. */
  function Weight(ts: seq<string>): nat {
    if ts == [] then 0 else |ts[0]| + 1 + Weight(ts[1..])
  }

  lemma {:induction false} JoinedLength(ts: seq<string>)
    requires ts != []
    ensures |JoinWith(ts, ' ')| + 1 == Weight(ts)
  {
    if |ts| > 1 {
      JoinedLength(ts[1..]);
    }
  }

  /** The token being built is plain so far; between words there is none. */
  predicate PlainSoFar(st: LexState, token: string) {
    match st case Between => token == "" case InWord => ShellPlain(token) case _ => false
  }

  /**
   A text of n characters yields tokens of weight at most n + 1, and reaches that only if it
   has neither quotes nor backslashes, so that every token is shell-plain.
   */
  lemma {:induction false} LexWeight(s: string, st: LexState, token: string)
    requires Lex(s, st, token).Some? && (st == Between ==> token == "")
    ensures var out := Lex(s, st, token).value;
            && Weight(out) <= |token| + |s| + (if st == InSingle || st == InDouble then 0 else 1)
            && (PlainSoFar(st, token) && Weight(out) == |token| + |s| + 1 ==> AllShellPlain(out))
  {
    if s != "" {
      var c, rest := s[0], s[1..];
      match st
      case Between =>
        if ShellSpace(c) { LexWeight(rest, Between, ""); } else { LexWeight(rest, Opens(c), Kept(c)); }
      case InWord =>
        if ShellSpace(c) { LexWeight(rest, Between, ""); } else { LexWeight(rest, Opens(c), token + Kept(c)); }
      case InSingle =>
        if c == '\'' { LexWeight(rest, InWord, token); } else { LexWeight(rest, InSingle, token + [c]); }
      case InDouble =>
        if c == '"' { LexWeight(rest, InWord, token); }
        else if c == '\\' { LexWeight(rest, EscapedInDouble, token); }
        else { LexWeight(rest, InDouble, token + [c]); }
      case EscapedInWord => LexWeight(rest, InWord, token + [c]);
      case EscapedInDouble => LexWeight(rest, InDouble, token + if c == '\\' || c == '"' then [c] else ['\\', c]);
    }
  }

  /** Tokens joined with spaces split into themselves exactly when all of them are shell-plain. */
  lemma SplitOfJoinedIff(ts: seq<string>)
    ensures Split(JoinWith(ts, ' ')) == Some(ts) <==> AllShellPlain(ts)
  {
    hide Lex;
    if AllShellPlain(ts) {
      SplitOfJoined(ts);
    } else if Split(JoinWith(ts, ' ')) == Some(ts) {
      LexWeight(JoinWith(ts, ' '), Between, "");
      JoinedLength(ts);
    }
  }

  // ---- tokens that may hold spaces, but neither quotes nor backslashes ----

  predicate Unquoted(t: string) {
    forall i :: 0 <= i < |t| ==> Opens(t[i]) == InWord
  }

  predicate AllUnquoted(ts: seq<string>) {
    forall i :: 0 <= i < |ts| ==> Unquoted(ts[i])
  }

  /** The pieces of a text between shlex's spaces, given the piece being built. */
  function ShellWords(s: string, word: string): seq<string> {
    if s == "" then Flush(word)
    else if ShellSpace(s[0]) then Flush(word) + ShellWords(s[1..], "")
    else ShellWords(s[1..], word + [s[0]])
  }

  function Pieces(ts: seq<string>): seq<string> {
    if ts == [] then [] else ShellWords(ts[0], "") + Pieces(ts[1..])
  }

  lemma {:induction false} LexUnquoted(s: string, token: string)
    requires Unquoted(s)
    ensures Lex(s, if token == "" then Between else InWord, token) == Some(ShellWords(s, token))
  {
    if s != "" {
      assert Opens(s[0]) == InWord;
      if ShellSpace(s[0]) {
        LexUnquoted(s[1..], "");
        assert Flush("") + ShellWords(s[1..], "") == ShellWords(s[1..], "");
      } else {
        LexUnquoted(s[1..], token + [s[0]]);
        assert "" + [s[0]] == [s[0]] == Kept(s[0]);
      }
    }
  }

  lemma {:induction false} ShellWordsJoin(a: string, b: string, word: string)
    ensures ShellWords(a + [' '] + b, word) == ShellWords(a, word) + ShellWords(b, "")
  {
    var s := a + [' '] + b;
    if a == "" {
      assert s[1..] == b;
    } else {
      assert s[1..] == a[1..] + [' '] + b;
      ShellWordsJoin(a[1..], b, if ShellSpace(a[0]) then "" else word + [a[0]]);
    }
  }

  lemma {:induction false} PiecesOfJoined(ts: seq<string>)
    requires AllUnquoted(ts)
    ensures Unquoted(JoinWith(ts, ' ')) && ShellWords(JoinWith(ts, ' '), "") == Pieces(ts)
  {
    hide ShellWords;
    if |ts| == 1 {
      assert ts[1..] == [];
    } else if ts != [] {
      assert Unquoted(ts[0]);
      PiecesOfJoined(ts[1..]);
      ShellWordsJoin(ts[0], JoinWith(ts[1..], ' '), "");
    } else {
      NoPieces();
    }
  }

  lemma NoPieces()
    ensures ShellWords("", "") == []
  {
  }

  /** Joined tokens without quotes and backslashes are read as their pieces. */
  lemma SplitOfUnquoted(ts: seq<string>)
    requires AllUnquoted(ts)
    ensures Split(JoinWith(ts, ' ')) == Some(Pieces(ts))
  {
    PiecesOfJoined(ts);
    LexUnquoted(JoinWith(ts, ' '), "");
  }

  /** Splitting invents no characters but backslashes. */
  lemma {:induction false} LexInvents(s: string, st: LexState, token: string, x: char)
    requires Lex(s, st, token).Some? && x !in s && x !in token && x != '\\'
    ensures forall i :: 0 <= i < |Lex(s, st, token).value| ==> x !in Lex(s, st, token).value[i]
  {
    if s != "" {
      var c, rest := s[0], s[1..];
      match st
      case Between =>
        if ShellSpace(c) { LexInvents(rest, Between, "", x); } else { LexInvents(rest, Opens(c), Kept(c), x); }
      case InWord =>
        if ShellSpace(c) { LexInvents(rest, Between, "", x); } else { LexInvents(rest, Opens(c), token + Kept(c), x); }
      case InSingle =>
        if c == '\'' { LexInvents(rest, InWord, token, x); } else { LexInvents(rest, InSingle, token + [c], x); }
      case InDouble =>
        if c == '"' { LexInvents(rest, InWord, token, x); }
        else if c == '\\' { LexInvents(rest, EscapedInDouble, token, x); }
        else { LexInvents(rest, InDouble, token + [c], x); }
      case EscapedInWord => LexInvents(rest, InWord, token + [c], x);
      case EscapedInDouble => LexInvents(rest, InDouble, token + if c == '\\' || c == '"' then [c] else ['\\', c], x);
    }
  }

  // ---- tokens that str.split leaves alone as well ----

  predicate PlainChar(c: char) {
    !IsSpace(c) && Opens(c) == InWord
  }

  /** A token without whitespace, quotes or backslashes. */
  predicate Plain(t: string) {
    t != "" && forall i :: 0 <= i < |t| ==> PlainChar(t[i])
  }

  predicate AllPlain(ts: seq<string>) {
    forall i :: 0 <= i < |ts| ==> Plain(ts[i])
  }

  /** str.split breaks at more characters than shlex.split does. */
  lemma PlainIsShellPlain(ts: seq<string>)
    requires AllPlain(ts)
    ensures AllShellPlain(ts)
  {
    forall i | 0 <= i < |ts|
      ensures ShellPlain(ts[i])
    {
      assert Plain(ts[i]);
      assert forall c: char :: PlainChar(c) ==> ShellPlainChar(c);
    }
  }

  lemma {:induction false} WordsOfPlain(t: string, word: string, rest: string)
    requires forall i :: 0 <= i < |t| ==> PlainChar(t[i])
    ensures WordsFrom(t + rest, word) == WordsFrom(rest, word + t)
  {
    if t == "" {
      assert t + rest == rest && word + t == word;
    } else {
      assert PlainChar(t[0]);
      assert (t + rest)[1..] == t[1..] + rest;
      WordsOfPlain(t[1..], word + [t[0]], rest);
      assert word + [t[0]] + t[1..] == word + t;
    }
  }

  /** Joined plain tokens are already whitespace-normalised. */
  lemma {:induction false} WordsOfJoined(ts: seq<string>)
    requires AllPlain(ts)
    ensures WordsFrom(JoinWith(ts, ' '), "") == ts
  {
    if ts != [] {
      var t := ts[0];
      assert "" + t == t;
      if |ts| == 1 {
        WordsOfPlain(t, "", "");
        assert t + "" == t && ts == [t];
      } else {
        var rest := JoinWith(ts[1..], ' ');
        WordsOfJoined(ts[1..]);
        WordsOfPlain(t, "", [' '] + rest);
        assert t + [' '] + rest == t + ([' '] + rest);
        assert ([' '] + rest)[1..] == rest;
        assert ts == [t] + ts[1..];
      }
    }
  }

  lemma {:induction false} LexQuoted(body: string, token: string)
    requires '\'' !in body
    ensures Lex(body + "'", InSingle, token) == Some([token + body])
  {
    if body == "" {
      assert (body + "'")[1..] == "" && token + body == token;
    } else {
      assert (body + "'")[1..] == body[1..] + "'";
      LexQuoted(body[1..], token + [body[0]]);
      assert token + [body[0]] + body[1..] == token + body;
    }
  }

  lemma PlainUnquoted(t: string)
    requires ShellPlain(t)
    ensures '\'' !in t
  {
  }

  lemma QuotedToken(t: string)
    requires '\'' !in t
    ensures Split("'" + t + "'") == Some([t])
  {
    var s := "'" + t + "'";
    assert s[0] == '\'' && s[1..] == t + "'" && "" + t == t;
    LexQuoted(t, "");
    assert Split(s) == Lex(s[1..], InSingle, "");
  }

  /** Joining tokens with spaces does not undo quoting: a quoted token with a space falls apart. */
  lemma QuotingIsLost(a: string, b: string)
    requires ShellPlain(a) && ShellPlain(b)
    ensures var t := a + [' '] + b;
            Split("'" + t + "'") == Some([t]) && Split(JoinWith([t], ' ')) == Some([a, b])
  {
    hide Split, Lex, ShellPlain;
    PlainUnquoted(a);
    PlainUnquoted(b);
    QuotedToken(a + [' '] + b);
    JoinTwo(a, b, ' ');
    SplitOfJoined([a, b]);
  }

  lemma WordsAfterSpace(rest: string, word: string)
    ensures WordsFrom([' '] + rest, word) == Flush(word) + WordsFrom(rest, "")
  {
    assert ([' '] + rest)[1..] == rest;
  }

  /** Whitespace normalisation puts one space where there were two. */
  lemma SpacedPair(a: string, b: string)
    requires Plain(a) && Plain(b)
    ensures Normalised(a + [' ', ' '] + b) == a + [' '] + b
    ensures Normalised(a + [' ', ' '] + b) != a + [' ', ' '] + b
  {
    hide WordsFrom, PlainChar;
    assert "" + a == a && "" + b == b && b + "" == b;
    assert a + [' ', ' '] + b == a + ([' '] + ([' '] + b));
    WordsOfPlain(a, "", [' '] + ([' '] + b));
    WordsAfterSpace([' '] + b, a);
    WordsAfterSpace(b, "");
    WordsOfJoined([b]);
    assert JoinWith([b], ' ') == b;
    assert [a] + ([] + [b]) == [a, b];
    JoinTwo(a, b, ' ');
  }
}
