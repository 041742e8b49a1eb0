/**
 What shlex.split makes of quotes and backslashes: words written out of bare text, single and
 double quotes and escapes, in any mixture, are read as what they stand for, and text that
 leaves one of them open is refused.
 */
module ShlexQuoting {
  import opened Text
  import opened Wrappers
  import opened Shlex

  /** Inside double quotes: a character as it is, or one behind a backslash. */
  datatype Inner = Char(c: char) | Slashed(c: char)

  /** A piece of a word. */
  datatype Part =
    | Bare(text: string)
    | Single(text: string)
    | Double(inner: seq<Inner>)
    | Escape(c: char)

  predicate InnerOk(ds: seq<Inner>) {
    forall i :: 0 <= i < |ds| && ds[i].Char? ==> ds[i].c != '"' && ds[i].c != '\\'
  }

  predicate PartOk(p: Part) {
    match p
    case Bare(text) => ShellPlain(text)
    case Single(text) => '\'' !in text
    case Double(inner) => InnerOk(inner)
    case Escape(_) => true
  }

  function WrittenInner(ds: seq<Inner>): string {
    if ds == [] then ""
    else (match ds[0] case Char(c) => [c] case Slashed(c) => ['\\', c]) + WrittenInner(ds[1..])
  }

  /** A backslash in double quotes goes away in front of a double quote or a backslash only. */
  function MeantInner(ds: seq<Inner>): string {
    if ds == [] then ""
    else
      (match ds[0]
       case Char(c) => [c]
       case Slashed(c) => if c in "\"\\" then [c] else ['\\', c])
      + MeantInner(ds[1..])
  }

  function WrittenPart(p: Part): string {
    match p
    case Bare(text) => text
    case Single(text) => "'" + text + "'"
    case Double(inner) => "\"" + WrittenInner(inner) + "\""
    case Escape(c) => ['\\', c]
  }

  function MeantPart(p: Part): string {
    match p
    case Bare(text) => text
    case Single(text) => text
    case Double(inner) => MeantInner(inner)
    case Escape(c) => [c]
  }

  type Word = seq<Part>

  predicate WordOk(w: Word) {
    w != [] && PartsOk(w)
  }

  predicate PartsOk(w: Word) {
    forall i :: 0 <= i < |w| ==> PartOk(w[i])
  }

  function Written(w: Word): string {
    if w == [] then "" else WrittenPart(w[0]) + Written(w[1..])
  }

  function Meant(w: Word): string {
    if w == [] then "" else MeantPart(w[0]) + Meant(w[1..])
  }

  lemma {:induction false} LexSingle(text: string, token: string, rest: string)
    requires '\'' !in text
    ensures Lex(text + "'" + rest, InSingle, token) == Lex(rest, InWord, token + text)
  {
    var s := text + "'" + rest;
    if text == "" {
      assert s[1..] == rest && token + text == token;
    } else {
      assert s[1..] == text[1..] + "'" + rest;
      LexSingle(text[1..], token + [text[0]], rest);
      assert token + [text[0]] + text[1..] == token + text;
    }
  }

  lemma {:induction false} LexDouble(ds: seq<Inner>, token: string, rest: string)
    requires InnerOk(ds)
    ensures Lex(WrittenInner(ds) + "\"" + rest, InDouble, token) == Lex(rest, InWord, token + MeantInner(ds))
  {
    var s := WrittenInner(ds) + "\"" + rest;
    if ds == [] {
      assert s[1..] == rest && token + "" == token;
    } else {
      var more := WrittenInner(ds[1..]) + "\"" + rest;
      match ds[0]
      case Char(c) =>
        assert s[1..] == more;
        LexDouble(ds[1..], token + [c], rest);
        assert token + [c] + MeantInner(ds[1..]) == token + MeantInner(ds);
      case Slashed(c) =>
        assert s[1..] == [c] + more && s[1..][1..] == more;
        var meant := if c in "\"\\" then [c] else ['\\', c];
        LexDouble(ds[1..], token + meant, rest);
        assert token + meant + MeantInner(ds[1..]) == token + MeantInner(ds);
    }
  }

  /** A character that opens a quotation or escapes the next one, inside a word. */
  lemma LexOpening(c: char, token: string, rest: string)
    requires Opens(c) != InWord
    ensures Lex([c] + rest, InWord, token) == Lex(rest, Opens(c), token)
  {
    assert ([c] + rest)[1..] == rest && token + "" == token;
  }

  lemma LexEscaped(c: char, token: string, rest: string)
    ensures Lex([c] + rest, EscapedInWord, token) == Lex(rest, InWord, token + [c])
  {
    assert ([c] + rest)[1..] == rest;
  }

  lemma LexPart(p: Part, token: string, rest: string)
    requires PartOk(p)
    ensures Lex(WrittenPart(p) + rest, InWord, token) == Lex(rest, InWord, token + MeantPart(p))
  {
    hide Lex, ShellPlain, WrittenInner, MeantInner;
    match p
    case Bare(text) =>
      BareIsPlain(text);
      LexWord(text, token, rest);
    case Single(text) =>
      assert WrittenPart(p) + rest == ['\''] + (text + "'" + rest);
      LexOpening('\'', token, text + "'" + rest);
      LexSingle(text, token, rest);
    case Double(inner) =>
      assert WrittenPart(p) + rest == ['"'] + (WrittenInner(inner) + "\"" + rest);
      LexOpening('"', token, WrittenInner(inner) + "\"" + rest);
      LexDouble(inner, token, rest);
    case Escape(c) =>
      assert WrittenPart(p) + rest == ['\\'] + ([c] + rest);
      LexOpening('\\', token, [c] + rest);
      LexEscaped(c, token, rest);
  }

  lemma BareIsPlain(text: string)
    requires ShellPlain(text)
    ensures text != "" && forall i :: 0 <= i < |text| ==> ShellPlainChar(text[i])
  {
  }

  lemma {:induction false} LexParts(w: Word, token: string, rest: string)
    requires PartsOk(w)
    ensures Lex(Written(w) + rest, InWord, token) == Lex(rest, InWord, token + Meant(w))
  {
    hide Lex, PartOk, WrittenPart, MeantPart;
    if w == [] {
      assert "" + rest == rest && token + "" == token;
    } else {
      assert PartOk(w[0]);
      LexPart(w[0], token, Written(w[1..]) + rest);
      LexParts(w[1..], token + MeantPart(w[0]), rest);
      assert Written(w) + rest == WrittenPart(w[0]) + (Written(w[1..]) + rest);
      assert token + Meant(w) == token + MeantPart(w[0]) + Meant(w[1..]);
    }
  }

  /** A word starts with something that is no space. */
  lemma WordStarts(w: Word)
    requires WordOk(w)
    ensures Written(w) != "" && !ShellSpace(Written(w)[0])
  {
    assert PartOk(w[0]);
    if w[0].Bare? {
      assert ShellPlainChar(w[0].text[0]);
    }
  }

  lemma LexStart(s: string)
    requires s != "" && !ShellSpace(s[0])
    ensures Lex(s, Between, "") == Lex(s, InWord, "")
  {
    assert "" + Kept(s[0]) == Kept(s[0]);
  }

  predicate WordsOk(ws: seq<Word>) {
    forall i :: 0 <= i < |ws| ==> WordOk(ws[i])
  }

  /** Each word with a space behind it. */
  function WrittenWords(ws: seq<Word>): string {
    if ws == [] then "" else Written(ws[0]) + " " + WrittenWords(ws[1..])
  }

  function MeantWords(ws: seq<Word>): seq<string> {
    if ws == [] then [] else [Meant(ws[0])] + MeantWords(ws[1..])
  }

  function Behind(ts: seq<string>, r: Option<seq<string>>): Option<seq<string>> {
    if r.None? then None else Some(ts + r.value)
  }

  /** Words are read as what they stand for, whatever follows them. */
  lemma {:induction false} LexWords(ws: seq<Word>, rest: string)
    requires WordsOk(ws)
    ensures Split(WrittenWords(ws) + rest) == Behind(MeantWords(ws), Split(rest))
  {
    hide Written, Meant, WordOk;
    var s := WrittenWords(ws) + rest;
    if ws == [] {
      assert s == rest;
      assert Split(rest).Some? ==> [] + Split(rest).value == Split(rest).value;
    } else {
      var w, more := ws[0], WrittenWords(ws[1..]) + rest;
      assert WordOk(w);
      LexWords(ws[1..], rest);
      WordParts(w);
      WordStarts(w);
      assert s == Written(w) + (" " + more);
      LexStart(s);
      LexParts(w, "", " " + more);
      assert "" + Meant(w) == Meant(w) && (" " + more)[1..] == more;
      assert Lex(s, Between, "") == Emit(Meant(w), Split(more));
      if Split(rest).Some? {
        assert [Meant(w)] + (MeantWords(ws[1..]) + Split(rest).value) == MeantWords(ws) + Split(rest).value;
      }
    }
  }

  lemma WordParts(w: Word)
    requires WordOk(w)
    ensures PartsOk(w)
  {
  }

  /** A last word without a space behind it. */
  lemma LexLastWord(w: Word)
    requires WordOk(w)
    ensures Split(Written(w)) == Some([Meant(w)])
  {
    hide Written, Meant;
    WordStarts(w);
    LexStart(Written(w));
    LexParts(w, "", "");
    assert Written(w) + "" == Written(w) && "" + Meant(w) == Meant(w);
  }

  /**
   shlex.split on words written with any quoting, spaces between them: each word comes back as
   its parts put together, single quotes keeping everything, double quotes everything but a
   backslash in front of a double quote or a backslash, and a backslash outside them the next
   character.
   */
  lemma SplitOfWords(ws: seq<Word>, w: Word)
    requires WordsOk(ws) && WordOk(w)
    ensures Split(WrittenWords(ws) + Written(w)) == Some(MeantWords(ws) + [Meant(w)])
    ensures Split(WrittenWords(ws)) == Some(MeantWords(ws))
  {
    hide Split, Written, WordOk;
    LexWords(ws, Written(w));
    LexLastWord(w);
    LexWords(ws, "");
    NothingSplits();
    assert WrittenWords(ws) + "" == WrittenWords(ws) && MeantWords(ws) + [] == MeantWords(ws);
  }

  lemma NothingSplits()
    ensures Split("") == Some([])
  {
  }

  lemma {:induction false} OpenSingle(text: string, token: string)
    requires '\'' !in text
    ensures Lex(text, InSingle, token) == None
  {
    if text != "" {
      OpenSingle(text[1..], token + [text[0]]);
    }
  }

  lemma {:induction false} OpenDouble(ds: seq<Inner>, token: string)
    requires InnerOk(ds)
    ensures Lex(WrittenInner(ds), InDouble, token) == None
  {
    var s := WrittenInner(ds);
    if ds != [] {
      match ds[0]
      case Char(c) =>
        assert s[1..] == WrittenInner(ds[1..]);
        OpenDouble(ds[1..], token + [c]);
      case Slashed(c) =>
        assert s[1..] == [c] + WrittenInner(ds[1..]) && s[1..][1..] == WrittenInner(ds[1..]);
        OpenDouble(ds[1..], token + if c in "\"\\" then [c] else ['\\', c]);
    }
  }

  /** A quotation that is never closed, or a backslash with nothing behind it, refuses the whole text. */
  lemma UnclosedRefused(ws: seq<Word>, w: Word, text: string, ds: seq<Inner>)
    requires WordsOk(ws) && PartsOk(w) && '\'' !in text && InnerOk(ds)
    ensures Split(WrittenWords(ws) + (Written(w) + ("'" + text))) == None
    ensures Split(WrittenWords(ws) + (Written(w) + ("\"" + WrittenInner(ds)))) == None
    ensures Split(WrittenWords(ws) + (Written(w) + "\\")) == None
  {
    hide Split, Lex, Written, WordOk;
    LexWords(ws, Written(w) + ("'" + text));
    LexWords(ws, Written(w) + ("\"" + WrittenInner(ds)));
    LexWords(ws, Written(w) + "\\");
    OpenTail(w, "'" + text);
    OpenTail(w, "\"" + WrittenInner(ds));
    OpenTail(w, "\\");
    Openings(text, ds, Meant(w));
    Openings(text, ds, "");
  }

  lemma Openings(text: string, ds: seq<Inner>, token: string)
    requires '\'' !in text && InnerOk(ds)
    ensures Lex("'" + text, InWord, token) == None
    ensures Lex("\"" + WrittenInner(ds), InWord, token) == None
    ensures Lex("\\", InWord, token) == None
  {
    assert ("'" + text)[1..] == text && token + "" == token;
    assert ("\"" + WrittenInner(ds))[1..] == WrittenInner(ds);
    OpenSingle(text, token);
    OpenDouble(ds, token);
  }

  lemma OpenTail(w: Word, open: string)
    requires PartsOk(w) && open != "" && !ShellSpace(open[0])
    ensures Split(Written(w) + open) == Lex(open, InWord, Meant(w))
  {
    hide Lex, Written;
    LexParts(w, "", open);
    assert "" + Meant(w) == Meant(w);
    if w == [] {
      NothingWritten();
      assert "" + open == open;
      LexStart(open);
    } else {
      WordStarts(w);
      LexStart(Written(w) + open);
    }
  }

  lemma NothingWritten()
    ensures Written([]) == "" && Meant([]) == ""
  {
  }
}
