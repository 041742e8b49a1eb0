/** strategy_args of src/strategy.py: one catalog entry as the argument list of nfqws. */
module StrategyArgs {
  import opened Sequences
  import opened Text
  import opened Wrappers
  import opened Strategy
  import Shlex

  /** A catalog entry; "" stands for a missing text, [] for a missing list. */
  datatype Entry = Entry(
    id: string, nfqwsOpt: string, luaOpt: string, protocol: string,
    noReasm: bool, noReasmPayloads: string, luaInit: seq<string>)

  const DENIED: set<string> :=
    {"--qnum", "--fwmark", "--daemon", "--pidfile", "--intercept", "--dry-run", "--version", "--chdir"}

  predicate GoodArg(a: string) {
    '\0' !in a && StartsWith(a, "--") && Head(a, '=') !in DENIED
  }

  predicate AllGood(args: seq<string>) {
    forall i :: 0 <= i < |args| ==> GoodArg(args[i])
  }

  function TextOf(e: Entry): string {
    if e.luaOpt != "" then e.luaOpt else e.nfqwsOpt
  }

  function ReasmPayloads(e: Entry): seq<string> {
    SplitOn(if e.noReasmPayloads != "" then e.noReasmPayloads else "tls_client_hello", ',')
  }

  predicate ReasmChar(c: char) {
    'a' <= c <= 'z' || '0' <= c <= '9' || c == '_'
  }

  /** re.fullmatch(r"[a-z0-9_]+", p) */
  predicate ReasmName(p: string) {
    p != "" && forall i :: 0 <= i < |p| ==> ReasmChar(p[i])
  }

  predicate AllReasmNames(ps: seq<string>) {
    forall i :: 0 <= i < |ps| ==> ReasmName(ps[i])
  }

  predicate NotReasm(a: string) {
    !StartsWith(a, "--reasm-disable=")
  }

  function ReasmOptions(ps: seq<string>): (r: seq<string>)
    ensures |r| == |ps|
    ensures forall i :: 0 <= i < |r| ==> r[i] == "--reasm-disable=" + ps[i]
  {
    seq(|ps|, i requires 0 <= i < |ps| => "--reasm-disable=" + ps[i])
  }

  predicate ScriptsOk(scripts: seq<string>) {
    forall i :: 0 <= i < |scripts| ==> StartsWith(scripts[i], "/") && '\0' !in scripts[i]
  }

  function LuaInits(scripts: seq<string>): (r: seq<string>)
    ensures |r| == |scripts|
    ensures forall i :: 0 <= i < |r| ==> r[i] == "--lua-init=@" + scripts[i]
  {
    seq(|scripts|, i requires 0 <= i < |scripts| => "--lua-init=@" + scripts[i])
  }

  /** The entries strategy_args renders, and the tokens of their text. */
  predicate Renders(e: Entry) {
    var tokens := Shlex.Split(TextOf(e));
    && tokens.Some?
    && Accepts(tokens.value)
    && AllGood(Native(tokens.value, e.protocol))
    && (e.noReasm ==> AllReasmNames(ReasmPayloads(e)))
    && ScriptsOk(e.luaInit)
  }

  function Rendering(e: Entry): seq<string>
    requires Renders(e)
  {
    var args := Native(Shlex.Split(TextOf(e)).value, e.protocol);
    LuaInits(e.luaInit)
    + if e.noReasm then Filter(NotReasm, args) + ReasmOptions(ReasmPayloads(e)) else args
  }

  datatype RenderError = Unparsable | Unconvertible(error: Error) | InvalidArgument(arg: string) | InvalidPayload(name: string) | InvalidScripts

  /** x is the first element of s that p refuses. */
  ghost predicate FirstRefused(p: string -> bool, s: seq<string>, x: string) {
    exists i :: 0 <= i < |s| && s[i] == x && !p(x) && forall j :: 0 <= j < i ==> p(s[j])
  }

  lemma FirstRefusedUnique(p: string -> bool, s: seq<string>, x: string, y: string)
    requires FirstRefused(p, s, x) && FirstRefused(p, s, y)
    ensures x == y
  {
  }

  /** The checks in the order they are made: each error says that the ones before it passed. */
  ghost predicate FailsWith(e: Entry, error: RenderError) {
    var tokens := Shlex.Split(TextOf(e));
    if tokens.None? then error == Unparsable
    else if !Accepts(tokens.value) then
      error.Unconvertible? && Strategy.FailsWith(LegacyProfiles(tokens.value), error.error)
    else if !AllGood(Native(tokens.value, e.protocol)) then
      error.InvalidArgument? && FirstRefused(GoodArg, Native(tokens.value, e.protocol), error.arg)
    else if e.noReasm && !AllReasmNames(ReasmPayloads(e)) then
      error.InvalidPayload? && FirstRefused(ReasmName, ReasmPayloads(e), error.name)
    else error == InvalidScripts && !ScriptsOk(e.luaInit)
  }

  /** An entry that does not render has one error, and one that renders has none. */
  lemma RenderErrorUnique(e: Entry, a: RenderError, b: RenderError)
    requires FailsWith(e, a) && FailsWith(e, b)
    ensures a == b && !Renders(e)
  {
    hide Native, Accepts, Shlex.Split, GoodArg, ReasmName, FirstRefused, ReasmPayloads, Strategy.FailsWith;
    match a
    case Unconvertible(_) => ErrorUnique(LegacyProfiles(Shlex.Split(TextOf(e)).value), a.error, b.error);
    case InvalidArgument(_) =>
      FirstRefusedUnique(GoodArg, Native(Shlex.Split(TextOf(e)).value, e.protocol), a.arg, b.arg);
    case InvalidPayload(_) => FirstRefusedUnique(ReasmName, ReasmPayloads(e), a.name, b.name);
    case _ =>
  }

  /** The loop that validates the arguments. */
  method CheckArgs(args: seq<string>) returns (bad: Option<string>)
    ensures bad == None <==> AllGood(args)
    ensures bad.Some? ==> FirstRefused(GoodArg, args, bad.value)
  {
    for i := 0 to |args|
      invariant forall j :: 0 <= j < i ==> GoodArg(args[j])
    {
      if '\0' in args[i] || !StartsWith(args[i], "--") || Head(args[i], '=') in DENIED {
        return Some(args[i]);
      }
    }
    bad := None;
  }

  /** The loop over the no_reasm payloads. */
  method DisableReasm(payloads: seq<string>) returns (r: Result<seq<string>, RenderError>)
    ensures r.Success? <==> AllReasmNames(payloads)
    ensures r.Success? ==> r.value == ReasmOptions(payloads)
    ensures r.Failure? ==> r.error.InvalidPayload? && FirstRefused(ReasmName, payloads, r.error.name)
  {
    var disabled: seq<string> := [];
    for i := 0 to |payloads|
      invariant AllReasmNames(payloads[..i])
      invariant disabled == ReasmOptions(payloads[..i])
    {
      if !ReasmName(payloads[i]) {
        return Failure(InvalidPayload(payloads[i]));
      }
      disabled := disabled + ["--reasm-disable=" + payloads[i]];
    }
    assert payloads[..|payloads|] == payloads;
    r := Success(disabled);
  }

  method StrategyArgs(e: Entry) returns (r: Result<seq<string>, RenderError>)
    ensures r.Success? <==> Renders(e)
    ensures r.Success? ==> r.value == Rendering(e)
    ensures r.Failure? ==> FailsWith(e, r.error)
  {
    hide Native, Accepts, Shlex.Split, GoodArg, ReasmName, FirstRefused, ReasmPayloads, Strategy.FailsWith, ScriptsOk, NotReasm;
    var tokens := Shlex.Split(TextOf(e));
    if tokens == None {
      return Failure(Unparsable);
    }
    var native := NativeOptions(tokens.value, e.protocol);
    if native.Failure? {
      return Failure(Unconvertible(native.error));
    }
    var args := native.value;
    var bad := CheckArgs(args);
    if bad.Some? {
      return Failure(InvalidArgument(bad.value));
    }
    if e.noReasm {
      var disabled := DisableReasm(ReasmPayloads(e));
      if disabled.Failure? {
        return Failure(disabled.error);
      }
      args := Filter(NotReasm, args) + disabled.value;
    }
    if !ScriptsOk(e.luaInit) {
      return Failure(InvalidScripts);
    }
    r := Success(LuaInits(e.luaInit) + args);
  }

  /** Whatever is decorated on, the rendered list holds no option that validation refuses. */
  lemma RenderingIsGood(e: Entry)
    requires Renders(e)
    ensures AllGood(Rendering(e))
  {
    hide Native, Accepts, GoodArg, Shlex.Split, NotReasm, ReasmName, Filter;
    var args := Native(Shlex.Split(TextOf(e)).value, e.protocol);
    var inits, ps := LuaInits(e.luaInit), ReasmPayloads(e);
    forall i | 0 <= i < |inits|
      ensures GoodArg(inits[i])
    {
      LuaInitIsGood(e.luaInit[i]);
    }
    if e.noReasm {
      forall i | 0 <= i < |ReasmOptions(ps)|
        ensures GoodArg(ReasmOptions(ps)[i])
      {
        ReasmIsGood(ps[i]);
      }
      var rest := Filter(NotReasm, args);
      forall i | 0 <= i < |rest|
        ensures GoodArg(rest[i])
      {
        FilterMember(NotReasm, args, rest[i]);
      }
    }
  }

  lemma NamedIsGood(name: string, value: string)
    requires '=' !in name && '\0' !in name && '\0' !in value
    requires StartsWith(name, "--") && name !in DENIED
    ensures GoodArg(name + ['='] + value)
  {
    hide Head;
    PartitionOf(name, '=', value);
    assert name + ['='] + value == name + (['='] + value);
  }

  lemma LuaInitIsGood(script: string)
    requires '\0' !in script
    ensures GoodArg("--lua-init=@" + script)
  {
  }

  lemma ReasmIsGood(name: string)
    requires ReasmName(name)
    ensures GoodArg("--reasm-disable=" + name)
  {
  }

  /** no_reasm replaces the --reasm-disable options an entry already had. */
  lemma ReasmReplaced(e: Entry, a: string)
    requires Renders(e) && e.noReasm && StartsWith(a, "--reasm-disable=")
    ensures a in Rendering(e) <==> a in ReasmOptions(ReasmPayloads(e)) || a in LuaInits(e.luaInit)
  {
    hide Native, Accepts, Shlex.Split;
    FilterMember(NotReasm, Native(Shlex.Split(TextOf(e)).value, e.protocol), a);
  }

  // ---- what each part of an entry does to its rendering ----

  /** No argument that strategy_args hands on holds a NUL, misses the dashes, or is a denied option. */
  lemma RenderingAllowed(e: Entry, a: string)
    requires Renders(e) && a in Rendering(e)
    ensures '\0' !in a && "--" <= a
    ensures Head(a, '=') !in {"--qnum", "--fwmark", "--daemon", "--pidfile", "--intercept", "--dry-run", "--version", "--chdir"}
  {
    hide Renders, Rendering, Head;
    RenderingIsGood(e);
    var i :| 0 <= i < |Rendering(e)| && Rendering(e)[i] == a;
    assert GoodArg(Rendering(e)[i]);
  }

  /** A lua_opt text is used in place of nfqws_opt; without one, nfqws_opt is. */
  lemma LuaOptPreferred(e: Entry, other: string)
    ensures e.luaOpt != "" ==> (Renders(e) <==> Renders(e.(nfqwsOpt := other)))
    ensures e.luaOpt != "" && Renders(e) ==> Rendering(e.(nfqwsOpt := other)) == Rendering(e)
    ensures var swapped := e.(luaOpt := e.nfqwsOpt, nfqwsOpt := "");
            e.luaOpt == "" ==> (Renders(e) <==> Renders(swapped)) && (Renders(e) ==> Rendering(swapped) == Rendering(e))
  {
    hide Native, Accepts, Shlex.Split, AllGood, ScriptsOk, AllReasmNames;
    Reads(e, e.(nfqwsOpt := other));
    Reads(e, e.(luaOpt := e.nfqwsOpt, nfqwsOpt := ""));
  }

  /** Nothing but these parts of an entry counts. */
  lemma Reads(e: Entry, f: Entry)
    requires f.protocol == e.protocol && f.noReasm == e.noReasm && f.noReasmPayloads == e.noReasmPayloads && f.luaInit == e.luaInit
    ensures TextOf(f) == TextOf(e) ==> (Renders(f) <==> Renders(e)) && (Renders(e) ==> Rendering(f) == Rendering(e))
  {
    hide Native, Accepts, Shlex.Split, AllGood, ScriptsOk, AllReasmNames, TextOf;
  }

  /** One more script asks for an absolute path without NUL, and comes last of the scripts, before everything else. */
  lemma OneMoreScript(e: Entry, script: string)
    ensures var f := e.(luaInit := e.luaInit + [script]);
            && (Renders(f) <==> Renders(e) && script != "" && script[0] == '/' && '\0' !in script)
            && (Renders(f) ==>
                  Rendering(f) == Rendering(e)[..|e.luaInit|] + ["--lua-init=@" + script] + Rendering(e)[|e.luaInit|..])
  {
    hide Native, Accepts, Shlex.Split, AllGood, AllReasmNames, ReasmOptions, ReasmPayloads, NotReasm;
    var f := e.(luaInit := e.luaInit + [script]);
    assert TextOf(f) == TextOf(e) && ReasmPayloads(f) == ReasmPayloads(e) by { SameReasm(e, f); }
    ScriptsMore(e.luaInit, script);
    assert LuaInits(f.luaInit) == LuaInits(e.luaInit) + ["--lua-init=@" + script];
  }

  lemma SameReasm(e: Entry, f: Entry)
    requires f.noReasmPayloads == e.noReasmPayloads
    ensures ReasmPayloads(f) == ReasmPayloads(e)
  {
  }

  lemma ScriptsMore(scripts: seq<string>, script: string)
    ensures ScriptsOk(scripts + [script]) <==> ScriptsOk(scripts) && script != "" && script[0] == '/' && '\0' !in script
  {
    var more := scripts + [script];
    assert more[|scripts|] == script;
    assert forall i :: 0 <= i < |scripts| ==> more[i] == scripts[i];
  }

  /**
   Asking for no_reasm with one payload needs a name of small letters, digits and underscores;
   it takes the older --reasm-disable options out and puts the payload's own behind the rest.
   */
  lemma OnePayload(e: Entry, name: string)
    requires !e.noReasm && ',' !in name && name != ""
    ensures var f := e.(noReasm := true, noReasmPayloads := name);
            && (Renders(f) <==> Renders(e) && forall c :: c in name ==> 'a' <= c <= 'z' || '0' <= c <= '9' || c == '_')
            && (Renders(f) ==>
                  var front, rest := Rendering(e)[..|e.luaInit|], Rendering(e)[|e.luaInit|..];
                  Rendering(f) == front + Filter(NotReasm, rest) + ["--reasm-disable=" + name])
  {
    hide Native, Accepts, Shlex.Split, AllGood, NotReasm, SplitOn, ScriptsOk;
    var f := e.(noReasm := true, noReasmPayloads := name);
    SplitPart(name, ',', "");
    assert ReasmPayloads(f) == [name];
    OneName(name);
    assert ReasmName(name) <==> forall c :: c in name ==> ReasmChar(c) by { NameIff(name); }
    assert ReasmOptions([name]) == ["--reasm-disable=" + name];
  }

  lemma OneName(name: string)
    ensures AllReasmNames([name]) <==> ReasmName(name)
  {
    assert [name][0] == name;
  }

  lemma NameIff(name: string)
    requires name != ""
    ensures ReasmName(name) <==> forall c :: c in name ==> ReasmChar(c)
  {
    assert forall i :: 0 <= i < |name| ==> name[i] in name;
  }

  /** Without a payload list the one disabled is tls_client_hello. */
  lemma DefaultPayload(e: Entry)
    requires e.noReasm && e.noReasmPayloads == ""
    ensures var f := e.(noReasmPayloads := "tls_client_hello");
            (Renders(f) <==> Renders(e)) && (Renders(e) ==> Rendering(f) == Rendering(e))
  {
    hide Native, Accepts, Shlex.Split, AllGood, NotReasm, SplitOn, ScriptsOk, AllReasmNames;
    assert ReasmPayloads(e.(noReasmPayloads := "tls_client_hello")) == ReasmPayloads(e);
  }
}
