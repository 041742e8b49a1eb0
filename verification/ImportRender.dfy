/**
 Imported entries rendered by strategy_args: which of the entries plan_import creates nfqws
 can be started with, and what the argument list then is.
 */
module ImportRender {
  import opened Sequences
  import opened Text
  import opened Wrappers
  import opened Strategy
  import opened StrategyMeaning
  import opened StrategyArgs
  import opened ImportPlan
  import Shlex

  // ---- nothing native_options emits from valid tokens is refused later ----

  predicate NoNul(s: string) {
    '\0' !in s
  }

  predicate AllNoNul(ss: seq<string>) {
    forall i :: 0 <= i < |ss| ==> NoNul(ss[i])
  }

  lemma {:induction false} LastValueNoNul(profile: seq<string>, key: string, default: string)
    requires AllNoNul(profile) && NoNul(default)
    ensures NoNul(LastValue(profile, key, default))
  {
    if profile != [] {
      var n := |profile| - 1;
      assert NoNul(profile[n]);
      LastValueNoNul(profile[..n], key, default);
    }
  }

  lemma LastPartNoNul(s: string)
    requires NoNul(s)
    ensures NoNul(LastPart(s))
  {
    hide SplitOn;
    var parts := SplitOn(s, ',');
    SplitMember(s, ',', '\0');
    assert '\0' !in SplitOn(s, ',')[|parts| - 1];
  }

  lemma FieldsNoNul(o: Options, t: Traffic, mode: string)
    requires ModeSupported(o, mode) && NoNul(o.repeats) && NoNul(o.splitPos)
    ensures AllNoNul(FieldsOf(o, t, mode))
  {
    hide LastPart;
    LastPartNoNul(o.splitPos);
    FoolingNoNul(o.fooling);
    var f := FieldsOf(o, t, mode);
    if SendsFakes(mode) {
      var last := if mode == "fake" then "blob=fake_default_" + t.Blob() else "pos=" + LastPart(o.splitPos);
      assert f == [mode, "repeats=" + o.repeats, last] + FoolingFields(o.fooling);
    }
  }

  lemma FoolingNoNul(fooling: seq<string>)
    ensures AllNoNul(FoolingFields(fooling))
  {
  }

  lemma LuaName()
    ensures var name := "--lua-desync";
            "--lua-desync=" == name + ['='] && '=' !in name && '\0' !in name && StartsWith(name, "--") && name !in DENIED
  {
  }

  lemma LuaTokenGood(o: Options, t: Traffic, mode: string)
    requires ModeSupported(o, mode) && NoNul(o.repeats) && NoNul(o.splitPos)
    ensures GoodArg(LuaToken(o, t, mode))
  {
    hide GoodArg, FieldsOf, JoinWith, ModeSupported;
    var f := FieldsOf(o, t, mode);
    FieldsNoNul(o, t, mode);
    JoinMember(f, ':', '\0');
    assert forall i :: 0 <= i < |f| ==> NoNul(f[i]);
    LuaName();
    NamedIsGood("--lua-desync", JoinWith(f, ':'));
  }

  lemma PayloadName()
    ensures var name := "--payload";
            "--payload=" == name + ['='] && '=' !in name && '\0' !in name && StartsWith(name, "--") && name !in DENIED
  {
  }

  lemma PayloadTokenGood(profile: seq<string>)
    ensures GoodArg(PayloadToken(profile))
  {
    hide GoodArg, TrafficOf, Filters;
    PayloadName();
    NamedIsGood("--payload", TrafficOf(Filters(profile)).Payload());
  }

  lemma CompiledGood(profile: seq<string>, a: string)
    requires AllGood(profile) && Convertible(profile) && a in Compiled(profile)
    ensures GoodArg(a)
  {
    hide GoodArg, TrafficOf, LuaToken, PayloadToken, LastValue, ModesAsked, FoolingAsked, OptionsKnown, ModeSupported;
    var o, t := OptionsOf(profile), TrafficOf(Filters(profile));
    var luas := LuaTokens(o, t, o.modes);
    FilterMember(NotLegacy, profile, a);
    PayloadTokenGood(profile);
    GoodNoNul(profile);
    LastValueNoNul(profile, "--dpi-desync-repeats", "1");
    LastValueNoNul(profile, "--dpi-desync-split-pos", "2");
    if a in luas {
      var i :| 0 <= i < |luas| && luas[i] == a;
      LuaTokenGood(o, t, NormalMode(o.modes[i]));
    }
  }

  lemma GoodNoNul(args: seq<string>)
    requires AllGood(args)
    ensures AllNoNul(args)
  {
  }

  lemma NewIsGood()
    ensures GoodArg("--new")
  {
  }

  lemma CompiledArgsGood(args: seq<string>)
    requires AllGood(args) && AllConvertible(LegacyProfiles(args))
    ensures AllGood(CompiledArgs(args))
  {
    hide GoodArg, Compiled, LegacyProfiles, Convertible;
    var ps, out := LegacyProfiles(args), CompiledArgs(args);
    NewIsGood();
    forall k | 0 <= k < |out|
      ensures GoodArg(out[k])
    {
      var a := out[k];
      if a != "--new" {
        JoinMember(CompiledAll(ps), "--new", a);
        var i :| 0 <= i < |ps| && a in CompiledAll(ps)[i];
        forall j | 0 <= j < |ps[i]|
          ensures GoodArg(ps[i][j])
        {
          LegacyProfileTokens(args, i, ps[i][j]);
        }
        CompiledGood(ps[i], a);
      }
    }
  }

  lemma FilterNames()
    ensures "--filter-udp=443" == "--filter-udp" + ['='] + "443"
    ensures "--filter-tcp=80" == "--filter-tcp" + ['='] + "80"
    ensures "--filter-tcp=443" == "--filter-tcp" + ['='] + "443"
  {
  }

  lemma FilterNamesGood()
    ensures '=' !in "--filter-udp" && '\0' !in "--filter-udp" && StartsWith("--filter-udp", "--") && "--filter-udp" !in DENIED
    ensures '=' !in "--filter-tcp" && '\0' !in "--filter-tcp" && StartsWith("--filter-tcp", "--") && "--filter-tcp" !in DENIED
  {
  }

  lemma FilterForGood(protocol: string)
    ensures GoodArg(FilterFor(protocol))
  {
    hide GoodArg, Upper, Contains, StartsWith;
    FilterNames();
    FilterNamesGood();
    NamedIsGood("--filter-udp", "443");
    NamedIsGood("--filter-tcp", "80");
    NamedIsGood("--filter-tcp", "443");
  }

  lemma NativeGood(args: seq<string>, protocol: string)
    requires AllGood(args) && Accepts(args)
    ensures AllGood(Native(args, protocol))
  {
    hide GoodArg, CompiledArgs, AllConvertible, TakesLegacyBranch, FilterFor;
    FilterForGood(protocol);
    if args != [] && TakesLegacyBranch(args) {
      CompiledArgsGood(args);
    }
  }

  lemma LegacyGood(a: string)
    requires IsLegacy(a) && NoNul(a)
    ensures GoodArg(a)
  {
    var h := Head(a, '=');
    if |h| >= 4 {
      assert h[2] == a[2] == 'd' && h[3] == a[3] == 'p';
      assert forall d :: d in DENIED ==> |d| >= 4 && (d[2] != 'd' || d[3] != 'p');
    }
  }

  /** What native_options accepts it neither mends nor spoils: its output is good exactly when its input is. */
  lemma NativeGoodIff(args: seq<string>, protocol: string)
    requires Accepts(args) && AllNoNul(args)
    ensures AllGood(Native(args, protocol)) <==> AllGood(args)
  {
    hide GoodArg, CompiledArgs, AllConvertible, TakesLegacyBranch, FilterFor, IsLegacy, NoNul;
    var out := Native(args, protocol);
    if AllGood(args) {
      NativeGood(args, protocol);
    }
    if AllGood(out) {
      NewIsGood();
      forall i | 0 <= i < |args|
        ensures GoodArg(args[i])
      {
        assert args[i] in args && NoNul(args[i]);
        if IsLegacy(args[i]) {
          LegacyGood(args[i]);
        } else if args[i] != "--new" {
          NativeKeeps(args, protocol, args[i]);
        }
      }
    }
  }

  /** native_options drops legacy options and may move --new, and drops nothing else. */
  lemma NativeKeeps(args: seq<string>, protocol: string, a: string)
    requires a in args && !IsLegacy(a) && a != "--new"
    ensures a in Native(args, protocol)
  {
    hide CompiledArgs, TakesLegacyBranch, FilterFor, IsLegacy, Any;
    CompiledArgsMember(args, a);
  }

  /** The planner's denylist contains the renderer's. */
  lemma ValidIsGood(ts: seq<string>)
    requires ValidTokens(ts)
    ensures AllGood(ts)
  {
  }

  // ---- rendering ----

  const TLS_REASM: string := "--reasm-disable=" + "tls_client_hello"

  lemma DefaultReasm(e: Entry)
    requires e.noReasmPayloads == ""
    ensures ReasmPayloads(e) == ["tls_client_hello"]
    ensures AllReasmNames(ReasmPayloads(e)) && ReasmOptions(ReasmPayloads(e)) == [TLS_REASM]
  {
    hide SplitOn;
    SplitPart("tls_client_hello", ',', "");
    assert ReasmName("tls_client_hello");
  }

  lemma EntryText(row: Row, args: string, id: string)
    ensures TextOf(EntryFor(row, args, id)) == args
  {
  }

  /** The text of an imported entry is its validated tokens, joined. */
  lemma EntryJoined(row: Row, ts: seq<string>, id: string)
    requires Shlex.Split(row.args) == Some(ts) && ValidTokens(ts)
    ensures ArgsOf(row) == Some(JoinWith(ts, ' '))
    ensures TextOf(EntryFor(row, ArgsOf(row).value, id)) == JoinWith(ts, ' ')
  {
    hide EntryFor, Shlex.Split, ValidTokens;
    EntryText(row, ArgsOf(row).value, id);
  }

  /**
   For every valid row, the imported entry is read back as the tokens that were validated
   exactly when all of them are shell-plain.
   */
  lemma ImportedReadsBackIff(row: Row, ts: seq<string>, id: string)
    requires Shlex.Split(row.args) == Some(ts) && ValidTokens(ts)
    ensures ArgsOf(row).Some?
    ensures Shlex.Split(TextOf(EntryFor(row, ArgsOf(row).value, id))) == Some(ts) <==> Shlex.AllShellPlain(ts)
  {
    hide EntryFor, Shlex.Split, Shlex.AllShellPlain, ValidTokens, JoinWith, ArgsOf;
    EntryJoined(row, ts, id);
    Shlex.SplitOfJoinedIff(ts);
  }

  lemma ValidNoNul(ts: seq<string>)
    requires ValidTokens(ts)
    ensures AllNoNul(ts) && NoNul(JoinWith(ts, ' '))
  {
    hide StartsWith, Head;
    JoinMember(ts, ' ', '\0');
  }

  lemma ReadNoNul(s: string)
    requires NoNul(s) && Shlex.Split(s).Some?
    ensures AllNoNul(Shlex.Split(s).value)
  {
    hide Shlex.Lex;
    Shlex.LexInvents(s, Shlex.Between, "", '\0');
  }

  /** What strategy_args needs of the tokens it reads. */
  predicate Renderable(tokens: Option<seq<string>>) {
    tokens.Some? && Accepts(tokens.value) && AllGood(tokens.value)
  }

  /** The entry of any valid row renders exactly when its joined text reads as renderable tokens. */
  lemma ImportedRendersIff(row: Row, ts: seq<string>, id: string)
    requires Shlex.Split(row.args) == Some(ts) && ValidTokens(ts)
    ensures ArgsOf(row).Some?
    ensures Renders(EntryFor(row, ArgsOf(row).value, id)) <==> Renderable(Shlex.Split(JoinWith(ts, ' ')))
  {
    hide Shlex.Split, ArgsOf, Native, Accepts, ValidTokens, Contains, JoinWith, AllGood, AllNoNul, NoNul, ReasmPayloads, AllReasmNames;
    EntryJoined(row, ts, id);
    var e, again := EntryFor(row, ArgsOf(row).value, id), Shlex.Split(JoinWith(ts, ' '));
    DefaultReasm(e);
    ValidNoNul(ts);
    if again.Some? {
      ReadNoNul(JoinWith(ts, ' '));
      if Accepts(again.value) {
        NativeGoodIff(again.value, e.protocol);
      }
    }
  }

  /**
   From shell-plain tokens, that is exactly when native_options accepts them; in particular
   whenever they hold a native option or no legacy one.
   */
  lemma PlainRendersIff(row: Row, ts: seq<string>, id: string)
    requires Shlex.Split(row.args) == Some(ts) && ValidTokens(ts) && Shlex.AllShellPlain(ts)
    ensures ArgsOf(row).Some?
    ensures Renders(EntryFor(row, ArgsOf(row).value, id)) <==> Accepts(ts)
    ensures !TakesLegacyBranch(ts) ==> Renders(EntryFor(row, ArgsOf(row).value, id))
  {
    hide Shlex.Split, Shlex.AllShellPlain, ArgsOf, EntryFor, Renders, AllConvertible, TakesLegacyBranch, ValidTokens, JoinWith, AllGood;
    ImportedRendersIff(row, ts, id);
    Shlex.SplitOfJoined(ts);
    ValidIsGood(ts);
  }

  /** From tokens without quotes and backslashes, it is when their pieces between spaces are accepted and allowed. */
  lemma UnquotedRendersIff(row: Row, ts: seq<string>, id: string)
    requires Shlex.Split(row.args) == Some(ts) && ValidTokens(ts) && Shlex.AllUnquoted(ts)
    ensures ArgsOf(row).Some?
    ensures Renders(EntryFor(row, ArgsOf(row).value, id)) <==> Accepts(Shlex.Pieces(ts)) && AllGood(Shlex.Pieces(ts))
  {
    hide Shlex.Split, Shlex.AllUnquoted, Shlex.Pieces, ArgsOf, EntryFor, Renders, Accepts, ValidTokens, JoinWith, AllGood;
    ImportedRendersIff(row, ts, id);
    Shlex.SplitOfUnquoted(ts);
  }

  /** A shell-plain list that is valid and yet does not render: a mode nobody knows. */
  lemma UnknownModeFails(row: Row, ts: seq<string>, id: string)
    requires ts == ["--filter-tcp" + ['='] + "443", "--dpi-desync" + ['='] + "bogus"]
    requires Shlex.Split(row.args) == Some(ts)
    ensures ValidTokens(ts) && Shlex.AllShellPlain(ts)
    ensures ArgsOf(row).Some? && !Renders(EntryFor(row, ArgsOf(row).value, id))
  {
    hide Shlex.Split, ArgsOf, EntryFor, Renders, Accepts, TakesLegacyBranch, ValidToken, Shlex.ShellPlain, NoNul;
    ExampleNames();
    ExampleWords();
    ExampleToken("--filter-tcp", "443");
    ExampleToken("--dpi-desync", "bogus");
    UnknownModeRefused(ts);
    PlainRendersIff(row, ts, id);
  }

  lemma ExampleToken(name: string, value: string)
    requires '=' !in name && StartsWith(name, "--") && name !in FORBIDDEN
    requires Shlex.ShellPlain(name) && Shlex.ShellPlain(value) && NoNul(name) && NoNul(value)
    ensures ValidToken(name + ['='] + value) && Shlex.ShellPlain(name + ['='] + value)
  {
    hide Head, Shlex.ShellPlainChar;
    PartitionOf(name, '=', value);
    assert Shlex.ShellPlainChar('=') by { EqualsSign(); }
    assert name + ['='] + value == name + (['='] + value);
  }

  lemma EqualsSign()
    ensures Shlex.ShellPlainChar('=')
  {
  }

  lemma ExampleNames()
    ensures '=' !in "--filter-tcp" && StartsWith("--filter-tcp", "--") && "--filter-tcp" !in FORBIDDEN
    ensures '=' !in "--dpi-desync" && StartsWith("--dpi-desync", "--") && "--dpi-desync" !in FORBIDDEN
  {
  }

  lemma ExampleWords()
    ensures Shlex.ShellPlain("--filter-tcp") && Shlex.ShellPlain("--dpi-desync")
    ensures Shlex.ShellPlain("443") && Shlex.ShellPlain("bogus")
    ensures NoNul("--filter-tcp") && NoNul("--dpi-desync") && NoNul("443") && NoNul("bogus")
  {
  }

  /** Then the argument list is an optional filter, the entry's own tokens, and the reassembly option. */
  lemma ImportedRendering(row: Row, ts: seq<string>, id: string)
    requires Shlex.Split(row.args) == Some(ts) && ValidTokens(ts) && Shlex.AllShellPlain(ts) && !TakesLegacyBranch(ts)
    ensures ArgsOf(row).Some?
    ensures var e := EntryFor(row, ArgsOf(row).value, id);
            var prefix := if Any(IsFilterOption, ts) then [] else [FilterFor(ProtocolOf(row))];
            && Renders(e)
            && Rendering(e) == prefix + (if e.noReasm then Filter(NotReasm, ts) + [TLS_REASM] else ts)
            && AllGood(Rendering(e))
  {
    hide Shlex.Split, ArgsOf, TakesLegacyBranch, Any, FilterFor, AllGood, NotReasm, JoinWith, Renders, Native, Filter, EntryFor, Rendering;
    PlainRendersIff(row, ts, id);
    ImportedReadsBackIff(row, ts, id);
    var e := EntryFor(row, ArgsOf(row).value, id);
    var prefix := if Any(IsFilterOption, ts) then [] else [FilterFor(ProtocolOf(row))];
    EntryPlain(row, ArgsOf(row).value, id);
    PassNative(ts, ProtocolOf(row));
    PrefixIsKept(ProtocolOf(row));
    NoTokens();
    PlainRendering(e, ts, prefix);
    RenderingIsGood(e);
  }

  lemma EntryPlain(row: Row, args: string, id: string)
    ensures var e := EntryFor(row, args, id);
            e.luaInit == [] && e.noReasmPayloads == "" && e.protocol == ProtocolOf(row)
    ensures ProtocolOf(row) != ""
  {
  }

  lemma NoTokens()
    ensures Filter(NotReasm, []) == []
  {
  }

  lemma PassNative(ts: seq<string>, protocol: string)
    requires !TakesLegacyBranch(ts) && protocol != ""
    ensures ts != [] ==> Native(ts, protocol) == (if Any(IsFilterOption, ts) then [] else [FilterFor(protocol)]) + ts
  {
  }

  lemma PlainRendering(e: Entry, ts: seq<string>, prefix: seq<string>)
    requires Renders(e) && Shlex.Split(TextOf(e)) == Some(ts) && e.luaInit == [] && e.noReasmPayloads == ""
    requires Native(ts, e.protocol) == prefix + ts && Filter(NotReasm, prefix) == prefix
    ensures Rendering(e) == prefix + (if e.noReasm then Filter(NotReasm, ts) + [TLS_REASM] else ts)
  {
    hide Shlex.Split, Native, NotReasm, Filter, Renders, ReasmPayloads, ReasmOptions;
    DefaultReasm(e);
    FilterAppend(NotReasm, prefix, ts);
  }

  lemma PrefixIsKept(protocol: string)
    ensures NotReasm(FilterFor(protocol))
    ensures Filter(NotReasm, [FilterFor(protocol)]) == [FilterFor(protocol)]
  {
    hide Contains, Upper;
    assert FilterFor(protocol)[2] == 'f';
    assert [FilterFor(protocol)][..0] == [];
  }

  /**
   Quoting is lost on import: a quoted token with a space in it passes validation, and yet the
   entry made from it never renders.
   */
  lemma QuotedImportFails(row: Row, a: string, b: string, id: string)
    requires Shlex.ShellPlain(a) && Shlex.ShellPlain(b) && !StartsWith(b, "--")
    requires ValidToken(a + [' '] + b) && row.args == "'" + (a + [' '] + b) + "'"
    ensures ArgsOf(row) == Some(a + [' '] + b)
    ensures !Renders(EntryFor(row, ArgsOf(row).value, id))
  {
    hide Shlex.Split, Shlex.ShellPlain, ValidToken, CompiledArgs, AllConvertible, TakesLegacyBranch, FilterFor, EntryFor, Contains, Any;
    Shlex.QuotingIsLost(a, b);
    JoinTwo(a, b, ' ');
    EntryText(row, ArgsOf(row).value, id);
    var ts := [a, b];
    KindsDiffer(b);
    NotAnOption(b);
    if TakesLegacyBranch(ts) {
      CompiledArgsMember(ts, b);
    }
    var out := Native(ts, EntryFor(row, ArgsOf(row).value, id).protocol);
    assert b in ts;
    assert b in out;
    assert !GoodArg(b);
  }

  lemma NotAnOption(b: string)
    ensures b == "--new" || IsLegacy(b) ==> StartsWith(b, "--")
  {
  }
}
