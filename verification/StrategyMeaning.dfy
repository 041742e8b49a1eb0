/**
 What strategies mean, in the legacy and in the native language, and what native_options
 preserves. A meaning is a list of profiles: which traffic each filters, which payload it
 looks for, and the actions it takes.
 */
module StrategyMeaning {
  import opened Sequences
  import opened Text
  import opened Strategy

  datatype Param = Param(name: string, value: string)

  datatype Action = Action(mode: string, params: seq<Param>)

  datatype Profile = Profile(filters: seq<string>, payload: string, actions: seq<Action>)

  // ---- the legacy language ----

  function FoolingParams(fooling: seq<string>): seq<Param> {
    (if "md5sig" in fooling then [Param("tcp_md5", "")] else [])
    + (if "badseq" in fooling then [Param("tcp_seq", "-10000"), Param("tcp_ack", "-66000")] else [])
    + (if "ts" in fooling then [Param("tcp_ts", "-600000")] else [])
  }

  /** The old names of two modes. */
  const RENAMED: map<string, string> := map["split" := "multisplit", "disorder" := "multidisorder"]

  function NewName(mode: string): string {
    if mode in RENAMED then RENAMED[mode] else mode
  }

  /** The token is kept and starts with --filter-udp=. */
  predicate FiltersUdp(a: string) {
    NotLegacy(a) && StartsWith(a, "--filter-udp=")
  }

  /** The payload a legacy profile is about, from its tokens alone. */
  function ImpliedPayload(profile: seq<string>): string {
    if exists a :: a in profile && FiltersUdp(a) then "quic_initial"
    else if "--filter-tcp=80" in profile then "http_req"
    else "tls_client_hello"
  }

  /** The packet its fakes carry. */
  function ImpliedBlob(profile: seq<string>): string {
    if exists a :: a in profile && FiltersUdp(a) then "fake_default_quic"
    else if "--filter-tcp=80" in profile then "fake_default_http"
    else "fake_default_tls"
  }

  /** One --dpi-desync mode, with the repeats, split position and fooling of its profile. */
  function LegacyAction(o: Options, blob: string, mode: string): Action {
    if mode == "fake" then
      Action(mode, [Param("repeats", o.repeats), Param("blob", blob)] + FoolingParams(o.fooling))
    else if mode == "fakedsplit" then
      Action(mode, [Param("repeats", o.repeats), Param("pos", LastPart(o.splitPos))] + FoolingParams(o.fooling))
    else Action(mode, [Param("pos", o.splitPos)])
  }

  function LegacyActions(o: Options, blob: string, modes: seq<string>): (r: seq<Action>)
    ensures |r| == |modes|
    ensures forall i :: 0 <= i < |r| ==> r[i] == LegacyAction(o, blob, NewName(modes[i]))
  {
    seq(|modes|, i requires 0 <= i < |modes| => LegacyAction(o, blob, NewName(modes[i])))
  }

  function LegacyProfile(profile: seq<string>): Profile {
    var o := OptionsOf(profile);
    Profile(Filters(profile), ImpliedPayload(profile), LegacyActions(o, ImpliedBlob(profile), o.modes))
  }

  function LegacyMeaning(args: seq<string>): (r: seq<Profile>)
    ensures |r| == |LegacyProfiles(args)|
    ensures forall i :: 0 <= i < |r| ==> r[i] == LegacyProfile(LegacyProfiles(args)[i])
  {
    var ps := LegacyProfiles(args);
    seq(|ps|, i requires 0 <= i < |ps| => LegacyProfile(ps[i]))
  }

  lemma ModeRenamed(mode: string)
    ensures NormalMode(mode) == NewName(mode)
  {
  }

  /** The compiler looks for the traffic in the filters it keeps. */
  lemma TrafficImplied(profile: seq<string>)
    ensures TrafficOf(Filters(profile)).Payload() == ImpliedPayload(profile)
    ensures "fake_default_" + TrafficOf(Filters(profile)).Blob() == ImpliedBlob(profile)
  {
    hide IsLegacy, StartsWith;
    var fs := Filters(profile);
    forall a
      ensures a in fs <==> a in profile && NotLegacy(a)
    {
      FilterMember(NotLegacy, profile, a);
    }
    PlainHttp();
    if Any(IsUdpFilter, fs) {
      var i :| 0 <= i < |fs| && IsUdpFilter(fs[i]);
      assert fs[i] in profile && FiltersUdp(fs[i]);
    }
    if a :| a in profile && FiltersUdp(a) {
      assert a in fs;
      var i :| 0 <= i < |fs| && fs[i] == a;
      assert IsUdpFilter(fs[i]);
    }
    assert "fake_default_" + "quic" == "fake_default_quic" && "fake_default_" + "http" == "fake_default_http"
           && "fake_default_" + "tls" == "fake_default_tls";
  }

  lemma PlainHttp()
    ensures NotLegacy("--filter-tcp=80")
  {
    LegacyLetter("--filter-tcp=80");
  }

  // ---- the native language ----

  function ParseParam(field: string): Param {
    Param(Head(field, '='), Tail(field, '='))
  }

  function ParseParams(fields: seq<string>): (r: seq<Param>)
    ensures |r| == |fields|
    ensures forall i :: 0 <= i < |r| ==> r[i] == ParseParam(fields[i])
  {
    seq(|fields|, i requires 0 <= i < |fields| => ParseParam(fields[i]))
  }

  /** --lua-desync=mode:name=value:... */
  function ParseAction(token: string): Action {
    var fields := SplitOn(Tail(token, '='), ':');
    Action(fields[0], ParseParams(fields[1..]))
  }

  function ParseActions(tokens: seq<string>): (r: seq<Action>)
    ensures |r| == |tokens|
    ensures forall i :: 0 <= i < |r| ==> r[i] == ParseAction(tokens[i])
  {
    seq(|tokens|, i requires 0 <= i < |tokens| => ParseAction(tokens[i]))
  }

  predicate IsFilterPart(a: string) {
    !IsLua(a) && !IsPayload(a)
  }

  /** The value of the last --payload= option of the profile. */
  function PayloadOf(tokens: seq<string>): string {
    if tokens == [] then ""
    else if IsPayload(tokens[|tokens| - 1]) then Tail(tokens[|tokens| - 1], '=')
    else PayloadOf(tokens[..|tokens| - 1])
  }

  function NativeProfile(tokens: seq<string>): Profile {
    Profile(Filter(IsFilterPart, tokens), PayloadOf(tokens), ParseActions(Filter(IsLua, tokens)))
  }

  /** A native command line: profiles separated by --new. */
  function NativeMeaning(tokens: seq<string>): (r: seq<Profile>)
    ensures |r| == if tokens == [] then 0 else |SplitOn(tokens, "--new")|
    ensures forall i :: 0 <= i < |r| ==> r[i] == NativeProfile(SplitOn(tokens, "--new")[i])
  {
    if tokens == [] then []
    else
      var ps := SplitOn(tokens, "--new");
      seq(|ps|, i requires 0 <= i < |ps| => NativeProfile(ps[i]))
  }

  // ---- when the translation of one mode can be read back ----

  /** The values a mode copies into its --lua-desync text hold no colon. */
  predicate ColonFreeMode(o: Options, mode: string) {
    && (SendsFakes(mode) ==> ':' !in o.repeats)
    && (mode == "fakedsplit" ==> ':' !in LastPart(o.splitPos))
    && (Splits(mode) ==> ':' !in o.splitPos)
  }

  predicate ColonFree(profile: seq<string>) {
    var o := OptionsOf(profile);
    forall i :: 0 <= i < |o.modes| ==> ColonFreeMode(o, NormalMode(o.modes[i]))
  }

  /** No legacy profile that produces output copies a colon. */
  predicate ColonFreeArgs(args: seq<string>) {
    forall i :: 0 <= i < |LegacyProfiles(args)| ==> ColonFree(LegacyProfiles(args)[i])
  }

  lemma FieldsFree(o: Options, t: Traffic, mode: string)
    requires ModeSupported(o, mode)
    ensures Free(FieldsOf(o, t, mode), ':') <==> ColonFreeMode(o, mode)
  {
    var f := FieldsOf(o, t, mode);
    FoolingFree(o.fooling);
    if SendsFakes(mode) {
      var last := if mode == "fake" then "blob=fake_default_" + t.Blob() else "pos=" + LastPart(o.splitPos);
      assert f == [mode, "repeats=" + o.repeats, last] + FoolingFields(o.fooling);
      assert f[1] == "repeats=" + o.repeats && f[2] == last;
    } else {
      assert f[1] == "pos=" + o.splitPos;
    }
  }

  lemma FoolingFree(fooling: seq<string>)
    ensures Free(FoolingFields(fooling), ':')
  {
  }

  lemma ParseFieldOf(name: string, value: string)
    requires '=' !in name
    ensures ParseParam(name + "=" + value) == Param(name, value)
    ensures ParseParam(name) == Param(name, "")
  {
    PartitionOf(name, '=', value);
    assert name + "=" + value == name + ['='] + value;
  }

  lemma ParseAppend(a: seq<string>, b: seq<string>)
    ensures ParseParams(a + b) == ParseParams(a) + ParseParams(b)
  {
  }

  lemma ParseMd5()
    ensures ParseParams(["tcp_md5"]) == [Param("tcp_md5", "")]
  {
    ParseFieldOf("tcp_md5", "");
  }

  lemma ParseSeq()
    ensures ParseParam("tcp_seq=-10000") == Param("tcp_seq", "-10000")
  {
    assert "tcp_seq=-10000" == "tcp_seq" + "=" + "-10000";
    ParseFieldOf("tcp_seq", "-10000");
  }

  lemma ParseAck()
    ensures ParseParam("tcp_ack=-66000") == Param("tcp_ack", "-66000")
  {
    assert "tcp_ack=-66000" == "tcp_ack" + "=" + "-66000";
    ParseFieldOf("tcp_ack", "-66000");
  }

  lemma ParseBadseq()
    ensures ParseParams(["tcp_seq=-10000", "tcp_ack=-66000"]) == [Param("tcp_seq", "-10000"), Param("tcp_ack", "-66000")]
  {
    hide ParseParam;
    ParseSeq();
    ParseAck();
  }

  lemma ParseTs()
    ensures ParseParams(["tcp_ts=-600000"]) == [Param("tcp_ts", "-600000")]
  {
    assert "tcp_ts=-600000" == "tcp_ts" + "=" + "-600000";
    ParseFieldOf("tcp_ts", "-600000");
  }

  lemma ParseFooling(fooling: seq<string>)
    ensures ParseParams(FoolingFields(fooling)) == FoolingParams(fooling)
  {
    hide ParseParams;
    var md5 := if "md5sig" in fooling then ["tcp_md5"] else [];
    var badseq := if "badseq" in fooling then ["tcp_seq=-10000", "tcp_ack=-66000"] else [];
    var ts := if "ts" in fooling then ["tcp_ts=-600000"] else [];
    ParseNone();
    ParseMd5();
    ParseBadseq();
    ParseTs();
    ParseAppend(md5, badseq);
    ParseAppend(md5 + badseq, ts);
  }

  lemma ParseNone()
    ensures ParseParams([]) == []
  {
  }

  lemma ParseTwo(name1: string, value1: string, name2: string, value2: string)
    requires '=' !in name1 && '=' !in name2
    ensures ParseParams([name1 + "=" + value1, name2 + "=" + value2]) == [Param(name1, value1), Param(name2, value2)]
    ensures ParseParams([name1 + "=" + value1]) == [Param(name1, value1)]
  {
    hide ParseParam;
    ParseFieldOf(name1, value1);
    ParseFieldOf(name2, value2);
  }

  lemma Named(value: string)
    ensures "repeats=" + value == "repeats" + "=" + value
    ensures "pos=" + value == "pos" + "=" + value
    ensures "blob=fake_default_" + value == "blob" + "=" + ("fake_default_" + value)
  {
  }

  lemma FakeFields(o: Options, blob: string)
    ensures ParseParams(["repeats=" + o.repeats, "blob=fake_default_" + blob] + FoolingFields(o.fooling))
            == [Param("repeats", o.repeats), Param("blob", "fake_default_" + blob)] + FoolingParams(o.fooling)
  {
    hide ParseParams, FoolingFields, FoolingParams;
    Named(o.repeats);
    Named(blob);
    ParseTwo("repeats", o.repeats, "blob", "fake_default_" + blob);
    ParseAppend(["repeats=" + o.repeats, "blob=fake_default_" + blob], FoolingFields(o.fooling));
    ParseFooling(o.fooling);
  }

  lemma FakedSplitFields(o: Options, pos: string)
    ensures ParseParams(["repeats=" + o.repeats, "pos=" + pos] + FoolingFields(o.fooling))
            == [Param("repeats", o.repeats), Param("pos", pos)] + FoolingParams(o.fooling)
  {
    hide ParseParams, FoolingFields, FoolingParams;
    Named(o.repeats);
    Named(pos);
    ParseTwo("repeats", o.repeats, "pos", pos);
    ParseAppend(["repeats=" + o.repeats, "pos=" + pos], FoolingFields(o.fooling));
    ParseFooling(o.fooling);
  }

  lemma ParseFields(o: Options, t: Traffic, mode: string)
    requires ModeSupported(o, mode)
    ensures ParseParams(FieldsOf(o, t, mode)[1..]) == LegacyAction(o, "fake_default_" + t.Blob(), mode).params
  {
    hide ParseParams, FoolingFields, FoolingParams, LastPart, Traffic.Blob;
    var f := FieldsOf(o, t, mode);
    if mode == "fake" {
      FakeFields(o, t.Blob());
      assert f[1..] == ["repeats=" + o.repeats, "blob=fake_default_" + t.Blob()] + FoolingFields(o.fooling);
    } else if mode == "fakedsplit" {
      FakedSplitFields(o, LastPart(o.splitPos));
      assert f[1..] == ["repeats=" + o.repeats, "pos=" + LastPart(o.splitPos)] + FoolingFields(o.fooling);
    } else {
      Named(o.splitPos);
      ParseTwo("pos", o.splitPos, "pos", o.splitPos);
      assert f[1..] == ["pos=" + o.splitPos];
    }
  }

  lemma LuaTokenTail(o: Options, t: Traffic, mode: string)
    ensures Tail(LuaToken(o, t, mode), '=') == JoinWith(FieldsOf(o, t, mode), ':')
    ensures IsLua(LuaToken(o, t, mode))
  {
    hide FieldsOf, JoinWith;
    var text := JoinWith(FieldsOf(o, t, mode), ':');
    LuaPrefix();
    PartitionOf("--lua-desync", '=', text);
  }

  lemma LuaPrefix()
    ensures "--lua-desync=" == "--lua-desync" + ['='] && '=' !in "--lua-desync"
  {
  }

  /** One mode reads back as the action it asks for exactly when no copied value holds a colon. */
  lemma ModePreservedIff(o: Options, t: Traffic, mode: string)
    requires ModeSupported(o, mode)
    ensures ParseAction(LuaToken(o, t, mode)) == LegacyAction(o, "fake_default_" + t.Blob(), mode) <==> ColonFreeMode(o, mode)
  {
    hide SplitOn, JoinWith, FieldsOf, ParseParams, LuaToken, LegacyAction, ColonFreeMode, ModeSupported, Tail;
    var f := FieldsOf(o, t, mode);
    LuaTokenTail(o, t, mode);
    SplitJoinIff(f, ':');
    FieldsFree(o, t, mode);
    ParseFields(o, t, mode);
    LegacyActionMode(o, "fake_default_" + t.Blob(), mode);
    var g := SplitOn(JoinWith(f, ':'), ':');
    assert |ParseParams(g[1..])| == |g| - 1 && |ParseParams(f[1..])| == |f| - 1;
  }

  lemma LegacyActionMode(o: Options, blob: string, mode: string)
    ensures LegacyAction(o, blob, mode).mode == mode
  {
  }

  // ---- whole profiles ----

  lemma {:induction false} PayloadOfAppend(a: seq<string>, payload: string, b: seq<string>)
    requires IsPayload(payload) && forall i :: 0 <= i < |b| ==> !IsPayload(b[i])
    ensures PayloadOf(a + [payload] + b) == Tail(payload, '=')
  {
    hide IsPayload;
    var s := a + [payload] + b;
    if b == [] {
      assert s[|s| - 1] == payload;
    } else {
      assert s[..|s| - 1] == a + [payload] + b[..|b| - 1];
      assert forall i :: 0 <= i < |b| - 1 ==> b[..|b| - 1][i] == b[i];
      PayloadOfAppend(a, payload, b[..|b| - 1]);
    }
  }

  /** The option names that --new, --lua-desync=, --payload= and --dpi-desync start with differ. */
  lemma KindsDiffer(a: string)
    ensures IsLua(a) ==> !IsPayload(a) && !IsLegacy(a) && !IsFilterOption(a) && a != "--new"
    ensures IsPayload(a) ==> !IsLegacy(a) && !IsFilterOption(a) && a != "--new"
    ensures IsFilterOption(a) ==> !IsLegacy(a) && a != "--new"
    ensures IsLegacy(a) ==> a != "--new"
  {
    if |a| > 2 {
      assert IsLua(a) ==> a[2] == 'l';
      assert IsPayload(a) ==> a[2] == 'p';
      assert IsLegacy(a) ==> a[2] == 'd';
      assert IsFilterOption(a) ==> a[2] == 'f';
      assert a == "--new" ==> a[2] == 'n';
    }
  }

  lemma PayloadTokenTail(profile: seq<string>)
    ensures IsPayload(PayloadToken(profile))
    ensures Tail(PayloadToken(profile), '=') == TrafficOf(Filters(profile)).Payload()
  {
    hide TrafficOf, Filters;
    var value := TrafficOf(Filters(profile)).Payload();
    assert "--payload=" == "--payload" + ['='];
    PartitionOf("--payload", '=', value);
  }

  /** What the compiler emits for a profile splits into its filters, its payload and its actions. */
  lemma CompiledParts(profile: seq<string>)
    requires forall i :: 0 <= i < |profile| ==> !IsLua(profile[i]) && !IsPayload(profile[i])
    ensures var o, t := OptionsOf(profile), TrafficOf(Filters(profile));
            var luas := LuaTokens(o, t, o.modes);
            && Filter(IsFilterPart, Compiled(profile)) == Filters(profile)
            && PayloadOf(Compiled(profile)) == t.Payload()
            && Filter(IsLua, Compiled(profile)) == luas
  {
    hide IsLua, IsPayload, OptionsOf, TrafficOf, LuaTokens, LuaToken, PayloadToken, PayloadOf, Filter;
    var o, t := OptionsOf(profile), TrafficOf(Filters(profile));
    var fs, pay, luas := Filters(profile), PayloadToken(profile), LuaTokens(o, t, o.modes);
    PayloadTokenTail(profile);
    KindsDiffer(pay);
    forall i | 0 <= i < |luas|
      ensures IsLua(luas[i]) && !IsPayload(luas[i])
    {
      LuaTokenTail(o, t, NormalMode(o.modes[i]));
      KindsDiffer(luas[i]);
    }
    forall i | 0 <= i < |fs|
      ensures !IsLua(fs[i]) && !IsPayload(fs[i])
    {
      FilterMember(NotLegacy, profile, fs[i]);
    }
    FilterParts(IsFilterPart, fs, [pay], luas);
    FilterParts(IsLua, fs, [pay], luas);
    FilterAll(IsFilterPart, fs);
    FilterNone(IsFilterPart, [pay]);
    FilterNone(IsFilterPart, luas);
    FilterNone(IsLua, fs);
    FilterNone(IsLua, [pay]);
    FilterAll(IsLua, luas);
    PayloadOfAppend(fs, pay, luas);
  }

  lemma FilterParts<T>(keep: T -> bool, a: seq<T>, b: seq<T>, c: seq<T>)
    ensures Filter(keep, a + b + c) == Filter(keep, a) + Filter(keep, b) + Filter(keep, c)
  {
    FilterAppend(keep, a + b, c);
    FilterAppend(keep, a, b);
  }

  lemma ProfilePreservedIff(profile: seq<string>)
    requires Convertible(profile)
    requires forall i :: 0 <= i < |profile| ==> !IsLua(profile[i]) && !IsPayload(profile[i])
    ensures NativeProfile(Compiled(profile)) == LegacyProfile(profile) <==> ColonFree(profile)
  {
    hide Compiled, OptionsOf, TrafficOf, ImpliedPayload, ImpliedBlob, Traffic.Payload, Traffic.Blob, NormalMode, NewName,
         LegacyAction, LuaToken, ParseAction, ColonFreeMode, Filter, PayloadOf, IsLua, IsPayload;
    CompiledParts(profile);
    var o, t := OptionsOf(profile), TrafficOf(Filters(profile));
    var blob := ImpliedBlob(profile);
    var native, legacy := ParseActions(LuaTokens(o, t, o.modes)), LegacyActions(o, blob, o.modes);
    TrafficImplied(profile);
    ModesOf(profile);
    forall i | 0 <= i < |o.modes|
      ensures native[i] == legacy[i] <==> ColonFreeMode(o, NormalMode(o.modes[i]))
    {
      ModePreservedIff(o, t, NormalMode(o.modes[i]));
      ModeRenamed(o.modes[i]);
    }
  }

  // ---- whole command lines ----

  /** The tokens of a legacy profile that is kept: all from the command line, none a --new. */
  lemma LegacyProfileTokens(args: seq<string>, k: nat, a: string)
    requires k < |LegacyProfiles(args)| && a in LegacyProfiles(args)[k]
    ensures a in args && a != "--new"
  {
    var p := LegacyProfiles(args)[k];
    var ps := SplitOn(args, "--new");
    FilterMember(HasFilters, ps, p);
    var i :| 0 <= i < |ps| && ps[i] == p;
    SplitIsFree(args, "--new");
    assert "--new" !in ps[i] && a in ps[i];
    SplitMember(args, "--new", a);
    assert a in SplitOn(args, "--new")[i];
  }

  lemma CompiledMember(profile: seq<string>, a: string)
    ensures a in Compiled(profile) ==> (a in profile && !IsLegacy(a)) || IsPayload(a) || IsLua(a)
    ensures a in profile && !IsLegacy(a) ==> a in Compiled(profile)
  {
    hide IsLua, IsPayload, IsLegacy, OptionsOf, TrafficOf, LuaToken, PayloadToken;
    var o, t := OptionsOf(profile), TrafficOf(Filters(profile));
    FilterMember(NotLegacy, profile, a);
    PayloadTokenTail(profile);
    var luas := LuaTokens(o, t, o.modes);
    if a in luas {
      var i :| 0 <= i < |luas| && luas[i] == a;
      LuaTokenTail(o, t, NormalMode(o.modes[i]));
    }
  }

  lemma CompiledFree(args: seq<string>)
    ensures Free(CompiledAll(LegacyProfiles(args)), "--new")
  {
    hide Compiled, LegacyProfiles, IsLua, IsPayload, IsLegacy;
    var ps := LegacyProfiles(args);
    forall i | 0 <= i < |ps|
      ensures "--new" !in Compiled(ps[i])
    {
      CompiledMember(ps[i], "--new");
      KindsDiffer("--new");
      if "--new" in ps[i] {
        LegacyProfileTokens(args, i, "--new");
      }
    }
  }

  /** What native_options emits parses back into its profiles. */
  lemma CompiledSplits(args: seq<string>)
    requires LegacyProfiles(args) != []
    ensures SplitOn(CompiledArgs(args), "--new") == CompiledAll(LegacyProfiles(args))
    ensures CompiledArgs(args) != []
  {
    hide Compiled, LegacyProfiles, SplitOn;
    var parts := CompiledAll(LegacyProfiles(args));
    CompiledFree(args);
    SplitOfJoin(parts, "--new");
    CompiledNotEmpty(LegacyProfiles(args)[0]);
    JoinNotEmpty(parts, "--new");
  }

  lemma JoinNotEmpty<T>(parts: seq<seq<T>>, sep: T)
    requires parts != [] && parts[0] != []
    ensures JoinWith(parts, sep) != []
  {
  }

  /**
   Compilation preserves meaning: the native command line has the profiles of the legacy one,
   in order, exactly when no value it copies holds a colon.
   */
  lemma MeaningPreservedIff(args: seq<string>)
    requires TakesLegacyBranch(args) && Accepts(args)
    ensures NativeMeaning(CompiledArgs(args)) == LegacyMeaning(args) <==> ColonFreeArgs(args)
  {
    hide Compiled, LegacyProfiles, CompiledArgs, SplitOn, NativeProfile, LegacyProfile, ColonFree, Convertible, IsLua, IsPayload;
    var ps := LegacyProfiles(args);
    if ps == [] {
      NothingCompiled(args);
    } else {
      CompiledSplits(args);
      forall i | 0 <= i < |ps|
        ensures NativeProfile(Compiled(ps[i])) == LegacyProfile(ps[i]) <==> ColonFree(ps[i])
      {
        forall j | 0 <= j < |ps[i]|
          ensures !IsLua(ps[i][j]) && !IsPayload(ps[i][j])
        {
          LegacyProfileTokens(args, i, ps[i][j]);
        }
        ProfilePreservedIff(ps[i]);
      }
      var native, legacy := NativeMeaning(CompiledArgs(args)), LegacyMeaning(args);
      assert forall i :: 0 <= i < |ps| ==> native[i] == NativeProfile(Compiled(ps[i])) && legacy[i] == LegacyProfile(ps[i]);
    }
  }

  lemma NothingCompiled(args: seq<string>)
    requires LegacyProfiles(args) == []
    ensures CompiledArgs(args) == []
  {
  }

  // ---- the normal form ----

  lemma AnyMember(p: string -> bool, args: seq<string>)
    ensures Any(p, args) <==> exists a :: a in args && p(a)
  {
  }

  /** The tokens of the legacy branch's output: --new, the non-legacy tokens of args, payloads and actions. */
  lemma CompiledArgsMember(args: seq<string>, a: string)
    requires a != "--new"
    ensures a in CompiledArgs(args) ==> (a in args && !IsLegacy(a)) || IsPayload(a) || IsLua(a)
    ensures a in args && !IsLegacy(a) ==> a in CompiledArgs(args)
  {
    hide Compiled, LegacyProfiles, IsLua, IsPayload, IsLegacy;
    var ps := LegacyProfiles(args);
    JoinMember(CompiledAll(ps), "--new", a);
    if a in CompiledArgs(args) {
      var i :| 0 <= i < |ps| && a in Compiled(ps[i]);
      CompiledMember(ps[i], a);
      if a in ps[i] {
        LegacyProfileTokens(args, i, a);
      }
    }
    if a in args && !IsLegacy(a) {
      var i := KeptProfileOf(args, a);
      CompiledMember(ps[i], a);
      assert a in CompiledAll(ps)[i];
    }
  }

  lemma KeptProfileOf(args: seq<string>, a: string) returns (k: nat)
    requires a in args && !IsLegacy(a) && a != "--new"
    ensures k < |LegacyProfiles(args)| && a in LegacyProfiles(args)[k]
  {
    hide IsLegacy;
    var ps := SplitOn(args, "--new");
    SplitMember(args, "--new", a);
    var i :| 0 <= i < |ps| && a in ps[i];
    FilterMember(NotLegacy, ps[i], a);
    FilterMember(HasFilters, ps, ps[i]);
    k :| 0 <= k < |LegacyProfiles(args)| && LegacyProfiles(args)[k] == ps[i];
  }

  /** No legacy option survives the legacy branch. */
  lemma NoLegacyLeft(args: seq<string>)
    ensures !Any(IsLegacy, CompiledArgs(args))
  {
    hide IsLegacy, CompiledArgs;
    var out := CompiledArgs(args);
    forall i | 0 <= i < |out|
      ensures !IsLegacy(out[i])
    {
      KindsDiffer(out[i]);
      if out[i] != "--new" {
        CompiledArgsMember(args, out[i]);
      }
    }
  }

  /** The legacy branch keeps the --filter- options, no more and no fewer. */
  lemma FilterOptionsKept(args: seq<string>)
    ensures Any(IsFilterOption, CompiledArgs(args)) <==> Any(IsFilterOption, args)
  {
    hide IsFilterOption, IsLegacy, IsLua, IsPayload, CompiledArgs, Any;
    AnyMember(IsFilterOption, args);
    AnyMember(IsFilterOption, CompiledArgs(args));
    forall a | IsFilterOption(a)
      ensures a in CompiledArgs(args) <==> a in args
    {
      KindsDiffer(a);
      CompiledArgsMember(args, a);
    }
  }

  lemma CompiledHasPayload(args: seq<string>)
    requires LegacyProfiles(args) != []
    ensures Any(IsPayload, CompiledArgs(args)) && CompiledArgs(args) != []
  {
    hide IsPayload, Filters, OptionsOf, LuaTokens, SplitOn;
    var p := LegacyProfiles(args)[0];
    var a := PayloadToken(p);
    PayloadTokenTail(p);
    KindsDiffer(a);
    assert a in Compiled(p) by {
      assert Compiled(p)[|Filters(p)|] == a;
    }
    assert CompiledAll(LegacyProfiles(args))[0] == Compiled(p);
    JoinMember(CompiledAll(LegacyProfiles(args)), "--new", a);
    AnyMember(IsPayload, CompiledArgs(args));
  }

  /** What makes the legacy branch produce output: an option it copies. */
  predicate IsCopied(a: string) {
    !IsLegacy(a) && a != "--new"
  }

  lemma OutputIff(args: seq<string>)
    ensures CompiledArgs(args) != [] <==> Any(IsCopied, args)
  {
    hide IsLegacy, CompiledArgs, LegacyProfiles, HasFilters;
    AnyMember(IsCopied, args);
    if a :| a in args && IsCopied(a) {
      CompiledArgsMember(args, a);
    }
    if LegacyProfiles(args) == [] {
      NothingCompiled(args);
    } else {
      var a := CopiedFrom(args);
      assert IsCopied(a);
    }
  }

  lemma CopiedFrom(args: seq<string>) returns (a: string)
    requires LegacyProfiles(args) != []
    ensures a in args && IsCopied(a)
  {
    hide IsLegacy, LegacyProfiles;
    var p := LegacyProfiles(args)[0];
    KeptHasFilters(args);
    a := Filters(p)[0];
    FilterMember(NotLegacy, p, a);
    LegacyProfileTokens(args, 0, a);
  }

  lemma KeptHasFilters(args: seq<string>)
    requires LegacyProfiles(args) != []
    ensures HasFilters(LegacyProfiles(args)[0])
  {
    hide HasFilters;
    FilterMember(HasFilters, SplitOn(args, "--new"), LegacyProfiles(args)[0]);
  }

  /**
   native_options reaches a normal form in one step, except when the legacy branch copies an
   option, is given a protocol, and sees no --filter- option: then a second run adds a filter.
   */
  lemma NormalFormIff(args: seq<string>, protocol: string)
    requires Accepts(args)
    ensures var out := Native(args, protocol);
            && Accepts(out)
            && !TakesLegacyBranch(out)
            && (Native(out, protocol) == out <==>
                !(TakesLegacyBranch(args) && Any(IsCopied, args) && protocol != "" && !Any(IsFilterOption, args)))
  {
    hide IsCopied, IsLegacy, IsLua, IsPayload, IsFilterOption, CompiledArgs, LegacyProfiles, FilterFor, AllConvertible;
    if TakesLegacyBranch(args) {
      NoLegacyLeft(args);
      FilterOptionsKept(args);
      OutputIff(args);
      if LegacyProfiles(args) == [] {
        NothingCompiled(args);
      } else {
        CompiledHasPayload(args);
      }
    } else {
      PassThroughKeeps(args, protocol);
    }
  }

  lemma PassThroughKeeps(args: seq<string>, protocol: string)
    requires !TakesLegacyBranch(args)
    ensures var out := PassThrough(args, protocol);
            !TakesLegacyBranch(out) && PassThrough(out, protocol) == out
  {
    hide IsLegacy, IsLua, IsPayload, IsFilterOption, FilterFor;
    var f := FilterFor(protocol);
    var out := PassThrough(args, protocol);
    FilterForIsFilter(protocol);
    KindsDiffer(f);
    if out != args {
      assert out == [f] + args;
      assert IsFilterOption(out[0]);
      assert forall i :: 0 <= i < |args| ==> out[i + 1] == args[i];
      assert forall i :: 0 < i < |out| ==> out[i] == args[i - 1];
    }
  }

  lemma FilterForIsFilter(protocol: string)
    ensures IsFilterOption(FilterFor(protocol))
  {
  }

  // ---- command lines that show the conditions are needed ----

  /** What one more token, read as key and value, adds to the options of a profile. */
  lemma OneMoreToken(front: seq<string>, a: string)
    ensures var p, o, key, value := front + [a], OptionsOf(front), Head(a, '='), Tail(a, '=');
            && (OptionsKnown(p) <==> OptionsKnown(front) && (IsLegacy(key) ==> KnownKey(key)))
            && (key == "--dpi-desync" ==> OptionsOf(p) == o.(modes := o.modes + SplitOn(value, ',')))
            && (key == "--dpi-desync-split-pos" ==> OptionsOf(p) == o.(splitPos := value))
            && (key == "--dpi-desync-repeats" ==> OptionsOf(p) == o.(repeats := value))
            && (key == "--dpi-desync-fooling" ==> OptionsOf(p) == o.(fooling := SplitOn(value, ',')))
            && (!KnownKey(key) ==> OptionsOf(p) == o)
  {
    hide Head, Tail, SplitOn, IsLegacy;
    var p := front + [a];
    assert p[..|p| - 1] == front;
    assert forall i :: 0 <= i < |front| ==> p[i] == front[i];
  }

  /** The same for a token key=value: later options overwrite, modes add up. */
  lemma OneMoreOption(front: seq<string>, key: string, value: string)
    requires '=' !in key
    ensures var p, o := front + [key + ['='] + value], OptionsOf(front);
            && (OptionsKnown(p) <==> OptionsKnown(front) && (IsLegacy(key) ==> KnownKey(key)))
            && (key == "--dpi-desync" ==> OptionsOf(p) == o.(modes := o.modes + SplitOn(value, ',')))
            && (key == "--dpi-desync-split-pos" ==> OptionsOf(p) == o.(splitPos := value))
            && (key == "--dpi-desync-repeats" ==> OptionsOf(p) == o.(repeats := value))
            && (key == "--dpi-desync-fooling" ==> OptionsOf(p) == o.(fooling := SplitOn(value, ',')))
            && (!KnownKey(key) ==> OptionsOf(p) == o)
  {
    hide OptionsOf, OptionsKnown, SplitOn, IsLegacy;
    PartitionOf(key, '=', value);
    OneMoreToken(front, key + ['='] + value);
  }

  lemma OneProfile(args: seq<string>)
    requires "--new" !in args && Any(IsCopied, args)
    ensures LegacyProfiles(args) == [args]
  {
    hide IsLegacy, SplitOn;
    SplitPart(args, "--new", []);
    AnyMember(IsCopied, args);
    var a :| a in args && IsCopied(a);
    FilterMember(NotLegacy, args, a);
    var none: seq<seq<string>> := [];
    assert HasFilters(args);
    FilterLast(HasFilters, none, args);
    assert none + [args] == [args];
  }

  lemma LegacyLetter(a: string)
    ensures IsLegacy(a) || KnownKey(a) ==> |a| > 2 && a[2] == 'd'
  {
  }

  /** The keys of the examples. */
  lemma Keys()
    ensures '=' !in "--filter-tcp" && !IsLegacy("--filter-tcp") && !KnownKey("--filter-tcp")
    ensures '=' !in "--dpi-desync" && KnownKey("--dpi-desync")
    ensures '=' !in "--dpi-desync-split-pos" && KnownKey("--dpi-desync-split-pos")
  {
    LegacyLetter("--filter-tcp");
  }

  /** The kinds of the tokens of the examples. */
  lemma Kinds(value: string)
    ensures IsFilterOption("--filter-tcp" + ['='] + value)
    ensures IsLegacy("--dpi-desync" + ['='] + value)
    ensures IsLegacy("--dpi-desync-split-pos" + ['='] + value)
  {
  }

  /** --filter-tcp=443 followed by one mode. */
  lemma FilterAndMode(filter: string, asked: string, mode: string)
    requires filter == "--filter-tcp" + ['='] + "443" && asked == "--dpi-desync" + ['='] + mode && ',' !in mode
    ensures OptionsKnown([filter, asked]) && OptionsOf([filter, asked]) == DEFAULTS.(modes := [mode])
  {
    hide SplitOn, IsLegacy, KnownKey, OptionsOf, OptionsKnown;
    Keys();
    NoOptions();
    OneMoreOption([], "--filter-tcp", "443");
    assert [] + [filter] == [filter];
    OneMoreOption([filter], "--dpi-desync", mode);
    assert [filter] + [asked] == [filter, asked];
    SplitPart(mode, ',', "");
  }

  lemma NoOptions()
    ensures OptionsKnown([]) && OptionsOf([]) == Options([], "2", "1", [])
  {
  }

  /** A command line of one filter and then legacy options is one profile of the legacy branch. */
  lemma FilterThenLegacy(args: seq<string>, value: string)
    requires |args| >= 2 && args[0] == "--filter-tcp" + ['='] + value && forall i :: 0 < i < |args| ==> IsLegacy(args[i])
    ensures TakesLegacyBranch(args) && LegacyProfiles(args) == [args]
  {
    hide IsLegacy, IsFilterOption, IsLua, IsPayload, LegacyProfiles;
    Kinds(value);
    forall i | 0 <= i < |args|
      ensures !IsLua(args[i]) && !IsPayload(args[i]) && args[i] != "--new"
    {
      KindsDiffer(args[i]);
    }
    KindsDiffer(args[0]);
    assert IsCopied(args[0]) && IsLegacy(args[1]);
    OneProfile(args);
  }

  /** A mode nobody knows is refused. */
  lemma UnknownModeRefused(args: seq<string>)
    requires args == ["--filter-tcp" + ['='] + "443", "--dpi-desync" + ['='] + "bogus"]
    ensures TakesLegacyBranch(args) && !Accepts(args)
  {
    hide IsLegacy, OptionsOf, OptionsKnown, LegacyProfiles, ModeSupported, TakesLegacyBranch;
    Kinds("bogus");
    FilterThenLegacy(args, "443");
    FilterAndMode(args[0], args[1], "bogus");
    ModesOf(args);
    BogusMode(OptionsOf(args));
    assert ModesAsked(args)[0] == "bogus";
    assert !Convertible(LegacyProfiles(args)[0]);
  }

  lemma BogusMode(o: Options)
    ensures !ModeSupported(o, NormalMode("bogus"))
  {
  }

  /** A colon in a split position is lost: 1:2 does not come back as the position asked for. */
  lemma ColonIsLost(args: seq<string>)
    requires args == ["--filter-tcp" + ['='] + "443", "--dpi-desync" + ['='] + "split", "--dpi-desync-split-pos" + ['='] + "1:2"]
    ensures TakesLegacyBranch(args) && Accepts(args)
    ensures NativeMeaning(CompiledArgs(args)) != LegacyMeaning(args)
  {
    hide IsLegacy, OptionsOf, OptionsKnown, LegacyProfiles, NativeMeaning, LegacyMeaning, CompiledArgs, TakesLegacyBranch,
         ModeSupported, NormalMode, ColonFreeMode, KnownKey, SplitOn;
    Kinds("split");
    Kinds("1:2");
    Keys();
    FilterThenLegacy(args, "443");
    FilterAndMode(args[0], args[1], "split");
    OneMoreOption(args[..2], "--dpi-desync-split-pos", "1:2");
    assert args == args[..2] + [args[2]] && args[..2] == [args[0], args[1]];
    ModesOf(args);
    SplitMode(OptionsOf(args));
    assert Convertible(args);
    assert !ColonFreeMode(OptionsOf(args), NormalMode(OptionsOf(args).modes[0]));
    assert !ColonFree(LegacyProfiles(args)[0]);
    MeaningPreservedIff(args);
  }

  lemma SplitMode(o: Options)
    requires o.splitPos == "1:2"
    ensures ModeSupported(o, NormalMode("split")) && !ColonFreeMode(o, NormalMode("split"))
  {
    assert o.splitPos[1] == ':';
  }

  /** The normal form is missed: a second run puts a filter in front. */
  lemma SecondRunAddsFilter(args: seq<string>)
    requires args == ["--dpi-desync" + ['='] + "fake", "--foo"]
    ensures TakesLegacyBranch(args) && Accepts(args)
    ensures Native(Native(args, "QUIC"), "QUIC") != Native(args, "QUIC")
  {
    hide IsLegacy, IsFilterOption, IsLua, IsPayload, OptionsOf, OptionsKnown, LegacyProfiles, CompiledArgs, ModeSupported, NormalMode,
         FilterFor, Native, Convertible;
    Kinds("fake");
    FooKind();
    KindsDiffer(args[0]);
    assert IsCopied(args[1]) && IsLegacy(args[0]);
    OneProfile(args);
    FakeConvertible(args);
    NormalFormIff(args, "QUIC");
  }

  lemma FooKind()
    ensures !IsLua("--foo") && !IsPayload("--foo") && !IsFilterOption("--foo") && !IsLegacy("--foo") && IsCopied("--foo")
  {
  }

  lemma FakeConvertible(args: seq<string>)
    requires args == ["--dpi-desync" + ['='] + "fake", "--foo"]
    ensures Convertible(args)
  {
    hide OptionsOf, OptionsKnown, SplitOn, IsLegacy, KnownKey;
    var o := DEFAULTS.(modes := ["fake"]);
    Keys();
    NoOptions();
    OneMoreOption([], "--dpi-desync", "fake");
    assert [] + [args[0]] == [args[0]];
    SplitPart("fake", ',', "");
    FooAdds(args[..1]);
    assert args == args[..1] + ["--foo"] && args[..1] == [args[0]];
    ModesOf(args);
    assert ModeSupported(o, NormalMode("fake"));
  }

  lemma FooAdds(front: seq<string>)
    ensures OptionsKnown(front + ["--foo"]) <==> OptionsKnown(front)
    ensures OptionsOf(front + ["--foo"]) == OptionsOf(front)
  {
    PartitionOf("--foo", '=', "");
    var p := front + ["--foo"];
    assert p[..|p| - 1] == front;
    assert forall i :: 0 <= i < |front| ==> p[i] == front[i];
  }
}
