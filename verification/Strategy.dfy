/**
 native_options of src/strategy.py: the compiler from legacy --dpi-desync option lists to
 native --lua-desync programs. The functions say what a legacy profile asks for (the last of
 several options wins) and what text that becomes; the methods are the code's loops.
 Command lines are lists of tokens, as shlex.split returns them.
 */
module Strategy {
  import opened Sequences
  import opened Text
  import opened Wrappers

  datatype Error = UnsupportedOption(key: string) | UnsupportedFooling | UnsupportedMode(mode: string)

  predicate IsLegacy(a: string) {
    StartsWith(a, "--dpi-desync")
  }

  predicate NotLegacy(a: string) {
    !IsLegacy(a)
  }

  predicate IsLua(a: string) {
    StartsWith(a, "--lua-desync=")
  }

  predicate IsPayload(a: string) {
    StartsWith(a, "--payload=")
  }

  predicate IsFilterOption(a: string) {
    StartsWith(a, "--filter-")
  }

  predicate IsUdpFilter(a: string) {
    StartsWith(a, "--filter-udp=")
  }

  predicate Any(p: string -> bool, args: seq<string>) {
    exists i :: 0 <= i < |args| && p(args[i])
  }

  // ---- what a legacy profile asks for ----

  datatype Options = Options(modes: seq<string>, splitPos: string, repeats: string, fooling: seq<string>)

  const DEFAULTS := Options([], "2", "1", [])

  predicate KnownKey(key: string) {
    key in {"--dpi-desync", "--dpi-desync-split-pos", "--dpi-desync-repeats", "--dpi-desync-fooling"}
  }

  predicate OptionKnown(a: string) {
    IsLegacy(Head(a, '=')) ==> KnownKey(Head(a, '='))
  }

  /** Every --dpi-desync* option of the profile is one the compiler understands. */
  predicate OptionsKnown(profile: seq<string>) {
    forall i :: 0 <= i < |profile| ==> OptionKnown(profile[i])
  }

  /** The value of the last option with this key, or the default. */
  function LastValue(profile: seq<string>, key: string, default: string): string {
    if profile == [] then default
    else if Head(profile[|profile| - 1], '=') == key then Tail(profile[|profile| - 1], '=')
    else LastValue(profile[..|profile| - 1], key, default)
  }

  /** The modes of all --dpi-desync= options, in order. */
  function ModesAsked(profile: seq<string>): seq<string> {
    if profile == [] then []
    else ModesAsked(profile[..|profile| - 1])
         + if Head(profile[|profile| - 1], '=') == "--dpi-desync" then SplitOn(Tail(profile[|profile| - 1], '='), ',') else []
  }

  function FoolingAsked(profile: seq<string>): seq<string> {
    if profile == [] then []
    else if Head(profile[|profile| - 1], '=') == "--dpi-desync-fooling" then SplitOn(Tail(profile[|profile| - 1], '='), ',')
    else FoolingAsked(profile[..|profile| - 1])
  }

  function OptionsOf(profile: seq<string>): Options {
    Options(ModesAsked(profile), LastValue(profile, "--dpi-desync-split-pos", "2"),
            LastValue(profile, "--dpi-desync-repeats", "1"), FoolingAsked(profile))
  }

  function NormalMode(mode: string): string {
    if mode == "split" then "multisplit" else if mode == "disorder" then "multidisorder" else mode
  }

  predicate SendsFakes(mode: string) {
    mode == "fake" || mode == "fakedsplit"
  }

  predicate Splits(mode: string) {
    mode == "multisplit" || mode == "multidisorder"
  }

  predicate FoolingKnown(fooling: seq<string>) {
    forall i :: 0 <= i < |fooling| ==> fooling[i] in {"md5sig", "badseq", "ts"}
  }

  predicate ModeSupported(o: Options, mode: string) {
    Splits(mode) || (SendsFakes(mode) && FoolingKnown(o.fooling))
  }

  predicate ModesSupported(o: Options, modes: seq<string>) {
    forall i :: 0 <= i < |modes| ==> ModeSupported(o, NormalMode(modes[i]))
  }

  predicate Convertible(profile: seq<string>) {
    OptionsKnown(profile) && ModesSupported(OptionsOf(profile), ModesAsked(profile))
  }

  function Filters(profile: seq<string>): seq<string> {
    Filter(NotLegacy, profile)
  }

  datatype Traffic = Quic | Http | Tls {
    function Payload(): string {
      match this case Quic => "quic_initial" case Http => "http_req" case Tls => "tls_client_hello"
    }
    function Blob(): string {
      match this case Quic => "quic" case Http => "http" case Tls => "tls"
    }
  }

  function TrafficOf(filters: seq<string>): Traffic {
    if Any(IsUdpFilter, filters) then Quic else if "--filter-tcp=80" in filters then Http else Tls
  }

  // ---- the text of a native program ----

  function FoolingFields(fooling: seq<string>): seq<string> {
    (if "md5sig" in fooling then ["tcp_md5"] else [])
    + (if "badseq" in fooling then ["tcp_seq=-10000", "tcp_ack=-66000"] else [])
    + (if "ts" in fooling then ["tcp_ts=-600000"] else [])
  }

  function LastPart(s: string): string {
    var parts := SplitOn(s, ',');
    parts[|parts| - 1]
  }

  function FieldsOf(o: Options, t: Traffic, mode: string): (r: seq<string>)
    ensures r != [] && r[0] == mode
  {
    if mode == "fake" then [mode, "repeats=" + o.repeats, "blob=fake_default_" + t.Blob()] + FoolingFields(o.fooling)
    else if mode == "fakedsplit" then [mode, "repeats=" + o.repeats, "pos=" + LastPart(o.splitPos)] + FoolingFields(o.fooling)
    else [mode, "pos=" + o.splitPos]
  }

  function LuaToken(o: Options, t: Traffic, mode: string): string {
    "--lua-desync=" + JoinWith(FieldsOf(o, t, mode), ':')
  }

  function LuaTokens(o: Options, t: Traffic, modes: seq<string>): (r: seq<string>)
    ensures |r| == |modes|
    ensures forall i :: 0 <= i < |r| ==> r[i] == LuaToken(o, t, NormalMode(modes[i]))
  {
    seq(|modes|, i requires 0 <= i < |modes| => LuaToken(o, t, NormalMode(modes[i])))
  }

  function PayloadToken(profile: seq<string>): string {
    "--payload=" + TrafficOf(Filters(profile)).Payload()
  }

  function Compiled(profile: seq<string>): seq<string> {
    var o, t := OptionsOf(profile), TrafficOf(Filters(profile));
    Filters(profile) + [PayloadToken(profile)] + LuaTokens(o, t, o.modes)
  }

  predicate HasFilters(profile: seq<string>) {
    Filters(profile) != []
  }

  /** The profiles that produce output: those with something other than --dpi-desync* options. */
  function Kept(profiles: seq<seq<string>>): seq<seq<string>> {
    Filter(HasFilters, profiles)
  }

  function CompiledAll(profiles: seq<seq<string>>): (r: seq<seq<string>>)
    ensures |r| == |profiles|
    ensures forall i :: 0 <= i < |r| ==> r[i] == Compiled(profiles[i])
  {
    seq(|profiles|, i requires 0 <= i < |profiles| => Compiled(profiles[i]))
  }

  predicate AllConvertible(profiles: seq<seq<string>>) {
    forall i :: 0 <= i < |profiles| ==> Convertible(profiles[i])
  }

  function LegacyProfiles(args: seq<string>): seq<seq<string>> {
    Kept(SplitOn(args, "--new"))
  }

  function CompiledArgs(args: seq<string>): seq<string> {
    JoinWith(CompiledAll(LegacyProfiles(args)), "--new")
  }

  // ---- the pass-through branch ----

  function FilterFor(protocol: string): string {
    var p := Upper(protocol);
    if Contains(p, "QUIC") || Contains(p, "UDP") then "--filter-udp=443"
    else if StartsWith(p, "HTTP") && !StartsWith(p, "HTTPS") && !Contains(p, "TLS") then "--filter-tcp=80"
    else "--filter-tcp=443"
  }

  function PassThrough(args: seq<string>, protocol: string): seq<string> {
    if protocol != "" && !Any(IsFilterOption, args) then [FilterFor(protocol)] + args else args
  }

  predicate TakesLegacyBranch(args: seq<string>) {
    !Any(IsLua, args) && !Any(IsPayload, args) && Any(IsLegacy, args)
  }

  predicate Accepts(args: seq<string>) {
    TakesLegacyBranch(args) ==> AllConvertible(LegacyProfiles(args))
  }

  /** What native_options returns on a list it accepts. */
  function Native(args: seq<string>, protocol: string): seq<string> {
    if args == [] then []
    else if TakesLegacyBranch(args) then CompiledArgs(args)
    else PassThrough(args, protocol)
  }

  // ---- which error a list that is not accepted gives ----

  /** Option i is the first that the compiler does not understand. */
  ghost predicate OptionFailsAt(profile: seq<string>, i: nat, e: Error)
    requires i < |profile|
  {
    && (forall j :: 0 <= j < i ==> OptionKnown(profile[j]))
    && !OptionKnown(profile[i]) && e == UnsupportedOption(Head(profile[i], '='))
  }

  ghost predicate ModeFails(o: Options, mode: string, e: Error) {
    !ModeSupported(o, mode) && e == if SendsFakes(mode) then UnsupportedFooling else UnsupportedMode(mode)
  }

  ghost predicate ModeFailsAt(o: Options, i: nat, e: Error)
    requires i < |o.modes|
  {
    && (forall j :: 0 <= j < i ==> ModeSupported(o, NormalMode(o.modes[j])))
    && ModeFails(o, NormalMode(o.modes[i]), e)
  }

  /** All options are read before any mode is compiled. */
  ghost predicate ProfileFails(profile: seq<string>, e: Error) {
    if !OptionsKnown(profile) then exists i :: 0 <= i < |profile| && OptionFailsAt(profile, i, e)
    else exists i :: 0 <= i < |OptionsOf(profile).modes| && ModeFailsAt(OptionsOf(profile), i, e)
  }

  /** The first profile that cannot be converted decides. */
  ghost predicate FailsAt(profiles: seq<seq<string>>, i: nat, e: Error)
    requires i < |profiles|
  {
    (forall j :: 0 <= j < i ==> Convertible(profiles[j])) && ProfileFails(profiles[i], e)
  }

  ghost predicate FailsWith(profiles: seq<seq<string>>, e: Error) {
    exists i :: 0 <= i < |profiles| && FailsAt(profiles, i, e)
  }

  lemma ProfileErrorUnique(profile: seq<string>, a: Error, b: Error)
    requires ProfileFails(profile, a) && ProfileFails(profile, b)
    ensures a == b && !Convertible(profile)
  {
    hide NormalMode, OptionKnown, ModeSupported, OptionsOf, OptionsKnown;
    ModesOf(profile);
    if OptionsKnown(profile) {
      var i :| 0 <= i < |OptionsOf(profile).modes| && ModeFailsAt(OptionsOf(profile), i, a);
      var j :| 0 <= j < |OptionsOf(profile).modes| && ModeFailsAt(OptionsOf(profile), j, b);
      assert i == j;
    } else {
      var i :| 0 <= i < |profile| && OptionFailsAt(profile, i, a);
      var j :| 0 <= j < |profile| && OptionFailsAt(profile, j, b);
      assert i == j;
    }
  }

  lemma ModesOf(profile: seq<string>)
    ensures OptionsOf(profile).modes == ModesAsked(profile)
  {
  }

  /** The error is determined, and given only for lists that are not accepted. */
  lemma ErrorUnique(profiles: seq<seq<string>>, a: Error, b: Error)
    requires FailsWith(profiles, a) && FailsWith(profiles, b)
    ensures a == b && !AllConvertible(profiles)
  {
    hide ProfileFails, Convertible;
    var i :| 0 <= i < |profiles| && FailsAt(profiles, i, a);
    var j :| 0 <= j < |profiles| && FailsAt(profiles, j, b);
    ProfileErrorUnique(profiles[i], a, a);
    ProfileErrorUnique(profiles[j], b, b);
    assert i == j;
    ProfileErrorUnique(profiles[i], a, b);
  }

  // ---- the loops of native_options ----

  /** The loop that splits the arguments at --new. */
  method SplitProfiles(args: seq<string>) returns (profiles: seq<seq<string>>)
    ensures profiles == SplitOn(args, "--new")
  {
    profiles := [[]];
    for i := 0 to |args|
      invariant profiles == SplitOn(args[..i], "--new")
    {
      hide SplitOn;
      SplitSnoc(args[..i], "--new", args[i]);
      assert args[..i + 1] == args[..i] + [args[i]];
      if args[i] == "--new" {
        profiles := profiles + [[]];
      } else {
        profiles := profiles[..|profiles| - 1] + [profiles[|profiles| - 1] + [args[i]]];
      }
    }
    assert args[..|args|] == args;
  }

  lemma KnownKeys(a: string)
    ensures KnownKey(Head(a, '=')) ==> OptionKnown(a)
  {
  }

  /** The loop over one profile's arguments; later options overwrite earlier ones. */
  method ReadOptions(profile: seq<string>) returns (r: Result<Options, Error>)
    ensures r.Success? <==> OptionsKnown(profile)
    ensures r.Success? ==> r.value == OptionsOf(profile)
    ensures r.Failure? ==> exists i :: 0 <= i < |profile| && OptionFailsAt(profile, i, r.error)
  {
    hide Head, Tail, SplitOn, IsLegacy;
    var o := DEFAULTS;
    for i := 0 to |profile|
      invariant forall j :: 0 <= j < i ==> OptionKnown(profile[j])
      invariant o == OptionsOf(profile[..i])
    {
      var key, value := Head(profile[i], '='), Tail(profile[i], '=');
      assert profile[..i + 1][..i] == profile[..i];
      KnownKeys(profile[i]);
      if key == "--dpi-desync" {
        o := o.(modes := o.modes + SplitOn(value, ','));
      } else if key == "--dpi-desync-split-pos" {
        o := o.(splitPos := value);
      } else if key == "--dpi-desync-repeats" {
        o := o.(repeats := value);
      } else if key == "--dpi-desync-fooling" {
        o := o.(fooling := SplitOn(value, ','));
      } else if IsLegacy(key) {
        assert OptionFailsAt(profile, i, UnsupportedOption(key));
        return Failure(UnsupportedOption(key));
      }
    }
    assert profile[..|profile|] == profile;
    r := Success(o);
  }

  /** The fooling part of a spec. */
  method AppendFooling(spec: seq<string>, fooling: seq<string>) returns (r: seq<string>)
    ensures r == spec + FoolingFields(fooling)
  {
    r := spec;
    if "md5sig" in fooling {
      r := r + ["tcp_md5"];
    }
    if "badseq" in fooling {
      r := r + ["tcp_seq=-10000", "tcp_ack=-66000"];
    }
    if "ts" in fooling {
      r := r + ["tcp_ts=-600000"];
    }
  }

  /** The body of the loop over modes. */
  method CompileMode(o: Options, t: Traffic, asked: string) returns (r: Result<string, Error>)
    ensures r.Success? <==> ModeSupported(o, NormalMode(asked))
    ensures r.Success? ==> r.value == LuaToken(o, t, NormalMode(asked))
    ensures r.Failure? ==> ModeFails(o, NormalMode(asked), r.error)
  {
    hide JoinWith, FoolingFields, FoolingKnown, LastPart, NormalMode;
    var mode := NormalMode(asked);
    if SendsFakes(mode) {
      var spec := [mode, "repeats=" + o.repeats];
      spec := spec + [if mode == "fake" then "blob=fake_default_" + t.Blob() else "pos=" + LastPart(o.splitPos)];
      if !FoolingKnown(o.fooling) {
        assert !Splits(mode);
        return Failure(UnsupportedFooling);
      }
      spec := AppendFooling(spec, o.fooling);
      assert spec == FieldsOf(o, t, mode);
      r := Success("--lua-desync=" + JoinWith(spec, ':'));
    } else if Splits(mode) {
      JoinTwo(mode, "pos=" + o.splitPos, ':');
      assert FieldsOf(o, t, mode) == [mode, "pos=" + o.splitPos];
      r := Success("--lua-desync=" + (mode + ":" + ("pos=" + o.splitPos)));
    } else {
      r := Failure(UnsupportedMode(mode));
    }
  }

  lemma LuaTokensSnoc(o: Options, t: Traffic, modes: seq<string>, i: nat)
    requires i < |modes|
    ensures LuaTokens(o, t, modes[..i + 1]) == LuaTokens(o, t, modes[..i]) + [LuaToken(o, t, NormalMode(modes[i]))]
    ensures LuaTokens(o, t, modes[..0]) == [] && modes[..|modes|] == modes
  {
  }

  /** One turn of the loop over profiles, for a profile with filters. */
  method CompileProfile(profile: seq<string>) returns (r: Result<seq<string>, Error>)
    ensures r.Success? <==> Convertible(profile)
    ensures r.Success? ==> r.value == Compiled(profile)
    ensures r.Failure? ==> ProfileFails(profile, r.error)
  {
    hide ModeFails, OptionFailsAt, LuaTokens, LuaToken, NormalMode, ModeSupported, OptionsKnown, Filters, TrafficOf, Traffic.Payload;
    var filters := Filters(profile);
    var t := TrafficOf(filters);
    var read := ReadOptions(profile);
    if read.Failure? {
      return Failure(read.error);
    }
    var o := read.value;
    var out := filters + ["--payload=" + t.Payload()];
    if |o.modes| > 0 {
      LuaTokensSnoc(o, t, o.modes, 0);
    } else {
      assert LuaTokens(o, t, o.modes) == LuaTokens(o, t, o.modes[..0]) == [];
    }
    for i := 0 to |o.modes|
      invariant forall j :: 0 <= j < i ==> ModeSupported(o, NormalMode(o.modes[j]))
      invariant out == filters + [PayloadToken(profile)] + LuaTokens(o, t, o.modes[..i])
    {
      var token := CompileMode(o, t, o.modes[i]);
      if token.Failure? {
        assert ModeFailsAt(o, i, token.error);
        return Failure(token.error);
      }
      LuaTokensSnoc(o, t, o.modes, i);
      out := out + [token.value];
    }
    assert o.modes[..|o.modes|] == o.modes;
    r := Success(out);
  }

  /** The output so far, once another kept profile is appended. */
  lemma CompiledSnoc(kept: seq<seq<string>>, profile: seq<string>)
    ensures JoinWith(CompiledAll(kept + [profile]), "--new")
            == (if kept == [] then [] else JoinWith(CompiledAll(kept), "--new") + ["--new"]) + Compiled(profile)
    ensures JoinWith(CompiledAll(kept + [profile]), "--new") != []
  {
    hide Compiled, JoinWith;
    assert CompiledAll(kept + [profile]) == CompiledAll(kept) + [Compiled(profile)];
    JoinSnoc(CompiledAll(kept), "--new", Compiled(profile));
    CompiledNotEmpty(profile);
  }

  lemma CompiledNotEmpty(profile: seq<string>)
    ensures Compiled(profile) != []
  {
  }

  lemma KeptSnoc(profiles: seq<seq<string>>, i: nat)
    requires i < |profiles|
    ensures HasFilters(profiles[i]) ==> Kept(profiles[..i + 1]) == Kept(profiles[..i]) + [profiles[i]]
    ensures !HasFilters(profiles[i]) ==> Kept(profiles[..i + 1]) == Kept(profiles[..i])
  {
    assert profiles[..i + 1][..i] == profiles[..i];
  }

  /** The kept profiles before a kept profile come before it in the kept list. */
  lemma KeptAt(profiles: seq<seq<string>>, i: nat)
    requires i < |profiles| && HasFilters(profiles[i])
    ensures var k := |Kept(profiles[..i])|;
            k < |Kept(profiles)| && Kept(profiles)[..k] == Kept(profiles[..i]) && Kept(profiles)[k] == profiles[i]
  {
    hide Kept, HasFilters;
    KeptSnoc(profiles, i);
    KeptOfAppend(profiles[..i + 1], profiles[i + 1..]);
    assert profiles == profiles[..i + 1] + profiles[i + 1..];
  }

  lemma KeptOfAppend(a: seq<seq<string>>, b: seq<seq<string>>)
    ensures Kept(a + b) == Kept(a) + Kept(b)
  {
    FilterAppend(HasFilters, a, b);
  }

  /** The loop over profiles. */
  method CompileProfiles(profiles: seq<seq<string>>) returns (r: Result<seq<string>, Error>)
    ensures r.Success? <==> AllConvertible(Kept(profiles))
    ensures r.Success? ==> r.value == JoinWith(CompiledAll(Kept(profiles)), "--new")
    ensures r.Failure? ==> FailsWith(Kept(profiles), r.error)
  {
    hide ProfileFails, Kept, CompiledAll, JoinWith, Convertible, Compiled, HasFilters;
    KeptOfNone(profiles);
    var result: seq<string> := [];
    for i := 0 to |profiles|
      invariant AllConvertible(Kept(profiles[..i]))
      invariant result == JoinWith(CompiledAll(Kept(profiles[..i])), "--new")
      invariant result == [] <==> Kept(profiles[..i]) == []
    {
      KeptSnoc(profiles, i);
      ghost var kept := Kept(profiles[..i]);
      if HasFilters(profiles[i]) {
        var compiled := CompileProfile(profiles[i]);
        if compiled.Failure? {
          KeptAt(profiles, i);
          assert FailsAt(Kept(profiles), |kept|, compiled.error);
          return Failure(compiled.error);
        }
        CompiledSnoc(kept, profiles[i]);
        if result != [] {
          result := result + ["--new"];
        }
        result := result + compiled.value;
      }
    }
    r := Success(result);
  }

  lemma KeptOfNone(profiles: seq<seq<string>>)
    ensures Kept(profiles[..0]) == [] && profiles[..|profiles|] == profiles
    ensures JoinWith(CompiledAll([]), "--new") == []
  {
  }

  /** native_options. */
  method NativeOptions(args: seq<string>, protocol: string) returns (r: Result<seq<string>, Error>)
    ensures r.Success? <==> Accepts(args)
    ensures r.Success? ==> r.value == Native(args, protocol)
    ensures r.Failure? ==> FailsWith(LegacyProfiles(args), r.error)
  {
    if args == [] {
      return Success([]);
    }
    var hasLua := Any(IsLua, args) || Any(IsPayload, args);
    var hasLegacy := Any(IsLegacy, args);
    if hasLua || !hasLegacy {
      return Success(PassThrough(args, protocol));
    }
    var profiles := SplitProfiles(args);
    var result := CompileProfiles(profiles);
    r := result;
  }
}
