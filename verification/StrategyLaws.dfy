/**
 What the parts of native_options amount to, said of whole texts and token lists: which lists
 it accepts, which branch it takes, which filter it adds, and which position a fake split uses.
 */
module StrategyLaws {
  import opened Sequences
  import opened Text
  import opened Strategy
  import opened StrategyMeaning

  /** The position a fakedsplit gets is what follows the last comma. */
  lemma LastPartOf(before: string, last: string)
    requires ',' !in last
    ensures LastPart(before + [','] + last) == last
    ensures LastPart(last) == last
  {
    hide SplitOn;
    SplitPart(last, ',', "");
    SplitAround(before, last);
  }

  lemma {:induction false} SplitAround(before: string, last: string)
    requires ',' !in last
    ensures SplitOn(before + [','] + last, ',') == SplitOn(before, ',') + [last]
  {
    var s := before + [','] + last;
    if before == "" {
      SplitPart("", ',', last);
      SplitPart(last, ',', "");
      assert s == "" + [','] + last;
    } else {
      SplitAround(before[1..], last);
      assert s[1..] == before[1..] + [','] + last;
    }
  }

  const MODES: set<string> := {"fake", "fakedsplit", "split", "disorder", "multisplit", "multidisorder"}

  /**
   A profile can be converted exactly when its --dpi-desync* options are the four known ones,
   its modes the six known ones, and, if it sends fakes, its foolings the three known ones.
   */
  lemma ConvertibleIff(profile: seq<string>)
    ensures Convertible(profile) <==>
            && (forall a :: a in profile && StartsWith(Head(a, '='), "--dpi-desync") ==>
                  Head(a, '=') in {"--dpi-desync", "--dpi-desync-split-pos", "--dpi-desync-repeats", "--dpi-desync-fooling"})
            && (forall m :: m in OptionsOf(profile).modes ==>
                  m in MODES
                  && (m == "fake" || m == "fakedsplit" ==> forall f :: f in OptionsOf(profile).fooling ==> f in {"md5sig", "badseq", "ts"}))
  {
    hide OptionsOf, Head, IsLegacy, StartsWith, NormalMode;
    var o := OptionsOf(profile);
    ModesOf(profile);
    LegacyStarts();
    KnownIff(profile);
    forall m
      ensures ModeSupported(o, NormalMode(m)) <==>
              m in MODES && (m == "fake" || m == "fakedsplit" ==> forall f :: f in o.fooling ==> f in {"md5sig", "badseq", "ts"})
    {
      SupportedIff(o, m);
    }
    assert forall i :: 0 <= i < |o.modes| ==> o.modes[i] in o.modes;
  }

  lemma LegacyStarts()
    ensures forall a :: IsLegacy(a) <==> StartsWith(a, "--dpi-desync")
  {
  }

  lemma KnownIff(profile: seq<string>)
    ensures OptionsKnown(profile) <==> forall a :: a in profile && IsLegacy(Head(a, '=')) ==>
              Head(a, '=') in {"--dpi-desync", "--dpi-desync-split-pos", "--dpi-desync-repeats", "--dpi-desync-fooling"}
  {
    hide Head, IsLegacy;
    assert forall i :: 0 <= i < |profile| ==> profile[i] in profile;
  }

  lemma SupportedIff(o: Options, mode: string)
    ensures ModeSupported(o, NormalMode(mode)) <==>
            mode in MODES && (mode == "fake" || mode == "fakedsplit" ==> forall f :: f in o.fooling ==> f in {"md5sig", "badseq", "ts"})
  {
    FoolingKnownIff(o.fooling);
  }

  lemma FoolingKnownIff(fooling: seq<string>)
    ensures FoolingKnown(fooling) <==> forall f :: f in fooling ==> f in {"md5sig", "badseq", "ts"}
  {
    assert forall i :: 0 <= i < |fooling| ==> fooling[i] in fooling;
  }

  /** The first branch is taken with a native option in the list, and with no legacy one; only then. */
  lemma PassesThroughIff(args: seq<string>)
    ensures !TakesLegacyBranch(args) <==>
            || (exists a :: a in args && (StartsWith(a, "--lua-desync=") || StartsWith(a, "--payload=")))
            || (forall a :: a in args ==> !StartsWith(a, "--dpi-desync"))
  {
    hide StartsWith, Any;
    AnyMember(IsLua, args);
    AnyMember(IsPayload, args);
    AnyMember(IsLegacy, args);
  }

  /** Then the list comes back, behind one filter if the protocol is named and the list has none. */
  lemma PassedThrough(args: seq<string>, protocol: string)
    requires !TakesLegacyBranch(args)
    ensures Native(args, protocol) ==
            (if args != [] && protocol != "" && (forall a :: a in args ==> !StartsWith(a, "--filter-"))
             then [FilterFor(protocol)] else []) + args
  {
    hide StartsWith, Any, FilterFor, TakesLegacyBranch;
    AnyMember(IsFilterOption, args);
  }

  /** The filter a protocol gets. */
  lemma FilterForIff(protocol: string)
    ensures var p := Upper(protocol);
            && (FilterFor(protocol) == "--filter-udp=443" <==> StandsIn(p, "QUIC") || StandsIn(p, "UDP"))
            && (FilterFor(protocol) == "--filter-tcp=80" <==>
                  && !StandsIn(p, "QUIC") && !StandsIn(p, "UDP") && !StandsIn(p, "TLS")
                  && StartsWith(p, "HTTP") && !StartsWith(p, "HTTPS"))
            && FilterFor(protocol) in {"--filter-udp=443", "--filter-tcp=80", "--filter-tcp=443"}
  {
    hide Upper, Contains, StandsIn, StartsWith;
    var p := Upper(protocol);
    ContainsIff(p, "QUIC");
    ContainsIff(p, "UDP");
    ContainsIff(p, "TLS");
    assert "--filter-udp=443"[9] != "--filter-tcp=443"[9] && |"--filter-tcp=80"| != |"--filter-tcp=443"|;
  }

  /** Capitals do not matter, and letters are all that changes. */
  lemma UpperIs(s: string, i: nat)
    requires i < |s|
    ensures |Upper(s)| == |s|
    ensures 'a' <= s[i] <= 'z' ==> 'A' <= Upper(s)[i] <= 'Z' && Upper(s)[i] as int + 32 == s[i] as int
    ensures !('a' <= s[i] <= 'z') ==> Upper(s)[i] == s[i]
  {
  }
}
