/** What the texts and entries made by the import planner look like. */
module ImportLaws {
  import opened Sequences
  import opened Text
  import opened Wrappers
  import opened StrategyArgs
  import opened FreshIds
  import opened ImportPlan

  // ---- slugs ----

  predicate AllSlugChars(s: string) {
    forall i :: 0 <= i < |s| ==> SlugChar(s[i])
  }

  /** A text of small letters and digits is its own slug, if it is not too long. */
  lemma SlugOfWord(word: string, limit: nat)
    requires AllSlugChars(word) && 0 < |word| <= limit
    ensures Slug(word, limit) == word
  {
    hide SlugChar;
    WordUnderscored(word, false, "");
    assert word + "" == word;
    NoStrip(word);
  }

  lemma {:induction false} WordUnderscored(word: string, inRun: bool, rest: string)
    requires AllSlugChars(word)
    ensures Underscored(word + rest, inRun) == word + Underscored(rest, inRun && word == "")
  {
    if word == "" {
      assert word + rest == rest && "" + Underscored(rest, inRun) == Underscored(rest, inRun);
    } else {
      assert SlugChar(word[0]);
      assert (word + rest)[1..] == word[1..] + rest;
      WordUnderscored(word[1..], false, rest);
    }
  }

  lemma NoStrip(s: string)
    requires AllSlugChars(s)
    ensures StripLeft(s) == s && StripRight(s) == s
  {
    if s != "" && AllSlugChars(s) {
      assert SlugChar(s[0]) && SlugChar(s[|s| - 1]);
    }
  }

  predicate NoSlugChars(s: string) {
    forall i :: 0 <= i < |s| ==> !SlugChar(LowerChar(s[i]))
  }

  lemma {:induction false} GapUnderscored(gap: string, inRun: bool, rest: string)
    requires NoSlugChars(gap)
    ensures Underscored(gap + rest, inRun) == (if gap == "" || inRun then "" else "_") + Underscored(rest, inRun || gap != "")
  {
    hide SlugChar;
    if gap == "" {
      assert gap + rest == rest && "" + Underscored(rest, inRun) == Underscored(rest, inRun);
    } else {
      assert (gap + rest)[1..] == gap[1..] + rest;
      GapUnderscored(gap[1..], true, rest);
      assert "" + Underscored(rest, true) == Underscored(rest, true);
    }
  }

  /** Two words with anything else between, before and behind them are joined by one underscore. */
  lemma SlugOfTwoWords(before: string, a: string, gap: string, b: string, behind: string, limit: nat)
    requires AllSlugChars(a) && a != "" && AllSlugChars(b) && b != ""
    requires NoSlugChars(before) && NoSlugChars(gap) && gap != "" && NoSlugChars(behind)
    requires |a| + 1 + |b| <= limit
    ensures Slug(before + (a + (gap + (b + behind))), limit) == a + "_" + b
  {
    hide SlugChar, Underscored;
    var joined := a + "_" + b;
    GapUnderscored(before, false, a + (gap + (b + behind)));
    WordUnderscored(a, before != "", gap + (b + behind));
    GapUnderscored(gap, false, b + behind);
    WordUnderscored(b, true, behind);
    GapUnderscored(behind, false, "");
    assert behind + "" == behind;
    NothingUnderscored();
    var left, right := if before == "" then "" else "_", if behind == "" then "" else "_";
    var s := Underscored(before + (a + (gap + (b + behind))), false);
    assert s == left + joined + right;
    WordEnds(a);
    WordEnds(b);
    StripEnds(left, joined, right);
  }

  lemma NothingUnderscored()
    ensures Underscored("", true) == "" && Underscored("", false) == ""
  {
  }

  lemma WordEnds(a: string)
    requires AllSlugChars(a) && a != ""
    ensures a[0] != '_' && a[|a| - 1] != '_'
  {
    assert SlugChar(a[0]) && SlugChar(a[|a| - 1]);
  }

  lemma StripEnds(left: string, s: string, right: string)
    requires left in {"", "_"} && right in {"", "_"} && s != "" && s[0] != '_' && s[|s| - 1] != '_'
    ensures StripRight(StripLeft(left + s + right)) == s
  {
    var all := left + s + right;
    if left == "_" {
      assert all[1..] == s + right;
    } else {
      assert all == s + right;
    }
    assert StripLeft(all) == s + right;
    if right == "_" {
      assert (s + right)[..|s + right| - 1] == s;
    } else {
      assert s + right == s;
    }
  }

  /** A text without letters and digits has the slug x. */
  lemma SlugOfNothing(text: string, limit: nat)
    requires NoSlugChars(text)
    ensures Slug(text, limit) == "x"
  {
    hide SlugChar;
    GapUnderscored(text, false, "");
    assert text + "" == text;
    NothingUnderscored();
    NothingLeft();
  }

  lemma NothingLeft()
    ensures StripRight(StripLeft("_")) == "" && StripRight(StripLeft("")) == ""
  {
    assert "_"[1..] == "";
  }

  /** Capitals count as small letters. */
  lemma {:induction false} SlugIgnoresCase(s: string, t: string, limit: nat)
    requires |s| == |t| && forall i :: 0 <= i < |s| ==> LowerChar(s[i]) == LowerChar(t[i])
    ensures Slug(s, limit) == Slug(t, limit)
  {
    CaseIgnored(s, t, false);
  }

  lemma {:induction false} CaseIgnored(s: string, t: string, inRun: bool)
    requires |s| == |t| && forall i :: 0 <= i < |s| ==> LowerChar(s[i]) == LowerChar(t[i])
    ensures Underscored(s, inRun) == Underscored(t, inRun)
  {
    if s != "" {
      assert forall i :: 0 <= i < |s| - 1 ==> LowerChar(s[1..][i]) == LowerChar(t[1..][i]);
      CaseIgnored(s[1..], t[1..], !SlugChar(LowerChar(s[0])));
    }
  }

  /** The characters a slug keeps. */
  lemma SlugCharIs(c: char)
    ensures SlugChar(c) <==> 97 <= c as int <= 122 || 48 <= c as int <= 57   // a to z, 0 to 9
  {
  }

  lemma LowerCharIs(c: char)
    ensures 'A' <= c <= 'Z' ==> 'a' <= LowerChar(c) <= 'z' && LowerChar(c) as int == c as int + 32
    ensures !('A' <= c <= 'Z') ==> LowerChar(c) == c
  {
  }

  /** The id of an entry starts with the slugs of prefix, domain and protocol, an underscore between them. */
  lemma StemOfWords(s: Settings, row: Row)
    requires AllSlugChars(s.importPrefix) && 0 < |s.importPrefix| <= 16
    requires AllSlugChars(row.domain) && 0 < |row.domain| <= 20
    requires AllSlugChars(row.protocol) && 0 < |row.protocol| <= 16
    ensures Stem(s, row) == s.importPrefix + "_" + row.domain + "_" + row.protocol
  {
    hide Slug;
    SlugOfWord(s.importPrefix, 16);
    SlugOfWord(row.domain, 20);
    SlugOfWord(row.protocol, 16);
  }

  /** What is missing is replaced: the prefix by bcw, the protocol by HTTPS/TLS1.2. */
  lemma StemDefaults(s: Settings, row: Row)
    ensures s.importPrefix == "" ==> Stem(s, row) == Stem(s.(importPrefix := "bcw"), row)
    ensures row.protocol == "" ==> Stem(s, row) == Stem(s, row.(protocol := "HTTPS/TLS1.2"))
  {
    hide Slug;
  }

  // ---- tokens ----

  /** What a list of tokens needs to be imported. */
  lemma ValidIff(ts: seq<string>)
    ensures ValidTokens(ts) <==> ts != [] && forall t :: t in ts ==>
              && '\0' !in t && "--" <= t
              && Head(t, '=') !in {"--qnum", "--fwmark", "--daemon", "--pidfile", "--intercept", "--dry-run",
                                  "--version", "--chdir", "--uid", "--user", "--lua-init", "--writable"}
  {
    hide Head;
    assert forall i :: 0 <= i < |ts| ==> ts[i] in ts;
  }

  // ---- entries ----

  /** The fields of the entry for a row: its text is the only one, native texts are marked, and TLS on port 443 is not reassembled. */
  lemma EntryHolds(row: Row, args: string, id: string)
    ensures var e := EntryFor(row, args, id);
            && e.id == id && e.nfqwsOpt == args
            && e.luaOpt == (if StandsIn(args, "--lua-desync=") then args else "")
            && e.protocol == (if row.protocol == "" then "HTTPS/TLS1.2" else row.protocol)
            && (e.noReasm <==> StandsIn(args, "--filter-tcp=443") || StandsIn(args, "--payload=tls_client_hello"))
            && e.noReasmPayloads == "" && e.luaInit == []
  {
    hide Contains, StandsIn;
    ContainsIff(args, "--lua-desync=");
    ContainsIff(args, "--filter-tcp=443");
    ContainsIff(args, "--payload=tls_client_hello");
  }

  /** Merging takes out exactly the entries that share an id with a new one, and puts the new ones in. */
  lemma MergeReplaces(catalog: seq<Entry>, entries: seq<Entry>, e: Entry)
    ensures e in Merge(catalog, entries) <==>
            e in entries || (e in catalog && forall f :: f in entries ==> f.id != e.id)
    ensures |Merge(catalog, entries)| >= |entries|
    ensures Merge(catalog, entries)[|Merge(catalog, entries)| - |entries|..] == entries
  {
    hide IdSet;
    var keep := (f: Entry) => f.id !in IdSet(entries);
    FilterMember(keep, catalog, e);
    IdSetIs(entries, e.id);
    assert Merge(catalog, entries) == Filter(keep, catalog) + entries;
  }

  lemma IdSetIs(entries: seq<Entry>, id: string)
    ensures id in IdSet(entries) <==> exists f :: f in entries && f.id == id
  {
    if id in IdSet(entries) {
      var i :| 0 <= i < |entries| && entries[i].id == id;
      assert entries[i] in entries;
    }
    if f :| f in entries && f.id == id {
      var i :| 0 <= i < |entries| && entries[i] == f;
      assert entries[i].id == id;
    }
  }
}
