/** What imports, deletions and switches do to the catalog, told from its entries. */
module CatalogLaws {
  import opened Sequences
  import opened Sorting
  import opened Text
  import opened Wrappers
  import opened StrategyArgs
  import opened FreshIds
  import opened ImportPlan
  import opened CatalogRuns
  import ImportRounds
  import Shlex

  // ---- ranking ----

  /** Higher success rates first, and lower latencies among equal ones. */
  lemma BetterFirst(a: Item, b: Item)
    ensures CatalogRuns.RanksBefore(a, b) <==>
            a.successRate > b.successRate || (a.successRate == b.successRate && a.latency <= b.latency)
  {
  }

  lemma ItemsPreorder()
    ensures TotalPreorder(CatalogRuns.RanksBefore)
  {
  }

  /** The items are imported best first, each of them, equal ones in the order posted. */
  lemma RankedItems(items: seq<Item>)
    ensures IsSorted(CatalogRuns.RanksBefore, Ranked(items))
    ensures multiset(Ranked(items)) == multiset(items)
    ensures SameClasses(CatalogRuns.RanksBefore, Ranked(items), items)
  {
    ItemsPreorder();
    SortSorted(CatalogRuns.RanksBefore, items);
    SortPermutes(CatalogRuns.RanksBefore, items);
    SortStable(CatalogRuns.RanksBefore, items);
  }

  // ---- JSON imports ----

  lemma {:induction false} WordsIff(s: string, word: string)
    ensures Shlex.WordsFrom(s, word) != [] <==> word != "" || exists i :: 0 <= i < |s| && !Shlex.IsSpace(s[i])
  {
    if s != "" {
      WordsIff(s[1..], if Shlex.IsSpace(s[0]) then "" else word + [s[0]]);
      if i :| 0 <= i < |s| && !Shlex.IsSpace(s[i]) {
        assert i > 0 ==> s[1..][i - 1] == s[i];
      }
      if i :| 0 <= i < |s[1..]| && !Shlex.IsSpace(s[1..][i]) {
        assert s[i + 1] == s[1..][i];
      }
    }
  }

  /** An item is refused when its text is blank or shlex cannot split it. */
  lemma ImportableIff(item: Item)
    ensures Importable(item) <==>
            (exists i :: 0 <= i < |item.args| && !Shlex.IsSpace(item.args[i])) && Shlex.Split(item.args).Some?
  {
    hide Shlex.Split, Shlex.WordsFrom, Shlex.IsSpace;
    WordsIff(item.args, "");
  }

  /** Some token of the text is about TLS: it mentions tls_client_hello or starts with --filter-tcp=443. */
  ghost predicate AboutTls(args: string) {
    var tokens := Shlex.Split(args);
    && tokens.Some?
    && exists t :: t in tokens.value && (StandsIn(t, "tls_client_hello") || "--filter-tcp=443" <= t)
  }

  lemma ItemEntryHolds(idBase: string, index: nat, item: Item)
    requires Importable(item)
    ensures var e := ItemEntry(idBase, index, item);
            && e.id == (if index == 0 then idBase else idBase + "_" + Dec(index + 1))
            && e.nfqwsOpt == item.args && e.protocol == item.protocol
            && e.luaOpt == (if StandsIn(item.args, "--lua-desync=") then item.args else "")
            && (e.noReasm <==> AboutTls(item.args)) && e.noReasmPayloads == "" && e.luaInit == []
  {
    hide Contains, StandsIn, Dec, Shlex.Split, Shlex.WordsFrom, AboutTls, MentionsTls;
    ContainsIff(item.args, "--lua-desync=");
    TlsTokens(item);
  }

  lemma MentionsIff(t: string)
    ensures MentionsTls(t) <==> StandsIn(t, "tls_client_hello") || "--filter-tcp=443" <= t
  {
    hide Contains, StandsIn;
    ContainsIff(t, "tls_client_hello");
  }

  lemma TlsTokens(item: Item)
    requires Importable(item)
    ensures var tokens := Shlex.Split(item.args).value;
            AboutTls(item.args) <==> exists i :: 0 <= i < |tokens| && MentionsTls(tokens[i])
  {
    hide Contains, StandsIn, Shlex.Split, Shlex.WordsFrom, MentionsTls;
    var tokens := Shlex.Split(item.args).value;
    if AboutTls(item.args) {
      var t :| t in tokens && (StandsIn(t, "tls_client_hello") || "--filter-tcp=443" <= t);
      var i :| 0 <= i < |tokens| && tokens[i] == t;
      MentionsIff(tokens[i]);
    }
    if i :| 0 <= i < |tokens| && MentionsTls(tokens[i]) {
      MentionsIff(tokens[i]);
      assert tokens[i] in tokens;
    }
  }

  /** Imports that are refused as a whole. */
  ghost predicate Refused(imp: Import) {
    imp.items == [] || exists item :: item in imp.items && !Importable(item)
  }

  lemma RefusedIff(imp: Import)
    ensures Refused(imp) <==> !(imp.items != [] && AllImportable(Ranked(imp.items)))
  {
    hide Importable, Ranked;
    var ranked := Ranked(imp.items);
    RankedItems(imp.items);
    forall item
      ensures item in ranked <==> item in imp.items
    {
      assert item in ranked <==> item in multiset(ranked);
      assert item in imp.items <==> item in multiset(imp.items);
    }
    assert forall i :: 0 <= i < |ranked| ==> ranked[i] in ranked;
  }

  /** The entry of every item is in the catalog, best first at its end; entries with other ids stay. */
  ghost predicate TakesEffect(catalog: seq<Entry>, imp: Import, after: seq<Entry>) {
    var ranked := Ranked(imp.items);
    && AllImportable(ranked) && |ranked| <= |after|
    && (forall i :: 0 <= i < |ranked| ==> after[|after| - |ranked| + i] == ItemEntry(IdBase(imp), i, ranked[i]))
    && (forall e :: e in catalog && !IsCandidate(IdBase(imp), |ranked|, e.id) ==> e in after)
  }

  /** A JSON import takes effect as a whole or not at all. */
  lemma JsonImportEffect(catalog: seq<Entry>, imp: Import)
    ensures if Refused(imp) then AfterJson(catalog, imp) == catalog
            else TakesEffect(catalog, imp, AfterJson(catalog, imp))
  {
    hide Importable, Ranked, IdBase, ItemEntry, IsCandidate, Refused, Imported;
    RefusedIff(imp);
    if !Refused(imp) {
      var ranked, idBase := Ranked(imp.items), IdBase(imp);
      var kept, batch := Filter(NotInBatch(idBase, |ranked|), catalog), Batch(idBase, ranked, |ranked|);
      ImportedIs(catalog, idBase, ranked, |ranked|);
      forall e | e in catalog && !IsCandidate(idBase, |ranked|, e.id)
        ensures e in kept
      {
        FilterMember(NotInBatch(idBase, |ranked|), catalog, e);
      }
    }
  }

  predicate Digits(s: string, n: nat) {
    |s| == n && forall i :: 0 <= i < n ==> '0' <= s[i] <= '9'
  }

  /** The ids of an import: custom, the domain, and the date without its dashes. */
  lemma IdBaseIs(imp: Import, year: string, month: string, day: string, time: string)
    requires Digits(year, 4) && Digits(month, 2) && Digits(day, 2)
    requires imp.timestamp == year + "-" + month + "-" + day + time
    requires imp.domain.Some? && |imp.domain.value| <= 20
    requires forall i :: 0 <= i < |imp.domain.value| ==> SlugChar(imp.domain.value[i])
    ensures IdBase(imp) == "custom_" + (imp.domain.value + "_" + (year + month + day))
  {
    hide SlugChar;
    var domain := imp.domain.value;
    LowerOfWord(domain);
    FilterAll(SlugChar, domain);
    var date := year + "-" + month + "-" + day;
    assert imp.timestamp[..10] == date;
    FilterAppend(NotDash, year + "-" + month + "-", day);
    FilterAppend(NotDash, year + "-" + month, "-");
    FilterAppend(NotDash, year + "-", month);
    FilterAppend(NotDash, year, "-");
    FilterAll(NotDash, year);
    FilterAll(NotDash, month);
    FilterAll(NotDash, day);
    FilterNone(NotDash, "-");
    assert UpTo(imp.timestamp, 10) == date;
    assert Filter(NotDash, date) == year + month + day;
    assert UpTo(domain, 20) == domain;
  }

  lemma LowerOfWord(word: string)
    requires forall i :: 0 <= i < |word| ==> SlugChar(word[i])
    ensures Lower(word) == word
  {
  }

  /** Of a long domain the first twenty characters count. */
  lemma IdBaseCut(imp: Import)
    requires imp.domain.Some? && |imp.domain.value| > 20
    requires forall i :: 0 <= i < |imp.domain.value| ==> SlugChar(imp.domain.value[i])
    ensures IdBase(imp) == IdBase(imp.(domain := Some(imp.domain.value[..20])))
  {
    hide SlugChar;
    var domain := imp.domain.value;
    LowerOfWord(domain);
    LowerOfWord(domain[..20]);
    FilterAll(SlugChar, domain);
    FilterAll(SlugChar, domain[..20]);
  }

  /** Without a date the second of the import stands in, and without a domain the word custom. */
  lemma IdBaseDefaults(imp: Import)
    ensures imp.domain == None ==> IdBase(imp) == IdBase(imp.(domain := Some("custom")))
    ensures imp.timestamp == "" && imp.domain == Some("") ==> IdBase(imp) == "custom_" + ("" + "_" + imp.clock)
  {
    assert Lower("") == "";
  }

  // ---- deletions and switches ----

  /** A deletion takes out exactly the entry, unless the id is unknown, none, or that of the active strategy. */
  lemma DeletionEffect(st: State, id: string)
    ensures var after := Step(st, Delete(id));
            && after.active == st.active
            && (if !HasId(st.catalog, id) || id == "none" || id == (if HasId(st.catalog, st.active) then st.active else "") then after == st
                else !HasId(after.catalog, id) && forall e :: e in after.catalog <==> e in st.catalog && e.id != id)
  {
    var f := Filter(OtherThan(id), st.catalog);
    forall e
      ensures e in f <==> e in st.catalog && e.id != id
    {
      FilterMember(OtherThan(id), st.catalog, e);
    }
    assert forall i :: 0 <= i < |f| ==> f[i] in f;
  }

  /** A switch to a listed strategy that comes up makes it the active one; any other leaves the old one. */
  lemma SwitchEffect(st: State, id: string, restarted: bool)
    ensures var after := Step(st, Switch(id, restarted));
            && after.catalog == st.catalog
            && after.active == if id != "" && restarted && exists e :: e in st.catalog && e.id == id then id else st.active
  {
    HasIdMember(st.catalog, id);
  }

  /** An import of selected strategies appends the planned entries, all of them. */
  lemma SelectionEffect(st: State, settings: Settings, rows: seq<Row>)
    ensures Step(st, BcwImport(settings, rows)) == State(st.catalog + PlanOf(st.catalog, settings, rows).entries, st.active)
  {
    hide PlanOf;
    ImportRounds.MergeAppends(st.catalog, settings, rows);
  }
}
