/**
 The strategy catalog of src/panel/panel.py and the active strategy, under imports from a
 selection run, imports of JSON test results, deletions, and strategy switches.
 */
module CatalogRuns {
  import opened Sequences
  import opened Sorting
  import opened Text
  import opened Wrappers
  import opened StrategyArgs
  import opened FreshIds
  import opened ImportPlan
  import opened ImportRounds
  import Shlex

  // ---- import_strategy_from_json ----

  /** One item of the JSON list; the source's default latency is 9999. */
  datatype Item = Item(protocol: string, args: string, successRate: real, latency: int)

  /** The posted data; clock is the current epoch second in decimal, used when there is no timestamp. */
  datatype Import = Import(domain: Option<string>, timestamp: string, clock: string, items: seq<Item>)

  /** data.get("domain", "custom") */
  function DomainOf(imp: Import): string {
    match imp.domain case Some(domain) => domain case None => "custom"
  }

  function UpTo(s: string, n: nat): string {
    if |s| <= n then s else s[..n]
  }

  function Lower(s: string): string {
    seq(|s|, i requires 0 <= i < |s| => LowerChar(s[i]))
  }

  function NotDash(c: char): bool {
    c != '-'
  }

  /** custom_<domain>_<date> */
  function IdBase(imp: Import): string {
    "custom_" + (UpTo(Filter(SlugChar, Lower(DomainOf(imp))), 20)
    + "_" + if imp.timestamp != "" then Filter(NotDash, UpTo(imp.timestamp, 10)) else imp.clock)
  }

  /** Highest success rate first, then lowest latency. */
  predicate RanksBefore(a: Item, b: Item) {
    if a.successRate != b.successRate then a.successRate > b.successRate else a.latency <= b.latency
  }

  predicate MentionsTls(t: string) {
    Contains(t, "tls_client_hello") || StartsWith(t, "--filter-tcp=443")
  }

  /** args.strip() is not empty, and shlex can split args. */
  predicate Importable(item: Item) {
    Shlex.WordsFrom(item.args, "") != [] && Shlex.Split(item.args).Some?
  }

  function ItemEntry(idBase: string, index: nat, item: Item): Entry
    requires Importable(item)
  {
    var tokens := Shlex.Split(item.args).value;
    Entry(Candidate(idBase, index + 1), item.args,
          if Contains(item.args, "--lua-desync=") then item.args else "", item.protocol,
          exists i :: 0 <= i < |tokens| && MentionsTls(tokens[i]), "", [])
  }

  function OtherThan(id: string): Entry -> bool {
    (e: Entry) => e.id != id
  }

  /** An entry replaces those with its id and goes to the end. */
  function Replace(catalog: seq<Entry>, e: Entry): seq<Entry> {
    Filter(OtherThan(e.id), catalog) + [e]
  }

  predicate AllImportable(items: seq<Item>) {
    forall i :: 0 <= i < |items| ==> Importable(items[i])
  }

  /** The catalog after the first n items of a ranked import. */
  function Imported(catalog: seq<Entry>, idBase: string, items: seq<Item>, n: nat): seq<Entry>
    requires n <= |items| && AllImportable(items)
  {
    if n == 0 then catalog
    else Replace(Imported(catalog, idBase, items, n - 1), ItemEntry(idBase, n - 1, items[n - 1]))
  }

  function Ranked(items: seq<Item>): seq<Item> {
    Sort(RanksBefore, items)
  }

  /** The stored catalog afterwards: unchanged when the list is empty or any item is refused. */
  function AfterJson(catalog: seq<Entry>, imp: Import): seq<Entry> {
    var ranked := Ranked(imp.items);
    if imp.items != [] && AllImportable(ranked) then Imported(catalog, IdBase(imp), ranked, |ranked|) else catalog
  }

  // ---- the panel's operations ----

  datatype State = State(catalog: seq<Entry>, active: string)

  datatype Event =
    | BcwImport(settings: Settings, rows: seq<Row>)
    | JsonImport(imp: Import)
    | Delete(id: string)
    | Switch(id: string, restarted: bool)   // restarted: nfqws came up with the new strategy

  predicate HasId(catalog: seq<Entry>, id: string) {
    exists i :: 0 <= i < |catalog| && catalog[i].id == id
  }

  /** active_strategy: the stored id if the catalog has it, else "". */
  function ActiveStrategy(st: State): string {
    if HasId(st.catalog, st.active) then st.active else ""
  }

  predicate Deletable(st: State, id: string) {
    HasId(st.catalog, id) && id != "none" && id != ActiveStrategy(st)
  }

  ghost function Step(st: State, e: Event): State {
    match e
    case BcwImport(settings, rows) => st.(catalog := Round(st.catalog, settings, rows))
    case JsonImport(imp) => st.(catalog := AfterJson(st.catalog, imp))
    case Delete(id) => if Deletable(st, id) then st.(catalog := Filter(OtherThan(id), st.catalog)) else st
    case Switch(id, restarted) => if HasId(st.catalog, id) && id != "" && restarted then st.(active := id) else st
  }

  /** The handlers over the stored catalog and the stored active strategy. */
  class Panel {
    var catalog: seq<Entry>
    var active: string

    constructor (catalog: seq<Entry>, active: string)
      ensures Stored() == State(catalog, active)
    {
      this.catalog, this.active := catalog, active;
    }

    function Stored(): State
      reads this
    {
      State(catalog, active)
    }

    /** plan_import and merge_catalog over the stored catalog; nothing is written for an empty plan. */
    method ImportSelection(result: seq<Domain>, settings: Settings) returns (ok: bool)
      modifies this
      ensures Stored() == Step(old(Stored()), BcwImport(settings, ImportPlan.RowsOf(result)))
      ensures ok <==> PlanOf(old(catalog), settings, ImportPlan.RowsOf(result)).entries != []
    {
      hide PlanOf, ImportPlan.RowsOf;
      var entries, skipped := PlanImport(result, settings, catalog);
      if entries == [] {
        MergeNothing(catalog);
        return false;
      }
      catalog := Merge(catalog, entries);
      ok := true;
    }

    /** import_strategy_from_json; an exception leaves the file unwritten. */
    method ImportJson(imp: Import) returns (ok: bool)
      modifies this
      ensures Stored() == Step(old(Stored()), JsonImport(imp))
      ensures ok <==> imp.items != [] && AllImportable(Ranked(imp.items))
    {
      hide Ranked, Importable, ItemEntry, Replace, IdBase;
      if imp.items == [] {
        return false;
      }
      var ranked := Ranked(imp.items);
      var updated := catalog;
      for i := 0 to |ranked|
        invariant catalog == old(catalog) && active == old(active)
        invariant forall j :: 0 <= j < i ==> Importable(ranked[j])
        invariant AllImportable(ranked[..i]) && updated == Imported(catalog, IdBase(imp), ranked[..i], i)
      {
        if !Importable(ranked[i]) {
          return false;
        }
        ImportedPrefix(catalog, IdBase(imp), ranked[..i + 1], i);
        assert ranked[..i + 1][..i] == ranked[..i];
        updated := Replace(updated, ItemEntry(IdBase(imp), i, ranked[i]));
      }
      assert ranked[..|ranked|] == ranked;
      catalog := updated;
      ok := true;
    }

    /** delete_strategy */
    method DeleteStrategy(id: string) returns (ok: bool)
      modifies this
      ensures Stored() == Step(old(Stored()), Delete(id))
      ensures ok <==> Deletable(old(Stored()), id)
    {
      if !HasId(catalog, id) {
        return false;
      }
      if id == "none" {
        return false;
      }
      if id == ActiveStrategy(Stored()) {
        return false;
      }
      catalog := Filter(OtherThan(id), catalog);
      ok := true;
    }

    /** /api/strategy with do_strategy, which puts the old id back when the restart fails. */
    method SwitchStrategy(id: string, restarted: bool)
      modifies this
      ensures Stored() == Step(old(Stored()), Switch(id, restarted))
    {
      if !HasId(catalog, id) || id == "" {
        return;
      }
      var before := active;
      active := id;
      if !restarted {
        active := before;
      }
    }
  }

  lemma MergeNothing(catalog: seq<Entry>)
    ensures Merge(catalog, []) == catalog
  {
    FilterAll((e: Entry) => e.id !in IdSet([]), catalog);
  }

  lemma {:induction false} ImportedPrefix(catalog: seq<Entry>, idBase: string, items: seq<Item>, n: nat)
    requires n <= |items| && AllImportable(items)
    ensures AllImportable(items[..n])
    ensures Imported(catalog, idBase, items, n) == Imported(catalog, idBase, items[..n], n)
    decreases n
  {
    hide Importable, ItemEntry, Replace;
    if n > 0 {
      ImportedPrefix(catalog, idBase, items, n - 1);
      ImportedPrefix(catalog, idBase, items[..n], n - 1);
      assert items[..n][..n - 1] == items[..n - 1];
    }
  }

  // ---- what an import does to the catalog ----

  ghost predicate IsCandidate(idBase: string, n: nat, id: string) {
    exists k :: 1 <= k <= n && Candidate(idBase, k) == id
  }

  ghost function NotInBatch(idBase: string, n: nat): Entry -> bool {
    (e: Entry) => !IsCandidate(idBase, n, e.id)
  }

  function Batch(idBase: string, items: seq<Item>, n: nat): (r: seq<Entry>)
    requires n <= |items| && AllImportable(items)
    ensures |r| == n
    ensures forall i :: 0 <= i < n ==> r[i] == ItemEntry(idBase, i, items[i])
  {
    seq(n, i requires 0 <= i < n => ItemEntry(idBase, i, items[i]))
  }

  /**
   Item by item, an import drops the entries that carry one of the batch's ids and appends the
   batch in ranked order; the replacements never hit an entry of the batch itself.
   */
  lemma {:induction false} ImportedIs(catalog: seq<Entry>, idBase: string, items: seq<Item>, n: nat)
    requires n <= |items| && AllImportable(items)
    ensures Imported(catalog, idBase, items, n) == Filter(NotInBatch(idBase, n), catalog) + Batch(idBase, items, n)
    decreases n
  {
    hide Importable, Filter, ItemEntry, Candidate;
    if n == 0 {
      FilterAll(NotInBatch(idBase, 0), catalog);
    } else {
      var e := ItemEntry(idBase, n - 1, items[n - 1]);
      var kept, batch := Filter(NotInBatch(idBase, n - 1), catalog), Batch(idBase, items, n - 1);
      ImportedIs(catalog, idBase, items, n - 1);
      ItemEntryId(idBase, n - 1, items[n - 1]);
      FilterAppend(OtherThan(e.id), kept, batch);
      forall i | 0 <= i < |batch|
        ensures batch[i].id != e.id
      {
        ItemEntryId(idBase, i, items[i]);
        CandidateInjective(idBase, i + 1, n);
      }
      FilterAll(OtherThan(e.id), batch);
      BatchGrows(idBase, n, e.id);
      FilterTwice(NotInBatch(idBase, n - 1), OtherThan(e.id), NotInBatch(idBase, n), catalog);
      assert Batch(idBase, items, n) == batch + [e];
    }
  }

  lemma BatchGrows(idBase: string, n: nat, id: string)
    requires n >= 1 && id == Candidate(idBase, n)
    ensures forall e: Entry :: NotInBatch(idBase, n)(e) <==> NotInBatch(idBase, n - 1)(e) && OtherThan(id)(e)
  {
  }

  /** Importing the same results once more changes nothing, also at a later time if they carry a date. */
  lemma ImportedTwice(catalog: seq<Entry>, imp: Import, again: Import)
    requires again == imp.(clock := again.clock) && (imp.timestamp != "" || again.clock == imp.clock)
    ensures AfterJson(AfterJson(catalog, imp), again) == AfterJson(catalog, imp)
  {
    hide Ranked, Importable, Filter, ItemEntry, Candidate, Imported;
    var ranked, idBase := Ranked(imp.items), IdBase(imp);
    if imp.items != [] && AllImportable(ranked) {
      var n := |ranked|;
      var kept, batch := Filter(NotInBatch(idBase, n), catalog), Batch(idBase, ranked, n);
      ImportedIs(catalog, idBase, ranked, n);
      ImportedIs(kept + batch, idBase, ranked, n);
      FilterAppend(NotInBatch(idBase, n), kept, batch);
      FilterTwice(NotInBatch(idBase, n), NotInBatch(idBase, n), NotInBatch(idBase, n), catalog);
      forall i | 0 <= i < n
        ensures !NotInBatch(idBase, n)(batch[i])
      {
        ItemEntryId(idBase, i, ranked[i]);
      }
      FilterNone(NotInBatch(idBase, n), batch);
    }
  }

  // ---- invariants ----

  ghost predicate UniqueIds(catalog: seq<Entry>) {
    forall i, j :: 0 <= i < j < |catalog| ==> catalog[i].id != catalog[j].id
  }

  /** The catalog still holds the given "none" entry, ids are unique, and the active id is listed. */
  ghost predicate Inv(st: State, none: Entry) {
    none.id == "none" && none in st.catalog && UniqueIds(st.catalog) && HasId(st.catalog, st.active)
  }

  ghost function Exec(st: State, es: seq<Event>): State {
    if es == [] then st else Step(Exec(st, es[..|es| - 1]), es[|es| - 1])
  }

  // ---- every step keeps them ----

  lemma HasIdMember(catalog: seq<Entry>, id: string)
    ensures HasId(catalog, id) <==> exists e :: e in catalog && e.id == id
  {
  }

  lemma {:induction false} FilterUnique(keep: Entry -> bool, catalog: seq<Entry>)
    requires UniqueIds(catalog)
    ensures UniqueIds(Filter(keep, catalog))
  {
    if catalog != [] {
      var n := |catalog| - 1;
      FilterUnique(keep, catalog[..n]);
      var f := Filter(keep, catalog[..n]);
      forall i | 0 <= i < |f|
        ensures f[i].id != catalog[n].id
      {
        FilterMember(keep, catalog[..n], f[i]);
        var j :| 0 <= j < n && catalog[j] == f[i];
      }
    }
  }

  /** Removing or replacing entries with some other id leaves "none" and uniqueness alone. */
  lemma FilterOther(catalog: seq<Entry>, id: string, none: Entry)
    requires UniqueIds(catalog) && none in catalog && none.id == "none" && id != "none"
    ensures UniqueIds(Filter(OtherThan(id), catalog)) && none in Filter(OtherThan(id), catalog)
    ensures !HasId(Filter(OtherThan(id), catalog), id)
    ensures forall other :: other != id ==> (HasId(Filter(OtherThan(id), catalog), other) <==> HasId(catalog, other))
  {
    hide HasId, UniqueIds;
    var f := Filter(OtherThan(id), catalog);
    FilterUnique(OtherThan(id), catalog);
    FilterMember(OtherThan(id), catalog, none);
    forall other
      ensures HasId(f, other) <==> HasId(catalog, other) && other != id
    {
      HasIdMember(f, other);
      HasIdMember(catalog, other);
      forall e | e in f || e in catalog
        ensures e in f <==> e in catalog && e.id != id
      {
        FilterMember(OtherThan(id), catalog, e);
      }
    }
  }

  lemma ReplaceKeeps(catalog: seq<Entry>, e: Entry, active: string, none: Entry)
    requires Inv(State(catalog, active), none) && e.id != "none"
    ensures Inv(State(Replace(catalog, e), active), none)
  {
    hide Filter;
    FilterOther(catalog, e.id, none);
    var f := Filter(OtherThan(e.id), catalog);
    assert forall i :: 0 <= i < |f| ==> f[i].id != e.id;
    var r := Replace(catalog, e);
    if active == e.id {
      assert r[|f|].id == active;
    } else {
      var i :| 0 <= i < |f| && f[i].id == active;
      assert r[i].id == active;
    }
  }

  /** No candidate id of an import is "none". */
  lemma CandidateNotNone(idBase: string, k: nat)
    requires StartsWith(idBase, "custom_")
    ensures Candidate(idBase, k) != "none"
  {
  }

  lemma IdBaseIsCustom(imp: Import)
    ensures StartsWith(IdBase(imp), "custom_")
  {
  }

  lemma {:induction false} ImportedKeeps(catalog: seq<Entry>, idBase: string, items: seq<Item>, n: nat, active: string, none: Entry)
    requires n <= |items| && AllImportable(items) && StartsWith(idBase, "custom_")
    requires Inv(State(catalog, active), none)
    ensures Inv(State(Imported(catalog, idBase, items, n), active), none)
    decreases n
  {
    hide Inv, Importable, Replace, StartsWith;
    if n > 0 {
      ImportedKeeps(catalog, idBase, items, n - 1, active, none);
      CandidateNotNone(idBase, n);
      ItemEntryId(idBase, n - 1, items[n - 1]);
      ReplaceKeeps(Imported(catalog, idBase, items, n - 1), ItemEntry(idBase, n - 1, items[n - 1]), active, none);
    }
  }

  lemma ItemEntryId(idBase: string, index: nat, item: Item)
    requires Importable(item)
    ensures ItemEntry(idBase, index, item).id == Candidate(idBase, index + 1)
  {
  }

  lemma {:induction false} IdSetCount(entries: seq<Entry>)
    ensures |IdSet(entries)| <= |entries|
    ensures |IdSet(entries)| == |entries| ==> UniqueIds(entries)
  {
    hide IdSet;
    if entries == [] {
      IdSetOfNone();
    } else {
      var n := |entries| - 1;
      assert entries == entries[..n] + [entries[n]];
      IdSetSnoc(entries[..n], entries[n]);
      IdSetCount(entries[..n]);
      if |IdSet(entries)| == |entries| {
        assert entries[n].id !in IdSet(entries[..n]);
        forall i | 0 <= i < n
          ensures entries[i].id != entries[n].id
        {
          IdInSet(entries[..n], i);
        }
      }
    }
  }

  lemma IdSetOfNone()
    ensures IdSet([]) == {}
  {
  }

  lemma IdInSet(entries: seq<Entry>, i: nat)
    requires i < |entries|
    ensures entries[i].id in IdSet(entries)
  {
  }

  /** A selection import appends entries with new, distinct ids. */
  lemma BcwKeeps(st: State, settings: Settings, rows: seq<Row>, none: Entry)
    requires Inv(st, none)
    ensures Inv(Step(st, BcwImport(settings, rows)), none)
  {
    hide PlanOf, KnownIds, IdSet, Merge, SelectedBy, TracksArgs, TracksCaps;
    var p := PlanOf(st.catalog, settings, rows);
    MergeAppends(st.catalog, settings, rows);
    PlanIsGreedy(st.catalog, settings, rows);
    IdSetCount(p.entries);
    forall i, j | 0 <= i < |st.catalog| && 0 <= j < |p.entries|
      ensures st.catalog[i].id != p.entries[j].id
    {
      IdInSet(p.entries, j);
      if st.catalog[i].id != "" {
        IdKnown(st.catalog, i);
      }
    }
    var all := st.catalog + p.entries;
    assert UniqueIds(all);
    var k :| 0 <= k < |st.catalog| && st.catalog[k].id == st.active;
    assert all[k].id == st.active;
  }

  lemma StepKeeps(st: State, e: Event, none: Entry)
    requires Inv(st, none)
    ensures Inv(Step(st, e), none)
  {
    hide Ranked, AllImportable, Imported, UniqueIds, HasId, StartsWith, Round, IdBase;
    match e
    case BcwImport(settings, rows) => BcwKeeps(st, settings, rows, none);
    case JsonImport(imp) =>
      var ranked := Ranked(imp.items);
      if imp.items != [] && AllImportable(ranked) {
        IdBaseIsCustom(imp);
        ImportedKeeps(st.catalog, IdBase(imp), ranked, |ranked|, st.active, none);
      }
    case Delete(id) =>
      if Deletable(st, id) {
        FilterOther(st.catalog, id, none);
      }
    case Switch(_, _) =>
  }

  /**
   Over every sequence of imports, deletions and switches: catalog ids stay unique, the entry
   "none" survives unchanged, and the active strategy stays in the catalog.
   */
  lemma {:induction false} CatalogSafety(st: State, es: seq<Event>, none: Entry)
    requires Inv(st, none)
    ensures var r := Exec(st, es);
            UniqueIds(r.catalog) && none in r.catalog && none.id == "none" && ActiveStrategy(r) == r.active
    ensures Inv(Exec(st, es), none)
  {
    hide Step, UniqueIds;
    if es != [] {
      var front := es[..|es| - 1];
      CatalogSafety(st, front, none);
      StepKeeps(Exec(st, front), es[|es| - 1], none);
    }
  }
}
