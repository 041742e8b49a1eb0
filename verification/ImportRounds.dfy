/** What plan_import and merge_catalog do together, once and in repeated rounds. */
module ImportRounds {
  import opened Sequences
  import opened Text
  import opened Wrappers
  import opened StrategyArgs
  import opened ImportPlan
  import Shlex

  lemma {:induction false} IdKnown(catalog: seq<Entry>, i: nat)
    requires i < |catalog| && catalog[i].id != ""
    ensures catalog[i].id in KnownIds(catalog)
  {
    if i < |catalog| - 1 {
      IdKnown(catalog[..|catalog| - 1], i);
    }
  }

  /** A planned import replaces nothing: merging it appends. */
  lemma MergeAppends(catalog: seq<Entry>, s: Settings, rows: seq<Row>)
    ensures var entries := PlanOf(catalog, s, rows).entries;
            Merge(catalog, entries) == catalog + entries
  {
    hide PlanOf, IdSet, KnownIds, SelectedBy, Filter;
    var p := PlanOf(catalog, s, rows);
    PlanIsGreedy(catalog, s, rows);
    forall i | 0 <= i < |catalog|
      ensures catalog[i].id !in IdSet(p.entries)
    {
      if catalog[i].id != "" {
        IdKnown(catalog, i);
      }
    }
    FilterAll((e: Entry) => e.id !in IdSet(p.entries), catalog);
  }

  ghost function Round(catalog: seq<Entry>, s: Settings, rows: seq<Row>): seq<Entry> {
    Merge(catalog, PlanOf(catalog, s, rows).entries)
  }

  /** The valid argument strings of the rows that the catalog does not have. */
  ghost function Missing(catalog: seq<Entry>, rows: seq<Row>): set<string> {
    ArgsSet(rows) - KnownArgs(catalog)
  }

  /** Every valid row's argument string is its own whitespace normalisation. */
  ghost predicate NormalRows(rows: seq<Row>) {
    forall i :: 0 <= i < |rows| && ArgsOf(rows[i]).Some? ==>
      Shlex.Normalised(ArgsOf(rows[i]).value) == ArgsOf(rows[i]).value
  }

  /** Tokens without whitespace, quotes or backslashes are enough for that. */
  lemma PlainIsNormal(row: Row, ts: seq<string>)
    requires Shlex.Split(row.args) == Some(ts) && Shlex.AllPlain(ts)
    ensures ArgsOf(row).Some? ==> Shlex.Normalised(ArgsOf(row).value) == ArgsOf(row).value
  {
    Shlex.WordsOfJoined(ts);
  }

  lemma {:induction false} KnownArgsAppend(a: seq<Entry>, b: seq<Entry>)
    ensures KnownArgs(a + b) == KnownArgs(a) + KnownArgs(b)
  {
    hide TextsOf;
    if b == [] {
      assert a + b == a;
    } else {
      KnownArgsAppend(a, b[..|b| - 1]);
      assert (a + b)[..|a + b| - 1] == a + b[..|b| - 1];
    }
  }

  /** An entry is recognised in a later round by its normalised text. */
  lemma TextsOfEntry(row: Row, id: string)
    requires ArgsOf(row).Some?
    ensures TextsOf(EntryFor(row, ArgsOf(row).value, id)) == {Shlex.Normalised(ArgsOf(row).value)}
  {
  }

  lemma {:induction false} KnownOfMade(entries: seq<Entry>, rows: seq<Row>)
    requires MadeFrom(entries, rows) && NormalRows(rows)
    ensures KnownArgs(entries) == ArgsSet(rows)
  {
    hide ArgsOf, EntryFor, TextsOf, Shlex.Normalised;
    if rows != [] {
      var n := |rows| - 1;
      KnownOfMade(entries[..n], rows[..n]);
      TextsOfEntry(rows[n], entries[n].id);
    }
  }

  lemma {:induction false} SelectedFrom(catalog: seq<Entry>, s: Settings, rows: seq<Row>)
    ensures forall r :: r in SelectedBy(catalog, s, rows) ==> r in rows
    ensures ArgsSet(SelectedBy(catalog, s, rows)) <= ArgsSet(rows)
  {
    hide GoesIn, SelectedBy, ArgsOf;
    if rows != [] {
      var n := |rows| - 1;
      var before := SelectedBy(catalog, s, rows[..n]);
      SelectedFrom(catalog, s, rows[..n]);
      SelectedStep(catalog, s, rows);
      assert rows == rows[..n] + [rows[n]];
      assert (before + [rows[n]])[..|before|] == before;
    } else {
      NoRows(catalog, s);
    }
  }

  lemma NoRows(catalog: seq<Entry>, s: Settings)
    ensures SelectedBy(catalog, s, []) == []
  {
  }

  /** One round takes out of the missing set exactly what the plan accepted, one string per entry. */
  lemma RoundShrinks(catalog: seq<Entry>, s: Settings, rows: seq<Row>)
    requires NormalRows(rows)
    ensures var accepted := ArgsSet(SelectedBy(catalog, s, rows));
            && accepted <= Missing(catalog, rows)
            && Missing(Round(catalog, s, rows), rows) == Missing(catalog, rows) - accepted
            && |Missing(Round(catalog, s, rows), rows)| == |Missing(catalog, rows)| - |PlanOf(catalog, s, rows).entries|
  {
    hide PlanOf, SelectedBy, ArgsSet, KnownArgs, Merge, TracksIds, TracksCaps, ArgsOf, Shlex.Normalised;
    var selected, p := SelectedBy(catalog, s, rows), PlanOf(catalog, s, rows);
    PlanIsGreedy(catalog, s, rows);
    SelectedFrom(catalog, s, rows);
    MergeAppends(catalog, s, rows);
    KnownArgsAppend(catalog, p.entries);
    assert NormalRows(selected) by {
      assert forall i :: 0 <= i < |selected| ==> selected[i] in rows;
    }
    KnownOfMade(p.entries, selected);
    assert Missing(Round(catalog, s, rows), rows) == Missing(catalog, rows) - ArgsSet(selected);
    assert Missing(catalog, rows) == Missing(Round(catalog, s, rows), rows) + ArgsSet(selected);
  }

  lemma {:induction false} NoneGoesIn(catalog: seq<Entry>, s: Settings, rows: seq<Row>)
    requires SelectedBy(catalog, s, rows) == []
    ensures forall i :: 0 <= i < |rows| ==> !GoesIn(catalog, s, [], rows[i])
  {
    hide GoesIn, SelectedBy;
    if rows != [] {
      SelectedStep(catalog, s, rows);
      NoneGoesIn(catalog, s, rows[..|rows| - 1]);
      assert forall i :: 0 <= i < |rows| - 1 ==> rows[..|rows| - 1][i] == rows[i];
    }
  }

  lemma {:induction false} ArgsSetMember(rows: seq<Row>, a: string)
    ensures a in ArgsSet(rows) <==> exists i :: 0 <= i < |rows| && ArgsOf(rows[i]) == Some(a)
  {
    hide ArgsOf;
    if rows != [] {
      var n := |rows| - 1;
      ArgsSetMember(rows[..n], a);
      if a in ArgsSet(rows[..n]) {
        var i :| 0 <= i < n && ArgsOf(rows[..n][i]) == Some(a);
        assert ArgsOf(rows[i]) == Some(a);
      }
      if i :| 0 <= i < n && ArgsOf(rows[i]) == Some(a) {
        assert ArgsOf(rows[..n][i]) == Some(a);
      }
    }
  }

  /** With a cap that is not negative, a plan is empty exactly when nothing is missing. */
  lemma EmptyWhenDrained(catalog: seq<Entry>, s: Settings, rows: seq<Row>)
    requires s.maxImport >= 0
    ensures PlanOf(catalog, s, rows).entries == [] <==> Missing(catalog, rows) == {}
  {
    hide PlanOf, SelectedBy, KnownArgs, ArgsOf, ArgsSet, TracksIds, TracksCaps;
    PlanIsGreedy(catalog, s, rows);
    SelectedFrom(catalog, s, rows);
    var selected := SelectedBy(catalog, s, rows);
    assert ArgsSet(selected) <= Missing(catalog, rows);
    if selected == [] {
      NoneGoesIn(catalog, s, rows);
      forall a | a in ArgsSet(rows)
        ensures a in KnownArgs(catalog)
      {
        ArgsSetMember(rows, a);
        var i :| 0 <= i < |rows| && ArgsOf(rows[i]) == Some(a);
        NothingBefore(ProtocolOf(rows[i]));
      }
    } else {
      assert |ArgsSet(selected)| > 0;
      assert ArgsSet(selected) != {};
    }
  }

  lemma NothingBefore(protocol: string)
    ensures ArgsSet([]) == {} && CountProtocol([], protocol) == 0
  {
  }

  /** The cap made the plan skip some row. */
  ghost predicate AnyCut(p: Plan) {
    exists k :: 0 <= k < |p.skipped| && p.skipped[k].reason.OverCap?
  }

  /** Every valid string ends up known or selected, unless the cap cut a row. */
  lemma {:induction false} CutOrTaken(catalog: seq<Entry>, s: Settings, rows: seq<Row>)
    ensures ArgsSet(rows) <= KnownArgs(catalog) + ArgsSet(SelectedBy(catalog, s, rows))
            || AnyCut(PlanOf(catalog, s, rows))
  {
    hide GoesIn, SelectedBy, KnownArgs, ArgsOf, Consider, Tracks, CountProtocol;
    if rows != [] {
      var n := |rows| - 1;
      var before, p, q := SelectedBy(catalog, s, rows[..n]), PlanOf(catalog, s, rows[..n]), PlanOf(catalog, s, rows);
      CutOrTaken(catalog, s, rows[..n]);
      PlanIsGreedy(catalog, s, rows[..n]);
      ConsiderTracks(catalog, s, p, before, rows[n]);
      SelectedStep(catalog, s, rows);
      if AnyCut(p) {
        var k :| 0 <= k < |p.skipped| && p.skipped[k].reason.OverCap?;
        assert q.skipped[..|p.skipped|] == p.skipped || q.skipped == p.skipped;
        assert q.skipped[k] == p.skipped[k];
        assert AnyCut(q);
      } else if GoesIn(catalog, s, before, rows[n]) {
        GoesInSome(catalog, s, before, rows[n]);
        ArgsSetSnoc(before, rows[n]);
      } else {
        var at := |p.skipped|;
        if q.skipped[at].reason.OverCap? {
          assert AnyCut(q);
        } else {
          RefusedKnown(catalog, s, before, rows[n], q.skipped[at].reason);
          assert ArgsSet(rows) == ArgsSet(rows[..n]) + match ArgsOf(rows[n]) case Some(a) => {a} case None => {};
        }
      }
    }
  }

  lemma RefusedKnown(catalog: seq<Entry>, s: Settings, before: seq<Row>, row: Row, reason: Reason)
    requires RightReason(catalog, s, before, row, reason) && !reason.OverCap?
    ensures ArgsOf(row).Some? ==> ArgsOf(row).value in KnownArgs(catalog) + ArgsSet(before)
  {
  }

  lemma GoesInSome(catalog: seq<Entry>, s: Settings, before: seq<Row>, row: Row)
    requires GoesIn(catalog, s, before, row)
    ensures ArgsOf(row).Some?
  {
  }

  /** When nothing was cut by the cap, one round leaves nothing missing. */
  lemma OneRoundSuffices(catalog: seq<Entry>, s: Settings, rows: seq<Row>)
    requires NormalRows(rows)
    requires !AnyCut(PlanOf(catalog, s, rows))
    ensures Missing(Round(catalog, s, rows), rows) == {}
  {
    hide PlanOf, SelectedBy, ArgsSet, KnownArgs, Round;
    CutOrTaken(catalog, s, rows);
    RoundShrinks(catalog, s, rows);
  }

  ghost function Rounds(catalog: seq<Entry>, s: Settings, rows: seq<Row>, n: nat): seq<Entry>
    decreases n
  {
    if n == 0 then catalog else Rounds(Round(catalog, s, rows), s, rows, n - 1)
  }

  /** As many rounds as strings are missing drain the result, whatever the cap; then plans are empty. */
  lemma {:induction false} RoundsDrain(catalog: seq<Entry>, s: Settings, rows: seq<Row>, n: nat)
    requires NormalRows(rows) && s.maxImport >= 0 && n >= |Missing(catalog, rows)|
    ensures Missing(Rounds(catalog, s, rows, n), rows) == {}
    ensures PlanOf(Rounds(catalog, s, rows, n), s, rows).entries == []
    decreases n
  {
    hide PlanOf, Missing, Round, NormalRows;
    EmptyWhenDrained(Rounds(catalog, s, rows, n), s, rows);
    if n > 0 {
      RoundShrinks(catalog, s, rows);
      EmptyWhenDrained(catalog, s, rows);
      RoundsDrain(Round(catalog, s, rows), s, rows, n - 1);
    }
  }

  /**
   Why normal rows are needed: a single new row, imported and merged, is recognised by the
   next plan exactly when its text is its own normalisation; otherwise it is imported again.
   */
  lemma ReimportedIff(catalog: seq<Entry>, s: Settings, row: Row)
    requires s.maxImport >= 0 && ArgsOf(row).Some? && ArgsOf(row).value !in KnownArgs(catalog)
    ensures PlanOf(Round(catalog, s, [row]), s, [row]).entries == [] <==>
            Shlex.Normalised(ArgsOf(row).value) == ArgsOf(row).value
  {
    hide PlanOf, SelectedBy, KnownArgs, ArgsOf, Shlex.Normalised, Merge, EntryFor, TextsOf, TracksIds, TracksCaps, ArgsSet;
    var a := ArgsOf(row).value;
    var p, selected := PlanOf(catalog, s, [row]), SelectedBy(catalog, s, [row]);
    SingleArgs(row);
    EmptyWhenDrained(catalog, s, [row]);
    PlanIsGreedy(catalog, s, [row]);
    SelectedFrom(catalog, s, [row]);
    assert |p.entries| == 1;
    assert selected[0] in [row];
    assert p.entries == [EntryFor(row, a, p.entries[0].id)];
    MergeAppends(catalog, s, [row]);
    KnownArgsAppend(catalog, p.entries);
    SingleKnown(p.entries[0]);
    TextsOfEntry(row, p.entries[0].id);
    EmptyWhenDrained(Round(catalog, s, [row]), s, [row]);
  }

  lemma SingleArgs(row: Row)
    requires ArgsOf(row).Some?
    ensures ArgsSet([row]) == {ArgsOf(row).value}
  {
  }

  lemma SingleKnown(e: Entry)
    ensures KnownArgs([e]) == TextsOf(e)
  {
  }

  /** A quoted token with two spaces is imported again, round after round. */
  lemma TwoSpacesReimported(catalog: seq<Entry>, s: Settings, row: Row)
    requires s.maxImport >= 0 && row.args == "'" + "--a  b" + "'" && "--a  b" !in KnownArgs(catalog)
    ensures PlanOf(Round(catalog, s, [row]), s, [row]).entries != []
  {
    hide PlanOf, KnownArgs, Shlex.Split, Shlex.Normalised;
    Shlex.QuotedToken("--a  b");
    TwoSpacesValid();
    assert ArgsOf(row) == Some("--a  b");
    TwoSpacesCollapse();
    ReimportedIff(catalog, s, row);
  }

  lemma TwoSpacesValid()
    ensures ValidTokens(["--a  b"]) && JoinWith(["--a  b"], ' ') == "--a  b"
  {
    PartitionOf("--a  b", '=', "");
  }

  lemma TwoSpacesCollapse()
    ensures Shlex.Normalised("--a  b") != "--a  b"
  {
    Shlex.SpacedPair("--a", "b");
    assert "--a" + [' ', ' '] + "b" == "--a  b";
  }
}
