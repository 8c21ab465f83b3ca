/** What `generate` and `baseline` refuse and report, for any Toasty and any tree. */
module GenerationAnswers {
  import opened Wrappers
  import opened Lineage
  import opened ArtifactLaws
  import opened ArtifactAnswers
  import A = ArtifactStore
  import T = MigrationNames

  // ---------------------------------------------------------------- the files and the history fit

  /** The history reads as `entries`, the migrations and snapshots on disk are those it names, and its
      snapshots can be read. Nothing is said about the rollbacks. */
  ghost predicate Fits(t: A.Tree, entries: seq<A.Entry>) {
    && A.LoadHistory(t) == Ok(entries)
    && A.FileNames(t.migrations, "sql") == A.EntryNames(entries)
    && A.FileNames(t.snapshots, "toml") == A.SnapshotNames(entries)
    && ReadableSnapshots(t, entries)
  }

  lemma {:induction false} RegenerableFits(t: A.Tree)
    requires WellFormed(t)
    requires A.InspectState(t) == A.Ready || A.InspectState(t) == A.Empty || A.InspectState(t) == A.Missing
    ensures A.LoadHistory(t).Ok? && Fits(t, A.LoadHistory(t).value)
    ensures A.InspectState(t) == A.Ready <==> A.LoadHistory(t).value != []
    ensures A.InspectState(t) == A.Ready ==> NoStrayRollbacks(t, A.LoadHistory(t).value)
  {
    hide A.InspectState, FilesMatch, ReadableSnapshots, A.FileNames, A.EntryNames, A.SnapshotNames;
    StateIs(t);
    if A.InspectState(t) == A.Ready {
      FilesMatchIff(t, EntriesOf(t));
    } else {
      NothingListed(t);
      NothingToRead(t);
    }
  }

  lemma {:induction false} NothingToRead(t: A.Tree)
    ensures ReadableSnapshots(t, [])
  {
  }

  /** A lineage with entries that fits is ready if no rollback is astray, and partial otherwise. */
  lemma {:induction false} FittingState(t: A.Tree, entries: seq<A.Entry>)
    requires t.created && Fits(t, entries) && entries != []
    ensures A.InspectState(t) == if NoStrayRollbacks(t, entries) then A.Ready else A.Partial
  {
    hide A.InspectState, FilesMatch, ReadableSnapshots, A.FileNames, A.EntryNames, A.SnapshotNames;
    StateIs(t);
    FilesMatchIff(t, entries);
  }

  lemma {:induction false} CreatedFits(t: A.Tree, entries: seq<A.Entry>)
    requires Fits(t, entries)
    ensures Fits(t.(created := true), entries)
    ensures NoStrayRollbacks(t.(created := true), entries) <==> NoStrayRollbacks(t, entries)
  {
  }

  lemma {:induction false} PublicationFits(t: A.Tree, entries: seq<A.Entry>, names: A.Names, q: A.Request)
    requires t.created && Fits(t, entries) && NameShapes(names) && !A.WouldClash(t, names)
    ensures var t', entries' := TreeAfter(t, entries, names, q, 12), entries + [A.NewEntry(names)];
            && t'.created && Fits(t', entries') && (NoStrayRollbacks(t', entries') <==> NoStrayRollbacks(t, entries))
  {
    var t', e := TreeAfter(t, entries, names, q, 12), A.NewEntry(names);
    assert A.LoadHistory(t') == Ok(entries + [e]) && t'.created;
    assert e.name == names.migration && e.snapshotName == names.snapshot;
    SnapshotsStay(t, entries, names, q);
    hide A.FileNames, A.EntryNames, A.SnapshotNames, TreeAfter, NameShapes, A.WouldClash, A.LoadHistory, A.NewEntry,
         ReadableSnapshots;
    ListingsAfter(t, entries, names, q, 12);
    NamesOfLonger(entries, e);
    NewNamesUnlisted(t, names);
  }

  lemma {:induction false} SnapshotsStay(t: A.Tree, entries: seq<A.Entry>, names: A.Names, q: A.Request)
    requires !A.WouldClash(t, names) && ReadableSnapshots(t, entries)
    ensures ReadableSnapshots(TreeAfter(t, entries, names, q, 12), entries + [A.NewEntry(names)])
  {
    hide A.Temp, A.SqlFile;
  }

  /** A write that completes records one more entry, and whether a rollback is astray stays as it was; one
      that does not leaves the history as it was. */
  lemma {:induction false} WriteFits(t: A.Tree, entries: seq<A.Entry>, q: A.Request, steps: nat)
    requires Fits(t, entries)
    ensures var w := A.Written(t, entries, q, steps);
            && (w.1.Err? ==> A.LoadHistory(w.0) == Ok(entries))
            && (w.1.Ok? ==> && w.0.created && Fits(w.0, entries + [A.NewEntry(w.1.value)])
                            && (NoStrayRollbacks(w.0, entries + [A.NewEntry(w.1.value)]) <==> NoStrayRollbacks(t, entries)))
  {
    NothingOverwritten(t, entries, q, steps);
    var w := A.Written(t, entries, q, steps);
    assert w.1.Err? ==> A.LoadHistory(w.0) == Ok(entries);
    hide NoStrayRollbacks, Fits, TreeAfter, A.NewEntry, NameShapes, A.LoadHistory, A.NamesFor, A.Publication, A.RunTo,
         A.WouldClash, T.ValidSql;
    if w.1.Ok? {
      var names := w.1.value;
      NamesHaveShapes(entries, q.source, q.name);
      DirectoriesOnlyCreate(t, 3);
      CreatedFits(t, entries);
      var root := t.(created := true);
      PublicationTree(root, entries, names, q, 12);
      PublicationFits(root, entries, names, q);
    }
  }

  // ---------------------------------------------------------------- what is reported

  /** From `t`, whose history reads as `entries`, to `t'`: nothing has been written, or `count` migrations have,
      of which `id` is the newest. */
  ghost predicate Wrote(t: A.Tree, entries: seq<A.Entry>, t': A.Tree, entries': seq<A.Entry>, id: Option<nat>, count: nat)
  {
    && |entries'| == |entries| + count && entries <= entries' && Fits(t', entries')
    && (NoStrayRollbacks(t', entries') <==> NoStrayRollbacks(t, entries))
    && (count == 0 ==> t' == t && id == None)
    && (count > 0 ==> t'.created && id == Some(entries'[|entries'| - 1].id))
  }

  lemma {:induction false} WroteNothing(t: A.Tree, entries: seq<A.Entry>)
    requires Fits(t, entries)
    ensures Wrote(t, entries, t, entries, None, 0)
  {
  }

  lemma {:induction false} WroteOneMore(t: A.Tree, entries: seq<A.Entry>, t': A.Tree, entries': seq<A.Entry>,
                                        id: Option<nat>, count: nat, q: A.Request, steps: nat)
    requires Wrote(t, entries, t', entries', id, count) && A.Written(t', entries', q, steps).1.Ok?
    ensures var w := A.Written(t', entries', q, steps);
            Wrote(t, entries, w.0, entries' + [A.NewEntry(w.1.value)], Some(w.1.value.id), count + 1)
  {
    WriteFits(t', entries', q, steps);
    var w := A.Written(t', entries', q, steps);
    assert A.NewEntry(w.1.value).id == w.1.value.id;
    hide Fits, NoStrayRollbacks, A.Written, A.NewEntry;
  }

  /** The start of a generation has written a baseline or nothing. */
  lemma {:induction false} StartReports(toasty: Toasty, t: A.Tree, live: Catalog, entries: seq<A.Entry>, q: GenerateRequest,
                                        steps: nat)
    requires Fits(t, entries) && StartFrom(toasty, t, live, entries, q, steps).1.Ok?
    ensures var s := StartFrom(toasty, t, live, entries, q, steps);
            exists count: nat :: count <= 1 && Wrote(t, entries, s.0, s.1.value.entries, s.1.value.baseline, count)
  {
    hide Wrote, Fits, A.InspectState, LatestSchema, Observe, Diff, Project, A.Written, A.NewEntry;
    WroteNothing(t, entries);
    var s := StartFrom(toasty, t, live, entries, q, steps);
    if s.1.value.baseline.Some? {
      var observed := Observe(toasty, live, q.current).value;
      var forward, reverse := Diff(toasty, EMPTY, observed, NO_HINTS).value, Diff(toasty, observed, EMPTY, NO_HINTS).value;
      var r := WriteRequest(q.source, "observed_schema_baseline", forward, reverse, q.baselineFiles);
      WroteOneMore(t, entries, t, entries, None, 0, r, steps);
    }
  }

  /** A generation reports truthfully whether it has written and which id is the newest. It reports the
      lineage as ready whenever it has written, which is true if and only if no unrelated file lies among
      the rollbacks. */
  lemma {:induction false} GenerationReports(toasty: Toasty, t: A.Tree, live: Catalog, q: GenerateRequest, steps: nat)
    requires WellFormed(t) && Generate(toasty, t, live, q, steps).1.Ok?
    ensures var (t', r) := Generate(toasty, t, live, q, steps);
            && A.LoadHistory(t).Ok? && A.LoadHistory(t').Ok?
            && var entries, entries', outcome := A.LoadHistory(t).value, A.LoadHistory(t').value, r.value;
               && entries <= entries' && |entries'| <= |entries| + 2
               && (outcome.created <==> entries' != entries)
               && (!outcome.created ==> t' == t && outcome.id == None)
               && (outcome.created ==> outcome.id == Some(entries'[|entries'| - 1].id) && outcome.state == A.Ready)
               && (outcome.state == A.InspectState(t') <==> outcome.created ==> NoStrayRollbacks(t, entries))
  {
    hide Wrote, Fits, A.InspectState, StartFrom, Diff, A.Written, A.NewEntry, NoStrayRollbacks, A.LoadHistory, WellFormed;
    Regenerable(toasty, t, live, q, steps);
    RegenerableFits(t);
    var entries := A.LoadHistory(t).value;
    var s := StartFrom(toasty, t, live, entries, q, steps);
    StartReports(toasty, t, live, entries, q, steps);
    var count: nat :| count <= 1 && Wrote(t, entries, s.0, s.1.value.entries, s.1.value.baseline, count);
    var from, hints := s.1.value, q.hints.value;
    if Diff(toasty, from.previous, q.current, hints).None? {
      WroteIs(t, entries, s.0, from.entries, from.baseline, count);
    } else {
      var forward := Diff(toasty, from.previous, q.current, hints).value;
      var reverse := Diff(toasty, q.current, from.previous, NO_HINTS).value;
      var r := WriteRequest(q.source, q.name, forward, reverse, q.files);
      WroteOneMore(t, entries, s.0, from.entries, from.baseline, count, r, from.steps);
      var w := A.Written(s.0, from.entries, r, from.steps);
      WroteIs(t, entries, w.0, from.entries + [A.NewEntry(w.1.value)], Some(w.1.value.id), count + 1);
    }
  }

  lemma {:induction false} Regenerable(toasty: Toasty, t: A.Tree, live: Catalog, q: GenerateRequest, steps: nat)
    requires Generate(toasty, t, live, q, steps).1.Ok?
    ensures A.InspectState(t) == A.Ready || A.InspectState(t) == A.Empty || A.InspectState(t) == A.Missing
    ensures A.LoadHistory(t).Ok? && StartFrom(toasty, t, live, A.LoadHistory(t).value, q, steps).1.Ok? && q.hints.Some?
  {
    hide A.InspectState, A.LoadHistory, StartFrom;
  }

  lemma {:induction false} WroteIs(t: A.Tree, entries: seq<A.Entry>, t': A.Tree, entries': seq<A.Entry>, id: Option<nat>,
                                   count: nat)
    requires Wrote(t, entries, t', entries', id, count)
    ensures A.LoadHistory(t') == Ok(entries') && |entries'| == |entries| + count && entries <= entries'
    ensures count == 0 <==> id == None
    ensures count == 0 ==> t' == t
    ensures count > 0 ==> && id == Some(entries'[|entries'| - 1].id)
                          && A.InspectState(t') == if NoStrayRollbacks(t, entries) then A.Ready else A.Partial
  {
    if count > 0 { FittingState(t', entries'); }
  }

  /** The same of `baseline`, which always writes when it succeeds. */
  lemma {:induction false} BaselineReports(toasty: Toasty, t: A.Tree, live: Catalog, source: string, name: string,
                                           current: Schema, files: Files, steps: nat)
    requires WellFormed(t) && Baseline(toasty, t, live, source, name, current, files, steps).1.Ok?
    ensures var (t', r) := Baseline(toasty, t, live, source, name, current, files, steps);
            && A.LoadHistory(t) == Ok([]) && A.LoadHistory(t').Ok?
            && |A.LoadHistory(t').value| == 1
            && r.value == Outcome(true, Some(A.LoadHistory(t').value[0].id), A.Ready)
            && A.InspectState(t') == if NoStrayRollbacks(t, []) then A.Ready else A.Partial
  {
    hide Wrote, Fits, A.InspectState, Observe, Diff, A.Written, A.NewEntry, NoStrayRollbacks, A.LoadHistory, WellFormed;
    RegenerableFits(t);
    WroteNothing(t, []);
    var observed := Observe(toasty, live, current).value;
    var forward, reverse := Diff(toasty, EMPTY, observed, NO_HINTS).value, Diff(toasty, observed, EMPTY, NO_HINTS).value;
    var q := WriteRequest(source, name, forward, reverse, files);
    WroteOneMore(t, [], t, [], None, 0, q, steps);
    var w := A.Written(t, [], q, steps);
    assert [] + [A.NewEntry(w.1.value)] == [A.NewEntry(w.1.value)];
    WroteIs(t, [], w.0, [A.NewEntry(w.1.value)], Some(w.1.value.id), 1);
  }

  // ---------------------------------------------------------------- what is refused

  /** A damaged lineage is not generated for. The origin must suit the state: the empty schema needs a lineage
      without migrations, the latest snapshot one with some. Only a live origin looks at the database. */
  lemma {:induction false} GenerationRefuses(toasty: Toasty, t: A.Tree, live: Catalog, q: GenerateRequest, steps: nat)
    requires WellFormed(t)
    ensures var s, g := A.InspectState(t), Generate(toasty, t, live, q, steps);
            && (g.1 == Err(NotRegenerable) <==> s == A.Partial || s == A.Invalid)
            && (g.1 == Err(OriginMismatch) <==>
                  (q.origin.FromEmpty? && s == A.Ready) || (q.origin.LatestSnapshot? && (s == A.Missing || s == A.Empty)))
            && (g.1 == Err(InspectFailed) <==>
                  q.origin.LiveDatabase? && s != A.Partial && s != A.Invalid && Observe(toasty, live, q.current).None?)
            && (g.1 == Err(BadHints) ==> q.hints.None? && (!q.origin.LiveDatabase? ==> g.0 == t))
            && (q.hints.None? ==> g.1.Err?)
            && (g.1.Err? && (g.1.error.NotRegenerable? || g.1.error.OriginMismatch? || g.1.error.InspectFailed?
                             || g.1.error.TrackedDrift? || g.1.error.UnreadableSnapshot? || g.1.error.NoBaseline?)
                ==> g.0 == t)
  {
    hide A.InspectState, LatestSchema, Observe, Diff, Project, A.Written, A.LoadHistory, WellFormed, Fits;
    if A.InspectState(t) != A.Partial && A.InspectState(t) != A.Invalid {
      RegenerableFits(t);
      LatestErrs(t, A.LoadHistory(t).value);
    }
  }

  lemma {:induction false} LatestErrs(t: A.Tree, entries: seq<A.Entry>)
    ensures LatestSchema(t, entries).Err? ==> LatestSchema(t, entries) == Err(UnreadableSnapshot)
  {
  }

  /** A baseline is taken only of a database that has a table, for a lineage without migrations. */
  lemma {:induction false} BaselineRefuses(toasty: Toasty, t: A.Tree, live: Catalog, source: string, name: string,
                                           current: Schema, files: Files, steps: nat)
    ensures var s, b := A.InspectState(t), Baseline(toasty, t, live, source, name, current, files, steps);
            var observed := Observe(toasty, live, current);
            && (b.1 == Err(NotRegenerable) <==> s == A.Ready || s == A.Partial || s == A.Invalid)
            && (b.1 == Err(InspectFailed) <==> (s == A.Missing || s == A.Empty) && observed.None?)
            && (b.1 == Err(NothingObserved) <==> (s == A.Missing || s == A.Empty) && observed == Some(EMPTY))
            && (b.1.Err? && !b.1.error.Artifact? ==> b.0 == t)
  {
    hide A.InspectState, Observe, Diff, A.Written;
  }

  // ---------------------------------------------------------------- with time enough

  lemma {:induction false} WriteIsNotStopped(t: A.Tree, entries: seq<A.Entry>, q: A.Request, steps: nat)
    requires steps >= 15
    ensures A.Written(t, entries, q, steps).1 != Err(A.Stopped)
  {
    hide A.Written, Occupied, T.ValidSql, A.NamesFor;
    WriteAnswers(t, entries, q, steps);
    NamesAnswer(entries, q.source, q.name);
  }

  lemma {:induction false} StartIsNotStopped(toasty: Toasty, t: A.Tree, live: Catalog, entries: seq<A.Entry>,
                                             q: GenerateRequest, steps: nat)
    requires steps >= 30
    ensures var s := StartFrom(toasty, t, live, entries, q, steps);
            s.1 != Err(Artifact(A.Stopped)) && (s.1.Ok? ==> s.1.value.steps >= 15)
  {
    hide A.InspectState, LatestSchema, Observe, Diff, Project, A.Written;
    LatestErrs(t, entries);
    if Observe(toasty, live, q.current).Some? {
      var observed := Observe(toasty, live, q.current).value;
      var forward, reverse := Diff(toasty, EMPTY, observed, NO_HINTS), Diff(toasty, observed, EMPTY, NO_HINTS);
      if forward.Some? && reverse.Some? {
        WriteIsNotStopped(t, entries, WriteRequest(q.source, "observed_schema_baseline", forward.value, reverse.value,
                                                   q.baselineFiles), steps);
      }
    }
  }

  /** The steps of two writes are enough for every generation, also for one that writes a baseline first. */
  lemma {:induction false} ThirtyStepsSuffice(toasty: Toasty, t: A.Tree, live: Catalog, q: GenerateRequest, steps: nat)
    requires steps >= 30
    ensures Generate(toasty, t, live, q, steps).1 != Err(Artifact(A.Stopped))
  {
    hide A.InspectState, StartFrom, Diff, A.Written;
    if A.LoadHistory(t).Ok? {
      var entries := A.LoadHistory(t).value;
      StartIsNotStopped(toasty, t, live, entries, q, steps);
      var s := StartFrom(toasty, t, live, entries, q, steps);
      if s.1.Ok? && q.hints.Some? {
        var forward := Diff(toasty, s.1.value.previous, q.current, q.hints.value);
        var reverse := Diff(toasty, q.current, s.1.value.previous, NO_HINTS);
        if forward.Some? && reverse.Some? {
          WriteIsNotStopped(s.0, s.1.value.entries, WriteRequest(q.source, q.name, forward.value, reverse.value, q.files),
                            s.1.value.steps);
        }
      }
    }
  }
}
