/** Histories replay to their snapshots, and the live schema follows the ledger, over every run. */
module LineageLaws {
  import opened Wrappers
  import opened Lineage
  import opened ArtifactLaws
  import A = ArtifactStore
  import L = TransactionalLedger
  import P = TransactionalLaws
  import C = MigrationClients
  import R = CatalogReading
  import S = Sequences
  import W = SchemaNormalizerLaws

  // ---------------------------------------------------------------- chains of migrations

  function Before(schemas: seq<Schema>, k: nat): Schema
    requires k <= |schemas|
  {
    if k == 0 then EMPTY else schemas[k - 1]
  }

  /** The file holds SQL that Toasty generated between schemas that no database tells from these. */
  ghost predicate GeneratedFor(toasty: Toasty, text: string, a: Schema, b: Schema) {
    exists a', b', hints :: GeneratedFrom(toasty, text, a, b, a', b', hints)
  }

  ghost predicate GeneratedFrom(toasty: Toasty, text: string, a: Schema, b: Schema, a': Schema, b': Schema, hints: Hints) {
    && Same(toasty, a', a) && Same(toasty, b', b) && Diff(toasty, a', b', hints).Some?
    && text == A.SqlFile(Diff(toasty, a', b', hints).value.sql).text
  }

  /** Migration `k` leads from snapshot `k - 1` to snapshot `k`, and its reverse SQL leads back. */
  ghost predicate Link(toasty: Toasty, file: A.Owned, a: Schema, b: Schema) {
    && GeneratedFor(toasty, file.sql, a, b) && Takes(toasty, file.sql, a, b)
    && file.rollback.Some?
    && GeneratedFor(toasty, file.rollback.value, b, a) && Takes(toasty, file.rollback.value, b, a)
  }

  ghost predicate Chain(toasty: Toasty, done: seq<A.Owned>, schemas: seq<Schema>) {
    && |schemas| == |done|
    && forall k :: 0 <= k < |done| ==> Link(toasty, done[k], Before(schemas, k), schemas[k])
  }

  lemma {:induction false} ChainLonger(toasty: Toasty, done: seq<A.Owned>, schemas: seq<Schema>, file: A.Owned,
                                       b: Schema)
    requires Chain(toasty, done, schemas) && Link(toasty, file, Before(schemas, |schemas|), b)
    ensures Chain(toasty, done + [file], schemas + [b])
  {
    hide Holds, Same, Diff, Observe, Project, Statements;
    hide Link;
    var longer, files := schemas + [b], done + [file];
    forall k | 0 <= k < |files| ensures Link(toasty, files[k], Before(longer, k), longer[k]) {
      assert k <= |done| ==> Before(longer, k) == Before(schemas, k);
      if k < |done| { assert files[k] == done[k] && longer[k] == schemas[k]; }
    }
  }

  lemma {:induction false} ExecuteConcat(toasty: Toasty, live: Catalog, a: seq<L.Statement>, b: seq<L.Statement>)
    ensures ExecuteAll(toasty, live, a + b) == ExecuteAll(toasty, ExecuteAll(toasty, live, a), b)
    ensures Runs(toasty, live, a + b) <==> Runs(toasty, live, a) && Runs(toasty, ExecuteAll(toasty, live, a), b)
    decreases |b|
  {
    if b == [] {
      assert a + b == a;
    } else {
      assert S.Init(a + b) == a + S.Init(b) && S.Last(a + b) == S.Last(b);
      ExecuteConcat(toasty, live, a, S.Init(b));
    }
  }

  lemma {:induction false} LinkRuns(toasty: Toasty, done: seq<A.Owned>, schemas: seq<Schema>, k: nat, live: Catalog)
    requires Chain(toasty, done, schemas) && k < |done|
    ensures var forward := Statements(toasty, done[k].sql);
            Holds(toasty, live, Before(schemas, k)) && Runs(toasty, live, forward) ==>
              Holds(toasty, ExecuteAll(toasty, live, forward), Before(schemas, k + 1))
    ensures done[k].rollback.Some?
    ensures var reverse := Statements(toasty, done[k].rollback.value);
            Holds(toasty, live, Before(schemas, k + 1)) && Runs(toasty, live, reverse) ==>
              Holds(toasty, ExecuteAll(toasty, live, reverse), Before(schemas, k))
  {
    hide Holds, Same, Diff, Observe, Project, Statements, ExecuteAll, Runs;
    assert Link(toasty, done[k], Before(schemas, k), schemas[k]);
  }

  /** Running artifacts `lo` to `hi` forwards leads from snapshot `lo - 1` to snapshot `hi - 1`. */
  lemma {:induction false} ForwardFollowsChain(toasty: Toasty, done: seq<A.Owned>, schemas: seq<Schema>, live: Catalog,
                                               lo: nat, hi: nat)
    requires Chain(toasty, done, schemas) && lo <= hi <= |done|
    requires Holds(toasty, live, Before(schemas, lo)) && Runs(toasty, live, P.ForwardSql(Migrations(toasty, done), lo, hi))
    ensures Holds(toasty, ExecuteAll(toasty, live, P.ForwardSql(Migrations(toasty, done), lo, hi)), Before(schemas, hi))
    decreases hi
  {
    hide Holds, Same, Diff, Observe, Project, Statements, Chain, ExecuteAll, Runs, Before, Migrations, P.ForwardSql;
    if lo < hi {
      var before, newest := P.ForwardSql(Migrations(toasty, done), lo, hi - 1), Statements(toasty, done[hi - 1].sql);
      ForwardSqlLast(toasty, done, lo, hi);
      ExecuteConcat(toasty, live, before, newest);
      ForwardFollowsChain(toasty, done, schemas, live, lo, hi - 1);
      LinkRuns(toasty, done, schemas, hi - 1, ExecuteAll(toasty, live, before));
    } else {
      NoForwardSql(toasty, done, lo);
      ExecuteNothing(toasty, live);
    }
  }

  lemma {:induction false} NoForwardSql(toasty: Toasty, done: seq<A.Owned>, k: nat)
    requires k <= |done|
    ensures P.ForwardSql(Migrations(toasty, done), k, k) == []
  {
  }

  lemma {:induction false} ForwardSqlLast(toasty: Toasty, done: seq<A.Owned>, lo: nat, hi: nat)
    requires lo < hi <= |done|
    ensures P.ForwardSql(Migrations(toasty, done), lo, hi)
         == P.ForwardSql(Migrations(toasty, done), lo, hi - 1) + Statements(toasty, done[hi - 1].sql)
  {
  }

  lemma {:induction false} ExecuteNothing(toasty: Toasty, live: Catalog)
    ensures ExecuteAll(toasty, live, []) == live && Runs(toasty, live, [])
  {
  }

  /** Running artifacts `lo` to `hi` backwards leads from snapshot `hi - 1` to snapshot `lo - 1`. */
  lemma {:induction false} ReverseFollowsChain(toasty: Toasty, done: seq<A.Owned>, schemas: seq<Schema>, live: Catalog,
                                               lo: nat, hi: nat)
    requires Chain(toasty, done, schemas) && lo <= hi <= |done|
    requires forall k :: lo <= k < hi ==> Migrations(toasty, done)[k].rollback.Some?
    requires Holds(toasty, live, Before(schemas, hi)) && Runs(toasty, live, P.ReverseSql(Migrations(toasty, done), lo, hi))
    ensures Holds(toasty, ExecuteAll(toasty, live, P.ReverseSql(Migrations(toasty, done), lo, hi)), Before(schemas, lo))
    decreases hi
  {
    hide Holds, Same, Diff, Observe, Project, Statements, Chain, ExecuteAll, Runs, Before;
    if lo < hi {
      LinkRuns(toasty, done, schemas, hi - 1, live);
      var newest := Statements(toasty, done[hi - 1].rollback.value);
      ExecuteConcat(toasty, live, newest, P.ReverseSql(Migrations(toasty, done), lo, hi - 1));
      ReverseFollowsChain(toasty, done, schemas, ExecuteAll(toasty, live, newest), lo, hi - 1);
    } else {
      ExecuteNothing(toasty, live);
    }
  }

  // ---------------------------------------------------------------- snapshots on disk

  /** The snapshot files of the history hold these schemas. */
  ghost predicate SnapshotsHold(t: A.Tree, entries: seq<A.Entry>, schemas: seq<Schema>) {
    && |schemas| == |entries|
    && forall k :: 0 <= k < |entries| ==>
         && entries[k].snapshotName in t.snapshots
         && t.snapshots[entries[k].snapshotName].schema == Some(schemas[k])
  }

  lemma {:induction false} SameFilesHold(t: A.Tree, t': A.Tree, entries: seq<A.Entry>, schemas: seq<Schema>)
    requires SameFiles(t, t', entries) && SnapshotsHold(t, entries, schemas)
    ensures SnapshotsHold(t', entries, schemas)
  {
  }

  /** What a write does to the recorded snapshots. */
  lemma {:induction false} WrittenSnapshots(t: A.Tree, entries: seq<A.Entry>, q: A.Request, steps: nat,
                                            schemas: seq<Schema>)
    requires Generable(t, entries) && SnapshotsHold(t, entries, schemas)
    ensures var w := A.Written(t, entries, q, steps);
            && (w.1.Err? ==> A.LoadHistory(w.0) == Ok(entries) && SnapshotsHold(w.0, entries, schemas))
            && (w.1.Ok? ==> && A.LoadHistory(w.0) == Ok(entries + [A.NewEntry(w.1.value)])
                            && SnapshotsHold(w.0, entries + [A.NewEntry(w.1.value)], schemas + [q.schema]))
  {
    hide SnapshotsHold, TreeAfter, NameShapes, A.LoadHistory, A.InspectState, A.Publication, A.RunTo, A.WouldClash,
         A.NamesFor, A.Load, OldFiles, NoStrayRollbacks, WellFormed, A.NewEntry;
    if A.NamesFor(entries, q.source, q.name).Ok? {
      var names := A.NamesFor(entries, q.source, q.name).value;
      NamesHaveShapes(entries, q.source, q.name);
      CreatedRoot(t, entries);
      var root := t.(created := true);
      DirectoriesOnlyCreate(t, if steps < 3 then steps else 3);
      CreatedHolds(t, entries, schemas);
      if steps >= 3 && !A.WouldClash(root, names) {
        var k := if steps < 15 then steps - 3 else 12;
        PublicationTree(root, entries, names, q, k);
        PublishedSnapshots(root, entries, names, q, k, schemas);
      }
    }
  }

  lemma {:induction false} CreatedHolds(t: A.Tree, entries: seq<A.Entry>, schemas: seq<Schema>)
    requires A.LoadHistory(t) == Ok(entries) && SnapshotsHold(t, entries, schemas)
    ensures A.LoadHistory(t.(created := true)) == Ok(entries) && SnapshotsHold(t.(created := true), entries, schemas)
  {
  }

  lemma {:induction false} PublishedSnapshots(t: A.Tree, entries: seq<A.Entry>, names: A.Names, q: A.Request, k: nat,
                                              schemas: seq<Schema>)
    requires k <= 12 && Startable(t, entries, names) && SnapshotsHold(t, entries, schemas)
    ensures var t' := TreeAfter(t, entries, names, q, k);
            && (k < 12 ==> A.LoadHistory(t') == Ok(entries))
            && SnapshotsHold(t', entries, schemas)
            && (k == 12 ==> && A.LoadHistory(t') == Ok(entries + [A.NewEntry(names)])
                            && SnapshotsHold(t', entries + [A.NewEntry(names)], schemas + [q.schema]))
  {
    var t' := TreeAfter(t, entries, names, q, k);
    ReadyHasEntries(t, entries);
    if entries != [] {
      PublicationKeepsFiles(t, entries, names, q, k);
      SameFilesHold(t, t', entries, schemas);
    }
    if k == 12 {
      assert t'.snapshots[names.snapshot].schema == Some(q.schema);
    }
  }

  // ---------------------------------------------------------------- the lineage on disk

  /** Unless it is stuck as partial, the tree records `done`, whose snapshots are `schemas`. */
  ghost predicate TreeInv(toasty: Toasty, t: A.Tree, done: seq<A.Owned>, schemas: seq<Schema>) {
    && LineageInv(t, done) && Chain(toasty, done, schemas)
    && (A.InspectState(t) != A.Partial ==>
          A.LoadHistory(t).Ok? && SnapshotsHold(t, A.LoadHistory(t).value, schemas))
  }

  lemma {:induction false} LatestIsLastSnapshot(t: A.Tree, entries: seq<A.Entry>, schemas: seq<Schema>)
    requires SnapshotsHold(t, entries, schemas)
    ensures LatestSchema(t, entries) == Ok(Before(schemas, |schemas|))
  {
  }

  lemma {:induction false} UnreadyHasNone(t: A.Tree, done: seq<A.Owned>)
    requires LineageInv(t, done) && A.InspectState(t) != A.Partial && A.InspectState(t) != A.Ready
    ensures done == []
  {
  }

  lemma {:induction false} TakesShift(toasty: Toasty, text: string, a: Schema, a': Schema, b: Schema, b': Schema)
    requires Takes(toasty, text, a, b) && Same(toasty, a, a') && Same(toasty, b, b')
    ensures Takes(toasty, text, a', b')
  {
    hide Holds, Statements, ExecuteAll, Runs;
  }

  /** SQL generated both ways between two schemas links all schemas that no database tells from them. */
  lemma {:induction false} GeneratedLinks(toasty: Toasty, latest: Schema, previous: Schema, next: Schema, hints: Hints,
                                          names: A.Names, source: string, name: string, files: Files)
    requires Laws(toasty) && Same(toasty, previous, latest)
    requires Diff(toasty, previous, next, hints).Some? && Diff(toasty, next, previous, NO_HINTS).Some?
    ensures var forward, reverse := Diff(toasty, previous, next, hints).value, Diff(toasty, next, previous, NO_HINTS).value;
            && forward.snapshot == next
            && Link(toasty, NewFile(names, WriteRequest(source, name, forward, reverse, files)), latest, next)
  {
    hide Laws, Same, Diff, GeneratedFor, Takes, A.SqlFile;
    SelfSame(toasty, next);
    OneWayLinks(toasty, latest, next, previous, next, hints);
    OneWayLinks(toasty, next, latest, next, previous, NO_HINTS);
  }

  /** Generated SQL leads between all schemas that no database tells from those it was generated for. */
  lemma {:induction false} OneWayLinks(toasty: Toasty, a: Schema, b: Schema, a': Schema, b': Schema, hints: Hints)
    requires Laws(toasty) && Diff(toasty, a', b', hints).Some?
    ensures Diff(toasty, a', b', hints).value.snapshot == b'
    ensures var text := A.SqlFile(Diff(toasty, a', b', hints).value.sql).text;
            Same(toasty, a', a) && Same(toasty, b', b) ==>
              GeneratedFor(toasty, text, a, b) && Takes(toasty, text, a, b)
  {
    hide Same, Holds, Diff, ExecuteAll, Runs, Statements, A.SqlFile;
    var text := A.SqlFile(Diff(toasty, a', b', hints).value.sql).text;
    if Same(toasty, a', a) && Same(toasty, b', b) {
      assert GeneratedFrom(toasty, text, a, b, a', b', hints);
      TakesShift(toasty, text, a', a, b', b);
    }
  }

  /** Writing a generated migration extends the lineage by one link, or leaves it as it was. */
  lemma {:induction false} WriteExtends(toasty: Toasty, t: A.Tree, done: seq<A.Owned>, schemas: seq<Schema>,
                                        previous: Schema, next: Schema, hints: Hints, source: string, name: string,
                                        files: Files, steps: nat)
    requires Laws(toasty) && TreeInv(toasty, t, done, schemas) && A.InspectState(t) != A.Partial
    requires Same(toasty, previous, Before(schemas, |schemas|))
    requires Diff(toasty, previous, next, hints).Some? && Diff(toasty, next, previous, NO_HINTS).Some?
    ensures var forward, reverse := Diff(toasty, previous, next, hints).value, Diff(toasty, next, previous, NO_HINTS).value;
            var q := WriteRequest(source, name, forward, reverse, files);
            var entries := A.LoadHistory(t).value;
            var w := A.Written(t, entries, q, steps);
            && (w.1.Err? ==> TreeInv(toasty, w.0, done, schemas))
            && (w.1.Ok? ==> && TreeInv(toasty, w.0, done + [NewFile(w.1.value, q)], schemas + [next])
                            && A.InspectState(w.0) == A.Ready
                            && A.LoadHistory(w.0) == Ok(entries + [A.NewEntry(w.1.value)]))
  {
    hide Holds, Same, Diff, Observe, Project, Statements;
    hide Laws, TreeInv, LineageInv, Chain, SnapshotsHold, Link, Generable, A.LoadHistory, A.InspectState, A.Written,
         NewFile, WellFormed, Before;
    TreeInvParts(toasty, t, done, schemas);
    var forward, reverse := Diff(toasty, previous, next, hints).value, Diff(toasty, next, previous, NO_HINTS).value;
    var q := WriteRequest(source, name, forward, reverse, files);
    var entries := A.LoadHistory(t).value;
    var w := A.Written(t, entries, q, steps);
    WrittenKeeps(t, done, entries, q, steps);
    WrittenSnapshots(t, entries, q, steps, schemas);
    if w.1.Ok? {
      GeneratedLinks(toasty, Before(schemas, |schemas|), previous, next, hints, w.1.value, source, name, files);
      ChainLonger(toasty, done, schemas, NewFile(w.1.value, q), next);
      TreeInvFrom(toasty, w.0, entries + [A.NewEntry(w.1.value)], done + [NewFile(w.1.value, q)], schemas + [next]);
    } else {
      TreeInvFrom(toasty, w.0, entries, done, schemas);
    }
  }

  lemma {:induction false} TreeInvParts(toasty: Toasty, t: A.Tree, done: seq<A.Owned>, schemas: seq<Schema>)
    requires TreeInv(toasty, t, done, schemas)
    ensures LineageInv(t, done) && Chain(toasty, done, schemas) && |schemas| == |done|
    ensures A.InspectState(t) != A.Partial ==>
              && A.LoadHistory(t).Ok? && Generable(t, A.LoadHistory(t).value)
              && SnapshotsHold(t, A.LoadHistory(t).value, schemas)
  {
  }

  lemma {:induction false} TreeInvFrom(toasty: Toasty, t: A.Tree, entries: seq<A.Entry>, done: seq<A.Owned>,
                                       schemas: seq<Schema>)
    requires LineageInv(t, done) && Chain(toasty, done, schemas)
    requires A.LoadHistory(t) == Ok(entries) && SnapshotsHold(t, entries, schemas)
    ensures TreeInv(toasty, t, done, schemas)
  {
  }

  lemma {:induction false} LineageInvParts(t: A.Tree, done: seq<A.Owned>)
    requires LineageInv(t, done)
    ensures WellFormed(t) && A.InspectState(t) != A.Invalid
  {
  }

  // ---------------------------------------------------------------- generation keeps the lineage

  /** `longer` extends `done` and, in step, its snapshots. */
  ghost predicate Extends(done: seq<A.Owned>, schemas: seq<Schema>, done': seq<A.Owned>, schemas': seq<Schema>) {
    done <= done' && schemas <= schemas'
  }

  lemma {:induction false} BaselineExists(toasty: Toasty, observed: Schema)
    requires Laws(toasty) && observed.tables != []
    ensures Diff(toasty, EMPTY, observed, NO_HINTS).Some? && Diff(toasty, observed, EMPTY, NO_HINTS).Some?
  {
    hide Same, Takes, Holds, Diff, Observe, Project, Statements, R.Sane, R.Shows;
  }

  lemma {:induction false} BaselineKeeps(toasty: Toasty, t: A.Tree, done: seq<A.Owned>, schemas: seq<Schema>,
                                         source: string,
                                         name: string, observed: Schema, files: Files, steps: nat)
    returns (done': seq<A.Owned>, schemas': seq<Schema>)
    requires Laws(toasty) && TreeInv(toasty, t, done, schemas) && observed.tables != []
    requires A.InspectState(t) != A.Partial && A.InspectState(t) != A.Ready
    ensures var entries := A.LoadHistory(t).value;
            var w := WriteBaseline(toasty, t, entries, source, name, observed, files, steps);
            && TreeInv(toasty, w.0, done', schemas') && Extends(done, schemas, done', schemas')
            && (w.1.Ok? ==> && schemas' == schemas + [observed] && A.InspectState(w.0) == A.Ready
                            && A.LoadHistory(w.0) == Ok(entries + [A.NewEntry(w.1.value)]))
            && (w.1.Err? ==> w.1.error.Artifact?)
  {
    hide Holds, Same, Diff, Observe, Project, Statements;
    hide Laws, Chain, LineageInv, SnapshotsHold, A.LoadHistory, A.InspectState, A.Written;
    BaselineExists(toasty, observed);
    UnreadyHasNone(t, done);
    EmptyChain(toasty, done, schemas);
    SelfSame(toasty, EMPTY);
    WriteExtends(toasty, t, done, schemas, EMPTY, observed, NO_HINTS, source, name, files, steps);
    var entries := A.LoadHistory(t).value;
    var forward, reverse := Diff(toasty, EMPTY, observed, NO_HINTS).value, Diff(toasty, observed, EMPTY, NO_HINTS).value;
    var q := WriteRequest(source, name, forward, reverse, files);
    var w := A.Written(t, entries, q, steps);
    done', schemas' := done, schemas;
    if w.1.Ok? {
      done', schemas' := done + [NewFile(w.1.value, q)], schemas + [observed];
    }
  }

  lemma {:induction false} EmptyChain(toasty: Toasty, done: seq<A.Owned>, schemas: seq<Schema>)
    requires Chain(toasty, done, schemas) && done == []
    ensures schemas == []
  {
  }

  lemma {:induction false} SelfSame(toasty: Toasty, a: Schema)
    ensures Same(toasty, a, a)
  {
  }

  /** What a generation may start from. */
  ghost predicate StartsFrom(toasty: Toasty, t: A.Tree, start: Start, schemas: seq<Schema>) {
    && A.InspectState(t) != A.Partial && A.LoadHistory(t) == Ok(start.entries)
    && Same(toasty, start.previous, Before(schemas, |schemas|))
  }

  lemma {:induction false} NoDriftIsSame(toasty: Toasty, latest: Schema, projected: Schema, hints: Hints)
    requires Laws(toasty) && Diff(toasty, latest, projected, hints).None?
    ensures Same(toasty, projected, latest) && Same(toasty, latest, projected)
  {
    hide Holds, Diff, Observe, Project, Statements, Takes, R.Sane, R.Shows;
  }

  lemma {:induction false} LatestKnown(toasty: Toasty, t: A.Tree, done: seq<A.Owned>, schemas: seq<Schema>)
    requires TreeInv(toasty, t, done, schemas) && A.InspectState(t) != A.Partial
    ensures A.InspectState(t) != A.Ready ==> schemas == []
    ensures A.LoadHistory(t).Ok?
    ensures LatestSchema(t, A.LoadHistory(t).value) == Ok(Before(schemas, |schemas|))
  {
    if A.InspectState(t) != A.Ready {
      UnreadyHasNone(t, done);
      EmptyChain(toasty, done, schemas);
    }
    LatestIsLastSnapshot(t, A.LoadHistory(t).value, schemas);
  }

  lemma {:induction false} LiveStartKeeps(toasty: Toasty, t: A.Tree, done: seq<A.Owned>, schemas: seq<Schema>,
                                          live: Catalog,
                                          q: GenerateRequest, steps: nat)
    returns (done': seq<A.Owned>, schemas': seq<Schema>)
    requires Laws(toasty) && TreeInv(toasty, t, done, schemas) && A.InspectState(t) != A.Partial
    ensures var start := StartLive(toasty, t, live, A.LoadHistory(t).value, q, steps);
            && TreeInv(toasty, start.0, done', schemas') && Extends(done, schemas, done', schemas')
            && (start.1.Ok? ==> StartsFrom(toasty, start.0, start.1.value, schemas'))
  {
    hide Holds, Same, Diff, Observe, Project, Statements;
    hide Laws, TreeInv, A.LoadHistory, A.InspectState, WriteBaseline, LatestSchema, Before;
    LatestKnown(toasty, t, done, schemas);
    var entries := A.LoadHistory(t).value;
    done', schemas' := done, schemas;
    if Observe(toasty, live, q.current).Some? {
      var observed := Observe(toasty, live, q.current).value;
      if A.InspectState(t) == A.Ready {
        var latest := LatestSchema(t, entries).value;
        if Diff(toasty, latest, Project(toasty, observed, latest), NO_HINTS).None? {
          NoDriftIsSame(toasty, latest, Project(toasty, observed, latest), NO_HINTS);
        }
      } else if observed.tables == [] {
        SelfSame(toasty, EMPTY);
        assert observed == EMPTY == Before(schemas, 0) by { FirstIsEmpty(schemas); }
      } else {
        done', schemas' := BaselineKeeps(toasty, t, done, schemas, q.source, "observed_schema_baseline", observed,
                                         q.baselineFiles, steps);
        SelfSame(toasty, observed);
        LastIs(schemas, observed);
      }
    }
  }

  lemma {:induction false} FirstIsEmpty(schemas: seq<Schema>)
    ensures Before(schemas, 0) == EMPTY
  {
  }

  lemma {:induction false} LastIs(schemas: seq<Schema>, next: Schema)
    ensures Before(schemas + [next], |schemas| + 1) == next
  {
  }

  lemma {:induction false} StartKeeps(toasty: Toasty, t: A.Tree, done: seq<A.Owned>, schemas: seq<Schema>, live: Catalog,
                                      q: GenerateRequest, steps: nat)
    returns (done': seq<A.Owned>, schemas': seq<Schema>)
    requires Laws(toasty) && TreeInv(toasty, t, done, schemas) && A.InspectState(t) != A.Partial
    ensures var start := StartFrom(toasty, t, live, A.LoadHistory(t).value, q, steps);
            && TreeInv(toasty, start.0, done', schemas') && Extends(done, schemas, done', schemas')
            && (start.1.Ok? ==> StartsFrom(toasty, start.0, start.1.value, schemas'))
  {
    hide Holds, Same, Diff, Observe, Project, Statements;
    hide Laws, TreeInv, A.LoadHistory, A.InspectState, LatestSchema, StartLive, Before;
    done', schemas' := done, schemas;
    LatestKnown(toasty, t, done, schemas);
    FirstIsEmpty(schemas);
    SelfSame(toasty, Before(schemas, |schemas|));
    if q.origin.LiveDatabase? {
      done', schemas' := LiveStartKeeps(toasty, t, done, schemas, live, q, steps);
    }
  }

  lemma {:induction false} GenerateFromKeeps(toasty: Toasty, t: A.Tree, done: seq<A.Owned>, schemas: seq<Schema>,
                                             start: Start, q: GenerateRequest)
    returns (done': seq<A.Owned>, schemas': seq<Schema>)
    requires Laws(toasty) && TreeInv(toasty, t, done, schemas) && StartsFrom(toasty, t, start, schemas)
    ensures var g := GenerateFrom(toasty, t, start, q);
            && TreeInv(toasty, g.0, done', schemas') && Extends(done, schemas, done', schemas')
            && (g.1.Ok? ==> Same(toasty, Before(schemas', |schemas'|), q.current) && A.InspectState(g.0) != A.Partial)
            && (g.1.Err? ==> g.1.error.BadHints? || g.1.error.Artifact? || g.1.error.NoRollback?)
            && (g.1 == Err(NoRollback) <==>
                  && q.hints.Some? && Diff(toasty, start.previous, q.current, q.hints.value).Some?
                  && Diff(toasty, start.previous, q.current, NO_HINTS).None?)
  {
    done', schemas' := done, schemas;
    hide Holds, Same, Diff, Observe, Project, Statements;
    hide Laws, Chain, LineageInv, SnapshotsHold, A.LoadHistory, A.InspectState, A.Written, Takes;
    if q.hints.Some? {
      NothingBack(toasty, start.previous, q.current);
      if Diff(toasty, start.previous, q.current, q.hints.value).None? {
        NoDriftIsSame(toasty, start.previous, q.current, q.hints.value);
        SameTogether(toasty, Before(schemas, |schemas|), start.previous, q.current);
      } else if Diff(toasty, q.current, start.previous, NO_HINTS).Some? {
        WriteExtends(toasty, t, done, schemas, start.previous, q.current, q.hints.value, q.source, q.name, q.files, start.steps);
        SelfSame(toasty, q.current);
        LastIs(schemas, q.current);
        var forward := Diff(toasty, start.previous, q.current, q.hints.value).value;
        var reverse := Diff(toasty, q.current, start.previous, NO_HINTS).value;
        var request := WriteRequest(q.source, q.name, forward, reverse, q.files);
        var w := A.Written(t, start.entries, request, start.steps);
        if w.1.Ok? {
          done', schemas' := done + [NewFile(w.1.value, request)], schemas + [q.current];
        }
      }
    }
  }

  lemma {:induction false} NothingBack(toasty: Toasty, a: Schema, b: Schema)
    requires Laws(toasty)
    ensures Diff(toasty, a, b, NO_HINTS).None? <==> Diff(toasty, b, a, NO_HINTS).None?
  {
    hide Same, Takes, Holds, Diff, R.Sane, R.Shows;
  }

  lemma {:induction false} SameTogether(toasty: Toasty, a: Schema, b: Schema, c: Schema)
    requires Same(toasty, b, a) && Same(toasty, c, b)
    ensures Same(toasty, a, c)
  {
    hide Holds;
  }

  /** Generation from any origin, stopped at any step, keeps the lineage a chain; when it succeeds, no
      database tells the latest snapshot from the model schema. It lacks the SQL of the way back only if
      rename hints make a change of two schemas that do not differ otherwise. */
  lemma {:induction false} GenerateKeeps(toasty: Toasty, t: A.Tree, done: seq<A.Owned>, schemas: seq<Schema>,
                                         live: Catalog,
                                         q: GenerateRequest, steps: nat)
    returns (done': seq<A.Owned>, schemas': seq<Schema>)
    requires Laws(toasty) && TreeInv(toasty, t, done, schemas)
    ensures var g := Generate(toasty, t, live, q, steps);
            && TreeInv(toasty, g.0, done', schemas') && Extends(done, schemas, done', schemas')
            && (g.1.Ok? ==> Same(toasty, Before(schemas', |schemas'|), q.current) && A.InspectState(g.0) != A.Partial)
            && (g.1.Err? ==> !g.1.error.NoBaseline?)
            && (g.1 == Err(NoRollback) ==> q.hints.Some? && q.hints != Some(NO_HINTS))
  {
    hide Holds, Same, Diff, Observe, Project, Statements;
    hide Laws, TreeInv, Chain, LineageInv, SnapshotsHold, A.LoadHistory, A.InspectState, GenerateFrom, StartFrom, StartsFrom;
    done', schemas' := done, schemas;
    TreeInvParts(toasty, t, done, schemas);
    LineageInvParts(t, done);
    if A.InspectState(t) != A.Partial {
      var start := StartFrom(toasty, t, live, A.LoadHistory(t).value, q, steps);
      done', schemas' := StartKeeps(toasty, t, done, schemas, live, q, steps);
      if start.1.Ok? {
        done', schemas' := GenerateFromKeeps(toasty, start.0, done', schemas', start.1.value, q);
      } else {
        StartErrors(toasty, t, done, schemas, live, q, steps);
      }
    }
  }

  lemma {:induction false} StartErrors(toasty: Toasty, t: A.Tree, done: seq<A.Owned>, schemas: seq<Schema>,
                                       live: Catalog,
                                       q: GenerateRequest, steps: nat)
    requires Laws(toasty) && TreeInv(toasty, t, done, schemas) && A.InspectState(t) != A.Partial
    ensures var start := StartFrom(toasty, t, live, A.LoadHistory(t).value, q, steps);
            start.1.Err? ==> !start.1.error.NoRollback? && !start.1.error.NoBaseline?
  {
    hide Holds, Same, Diff, Observe, Project, Statements;
    hide Laws, Chain, LineageInv, SnapshotsHold, A.LoadHistory, A.InspectState, A.Written;
    if q.origin.LiveDatabase? && Observe(toasty, live, q.current).Some? {
      var observed := Observe(toasty, live, q.current).value;
      if observed.tables != [] { BaselineExists(toasty, observed); }
    }
  }

  // ---------------------------------------------------------------- the live schema follows the ledger

  /** The ledger records the first `n` migrations, and the live schema is the snapshot of the newest
      of them. With none recorded it is the empty schema, unless nothing has ever run here. */
  ghost predicate LiveInv(toasty: Toasty, s: State, done: seq<A.Owned>, schemas: seq<Schema>, n: nat) {
    && n <= |done| == |schemas|
    && s.db.ledger == P.LedgerOf(Migrations(toasty, done), n)
    && (Holds(toasty, Live(toasty, s), Before(schemas, n)) || (n == 0 && s.db.trace == []))
  }

  ghost predicate Inv(toasty: Toasty, s: State, done: seq<A.Owned>, schemas: seq<Schema>, n: nat) {
    TreeInv(toasty, s.tree, done, schemas) && LiveInv(toasty, s, done, schemas, n)
  }

  /** The database has a schema, but no migration is recorded. */
  predicate Unadopted(toasty: Toasty, s: State) {
    s.db.ledger == map[] && !Holds(toasty, Live(toasty, s), EMPTY)
  }

  /** If the live schema can be read at all, it is read as it is. */
  ghost predicate TrulyObserved(toasty: Toasty, live: Catalog, current: Schema) {
    R.ReadSchema(toasty.scope, toasty.typer, live, current).Ok? ==>
      R.TrulyRead(toasty.scope, toasty.typer, live, current)
  }

  /** What a caller must see to: a database that has a schema is adopted before anything is executed on
      it, and it is adopted only if it is read as it is. A call that changes nothing is always fine. */
  ghost predicate Supported(toasty: Toasty, s: State, a: Action) {
    a.DoApply? ==>
      || Step(toasty, s, a).db == s.db
      || if a.mode.Execute? then !Unadopted(toasty, s) else TrulyObserved(toasty, Live(toasty, s), a.current)
  }

  /** What the database sees to: every statement that was committed was accepted in the state in which it
      ran, and names are distinct. */
  ghost predicate Genuine(toasty: Toasty, s: State) {
    Runs(toasty, s.base, s.db.trace) && R.Sane(Live(toasty, s))
  }

  lemma {:induction false} NumberedAreDistinct(toasty: Toasty, done: seq<A.Owned>)
    requires Numbered(done)
    ensures P.DistinctIds(Migrations(toasty, done))
  {
  }

  lemma {:induction false} PrefixMigrations(toasty: Toasty, done: seq<A.Owned>, more: seq<A.Owned>, n: nat)
    requires n <= |done| && done <= more
    ensures P.LedgerOf(Migrations(toasty, done), n) == P.LedgerOf(Migrations(toasty, more), n)
  {
    hide Script;
    if n > 0 {
      PrefixMigrations(toasty, done, more, n - 1);
      assert Migrations(toasty, done)[n - 1] == Migrations(toasty, more)[n - 1];
    }
  }

  /** Generating changes neither ledger nor live schema. */
  lemma {:induction false} LiveUnderGeneration(toasty: Toasty, s: State, t: A.Tree, done: seq<A.Owned>,
                                               schemas: seq<Schema>,
                                               done': seq<A.Owned>, schemas': seq<Schema>, n: nat)
    requires LiveInv(toasty, s, done, schemas, n) && Extends(done, schemas, done', schemas') && |done'| == |schemas'|
    ensures LiveInv(toasty, s.(tree := t), done', schemas', n)
  {
    hide P.LedgerOf, Migrations, ExecuteAll, Holds;
    PrefixMigrations(toasty, done, done', n);
  }

  /** The forward SQL of an apply call keeps the live schema in step with the ledger. */
  lemma {:induction false} LiveUnderApply(toasty: Toasty, s: State, db: L.Db, done: seq<A.Owned>, schemas: seq<Schema>,
                                          n: nat, lo: nat, n': nat)
    requires Chain(toasty, done, schemas) && |done| == |schemas|
    requires C.AppliedTo(s.db, db, Migrations(toasty, done), n, lo, n')
    requires Holds(toasty, Live(toasty, s), Before(schemas, lo)) && Runs(toasty, s.base, db.trace)
    ensures LiveInv(toasty, s.(db := db), done, schemas, n')
  {
    hide Chain, P.LedgerOf, Migrations, ExecuteAll, Runs, Holds, P.ForwardSql, Before;
    var forward := P.ForwardSql(Migrations(toasty, done), lo, n');
    ExecuteConcat(toasty, s.base, s.db.trace, forward);
    ForwardFollowsChain(toasty, done, schemas, Live(toasty, s), lo, n');
  }

  lemma {:induction false} LiveUnderRollback(toasty: Toasty, s: State, db: L.Db, done: seq<A.Owned>,
                                             schemas: seq<Schema>,
                                             n: nat, k: nat)
    requires Chain(toasty, done, schemas) && |done| == |schemas|
    requires P.UndoneTo(s.db, db, Migrations(toasty, done), k, n)
    requires Holds(toasty, Live(toasty, s), Before(schemas, n)) && Runs(toasty, s.base, db.trace)
    ensures LiveInv(toasty, s.(db := db), done, schemas, k)
  {
    hide Chain, P.LedgerOf, Migrations, ExecuteAll, Runs, Holds, P.ReverseSql, Before;
    var reverse := P.ReverseSql(Migrations(toasty, done), k, n);
    ExecuteConcat(toasty, s.base, s.db.trace, reverse);
    ReverseFollowsChain(toasty, done, schemas, Live(toasty, s), k, n);
  }

  // ---------------------------------------------------------------- each action keeps the invariant

  lemma {:induction false} ResolvesDone(toasty: Toasty, t: A.Tree, done: seq<A.Owned>, schemas: seq<Schema>)
    requires TreeInv(toasty, t, done, schemas) && A.ResolveArtifacts(t).Ok?
    ensures A.ResolveArtifacts(t).value == done && Numbered(done) && Chain(toasty, done, schemas)
    ensures FirstSnapshot(t).Some? && schemas != [] ==> FirstSnapshot(t).value == schemas[0]
    ensures FirstSnapshot(t).Some? ==> schemas != []
  {
    hide Chain, A.Load, A.InspectState;
  }

  lemma {:induction false} NothingUndone(toasty: Toasty, s: State, done: seq<A.Owned>, n: nat)
    requires n <= |done| && s.db.ledger == P.LedgerOf(Migrations(toasty, done), n)
    ensures s.db.ledger == map[] <==> n == 0
  {
    P.LedgerOfKeys(Migrations(toasty, done), n);
    hide Migrations;
    if n > 0 { assert Migrations(toasty, done)[0].id in s.db.ledger; }
  }

  /** A schema that is read as it is, is the schema of the database. */
  lemma {:induction false} ObservedIsHeld(toasty: Toasty, live: Catalog, current: Schema)
    requires Laws(toasty) && R.Sane(live) && TrulyObserved(toasty, live, current)
    requires Observe(toasty, live, current).Some?
    ensures Holds(toasty, live, Observe(toasty, live, current).value)
  {
    hide Holds, Same, Takes, Diff, R.Sane, R.Shows, R.TrulyRead, R.ReadSchema, W.WellFormed;
    R.ReadIsShownIff(toasty.scope, toasty.typer, live, current);
    R.ReadIsWellFormed(toasty.scope, toasty.typer, live, current);
  }

  lemma {:induction false} AdoptedIsFirst(toasty: Toasty, s: State, current: Schema)
    requires Laws(toasty) && AdoptionAllowed(toasty, s, current)
    requires R.Sane(Live(toasty, s)) && TrulyObserved(toasty, Live(toasty, s), current)
    ensures Holds(toasty, Live(toasty, s), FirstSnapshot(s.tree).value)
  {
    hide Laws, Holds, Diff, ExecuteAll, FirstSnapshot, Observe, R.Sane, TrulyObserved;
    ObservedIsHeld(toasty, Live(toasty, s), current);
    NoDriftIsSame(toasty, FirstSnapshot(s.tree).value, Observe(toasty, Live(toasty, s), current).value, NO_HINTS);
  }

  lemma {:induction false} ApplyKeeps(toasty: Toasty, s: State, done: seq<A.Owned>, schemas: seq<Schema>, n: nat,
                                      mode: L.Mode, current: Schema, faults: L.Faults)
    returns (n': nat)
    requires Laws(toasty) && Inv(toasty, s, done, schemas, n) && Supported(toasty, s, DoApply(mode, current, faults))
    requires Genuine(toasty, s) && Genuine(toasty, Step(toasty, s, DoApply(mode, current, faults)))
    ensures Inv(toasty, Step(toasty, s, DoApply(mode, current, faults)), done, schemas, n') && n <= n'
  {
    hide Laws, TreeInv, Chain, Numbered, A.ResolveArtifacts, FirstSnapshot, AdoptionAllowed, L.ApplyCall, P.LedgerOf,
         Migrations, ExecuteAll, Runs, Holds, C.AppliedTo, P.DistinctIds, TrulyObserved, R.Sane;
    n' := n;
    var artifacts := A.ResolveArtifacts(s.tree);
    if artifacts.Ok? && (mode.Execute? || AdoptionAllowed(toasty, s, current)) {
      ResolvesDone(toasty, s.tree, done, schemas);
      NumberedAreDistinct(toasty, done);
      NothingUndone(toasty, s, done, n);
      var db := L.ApplyCall(s.db, Migrations(toasty, done), mode, faults).0;
      var lo;
      lo, n' := C.CallLeavesPrefix(s.db, Migrations(toasty, done), mode, n, faults);
      AppliedToParts(toasty, s.db, db, done, n, lo, n');
      if db == s.db {
        n' := n;
      } else {
        if mode.AdoptBaseline? {
          AdoptedIsFirst(toasty, s, current);
          AdoptionNeedsSnapshot(toasty, s, current);
        }
        LiveUnderApply(toasty, s, db, done, schemas, n, lo, n');
      }
    }
  }

  lemma {:induction false} AdoptionNeedsSnapshot(toasty: Toasty, s: State, current: Schema)
    requires AdoptionAllowed(toasty, s, current)
    ensures FirstSnapshot(s.tree).Some?
  {
  }

  lemma {:induction false} AppliedToParts(toasty: Toasty, base: L.Db, d: L.Db, done: seq<A.Owned>, n0: nat, lo: nat,
                                          n: nat)
    requires C.AppliedTo(base, d, Migrations(toasty, done), n0, lo, n)
    ensures n0 <= lo <= n <= |done| && (lo == n0 || (n0 == 0 && lo == 1))
  {
  }

  /** A rollback call, with or without failures, undoes a suffix of the recorded migrations. */
  lemma {:induction false} RollbackLeavesPrefix(d: L.Db, artifacts: seq<L.Migration>, selection: L.Selection, n: nat,
                                                faults: L.Faults)
    returns (k: nat)
    requires P.DistinctIds(artifacts) && n <= |artifacts| && d.ledger == P.LedgerOf(artifacts, n)
    ensures k <= n && (n == 0 ==> L.RollbackCall(d, artifacts, selection, faults).0 == d)
    ensures L.RollbackCall(d, artifacts, selection, faults).0 == d
            || P.UndoneTo(d, L.RollbackCall(d, artifacts, selection, faults).0, artifacts, k, n)
  {
    hide P.LedgerOf, P.DistinctIds, P.Suffix, P.IdSuffix, L.Ids, L.CutLength, L.PrepareLedger, L.SelectRollbackIds,
         L.Collect, L.RollbackAll, P.UndoneTo, P.Reversible, P.Floor;
    k := n;
    P.PrefixLedgerIsAccepted(artifacts, n);
    P.SelectsSuffix(artifacts, n, selection);
    if P.Floor(artifacts, n, selection).Some? {
      var lo := P.Floor(artifacts, n, selection).value;
      P.CollectsSuffix(artifacts, lo, n);
      if P.Reversible(artifacts, lo, n) {
        P.FailedRollbackLeavesPrefix(d, artifacts, lo, n, faults);
        k :| lo <= k && P.UndoneTo(d, L.RollbackAll(d, P.Suffix(artifacts, lo, n), faults).0, artifacts, k, n);
        UndoneBound(d, L.RollbackAll(d, P.Suffix(artifacts, lo, n), faults).0, artifacts, k, n);
      }
    }
  }

  lemma {:induction false} UndoneBound(before: L.Db, after: L.Db, artifacts: seq<L.Migration>, k: nat, n: nat)
    requires P.UndoneTo(before, after, artifacts, k, n)
    ensures k <= n
  {
  }

  lemma {:induction false} RollbackKeeps(toasty: Toasty, s: State, done: seq<A.Owned>, schemas: seq<Schema>, n: nat,
                                         selection: L.Selection, faults: L.Faults)
    returns (n': nat)
    requires Inv(toasty, s, done, schemas, n) && Genuine(toasty, Step(toasty, s, DoRollback(selection, faults)))
    ensures Inv(toasty, Step(toasty, s, DoRollback(selection, faults)), done, schemas, n') && n' <= n
  {
    hide TreeInv, Chain, Numbered, A.ResolveArtifacts, L.RollbackCall, P.LedgerOf, Migrations, ExecuteAll, Runs, Holds, R.Sane,
         P.UndoneTo, P.DistinctIds;
    n' := n;
    var artifacts := A.ResolveArtifacts(s.tree);
    if artifacts.Ok? {
      ResolvesDone(toasty, s.tree, done, schemas);
      NumberedAreDistinct(toasty, done);
      var db := L.RollbackCall(s.db, Migrations(toasty, done), selection, faults).0;
      n' := RollbackLeavesPrefix(s.db, Migrations(toasty, done), selection, n, faults);
      if db == s.db {
        n' := n;
      } else if Holds(toasty, Live(toasty, s), Before(schemas, n)) {
        LiveUnderRollback(toasty, s, db, done, schemas, n, n');
      }
    }
  }

  lemma {:induction false} BaselineStepKeeps(toasty: Toasty, t: A.Tree, done: seq<A.Owned>, schemas: seq<Schema>,
                                             live: Catalog,
                                             source: string, name: string, current: Schema, files: Files, steps: nat)
    returns (done': seq<A.Owned>, schemas': seq<Schema>)
    requires Laws(toasty) && TreeInv(toasty, t, done, schemas)
    ensures var b := Baseline(toasty, t, live, source, name, current, files, steps);
            && TreeInv(toasty, b.0, done', schemas') && Extends(done, schemas, done', schemas')
            && (b.1.Ok? && R.Sane(live) && TrulyObserved(toasty, live, current) ==>
                  Holds(toasty, live, Before(schemas', |schemas'|)))
            && (b.1.Err? ==> !b.1.error.NoRollback? && !b.1.error.NoBaseline?)
  {
    hide Holds, Same, Diff, Observe, Project, Statements;
    hide Laws, TreeInv, A.LoadHistory, A.InspectState, WriteBaseline, Before, TrulyObserved, R.Sane;
    done', schemas' := done, schemas;
    if && (A.InspectState(t) == A.Missing || A.InspectState(t) == A.Empty)
       && Observe(toasty, live, current).Some? && Observe(toasty, live, current).value.tables != []
    {
      var observed := Observe(toasty, live, current).value;
      NoEntriesYet(toasty, t, done, schemas);
      done', schemas' := BaselineKeeps(toasty, t, done, schemas, source, name, observed, files, steps);
      LastIs(schemas, observed);
      if R.Sane(live) && TrulyObserved(toasty, live, current) { ObservedIsHeld(toasty, live, current); }
    }
  }

  lemma {:induction false} NoEntriesYet(toasty: Toasty, t: A.Tree, done: seq<A.Owned>, schemas: seq<Schema>)
    requires TreeInv(toasty, t, done, schemas) && (A.InspectState(t) == A.Missing || A.InspectState(t) == A.Empty)
    ensures A.LoadHistory(t) == Ok([])
  {
  }

  lemma {:induction false} GenerationStepKeeps(toasty: Toasty, s: State, t: A.Tree, done: seq<A.Owned>,
                                               schemas: seq<Schema>,
                                               done': seq<A.Owned>, schemas': seq<Schema>, n: nat)
    requires Inv(toasty, s, done, schemas, n)
    requires TreeInv(toasty, t, done', schemas') && Extends(done, schemas, done', schemas')
    ensures Inv(toasty, s.(tree := t), done', schemas', n)
  {
    hide TreeInv, LiveInv, Extends;
    TreeInvParts(toasty, t, done', schemas');
    LiveUnderGeneration(toasty, s, t, done, schemas, done', schemas', n);
  }

  lemma {:induction false} StepKeeps(toasty: Toasty, s: State, a: Action, done: seq<A.Owned>, schemas: seq<Schema>,
                                     n: nat)
    returns (done': seq<A.Owned>, schemas': seq<Schema>, n': nat)
    requires Laws(toasty) && Inv(toasty, s, done, schemas, n) && Supported(toasty, s, a)
    requires Genuine(toasty, s) && Genuine(toasty, Step(toasty, s, a))
    ensures Inv(toasty, Step(toasty, s, a), done', schemas', n') && Extends(done, schemas, done', schemas')
    ensures Step(toasty, s, a).base == s.base
  {
    hide Laws, TreeInv, LiveInv, Live, Supported, Generate, Baseline, AdoptionAllowed, L.ApplyCall, L.RollbackCall,
         A.ResolveArtifacts, Migrations, Genuine;
    done', schemas', n' := done, schemas, n;
    match a
    case DoGenerate(q, steps) =>
      done', schemas' := GenerateKeeps(toasty, s.tree, done, schemas, Live(toasty, s), q, steps);
      GenerationStepKeeps(toasty, s, Generate(toasty, s.tree, Live(toasty, s), q, steps).0, done, schemas, done', schemas', n);
    case DoBaseline(source, name, current, files, steps) =>
      done', schemas' := BaselineStepKeeps(toasty, s.tree, done, schemas, Live(toasty, s), source, name, current, files, steps);
      GenerationStepKeeps(toasty, s, Baseline(toasty, s.tree, Live(toasty, s), source, name, current, files, steps).0,
                          done, schemas, done', schemas', n);
    case DoApply(mode, current, faults) =>
      n' := ApplyKeeps(toasty, s, done, schemas, n, mode, current, faults);
    case DoRollback(selection, faults) =>
      n' := RollbackKeeps(toasty, s, done, schemas, n, selection, faults);
  }

  // ---------------------------------------------------------------- every run

  ghost predicate SupportedRun(toasty: Toasty, s: State, actions: seq<Action>)
    decreases |actions|
  {
    actions == [] || (Supported(toasty, s, actions[0]) && SupportedRun(toasty, Step(toasty, s, actions[0]), actions[1..]))
  }

  ghost predicate GenuineRun(toasty: Toasty, s: State, actions: seq<Action>)
    decreases |actions|
  {
    Genuine(toasty, s) && (actions == [] || GenuineRun(toasty, Step(toasty, s, actions[0]), actions[1..]))
  }

  lemma {:induction false} RunKeeps(toasty: Toasty, s: State, actions: seq<Action>, done: seq<A.Owned>,
                                    schemas: seq<Schema>,
                                    n: nat)
    returns (done': seq<A.Owned>, schemas': seq<Schema>, n': nat)
    requires Laws(toasty) && Inv(toasty, s, done, schemas, n)
    requires SupportedRun(toasty, s, actions) && GenuineRun(toasty, s, actions)
    ensures Inv(toasty, Run(toasty, s, actions), done', schemas', n')
    decreases |actions|
  {
    hide Laws, Inv, Supported, Genuine, Step;
    done', schemas', n' := done, schemas, n;
    if actions != [] {
      done', schemas', n' := StepKeeps(toasty, s, actions[0], done, schemas, n);
      done', schemas', n' := RunKeeps(toasty, Step(toasty, s, actions[0]), actions[1..], done', schemas', n');
    }
  }

  /** The snapshot of the `n`-th recorded entry; the empty schema before the first. */
  function SnapshotAt(t: A.Tree, n: nat): Option<Schema> {
    if n == 0 then Some(EMPTY)
    else
      match A.LoadHistory(t)
      case Err(_) => None
      case Ok(entries) =>
        if n <= |entries| && entries[n - 1].snapshotName in t.snapshots then t.snapshots[entries[n - 1].snapshotName].schema
        else None
  }

  /** Replaying all the files on an empty database leads to the latest snapshot; the ledger records a
      prefix of them; the live schema is the snapshot of the newest recorded one. With none recorded
      it is the empty schema, unless nothing ever ran on this database. */
  ghost predicate Consistent(toasty: Toasty, s: State, files: seq<A.Owned>, n: nat) {
    var artifacts := Migrations(toasty, files);
    && n <= |files|
    && SnapshotAt(s.tree, |files|).Some? && SnapshotAt(s.tree, n).Some?
    && Leads(toasty, P.ForwardSql(artifacts, 0, |files|), EMPTY, SnapshotAt(s.tree, |files|).value)
    && s.db.ledger == P.LedgerOf(artifacts, n)
    && (Holds(toasty, Live(toasty, s), SnapshotAt(s.tree, n).value) || (n == 0 && s.db.trace == []))
  }

  lemma {:induction false} SnapshotsOnDisk(toasty: Toasty, t: A.Tree, done: seq<A.Owned>, schemas: seq<Schema>, n: nat)
    requires TreeInv(toasty, t, done, schemas) && A.ResolveArtifacts(t).Ok? && n <= |schemas|
    ensures SnapshotAt(t, n) == Some(Before(schemas, n))
  {
    hide Chain, LineageInv, A.Load;
  }

  lemma {:induction false} ReplayLeads(toasty: Toasty, done: seq<A.Owned>, schemas: seq<Schema>)
    requires Chain(toasty, done, schemas)
    ensures |schemas| == |done|
    ensures Leads(toasty, P.ForwardSql(Migrations(toasty, done), 0, |done|), EMPTY, Before(schemas, |done|))
  {
    hide Holds, Statements, ExecuteAll, Runs, Migrations, P.ForwardSql, Link;
    var forward := P.ForwardSql(Migrations(toasty, done), 0, |done|);
    forall live | Holds(toasty, live, EMPTY) && Runs(toasty, live, forward)
      ensures Holds(toasty, ExecuteAll(toasty, live, forward), Before(schemas, |done|))
    {
      ForwardFollowsChain(toasty, done, schemas, live, 0, |done|);
    }
  }

  lemma {:induction false} InvIsConsistent(toasty: Toasty, s: State, done: seq<A.Owned>, schemas: seq<Schema>, n: nat)
    requires Inv(toasty, s, done, schemas, n) && A.ResolveArtifacts(s.tree).Ok?
    ensures Consistent(toasty, s, A.ResolveArtifacts(s.tree).value, n)
  {
    hide TreeInv, Chain, Leads, Migrations, SnapshotAt, Holds, A.ResolveArtifacts, P.ForwardSql, P.LedgerOf, Live;
    ResolvesDone(toasty, s.tree, done, schemas);
    SnapshotsOnDisk(toasty, s.tree, done, schemas, n);
    SnapshotsOnDisk(toasty, s.tree, done, schemas, |done|);
    ReplayLeads(toasty, done, schemas);
  }

  /** A source nobody has touched yet, over a database with an arbitrary schema. */
  function Fresh(base: Catalog): State {
    State(NO_TREE, L.Db(map[], []), base)
  }

  lemma {:induction false} FreshInv(toasty: Toasty, base: Catalog)
    ensures Inv(toasty, Fresh(base), [], [], 0)
  {
    NoLineageYet();
  }

  /** End-to-end lineage: after any run of generations from all origins, baselines, applies, adoptions
      and rollbacks, each possibly stopped or failing, a lineage that is ready is consistent. */
  lemma {:induction false} EndToEnd(toasty: Toasty, base: Catalog, actions: seq<Action>)
    requires Laws(toasty) && SupportedRun(toasty, Fresh(base), actions) && GenuineRun(toasty, Fresh(base), actions)
    ensures var s := Run(toasty, Fresh(base), actions);
            A.ResolveArtifacts(s.tree).Ok? ==> exists n: nat :: Consistent(toasty, s, A.ResolveArtifacts(s.tree).value, n)
  {
    hide Laws, Inv, Consistent, A.ResolveArtifacts, Run, SupportedRun, GenuineRun;
    FreshInv(toasty, base);
    var done, schemas, n := RunKeeps(toasty, Fresh(base), actions, [], [], 0);
    var s := Run(toasty, Fresh(base), actions);
    if A.ResolveArtifacts(s.tree).Ok? { InvIsConsistent(toasty, s, done, schemas, n); }
  }

  lemma {:induction false} InvSupports(toasty: Toasty, s: State, a: Action, done: seq<A.Owned>, schemas: seq<Schema>,
                                       n: nat)
    requires Laws(toasty) && Inv(toasty, s, done, schemas, n) && Holds(toasty, s.base, EMPTY)
    ensures Supported(toasty, s, a)
  {
    hide Laws, TreeInv, Migrations, P.LedgerOf, A.ResolveArtifacts, AdoptionAllowed, L.ApplyCall, Generate, Baseline,
         L.RollbackCall, TrulyObserved, Holds;
    NothingUndone(toasty, s, done, n);
    if n == 0 {
      NothingHasRun(toasty, s, done, schemas);
      EmptyIsTrulyObserved(toasty, Live(toasty, s), if a.DoApply? then a.current else EMPTY);
    } else if a.DoApply? && a.mode.AdoptBaseline? && A.ResolveArtifacts(s.tree).Ok? {
      RecordedIsNotAdopted(s.db, Migrations(toasty, A.ResolveArtifacts(s.tree).value), a.faults);
    }
  }

  lemma {:induction false} NothingHasRun(toasty: Toasty, s: State, done: seq<A.Owned>, schemas: seq<Schema>)
    requires LiveInv(toasty, s, done, schemas, 0) && Holds(toasty, s.base, EMPTY)
    ensures Holds(toasty, Live(toasty, s), EMPTY)
  {
    hide Holds, Migrations;
  }

  lemma {:induction false} EmptyIsTrulyObserved(toasty: Toasty, live: Catalog, target: Schema)
    requires Laws(toasty) && Holds(toasty, live, EMPTY)
    ensures TrulyObserved(toasty, live, target)
  {
    hide Takes, Same, Diff, R.Sane, R.Shows, W.WellFormed, R.InScope;
    assert live.tables == [];
    assert R.AsObserved([]).tables == [] && R.AsObserved([]).diagnostics == [];
  }

  lemma {:induction false} RecordedIsNotAdopted(d: L.Db, artifacts: seq<L.Migration>, faults: L.Faults)
    requires d.ledger != map[]
    ensures L.ApplyCall(d, artifacts, L.AdoptBaseline, faults).0 == d
  {
    hide L.ApplyFrom, L.ApplyTx, L.LedgerTracked;
    assert d.ledger.Keys != {};
  }

  /** On a database that starts out empty every run is supported. */
  lemma {:induction false} EmptyBaseSupportsAll(toasty: Toasty, s: State, actions: seq<Action>, done: seq<A.Owned>,
                                                schemas: seq<Schema>, n: nat)
    requires Laws(toasty) && Inv(toasty, s, done, schemas, n) && Holds(toasty, s.base, EMPTY)
    requires GenuineRun(toasty, s, actions)
    ensures SupportedRun(toasty, s, actions)
    decreases |actions|
  {
    hide Laws, Inv, Step, Supported, Genuine, Holds;
    if actions != [] {
      InvSupports(toasty, s, actions[0], done, schemas, n);
      var done', schemas', n' := StepKeeps(toasty, s, actions[0], done, schemas, n);
      EmptyBaseSupportsAll(toasty, Step(toasty, s, actions[0]), actions[1..], done', schemas', n');
    }
  }
}
