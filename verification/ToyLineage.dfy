/** In the toy, the calls that the end-to-end result excludes are exactly those that break it. */
module ToyLineage {
  import opened Wrappers
  import opened Lineage
  import opened LineageLaws
  import opened ArtifactLaws
  import opened ToyCode
  import opened ToyToasty
  import opened ToyReading
  import N = SchemaNormalizer
  import R = CatalogReading
  import B = SchemaNormalizerStability
  import W = SchemaNormalizerLaws
  import S = Sequences
  import A = ArtifactStore
  import L = TransactionalLedger
  import P = TransactionalLaws
  import C = MigrationClients
  import M = MixedClients
  import T = MigrationNames

  // ---------------------------------------------------------------- generated files are deltas

  /** A generated file drops the things of the one schema and makes those of the other. */
  ghost predicate Exchanges(statements: seq<L.Statement>, a: Schema, b: Schema, drops: seq<Thing>, makes: seq<Thing>) {
    && statements == Drops(drops) + Makes(makes)
    && multiset(drops) == ThingsOf(a) && multiset(makes) == ThingsOf(b)
  }

  lemma {:induction false} GeneratedExchanges(text: string, a: Schema, b: Schema)
    requires GeneratedFor(TOY, text, a, b)
    ensures exists drops, makes :: Exchanges(Statements(TOY, text), a, b, drops, makes)
  {
    hide A.SqlFile, SchemaThings, Drops, Makes, Statements, Sql, Same;
    var a', b', hints :| GeneratedFrom(TOY, text, a, b, a', b', hints);
    SqlFileRuns(a', b');
    SameIff(a', a);
    SameIff(b', b);
    assert Exchanges(Statements(TOY, text), a, b, SchemaThings(a'.tables), SchemaThings(b'.tables));
  }

  lemma {:induction false} OneFileShifts(file: A.Owned, a: Schema, b: Schema, live: Catalog)
    requires Link(TOY, file, a, b) && Runs(TOY, live, Statements(TOY, file.sql))
    ensures ThingsIn(ExecuteAll(TOY, live, Statements(TOY, file.sql))) + ThingsOf(a) == ThingsIn(live) + ThingsOf(b)
  {
    hide ExecuteAll, Runs, GeneratedFor, Takes, TOY, Drops, Makes, Statements, ThingsIn, ThingsOf;
    GeneratedExchanges(file.sql, a, b);
    var drops, makes :| Exchanges(Statements(TOY, file.sql), a, b, drops, makes);
    SqlBalance(live, drops, makes);
  }

  lemma {:induction false} ChainLinks(toasty: Toasty, done: seq<A.Owned>, schemas: seq<Schema>, k: nat)
    requires k < |done| == |schemas| && Chain(toasty, done, schemas)
    ensures Link(toasty, done[k], Before(schemas, k), Before(schemas, k + 1))
  {
    hide Link;
  }

  lemma {:induction false} SumsChain<T>(a: multiset<T>, b: multiset<T>, c: multiset<T>, x: multiset<T>, y: multiset<T>,
                                        z: multiset<T>)
    requires b + x == a + y && c + y == b + z
    ensures c + x == a + z
  {
    forall t: T ensures (c + x)[t] == (a + z)[t] {
      assert (b + x)[t] == (a + y)[t] && (c + y)[t] == (b + z)[t];
    }
  }

  /** The files `lo` to `hi` add to any database what they add between the snapshots. */
  lemma {:induction false} ForwardShifts(done: seq<A.Owned>, schemas: seq<Schema>, live: Catalog, lo: nat, hi: nat)
    requires lo <= hi <= |done| == |schemas| && Chain(TOY, done, schemas)
    requires Runs(TOY, live, P.ForwardSql(Migrations(TOY, done), lo, hi))
    ensures ThingsIn(ExecuteAll(TOY, live, P.ForwardSql(Migrations(TOY, done), lo, hi))) + ThingsOf(Before(schemas, lo))
         == ThingsIn(live) + ThingsOf(Before(schemas, hi))
    decreases hi
  {
    hide Chain, Link, ExecuteAll, Runs, P.ForwardSql, Migrations, Statements, TOY, Before, ThingsIn, ThingsOf;
    if lo < hi {
      var before, newest := P.ForwardSql(Migrations(TOY, done), lo, hi - 1), Statements(TOY, done[hi - 1].sql);
      ForwardSqlLast(TOY, done, lo, hi);
      ExecuteConcat(TOY, live, before, newest);
      ForwardShifts(done, schemas, live, lo, hi - 1);
      ChainLinks(TOY, done, schemas, hi - 1);
      var middle := ExecuteAll(TOY, live, before);
      OneFileShifts(done[hi - 1], Before(schemas, hi - 1), Before(schemas, hi), middle);
      SumsChain(ThingsIn(live), ThingsIn(middle), ThingsIn(ExecuteAll(TOY, middle, newest)), ThingsOf(Before(schemas, lo)),
                ThingsOf(Before(schemas, hi - 1)), ThingsOf(Before(schemas, hi)));
    } else {
      NoForwardSql(TOY, done, lo);
      ExecuteNothing(TOY, live);
    }
  }

  // ---------------------------------------------------------------- the excluded calls break the result

  lemma {:induction false} LedgerDeterminesLength(toasty: Toasty, done: seq<A.Owned>, n: nat, n': nat)
    requires Numbered(done) && n <= |done| && n' <= |done|
    requires P.LedgerOf(Migrations(toasty, done), n) == P.LedgerOf(Migrations(toasty, done), n')
    ensures n == n'
  {
    hide P.LedgerOf, Migrations;
    var artifacts := Migrations(toasty, done);
    NumberedAreDistinct(toasty, done);
    P.LedgerOfNames(artifacts, n);
    P.LedgerOfNames(artifacts, n');
    assert n < |done| ==> artifacts[n].id !in P.LedgerOf(artifacts, n);
    assert n' < |done| ==> artifacts[n'].id !in P.LedgerOf(artifacts, n');
  }

  lemma {:induction false} LiveShifts(s: State, db: L.Db, done: seq<A.Owned>, schemas: seq<Schema>, lo: nat, n': nat)
    requires |done| == |schemas| && Chain(TOY, done, schemas)
    requires C.AppliedTo(s.db, db, Migrations(TOY, done), 0, lo, n') && Runs(TOY, s.base, db.trace)
    ensures lo <= n' <= |schemas|
    ensures ThingsIn(Live(TOY, s.(db := db))) + ThingsOf(Before(schemas, lo))
         == ThingsIn(Live(TOY, s)) + ThingsOf(Before(schemas, n'))
  {
    hide Chain, P.LedgerOf, Migrations, ExecuteAll, Runs, P.ForwardSql, TOY, Before, ThingsIn, ThingsOf;
    ExecuteConcat(TOY, s.base, s.db.trace, P.ForwardSql(Migrations(TOY, done), lo, n'));
    ForwardShifts(done, schemas, Live(TOY, s), lo, n');
  }

  /** With `n'` migrations recorded, only snapshot `n' - 1` could be the live schema. */
  lemma {:induction false} OnlyItsSnapshot(s: State, done: seq<A.Owned>, n': nat)
    requires Numbered(done) && 0 < n' <= |done| && s.db.ledger == P.LedgerOf(Migrations(TOY, done), n')
    requires SnapshotAt(s.tree, n').Some? && !Holds(TOY, Live(TOY, s), SnapshotAt(s.tree, n').value)
    ensures forall n: nat :: !Consistent(TOY, s, done, n)
  {
    hide P.LedgerOf, Migrations, ExecuteAll, P.ForwardSql, SnapshotAt, Live, Holds, Leads, TOY, Numbered;
    forall n: nat ensures !Consistent(TOY, s, done, n) {
      if n <= |done| && P.LedgerOf(Migrations(TOY, done), n) == P.LedgerOf(Migrations(TOY, done), n') {
        LedgerDeterminesLength(TOY, done, n, n');
      }
    }
  }

  /** A call that starts beside its snapshot ends beside its snapshot. */
  lemma {:induction false} StaysBeside(s: State, db: L.Db, done: seq<A.Owned>, schemas: seq<Schema>, lo: nat, n': nat)
    requires TreeInv(TOY, s.tree, done, schemas) && A.ResolveArtifacts(s.tree) == Ok(done) && Numbered(done)
    requires C.AppliedTo(s.db, db, Migrations(TOY, done), 0, lo, n') && 0 < n' && Runs(TOY, s.base, db.trace)
    requires lo <= |schemas| && !Holds(TOY, Live(TOY, s), Before(schemas, lo))
    ensures forall n: nat :: !Consistent(TOY, s.(db := db), done, n)
  {
    hide TreeInv, Chain, LineageInv, A.ResolveArtifacts, P.LedgerOf, Migrations, ExecuteAll, Runs, P.ForwardSql, SnapshotAt,
         Live, Before, Consistent, ThingsIn, ThingsOf;
    TreeInvParts(TOY, s.tree, done, schemas);
    LiveShifts(s, db, done, schemas, lo, n');
    Cancels(ThingsIn(Live(TOY, s.(db := db))), ThingsOf(Before(schemas, lo)), ThingsIn(Live(TOY, s)),
            ThingsOf(Before(schemas, n')));
    SnapshotsOnDisk(TOY, s.tree, done, schemas, n');
    OnlyItsSnapshot(s.(db := db), done, n');
  }

  lemma {:induction false} UnsupportedBreaks(s: State, done: seq<A.Owned>, schemas: seq<Schema>, n: nat, mode: L.Mode,
                                             current: Schema, faults: L.Faults)
    requires Inv(TOY, s, done, schemas, n) && A.ResolveArtifacts(s.tree).Ok?
    requires Genuine(TOY, s) && Genuine(TOY, Step(TOY, s, DoApply(mode, current, faults)))
    requires !Supported(TOY, s, DoApply(mode, current, faults))
    ensures forall k: nat ::
              !Consistent(TOY, Step(TOY, s, DoApply(mode, current, faults)), A.ResolveArtifacts(s.tree).value, k)
  {
    hide TreeInv, Chain, Numbered, A.ResolveArtifacts, FirstSnapshot, L.ApplyCall, P.LedgerOf, Migrations, ExecuteAll, Runs,
         C.AppliedTo, P.DistinctIds, Consistent, TrulyObserved, R.Sane, Live, TOY;
    ResolvesDone(TOY, s.tree, done, schemas);
    NumberedAreDistinct(TOY, done);
    NothingUndone(TOY, s, done, n);
    var db := L.ApplyCall(s.db, Migrations(TOY, done), mode, faults).0;
    var lo, n' := C.CallLeavesPrefix(s.db, Migrations(TOY, done), mode, n, faults);
    AppliedToParts(TOY, s.db, db, done, n, lo, n');
    RecordsSomething(s.db, db, done, n, lo, n');
    if mode.AdoptBaseline? {
      NotFirst(s, schemas, current);
    }
    StaysBeside(s, db, done, schemas, lo, n');
  }

  lemma {:induction false} NotFirst(s: State, schemas: seq<Schema>, current: Schema)
    requires AdoptionAllowed(TOY, s, current) && !TrulyObserved(TOY, Live(TOY, s), current) && R.Sane(Live(TOY, s))
    requires FirstSnapshot(s.tree).Some? && schemas != [] ==> FirstSnapshot(s.tree).value == schemas[0]
    requires FirstSnapshot(s.tree).Some? ==> schemas != []
    ensures schemas != [] && !Holds(TOY, Live(TOY, s), Before(schemas, 1))
  {
    hide Live, FirstSnapshot, TrulyObserved, Observe, R.Sane, ThingsIn, ThingsOf, Sql;
    HeldIffTrue(Live(TOY, s), current);
  }

  lemma {:induction false} RecordsSomething(d: L.Db, d': L.Db, done: seq<A.Owned>, n: nat, lo: nat, n': nat)
    requires C.AppliedTo(d, d', Migrations(TOY, done), n, lo, n') && d' != d
    requires n <= |done| && d.ledger == P.LedgerOf(Migrations(TOY, done), n)
    ensures n' > 0
  {
    hide Migrations;
    NoForwardSql(TOY, done, 0);
    assert d.trace + [] == d.trace;
  }

  /** After any supported run of the toy, an apply or adoption leaves the lineage consistent if and only
      if it is itself supported. */
  lemma {:induction false} SupportedIsExact(s: State, done: seq<A.Owned>, schemas: seq<Schema>, n: nat, mode: L.Mode,
                                            current: Schema, faults: L.Faults)
    requires Inv(TOY, s, done, schemas, n) && A.ResolveArtifacts(s.tree).Ok?
    requires Genuine(TOY, s) && Genuine(TOY, Step(TOY, s, DoApply(mode, current, faults)))
    ensures var s' := Step(TOY, s, DoApply(mode, current, faults));
            && s'.tree == s.tree
            && ((exists k: nat :: Consistent(TOY, s', A.ResolveArtifacts(s'.tree).value, k))
                <==> Supported(TOY, s, DoApply(mode, current, faults)))
  {
    hide Inv, TreeInv, LiveInv, Laws, Consistent, Supported, Genuine, Step, A.ResolveArtifacts, TOY;
    ToyMeetsLaws();
    var s' := Step(TOY, s, DoApply(mode, current, faults));
    ApplyKeepsTree(s, mode, current, faults);
    if Supported(TOY, s, DoApply(mode, current, faults)) {
      InvParts(s, done, schemas, n);
      var n' := ApplyKeeps(TOY, s, done, schemas, n, mode, current, faults);
      InvIsConsistent(TOY, s', done, schemas, n');
    } else {
      UnsupportedBreaks(s, done, schemas, n, mode, current, faults);
    }
  }

  lemma {:induction false} ApplyKeepsTree(s: State, mode: L.Mode, current: Schema, faults: L.Faults)
    ensures Step(TOY, s, DoApply(mode, current, faults)).tree == s.tree
  {
    hide A.ResolveArtifacts, L.ApplyCall, TOY, AdoptionAllowed;
  }

  lemma {:induction false} InvParts(s: State, done: seq<A.Owned>, schemas: seq<Schema>, n: nat)
    requires Inv(TOY, s, done, schemas, n)
    ensures TreeInv(TOY, s.tree, done, schemas) && LiveInv(TOY, s, done, schemas, n)
  {
  }

  // ---------------------------------------------------------------- runs that lead there

  lemma {:induction false} SqlIsValid(a: Schema, b: Schema)
    requires SchemaThings(a.tables) != [] || SchemaThings(b.tables) != []
    ensures T.ValidSql(Sql(a, b)) && T.ValidSql(A.SqlFile(Sql(a, b)).text)
  {
    hide SchemaThings, AllPlain, Harmless, Text, Drops, Makes, T.ValidSql;
    var statements := Drops(SchemaThings(a.tables)) + Makes(SchemaThings(b.tables));
    BothPlain(SchemaThings(a.tables), SchemaThings(b.tables));
    TextHarmless(statements);
    HarmlessUnchanged(Text(statements));
    HarmlessIsValid(Text(statements));
    HarmlessIsValid(Text(statements) + "\n");
  }

  /** What the toy writes for a first migration to the schema `next`. */
  ghost function FirstRequest(source: string, name: string, next: Schema, files: Files): A.Request {
    WriteRequest(source, name, Generated(Sql(EMPTY, next), next), Generated(Sql(next, EMPTY), EMPTY), files)
  }

  /** A tree that holds one migration, from the empty schema to `next`. */
  ghost predicate HoldsFirst(t: A.Tree, next: Schema, file: A.Owned) {
    && A.ResolveArtifacts(t) == Ok([file]) && T.ValidSql(file.sql) && file.sql == A.SqlFile(Sql(EMPTY, next)).text
    && FirstSnapshot(t) == Some(next)
  }

  lemma {:induction false} FirstWrite(source: string, name: string, next: Schema, files: Files) returns (file: A.Owned)
    requires next.tables != [] && T.Slug(source).Some? && T.Slug(name).Some?
    ensures var w := A.Written(NO_TREE, [], FirstRequest(source, name, next, files), 15);
            w.1.Ok? && HoldsFirst(w.0, next, file)
  {
    hide T.ValidSql, T.Slug, Sql, SchemaThings, A.ResolveArtifacts, A.Written, A.SqlFile, Generable;
    var q := FirstRequest(source, name, next, files);
    NothingInside(R.Catalog([]), next);
    SqlIsValid(EMPTY, next);
    SqlIsValid(next, EMPTY);
    FirstWriteCompletes(q);
    var w := A.Written(NO_TREE, [], q, 15);
    file := NewFile(w.1.value, q);
    NoTreeIsGenerable();
    WrittenSnapshots(NO_TREE, [], q, 15, []);
    FirstOfOne(w.0, A.NewEntry(w.1.value), q.schema);
  }

  lemma {:induction false} NoTreeIsGenerable()
    ensures Generable(NO_TREE, []) && SnapshotsHold(NO_TREE, [], [])
  {
  }

  lemma {:induction false} FirstOfOne(t: A.Tree, entry: A.Entry, schema: Schema)
    requires A.LoadHistory(t) == Ok([] + [entry]) && SnapshotsHold(t, [] + [entry], [] + [schema])
    ensures FirstSnapshot(t) == Some(schema)
  {
    assert ([] + [entry])[0] == entry && ([] + [schema])[0] == schema;
  }

  lemma {:induction false} OneStep(s: State, a: Action)
    ensures Run(TOY, s, [a]) == Step(TOY, s, a)
    ensures Supported(TOY, s, a) ==> SupportedRun(TOY, s, [a])
    ensures Genuine(TOY, s) && Genuine(TOY, Step(TOY, s, a)) ==> GenuineRun(TOY, s, [a])
  {
    hide TOY, Step, Supported, Genuine;
    assert [a][1..] == [];
    assert Run(TOY, Step(TOY, s, a), []) == Step(TOY, s, a);
    assert SupportedRun(TOY, Step(TOY, s, a), []);
    assert Genuine(TOY, Step(TOY, s, a)) ==> GenuineRun(TOY, Step(TOY, s, a), []);
  }

  lemma {:induction false} GenuineUntouched(s: State, base: Catalog)
    requires R.Sane(base) && s.base == base && s.db.trace == []
    ensures Genuine(TOY, s) && Live(TOY, s) == base
  {
    hide R.Sane, TOY;
  }

  lemma {:induction false} AdoptsFirst(s: State, next: Schema, file: A.Owned, current: Schema)
    requires HoldsFirst(s.tree, next, file) && s.db == L.Db(map[], []) && AdoptionAllowed(TOY, s, current)
    ensures Step(TOY, s, DoApply(L.AdoptBaseline, current, map[])).db != s.db
  {
    hide A.ResolveArtifacts, T.ValidSql, TOY, FirstSnapshot, L.ApplyFrom, AdoptionAllowed, A.SqlFile;
    var m := Migrations(TOY, [file])[0];
    var tx := L.ApplyTx(s.db, m, false, map[]);
    assert m.id in tx.0.ledger;
    M.KnownIsNotRecorded(tx.0, Migrations(TOY, [file]), {m.id}, Some(m.id), 0, L.Report(0, 0, 1), map[], m.id);
  }

  lemma {:induction false} HoldsIsReady(t: A.Tree, next: Schema, file: A.Owned)
    requires HoldsFirst(t, next, file)
    ensures A.ResolveArtifacts(t).Ok? && FirstSnapshot(t) == Some(next)
  {
    hide A.ResolveArtifacts, FirstSnapshot, T.ValidSql, A.SqlFile;
  }

  lemma {:induction false} BaselinesFirst(base: Catalog, source: string, name: string, current: Schema, files: Files)
    requires Observe(TOY, base, current).Some? && Observe(TOY, base, current).value.tables != []
    ensures Baseline(TOY, NO_TREE, base, source, name, current, files, 15).0
         == A.Written(NO_TREE, [], FirstRequest(source, name, Observe(TOY, base, current).value, files), 15).0
  {
    hide A.Written, Sql, SchemaThings, Observe;
    NothingInside(base, Observe(TOY, base, current).value);
    NothingInside(base, EMPTY);
  }

  lemma {:induction false} OnlyAdopts(s: State, next: Schema, file: A.Owned, current: Schema)
    requires HoldsFirst(s.tree, next, file) && s.db == L.Db(map[], []) && AdoptionAllowed(TOY, s, current)
    ensures Step(TOY, s, DoApply(L.AdoptBaseline, current, map[])).db.trace == []
    ensures Step(TOY, s, DoApply(L.AdoptBaseline, current, map[])).base == s.base
  {
    hide A.ResolveArtifacts, T.ValidSql, TOY, FirstSnapshot, AdoptionAllowed, A.SqlFile, L.ApplyFrom, L.LedgerTracked;
    var artifacts := Migrations(TOY, [file]);
    var tx := L.ApplyTx(s.db, artifacts[0], false, map[]);
    AdoptedIsSkipped(tx.0, artifacts[0], L.Report(0, 0, 1));
    assert artifacts == [artifacts[0]];
  }

  lemma {:induction false} AdoptedIsSkipped(d: L.Db, m: L.Migration, report: L.Report)
    ensures L.ApplyFrom(d, [m], {m.id}, Some(m.id), 0, report, map[]) == (d, Ok(report))
  {
    assert L.ApplyFrom(d, [m], {m.id}, Some(m.id), 1, report, map[]) == (d, Ok(report));
  }

  /** What adopting a baseline of `base` does, when nothing else has happened. */
  ghost predicate AdoptionBreaks(base: Catalog, baseline: Action, adopt: Action)
    requires adopt.DoApply?
  {
    var s := Run(TOY, Fresh(base), [baseline]);
    && SupportedRun(TOY, Fresh(base), [baseline]) && GenuineRun(TOY, Fresh(base), [baseline])
    && A.ResolveArtifacts(s.tree).Ok? && AdoptionAllowed(TOY, s, adopt.current) && Genuine(TOY, Step(TOY, s, adopt))
    && !Supported(TOY, s, adopt)
    && forall k: nat :: !Consistent(TOY, Step(TOY, s, adopt), A.ResolveArtifacts(s.tree).value, k)
  }

  /** A baseline and its adoption on a database that is not read as it is: the adoption goes through,
      since what is read matches the snapshot, but the live schema is another one. */
  lemma {:induction false} AdoptingMisread(base: Catalog, source: string, name: string, current: Schema, files: Files)
    requires R.Sane(base) && Observe(TOY, base, current).Some? && Observe(TOY, base, current).value.tables != []
    requires !TrulyObserved(TOY, base, current) && T.Slug(source).Some? && T.Slug(name).Some?
    ensures AdoptionBreaks(base, DoBaseline(source, name, current, files, 15), DoApply(L.AdoptBaseline, current, map[]))
  {
    hide A.ResolveArtifacts, T.Slug, A.Written, Consistent, Inv, Run, SupportedRun, GenuineRun, L.ApplyCall, HoldsFirst, Observe,
         TrulyObserved, R.Sane, FirstSnapshot, Genuine, ThingsOf, Sql;
    var baseline := DoBaseline(source, name, current, files, 15);
    var observed := Observe(TOY, base, current).value;
    var s := Step(TOY, Fresh(base), baseline);
    GenuineUntouched(Fresh(base), base);
    GenuineUntouched(s, base);
    OneStep(Fresh(base), baseline);
    var file := FirstWrite(source, name, observed, files);
    BaselinesFirst(base, source, name, current, files);
    HoldsIsReady(s.tree, observed, file);
    ToyMeetsLaws();
    FreshInv(TOY, base);
    var done, schemas, n := StepKeeps(TOY, Fresh(base), baseline, [], [], 0);
    AdoptsFirst(s, observed, file, current);
    OnlyAdopts(s, observed, file, current);
    GenuineUntouched(Step(TOY, s, DoApply(L.AdoptBaseline, current, map[])), base);
    UnsupportedBreaks(s, done, schemas, n, L.AdoptBaseline, current, map[]);
  }

  /** A table that the models do not name. */
  lemma {:induction false} AdoptingUncovered(base: Catalog, source: string, name: string, current: Schema, files: Files)
    requires R.Sane(base) && Observe(TOY, base, current).Some? && Observe(TOY, base, current).value.tables != []
    requires !R.Covers(R.Managed, base, current) && T.Slug(source).Some? && T.Slug(name).Some?
    ensures AdoptionBreaks(base, DoBaseline(source, name, current, files, 15), DoApply(L.AdoptBaseline, current, map[]))
  {
    hide T.Slug, R.Sane, R.Covers, AdoptionBreaks, R.ReadSchema;
    AdoptingMisread(base, source, name, current, files);
  }

  /** The database is the model, but for the names of some indices. */
  ghost predicate OnlyRenamed(base: Catalog, twin: Catalog, model: Schema) {
    && R.Shows(TOY.typer, twin, model)
    && R.DiagnosticsOf(base.tables) == []
    && B.RenamedTables(model, R.TablesOf(twin.tables), R.TablesOf(base.tables))
    && exists i: nat, j: nat :: HasOtherName(base, model, i, j)
  }

  ghost predicate HasOtherName(base: Catalog, model: Schema, i: nat, j: nat) {
    && i < |base.tables| == |model.tables| && j < |base.tables[i].table.indices| == |model.tables[i].indices|
    && !model.tables[i].indices[j].primaryKey
    && base.tables[i].table.indices[j].name != model.tables[i].indices[j].name
  }

  /** Such a database is read as the model, every table being in scope. */
  lemma {:induction false} RenamedReadsAsModel(base: Catalog, twin: Catalog, model: Schema)
    requires OnlyRenamed(base, twin, model)
    requires W.WellFormed(model) && W.DistinctShapes(model) && W.DistinctIndexNames(model)
    ensures R.Covers(R.Managed, base, model) && Observe(TOY, base, model) == Some(model)
  {
    hide N.Normalize, W.RendersTable, W.WellFormed, W.DistinctShapes, W.DistinctIndexNames, B.RenamedIndices, R.DiagnosticsOf,
         R.Visible;
    forall i | 0 <= i < |base.tables| ensures R.InScope(R.Managed, base.tables[i].table.name, model) {
      ShownName(R.AsObserved(twin.tables).tables[i], model.tables[i]);
      assert R.TablesOf(base.tables)[i].name == R.TablesOf(twin.tables)[i].name == model.tables[i].name;
    }
    R.VisibleAll(R.Managed, base.tables, model);
    W.NormalizeFixpointIff(R.AsObserved(twin.tables), model, TOY.typer);
    B.NormalizeIgnoresMatchedNames(R.AsObserved(twin.tables), R.AsObserved(base.tables), model, TOY.typer);
  }

  lemma {:induction false} ShownName(o: N.ObservedTable, t: N.Table)
    ensures W.RendersTable(o, t, TOY.typer) ==> o.name == t.name
  {
  }

  lemma {:induction false} RenamedIsMisread(base: Catalog, twin: Catalog, model: Schema)
    requires OnlyRenamed(base, twin, model) && Observe(TOY, base, model) == Some(model)
    ensures !TrulyObserved(TOY, base, model)
  {
    hide R.ReadSchema, R.TrulyRead, R.Shows, OnlyRenamed;
    OtherNameNotShown(base, twin, model);
    R.ReadIsShownIff(R.Managed, TOY.typer, base, model);
  }

  lemma {:induction false} OtherNameNotShown(base: Catalog, twin: Catalog, model: Schema)
    requires OnlyRenamed(base, twin, model)
    ensures !R.Shows(TOY.typer, base, model)
  {
    hide B.RenamedTables, R.DiagnosticsOf, W.SameShapes;
    var i: nat, j: nat :| HasOtherName(base, model, i, j);
    assert R.AsObserved(base.tables).tables[i] == base.tables[i].table;
    RendersNames(base.tables[i].table, model.tables[i], j);
  }

  lemma {:induction false} RendersNames(o: N.ObservedTable, t: N.Table, j: nat)
    requires j < |o.indices| == |t.indices| && !t.indices[j].primaryKey && o.indices[j].name != t.indices[j].name
    ensures !W.RendersTable(o, t, TOY.typer)
  {
  }

  /** A secondary index that goes by another name than the model's: every table is in scope, what is read
      is the model itself, and the adoption goes through; but statements that name the index will miss
      it. */
  lemma {:induction false} AdoptingRenamed(base: Catalog, twin: Catalog, model: Schema, source: string, name: string,
                                           files: Files)
    requires R.Sane(base) && model.tables != [] && OnlyRenamed(base, twin, model)
    requires W.WellFormed(model) && W.DistinctShapes(model) && W.DistinctIndexNames(model)
    requires T.Slug(source).Some? && T.Slug(name).Some?
    ensures R.Covers(R.Managed, base, model) && Observe(TOY, base, model) == Some(model)
    ensures AdoptionBreaks(base, DoBaseline(source, name, model, files, 15), DoApply(L.AdoptBaseline, model, map[]))
  {
    hide T.Slug, R.Sane, OnlyRenamed, R.Covers, Observe, AdoptionBreaks, TrulyObserved, W.WellFormed, W.DistinctShapes,
         W.DistinctIndexNames;
    RenamedReadsAsModel(base, twin, model);
    RenamedIsMisread(base, twin, model);
    AdoptingMisread(base, source, name, model, files);
  }

  // An example: a table with one column, its primary index, and a second index on that column.

  const ID := N.ColumnId(0, 0)

  const MODEL_INDICES: seq<N.Index> :=
    [N.Index(N.IndexId(0, 0), "users_by_key", 0, [N.IndexColumn(ID, N.Eq, N.Local)], true, true),
     N.Index(N.IndexId(0, 1), "users_by_id", 0, [N.IndexColumn(ID, N.Sort, N.Local)], false, false)]

  const USERS: N.Table :=
    N.Table(0, "users", [N.Column(ID, "id", "i64", "bigint", false, true, true, false)],
            N.PrimaryKey([ID], N.IndexId(0, 0)), MODEL_INDICES)

  function UsersWith(index: string): Catalog {
    var column := N.ObservedColumn("id", "bigint", "bigint", false, true, None, 1, None);
    var indices := [N.ObservedIndex("users_pkey", ["id"], true, true, None),
                    N.ObservedIndex(index, ["id"], false, false, None)];
    R.Catalog([R.LiveTable(N.ObservedTable("users", None, [column], indices), [])])
  }

  lemma {:induction false} UsersWellFormed()
    ensures W.WellFormed(N.Schema([USERS])) && W.DistinctShapes(N.Schema([USERS]))
    ensures W.DistinctIndexNames(N.Schema([USERS]))
  {
    var key := MODEL_INDICES[0];
    assert N.FirstPrimary(MODEL_INDICES) == Some(key);
    assert N.KeyColumns(key.columns) == [ID] by { assert key.columns[1..] == []; }
    assert key.columns[0].column.index == 0;
    assert W.KeyedBy(USERS.indices[0], 0);
    assert W.WellFormedTable(USERS, 0);
  }

  lemma {:induction false} UsersRendered(index: string)
    requires |index| > |"users_pkey"|
    ensures R.Sane(UsersWith(index)) && R.DiagnosticsOf(UsersWith(index).tables) == []
    ensures index == "users_by_id" ==> R.Shows(TOY.typer, UsersWith(index), N.Schema([USERS]))
  {
    var o := UsersWith(index).tables[0].table;
    assert R.AsObserved(UsersWith(index).tables).tables == [o];
    assert S.Init(UsersWith(index).tables) == [] && R.DiagnosticsOf([]) == [];
    forall j | 0 <= j < 2 ensures N.ShapeMatches(USERS, USERS.indices[j], o.indices[j]) {
      assert N.ColumnName(USERS, USERS.indices[j].columns[0].column) == Some("id");
    }
  }

  /** The premises of the last result can be met. */
  lemma {:induction false} RenamedExample()
    ensures OnlyRenamed(UsersWith("users_id_idx"), UsersWith("users_by_id"), N.Schema([USERS]))
    ensures R.Sane(UsersWith("users_id_idx"))
  {
    hide R.Shows, R.Sane, R.DiagnosticsOf;
    var model, base, twin := N.Schema([USERS]), UsersWith("users_id_idx"), UsersWith("users_by_id");
    UsersRendered("users_by_id");
    UsersRendered("users_id_idx");
    var o := twin.tables[0].table;
    assert N.ColumnName(USERS, USERS.indices[1].columns[0].column) == Some("id");
    assert N.ShapeMatches(USERS, USERS.indices[1], o.indices[1]) && USERS.indices[1] in USERS.indices;
    assert N.FindTable(model.tables, "users") == Some(USERS);
    assert N.TargetIndex(Some(USERS), o.indices[1]).Some?;
    assert HasOtherName(base, model, 0, 1);
  }

  // ---------------------------------------------------------------- executing on a database that has tables

  lemma {:induction false} GeneratesFirst(base: Catalog, q: GenerateRequest)
    requires q.origin.Auto? && q.current.tables != [] && q.hints.Some?
    ensures Generate(TOY, NO_TREE, base, q, 15).0
         == A.Written(NO_TREE, [], FirstRequest(q.source, q.name, q.current, q.files), 15).0
  {
    hide A.Written, Sql, SchemaThings, R.ReadSchema;
    NothingInside(base, q.current);
    NothingInside(base, EMPTY);
  }

  /** The database takes a new table. */
  lemma {:induction false} TakesTable(base: Catalog, name: string)
    requires R.Sane(base) && forall i :: 0 <= i < |base.tables| ==> base.tables[i].table.name != name
    ensures ToyAccepts(base, Make(TableThing(name))) && R.Sane(ToyExecute(base, Make(TableThing(name))))
  {
    hide Make, R.SaneTable;
    var more := R.Catalog(base.tables + [R.LiveTable(N.ObservedTable(name, None, [], []), [])]);
    assert S.Init(more.tables) == base.tables;
    NewTableSane();
    MakeMeans(TableThing(name));
    assert Effect(ThingsIn(base), Make(TableThing(name))) == Some(ThingsIn(base) + multiset{TableThing(name)});
    assert LiveThings(more.tables) == LiveThings(base.tables) + [TableThing(name)];
    assert Becomes(more, ThingsIn(base) + multiset{TableThing(name)});
    AcceptedEffect(base, Make(TableThing(name)));
  }

  lemma {:induction false} NewTableSane()
    ensures forall name :: R.SaneTable(N.ObservedTable(name, None, [], []))
  {
  }

  lemma {:induction false} ExecutesFirst(s: State, next: Schema, file: A.Owned, current: Schema)
    requires HoldsFirst(s.tree, next, file) && s.db == L.Db(map[], [])
    ensures var s' := Step(TOY, s, DoApply(L.Execute, current, map[]));
            s'.db.ledger != map[] && s'.db.trace == Statements(TOY, file.sql) && s'.base == s.base
  {
    hide A.ResolveArtifacts, T.ValidSql, L.ApplyCall, TOY, P.ForwardSql, FirstSnapshot, A.SqlFile;
    var artifacts := Migrations(TOY, [file]);
    P.LedgerOfNames(artifacts, 1);
    C.ApplyCompletes(s.db, artifacts, 0);
    ForwardSqlLast(TOY, [file], 0, 1);
    NoForwardSql(TOY, [file], 0);
    assert artifacts[0].id in P.LedgerOf(artifacts, 1);
  }

  lemma {:induction false} OneTableSql(t: N.Table)
    requires t.indices == []
    ensures Statements(TOY, A.SqlFile(Sql(EMPTY, N.Schema([t]))).text) == [Make(TableThing(t.name))]
  {
    hide Make, A.SqlFile, Sql, Statements;
    SqlFileRuns(EMPTY, N.Schema([t]));
    assert S.Init([t]) == [] && SchemaThings([t]) == [TableThing(t.name)];
    assert Makes([TableThing(t.name)]) == [Make(TableThing(t.name))];
  }

  lemma {:induction false} GenuineAfterOne(s: State, statement: L.Statement)
    requires s.db.trace == [statement] && ToyAccepts(s.base, statement) && R.Sane(ToyExecute(s.base, statement))
    ensures Genuine(TOY, s)
  {
    hide ToyAccepts, ToyExecute, R.Sane;
    assert S.Init([statement]) == [] && S.Last([statement]) == statement;
    assert ExecuteAll(TOY, s.base, []) == s.base && Runs(TOY, s.base, []);
    assert ExecuteAll(TOY, s.base, [statement]) == ToyExecute(s.base, statement);
    assert Runs(TOY, s.base, [statement]);
  }

  /** Generating from the models and executing on a database that already has tables: a reachable state
      in which the apply is not supported, goes through, and breaks the lineage. */
  lemma {:induction false} ExecutingUnadopted(base: Catalog, t: N.Table, q: GenerateRequest, current: Schema)
    requires R.Sane(base) && base.tables != [] && t.indices == []
    requires forall i :: 0 <= i < |base.tables| ==> base.tables[i].table.name != t.name
    requires q.origin.Auto? && q.current == N.Schema([t]) && q.hints.Some?
    requires T.Slug(q.source).Some? && T.Slug(q.name).Some?
    ensures var s := Run(TOY, Fresh(base), [DoGenerate(q, 15)]);
            var apply := DoApply(L.Execute, current, map[]);
            && SupportedRun(TOY, Fresh(base), [DoGenerate(q, 15)]) && GenuineRun(TOY, Fresh(base), [DoGenerate(q, 15)])
            && A.ResolveArtifacts(s.tree).Ok? && Genuine(TOY, Step(TOY, s, apply)) && !Supported(TOY, s, apply)
            && forall k: nat :: !Consistent(TOY, Step(TOY, s, apply), A.ResolveArtifacts(s.tree).value, k)
  {
    hide A.ResolveArtifacts, T.Slug, A.Written, Consistent, Inv, Run, SupportedRun, GenuineRun, L.ApplyCall, FirstSnapshot,
         R.Sane, Genuine, ThingsIn, ThingsOf, Sql, ToyAccepts, ToyExecute, Statements, Make, A.SqlFile, T.ValidSql;
    var generate, apply := DoGenerate(q, 15), DoApply(L.Execute, current, map[]);
    var s := Step(TOY, Fresh(base), generate);
    GenuineUntouched(Fresh(base), base);
    GenuineUntouched(s, base);
    OneStep(Fresh(base), generate);
    var file := FirstWrite(q.source, q.name, q.current, q.files);
    GeneratesFirst(base, q);
    HoldsIsReady(s.tree, q.current, file);
    ToyMeetsLaws();
    FreshInv(TOY, base);
    var done, schemas, n := StepKeeps(TOY, Fresh(base), generate, [], [], 0);
    ExecutesFirst(s, q.current, file, current);
    OneTableSql(t);
    TakesTable(base, t.name);
    GenuineAfterOne(Step(TOY, s, apply), Make(TableThing(t.name)));
    NothingInside(base, EMPTY);
    UnsupportedBreaks(s, done, schemas, n, L.Execute, current, map[]);
  }
}
