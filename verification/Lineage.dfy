/** The whole migration life of one source: generating, baselining, applying and rolling back.

    Schema differencing, rendering and execution belong to Toasty and the database; here they are
    one record of functions, and `Laws` lists everything that is assumed of them. Reading and
    normalizing the live schema is this repository's own code and is not assumed but modelled. */
module Lineage {
  import opened Wrappers
  import A = ArtifactStore
  import L = TransactionalLedger
  import N = SchemaNormalizer
  import R = CatalogReading
  import W = SchemaNormalizerLaws
  import S = Sequences
  import T = MigrationNames

  type Schema = N.Schema
  type Catalog = R.Catalog
  type Hints = seq<(string, string)>

  const EMPTY: Schema := N.Schema([])
  const NO_HINTS: Hints := []

  datatype Generated = Generated(sql: string, snapshot: Schema)

  /** `accepts` and `execute` are the database: whether it carries out a statement, and what becomes of
      it then. `holds` says that a database has a schema. */
  datatype Toasty = Toasty(
    scope: R.Scope,
    typer: N.Typer,
    generate: (Schema, Schema, Hints) -> Option<Generated>,
    statements: string -> seq<L.Statement>,
    accepts: (Catalog, L.Statement) -> bool,
    execute: (Catalog, L.Statement) -> Catalog,
    holds: (Catalog, Schema) -> bool)

  predicate Holds(toasty: Toasty, live: Catalog, schema: Schema) { toasty.holds(live, schema) }

  /** The SQL from one schema to another, or none if there is nothing to change. */
  function Diff(toasty: Toasty, a: Schema, b: Schema, hints: Hints): Option<Generated> { toasty.generate(a, b, hints) }

  /** The live schema as it is read and normalized. */
  function Observe(toasty: Toasty, live: Catalog, target: Schema): Option<Schema> {
    match R.ReadSchema(toasty.scope, toasty.typer, live, target)
    case Ok(schema) => Some(schema)
    case Err(_) => None
  }

  function ColumnNames(table: N.Table, columns: seq<N.IndexColumn>): seq<Option<string>> {
    if columns == [] then [] else [N.ColumnName(table, columns[0].column)] + ColumnNames(table, columns[1..])
  }

  /** A secondary index that is not unique is managed only if the latest snapshot has one like it. */
  predicate ManagedIndex(observed: N.Table, latest: N.Table, index: N.Index) {
    || index.unique
    || exists k :: && 0 <= k < |latest.indices|
                   && index.unique == latest.indices[k].unique && index.primaryKey == latest.indices[k].primaryKey
                   && ColumnNames(observed, index.columns) == ColumnNames(latest, latest.indices[k].columns)
  }

  function ManagedIndices(observed: N.Table, latest: N.Table, indices: seq<N.Index>): seq<N.Index> {
    if indices == [] then []
    else
      (if ManagedIndex(observed, latest, indices[0]) then [indices[0]] else [])
      + ManagedIndices(observed, latest, indices[1..])
  }

  function ProjectTables(observed: seq<N.Table>, latest: Schema): seq<N.Table> {
    if observed == [] then []
    else
      [match N.FindTable(latest.tables, observed[0].name)
       case None => observed[0]
       case Some(table) => observed[0].(indices := ManagedIndices(observed[0], table, observed[0].indices))]
      + ProjectTables(observed[1..], latest)
  }

  /** The observed schema without the indices that are not managed. */
  function Project(toasty: Toasty, observed: Schema, latest: Schema): Schema {
    if toasty.scope.NamespaceExclusive? then observed else N.Schema(ProjectTables(observed.tables, latest))
  }

  function Statements(toasty: Toasty, text: string): seq<L.Statement> { toasty.statements(text) }

  function ExecuteAll(toasty: Toasty, live: Catalog, statements: seq<L.Statement>): Catalog {
    if statements == [] then live
    else toasty.execute(ExecuteAll(toasty, live, S.Init(statements)), S.Last(statements))
  }

  /** The database accepts each statement in the state that the ones before it leave. */
  predicate Runs(toasty: Toasty, live: Catalog, statements: seq<L.Statement>) {
    statements == [] ||
    (&& Runs(toasty, live, S.Init(statements))
     && toasty.accepts(ExecuteAll(toasty, live, S.Init(statements)), S.Last(statements)))
  }

  /** On every database that has the schema `a`, the statements, if accepted, lead to one that has `b`. */
  ghost predicate Leads(toasty: Toasty, statements: seq<L.Statement>, a: Schema, b: Schema) {
    forall live :: Holds(toasty, live, a) && Runs(toasty, live, statements) ==>
                     Holds(toasty, ExecuteAll(toasty, live, statements), b)
  }

  ghost predicate Takes(toasty: Toasty, text: string, a: Schema, b: Schema) {
    Leads(toasty, Statements(toasty, text), a, b)
  }

  /** No database tells the two schemas apart. */
  ghost predicate Same(toasty: Toasty, a: Schema, b: Schema) {
    forall live :: Holds(toasty, live, a) <==> Holds(toasty, live, b)
  }

  /** What is assumed of Toasty: it finds nothing to change only between schemas that no database tells
      apart, and regardless of the direction; otherwise it says what it has generated, and its SQL leads
      there wherever the database accepts it; a first table is always a change. And of databases: one
      that shows exactly a schema has it, and one that has the empty schema has no table. */
  ghost predicate Laws(toasty: Toasty) {
    && (forall a, b, h :: Diff(toasty, a, b, h).None? ==> Same(toasty, a, b))
    && (forall a, b :: Diff(toasty, a, b, NO_HINTS).None? ==> Diff(toasty, b, a, NO_HINTS).None?)
    && (forall a, b, h :: Diff(toasty, a, b, h).Some? ==>
          && Diff(toasty, a, b, h).value.snapshot == b
          && Takes(toasty, A.SqlFile(Diff(toasty, a, b, h).value.sql).text, a, b))
    && (forall s: Schema :: s.tables != [] ==> Diff(toasty, EMPTY, s, NO_HINTS).Some?)
    && (forall live, s :: R.Sane(live) && W.WellFormed(s) && R.Shows(toasty.typer, live, s) ==> Holds(toasty, live, s))
    && (forall live :: Holds(toasty, live, EMPTY) ==> live.tables == [])
  }

  // ---------------------------------------------------------------- generation

  datatype Origin = Auto | FromEmpty | LatestSnapshot | LiveDatabase

  /** How the serializers render the new files, and what cut-off writes leave behind. */
  datatype Files = Files(snapshotText: string, historyText: string, torn: (A.Content, A.Content, A.Content, A.Content))

  /** `hints` is `None` when the rename options do not resolve. */
  datatype GenerateRequest = GenerateRequest(
    origin: Origin, source: string, name: string, current: Schema, hints: Option<Hints>,
    baselineFiles: Files, files: Files)

  datatype Error =
    | Artifact(error: A.Error)
    | NotRegenerable
    | OriginMismatch
    | UnreadableSnapshot
    | InspectFailed
    | TrackedDrift
    | NothingObserved
    | NoBaseline
    | NoRollback
    | BadHints

  /** What generation reports: whether it wrote, the id of the newest migration written, and the state that
      it takes the lineage to be in. */
  datatype Outcome = Outcome(created: bool, id: Option<nat>, state: A.ArtifactState)

  function LatestSchema(t: A.Tree, entries: seq<A.Entry>): Result<Schema, Error> {
    if entries == [] then Ok(EMPTY)
    else
      var name := entries[|entries| - 1].snapshotName;
      if name in t.snapshots && t.snapshots[name].schema.Some? then Ok(t.snapshots[name].schema.value)
      else Err(UnreadableSnapshot)
  }

  function WriteRequest(source: string, name: string, forward: Generated, reverse: Generated, files: Files): A.Request {
    A.Request(source, name, forward.sql, reverse.sql, files.snapshotText, forward.snapshot, files.historyText, files.torn)
  }

  /** Where generation starts from: the lineage, the steps left, and a baseline already written. */
  datatype Start = Start(entries: seq<A.Entry>, steps: nat, previous: Schema, baseline: Option<nat>)

  /** Writes the migration from the empty schema to the observed one. */
  function WriteBaseline(toasty: Toasty, t: A.Tree, entries: seq<A.Entry>, source: string, name: string,
                         observed: Schema, files: Files, steps: nat): (A.Tree, Result<A.Names, Error>)
  {
    var forward := Diff(toasty, EMPTY, observed, NO_HINTS);
    var reverse := Diff(toasty, observed, EMPTY, NO_HINTS);
    if forward.None? then (t, Err(NoBaseline))
    else if reverse.None? then (t, Err(NoRollback))
    else
      var w := A.Written(t, entries, WriteRequest(source, name, forward.value, reverse.value, files), steps);
      (w.0, match w.1 case Ok(names) => Ok(names) case Err(e) => Err(Artifact(e)))
  }

  function StartLive(toasty: Toasty, t: A.Tree, live: Catalog, entries: seq<A.Entry>, q: GenerateRequest, steps: nat)
    : (A.Tree, Result<Start, Error>)
  {
    match Observe(toasty, live, q.current)
    case None => (t, Err(InspectFailed))
    case Some(observed) =>
      if A.InspectState(t) == A.Ready then
        match LatestSchema(t, entries)
        case Err(e) => (t, Err(e))
        case Ok(latest) =>
          var projected := Project(toasty, observed, latest);
          if Diff(toasty, latest, projected, NO_HINTS).Some? then (t, Err(TrackedDrift))
          else (t, Ok(Start(entries, steps, projected, None)))
      else if observed.tables == [] then (t, Ok(Start(entries, steps, observed, None)))
      else
        var w := WriteBaseline(toasty, t, entries, q.source, "observed_schema_baseline", observed, q.baselineFiles, steps);
        match w.1
        case Err(e) => (w.0, Err(e))
        case Ok(names) =>
          (w.0, Ok(Start(entries + [A.NewEntry(names)], if steps >= 15 then steps - 15 else 0, observed, Some(names.id))))
  }

  function StartFrom(toasty: Toasty, t: A.Tree, live: Catalog, entries: seq<A.Entry>, q: GenerateRequest, steps: nat)
    : (A.Tree, Result<Start, Error>)
  {
    var state := A.InspectState(t);
    match q.origin
    case Auto =>
      if state == A.Ready then
        (t, match LatestSchema(t, entries) case Ok(latest) => Ok(Start(entries, steps, latest, None)) case Err(e) => Err(e))
      else (t, Ok(Start(entries, steps, EMPTY, None)))
    case FromEmpty =>
      if state == A.Ready then (t, Err(OriginMismatch)) else (t, Ok(Start(entries, steps, EMPTY, None)))
    case LatestSnapshot =>
      if state != A.Ready then (t, Err(OriginMismatch))
      else (t, match LatestSchema(t, entries) case Ok(latest) => Ok(Start(entries, steps, latest, None)) case Err(e) => Err(e))
    case LiveDatabase => StartLive(toasty, t, live, entries, q, steps)
  }

  function GenerateFrom(toasty: Toasty, t: A.Tree, start: Start, q: GenerateRequest): (A.Tree, Result<Outcome, Error>) {
    match q.hints
    case None => (t, Err(BadHints))
    case Some(hints) =>
      match Diff(toasty, start.previous, q.current, hints)
      case None =>
        (t, Ok(Outcome(start.baseline.Some?, start.baseline, if start.baseline.Some? then A.Ready else A.InspectState(t))))
      case Some(forward) =>
        match Diff(toasty, q.current, start.previous, NO_HINTS)
        case None => (t, Err(NoRollback))
        case Some(reverse) =>
          var w := A.Written(t, start.entries, WriteRequest(q.source, q.name, forward, reverse, q.files), start.steps);
          (w.0, match w.1 case Ok(names) => Ok(Outcome(true, Some(names.id), A.Ready)) case Err(e) => Err(Artifact(e)))
  }

  /** `generate`, when the process stops after `steps` filesystem steps. */
  function Generate(toasty: Toasty, t: A.Tree, live: Catalog, q: GenerateRequest, steps: nat)
    : (A.Tree, Result<Outcome, Error>)
  {
    var state := A.InspectState(t);
    if state == A.Partial || state == A.Invalid then (t, Err(NotRegenerable))
    else
      match A.LoadHistory(t)
      case Err(e) => (t, Err(Artifact(e)))
      case Ok(entries) =>
        var start := StartFrom(toasty, t, live, entries, q, steps);
        match start.1
        case Err(e) => (start.0, Err(e))
        case Ok(from) => GenerateFrom(toasty, start.0, from, q)
  }

  /** `baseline`: only for a lineage that has no migration, and a database that has a schema. */
  function Baseline(toasty: Toasty, t: A.Tree, live: Catalog, source: string, name: string, current: Schema,
                    files: Files, steps: nat): (A.Tree, Result<Outcome, Error>)
  {
    if A.InspectState(t) != A.Missing && A.InspectState(t) != A.Empty then (t, Err(NotRegenerable))
    else
      match Observe(toasty, live, current)
      case None => (t, Err(InspectFailed))
      case Some(observed) =>
        if observed.tables == [] then (t, Err(NothingObserved))
        else
          var w := WriteBaseline(toasty, t, [], source, name, observed, files, steps);
          (w.0, match w.1 case Ok(names) => Ok(Outcome(true, Some(names.id), A.Ready)) case Err(e) => Err(e))
  }

  // ---------------------------------------------------------------- the source as a whole

  /** `base` is the database before anything ran. */
  datatype State = State(tree: A.Tree, db: L.Db, base: Catalog)

  datatype Action =
    | DoGenerate(request: GenerateRequest, steps: nat)
    | DoBaseline(source: string, name: string, current: Schema, files: Files, steps: nat)
    | DoApply(mode: L.Mode, current: Schema, faults: L.Faults)
    | DoRollback(selection: L.Selection, faults: L.Faults)

  function Live(toasty: Toasty, s: State): Catalog {
    ExecuteAll(toasty, s.base, s.db.trace)
  }

  function Script(toasty: Toasty, text: string): L.Script {
    L.Script(Statements(toasty, text), T.ValidSql(text))
  }

  function Migrations(toasty: Toasty, files: seq<A.Owned>): (r: seq<L.Migration>)
    ensures |r| == |files|
    ensures forall k :: 0 <= k < |r| ==>
              r[k] == L.Migration(files[k].id, files[k].name, Script(toasty, files[k].sql),
                                  if files[k].rollback.Some? then Some(Script(toasty, files[k].rollback.value)) else None)
  {
    seq(|files|, k requires 0 <= k < |files| =>
      L.Migration(files[k].id, files[k].name, Script(toasty, files[k].sql),
                  if files[k].rollback.Some? then Some(Script(toasty, files[k].rollback.value)) else None))
  }

  /** The snapshot of the first history entry, which a baseline adoption compares with the database. */
  function FirstSnapshot(t: A.Tree): Option<Schema> {
    match A.LoadHistory(t)
    case Err(_) => None
    case Ok(entries) =>
      if entries != [] && entries[0].snapshotName in t.snapshots then t.snapshots[entries[0].snapshotName].schema
      else None
  }

  /** A baseline may be adopted: the live schema matches the first snapshot. */
  predicate AdoptionAllowed(toasty: Toasty, s: State, current: Schema) {
    && FirstSnapshot(s.tree).Some?
    && var observed := Observe(toasty, Live(toasty, s), current);
       observed.Some? && Diff(toasty, FirstSnapshot(s.tree).value, observed.value, NO_HINTS).None?
  }

  ghost function Step(toasty: Toasty, s: State, a: Action): State {
    match a
    case DoGenerate(q, steps) => s.(tree := Generate(toasty, s.tree, Live(toasty, s), q, steps).0)
    case DoBaseline(source, name, current, files, steps) =>
      s.(tree := Baseline(toasty, s.tree, Live(toasty, s), source, name, current, files, steps).0)
    case DoApply(mode, current, faults) =>
      if mode.AdoptBaseline? && !AdoptionAllowed(toasty, s, current) then s
      else
        (match A.ResolveArtifacts(s.tree)
         case Err(_) => s
         case Ok(files) => s.(db := L.ApplyCall(s.db, Migrations(toasty, files), mode, faults).0))
    case DoRollback(selection, faults) =>
      (match A.ResolveArtifacts(s.tree)
       case Err(_) => s
       case Ok(files) => s.(db := L.RollbackCall(s.db, Migrations(toasty, files), selection, faults).0))
  }

  ghost function Run(toasty: Toasty, s: State, actions: seq<Action>): State
    decreases |actions|
  {
    if actions == [] then s else Run(toasty, Step(toasty, s, actions[0]), actions[1..])
  }
}
