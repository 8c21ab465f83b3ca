/** The MySQL migration protocol as a state machine over its awaited statements.

    MySQL commits DDL statement by statement, so a run is not atomic: it takes a session lock, looks
    for a run marker and a ledger row, inserts its own marker, alternates progress updates and
    migration statements, writes the ledger, deletes the marker and releases the lock. Any number of
    runs on any number of sources interleave, every statement may fail, and between any two
    statements a run may be cancelled (its pooled session keeps the lock) or lose its session (the
    server frees the lock). */
module MySqlProtocol {
  import opened Wrappers
  import L = TransactionalLedger

  type Source = string
  type Statement = string
  type Connection = nat

  /** `Record` is an apply that only writes the ledger row; `Prepare` reads the ledger. */
  datatype Kind = Apply | Record | Rollback | Prepare

  datatype Op = Op(kind: Kind, source: Source, id: nat, name: string, sql: seq<Statement>)

  datatype Marker = Marker(name: string, index: nat)

  /** History of the run whose marker is in the table: `index` repeats the marker's progress,
      `done` counts executed statements, `written` says that the ledger has been changed. */
  datatype Inflight = Inflight(op: Op, index: nat, done: nat, written: bool)

  /** One source's rows and live schema, with its history. The live schema is the list of every
      statement that ever ran: any schema semantics is a function of that list. */
  datatype SourceDb = SourceDb(
    ledger: map<nat, string>,
    markers: map<(nat, Kind), Marker>,
    trace: seq<Statement>,
    log: seq<Op>,
    inflight: Option<Inflight>)

  /** The named session lock, with MySQL's re-entrancy count. */
  datatype Hold = Hold(connection: Connection, count: nat)

  datatype Outcome = Changed | Unchanged | Failed

  /** The statement that a run awaits next. */
  datatype Pc =
    | ReleaseStale
    | GetLock
    | CreateTables
    | CheckMarker
    | CheckLedger
    | InsertMarker
    | UpdateProgress(k: nat)
    | Execute(k: nat)
    | WriteLedger
    | DeleteMarker
    | Finish(outcome: Outcome)

  datatype Run = Run(op: Op, pc: Pc)

  datatype State = State(dbs: map<Source, SourceDb>, lock: Option<Hold>, active: map<Connection, Run>)

  const EMPTY_DB := SourceDb(map[], map[], [], [], None)

  function Db(s: State, source: Source): SourceDb {
    if source in s.dbs then s.dbs[source] else EMPTY_DB
  }

  predicate Executes(op: Op) { op.kind.Apply? || op.kind.Rollback? }

  /** The ledger lets the operation go ahead. */
  predicate Allowed(ledger: map<nat, string>, op: Op) {
    if op.kind.Rollback? then L.IsNewest(ledger, op.id) && ledger[op.id] == op.name
    else op.id !in ledger
  }

  function Released(lock: Option<Hold>, c: Connection): Option<Hold> {
    if lock.Some? && lock.value.connection == c then
      if lock.value.count > 1 then Some(Hold(c, lock.value.count - 1)) else None
    else lock
  }

  /** After `k` statements: the next progress update, or the ledger. */
  function AfterStatements(op: Op, k: nat): Pc {
    if k < |op.sql| then UpdateProgress(k) else WriteLedger
  }

  // ---------------------------------------------------------------- steps

  datatype Action =
    | Start(c: Connection, op: Op)
    | Advance(c: Connection)
    | Fail(c: Connection)
    | Cancel(c: Connection)
    | LoseSession(c: Connection)

  predicate Enabled(s: State, a: Action) {
    match a
    case Start(c, _) => c !in s.active
    case Advance(c) =>
      c in s.active
      && (s.active[c].pc.GetLock? ==> s.lock.None? || s.lock.value.connection == c)
    case Fail(c) => c in s.active
    case Cancel(c) => c in s.active
    case LoseSession(c) => true
  }

  function Goto(s: State, c: Connection, pc: Pc): State
    requires c in s.active
  {
    s.(active := s.active[c := s.active[c].(pc := pc)])
  }

  function Update(s: State, source: Source, db: SourceDb): State {
    s.(dbs := s.dbs[source := db])
  }

  function CheckLedgerStep(db: SourceDb, op: Op): Pc {
    if op.kind.Rollback? then
      if Allowed(db.ledger, op) then InsertMarker else Finish(Failed)
    else if op.id in db.ledger then
      Finish(if db.ledger[op.id] == op.name then Unchanged else Failed)
    else if Executes(op) then InsertMarker else WriteLedger
  }

  /** What a statement does to the rows and the live schema of its source when it succeeds. */
  function DbStep(db: SourceDb, run: Run): SourceDb {
    var op := run.op;
    var key := (op.id, op.kind);
    match run.pc
    case InsertMarker =>
      if key in db.markers then db
      else db.(markers := db.markers[key := Marker(op.name, 0)], inflight := Some(Inflight(op, 0, 0, false)))
    case UpdateProgress(k) =>
      db.(markers := if key in db.markers then db.markers[key := db.markers[key].(index := k)] else db.markers,
          inflight := if db.inflight.Some? then Some(db.inflight.value.(index := k)) else None)
    case Execute(k) =>
      if k < |op.sql| then
        db.(trace := db.trace + [op.sql[k]],
            inflight := if db.inflight.Some? then Some(db.inflight.value.(done := k + 1)) else None)
      else db
    case WriteLedger =>
      if !op.kind.Rollback? && op.id in db.ledger then db
      else
        db.(ledger := if op.kind.Rollback? then db.ledger - {op.id} else db.ledger[op.id := op.name],
            log := db.log + [op],
            inflight := if db.inflight.Some? then Some(db.inflight.value.(written := true)) else None)
    case DeleteMarker => db.(markers := db.markers - {key}, inflight := None)
    case _ => db
  }

  /** Where a run goes when its statement succeeds; `WriteLedger` and `InsertMarker` go to `Finish`
      when a row with their key exists. */
  function NextPc(db: SourceDb, run: Run): Pc {
    var op := run.op;
    match run.pc
    case ReleaseStale => GetLock
    case GetLock => CreateTables
    case CreateTables => CheckMarker
    case CheckMarker =>
      if db.markers != map[] then Finish(Failed)
      else if op.kind.Prepare? then Finish(Unchanged) else CheckLedger
    case CheckLedger => CheckLedgerStep(db, op)
    case InsertMarker => if (op.id, op.kind) in db.markers then Finish(Failed) else AfterStatements(op, 0)
    case UpdateProgress(k) => Execute(k)
    case Execute(k) => AfterStatements(op, k + 1)
    case WriteLedger =>
      if !op.kind.Rollback? && op.id in db.ledger then Finish(Failed)
      else if Executes(op) then DeleteMarker else Finish(Changed)
    case DeleteMarker => Finish(Changed)
    case Finish(outcome) => Finish(outcome)
  }

  function AdvanceStep(s: State, c: Connection): State
    requires c in s.active
  {
    var run := s.active[c];
    var db := Db(s, run.op.source);
    match run.pc
    case Finish(_) => s.(lock := Released(s.lock, c), active := s.active - {c})
    case ReleaseStale => Goto(s, c, GetLock).(lock := Released(s.lock, c))
    case GetLock =>
      Goto(s, c, CreateTables).(lock := Some(Hold(c, if s.lock.Some? then s.lock.value.count + 1 else 1)))
    case _ => Goto(Update(s, run.op.source, DbStep(db, run)), c, NextPc(db, run))
  }

  function Step(s: State, a: Action): State
    requires Enabled(s, a)
  {
    match a
    case Start(c, op) => s.(active := s.active[c := Run(op, ReleaseStale)])
    case Advance(c) => AdvanceStep(s, c)
    case Fail(c) =>
      // Before the lock is taken an error ends the call; afterwards the lock is released first.
      // An error of the release itself ends the call and leaves the lock with the session.
      if s.active[c].pc.ReleaseStale? || s.active[c].pc.GetLock? || s.active[c].pc.Finish? then
        s.(active := s.active - {c})
      else Goto(s, c, Finish(Failed))
    case Cancel(c) => s.(active := s.active - {c})
    case LoseSession(c) =>
      s.(active := s.active - {c},
         lock := if s.lock.Some? && s.lock.value.connection == c then None else s.lock)
  }

  ghost predicate ValidRun(s: State, actions: seq<Action>)
    decreases |actions|
  {
    actions == [] || (Enabled(s, actions[0]) && ValidRun(Step(s, actions[0]), actions[1..]))
  }

  ghost function After(s: State, actions: seq<Action>): State
    requires ValidRun(s, actions)
    decreases |actions|
  {
    if actions == [] then s else After(Step(s, actions[0]), actions[1..])
  }

  const INITIAL := State(map[], None, map[])

  // ---------------------------------------------------------------- history

  /** The statements of a list of finished operations. */
  ghost function Executed(log: seq<Op>): seq<Statement> {
    if log == [] then []
    else Executed(log[..|log| - 1]) + if Executes(log[|log| - 1]) then log[|log| - 1].sql else []
  }

  /** The ledger rows that a list of finished operations leaves. */
  ghost function Applied(log: seq<Op>): map<nat, string> {
    if log == [] then map[]
    else
      var op := log[|log| - 1];
      var before := Applied(log[..|log| - 1]);
      if op.kind.Rollback? then before - {op.id} else before[op.id := op.name]
  }

  /** Every operation was allowed by the ledger before it. */
  ghost predicate Legal(log: seq<Op>) {
    log == [] ||
    (Legal(log[..|log| - 1]) && Allowed(Applied(log[..|log| - 1]), log[|log| - 1]))
  }

  // ---------------------------------------------------------------- the invariant

  ghost predicate InflightInv(db: SourceDb, f: Inflight) {
    && Executes(f.op)
    && db.markers == map[(f.op.id, f.op.kind) := Marker(f.op.name, f.index)]
    && f.index <= f.done <= f.index + 1 && f.done <= |f.op.sql|
    && if f.written then
         && db.log != [] && db.log[|db.log| - 1] == f.op
         && f.done == |f.op.sql| && db.trace == Executed(db.log)
       else
         && Allowed(db.ledger, f.op) && db.trace == Executed(db.log) + f.op.sql[..f.done]
  }

  ghost predicate DbInv(db: SourceDb) {
    && Legal(db.log) && db.ledger == Applied(db.log)
    && match db.inflight
       case None => db.markers == map[] && db.trace == Executed(db.log)
       case Some(f) => InflightInv(db, f)
  }

  /** Between acquiring and releasing the lock. */
  predicate Critical(pc: Pc) { !pc.ReleaseStale? && !pc.GetLock? }

  /** The run's own marker is in the table. */
  predicate Marked(run: Run) {
    || run.pc.UpdateProgress? || run.pc.Execute? || run.pc.DeleteMarker?
    || (run.pc.WriteLedger? && Executes(run.op))
  }

  ghost predicate RunInv(run: Run, db: SourceDb) {
    var op := run.op;
    match run.pc
    case CheckLedger => db.inflight.None? && !op.kind.Prepare?
    case InsertMarker => db.inflight.None? && Executes(op) && Allowed(db.ledger, op)
    case UpdateProgress(k) =>
      && k < |op.sql| && db.inflight.Some?
      && db.inflight.value == Inflight(op, db.inflight.value.index, k, false)
    case Execute(k) => k < |op.sql| && db.inflight == Some(Inflight(op, k, k, false))
    case WriteLedger =>
      if Executes(op) then
        && db.inflight.Some?
        && db.inflight.value == Inflight(op, db.inflight.value.index, |op.sql|, false)
      else db.inflight.None? && op.kind.Record? && Allowed(db.ledger, op)
    case DeleteMarker =>
      && Executes(op) && db.inflight.Some?
      && db.inflight.value == Inflight(op, db.inflight.value.index, |op.sql|, true)
    case _ => true
  }

  ghost predicate LockInv(s: State) {
    && (s.lock.Some? ==> s.lock.value.count == 1)
    && forall c :: c in s.active ==>
         && (Critical(s.active[c].pc) ==> s.lock == Some(Hold(c, 1)))
         && (s.active[c].pc.GetLock? ==> s.lock.None? || s.lock.value.connection != c)
  }

  ghost predicate Inv(s: State) {
    && LockInv(s)
    && (forall source :: DbInv(Db(s, source)))
    && forall c :: c in s.active && Critical(s.active[c].pc) ==>
         RunInv(s.active[c], Db(s, s.active[c].op.source))
  }

  lemma {:induction false} InitialInv()
    ensures Inv(INITIAL)
  {
  }

  lemma {:induction false} LockStep(s: State, a: Action)
    requires LockInv(s) && Enabled(s, a)
    ensures LockInv(Step(s, a))
  {
    hide DbStep;
  }

  // A statement of the run that holds the lock keeps the invariant of its source and its own.

  lemma {:induction false} ReadKeeps(db: SourceDb, run: Run)
    requires DbInv(db) && RunInv(run, db) && (run.pc.CreateTables? || run.pc.CheckMarker? || run.pc.CheckLedger?)
    ensures DbInv(DbStep(db, run)) && RunInv(run.(pc := NextPc(db, run)), DbStep(db, run))
  {
    if db.inflight.Some? {
      var f := db.inflight.value;
      assert (f.op.id, f.op.kind) in db.markers;
    }
  }

  lemma {:induction false} InsertMarkerKeeps(db: SourceDb, run: Run)
    requires DbInv(db) && RunInv(run, db) && run.pc.InsertMarker?
    ensures DbInv(DbStep(db, run)) && RunInv(run.(pc := NextPc(db, run)), DbStep(db, run))
  {
    var op := run.op;
    assert op.sql[..0] == [] && Executed(db.log) + [] == Executed(db.log);
    assert DbStep(db, run).markers == map[(op.id, op.kind) := Marker(op.name, 0)];
  }

  lemma {:induction false} UpdateProgressKeeps(db: SourceDb, run: Run)
    requires DbInv(db) && RunInv(run, db) && run.pc.UpdateProgress?
    ensures DbInv(DbStep(db, run)) && RunInv(run.(pc := NextPc(db, run)), DbStep(db, run))
  {
    var op, k := run.op, run.pc.k;
    assert DbStep(db, run).markers == map[(op.id, op.kind) := Marker(op.name, k)];
  }

  lemma {:induction false} ExecuteKeeps(db: SourceDb, run: Run)
    requires DbInv(db) && RunInv(run, db) && run.pc.Execute?
    ensures DbInv(DbStep(db, run)) && RunInv(run.(pc := NextPc(db, run)), DbStep(db, run))
  {
    hide Allowed;
    var op, k := run.op, run.pc.k;
    assert op.sql[..k] + [op.sql[k]] == op.sql[..k + 1];
    assert db.trace + [op.sql[k]] == Executed(db.log) + op.sql[..k + 1];
  }

  lemma {:induction false} WriteLedgerKeeps(db: SourceDb, run: Run)
    requires DbInv(db) && RunInv(run, db) && run.pc.WriteLedger?
    ensures DbInv(DbStep(db, run)) && RunInv(run.(pc := NextPc(db, run)), DbStep(db, run))
  {
    var op, log := run.op, db.log + [run.op];
    assert log[..|log| - 1] == db.log && log[|log| - 1] == op;
    assert op.sql[..|op.sql|] == op.sql && Executed(db.log) + [] == Executed(db.log);
    assert Executed(log) == Executed(db.log) + if Executes(op) then op.sql else [];
    assert Legal(log);
  }

  lemma {:induction false} DeleteMarkerKeeps(db: SourceDb, run: Run)
    requires DbInv(db) && RunInv(run, db) && run.pc.DeleteMarker?
    ensures DbInv(DbStep(db, run)) && RunInv(run.(pc := NextPc(db, run)), DbStep(db, run))
  {
    assert DbStep(db, run).markers == map[];
  }

  lemma {:induction false} DbStepKeeps(db: SourceDb, run: Run)
    requires DbInv(db) && RunInv(run, db) && Critical(run.pc) && !run.pc.Finish?
    ensures DbInv(DbStep(db, run)) && RunInv(run.(pc := NextPc(db, run)), DbStep(db, run))
  {
    hide DbInv, DbStep, RunInv, NextPc;
    match run.pc
    case InsertMarker => InsertMarkerKeeps(db, run);
    case UpdateProgress(_) => UpdateProgressKeeps(db, run);
    case Execute(_) => ExecuteKeeps(db, run);
    case WriteLedger => WriteLedgerKeeps(db, run);
    case DeleteMarker => DeleteMarkerKeeps(db, run);
    case _ => ReadKeeps(db, run);
  }

  lemma {:induction false} AdvanceKeeps(s: State, c: Connection)
    requires Inv(s) && Enabled(s, Advance(c))
    ensures Inv(Step(s, Advance(c)))
  {
    hide DbStep, NextPc, DbInv, RunInv;
    var run := s.active[c];
    var s' := Step(s, Advance(c));
    LockStep(s, Advance(c));
    if Critical(run.pc) && !run.pc.Finish? {
      DbStepKeeps(Db(s, run.op.source), run);
      forall source ensures DbInv(Db(s', source)) {
        assert Db(s', source) == if source == run.op.source then DbStep(Db(s, source), run) else Db(s, source);
      }
    } else {
      AcquiredKeeps(s, c);
    }
  }

  /** Taking or releasing the lock leaves every row alone. */
  lemma {:induction false} AcquiredKeeps(s: State, c: Connection)
    requires Inv(s) && Enabled(s, Advance(c)) && LockInv(Step(s, Advance(c)))
    requires !Critical(s.active[c].pc) || s.active[c].pc.Finish?
    ensures Inv(Step(s, Advance(c)))
  {
    hide DbStep, NextPc, DbInv;
    var s' := Step(s, Advance(c));
    forall source ensures DbInv(Db(s', source)) { assert Db(s', source) == Db(s, source); }
  }

  lemma {:induction false} StepKeeps(s: State, a: Action)
    requires Inv(s) && Enabled(s, a)
    ensures Inv(Step(s, a))
  {
    if a.Advance? {
      AdvanceKeeps(s, a.c);
    } else {
      hide DbStep, NextPc, DbInv;
      LockStep(s, a);
      var s' := Step(s, a);
      forall source ensures DbInv(Db(s', source)) { assert Db(s', source) == Db(s, source); }
    }
  }

  lemma {:induction false} RunKeeps(s: State, actions: seq<Action>)
    requires Inv(s) && ValidRun(s, actions)
    ensures Inv(After(s, actions))
    decreases |actions|
  {
    hide Inv, Step, Enabled;
    if actions != [] {
      StepKeeps(s, actions[0]);
      RunKeeps(Step(s, actions[0]), actions[1..]);
    }
  }
}
