/** What the MySQL protocol guarantees over every interleaving, failure and interruption. */
module MySqlSafety {
  import opened Wrappers
  import opened MySqlProtocol
  import L = TransactionalLedger

  ghost predicate Reachable(s: State) {
    exists actions :: ValidRun(INITIAL, actions) && After(INITIAL, actions) == s
  }

  lemma {:induction false} ReachableInv(s: State)
    requires Reachable(s)
    ensures Inv(s)
  {
    var actions :| ValidRun(INITIAL, actions) && After(INITIAL, actions) == s;
    InitialInv();
    RunKeeps(INITIAL, actions);
  }

  /** At most one run of all sources is past the lock, it holds the lock once, and a release finds
      the lock owned. */
  lemma {:induction false} MutualExclusion(s: State, c: Connection, d: Connection)
    requires Reachable(s) && c in s.active && d in s.active
    requires Critical(s.active[c].pc) && Critical(s.active[d].pc)
    ensures c == d && s.lock == Some(Hold(c, 1))
  {
    hide DbInv, RunInv;
    ReachableInv(s);
  }

  /** Without a run marker, the live schema is exactly what the finished operations made, and the
      ledger is exactly theirs. */
  lemma {:induction false} NoMarkerNoHalfRun(s: State, source: Source)
    requires Reachable(s) && Db(s, source).markers == map[]
    ensures var db := Db(s, source);
            Legal(db.log) && db.trace == Executed(db.log) && db.ledger == Applied(db.log)
  {
    ReachableInv(s);
    var db := Db(s, source);
    assert DbInv(db);
    MarkerIffInflight(db);
  }

  lemma {:induction false} MarkerIffInflight(db: SourceDb)
    requires DbInv(db)
    ensures db.markers == map[] <==> db.inflight.None?
  {
    if db.inflight.Some? {
      var f := db.inflight.value;
      assert map[(f.op.id, f.op.kind) := Marker(f.op.name, f.index)].Keys == {(f.op.id, f.op.kind)};
    }
  }

  /** The ledger change of a run in direction `kind` has been made. */
  predicate LedgerDecided(ledger: map<nat, string>, id: nat, kind: Kind) {
    if kind.Rollback? then id !in ledger else id in ledger
  }

  /** The finished operations before the run whose marker is present. */
  ghost function Before(db: SourceDb, id: nat, kind: Kind): seq<Op> {
    if LedgerDecided(db.ledger, id, kind) && db.log != [] then db.log[..|db.log| - 1] else db.log
  }

  /** The run `op` executed its first `d` statements on top of the finished operations before it. */
  ghost predicate RanPrefix(db: SourceDb, op: Op, d: nat) {
    d <= |op.sql| && db.trace == Executed(Before(db, op.id, op.kind)) + op.sql[..d]
  }

  // ---------------------------------------------------------------- where rows come from

  /** The operations that were started. */
  ghost function Started(actions: seq<Action>): set<Op> {
    set k | 0 <= k < |actions| && actions[k].Start? :: actions[k].op
  }

  /** The history of a source, and the run whose marker it holds, are among these operations. */
  ghost predicate FromOps(db: SourceDb, source: Source, ops: set<Op>) {
    && (db.inflight.Some? ==> db.inflight.value.op in ops && db.inflight.value.op.source == source)
    && forall op :: op in db.log ==> op in ops && op.source == source && !op.kind.Prepare?
  }

  ghost predicate Origin(s: State, ops: set<Op>) {
    && (forall c :: c in s.active ==> s.active[c].op in ops)
    && forall source :: FromOps(Db(s, source), source, ops)
  }

  lemma {:induction false} StatementOrigin(db: SourceDb, run: Run, ops: set<Op>)
    requires FromOps(db, run.op.source, ops) && run.op in ops && (run.pc.WriteLedger? ==> !run.op.kind.Prepare?)
    ensures FromOps(DbStep(db, run), run.op.source, ops)
  {
  }

  lemma {:induction false} OriginStep(s: State, a: Action, ops: set<Op>)
    requires Inv(s) && Origin(s, ops) && Enabled(s, a) && (a.Start? ==> a.op in ops)
    ensures Origin(Step(s, a), ops)
  {
    hide NextPc, DbStep, FromOps, DbInv;
    var s' := Step(s, a);
    forall source ensures FromOps(Db(s', source), source, ops) {
      assert FromOps(Db(s, source), source, ops);
      if a.Advance? && s.active[a.c].op.source == source { StatementOrigin(Db(s, source), s.active[a.c], ops); }
    }
  }

  lemma {:induction false} OriginRun(s: State, actions: seq<Action>, ops: set<Op>)
    requires Inv(s) && Origin(s, ops) && ValidRun(s, actions) && Started(actions) <= ops
    ensures Origin(After(s, actions), ops)
    decreases |actions|
  {
    hide Inv, Origin, Step, Enabled;
    if actions != [] {
      StepKeeps(s, actions[0]);
      assert actions[0].Start? ==> actions[0].op in Started(actions);
      OriginStep(s, actions[0], ops);
      assert Started(actions[1..]) <= Started(actions);
      OriginRun(Step(s, actions[0]), actions[1..], ops);
    }
  }

  /** Every finished operation of a source was started on it, and so was the run behind its marker. */
  lemma {:induction false} RowsComeFromRuns(actions: seq<Action>, source: Source)
    requires ValidRun(INITIAL, actions)
    ensures var db := Db(After(INITIAL, actions), source);
            && (forall op :: op in db.log ==>
                  op.source == source && !op.kind.Prepare? && exists c :: Start(c, op) in actions)
            && (db.inflight.Some? ==>
                  && db.inflight.value.op.source == source
                  && exists c :: Start(c, db.inflight.value.op) in actions)
  {
    hide ValidRun, After, Db;
    var ops, s := Started(actions), After(INITIAL, actions);
    InitialOrigin(ops);
    InitialInv();
    OriginRun(INITIAL, actions, ops);
    assert FromOps(Db(s, source), source, ops);
    forall op | op in ops ensures exists c :: Start(c, op) in actions {
      var k :| 0 <= k < |actions| && actions[k].Start? && actions[k].op == op;
      assert Start(actions[k].c, op) in actions;
    }
  }

  lemma {:induction false} InitialOrigin(ops: set<Op>)
    ensures Origin(INITIAL, ops)
  {
  }

  /** A marker with index `k` belongs to a run that was started on its source, and of which exactly `k`
      or `k + 1` statements have run; all of them once the ledger has been changed. It is the only
      marker of its source. */
  lemma {:induction false} MarkerIsPrecise(actions: seq<Action>, source: Source, id: nat, kind: Kind)
    returns (op: Op, d: nat)
    requires ValidRun(INITIAL, actions) && (id, kind) in Db(After(INITIAL, actions), source).markers
    ensures op.source == source && exists c :: Start(c, op) in actions
    ensures var db := Db(After(INITIAL, actions), source);
            var marker := db.markers[(id, kind)];
            && db.markers.Keys == {(id, kind)} && Executes(op)
            && op.id == id && op.kind == kind && op.name == marker.name
            && marker.index <= d <= marker.index + 1
            && RanPrefix(db, op, d)
            && (LedgerDecided(db.ledger, id, kind) ==> d == |op.sql|)
  {
    var s := After(INITIAL, actions);
    RowsComeFromRuns(actions, source);
    InflightIsPrecise(s, source, id, kind);
    op, d := Db(s, source).inflight.value.op, Db(s, source).inflight.value.done;
  }

  lemma {:induction false} InflightIsPrecise(s: State, source: Source, id: nat, kind: Kind)
    requires Reachable(s) && (id, kind) in Db(s, source).markers
    ensures var db := Db(s, source);
            var marker := db.markers[(id, kind)];
            && db.markers.Keys == {(id, kind)} && db.inflight.Some?
            && var op, d := db.inflight.value.op, db.inflight.value.done;
               && Executes(op) && op.id == id && op.kind == kind && op.name == marker.name
               && marker.index <= d <= marker.index + 1
               && RanPrefix(db, op, d)
               && (LedgerDecided(db.ledger, id, kind) ==> d == |op.sql|)
  {
    ReachableInv(s);
    var db := Db(s, source);
    assert DbInv(db) && InflightInv(db, db.inflight.value);
    var f := db.inflight.value;
    var op, d := f.op, f.done;
    if f.written {
      var init := db.log[..|db.log| - 1];
      assert op.sql[..d] == op.sql;
      assert db.ledger == if kind.Rollback? then Applied(init) - {id} else Applied(init)[id := op.name];
    }
  }

  // ---------------------------------------------------------------- interrupted runs

  /** A marker is present and no run is behind it. */
  ghost predicate Orphaned(s: State, source: Source) {
    && Db(s, source).markers != map[]
    && forall c :: c in s.active && s.active[c].op.source == source ==> !Marked(s.active[c])
  }

  /** Failing, being cancelled or losing the session after the marker leaves it behind. */
  lemma {:induction false} InterruptionOrphans(s: State, a: Action)
    requires Inv(s) && (a.Fail? || a.Cancel? || a.LoseSession?)
    requires a.c in s.active && Marked(s.active[a.c])
    ensures Orphaned(Step(s, a), s.active[a.c].op.source)
  {
    hide DbStep, NextPc;
    var run := s.active[a.c];
    var db := Db(s, run.op.source);
    assert DbInv(db) && db.inflight.Some?;
    MarkerIffInflight(db);
    assert Db(Step(s, a), run.op.source) == db;
  }

  /** No step of any run changes a row or the schema of a source with an orphaned marker. */
  lemma {:induction false} OrphanStep(s: State, a: Action, source: Source)
    requires Inv(s) && Enabled(s, a) && Orphaned(s, source)
    ensures Db(Step(s, a), source) == Db(s, source) && Orphaned(Step(s, a), source)
  {
    hide DbStep, NextPc, DbInv, RunInv;
    if a.Advance? && s.active[a.c].op.source == source {
      OrphanStatement(Db(s, source), s.active[a.c]);
    }
  }

  lemma {:induction false} OrphanStatement(db: SourceDb, run: Run)
    requires DbInv(db) && (Critical(run.pc) ==> RunInv(run, db)) && db.markers != map[] && !Marked(run)
    ensures DbStep(db, run) == db && !Marked(run.(pc := NextPc(db, run)))
  {
    MarkerIffInflight(db);
  }

  /** Once a run is interrupted with its marker in the table, nothing later in any execution changes
      the ledger, the markers or the schema of that source. */
  lemma {:induction false} OrphanBlocksForever(s: State, actions: seq<Action>, source: Source)
    requires Inv(s) && Orphaned(s, source) && ValidRun(s, actions)
    ensures Db(After(s, actions), source) == Db(s, source) && Orphaned(After(s, actions), source)
    decreases |actions|
  {
    hide Inv, Step, Enabled, Orphaned;
    if actions != [] {
      OrphanStep(s, actions[0], source);
      StepKeeps(s, actions[0]);
      OrphanBlocksForever(Step(s, actions[0]), actions[1..], source);
    }
  }

  /** A step touches the rows and the schema of its own source only, and only while its run holds
      the lock. */
  lemma {:induction false} StepTouchesOwnSource(s: State, a: Action, source: Source)
    requires Inv(s) && Enabled(s, a) && Db(Step(s, a), source) != Db(s, source)
    ensures a.Advance? && s.active[a.c].op.source == source && s.lock == Some(Hold(a.c, 1))
  {
    hide DbInv, RunInv;
  }

  // ---------------------------------------------------------------- the schema as a fold

  /** The schema after a list of statements, in any semantics `exec`. */
  ghost function RunAll<S>(exec: (S, Statement) -> S, schema: S, sql: seq<Statement>): S {
    if sql == [] then schema else exec(RunAll(exec, schema, sql[..|sql| - 1]), sql[|sql| - 1])
  }

  lemma {:induction false} RunAllConcat<S>(exec: (S, Statement) -> S, schema: S, a: seq<Statement>, b: seq<Statement>)
    ensures RunAll(exec, schema, a + b) == RunAll(exec, RunAll(exec, schema, a), b)
    decreases |b|
  {
    if b == [] {
      assert a + b == a;
    } else {
      assert (a + b)[..|a + b| - 1] == a + b[..|b| - 1];
      RunAllConcat(exec, schema, a, b[..|b| - 1]);
    }
  }

  /** Every migration was applied above all ledgered ones. */
  ghost predicate Ascending(log: seq<Op>) {
    log == [] ||
    var init, op := log[..|log| - 1], log[|log| - 1];
    Ascending(init) && (!op.kind.Rollback? ==> forall id :: id in Applied(init) ==> id < op.id)
  }

  /** The applies that no rollback has undone. */
  ghost function Stack(log: seq<Op>): seq<Op> {
    if log == [] then []
    else
      var below, op := Stack(log[..|log| - 1]), log[|log| - 1];
      if !op.kind.Rollback? then below + [op] else if below == [] then [] else below[..|below| - 1]
  }

  /** Every rollback ran SQL that leads back to the schema before the apply it undoes. */
  ghost predicate Undone<S(!new)>(exec: (S, Statement) -> S, base: S, log: seq<Op>) {
    log == [] ||
    var init, op := log[..|log| - 1], log[|log| - 1];
    && Undone(exec, base, init)
    && (op.kind.Rollback? ==>
          var stack := Stack(init);
          stack != [] ==>
            RunAll(exec, RunAll(exec, base, Executed(stack)), op.sql)
            == RunAll(exec, base, Executed(stack[..|stack| - 1])))
  }

  /** The ledgered migrations in ascending order of their ids, and nothing else. */
  ghost predicate IsLedgerInOrder(stack: seq<Op>, ledger: map<nat, string>) {
    && Applied(stack) == ledger
    && (forall a :: 0 <= a < |stack| ==> !stack[a].kind.Rollback? && stack[a].id in ledger)
    && forall a, b :: 0 <= a < b < |stack| ==> stack[a].id < stack[b].id
  }

  lemma {:induction false} AppliedKeys(stack: seq<Op>)
    requires forall a :: 0 <= a < |stack| ==> !stack[a].kind.Rollback?
    ensures forall id :: id in Applied(stack) <==> exists a :: 0 <= a < |stack| && stack[a].id == id
  {
    if stack != [] {
      var init := stack[..|stack| - 1];
      AppliedKeys(init);
      forall id | id in Applied(stack) ensures exists a :: 0 <= a < |stack| && stack[a].id == id {
        if id in Applied(init) {
          var a :| 0 <= a < |init| && init[a].id == id;
          assert stack[a].id == id;
        } else {
          assert stack[|stack| - 1].id == id;
        }
      }
      forall a | 0 <= a < |stack| ensures stack[a].id in Applied(stack) {
        if a < |init| { assert init[a].id in Applied(init); }
      }
    }
  }

  lemma {:induction false} StackIsLedger(log: seq<Op>)
    requires Legal(log) && Ascending(log)
    ensures IsLedgerInOrder(Stack(log), Applied(log))
    ensures log != [] && log[|log| - 1].kind.Rollback? ==> Stack(log[..|log| - 1]) != []
    decreases |log|
  {
    if log != [] {
      var init, op := log[..|log| - 1], log[|log| - 1];
      var below := Stack(init);
      hide IsLedgerInOrder, Ascending, Applied, Legal;
      StackIsLedger(init);
      if op.kind.Rollback? {
        PopNewest(below, Applied(init), op.id);
      } else {
        PushAbove(below, Applied(init), op);
      }
    }
  }

  lemma {:induction false} PushAbove(stack: seq<Op>, ledger: map<nat, string>, op: Op)
    requires IsLedgerInOrder(stack, ledger) && !op.kind.Rollback?
    requires forall id :: id in ledger ==> id < op.id
    ensures IsLedgerInOrder(stack + [op], ledger[op.id := op.name])
  {
    assert (stack + [op])[..|stack|] == stack;
  }

  /** The newest ledgered migration is the last of the order. */
  lemma {:induction false} PopNewest(stack: seq<Op>, ledger: map<nat, string>, id: nat)
    requires IsLedgerInOrder(stack, ledger) && L.IsNewest(ledger, id)
    ensures stack != [] && stack[|stack| - 1].id == id
    ensures IsLedgerInOrder(stack[..|stack| - 1], ledger - {id})
  {
    hide Applied;
    AppliedKeys(stack);
    var a :| 0 <= a < |stack| && stack[a].id == id;
    assert stack[|stack| - 1].id in ledger;
    PopLast(stack, ledger);
  }

  lemma {:induction false} PopLast(stack: seq<Op>, ledger: map<nat, string>)
    requires IsLedgerInOrder(stack, ledger) && stack != []
    ensures IsLedgerInOrder(stack[..|stack| - 1], ledger - {stack[|stack| - 1].id})
  {
    hide Applied;
    var init := stack[..|stack| - 1];
    AppliedKeys(init);
    PopApplied(stack);
    assert stack[|stack| - 1].id !in Applied(init);
    assert Applied(init) == ledger - {stack[|stack| - 1].id};
  }

  lemma {:induction false} PopApplied(stack: seq<Op>)
    requires stack != [] && !stack[|stack| - 1].kind.Rollback?
    ensures Applied(stack) == Applied(stack[..|stack| - 1])[stack[|stack| - 1].id := stack[|stack| - 1].name]
  {
  }

  lemma {:induction false} ExecutedFoldsToStack<S(!new)>(exec: (S, Statement) -> S, base: S, log: seq<Op>)
    requires Legal(log) && Ascending(log) && Undone(exec, base, log)
    ensures RunAll(exec, base, Executed(log)) == RunAll(exec, base, Executed(Stack(log)))
    decreases |log|
  {
    if log != [] {
      var init, op := log[..|log| - 1], log[|log| - 1];
      var sql := if Executes(op) then op.sql else [];
      ExecutedFoldsToStack(exec, base, init);
      RunAllConcat(exec, base, Executed(init), sql);
      StackIsLedger(log);
      if !op.kind.Rollback? {
        assert (Stack(init) + [op])[..|Stack(init)|] == Stack(init);
        RunAllConcat(exec, base, Executed(Stack(init)), sql);
      }
    }
  }

  /** Crash safety. In every reachable state, a source without a run marker has a live schema equal
      to the fold of its ledgered migrations in the order of their ids, in every semantics of
      statements for which the rollbacks that ran are inverses, provided that each migration was
      applied above all ledgered ones. */
  lemma {:induction false} CrashSafety<S(!new)>(s: State, source: Source, exec: (S, Statement) -> S, base: S)
    requires Reachable(s) && Db(s, source).markers == map[]
    requires Ascending(Db(s, source).log) && Undone(exec, base, Db(s, source).log)
    ensures var db := Db(s, source);
            && RunAll(exec, base, db.trace) == RunAll(exec, base, Executed(Stack(db.log)))
            && IsLedgerInOrder(Stack(db.log), db.ledger)
  {
    NoMarkerNoHalfRun(s, source);
    StackIsLedger(Db(s, source).log);
    ExecutedFoldsToStack(exec, base, Db(s, source).log);
  }

  /** At every point of the history, the applies that no rollback has undone are the ledgered
      migrations in the order of their ids. */
  ghost predicate AlwaysInOrder(log: seq<Op>) {
    && IsLedgerInOrder(Stack(log), Applied(log))
    && (log == [] || AlwaysInOrder(log[..|log| - 1]))
  }

  /** The proviso is exact: history follows the ids just when no migration was applied below one that
      was in the ledger at the time. */
  lemma {:induction false} InOrderIffAscending(log: seq<Op>)
    requires Legal(log)
    ensures AlwaysInOrder(log) <==> Ascending(log)
    decreases |log|
  {
    hide IsLedgerInOrder, Applied;
    if log == [] {
      StackIsLedger(log);
    } else {
      var init, op := log[..|log| - 1], log[|log| - 1];
      InOrderIffAscending(init);
      if Ascending(log) {
        StackIsLedger(log);
      } else if Ascending(init) {
        StackIsLedger(init);
        var id :| id in Applied(init) && !(id < op.id);
        AppliedBelowBreaksOrder(Stack(init), Applied(init), op, id);
      }
    }
  }

  lemma {:induction false} AppliedBelowBreaksOrder(stack: seq<Op>, ledger: map<nat, string>, op: Op, id: nat)
    requires IsLedgerInOrder(stack, ledger) && id in ledger && op.id <= id
    ensures forall ledger' :: !IsLedgerInOrder(stack + [op], ledger')
  {
    AppliedKeys(stack);
    var a :| 0 <= a < |stack| && stack[a].id == id;
    assert (stack + [op])[a] == stack[a] && (stack + [op])[|stack|] == op;
  }
}
