/** A MySQL run that nobody disturbs goes through and leaves nothing but its effect. */
module MySqlCompletion {
  import opened Wrappers
  import opened MySqlProtocol
  import opened MySqlSafety

  ghost predicate Reaches(s: State, s': State) {
    exists actions :: ValidRun(s, actions) && After(s, actions) == s'
  }

  lemma {:induction false} ReachesItself(s: State)
    ensures Reaches(s, s)
  {
    assert ValidRun(s, []) && After(s, []) == s;
  }

  lemma {:induction false} ReachesAfter(s: State, a: Action, s': State)
    requires Enabled(s, a) && Reaches(Step(s, a), s')
    ensures Reaches(s, s')
  {
    hide Enabled, Step;
    var actions :| ValidRun(Step(s, a), actions) && After(Step(s, a), actions) == s';
    var all := [a] + actions;
    assert all[0] == a && all[1..] == actions;
    assert ValidRun(s, all) && After(s, all) == s';
  }

  /** The state after connection `c` has carried out up to `n` statements while nobody else does anything. */
  ghost function Alone(s: State, c: Connection, n: nat): State
    decreases n
  {
    if n == 0 || !Enabled(s, Advance(c)) then s else Alone(Step(s, Advance(c)), c, n - 1)
  }

  ghost predicate Leads(s: State, c: Connection, s': State) {
    exists n: nat :: Alone(s, c, n) == s'
  }

  lemma {:induction false} LeadsToItself(s: State, c: Connection)
    ensures Leads(s, c, s)
  {
    assert Alone(s, c, 0) == s;
  }

  lemma {:induction false} LeadsAfter(s: State, c: Connection, s': State)
    requires Enabled(s, Advance(c)) && Leads(Step(s, Advance(c)), c, s')
    ensures Leads(s, c, s')
  {
    hide Enabled, Step;
    var n: nat :| Alone(Step(s, Advance(c)), c, n) == s';
    assert Alone(s, c, n + 1) == s';
  }

  lemma {:induction false} AloneReaches(s: State, c: Connection, n: nat)
    ensures Reaches(s, Alone(s, c, n))
    decreases n
  {
    hide Enabled, Step, Reaches;
    if n > 0 && Enabled(s, Advance(c)) {
      AloneReaches(Step(s, Advance(c)), c, n - 1);
      ReachesAfter(s, Advance(c), Alone(s, c, n));
    } else {
      ReachesItself(s);
    }
  }

  lemma {:induction false} LeadsReaches(s: State, c: Connection, s': State)
    requires Leads(s, c, s')
    ensures Reaches(s, s')
  {
    hide Enabled, Step, Reaches;
    var n: nat :| Alone(s, c, n) == s';
    AloneReaches(s, c, n);
  }

  /** The state `s` with connection `c` at `pc` of its run inside the lock, and its source as `db`. */
  ghost function Inside(s: State, c: Connection, op: Op, pc: Pc, db: SourceDb): State {
    State(s.dbs[op.source := db], Some(Hold(c, 1)), s.active[c := Run(op, pc)])
  }

  /** The source while the first `k` statements of the run have been executed. */
  ghost function Underway(db: SourceDb, op: Op, k: nat): SourceDb
    requires k <= |op.sql|
  {
    var index := if k == 0 then 0 else k - 1;
    db.(markers := map[(op.id, op.kind) := Marker(op.name, index)],
        trace := db.trace + op.sql[..k],
        inflight := Some(Inflight(op, index, k, false)))
  }

  /** The source after the run. */
  ghost function Completed(db: SourceDb, op: Op): SourceDb {
    db.(trace := db.trace + op.sql,
        ledger := if op.kind.Rollback? then db.ledger - {op.id} else db.ledger[op.id := op.name],
        log := db.log + [op])
  }

  ghost predicate Undisturbed(s: State, c: Connection, op: Op) {
    && s.lock == None && c !in s.active && Executes(op)
    && Db(s, op.source).markers == map[] && Db(s, op.source).inflight == None
    && Allowed(Db(s, op.source).ledger, op)
  }

  lemma {:induction false} InsideStep(s: State, c: Connection, op: Op, pc: Pc, db: SourceDb)
    requires Critical(pc) && !pc.Finish?
    ensures Enabled(Inside(s, c, op, pc, db), Advance(c))
    ensures Step(Inside(s, c, op, pc, db), Advance(c))
         == Inside(s, c, op, NextPc(db, Run(op, pc)), DbStep(db, Run(op, pc)))
  {
    hide DbStep, NextPc;
    var before := Inside(s, c, op, pc, db);
    assert Db(before, op.source) == db && before.active[c] == Run(op, pc);
    var db' := DbStep(db, Run(op, pc));
    assert s.dbs[op.source := db][op.source := db'] == s.dbs[op.source := db'];
    var run' := Run(op, NextPc(db, Run(op, pc)));
    assert s.active[c := Run(op, pc)][c := run'] == s.active[c := run'];
  }

  lemma {:induction false} OneStatement(s: State, c: Connection, op: Op, db: SourceDb, k: nat)
    requires k < |op.sql|
    ensures var before := Inside(s, c, op, UpdateProgress(k), Underway(db, op, k));
            && Enabled(before, Advance(c))
            && Enabled(Step(before, Advance(c)), Advance(c))
            && Step(Step(before, Advance(c)), Advance(c))
               == Inside(s, c, op, AfterStatements(op, k + 1), Underway(db, op, k + 1))
  {
    hide Inside, Step, Enabled;
    var key := (op.id, op.kind);
    var middle := Underway(db, op, k).(markers := map[key := Marker(op.name, k)],
                                       inflight := Some(Inflight(op, k, k, false)));
    assert map[key := Marker(op.name, if k == 0 then 0 else k - 1)][key := Marker(op.name, k)]
        == map[key := Marker(op.name, k)];
    InsideStep(s, c, op, UpdateProgress(k), Underway(db, op, k));
    assert op.sql[..k] + [op.sql[k]] == op.sql[..k + 1];
    assert db.trace + op.sql[..k] + [op.sql[k]] == db.trace + op.sql[..k + 1];
    InsideStep(s, c, op, Execute(k), middle);
  }

  lemma {:induction false} StatementsGoThrough(s: State, c: Connection, op: Op, db: SourceDb, k: nat, end: State)
    requires k <= |op.sql|
    requires Leads(Inside(s, c, op, WriteLedger, Underway(db, op, |op.sql|)), c, end)
    ensures Leads(Inside(s, c, op, AfterStatements(op, k), Underway(db, op, k)), c, end)
    decreases |op.sql| - k
  {
    hide Inside, Underway, Step, Enabled, Leads;
    if k < |op.sql| {
      StatementsGoThrough(s, c, op, db, k + 1, end);
      OneStatement(s, c, op, db, k);
      var before := Inside(s, c, op, UpdateProgress(k), Underway(db, op, k));
      LeadsAfter(Step(before, Advance(c)), c, end);
      LeadsAfter(before, c, end);
    }
  }

  lemma {:induction false} LedgerThenMarker(s: State, c: Connection, op: Op)
    requires Undisturbed(s, c, op)
    ensures var db := Db(s, op.source);
            Leads(Inside(s, c, op, WriteLedger, Underway(db, op, |op.sql|)), c,
                  Inside(s, c, op, Finish(Changed), Completed(db, op)))
  {
    hide Inside, Step, Leads, Enabled;
    var db, key, n := Db(s, op.source), (op.id, op.kind), |op.sql|;
    assert op.sql[..n] == op.sql;
    var full := Underway(db, op, n);
    var written := Completed(db, op).(markers := full.markers,
                                      inflight := Some(full.inflight.value.(written := true)));
    InsideStep(s, c, op, WriteLedger, full);
    assert written.markers - {key} == map[];
    InsideStep(s, c, op, DeleteMarker, written);
    var end := Inside(s, c, op, Finish(Changed), Completed(db, op));
    LeadsToItself(end, c);
    LeadsAfter(Inside(s, c, op, DeleteMarker, written), c, end);
    LeadsAfter(Inside(s, c, op, WriteLedger, full), c, end);
  }

  lemma {:induction false} Leaves(s: State, c: Connection, op: Op, db: SourceDb, end: State)
    requires s.lock == None && c !in s.active && end == s.(dbs := s.dbs[op.source := db])
    ensures Reaches(Inside(s, c, op, Finish(Changed), db), end)
  {
    hide Reaches;
    var last := Inside(s, c, op, Finish(Changed), db);
    assert last.active - {c} == s.active;
    assert Step(last, Advance(c)) == end;
    ReachesItself(end);
    ReachesAfter(last, Advance(c), end);
  }

  lemma {:induction false} EntersLock(s: State, c: Connection, op: Op)
    requires s.lock == None && c !in s.active
    ensures var a := Advance(c);
            var s1 := Step(s, Start(c, op));
            && Enabled(s, Start(c, op)) && Enabled(s1, a) && Enabled(Step(s1, a), a)
            && Step(Step(s1, a), a) == s.(lock := Some(Hold(c, 1)), active := s.active[c := Run(op, CreateTables)])
  {
    var s2 := s.(active := s.active[c := Run(op, GetLock)]);
    assert Step(Step(s, Start(c, op)), Advance(c)) == s2;
    assert s2.active[c := Run(op, CreateTables)] == s.active[c := Run(op, CreateTables)];
  }

  lemma {:induction false} CreatesTables(s: State, c: Connection, op: Op)
    requires s.lock == None && c !in s.active
    ensures var s0 := s.(lock := Some(Hold(c, 1)), active := s.active[c := Run(op, CreateTables)]);
            && Enabled(s0, Advance(c))
            && Step(s0, Advance(c)) == Inside(s, c, op, CheckMarker, Db(s, op.source))
  {
    assert s.active[c := Run(op, CreateTables)][c := Run(op, CheckMarker)] == s.active[c := Run(op, CheckMarker)];
  }

  lemma {:induction false} ChecksPass(s: State, c: Connection, op: Op)
    requires Undisturbed(s, c, op)
    ensures var a, db := Advance(c), Db(s, op.source);
            && Step(Inside(s, c, op, CheckMarker, db), a) == Inside(s, c, op, CheckLedger, db)
            && Step(Inside(s, c, op, CheckLedger, db), a) == Inside(s, c, op, InsertMarker, db)
            && Step(Inside(s, c, op, InsertMarker, db), a)
               == Inside(s, c, op, AfterStatements(op, 0), Underway(db, op, 0))
  {
    hide Inside, Step;
    var db := Db(s, op.source);
    assert db.trace + op.sql[..0] == db.trace;
    assert map[][(op.id, op.kind) := Marker(op.name, 0)] == map[(op.id, op.kind) := Marker(op.name, 0)];
    InsideStep(s, c, op, CheckMarker, db);
    InsideStep(s, c, op, CheckLedger, db);
    InsideStep(s, c, op, InsertMarker, db);
  }

  lemma {:induction false} InsideAdvances(s: State, c: Connection, op: Op, pc: Pc, db: SourceDb)
    ensures Enabled(Inside(s, c, op, pc, db), Advance(c))
  {
  }

  /** From its start to its check of the marker, a run changes nothing but the lock. */
  lemma {:induction false} GetsInside(s: State, c: Connection, op: Op, end: State)
    requires s.lock == None && c !in s.active
    requires Leads(Inside(s, c, op, CheckMarker, Db(s, op.source)), c, end)
    ensures Enabled(s, Start(c, op)) && Leads(Step(s, Start(c, op)), c, end)
  {
    hide Inside, Step, Leads, Enabled;
    var a := Advance(c);
    var s0 := s.(lock := Some(Hold(c, 1)), active := s.active[c := Run(op, CreateTables)]);
    CreatesTables(s, c, op);
    LeadsAfter(s0, c, end);
    EntersLock(s, c, op);
    var s1 := Step(s, Start(c, op));
    LeadsAfter(Step(s1, a), c, end);
    LeadsAfter(s1, c, end);
  }

  lemma {:induction false} RunsInside(s: State, c: Connection, op: Op)
    requires Undisturbed(s, c, op)
    ensures var db := Db(s, op.source);
            Leads(Inside(s, c, op, CheckMarker, db), c, Inside(s, c, op, Finish(Changed), Completed(db, op)))
  {
    hide Inside, Underway, Completed, Step, Leads, Undisturbed, Enabled;
    var db := Db(s, op.source);
    var end := Inside(s, c, op, Finish(Changed), Completed(db, op));
    LedgerThenMarker(s, c, op);
    StatementsGoThrough(s, c, op, db, 0, end);
    ChecksPass(s, c, op);
    InsideAdvances(s, c, op, InsertMarker, db);
    LeadsAfter(Inside(s, c, op, InsertMarker, db), c, end);
    InsideAdvances(s, c, op, CheckLedger, db);
    LeadsAfter(Inside(s, c, op, CheckLedger, db), c, end);
    InsideAdvances(s, c, op, CheckMarker, db);
    LeadsAfter(Inside(s, c, op, CheckMarker, db), c, end);
  }

  /** An apply or rollback that the ledger allows, on a free lock and a source without a marker, can run
      to its end; then its statements have run in order, the ledger has changed accordingly, and
      marker, lock and run are gone. */
  lemma {:induction false} RunsToCompletion(s: State, c: Connection, op: Op)
    requires Undisturbed(s, c, op)
    ensures Reaches(s, s.(dbs := s.dbs[op.source := Completed(Db(s, op.source), op)]))
  {
    hide Inside, Completed, Step, Reaches, Leads, Enabled;
    var db := Db(s, op.source);
    var end := s.(dbs := s.dbs[op.source := Completed(db, op)]);
    var last := Inside(s, c, op, Finish(Changed), Completed(db, op));
    RunsInside(s, c, op);
    GetsInside(s, c, op, last);
    LeadsReaches(Step(s, Start(c, op)), c, last);
    Leaves(s, c, op, Completed(db, op), end);
    ReachesOnward(Step(s, Start(c, op)), last, end);
    ReachesAfter(s, Start(c, op), end);
  }

  // ---------------------------------------------------------------- applies out of order

  lemma {:induction false} ReachesOnward(s: State, middle: State, s': State)
    requires Reaches(s, middle) && Reaches(middle, s')
    ensures Reaches(s, s')
  {
    var actions :| ValidRun(s, actions) && After(s, actions) == middle;
    FollowedBy(s, actions, s');
  }

  lemma {:induction false} FollowedBy(s: State, actions: seq<Action>, s': State)
    requires ValidRun(s, actions) && Reaches(After(s, actions), s')
    ensures Reaches(s, s')
    decreases |actions|
  {
    hide Enabled, Step, Reaches;
    if actions != [] {
      FollowedBy(Step(s, actions[0]), actions[1..], s');
      ReachesAfter(s, actions[0], s');
    }
  }

  /** The state in which one source holds these rows and nothing runs. */
  ghost function Resting(source: Source, db: SourceDb): State {
    State(map[source := db], None, map[])
  }

  /** From a resting state any allowed apply can run to its end. */
  lemma {:induction false} RestingApplies(source: Source, db: SourceDb, op: Op)
    requires op.kind.Apply? && op.source == source && op.id !in db.ledger && db.markers == map[] && db.inflight == None
    ensures Reaches(Resting(source, db), Resting(source, Completed(db, op)))
  {
    hide Reaches, Completed;
    var s := Resting(source, db);
    assert Db(s, source) == db;
    RunsToCompletion(s, 0, op);
    assert s.dbs[source := Completed(db, op)] == map[source := Completed(db, op)];
  }

  lemma {:induction false} FirstApply(op: Op)
    requires op.kind.Apply?
    ensures Reaches(INITIAL, Resting(op.source, Completed(EMPTY_DB, op)))
  {
    hide Reaches, Completed;
    assert Db(INITIAL, op.source) == EMPTY_DB;
    RunsToCompletion(INITIAL, 0, op);
    assert INITIAL.dbs[op.source := Completed(EMPTY_DB, op)] == map[op.source := Completed(EMPTY_DB, op)];
  }

  /** Two migrations can be applied in either order of their ids. */
  lemma {:induction false} EitherOrder(x: Op, y: Op) returns (s: State)
    requires x.kind.Apply? && y.kind.Apply? && x.source == y.source && x.id != y.id
    ensures Reachable(s) && s == Resting(x.source, Completed(Completed(EMPTY_DB, x), y))
  {
    hide Resting;
    FirstApply(x);
    RestingApplies(x.source, Completed(EMPTY_DB, x), y);
    s := Resting(x.source, Completed(Completed(EMPTY_DB, x), y));
    ReachesOnward(INITIAL, Resting(x.source, Completed(EMPTY_DB, x)), s);
  }

  lemma {:induction false} AfterTwoApplies(x: Op, y: Op)
    ensures Completed(Completed(EMPTY_DB, x), y).log == [x, y]
    ensures Completed(Completed(EMPTY_DB, x), y).trace == x.sql + y.sql
    ensures Completed(Completed(EMPTY_DB, x), y).markers == map[]
    ensures x.kind.Apply? && y.kind.Apply? ==>
              Completed(Completed(EMPTY_DB, x), y).ledger == map[x.id := x.name][y.id := y.name]
  {
    assert EMPTY_DB.log + [x] == [x] && EMPTY_DB.trace + x.sql == x.sql;
    assert EMPTY_DB.ledger[x.id := x.name] == map[x.id := x.name];
  }

  /** The proviso of crash safety is needed: an apply below a ledgered migration is allowed, and after
      it the statements have run in another order than that of the ids. */
  lemma {:induction false} OutOfOrderApply(first: Op, second: Op) returns (s: State)
    requires first == Op(Apply, "s", 1, "one", ["a"]) && second == Op(Apply, "s", 2, "two", ["b"])
    ensures Reachable(s) && Db(s, "s").markers == map[]
    ensures Db(s, "s").log == [second, first] && !Ascending([second, first])
    ensures Db(s, "s").trace == ["b", "a"] && Executed([first, second]) == ["a", "b"]
    ensures IsLedgerInOrder([first, second], Db(s, "s").ledger)
  {
    hide Reachable, Completed;
    s := EitherOrder(second, first);
    AfterTwoApplies(second, first);
    TwoApplies(second, first);
    TwoApplies(first, second);
    assert 2 in Applied([second]);
    assert map[2 := "two"][1 := "one"] == map[1 := "one"][2 := "two"];
  }

  lemma {:induction false} TwoApplies(x: Op, y: Op)
    requires x.kind.Apply? && y.kind.Apply?
    ensures [x, y][..1] == [x] && Applied([x]) == map[x.id := x.name]
    ensures Applied([x, y]) == map[x.id := x.name][y.id := y.name]
    ensures Executed([x, y]) == x.sql + y.sql
    ensures x.id != y.id ==> Legal([x, y])
  {
    var none: seq<Op> := [];
    assert [x, y][..1] == [x] && [x][..0] == none;
    assert Applied(none) == map[] && Executed(none) == [] && Legal(none);
    assert Applied([x]) == Applied(none)[x.id := x.name];
    assert Executed([x]) == Executed(none) + x.sql == x.sql;
    assert Legal([x]);
  }
}
