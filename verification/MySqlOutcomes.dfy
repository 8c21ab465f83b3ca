/** What a run on MySQL answers: over every interleaving, and when nothing disturbs it. */
module MySqlOutcomes {
  import opened Wrappers
  import opened MySqlProtocol
  import opened MySqlSafety
  import opened MySqlCompletion
  import L = TransactionalLedger

  // ---------------------------------------------------------------- over every interleaving

  /** The ledger has this migration under this name. */
  predicate Recorded(db: SourceDb, op: Op) {
    op.id in db.ledger && db.ledger[op.id] == op.name
  }

  /** Until it has released the lock, what a run is about to answer is true: it has changed the ledger as
      the last operation of its source, or its migration is recorded under its name. */
  ghost predicate Answers(run: Run, db: SourceDb) {
    match run.pc
    case DeleteMarker => db.log != [] && db.log[|db.log| - 1] == run.op
    case Finish(outcome) =>
      && (outcome.Changed? ==>
            && !run.op.kind.Prepare? && db.log != [] && db.log[|db.log| - 1] == run.op
            && db.markers == map[] && db.inflight == None
            && if run.op.kind.Rollback? then run.op.id !in db.ledger else Recorded(db, run.op))
      && (outcome.Unchanged? ==>
            run.op.kind.Prepare? || ((run.op.kind.Apply? || run.op.kind.Record?) && Recorded(db, run.op)))
    case _ => true
  }

  ghost predicate TrueAnswers(s: State) {
    forall c :: c in s.active ==> Answers(s.active[c], Db(s, s.active[c].op.source))
  }

  lemma {:induction false} StatementAnswers(db: SourceDb, run: Run)
    requires DbInv(db) && RunInv(run, db) && Critical(run.pc) && !run.pc.Finish? && Answers(run, db)
    ensures Answers(run.(pc := NextPc(db, run)), DbStep(db, run))
  {
    hide Legal, Executed;
    if run.pc.WriteLedger? {
      LedgerWritten(db, run);
    } else if run.pc.DeleteMarker? {
      MarkerDeleted(db, run);
    }
  }

  lemma {:induction false} LedgerWritten(db: SourceDb, run: Run)
    requires DbInv(db) && RunInv(run, db) && run.pc.WriteLedger?
    ensures Answers(run.(pc := NextPc(db, run)), DbStep(db, run))
  {
    hide Legal, Executed, Applied;
    var log := db.log + [run.op];
    assert log[|log| - 1] == run.op;
  }

  lemma {:induction false} MarkerDeleted(db: SourceDb, run: Run)
    requires DbInv(db) && RunInv(run, db) && run.pc.DeleteMarker?
    ensures Answers(run.(pc := NextPc(db, run)), DbStep(db, run))
  {
    hide Legal, Executed;
    DeleteMarkerKeeps(db, run);
    assert Applied(db.log) == db.ledger;
  }

  lemma {:induction false} AnswersStep(s: State, a: Action)
    requires Inv(s) && TrueAnswers(s) && Enabled(s, a)
    ensures TrueAnswers(Step(s, a))
  {
    hide DbStep, NextPc, DbInv, RunInv, Recorded;
    var s' := Step(s, a);
    forall c | c in s'.active ensures Answers(s'.active[c], Db(s', s'.active[c].op.source)) {
      if c in s.active && Critical(s.active[c].pc) {
        assert s.lock == Some(Hold(c, 1));
      }
      if a.Advance? && a.c == c && Critical(s.active[c].pc) && !s.active[c].pc.Finish? {
        StatementAnswers(Db(s, s.active[c].op.source), s.active[c]);
      }
    }
  }

  lemma {:induction false} AnswersRun(s: State, actions: seq<Action>)
    requires Inv(s) && TrueAnswers(s) && ValidRun(s, actions)
    ensures TrueAnswers(After(s, actions))
    decreases |actions|
  {
    hide Inv, TrueAnswers, Step, Enabled;
    if actions != [] {
      StepKeeps(s, actions[0]);
      AnswersStep(s, actions[0]);
      AnswersRun(Step(s, actions[0]), actions[1..]);
    }
  }

  /** In every reachable state, a run that is about to answer "changed" is the last operation in the log of
      its source, and one that is about to answer "unchanged" found its migration recorded under its own
      name, or only read the ledger. */
  lemma {:induction false} AnswersAreTrue(s: State, c: Connection)
    requires Reachable(s) && c in s.active
    ensures Answers(s.active[c], Db(s, s.active[c].op.source))
  {
    hide Answers;
    var actions :| ValidRun(INITIAL, actions) && After(INITIAL, actions) == s;
    InitialInv();
    AnswersRun(INITIAL, actions);
  }

  // ---------------------------------------------------------------- undisturbed

  /** What a run must answer that nothing disturbs: it fails on a marker; listing changes nothing; a
      rollback changes the newest row of its own name and no other; an apply changes a ledger without its
      id, leaves one with its id and name as it is, and fails on another name. */
  predicate MustAnswer(db: SourceDb, op: Op, outcome: Outcome) {
    if db.markers != map[] then outcome.Failed?
    else
      match op.kind
      case Prepare => outcome.Unchanged?
      case Rollback =>
        if op.id in db.ledger && db.ledger[op.id] == op.name && forall id :: id in db.ledger ==> id <= op.id
        then outcome.Changed? else outcome.Failed?
      case _ =>
        if op.id !in db.ledger then outcome.Changed?
        else if db.ledger[op.id] == op.name then outcome.Unchanged? else outcome.Failed?
  }

  /** What it leaves of its source. */
  ghost predicate MustLeave(db: SourceDb, op: Op, outcome: Outcome, db': SourceDb) {
    if outcome.Changed? then
      && db'.ledger == (if op.kind.Rollback? then map id | id in db.ledger && id != op.id :: db.ledger[id]
                        else db.ledger[op.id := op.name])
      && db'.trace == db.trace + (if op.kind.Record? then [] else op.sql)
      && db'.log == db.log + [op] && db'.markers == db.markers
    else db' == db
  }

  /** The state in which the run holds the lock, is about to answer, and nothing else has changed. */
  ghost predicate AboutToAnswer(s: State, s': State, c: Connection, op: Op, outcome: Outcome) {
    && s'.active == s.active[c := Run(op, Finish(outcome))] && s'.lock == Some(Hold(c, 1))
    && (forall source :: source != op.source ==> Db(s', source) == Db(s, source))
    && MustLeave(Db(s, op.source), op, outcome, Db(s', op.source))
  }

  /** From the check of the marker on, a run inside the lock gets to this answer. */
  ghost predicate Inwards(s: State, c: Connection, op: Op, outcome: Outcome, db': SourceDb) {
    Leads(Inside(s, c, op, CheckMarker, Db(s, op.source)), c, Inside(s, c, op, Finish(outcome), db'))
  }

  lemma {:induction false} AnswersAtMarker(s: State, c: Connection, op: Op, outcome: Outcome)
    requires var db := Db(s, op.source);
             if db.markers != map[] then outcome.Failed? else op.kind.Prepare? && outcome.Unchanged?
    ensures Inwards(s, c, op, outcome, Db(s, op.source))
  {
    hide Inside, Leads, Enabled, Step;
    var db := Db(s, op.source);
    InsideStep(s, c, op, CheckMarker, db);
    LeadsToItself(Inside(s, c, op, Finish(outcome), db), c);
    LeadsAfter(Inside(s, c, op, CheckMarker, db), c, Inside(s, c, op, Finish(outcome), db));
  }

  lemma {:induction false} AnswersAtLedger(s: State, c: Connection, op: Op, outcome: Outcome)
    requires Db(s, op.source).markers == map[] && !op.kind.Prepare? && !outcome.Changed?
    requires MustAnswer(Db(s, op.source), op, outcome)
    ensures Inwards(s, c, op, outcome, Db(s, op.source))
  {
    hide Inside, Leads, Enabled, Step;
    var db := Db(s, op.source);
    var end := Inside(s, c, op, Finish(outcome), db);
    InsideStep(s, c, op, CheckMarker, db);
    InsideStep(s, c, op, CheckLedger, db);
    LeadsToItself(end, c);
    LeadsAfter(Inside(s, c, op, CheckLedger, db), c, end);
    LeadsAfter(Inside(s, c, op, CheckMarker, db), c, end);
  }

  lemma {:induction false} AnswersAfterRecord(s: State, c: Connection, op: Op)
    requires op.kind.Record? && Db(s, op.source).markers == map[] && Db(s, op.source).inflight == None
    requires op.id !in Db(s, op.source).ledger
    ensures var db := Db(s, op.source);
            Inwards(s, c, op, Changed, db.(ledger := db.ledger[op.id := op.name], log := db.log + [op]))
  {
    hide Inside, Leads, Enabled, Step;
    var db := Db(s, op.source);
    var db' := db.(ledger := db.ledger[op.id := op.name], log := db.log + [op]);
    var end := Inside(s, c, op, Finish(Changed), db');
    InsideStep(s, c, op, CheckMarker, db);
    InsideStep(s, c, op, CheckLedger, db);
    InsideStep(s, c, op, WriteLedger, db);
    LeadsToItself(end, c);
    LeadsAfter(Inside(s, c, op, WriteLedger, db), c, end);
    LeadsAfter(Inside(s, c, op, CheckLedger, db), c, end);
    LeadsAfter(Inside(s, c, op, CheckMarker, db), c, end);
  }

  lemma {:induction false} AnswersInside(s: State, c: Connection, op: Op, outcome: Outcome) returns (db': SourceDb)
    requires s.lock == None && c !in s.active && MustAnswer(Db(s, op.source), op, outcome)
    requires DbInv(Db(s, op.source))
    ensures Inwards(s, c, op, outcome, db') && MustLeave(Db(s, op.source), op, outcome, db')
  {
    hide Inwards, Legal, Executed, Applied;
    var db := Db(s, op.source);
    db' := db;
    MarkerIffInflight(db);
    if db.markers != map[] || op.kind.Prepare? {
      AnswersAtMarker(s, c, op, outcome);
    } else if !outcome.Changed? {
      AnswersAtLedger(s, c, op, outcome);
    } else if op.kind.Record? {
      AnswersAfterRecord(s, c, op);
      db' := db.(ledger := db.ledger[op.id := op.name], log := db.log + [op]);
      assert db.trace + [] == db.trace;
    } else {
      ChangedRuns(s, c, op);
      db' := Completed(db, op);
      assert op.kind.Rollback? ==> db.ledger - {op.id} == map id | id in db.ledger && id != op.id :: db.ledger[id];
    }
  }

  lemma {:induction false} ChangedRuns(s: State, c: Connection, op: Op)
    requires s.lock == None && c !in s.active && MustAnswer(Db(s, op.source), op, Changed)
    requires (op.kind.Apply? || op.kind.Rollback?) && Db(s, op.source).inflight == None
    ensures Inwards(s, c, op, Changed, Completed(Db(s, op.source), op))
  {
    hide Inside, Completed;
    assert Undisturbed(s, c, op);
    RunsInside(s, c, op);
  }

  /** A run that is started on a free lock and not disturbed comes to the point where it answers, with
      exactly this answer, and has then changed exactly this. */
  lemma {:induction false} AnswersUndisturbed(s: State, c: Connection, op: Op, outcome: Outcome) returns (s': State)
    requires Inv(s) && s.lock == None && c !in s.active && MustAnswer(Db(s, op.source), op, outcome)
    ensures Enabled(s, Start(c, op)) && Leads(Step(s, Start(c, op)), c, s') && AboutToAnswer(s, s', c, op, outcome)
  {
    hide DbInv, Step, Enabled, Leads, MustAnswer, MustLeave;
    assert DbInv(Db(s, op.source));
    var db' := AnswersInside(s, c, op, outcome);
    s' := Inside(s, c, op, Finish(outcome), db');
    GetsInside(s, c, op, s');
  }

  // ---------------------------------------------------------------- and with no other answer

  lemma {:induction false} AloneOnwards(s: State, c: Connection, n: nat, m: nat)
    ensures Alone(s, c, n + m) == Alone(Alone(s, c, n), c, m)
    decreases n
  {
    hide Enabled, Step;
    if n > 0 && Enabled(s, Advance(c)) {
      AloneOnwards(Step(s, Advance(c)), c, n - 1, m);
    } else if n > 0 {
      assert Alone(s, c, m) == s;
    }
  }

  /** After the answer the run is gone, and there are no further steps. */
  lemma {:induction false} GoneAfterAnswer(s: State, c: Connection, m: nat)
    requires c in s.active && s.active[c].pc.Finish? && m > 0
    ensures c !in Alone(s, c, m).active
  {
    assert c !in Step(s, Advance(c)).active;
    assert Alone(Step(s, Advance(c)), c, m - 1) == Step(s, Advance(c));
  }

  /** The run comes to answer only once. */
  lemma {:induction false} OneAnswer(s: State, c: Connection, a: State, b: State)
    requires Leads(s, c, a) && Leads(s, c, b)
    requires c in a.active && a.active[c].pc.Finish? && c in b.active && b.active[c].pc.Finish?
    ensures a == b
  {
    hide Enabled, Step;
    var n: nat :| Alone(s, c, n) == a;
    var m: nat :| Alone(s, c, m) == b;
    if n < m {
      AloneOnwards(s, c, n, m - n);
      GoneAfterAnswer(a, c, m - n);
    } else if m < n {
      AloneOnwards(s, c, m, n - m);
      GoneAfterAnswer(b, c, n - m);
    }
  }

  // ---------------------------------------------------------------- what becomes of the lock

  /** The run of this connection has ended, and nothing else has changed but the lock. */
  ghost predicate Ended(s: State, s': State, c: Connection) {
    s'.active == s.active - {c} && s'.dbs == s.dbs
  }

  /** A run that holds the lock, and fails, releases it before it ends; one that fails in releasing it, or is
      cancelled, leaves it to its session, and nobody else can take it; losing the session frees it. */
  lemma {:induction false} LockAfterEnd(s: State, c: Connection)
    requires Reachable(s) && c in s.active && Critical(s.active[c].pc)
    ensures s.lock == Some(Hold(c, 1))
    ensures var failed := Step(s, Fail(c));
            if s.active[c].pc.Finish? then Ended(s, failed, c) && failed.lock == s.lock
            else && failed == s.(active := s.active[c := Run(s.active[c].op, Finish(Failed))])
                 && Enabled(failed, Advance(c)) && Ended(s, Step(failed, Advance(c)), c)
                 && Step(failed, Advance(c)).lock == None
    ensures var cancelled := Step(s, Cancel(c));
            && Ended(s, cancelled, c) && cancelled.lock == s.lock
            && forall other :: other in cancelled.active && cancelled.active[other].pc.GetLock? ==>
                                 !Enabled(cancelled, Advance(other))
    ensures Ended(s, Step(s, LoseSession(c)), c) && Step(s, LoseSession(c)).lock == None
  {
    ReachableInv(s);
    hide DbInv, RunInv, Reachable;
    var op := s.active[c].op;
    assert s.active[c := Run(op, Finish(Failed))] - {c} == s.active - {c};
  }

  /** A lock that was left to a session is released by the next run on that session, before it takes it. */
  lemma {:induction false} StaleLockIsReleased(s: State, c: Connection, op: Op)
    requires Reachable(s) && c !in s.active && s.lock.Some? && s.lock.value.connection == c
    ensures var started := Step(s, Start(c, op));
            && Enabled(s, Start(c, op)) && Enabled(started, Advance(c))
            && Step(started, Advance(c)).lock == None && Step(started, Advance(c)).active[c].pc.GetLock?
  {
    ReachableInv(s);
    hide DbInv, RunInv, Reachable;
  }
}
