/** What the transactions and the calls of the transactional backends answer, on any ledger. */
module TransactionalAnswers {
  import opened Wrappers
  import opened TransactionalLedger
  import opened TransactionalLaws

  // ---------------------------------------------------------------- one transaction

  /** A statement of the transaction fails, or the ledger write that follows the last one. */
  predicate Breaks(faults: Faults, id: nat, run: seq<Statement>) {
    id in faults && faults[id] < |run| + 1
  }

  predicate HasRow(ledger: map<nat, string>, m: Migration) {
    m.id in ledger && ledger[m.id] == m.name
  }

  /** An apply transaction answers `true` exactly when the id is free and nothing fails, and then the row and
      the statements are added; `false` exactly when the row is there; it refuses a row under another
      name. Unless it answers `true` it leaves everything as it was. */
  lemma {:induction false} ApplyAnswers(d: Db, m: Migration, execute: bool, faults: Faults)
    ensures var run := if execute then m.sql.statements else [];
            var (d', r) := ApplyTx(d, m, execute, faults);
            && (r == Ok(true) <==> m.id !in d.ledger && !Breaks(faults, m.id, run))
            && (r == Ok(false) <==> HasRow(d.ledger, m))
            && (r == Err(NameMismatch(m.id)) <==> m.id in d.ledger && !HasRow(d.ledger, m))
            && (r == Err(SqlFailed(m.id)) <==> m.id !in d.ledger && Breaks(faults, m.id, run))
            && (r == Ok(true) ==> && HasRow(d'.ledger, m) && d'.ledger - {m.id} == d.ledger
                                  && d'.trace == d.trace + run)
            && (r != Ok(true) ==> d' == d)
  {
    var run := if execute then m.sql.statements else [];
    assert m.id !in d.ledger ==> d.ledger[m.id := m.name] - {m.id} == d.ledger;
    assert Breaks(faults, m.id, run) <==> m.id in faults && faults[m.id] <= |run|;
  }

  /** The row of the largest id. */
  predicate NewestRow(ledger: map<nat, string>, m: Migration) {
    HasRow(ledger, m) && forall id :: id in ledger && id != m.id ==> id < m.id
  }

  /** A rollback transaction succeeds exactly when the migration has the newest row and nothing fails, and
      then that row is gone and the statements have run; otherwise it says why and changes nothing. */
  lemma {:induction false} RollbackAnswers(d: Db, m: Migration, reverse: Script, faults: Faults)
    ensures var (d', r) := RollbackTx(d, m, reverse, faults);
            && (r.Ok? <==> NewestRow(d.ledger, m) && !Breaks(faults, m.id, reverse.statements))
            && (r == Err(NothingApplied) <==> d.ledger == map[])
            && (r == Err(OrderChanged(m.id)) <==> d.ledger != map[] && !NewestRow(d.ledger, m))
            && (r == Err(SqlFailed(m.id)) <==> NewestRow(d.ledger, m) && Breaks(faults, m.id, reverse.statements))
            && (r.Ok? ==> && m.id !in d'.ledger && d'.ledger[m.id := m.name] == d.ledger
                          && d'.trace == d.trace + reverse.statements)
            && (r.Err? ==> d' == d)
  {
    assert m.id in d.ledger ==> d.ledger != map[];
    assert NewestRow(d.ledger, m) <==> IsNewest(d.ledger, m.id) && d.ledger[m.id] == m.name;
    assert HasRow(d.ledger, m) ==> (d.ledger - {m.id})[m.id := m.name] == d.ledger;
    assert Breaks(faults, m.id, reverse.statements) <==> m.id in faults && faults[m.id] <= |reverse.statements|;
  }

  /** Rolling back what an apply has just recorded restores the ledger, if no id is larger. */
  lemma {:induction false} RollbackUndoesApply(d: Db, m: Migration, reverse: Script)
    requires forall id :: id in d.ledger ==> id < m.id
    ensures var applied := ApplyTx(d, m, true, map[]);
            var undone := RollbackTx(applied.0, m, reverse, map[]);
            && applied.1 == Ok(true) && undone.1.Ok?
            && undone.0 == Db(d.ledger, d.trace + m.sql.statements + reverse.statements)
  {
    hide ApplyTx, RollbackTx;
    ApplyAnswers(d, m, true, map[]);
    var applied := ApplyTx(d, m, true, map[]).0;
    assert forall id :: id in applied.ledger && id != m.id ==> id in applied.ledger - {m.id};
    RollbackAnswers(applied, m, reverse, map[]);
    var undone := RollbackTx(applied, m, reverse, map[]).0;
    assert m.id !in d.ledger;
    assert undone.ledger == undone.ledger[m.id := m.name] - {m.id} == d.ledger;
  }

  // ---------------------------------------------------------------- reading the ledger

  predicate BearsName(artifacts: seq<Migration>, id: nat, name: string) {
    exists k :: 0 <= k < |artifacts| && artifacts[k].id == id && artifacts[k].name == name
  }

  predicate BearsId(artifacts: seq<Migration>, id: nat) {
    exists k :: 0 <= k < |artifacts| && artifacts[k].id == id
  }

  lemma {:induction false} TrackedIff(artifacts: seq<Migration>, id: nat, name: string)
    ensures Tracked(artifacts, id, name) <==> BearsName(artifacts, id, name)
    ensures (exists m :: m in artifacts && m.id == id) <==> BearsId(artifacts, id)
  {
    if BearsName(artifacts, id, name) {
      var k :| 0 <= k < |artifacts| && artifacts[k].id == id && artifacts[k].name == name;
      assert artifacts[k] in artifacts;
    }
    if BearsId(artifacts, id) {
      var k :| 0 <= k < |artifacts| && artifacts[k].id == id;
      assert artifacts[k] in artifacts;
    }
  }

  /** A ledger is accepted exactly when every row is a migration's, under its name. Otherwise the lowest
      other row is named, as misnamed if a migration has its id and as unknown if none has. */
  lemma {:induction false} LedgerAnswers(ledger: map<nat, string>, artifacts: seq<Migration>)
    ensures var r := PrepareLedger(ledger, artifacts);
            && (r.Ok? <==> forall id :: id in ledger ==> BearsName(artifacts, id, ledger[id]))
            && (r.Ok? ==> r.value == ledger.Keys)
            && (r.Err? ==> exists id :: && id in ledger && !BearsName(artifacts, id, ledger[id])
                                        && (forall other :: other in ledger && other < id ==>
                                              BearsName(artifacts, other, ledger[other]))
                                        && r.error == if BearsId(artifacts, id) then NameMismatch(id) else UnknownId(id))
  {
    hide Tracked, BearsName, BearsId;
    forall id | id in ledger ensures Tracked(artifacts, id, ledger[id]) <==> BearsName(artifacts, id, ledger[id]) {
      TrackedIff(artifacts, id, ledger[id]);
    }
    if !LedgerTracked(ledger, artifacts) {
      var id := FirstUntrackedRow(ledger, artifacts);
      TrackedIff(artifacts, id, ledger[id]);
      assert forall other :: other in ledger && !Tracked(artifacts, other, ledger[other]) ==>
          Untracked(ledger, artifacts, other);
    }
  }

  // ---------------------------------------------------------------- a whole apply

  predicate Pending(ledger: map<nat, string>, m: Migration) { m.id !in ledger }

  /** The ledger in which the pending ones of the first `n` artifacts are recorded as well. */
  ghost function Filled(ledger: map<nat, string>, artifacts: seq<Migration>, n: nat): map<nat, string>
    requires n <= |artifacts|
  {
    if n == 0 then ledger
    else
      var m := artifacts[n - 1];
      if Pending(ledger, m) then Filled(ledger, artifacts, n - 1)[m.id := m.name] else Filled(ledger, artifacts, n - 1)
  }

  /** The SQL of the pending ones, in order. */
  ghost function PendingSql(ledger: map<nat, string>, artifacts: seq<Migration>, n: nat): seq<Statement>
    requires n <= |artifacts|
  {
    if n == 0 then []
    else
      PendingSql(ledger, artifacts, n - 1)
      + if Pending(ledger, artifacts[n - 1]) then artifacts[n - 1].sql.statements else []
  }

  ghost function PendingCount(ledger: map<nat, string>, artifacts: seq<Migration>, n: nat): (r: nat)
    requires n <= |artifacts|
    ensures r <= n
  {
    if n == 0 then 0
    else PendingCount(ledger, artifacts, n - 1) + if Pending(ledger, artifacts[n - 1]) then 1 else 0
  }

  predicate Halts(ledger: map<nat, string>, m: Migration, faults: Faults) {
    Pending(ledger, m) && (!m.sql.accepted || Breaks(faults, m.id, m.sql.statements))
  }

  /** The first artifact that stops an apply, or the end of the list. */
  predicate StopsAt(ledger: map<nat, string>, artifacts: seq<Migration>, faults: Faults, stop: nat) {
    && stop <= |artifacts|
    && (forall k :: 0 <= k < stop ==> !Halts(ledger, artifacts[k], faults))
    && (stop < |artifacts| ==> Halts(ledger, artifacts[stop], faults))
  }

  /** The first `n` artifacts have been dealt with. */
  ghost function Progress(base: Db, artifacts: seq<Migration>, n: nat): Db
    requires n <= |artifacts|
  {
    Db(Filled(base.ledger, artifacts, n), base.trace + PendingSql(base.ledger, artifacts, n))
  }

  /** What a call reports that has dealt with the first `n` artifacts. */
  ghost predicate Reports(report: Report, base: Db, artifacts: seq<Migration>, n: nat, adopted: nat)
    requires n <= |artifacts|
  {
    && report.adopted == adopted && report.applied == PendingCount(base.ledger, artifacts, n)
    && report.applied + report.skipped + report.adopted == n
  }

  /** A call has gone as far as `stop`. */
  ghost predicate EndsAt(base: Db, r: (Db, Result<Report, Error>), artifacts: seq<Migration>, stop: nat, adopted: nat)
    requires stop <= |artifacts|
  {
    && r.0 == Progress(base, artifacts, stop)
    && if stop == |artifacts| then r.1.Ok? && Reports(r.1.value, base, artifacts, stop, adopted)
       else r.1 == Err(if artifacts[stop].sql.accepted then SqlFailed(artifacts[stop].id)
                       else ForbiddenSql(artifacts[stop].id))
  }

  ghost predicate Known(base: Db, artifacts: seq<Migration>, n: nat, known: set<nat>)
    requires n <= |artifacts|
  {
    forall id :: id in known <==> id in base.ledger || exists k :: 0 <= k < n && artifacts[k].id == id
  }

  lemma {:induction false} FilledRows(base: Db, artifacts: seq<Migration>, n: nat)
    requires n <= |artifacts|
    ensures Known(base, artifacts, n, Filled(base.ledger, artifacts, n).Keys)
  {
    if n > 0 { FilledRows(base, artifacts, n - 1); }
  }

  /** The rows that were there stay; the others are those of the pending artifacts. */
  lemma {:induction false} FilledIs(ledger: map<nat, string>, artifacts: seq<Migration>, n: nat)
    requires n <= |artifacts| && DistinctIds(artifacts)
    ensures var filled := Filled(ledger, artifacts, n);
            && (forall id :: id in ledger ==> id in filled && filled[id] == ledger[id])
            && (forall k :: 0 <= k < n && Pending(ledger, artifacts[k]) ==> HasRow(filled, artifacts[k]))
            && forall id :: id in filled ==> id in ledger || exists k :: 0 <= k < n && artifacts[k].id == id
  {
    if n > 0 { FilledIs(ledger, artifacts, n - 1); }
  }

  ghost predicate Looping(base: Db, d: Db, artifacts: seq<Migration>, known: set<nat>, adopted: Option<nat>, i: nat,
                          report: Report)
  {
    && i <= |artifacts| && DistinctIds(artifacts)
    && d == Progress(base, artifacts, i) && Known(base, artifacts, i, known)
    && (adopted.Some? ==> i > 0 && adopted.value == artifacts[0].id)
    && Reports(report, base, artifacts, i, if adopted.Some? then 1 else 0)
  }

  lemma {:induction false} LoopAnswers(base: Db, d: Db, artifacts: seq<Migration>, known: set<nat>,
                                       adopted: Option<nat>, i: nat, report: Report, faults: Faults, stop: nat)
    requires Looping(base, d, artifacts, known, adopted, i, report)
    requires i <= stop && StopsAt(base.ledger, artifacts, faults, stop)
    ensures EndsAt(base, ApplyFrom(d, artifacts, known, adopted, i, report, faults), artifacts, stop,
                   if adopted.Some? then 1 else 0)
    decreases |artifacts| - i
  {
    hide ApplyTx, Breaks, Known, Progress, Reports, DistinctIds;
    if i < |artifacts| {
      var m := artifacts[i];
      KnownIffPresent(base, d, artifacts, known, adopted, i, report);
      if m.id in known {
        OneMoreSkipped(base, d, artifacts, known, adopted, i, report);
        LoopAnswers(base, d, artifacts, known, adopted, i + 1, report.(skipped := report.skipped + 1), faults, stop);
      } else if m.sql.accepted {
        ApplyAnswers(d, m, true, faults);
        if !Breaks(faults, m.id, m.sql.statements) {
          OneMoreApplied(base, d, artifacts, known, adopted, i, report, faults);
          LoopAnswers(base, ApplyTx(d, m, true, faults).0, artifacts, known + {m.id}, adopted, i + 1,
                      report.(applied := report.applied + 1), faults, stop);
        }
      }
    }
  }

  lemma {:induction false} KnownIffPresent(base: Db, d: Db, artifacts: seq<Migration>, known: set<nat>,
                                           adopted: Option<nat>, i: nat, report: Report)
    requires Looping(base, d, artifacts, known, adopted, i, report) && i < |artifacts|
    ensures var m := artifacts[i];
            && adopted != Some(m.id) && (m.id in known <==> !Pending(base.ledger, m))
            && (m.id in d.ledger <==> m.id in known)
  {
    FilledRows(base, artifacts, i);
  }

  lemma {:induction false} OneMoreSkipped(base: Db, d: Db, artifacts: seq<Migration>, known: set<nat>,
                                          adopted: Option<nat>, i: nat, report: Report)
    requires Looping(base, d, artifacts, known, adopted, i, report) && i < |artifacts|
    requires !Pending(base.ledger, artifacts[i])
    ensures Looping(base, d, artifacts, known, adopted, i + 1, report.(skipped := report.skipped + 1))
  {
    assert base.trace + (PendingSql(base.ledger, artifacts, i) + []) == base.trace + PendingSql(base.ledger, artifacts, i);
  }

  lemma {:induction false} OneMoreApplied(base: Db, d: Db, artifacts: seq<Migration>, known: set<nat>,
                                          adopted: Option<nat>, i: nat, report: Report, faults: Faults)
    requires Looping(base, d, artifacts, known, adopted, i, report) && i < |artifacts|
    requires ApplyTx(d, artifacts[i], true, faults).1 == Ok(true) && Pending(base.ledger, artifacts[i])
    ensures Looping(base, ApplyTx(d, artifacts[i], true, faults).0, artifacts, known + {artifacts[i].id}, adopted,
                    i + 1, report.(applied := report.applied + 1))
  {
    var m := artifacts[i];
    assert base.trace + PendingSql(base.ledger, artifacts, i) + m.sql.statements
        == base.trace + (PendingSql(base.ledger, artifacts, i) + m.sql.statements);
  }

  /** On any accepted ledger, gaps included, an executing apply deals with the list up to the first
      pending migration whose SQL is refused or fails: the pending ones before it are executed and
      recorded in order, and none after it. */
  lemma {:induction false} ApplyFillsGaps(d: Db, artifacts: seq<Migration>, faults: Faults, stop: nat)
    requires DistinctIds(artifacts) && StopsAt(d.ledger, artifacts, faults, stop)
    requires forall id :: id in d.ledger ==> BearsName(artifacts, id, d.ledger[id])
    ensures EndsAt(d, ApplyCall(d, artifacts, Execute, faults), artifacts, stop, 0)
  {
    hide ApplyFrom, StopsAt, EndsAt, DistinctIds, BearsName;
    LedgerAnswers(d.ledger, artifacts);
    assert d.trace + [] == d.trace;
    LoopAnswers(d, d, artifacts, d.ledger.Keys, None, 0, Report(0, 0, 0), faults, stop);
  }

  /** An adoption needs an empty ledger and a first migration. It records that one without its SQL, and
      then goes on as an apply does. */
  lemma {:induction false} AdoptionAnswers(d: Db, artifacts: seq<Migration>, faults: Faults, stop: nat)
    requires DistinctIds(artifacts)
    requires forall id :: id in d.ledger ==> BearsName(artifacts, id, d.ledger[id])
    ensures var r := ApplyCall(d, artifacts, AdoptBaseline, faults);
            if d.ledger != map[] then r == (d, Err(NotEmptyForAdoption))
            else if artifacts == [] then r == (d, Err(NoMigrations))
            else if Breaks(faults, artifacts[0].id, []) then r == (d, Err(SqlFailed(artifacts[0].id)))
            else
              var first := Db(map[artifacts[0].id := artifacts[0].name], d.trace);
              StopsAt(first.ledger, artifacts, faults, stop) ==> EndsAt(first, r, artifacts, stop, 1)
  {
    hide ApplyFrom, StopsAt, EndsAt, DistinctIds, BearsName, Breaks;
    LedgerAnswers(d.ledger, artifacts);
    if d.ledger == map[] && artifacts != [] {
      var m := artifacts[0];
      ApplyAnswers(d, m, false, faults);
      var first := Db(map[m.id := m.name], d.trace);
      if !Breaks(faults, m.id, []) && StopsAt(first.ledger, artifacts, faults, stop) {
        assert d.ledger[m.id := m.name] == first.ledger && d.trace + [] == d.trace;
        assert ApplyTx(d, m, false, faults) == (first, Ok(true));
        AdoptionLoops(d, artifacts, faults, stop);
      }
    }
  }

  lemma {:induction false} AdoptionLoops(d: Db, artifacts: seq<Migration>, faults: Faults, stop: nat)
    requires DistinctIds(artifacts) && artifacts != []
    requires StopsAt(map[artifacts[0].id := artifacts[0].name], artifacts, faults, stop)
    ensures var first := Db(map[artifacts[0].id := artifacts[0].name], d.trace);
            EndsAt(first, ApplyFrom(first, artifacts, {artifacts[0].id}, Some(artifacts[0].id), 0, Report(0, 0, 1), faults),
                   artifacts, stop, 1)
  {
    var m := artifacts[0];
    var first := Db(map[m.id := m.name], d.trace);
    var known, report := {m.id}, Report(0, 0, 1);
    assert stop > 0;
    assert Looping(first, first, artifacts, known, Some(m.id), 1, report) by {
      assert first.trace + [] == first.trace;
      assert Filled(first.ledger, artifacts, 0) == first.ledger;
      assert PendingSql(first.ledger, artifacts, 1) == PendingSql(first.ledger, artifacts, 0) + [];
      assert PendingCount(first.ledger, artifacts, 1) == PendingCount(first.ledger, artifacts, 0);
    }
    LoopAnswers(first, first, artifacts, known, Some(m.id), 1, report, faults, stop);
  }

  /** A row that is no migration's stops every call before anything changes. */
  lemma {:induction false} UntrackedStopsCalls(d: Db, artifacts: seq<Migration>, mode: Mode, selection: Selection,
                                               faults: Faults)
    requires exists id :: id in d.ledger && !BearsName(artifacts, id, d.ledger[id])
    ensures var e := PrepareLedger(d.ledger, artifacts);
            && e.Err? && ApplyCall(d, artifacts, mode, faults) == (d, Err(e.error))
            && RollbackCall(d, artifacts, selection, faults) == (d, Err(e.error))
  {
    LedgerAnswers(d.ledger, artifacts);
  }

  /** A recorded migration behind a pending one stops every rollback before anything changes. */
  lemma {:induction false} GapStopsRollback(d: Db, artifacts: seq<Migration>, i: nat, j: nat, selection: Selection,
                                            faults: Faults)
    requires i < j < |artifacts| && artifacts[i].id !in d.ledger && artifacts[j].id in d.ledger
    requires forall id :: id in d.ledger ==> BearsName(artifacts, id, d.ledger[id])
    ensures RollbackCall(d, artifacts, selection, faults) == (d, Err(LineageGap))
  {
    hide BearsName, Collect, SelectRollbackIds, RollbackAll;
    LedgerAnswers(d.ledger, artifacts);
    var ids := Ids(artifacts);
    assert ids[i] !in d.ledger.Keys && ids[j] in d.ledger.Keys;
    assert forall n: nat :: IsCut(ids, d.ledger.Keys, n) ==> !(i < n) && !(n <= j);
  }
}
