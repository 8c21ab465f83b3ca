/** The manager's loops over the MySQL backend: undisturbed, a call leads to the same ledger and the same
    executed SQL as over a transactional backend. */
module MySqlManager {
  import opened Wrappers
  import opened MySqlProtocol
  import opened MySqlCompletion
  import C = MigrationClients
  import L = TransactionalLedger
  import P = TransactionalLaws

  function ApplyOf(source: Source, m: L.Migration): Op {
    Op(Apply, source, m.id, m.name, m.sql.statements)
  }

  function RollbackOf(source: Source, m: L.Migration): Op
    requires m.rollback.Some?
  {
    Op(Rollback, source, m.id, m.name, m.rollback.value.statements)
  }

  /** No run holds the lock, the connection is free and the source has no marker. */
  ghost predicate Idle(s: State, c: Connection, source: Source) {
    s.lock == None && c !in s.active && Db(s, source).markers == map[] && Db(s, source).inflight == None
  }

  /** The rows of one source have become `db`, and nothing else has changed. */
  ghost function With(s: State, source: Source, db: SourceDb): State {
    s.(dbs := s.dbs[source := db])
  }

  lemma {:induction false} WithWith(s: State, source: Source, a: SourceDb, b: SourceDb)
    ensures With(With(s, source, a), source, b) == With(s, source, b) && Db(With(s, source, a), source) == a
  {
    assert s.dbs[source := a][source := b] == s.dbs[source := b];
  }

  // ---------------------------------------------------------------- apply

  /** The source after artifacts `n` to `k` have been applied, each by a run of its own. */
  ghost function AfterApplies(db: SourceDb, source: Source, artifacts: seq<L.Migration>, n: nat, k: nat): SourceDb
    requires n <= k <= |artifacts|
    decreases k
  {
    if n == k then db else Completed(AfterApplies(db, source, artifacts, n, k - 1), ApplyOf(source, artifacts[k - 1]))
  }

  lemma {:induction false} AppliedRows(db: SourceDb, source: Source, artifacts: seq<L.Migration>, n: nat, k: nat)
    requires n <= k <= |artifacts| && db.ledger == P.LedgerOf(artifacts, n)
    ensures var after := AfterApplies(db, source, artifacts, n, k);
            && after.ledger == P.LedgerOf(artifacts, k)
            && after.trace == db.trace + P.ForwardSql(artifacts, n, k)
            && after.markers == db.markers && after.inflight == db.inflight
    decreases k
  {
    if n < k {
      AppliedRows(db, source, artifacts, n, k - 1);
      assert db.trace + P.ForwardSql(artifacts, n, k - 1) + artifacts[k - 1].sql.statements
          == db.trace + P.ForwardSql(artifacts, n, k);
    } else {
      assert db.trace + [] == db.trace;
    }
  }

  lemma {:induction false} ApplyLoop(s: State, c: Connection, source: Source, artifacts: seq<L.Migration>, n: nat, k: nat)
    requires n < k <= |artifacts| && P.DistinctIds(artifacts) && Idle(s, c, source)
    requires Db(s, source).ledger == P.LedgerOf(artifacts, n)
    ensures Reaches(s, With(s, source, AfterApplies(Db(s, source), source, artifacts, n, k)))
    decreases k
  {
    hide P.LedgerOf, P.ForwardSql, Completed, Reaches;
    var db, op := Db(s, source), ApplyOf(source, artifacts[k - 1]);
    var before := AfterApplies(db, source, artifacts, n, k - 1);
    AppliedRows(db, source, artifacts, n, k - 1);
    P.LedgerOfNames(artifacts, k - 1);
    if n == k - 1 {
      RunsToCompletion(s, c, op);
    } else {
      ApplyLoop(s, c, source, artifacts, n, k - 1);
      WithWith(s, source, before, Completed(before, op));
      RunsToCompletion(With(s, source, before), c, op);
      ReachesOnward(s, With(s, source, before), With(s, source, Completed(before, op)));
    }
  }

  /** An apply call over MySQL that nothing disturbs can end as the transactional one does: with the same
      ledger, the same executed SQL, and neither marker nor lock. */
  lemma {:induction false} ApplyAgrees(s: State, c: Connection, source: Source, artifacts: seq<L.Migration>, n: nat)
    returns (s': State)
    requires n <= |artifacts| && P.DistinctIds(artifacts) && Idle(s, c, source)
    requires Db(s, source).ledger == P.LedgerOf(artifacts, n) && C.Acceptable(artifacts, n)
    ensures Reaches(s, s') && Idle(s', c, source)
    ensures forall other :: other != source ==> Db(s', other) == Db(s, other)
    ensures var db, db' := Db(s, source), Db(s', source);
            L.ApplyCall(L.Db(db.ledger, db.trace), artifacts, L.Execute, map[])
            == (L.Db(db'.ledger, db'.trace), Ok(L.Report(|artifacts| - n, n, 0)))
  {
    hide P.LedgerOf, P.ForwardSql, Completed, Reaches, L.ApplyCall;
    var db := Db(s, source);
    C.ApplyCompletes(L.Db(db.ledger, db.trace), artifacts, n);
    AppliedRows(db, source, artifacts, n, |artifacts|);
    if n == |artifacts| {
      s' := s;
      ReachesItself(s);
    } else {
      ApplyLoop(s, c, source, artifacts, n, |artifacts|);
      s' := With(s, source, AfterApplies(db, source, artifacts, n, |artifacts|));
    }
  }

  // ---------------------------------------------------------------- rollback

  /** The source after artifacts `k` to `n` have been rolled back, newest first. */
  ghost function AfterRollbacks(db: SourceDb, source: Source, artifacts: seq<L.Migration>, k: nat, n: nat): SourceDb
    requires k <= n <= |artifacts| && P.Reversible(artifacts, k, n)
    decreases n - k
  {
    if k == n then db else Completed(AfterRollbacks(db, source, artifacts, k + 1, n), RollbackOf(source, artifacts[k]))
  }

  lemma {:induction false} RolledBackRows(db: SourceDb, source: Source, artifacts: seq<L.Migration>, k: nat, n: nat)
    requires k <= n <= |artifacts| && P.Reversible(artifacts, k, n) && P.DistinctIds(artifacts)
    requires db.ledger == P.LedgerOf(artifacts, n)
    ensures var after := AfterRollbacks(db, source, artifacts, k, n);
            && after.ledger == P.LedgerOf(artifacts, k)
            && after.trace == db.trace + P.ReverseSql(artifacts, k, n)
            && after.markers == db.markers && after.inflight == db.inflight
    decreases n - k
  {
    hide P.ReverseSql;
    if k < n {
      RolledBackRows(db, source, artifacts, k + 1, n);
      OneRowLess(artifacts, k);
      P.ReverseSqlSplits(artifacts, k, k + 1, n);
      OneReversed(artifacts, k);
    } else {
      NothingReversed(artifacts, k);
      assert db.trace + [] == db.trace;
    }
  }

  lemma {:induction false} OneRowLess(artifacts: seq<L.Migration>, k: nat)
    requires k < |artifacts| && P.DistinctIds(artifacts)
    ensures P.LedgerOf(artifacts, k + 1) - {artifacts[k].id} == P.LedgerOf(artifacts, k)
  {
    P.LedgerOfNames(artifacts, k);
  }

  lemma {:induction false} NothingReversed(artifacts: seq<L.Migration>, k: nat)
    requires k <= |artifacts|
    ensures P.ReverseSql(artifacts, k, k) == []
  {
  }

  lemma {:induction false} OneReversed(artifacts: seq<L.Migration>, k: nat)
    requires k < |artifacts| && artifacts[k].rollback.Some?
    ensures P.ReverseSql(artifacts, k, k + 1) == artifacts[k].rollback.value.statements
  {
    NothingReversed(artifacts, k);
    assert artifacts[k].rollback.value.statements + [] == artifacts[k].rollback.value.statements;
  }

  lemma {:induction false} RollbackLoop(s: State, c: Connection, source: Source, artifacts: seq<L.Migration>, k: nat, n: nat)
    requires k < n <= |artifacts| && P.DistinctIds(artifacts) && P.Reversible(artifacts, k, n) && Idle(s, c, source)
    requires Db(s, source).ledger == P.LedgerOf(artifacts, n)
    requires forall i :: k <= i < n ==> P.Newest(artifacts, i)
    ensures Reaches(s, With(s, source, AfterRollbacks(Db(s, source), source, artifacts, k, n)))
    decreases n - k
  {
    hide P.LedgerOf, P.ReverseSql, P.Newest, Completed, Reaches, L.IsNewest;
    var db, op := Db(s, source), RollbackOf(source, artifacts[k]);
    var before := AfterRollbacks(db, source, artifacts, k + 1, n);
    RolledBackRows(db, source, artifacts, k + 1, n);
    P.LedgerOfNames(artifacts, k + 1);
    P.NewestRowIff(artifacts, k + 1);
    if k + 1 == n {
      RunsToCompletion(s, c, op);
    } else {
      RollbackLoop(s, c, source, artifacts, k + 1, n);
      WithWith(s, source, before, Completed(before, op));
      RunsToCompletion(With(s, source, before), c, op);
      ReachesOnward(s, With(s, source, before), With(s, source, Completed(before, op)));
    }
  }

  /** So can a rollback call. */
  lemma {:induction false} RollbackAgrees(s: State, c: Connection, source: Source, artifacts: seq<L.Migration>, n: nat,
                                          selection: L.Selection)
    returns (s': State)
    requires n <= |artifacts| && P.DistinctIds(artifacts) && Idle(s, c, source)
    requires Db(s, source).ledger == P.LedgerOf(artifacts, n)
    requires var floor := P.Floor(artifacts, n, selection);
             && floor.Some? && P.Reversible(artifacts, floor.value, n)
             && forall i :: floor.value <= i < n ==> P.Newest(artifacts, i)
    ensures Reaches(s, s') && Idle(s', c, source)
    ensures forall other :: other != source ==> Db(s', other) == Db(s, other)
    ensures var db, db' := Db(s, source), Db(s', source);
            L.RollbackCall(L.Db(db.ledger, db.trace), artifacts, selection, map[])
            == (L.Db(db'.ledger, db'.trace), Ok(n - P.Floor(artifacts, n, selection).value))
  {
    hide P.LedgerOf, P.ReverseSql, P.Newest, Completed, Reaches, L.RollbackCall;
    var db, lo := Db(s, source), P.Floor(artifacts, n, selection).value;
    P.RollbackUndoesSuffix(L.Db(db.ledger, db.trace), artifacts, n, selection);
    RolledBackRows(db, source, artifacts, lo, n);
    if lo == n {
      s' := s;
      ReachesItself(s);
    } else {
      RollbackLoop(s, c, source, artifacts, lo, n);
      s' := With(s, source, AfterRollbacks(db, source, artifacts, lo, n));
    }
  }
}
