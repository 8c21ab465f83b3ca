/** The SQL policy over the whole way: what generation has written, applying and rolling back never refuse;
    what has been changed on disk since, they do. */
module PolicyLaws {
  import opened Wrappers
  import opened TransactionalLedger
  import opened TransactionalLaws
  import opened TransactionalAnswers
  import A = ArtifactStore
  import W = ArtifactLaws
  import N = ArtifactAnswers
  import G = Lineage
  import T = MigrationNames

  /** Every script is accepted, in both directions. */
  ghost predicate Clean(artifacts: seq<Migration>) {
    forall k :: 0 <= k < |artifacts| ==>
      artifacts[k].sql.accepted && artifacts[k].rollback.Some? && artifacts[k].rollback.value.accepted
  }

  lemma {:induction false} AcceptedIsClean(toasty: G.Toasty, files: seq<A.Owned>)
    requires N.AllAccepted(files)
    ensures Clean(G.Migrations(toasty, files))
  {
    hide T.ValidSql;
    forall k | 0 <= k < |files| ensures T.ValidSql(files[k].sql) && files[k].rollback.Some? && T.ValidSql(files[k].rollback.value) {
      assert N.Accepted(files[k]);
    }
  }

  /** The call does not end in a refusal of SQL. */
  predicate NotForbidden<X>(r: Result<X, Error>) {
    r.Err? ==> !r.error.ForbiddenSql? && !r.error.MissingRollbackSql?
  }

  lemma {:induction false} LoopNotForbidden(d: Db, artifacts: seq<Migration>, known: set<nat>, adopted: Option<nat>,
                                            i: nat, report: Report, faults: Faults)
    requires i <= |artifacts| && Clean(artifacts)
    ensures NotForbidden(ApplyFrom(d, artifacts, known, adopted, i, report, faults).1)
    decreases |artifacts| - i
  {
    hide ApplyTx;
    if i < |artifacts| {
      var m := artifacts[i];
      if adopted == Some(m.id) {
        LoopNotForbidden(d, artifacts, known, adopted, i + 1, report, faults);
      } else if m.id in known {
        LoopNotForbidden(d, artifacts, known, adopted, i + 1, report.(skipped := report.skipped + 1), faults);
      } else {
        TxNotForbidden(d, m, true, faults);
        var tx := ApplyTx(d, m, true, faults);
        if tx.1.Ok? {
          LoopNotForbidden(tx.0, artifacts, known + {m.id}, adopted, i + 1,
                           if tx.1.value then report.(applied := report.applied + 1)
                           else report.(skipped := report.skipped + 1), faults);
        }
      }
    }
  }

  lemma {:induction false} TxNotForbidden(d: Db, m: Migration, execute: bool, faults: Faults)
    ensures NotForbidden(ApplyTx(d, m, execute, faults).1)
  {
  }

  lemma {:induction false} ApplyNotForbidden(d: Db, artifacts: seq<Migration>, mode: Mode, faults: Faults)
    requires Clean(artifacts)
    ensures NotForbidden(ApplyCall(d, artifacts, mode, faults).1)
  {
    hide ApplyFrom, ApplyTx, Clean;
    match PrepareLedger(d.ledger, artifacts)
    case Err(_) =>
    case Ok(known) =>
      if mode.Execute? {
        LoopNotForbidden(d, artifacts, known, None, 0, Report(0, 0, 0), faults);
      } else if known == {} && artifacts != [] {
        TxNotForbidden(d, artifacts[0], false, faults);
        LoopNotForbidden(ApplyTx(d, artifacts[0], false, faults).0, artifacts, {artifacts[0].id}, Some(artifacts[0].id), 0,
                         Report(0, 0, 1), faults);
      }
  }

  lemma {:induction false} CollectNotForbidden(artifacts: seq<Migration>, selected: seq<nat>)
    requires Clean(artifacts)
    ensures NotForbidden(Collect(artifacts, selected))
  {
    if selected != [] {
      CollectNotForbidden(artifacts, selected[1..]);
      var m := FindMigration(artifacts, selected[0]);
      if m.Some? {
        var k :| 0 <= k < |artifacts| && artifacts[k] == m.value;
      }
    }
  }

  lemma {:induction false} AllNotForbidden(d: Db, migrations: seq<Migration>, faults: Faults)
    requires forall m :: m in migrations ==> m.rollback.Some?
    ensures NotForbidden(RollbackAll(d, migrations, faults).1)
    decreases |migrations|
  {
    if migrations != [] {
      AllNotForbidden(RollbackTx(d, migrations[0], migrations[0].rollback.value, faults).0, migrations[1..], faults);
    }
  }

  lemma {:induction false} RollbackNotForbidden(d: Db, artifacts: seq<Migration>, selection: Selection, faults: Faults)
    requires Clean(artifacts)
    ensures NotForbidden(RollbackCall(d, artifacts, selection, faults).1)
  {
    hide Collect, RollbackAll, Clean;
    match PrepareLedger(d.ledger, artifacts)
    case Err(_) =>
    case Ok(applied) =>
      if CutLength(Ids(artifacts), applied).Some? {
        var chosen := SelectRollbackIds(Ids(artifacts)[..CutLength(Ids(artifacts), applied).value], selection);
        if chosen.Ok? { CollectNotForbidden(artifacts, chosen.value); }
      }
      var plan := RollbackPlan(d.ledger, artifacts, selection);
      if plan.Ok? { AllNotForbidden(d, plan.value, faults); }
  }

  /** After any number of generations from an empty directory, each completed, refused or stopped at any step,
      no apply, adoption or rollback of the migrations on disk is refused for its SQL. */
  lemma {:induction false} WrittenIsNeverForbidden(toasty: G.Toasty, requests: seq<(A.Request, nat)>, d: Db, mode: Mode,
                                                   selection: Selection, faults: Faults)
    ensures var resolved := A.ResolveArtifacts(W.Attempts(W.NO_TREE, [], requests).0);
            resolved.Ok? ==>
              var artifacts := G.Migrations(toasty, resolved.value);
              && NotForbidden(ApplyCall(d, artifacts, mode, faults).1)
              && NotForbidden(RollbackCall(d, artifacts, selection, faults).1)
  {
    hide W.LineageInv, W.Attempts, A.ResolveArtifacts, N.AllAccepted, Clean, ApplyCall, RollbackCall;
    W.NoLineageYet();
    NothingIsAccepted();
    N.DoneIsAccepted(W.NO_TREE, [], requests);
    var resolved := A.ResolveArtifacts(W.Attempts(W.NO_TREE, [], requests).0);
    if resolved.Ok? {
      AcceptedIsClean(toasty, resolved.value);
      ApplyNotForbidden(d, G.Migrations(toasty, resolved.value), mode, faults);
      RollbackNotForbidden(d, G.Migrations(toasty, resolved.value), selection, faults);
    }
  }

  lemma {:induction false} NothingIsAccepted()
    ensures N.AllAccepted([])
  {
  }

  /** A pending migration whose SQL breaks the policy is not executed: an apply that reaches it stops there,
      with the ones before it applied. */
  lemma {:induction false} ForbiddenIsRefused(toasty: G.Toasty, files: seq<A.Owned>, d: Db, k: nat)
    requires k < |files| && files[k].id !in d.ledger && !T.ValidSql(files[k].sql)
    requires forall i, j :: 0 <= i < j < |files| ==> files[i].id != files[j].id
    requires forall i :: 0 <= i < k ==> files[i].id in d.ledger || T.ValidSql(files[i].sql)
    requires forall id :: id in d.ledger ==> BearsName(G.Migrations(toasty, files), id, d.ledger[id])
    ensures var artifacts := G.Migrations(toasty, files);
            ApplyCall(d, artifacts, Execute, map[]) == (Progress(d, artifacts, k), Err(ForbiddenSql(files[k].id)))
  {
    hide T.ValidSql, BearsName, ApplyCall, Progress;
    var artifacts := G.Migrations(toasty, files);
    assert StopsAt(d.ledger, artifacts, map[], k);
    ApplyFillsGaps(d, artifacts, map[], k);
  }
}
