/** Any number of apply and rollback calls on one source, interleaved between their transactions.

    Every client step is one transaction or one read of the ledger; between two steps any other
    client may run, and a client may be killed, or see the database fail, at any step. */
module MigrationClients {
  import opened Wrappers
  import opened TransactionalLedger
  import opened TransactionalLaws

  datatype Client =
    // apply
    | Inspecting(mode: Mode)
    | Preparing(mode: Mode)
    | Adopting
    | Applying(known: set<nat>, adopted: Option<nat>, i: nat, report: Report)
    | Applied(report: Report)
    // rollback
    | Choosing(selection: Selection)
    | Checking(todo: seq<Migration>)
    | Rolling(todo: seq<Migration>, count: nat)
    | RolledBack(count: nat)
    | Failed(error: Error)
    | Killed

  datatype System = System(db: Db, clients: seq<Client>)

  datatype Action =
    | SpawnApply(mode: Mode)
    | SpawnRollback(selection: Selection)
    | Advance(client: nat, faults: Faults)
    | Kill(client: nat)

  /** One iteration of the apply loop. */
  function ApplyStep(d: Db, c: Client, artifacts: seq<Migration>, faults: Faults): (Db, Client)
    requires c.Applying?
  {
    if c.i >= |artifacts| then (d, Applied(c.report))
    else
      var m := artifacts[c.i];
      if c.adopted == Some(m.id) then (d, c.(i := c.i + 1))
      else if m.id in c.known then (d, c.(i := c.i + 1, report := c.report.(skipped := c.report.skipped + 1)))
      else if !m.sql.accepted then (d, Failed(ForbiddenSql(m.id)))
      else
        var tx := ApplyTx(d, m, true, faults);
        match tx.1
        case Err(e) => (tx.0, Failed(e))
        case Ok(applied) =>
          (tx.0, c.(i := c.i + 1, known := c.known + {m.id},
                    report := if applied then c.report.(applied := c.report.applied + 1)
                              else c.report.(skipped := c.report.skipped + 1)))
  }

  ghost function ClientStep(d: Db, c: Client, artifacts: seq<Migration>, faults: Faults): (Db, Client) {
    match c
    case Inspecting(mode) =>
      (match PrepareLedger(d.ledger, artifacts)
       case Err(e) => (d, Failed(e))
       case Ok(_) => (d, Preparing(mode)))
    case Preparing(mode) =>
      (match PrepareLedger(d.ledger, artifacts)
       case Err(e) => (d, Failed(e))
       case Ok(known) =>
         if mode.Execute? then (d, Applying(known, None, 0, Report(0, 0, 0)))
         else if known != {} then (d, Failed(NotEmptyForAdoption))
         else if artifacts == [] then (d, Failed(NoMigrations))
         else (d, Adopting))
    case Adopting =>
      if artifacts == [] then (d, c)
      else
        var tx := ApplyTx(d, artifacts[0], false, faults);
        if tx.1.Err? then (tx.0, Failed(tx.1.error))
        else (tx.0, Applying({artifacts[0].id}, Some(artifacts[0].id), 0, Report(0, 0, 1)))
    case Applying(_, _, _, _) => ApplyStep(d, c, artifacts, faults)
    case Choosing(selection) =>
      (match RollbackPlan(d.ledger, artifacts, selection)
       case Err(e) => (d, Failed(e))
       case Ok(todo) => (d, Checking(todo)))
    case Checking(todo) =>
      (match PrepareLedger(d.ledger, artifacts)
       case Err(e) => (d, Failed(e))
       case Ok(_) => (d, Rolling(todo, 0)))
    case Rolling(todo, count) =>
      if todo == [] then (d, RolledBack(count))
      else if todo[0].rollback.None? then (d, Failed(MissingRollbackSql(todo[0].id)))
      else
        var tx := RollbackTx(d, todo[0], todo[0].rollback.value, faults);
        (tx.0, if tx.1.Ok? then Rolling(todo[1..], count + 1) else Failed(tx.1.error))
    case _ => (d, c)
  }

  ghost function Step(s: System, a: Action, artifacts: seq<Migration>): System {
    match a
    case SpawnApply(mode) => s.(clients := s.clients + [Inspecting(mode)])
    case SpawnRollback(selection) => s.(clients := s.clients + [Choosing(selection)])
    case Advance(c, faults) =>
      if c < |s.clients| then
        var step := ClientStep(s.db, s.clients[c], artifacts, faults);
        System(step.0, s.clients[c := step.1])
      else s
    case Kill(c) => if c < |s.clients| then s.(clients := s.clients[c := Killed]) else s
  }

  ghost function Run(s: System, actions: seq<Action>, artifacts: seq<Migration>): System
    decreases |actions|
  {
    if actions == [] then s else Run(Step(s, actions[0], artifacts), actions[1..], artifacts)
  }

  // ---------------------------------------------------------------- concurrent applies

  /** From a ledger of the first `n0` artifacts, the database has reached `n`: it recorded artifacts
      `n0` to `n` and ran the SQL of `lo` to `n`, where `lo` skips at most an adopted first one. */
  ghost predicate AppliedTo(base: Db, d: Db, artifacts: seq<Migration>, n0: nat, lo: nat, n: nat) {
    && n0 <= lo <= n <= |artifacts|
    && (lo == n0 || (n0 == 0 && lo == 1))
    && d == Db(LedgerOf(artifacts, n), base.trace + ForwardSql(artifacts, lo, n))
  }

  ghost predicate ApplyClientOk(c: Client, artifacts: seq<Migration>, n: nat) {
    match c
    case Applying(known, adopted, i, report) =>
      && i <= n <= |artifacts|
      && (forall id :: id in known ==> exists k :: 0 <= k < n && artifacts[k].id == id)
      && (adopted.Some? ==> 0 < n && adopted.value == artifacts[0].id)
      && report.adopted == (if adopted.Some? then 1 else 0)
      && report.applied + report.skipped + report.adopted == (if adopted.Some? && i == 0 then 1 else i)
    case Applied(report) =>
      n == |artifacts| && report.applied + report.skipped + report.adopted == |artifacts|
    case Choosing(_) => false
    case Checking(_) => false
    case Rolling(_, _) => false
    case RolledBack(_) => false
    case _ => true
  }

  ghost predicate ApplyInv(base: Db, s: System, artifacts: seq<Migration>, n0: nat, lo: nat, n: nat) {
    && AppliedTo(base, s.db, artifacts, n0, lo, n)
    && forall c :: c in s.clients ==> ApplyClientOk(c, artifacts, n)
  }

  lemma {:induction false} ApplyClientOkGrows(c: Client, artifacts: seq<Migration>, n: nat, n': nat)
    requires ApplyClientOk(c, artifacts, n) && n <= n' <= |artifacts|
    ensures ApplyClientOk(c, artifacts, n')
  {
  }

  /** On a ledger of the first `n` artifacts, recording artifact `i <= n` either changes nothing,
      or extends the ledger to `n + 1`, and then `i == n`. */
  lemma {:induction false} RecordsNext(d: Db, artifacts: seq<Migration>, n: nat, i: nat, execute: bool, faults: Faults)
    requires i <= n <= |artifacts| && i < |artifacts| && DistinctIds(artifacts)
    requires d.ledger == LedgerOf(artifacts, n)
    ensures var tx := ApplyTx(d, artifacts[i], execute, faults);
            && (i < n ==> tx == (d, Ok(false)))
            && (i == n && tx.1.Err? ==> tx.0 == d)
            && (i == n && tx.1.Ok? ==>
                  && tx.1.value
                  && tx.0 == Db(LedgerOf(artifacts, n + 1),
                                d.trace + if execute then artifacts[n].sql.statements else []))
  {
    LedgerOfNames(artifacts, n);
  }

  lemma {:induction false} AppliedStep(base: Db, d: Db, d': Db, artifacts: seq<Migration>, n0: nat, lo: nat, n: nat)
    requires AppliedTo(base, d, artifacts, n0, lo, n) && n < |artifacts|
    requires d' == Db(LedgerOf(artifacts, n + 1), d.trace + artifacts[n].sql.statements)
    ensures AppliedTo(base, d', artifacts, n0, lo, n + 1)
  {
    hide LedgerOf;
    assert d'.trace == base.trace + (ForwardSql(artifacts, lo, n) + artifacts[n].sql.statements);
  }

  lemma {:induction false} ApplyLoopStep(base: Db, d: Db, c: Client, artifacts: seq<Migration>, n0: nat, lo: nat,
                                         n: nat, faults: Faults)
    returns (n': nat)
    requires DistinctIds(artifacts) && c.Applying?
    requires AppliedTo(base, d, artifacts, n0, lo, n) && ApplyClientOk(c, artifacts, n)
    ensures n <= n' <= n + 1
    ensures AppliedTo(base, ApplyStep(d, c, artifacts, faults).0, artifacts, n0, lo, n')
    ensures ApplyClientOk(ApplyStep(d, c, artifacts, faults).1, artifacts, n')
  {
    hide LedgerOf, ForwardSql, ApplyTx;
    n' := n;
    if c.i < |artifacts| {
      var m := artifacts[c.i];
      if c.adopted == Some(m.id) {
        assert c.i == 0;
      } else if m.id in c.known {
        var k :| 0 <= k < n && artifacts[k].id == m.id;
        assert k == c.i;
      } else if m.sql.accepted {
        RecordsNext(d, artifacts, n, c.i, true, faults);
        if ApplyTx(d, m, true, faults).1 == Ok(true) {
          AppliedStep(base, d, ApplyStep(d, c, artifacts, faults).0, artifacts, n0, lo, n);
          n' := n + 1;
        }
      }
    }
  }

  lemma {:induction false} AdoptStep(base: Db, d: Db, artifacts: seq<Migration>, n0: nat, lo: nat, n: nat,
                                     faults: Faults)
    returns (lo': nat, n': nat)
    requires DistinctIds(artifacts) && artifacts != [] && AppliedTo(base, d, artifacts, n0, lo, n)
    ensures n <= n'
    ensures AppliedTo(base, ClientStep(d, Adopting, artifacts, faults).0, artifacts, n0, lo', n')
    ensures ApplyClientOk(ClientStep(d, Adopting, artifacts, faults).1, artifacts, n')
    ensures n == 0 && ApplyTx(d, artifacts[0], false, faults).1.Ok? ==> lo' == 1
  {
    RecordsNext(d, artifacts, n, 0, false, faults);
    lo', n' := lo, n;
    if n == 0 && ApplyTx(d, artifacts[0], false, faults).1.Ok? {
      lo', n' := 1, 1;
      assert ForwardSql(artifacts, 0, 0) == ForwardSql(artifacts, 1, 1) == [];
    }
  }

  lemma {:induction false} ApplyClientStep(base: Db, d: Db, c: Client, artifacts: seq<Migration>, n0: nat, lo: nat,
                                           n: nat, faults: Faults)
    returns (lo': nat, n': nat)
    requires DistinctIds(artifacts)
    requires AppliedTo(base, d, artifacts, n0, lo, n) && ApplyClientOk(c, artifacts, n)
    ensures n <= n'
    ensures AppliedTo(base, ClientStep(d, c, artifacts, faults).0, artifacts, n0, lo', n')
    ensures ApplyClientOk(ClientStep(d, c, artifacts, faults).1, artifacts, n')
  {
    hide LedgerOf, ForwardSql, ApplyTx, ApplyStep;
    lo', n' := lo, n;
    if c.Applying? {
      n' := ApplyLoopStep(base, d, c, artifacts, n0, lo, n, faults);
    } else if c.Adopting? && artifacts != [] {
      lo', n' := AdoptStep(base, d, artifacts, n0, lo, n, faults);
    } else if c.Preparing? {
      LedgerOfKeys(artifacts, n);
    }
  }

  lemma {:induction false} ApplyStepKeeps(base: Db, s: System, a: Action, artifacts: seq<Migration>, n0: nat, lo: nat,
                                          n: nat)
    returns (lo': nat, n': nat)
    requires DistinctIds(artifacts) && ApplyInv(base, s, artifacts, n0, lo, n) && !a.SpawnRollback?
    ensures n <= n' && ApplyInv(base, Step(s, a, artifacts), artifacts, n0, lo', n')
  {
    hide ClientStep, AppliedTo, ApplyClientOk;
    lo', n' := lo, n;
    if a.Advance? && a.client < |s.clients| {
      lo', n' := ApplyClientStep(base, s.db, s.clients[a.client], artifacts, n0, lo, n, a.faults);
      AppliedToBound(base, ClientStep(s.db, s.clients[a.client], artifacts, a.faults).0, artifacts, n0, lo', n');
      forall other | other in s.clients ensures ApplyClientOk(other, artifacts, n') {
        ApplyClientOkGrows(other, artifacts, n, n');
      }
    } else {
      FreshClientsOk(artifacts, n);
    }
  }

  lemma {:induction false} AppliedToBound(base: Db, d: Db, artifacts: seq<Migration>, n0: nat, lo: nat, n: nat)
    requires AppliedTo(base, d, artifacts, n0, lo, n)
    ensures n <= |artifacts|
  {
  }

  lemma {:induction false} FreshClientsOk(artifacts: seq<Migration>, n: nat)
    ensures ApplyClientOk(Killed, artifacts, n)
    ensures forall mode :: ApplyClientOk(Inspecting(mode), artifacts, n)
  {
  }

  /** Safety of concurrent applies, over every interleaving, kill and database failure: starting from
      a ledger of the first `n0` artifacts, the ledger is always that of a longer prefix, the SQL of
      the newly recorded artifacts has been committed once each and in list order, and a call that
      has succeeded reports every artifact as applied, skipped or adopted. */
  lemma {:induction false} ConcurrentApplies(base: Db, s: System, actions: seq<Action>, artifacts: seq<Migration>,
                                             n0: nat, lo: nat, n: nat)
    requires DistinctIds(artifacts) && ApplyInv(base, s, artifacts, n0, lo, n)
    requires forall a :: a in actions ==> !a.SpawnRollback?
    ensures exists lo': nat, n': nat ::
              n <= n' && ApplyInv(base, Run(s, actions, artifacts), artifacts, n0, lo', n')
    decreases |actions|
  {
    if actions != [] {
      assert actions[0] in actions;
      var lo1, n1 := ApplyStepKeeps(base, s, actions[0], artifacts, n0, lo, n);
      ConcurrentApplies(base, Step(s, actions[0], artifacts), actions[1..], artifacts, n0, lo1, n1);
      assert Run(s, actions, artifacts) == Run(Step(s, actions[0], artifacts), actions[1..], artifacts);
    } else {
      assert Run(s, actions, artifacts) == s;
    }
  }

  lemma {:induction false} ApplyInvInitially(d: Db, artifacts: seq<Migration>, n0: nat)
    requires n0 <= |artifacts| && d.ledger == LedgerOf(artifacts, n0)
    ensures ApplyInv(d, System(d, []), artifacts, n0, n0, n0)
  {
    assert d.trace + [] == d.trace;
  }

  // ---------------------------------------------------------------- one apply alone

  /** What a client's outcome looks like to the caller of `ApplyCall`. */
  ghost predicate Outcome(d: Db, c: Client, result: (Db, Result<Report, Error>)) {
    && d == result.0
    && match result.1
       case Ok(report) => c == Applied(report)
       case Err(e) => c == Failed(e)
  }

  ghost function RunAlone(d: Db, c: Client, artifacts: seq<Migration>, faults: Faults, steps: nat): (Db, Client)
    decreases steps
  {
    if steps == 0 then (d, c)
    else
      var step := ClientStep(d, c, artifacts, faults);
      RunAlone(step.0, step.1, artifacts, faults, steps - 1)
  }

  lemma {:induction false} FinishedStays(d: Db, c: Client, artifacts: seq<Migration>, faults: Faults, steps: nat)
    requires c.Applied? || c.Failed?
    ensures RunAlone(d, c, artifacts, faults, steps) == (d, c)
  {
    if steps > 0 { FinishedStays(d, c, artifacts, faults, steps - 1); }
  }

  lemma {:induction false} LoopAlone(d: Db, c: Client, artifacts: seq<Migration>, faults: Faults, steps: nat)
    requires c.Applying? && c.i <= |artifacts| && steps > |artifacts| - c.i
    ensures var alone := RunAlone(d, c, artifacts, faults, steps);
            Outcome(alone.0, alone.1, ApplyFrom(d, artifacts, c.known, c.adopted, c.i, c.report, faults))
    decreases steps
  {
    hide ApplyTx;
    var step := ApplyStep(d, c, artifacts, faults);
    if step.1.Applying? {
      LoopAlone(step.0, step.1, artifacts, faults, steps - 1);
    } else {
      FinishedStays(step.0, step.1, artifacts, faults, steps - 1);
    }
  }

  /** The apply call is the client above, run to its end with nobody else around. */
  lemma {:induction false} ApplyCallIsAClientAlone(d: Db, artifacts: seq<Migration>, mode: Mode, faults: Faults)
    ensures var alone := RunAlone(d, Inspecting(mode), artifacts, faults, |artifacts| + 4);
            Outcome(alone.0, alone.1, ApplyCall(d, artifacts, mode, faults))
  {
    hide ApplyFrom, ApplyTx, ApplyStep;
    var n := |artifacts|;
    var step := ClientStep(d, Inspecting(mode), artifacts, faults);
    var step2 := ClientStep(d, step.1, artifacts, faults);
    assert RunAlone(d, Inspecting(mode), artifacts, faults, n + 4) == RunAlone(step.0, step.1, artifacts, faults, n + 3);
    assert RunAlone(step.0, step.1, artifacts, faults, n + 3) == RunAlone(d, step2.1, artifacts, faults, n + 2);
    if step2.1.Failed? {
      FinishedStays(d, step2.1, artifacts, faults, n + 2);
    } else if step2.1.Applying? {
      LoopAlone(d, step2.1, artifacts, faults, n + 2);
    } else {
      var step3 := ClientStep(d, step2.1, artifacts, faults);
      assert RunAlone(d, step2.1, artifacts, faults, n + 2) == RunAlone(step3.0, step3.1, artifacts, faults, n + 1);
      if step3.1.Failed? {
        FinishedStays(step3.0, step3.1, artifacts, faults, n + 1);
      } else {
        LoopAlone(step3.0, step3.1, artifacts, faults, n + 1);
      }
    }
  }

  ghost predicate RollbackOutcome(d: Db, c: Client, result: (Db, Result<nat, Error>)) {
    && d == result.0
    && match result.1
       case Ok(count) => c == RolledBack(count)
       case Err(e) => c == Failed(e)
  }

  lemma {:induction false} RolledBackStays(d: Db, c: Client, artifacts: seq<Migration>, faults: Faults, steps: nat)
    requires c.RolledBack? || c.Failed?
    ensures RunAlone(d, c, artifacts, faults, steps) == (d, c)
  {
    if steps > 0 { RolledBackStays(d, c, artifacts, faults, steps - 1); }
  }

  lemma {:induction false} RollingAlone(d: Db, todo: seq<Migration>, count: nat, artifacts: seq<Migration>, faults: Faults,
                                        steps: nat)
    requires (forall m :: m in todo ==> m.rollback.Some?) && steps > |todo|
    ensures var alone, all := RunAlone(d, Rolling(todo, count), artifacts, faults, steps), RollbackAll(d, todo, faults);
            RollbackOutcome(alone.0, alone.1, (all.0, if all.1.Ok? then Ok(count + |todo|) else Err(all.1.error)))
    decreases |todo|
  {
    hide RollbackTx;
    var step := ClientStep(d, Rolling(todo, count), artifacts, faults);
    if step.1.Rolling? {
      RollingAlone(step.0, todo[1..], count + 1, artifacts, faults, steps - 1);
    } else {
      RolledBackStays(step.0, step.1, artifacts, faults, steps - 1);
    }
  }

  /** And the rollback call is its client, run to the end alone: one step to plan, one to check again, one for
      each migration and one to finish. */
  lemma {:induction false} RollbackCallIsAClientAlone(d: Db, artifacts: seq<Migration>, selection: Selection,
                                                      faults: Faults, steps: nat)
    requires var plan := RollbackPlan(d.ledger, artifacts, selection);
             steps >= if plan.Ok? then |plan.value| + 3 else 1
    ensures var alone := RunAlone(d, Choosing(selection), artifacts, faults, steps);
            RollbackOutcome(alone.0, alone.1, RollbackCall(d, artifacts, selection, faults))
  {
    hide RollbackAll, Collect, SelectRollbackIds, CutLength;
    var plan := RollbackPlan(d.ledger, artifacts, selection);
    if plan.Ok? {
      assert ClientStep(d, Choosing(selection), artifacts, faults) == (d, Checking(plan.value));
      assert ClientStep(d, Checking(plan.value), artifacts, faults) == (d, Rolling(plan.value, 0));
      RollingAlone(d, plan.value, 0, artifacts, faults, steps - 2);
    } else {
      RolledBackStays(d, Failed(plan.error), artifacts, faults, steps - 1);
    }
  }

  lemma {:induction false} LoopSkips(d: Db, artifacts: seq<Migration>, n: nat, i: nat)
    requires i <= n <= |artifacts|
    ensures ApplyFrom(d, artifacts, LedgerOf(artifacts, n).Keys, None, i, Report(0, i, 0), map[])
         == ApplyFrom(d, artifacts, LedgerOf(artifacts, n).Keys, None, n, Report(0, n, 0), map[])
    decreases n - i
  {
    hide LedgerOf, ApplyTx;
    if i < n {
      LedgerOfKeys(artifacts, n);
      LoopSkips(d, artifacts, n, i + 1);
    }
  }

  ghost predicate Acceptable(artifacts: seq<Migration>, lo: nat) {
    forall k :: lo <= k < |artifacts| ==> artifacts[k].sql.accepted
  }

  lemma {:induction false} ForwardSqlFront(artifacts: seq<Migration>, lo: nat, hi: nat)
    requires lo < hi <= |artifacts|
    ensures ForwardSql(artifacts, lo, hi) == artifacts[lo].sql.statements + ForwardSql(artifacts, lo + 1, hi)
    decreases hi
  {
    if lo + 1 < hi { ForwardSqlFront(artifacts, lo, hi - 1); }
  }

  lemma {:induction false} LoopApplies(d: Db, artifacts: seq<Migration>, n: nat, i: nat)
    requires n <= i <= |artifacts| && DistinctIds(artifacts) && d.ledger == LedgerOf(artifacts, i)
    ensures var r := ApplyFrom(d, artifacts, d.ledger.Keys, None, i, Report(i - n, n, 0), map[]);
            && (r.1.Ok? <==> Acceptable(artifacts, i))
            && (r.1.Ok? ==>
                  && r.0 == Db(LedgerOf(artifacts, |artifacts|), d.trace + ForwardSql(artifacts, i, |artifacts|))
                  && r.1.value == Report(|artifacts| - n, n, 0))
    decreases |artifacts| - i
  {
    if i == |artifacts| {
      assert d.trace + [] == d.trace;
    } else {
      var m := artifacts[i];
      LedgerOfNames(artifacts, i);
      RecordsNext(d, artifacts, i, i, true, map[]);
      var d' := Db(LedgerOf(artifacts, i + 1), d.trace + m.sql.statements);
      assert d.ledger.Keys + {m.id} == d'.ledger.Keys;
      hide LedgerOf, ForwardSql;
      LoopApplies(d', artifacts, n, i + 1);
      ForwardSqlFront(artifacts, i, |artifacts|);
      assert Acceptable(artifacts, i) <==> m.sql.accepted && Acceptable(artifacts, i + 1);
      assert d.trace + (m.sql.statements + ForwardSql(artifacts, i + 1, |artifacts|))
          == d'.trace + ForwardSql(artifacts, i + 1, |artifacts|);
    }
  }

  /** Without failures, an apply from the first `n` artifacts completes exactly when the pending SQL
      is acceptable; it then applies all pending migrations and skips the others. */
  lemma {:induction false} ApplyCompletes(d: Db, artifacts: seq<Migration>, n: nat)
    requires n <= |artifacts| && DistinctIds(artifacts) && d.ledger == LedgerOf(artifacts, n)
    ensures var r := ApplyCall(d, artifacts, Execute, map[]);
            && (r.1.Ok? <==> Acceptable(artifacts, n))
            && (r.1.Ok? ==>
                  && r.0 == Db(LedgerOf(artifacts, |artifacts|), d.trace + ForwardSql(artifacts, n, |artifacts|))
                  && r.1.value == Report(|artifacts| - n, n, 0))
  {
    hide LedgerOf, ApplyFrom, ForwardSql;
    PrefixLedgerIsAccepted(artifacts, n);
    LoopSkips(d, artifacts, n, 0);
    LoopApplies(d, artifacts, n, n);
  }

  /** However an apply call from the first `n` artifacts ends, it has gone on to some longer prefix. */
  lemma {:induction false} LoopLeavesPrefix(base: Db, d: Db, c: Client, artifacts: seq<Migration>, n0: nat, lo: nat,
                                            n: nat,
                                            faults: Faults)
    returns (n': nat)
    requires DistinctIds(artifacts) && c.Applying?
    requires AppliedTo(base, d, artifacts, n0, lo, n) && ApplyClientOk(c, artifacts, n)
    ensures n <= n'
    ensures AppliedTo(base, ApplyFrom(d, artifacts, c.known, c.adopted, c.i, c.report, faults).0, artifacts, n0, lo, n')
    decreases |artifacts| - c.i
  {
    hide LedgerOf, ForwardSql, ApplyTx, AppliedTo, DistinctIds;
    var step := ApplyStep(d, c, artifacts, faults);
    n' := ApplyLoopStep(base, d, c, artifacts, n0, lo, n, faults);
    if step.1.Applying? {
      n' := LoopLeavesPrefix(base, step.0, step.1, artifacts, n0, lo, n', faults);
    }
  }

  lemma {:induction false} CallLeavesPrefix(d: Db, artifacts: seq<Migration>, mode: Mode, n: nat, faults: Faults)
    returns (lo: nat, n': nat)
    requires DistinctIds(artifacts) && n <= |artifacts| && d.ledger == LedgerOf(artifacts, n)
    ensures n <= n' && AppliedTo(d, ApplyCall(d, artifacts, mode, faults).0, artifacts, n, lo, n')
    ensures mode.Execute? ==> lo == n
    ensures mode.AdoptBaseline? ==> (n == 0 && lo == 1) || ApplyCall(d, artifacts, mode, faults).0 == d
  {
    hide ApplyFrom, ApplyTx, LedgerOf, PrepareLedger, ForwardSql, CutLength;
    ApplyInvInitially(d, artifacts, n);
    PrefixLedgerIsAccepted(artifacts, n);
    LedgerOfKeys(artifacts, n);
    lo, n' := n, n;
    assert n > 0 ==> artifacts[0].id in d.ledger.Keys;
    if mode.Execute? {
      n' := LoopLeavesPrefix(d, d, Applying(d.ledger.Keys, None, 0, Report(0, 0, 0)), artifacts, n, n, n, faults);
    } else if d.ledger.Keys == {} && artifacts != [] {
      var tx := ApplyTx(d, artifacts[0], false, faults);
      RecordsNext(d, artifacts, n, 0, false, faults);
      lo, n' := AdoptStep(d, d, artifacts, n, n, n, faults);
      if tx.1.Ok? {
        n' := LoopLeavesPrefix(d, tx.0, Applying({artifacts[0].id}, Some(artifacts[0].id), 0, Report(0, 0, 1)),
                               artifacts, n, lo, n', faults);
      }
    }
  }

  // ---------------------------------------------------------------- concurrent rollbacks

  /** What a rollback client still has to undo: artifacts `lo` to `j`, newest first, where `j` was
      recorded when it planned and nothing beyond the first `n` is now. */
  ghost predicate TodoOk(todo: seq<Migration>, artifacts: seq<Migration>, n: nat) {
    exists lo: nat, j: nat :: TodoIs(todo, artifacts, n, lo, j)
  }

  ghost predicate TodoIs(todo: seq<Migration>, artifacts: seq<Migration>, n: nat, lo: nat, j: nat) {
    lo <= j <= |artifacts| && n <= j && Reversible(artifacts, lo, j) && todo == Suffix(artifacts, lo, j)
  }

  ghost predicate RollbackClientOk(c: Client, artifacts: seq<Migration>, n: nat) {
    match c
    case Choosing(_) => true
    case Checking(todo) => TodoOk(todo, artifacts, n)
    case Rolling(todo, _) => TodoOk(todo, artifacts, n)
    case RolledBack(_) => true
    case Failed(_) => true
    case Killed => true
    case _ => false
  }

  ghost predicate RollbackInv(base: Db, s: System, artifacts: seq<Migration>, n: nat, n0: nat) {
    && UndoneTo(base, s.db, artifacts, n, n0)
    && forall c :: c in s.clients ==> RollbackClientOk(c, artifacts, n)
  }

  lemma {:induction false} RollbackClientOkShrinks(c: Client, artifacts: seq<Migration>, n: nat, n': nat)
    requires RollbackClientOk(c, artifacts, n) && n' <= n
    ensures RollbackClientOk(c, artifacts, n')
  {
    hide Suffix, Reversible;
    if c.Checking? || c.Rolling? {
      var lo: nat, j: nat :| TodoIs(c.todo, artifacts, n, lo, j);
      assert TodoIs(c.todo, artifacts, n', lo, j);
    }
  }

  /** A plan made on the ledger of the first `n` artifacts is a suffix of them. */
  lemma {:induction false} PlansSuffix(ledger: map<nat, string>, artifacts: seq<Migration>, selection: Selection, n: nat)
    requires n <= |artifacts| && DistinctIds(artifacts) && ledger == LedgerOf(artifacts, n)
    requires RollbackPlan(ledger, artifacts, selection).Ok?
    ensures TodoOk(RollbackPlan(ledger, artifacts, selection).value, artifacts, n)
  {
    hide LedgerOf, Suffix, IdSuffix, Ids, CutLength, PrepareLedger, SelectRollbackIds, Collect, Reversible, Floor;
    PrefixLedgerIsAccepted(artifacts, n);
    SelectsSuffix(artifacts, n, selection);
    var lo := Floor(artifacts, n, selection).value;
    CollectsSuffix(artifacts, lo, n);
    assert TodoIs(RollbackPlan(ledger, artifacts, selection).value, artifacts, n, lo, n);
  }

  /** Against such a todo a transaction changes nothing, or takes the last recorded artifact. */
  lemma {:induction false} RollsBackLast(d: Db, todo: seq<Migration>, artifacts: seq<Migration>, n: nat, faults: Faults)
    requires n <= |artifacts| && DistinctIds(artifacts) && d.ledger == LedgerOf(artifacts, n)
    requires TodoOk(todo, artifacts, n) && todo != []
    ensures todo[0].rollback.Some?
    ensures var tx := RollbackTx(d, todo[0], todo[0].rollback.value, faults);
            && (tx.1.Err? ==> tx.0 == d)
            && (tx.1.Ok? ==> n > 0 && UndoneTo(d, tx.0, artifacts, n - 1, n) && TodoOk(todo[1..], artifacts, n - 1))
  {
    hide Suffix, LedgerOf, RollbackTx, UndoneTo, Newest;
    var lo: nat, j: nat :| TodoIs(todo, artifacts, n, lo, j);
    SuffixSplits(artifacts, lo, j);
    assert todo[0] in todo && lo < j;
    var m := artifacts[j - 1];
    if n == j {
      RollbackNewestRow(d, artifacts, n, faults);
      var tx := RollbackTx(d, m, m.rollback.value, faults);
      if tx.1.Ok? {
        UndoneOne(d, tx.0, artifacts, n);
        assert TodoIs(todo[1..], artifacts, n - 1, lo, n - 1);
      }
    } else {
      UnrecordedStays(d, artifacts, n, j - 1, faults);
    }
  }

  /** An artifact that is not recorded is not rolled back. */
  lemma {:induction false} UnrecordedStays(d: Db, artifacts: seq<Migration>, n: nat, k: nat, faults: Faults)
    requires n <= k < |artifacts| && DistinctIds(artifacts) && d.ledger == LedgerOf(artifacts, n)
    requires artifacts[k].rollback.Some?
    ensures var tx := RollbackTx(d, artifacts[k], artifacts[k].rollback.value, faults); tx.1.Err? && tx.0 == d
  {
    hide LedgerOf;
    LedgerOfNames(artifacts, n);
  }

  lemma {:induction false} RollbackClientStep(base: Db, d: Db, c: Client, artifacts: seq<Migration>, n: nat, n0: nat,
                                              faults: Faults)
    returns (n': nat)
    requires DistinctIds(artifacts) && UndoneTo(base, d, artifacts, n, n0) && RollbackClientOk(c, artifacts, n)
    ensures n' <= n && UndoneTo(base, ClientStep(d, c, artifacts, faults).0, artifacts, n', n0)
    ensures RollbackClientOk(ClientStep(d, c, artifacts, faults).1, artifacts, n')
  {
    hide LedgerOf, ReverseSql, RollbackTx, RollbackPlan, PrepareLedger, TodoOk, DistinctIds;
    n' := n;
    if c.Choosing? && RollbackPlan(d.ledger, artifacts, c.selection).Ok? {
      PlansSuffix(d.ledger, artifacts, c.selection, n);
    } else if c.Rolling? && c.todo != [] {
      RollsBackLast(d, c.todo, artifacts, n, faults);
      var tx := RollbackTx(d, c.todo[0], c.todo[0].rollback.value, faults);
      if tx.1.Ok? {
        UndoneTwice(base, d, tx.0, artifacts, n - 1, n, n0);
        n' := n - 1;
      }
    }
  }

  lemma {:induction false} RollbackStepKeeps(base: Db, s: System, a: Action, artifacts: seq<Migration>, n: nat, n0: nat)
    returns (n': nat)
    requires DistinctIds(artifacts) && RollbackInv(base, s, artifacts, n, n0) && !a.SpawnApply?
    ensures n' <= n && RollbackInv(base, Step(s, a, artifacts), artifacts, n', n0)
  {
    hide ClientStep, UndoneTo, TodoOk, DistinctIds;
    n' := n;
    if a.Advance? && a.client < |s.clients| {
      n' := RollbackClientStep(base, s.db, s.clients[a.client], artifacts, n, n0, a.faults);
      forall c | c in s.clients ensures RollbackClientOk(c, artifacts, n') {
        RollbackClientOkShrinks(c, artifacts, n, n');
      }
    }
  }

  /** Safety of concurrent rollbacks: over every interleaving, kill and database failure, a prefix of
      the artifacts stays recorded, and each artifact taken off it has had its reverse SQL committed
      exactly once, newest first. */
  lemma {:induction false} ConcurrentRollbacks(base: Db, s: System, actions: seq<Action>, artifacts: seq<Migration>,
                                               n: nat, n0: nat)
    requires DistinctIds(artifacts) && RollbackInv(base, s, artifacts, n, n0)
    requires forall a :: a in actions ==> !a.SpawnApply?
    ensures exists n': nat :: n' <= n && RollbackInv(base, Run(s, actions, artifacts), artifacts, n', n0)
    decreases |actions|
  {
    hide Step, RollbackInv, DistinctIds;
    if actions != [] {
      assert actions[0] in actions;
      var n1 := RollbackStepKeeps(base, s, actions[0], artifacts, n, n0);
      ConcurrentRollbacks(base, Step(s, actions[0], artifacts), actions[1..], artifacts, n1, n0);
      assert Run(s, actions, artifacts) == Run(Step(s, actions[0], artifacts), actions[1..], artifacts);
    } else {
      assert Run(s, actions, artifacts) == s;
    }
  }

  /** The same from the start, when nobody has called yet. */
  lemma {:induction false} ConcurrentRollbacksFromStart(d: Db, actions: seq<Action>, artifacts: seq<Migration>, n: nat)
    requires n <= |artifacts| && DistinctIds(artifacts) && d.ledger == LedgerOf(artifacts, n)
    requires forall a :: a in actions ==> !a.SpawnApply?
    ensures exists k: nat :: k <= n && UndoneTo(d, Run(System(d, []), actions, artifacts).db, artifacts, k, n)
  {
    hide Run, UndoneTo, LedgerOf;
    RollbackInvInitially(d, artifacts, n);
    ConcurrentRollbacks(d, System(d, []), actions, artifacts, n, n);
    var k: nat :| k <= n && RollbackInv(d, Run(System(d, []), actions, artifacts), artifacts, k, n);
  }

  lemma {:induction false} RollbackInvInitially(d: Db, artifacts: seq<Migration>, n: nat)
    requires n <= |artifacts| && d.ledger == LedgerOf(artifacts, n)
    ensures RollbackInv(d, System(d, []), artifacts, n, n)
  {
    assert d.trace + [] == d.trace;
  }
}
