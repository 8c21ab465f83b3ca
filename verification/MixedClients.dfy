/** Apply and rollback calls on one source, interleaved with each other.

    An apply works from the ids it read at its start, and a rollback from the plan it made. What
    becomes of the ledger depends on whether calls of the other kind commit in between. */
module MixedClients {
  import opened Wrappers
  import opened TransactionalLedger
  import opened TransactionalLaws
  import opened MigrationClients

  ghost predicate RecordsPrefix(ledger: map<nat, string>, artifacts: seq<Migration>) {
    exists k: nat :: k <= |artifacts| && ledger == LedgerOf(artifacts, k)
  }

  ghost predicate IncreasingIds(artifacts: seq<Migration>) {
    forall i, j :: 0 <= i < j < |artifacts| ==> artifacts[i].id < artifacts[j].id
  }

  lemma {:induction false} GapIsNoPrefix(ledger: map<nat, string>, artifacts: seq<Migration>, n: nat, m: nat)
    requires n < m < |artifacts| && DistinctIds(artifacts)
    requires artifacts[n].id !in ledger && artifacts[m].id in ledger
    ensures !RecordsPrefix(ledger, artifacts)
  {
    hide LedgerOf;
    if RecordsPrefix(ledger, artifacts) {
      var k: nat :| k <= |artifacts| && ledger == LedgerOf(artifacts, k);
      LedgerOfNames(artifacts, k);
    }
  }

  // ---------------------------------------------------------------- an apply overtaken by rollbacks

  lemma {:induction false} ReportIrrelevant(d: Db, artifacts: seq<Migration>, known: set<nat>, adopted: Option<nat>, i: nat,
                                            a: Report, b: Report, faults: Faults)
    requires i <= |artifacts|
    ensures ApplyFrom(d, artifacts, known, adopted, i, a, faults).0 == ApplyFrom(d, artifacts, known, adopted, i, b, faults).0
    decreases |artifacts| - i
  {
    hide ApplyTx;
    if i < |artifacts| {
      var m := artifacts[i];
      var tx := ApplyTx(d, m, true, faults);
      var a1, b1 := a.(skipped := a.skipped + 1), b.(skipped := b.skipped + 1);
      var a2, b2 := a.(applied := a.applied + 1), b.(applied := b.applied + 1);
      ReportIrrelevant(d, artifacts, known, adopted, i + 1, a, b, faults);
      ReportIrrelevant(d, artifacts, known, adopted, i + 1, a1, b1, faults);
      ReportIrrelevant(tx.0, artifacts, known + {m.id}, adopted, i + 1, a1, b1, faults);
      ReportIrrelevant(tx.0, artifacts, known + {m.id}, adopted, i + 1, a2, b2, faults);
    }
  }

  /** The apply loop never records an id that it takes as applied, and never removes one. */
  lemma {:induction false} KnownIsNotRecorded(d: Db, artifacts: seq<Migration>, known: set<nat>, adopted: Option<nat>, i: nat,
                                              report: Report, faults: Faults, id: nat)
    requires i <= |artifacts|
    ensures var d' := ApplyFrom(d, artifacts, known, adopted, i, report, faults).0;
            && (id in known && id !in d.ledger ==> id !in d'.ledger)
            && (id in d.ledger ==> id in d'.ledger)
    decreases |artifacts| - i
  {
    if i < |artifacts| {
      var m := artifacts[i];
      var tx := ApplyTx(d, m, true, faults);
      var skipped := report.(skipped := report.skipped + 1);
      var applied := report.(applied := report.applied + 1);
      KnownIsNotRecorded(d, artifacts, known, adopted, i + 1, report, faults, id);
      KnownIsNotRecorded(d, artifacts, known, adopted, i + 1, skipped, faults, id);
      if m.id !in known {
        KnownIsNotRecorded(tx.0, artifacts, known + {m.id}, adopted, i + 1, skipped, faults, id);
        KnownIsNotRecorded(tx.0, artifacts, known + {m.id}, adopted, i + 1, applied, faults, id);
      }
    }
  }

  /** The loop of an apply that took the first `m` artifacts as applied, while fewer are recorded. */
  lemma {:induction false} ResumesBehind(d: Db, artifacts: seq<Migration>, m: nat, n: nat, i: nat)
    requires DistinctIds(artifacts) && i <= m && n < m <= |artifacts| && d.ledger == LedgerOf(artifacts, n)
    ensures var d' := ApplyFrom(d, artifacts, LedgerOf(artifacts, m).Keys, None, i, Report(0, i, 0), map[]).0;
            RecordsPrefix(d'.ledger, artifacts) <==> m == |artifacts| || !artifacts[m].sql.accepted
  {
    hide LedgerOf, RecordsPrefix, ApplyTx;
    var known := LedgerOf(artifacts, m).Keys;
    LoopSkips(d, artifacts, m, i);
    LedgerOfNames(artifacts, m);
    LedgerOfNames(artifacts, n);
    if m == |artifacts| || !artifacts[m].sql.accepted {
      PrefixItself(artifacts, n);
    } else {
      RecordsBeyond(d, artifacts, n, m);
      var d1 := ApplyTx(d, artifacts[m], true, map[]).0;
      var end := ApplyFrom(d1, artifacts, known + {artifacts[m].id}, None, m + 1, Report(1, m, 0), map[]).0;
      KnownIsNotRecorded(d1, artifacts, known + {artifacts[m].id}, None, m + 1, Report(1, m, 0), map[], artifacts[n].id);
      KnownIsNotRecorded(d1, artifacts, known + {artifacts[m].id}, None, m + 1, Report(1, m, 0), map[], artifacts[m].id);
      GapIsNoPrefix(end.ledger, artifacts, n, m);
    }
  }

  lemma {:induction false} PrefixItself(artifacts: seq<Migration>, n: nat)
    requires n <= |artifacts|
    ensures RecordsPrefix(LedgerOf(artifacts, n), artifacts)
  {
  }

  lemma {:induction false} RecordsBeyond(d: Db, artifacts: seq<Migration>, n: nat, m: nat)
    requires DistinctIds(artifacts) && n < m < |artifacts| && d.ledger == LedgerOf(artifacts, n)
    ensures var tx := ApplyTx(d, artifacts[m], true, map[]);
            tx.1 == Ok(true) && artifacts[m].id in tx.0.ledger && artifacts[n].id !in tx.0.ledger
  {
    hide LedgerOf;
    LedgerOfNames(artifacts, n);
  }

  /** When may rollbacks commit behind the back of an apply? An apply that took the first `m` artifacts
      as applied, read or applied by itself, and goes on from position `i` on a ledger of the first `n`
      leaves a prefix if and only if nothing it relies on was rolled back, or it has nothing left to
      record. Everything before position `i` has been applied or is taken as applied. */
  lemma {:induction false} OvertakenApplyIff(d: Db, artifacts: seq<Migration>, m: nat, n: nat, i: nat, report: Report)
    requires DistinctIds(artifacts) && m <= |artifacts| && n <= |artifacts| && (i <= n || i <= m)
    requires d.ledger == LedgerOf(artifacts, n)
    ensures var d' := ApplyFrom(d, artifacts, LedgerOf(artifacts, m).Keys, None, i, report, map[]).0;
            RecordsPrefix(d'.ledger, artifacts) <==> m <= n || m == |artifacts| || !artifacts[m].sql.accepted
  {
    hide LedgerOf, ForwardSql, ApplyFrom, RecordsPrefix;
    var known := LedgerOf(artifacts, m).Keys;
    ReportIrrelevant(d, artifacts, known, None, i, report, Report(0, i, 0), map[]);
    if m <= n {
      var c := Applying(known, None, i, Report(0, i, 0));
      LedgerOfKeys(artifacts, m);
      ApplyInvInitially(d, artifacts, n);
      var n' := LoopLeavesPrefix(d, d, c, artifacts, n, n, n, map[]);
      PrefixItself(artifacts, n');
    } else {
      ResumesBehind(d, artifacts, m, n, i);
    }
  }

  // ---------------------------------------------------------------- a rollback overtaken by applies

  /** A rollback that planned to take artifact `j - 1` off a ledger that has grown to the first `n`
      leaves a prefix if and only if it was not overtaken, or is refused by the newest-row check. */
  lemma {:induction false} OvertakenRollbackIff(d: Db, artifacts: seq<Migration>, j: nat, n: nat)
    requires DistinctIds(artifacts) && 0 < j <= n <= |artifacts| && d.ledger == LedgerOf(artifacts, n)
    requires artifacts[j - 1].rollback.Some?
    ensures var m := artifacts[j - 1];
            RecordsPrefix(RollbackTx(d, m, m.rollback.value, map[]).0.ledger, artifacts)
            <==> j == n || !IsNewest(d.ledger, m.id)
  {
    hide LedgerOf, RecordsPrefix, Newest;
    var m := artifacts[j - 1];
    LedgerOfNames(artifacts, n);
    PrefixItself(artifacts, n);
    if j == n {
      RollbackNewestRow(d, artifacts, n, map[]);
      PrefixItself(artifacts, n - 1);
    } else if IsNewest(d.ledger, m.id) {
      GapIsNoPrefix(d.ledger - {m.id}, artifacts, j - 1, n - 1);
    }
  }

  // ---------------------------------------------------------------- runs of both kinds of calls

  /** What a committed transaction does to the recorded prefix. */
  datatype Move = Forward | Adoption | Backward

  /** Where the moves lead from the first `n0` artifacts, and the SQL they commit; `None` when one of
      them is not possible. */
  ghost function Walk(artifacts: seq<Migration>, n0: nat, moves: seq<Move>): (r: Option<(nat, seq<Statement>)>)
    requires n0 <= |artifacts|
    ensures r.Some? ==> r.value.0 <= |artifacts|
  {
    if moves == [] then Some((n0, []))
    else
      match Walk(artifacts, n0, moves[..|moves| - 1])
      case None => None
      case Some((n, sql)) =>
        match moves[|moves| - 1]
        case Forward => if n < |artifacts| then Some((n + 1, sql + artifacts[n].sql.statements)) else None
        case Adoption => if n == 0 && artifacts != [] then Some((1, sql)) else None
        case Backward =>
          if n > 0 && artifacts[n - 1].rollback.Some? then
            Some((n - 1, sql + artifacts[n - 1].rollback.value.statements))
          else None
  }

  ghost predicate PlanOk(todo: seq<Migration>, artifacts: seq<Migration>, n: nat) {
    if IncreasingIds(artifacts) then forall m :: m in todo ==> m in artifacts && m.rollback.Some?
    else TodoOk(todo, artifacts, n)
  }

  ghost predicate MixedClientOk(c: Client, artifacts: seq<Migration>, n: nat) {
    match c
    case Applying(_, _, _, _) => ApplyClientOk(c, artifacts, n)
    case Applied(report) => report.applied + report.skipped + report.adopted == |artifacts|
    case Checking(todo) => PlanOk(todo, artifacts, n)
    case Rolling(todo, _) => PlanOk(todo, artifacts, n)
    case _ => true
  }

  ghost predicate MixedAt(base: Db, d: Db, artifacts: seq<Migration>, n0: nat, moves: seq<Move>, n: nat) {
    && n0 <= |artifacts|
    && Walk(artifacts, n0, moves).Some? && Walk(artifacts, n0, moves).value.0 == n
    && d == Db(LedgerOf(artifacts, n), base.trace + Walk(artifacts, n0, moves).value.1)
  }

  ghost predicate MixedInv(base: Db, s: System, artifacts: seq<Migration>, n0: nat, moves: seq<Move>, n: nat) {
    && MixedAt(base, s.db, artifacts, n0, moves, n)
    && forall c :: c in s.clients ==> MixedClientOk(c, artifacts, n)
  }

  /** No rollback commits while an apply is between its read of the ids and its end; and, unless ids
      grow along the list, no apply commits while a rollback is between its plan and its end. */
  ghost predicate TakesTurns(s: System, a: Action, artifacts: seq<Migration>) {
    a.Advance? && a.client < |s.clients| && Step(s, a, artifacts).db.ledger != s.db.ledger ==>
      if s.clients[a.client].Rolling? then forall c :: c in s.clients ==> !c.Applying?
      else IncreasingIds(artifacts) || forall c :: c in s.clients ==> !c.Checking? && !c.Rolling?
  }

  ghost predicate TakesTurnsRun(s: System, actions: seq<Action>, artifacts: seq<Migration>)
    decreases |actions|
  {
    actions == [] ||
    (TakesTurns(s, actions[0], artifacts) && TakesTurnsRun(Step(s, actions[0], artifacts), actions[1..], artifacts))
  }

  lemma {:induction false} OneMove(base: Db, d: Db, d': Db, artifacts: seq<Migration>, n0: nat, moves: seq<Move>, n: nat,
                                   move: Move, n': nat, sql: seq<Statement>)
    requires MixedAt(base, d, artifacts, n0, moves, n)
    requires n' <= |artifacts| && d' == Db(LedgerOf(artifacts, n'), d.trace + sql)
    requires match move
             case Forward => n < |artifacts| && n' == n + 1 && sql == artifacts[n].sql.statements
             case Adoption => n == 0 && n' == 1 && sql == []
             case Backward => n > 0 && n' == n - 1 && artifacts[n - 1].rollback.Some?
                              && sql == artifacts[n - 1].rollback.value.statements
    ensures MixedAt(base, d', artifacts, n0, moves + [move], n')
  {
    hide LedgerOf;
    assert (moves + [move])[..|moves|] == moves;
    var before := Walk(artifacts, n0, moves).value.1;
    assert base.trace + before + sql == base.trace + (before + sql);
    assert before + [] == before && d.trace + [] == d.trace;
  }

  /** What the step of one client does: at most one move, and which. */
  ghost predicate Moved(d: Db, d': Db, artifacts: seq<Migration>, n: nat, n': nat) {
    n <= |artifacts| && n' <= |artifacts| &&
    if d' == d then n' == n
    else if n' == n + 1 then
      || d' == Db(LedgerOf(artifacts, n'), d.trace + artifacts[n].sql.statements)
      || (n == 0 && d' == Db(LedgerOf(artifacts, n'), d.trace + []))
    else
      && n' == n - 1 && artifacts[n'].rollback.Some?
      && d' == Db(LedgerOf(artifacts, n'), d.trace + artifacts[n'].rollback.value.statements)
  }

  lemma {:induction false} MovedIsMove(base: Db, d: Db, d': Db, artifacts: seq<Migration>, n0: nat, moves: seq<Move>,
                                       n: nat, n': nat)
    returns (moves': seq<Move>)
    requires MixedAt(base, d, artifacts, n0, moves, n) && Moved(d, d', artifacts, n, n')
    ensures moves <= moves' && MixedAt(base, d', artifacts, n0, moves', n')
  {
    hide LedgerOf, MixedAt;
    moves' := moves;
    if d' != d {
      if n' == n - 1 {
        OneMove(base, d, d', artifacts, n0, moves, n, Backward, n', artifacts[n'].rollback.value.statements);
        moves' := moves + [Backward];
      } else if d' == Db(LedgerOf(artifacts, n'), d.trace + artifacts[n].sql.statements) {
        OneMove(base, d, d', artifacts, n0, moves, n, Forward, n', artifacts[n].sql.statements);
        moves' := moves + [Forward];
      } else {
        OneMove(base, d, d', artifacts, n0, moves, n, Adoption, n', []);
        moves' := moves + [Adoption];
      }
    }
  }

  lemma {:induction false} ApplyingMoves(d: Db, c: Client, artifacts: seq<Migration>, n: nat, faults: Faults) returns (n': nat)
    requires DistinctIds(artifacts) && c.Applying? && ApplyClientOk(c, artifacts, n) && d.ledger == LedgerOf(artifacts, n)
    ensures n <= n' && Moved(d, ClientStep(d, c, artifacts, faults).0, artifacts, n, n')
    ensures MixedClientOk(ClientStep(d, c, artifacts, faults).1, artifacts, n')
  {
    hide LedgerOf, ApplyTx, ApplyStep;
    ApplyInvInitially(d, artifacts, n);
    n' := ApplyLoopStep(d, d, c, artifacts, n, n, n, faults);
    assert ForwardSql(artifacts, n, n) == [] && d.trace + [] == d.trace;
    if n' == n + 1 {
      assert ForwardSql(artifacts, n, n') == [] + artifacts[n].sql.statements == artifacts[n].sql.statements;
      LedgersDiffer(artifacts, n);
    }
    ApplyStepKinds(d, c, artifacts, faults);
  }

  lemma {:induction false} LedgersDiffer(artifacts: seq<Migration>, n: nat)
    requires n < |artifacts| && DistinctIds(artifacts)
    ensures LedgerOf(artifacts, n) != LedgerOf(artifacts, n + 1)
  {
    LedgerOfNames(artifacts, n);
  }

  lemma {:induction false} ApplyStepKinds(d: Db, c: Client, artifacts: seq<Migration>, faults: Faults)
    requires c.Applying?
    ensures var c' := ApplyStep(d, c, artifacts, faults).1; c'.Applying? || c'.Applied? || c'.Failed?
  {
    hide ApplyTx;
  }

  lemma {:induction false} AdoptingMoves(d: Db, artifacts: seq<Migration>, n: nat, faults: Faults) returns (n': nat)
    requires DistinctIds(artifacts) && n <= |artifacts| && d.ledger == LedgerOf(artifacts, n)
    ensures n <= n' && Moved(d, ClientStep(d, Adopting, artifacts, faults).0, artifacts, n, n')
    ensures MixedClientOk(ClientStep(d, Adopting, artifacts, faults).1, artifacts, n')
  {
    hide LedgerOf, ApplyTx;
    n' := n;
    if artifacts != [] {
      RecordsNext(d, artifacts, n, 0, false, faults);
      if n == 0 && ApplyTx(d, artifacts[0], false, faults).1.Ok? {
        n' := 1;
        LedgersDiffer(artifacts, 0);
      }
    }
  }

  lemma {:induction false} TodoMembers(todo: seq<Migration>, artifacts: seq<Migration>, n: nat)
    requires TodoOk(todo, artifacts, n)
    ensures forall m :: m in todo ==> m in artifacts && m.rollback.Some?
  {
    hide Suffix, Reversible;
    var lo: nat, j: nat :| TodoIs(todo, artifacts, n, lo, j);
    SuffixMembers(artifacts, lo, j);
  }

  lemma {:induction false} SuffixMembers(artifacts: seq<Migration>, lo: nat, hi: nat)
    requires lo <= hi <= |artifacts|
    ensures forall m :: m in Suffix(artifacts, lo, hi) ==> m in artifacts
    decreases hi
  {
    hide Suffix;
    SuffixSplits(artifacts, lo, hi);
    if lo < hi {
      SuffixMembers(artifacts, lo, hi - 1);
      var suffix := Suffix(artifacts, lo, hi);
      assert suffix == [suffix[0]] + suffix[1..];
    }
  }

  lemma {:induction false} RollsBackLastOfIncreasing(d: Db, artifacts: seq<Migration>, n: nat, m: Migration, faults: Faults)
    requires n <= |artifacts| && IncreasingIds(artifacts) && d.ledger == LedgerOf(artifacts, n)
    requires m in artifacts && m.rollback.Some?
    ensures var tx := RollbackTx(d, m, m.rollback.value, faults);
            && (tx.1.Err? ==> tx.0 == d)
            && (tx.1.Ok? ==> n > 0 && artifacts[n - 1] == m && UndoneTo(d, tx.0, artifacts, n - 1, n))
  {
    var tx := RollbackTx(d, m, m.rollback.value, faults);
    if tx.1.Ok? {
      LedgerOfKeys(artifacts, n);
      var k :| 0 <= k < |artifacts| && artifacts[k] == m;
      assert k == n - 1;
      RollbackNewestRow(d, artifacts, n, faults);
      UndoneOne(d, tx.0, artifacts, n);
    }
  }

  lemma {:induction false} RollingMoves(d: Db, c: Client, artifacts: seq<Migration>, n: nat, faults: Faults) returns (n': nat)
    requires DistinctIds(artifacts) && n <= |artifacts| && d.ledger == LedgerOf(artifacts, n)
    requires c.Rolling? && PlanOk(c.todo, artifacts, n)
    ensures n' <= n && Moved(d, ClientStep(d, c, artifacts, faults).0, artifacts, n, n')
    ensures MixedClientOk(ClientStep(d, c, artifacts, faults).1, artifacts, n')
  {
    hide LedgerOf, RollbackTx, TodoOk, IncreasingIds;
    n' := n;
    if c.todo != [] {
      assert c.todo[0] in c.todo;
      if IncreasingIds(artifacts) {
        RollsBackLastOfIncreasing(d, artifacts, n, c.todo[0], faults);
      } else {
        RollsBackLast(d, c.todo, artifacts, n, faults);
      }
      var tx := RollbackTx(d, c.todo[0], c.todo[0].rollback.value, faults);
      if tx.1.Ok? {
        n' := n - 1;
        UndoneSql(d, tx.0, artifacts, n);
        LedgersDiffer(artifacts, n - 1);
      }
    }
  }

  lemma {:induction false} UndoneSql(d: Db, d': Db, artifacts: seq<Migration>, n: nat)
    requires n > 0 && UndoneTo(d, d', artifacts, n - 1, n)
    ensures artifacts[n - 1].rollback.Some?
    ensures d' == Db(LedgerOf(artifacts, n - 1), d.trace + artifacts[n - 1].rollback.value.statements)
  {
    hide LedgerOf;
    assert ReverseSql(artifacts, n - 1, n) == artifacts[n - 1].rollback.value.statements + [];
  }

  /** One step of any client makes at most one move and leaves the client in order. */
  lemma {:induction false} ClientMoves(d: Db, c: Client, artifacts: seq<Migration>, n: nat, faults: Faults) returns (n': nat)
    requires DistinctIds(artifacts) && n <= |artifacts| && d.ledger == LedgerOf(artifacts, n)
    requires MixedClientOk(c, artifacts, n)
    ensures Moved(d, ClientStep(d, c, artifacts, faults).0, artifacts, n, n')
    ensures MixedClientOk(ClientStep(d, c, artifacts, faults).1, artifacts, n')
    ensures if c.Rolling? then n' <= n else n <= n'
  {
    hide LedgerOf, RollbackTx, ApplyTx, ApplyStep, TodoOk, IncreasingIds, RollbackPlan, PrepareLedger, DistinctIds;
    n' := n;
    if c.Applying? {
      n' := ApplyingMoves(d, c, artifacts, n, faults);
    } else if c.Adopting? {
      n' := AdoptingMoves(d, artifacts, n, faults);
    } else if c.Rolling? {
      n' := RollingMoves(d, c, artifacts, n, faults);
    } else if c.Choosing? && RollbackPlan(d.ledger, artifacts, c.selection).Ok? {
      PlansSuffix(d.ledger, artifacts, c.selection, n);
      TodoMembers(RollbackPlan(d.ledger, artifacts, c.selection).value, artifacts, n);
    } else if c.Preparing? {
      ReadsKnown(artifacts, n);
    }
  }

  lemma {:induction false} ReadsKnown(artifacts: seq<Migration>, n: nat)
    requires n <= |artifacts|
    ensures PrepareLedger(LedgerOf(artifacts, n), artifacts).Ok? ==>
              ApplyClientOk(Applying(PrepareLedger(LedgerOf(artifacts, n), artifacts).value, None, 0, Report(0, 0, 0)),
                            artifacts, n)
  {
    LedgerOfKeys(artifacts, n);
  }

  lemma {:induction false} MixedClientStays(c: Client, artifacts: seq<Migration>, n: nat, n': nat)
    requires MixedClientOk(c, artifacts, n) && n' <= |artifacts|
    requires n' < n ==> !c.Applying?
    requires n < n' ==> IncreasingIds(artifacts) || (!c.Checking? && !c.Rolling?)
    ensures MixedClientOk(c, artifacts, n')
  {
    hide IncreasingIds, TodoOk;
    if c.Applying? {
      ApplyClientOkGrows(c, artifacts, n, n');
    } else if (c.Checking? || c.Rolling?) && !IncreasingIds(artifacts) {
      RollbackClientOkShrinks(c, artifacts, n, n');
    }
  }

  lemma {:induction false} MixedStepKeeps(base: Db, s: System, a: Action, artifacts: seq<Migration>, n0: nat,
                                          moves: seq<Move>, n: nat)
    returns (moves': seq<Move>, n': nat)
    requires DistinctIds(artifacts) && MixedInv(base, s, artifacts, n0, moves, n) && TakesTurns(s, a, artifacts)
    ensures moves <= moves' && MixedInv(base, Step(s, a, artifacts), artifacts, n0, moves', n')
  {
    hide ClientStep, LedgerOf, MixedClientOk, IncreasingIds, Walk, DistinctIds;
    moves', n' := moves, n;
    if a.Advance? && a.client < |s.clients| {
      var c := s.clients[a.client];
      var d' := ClientStep(s.db, c, artifacts, a.faults).0;
      n' := ClientMoves(s.db, c, artifacts, n, a.faults);
      moves' := MovedIsMove(base, s.db, d', artifacts, n0, moves, n, n');
      MovedChangesLedger(s.db, d', artifacts, n, n');
      forall other | other in s.clients ensures MixedClientOk(other, artifacts, n') {
        MixedClientStays(other, artifacts, n, n');
      }
    } else {
      FreshIsOk(artifacts, n);
    }
  }

  lemma {:induction false} FreshIsOk(artifacts: seq<Migration>, n: nat)
    ensures MixedClientOk(Killed, artifacts, n)
    ensures forall mode :: MixedClientOk(Inspecting(mode), artifacts, n)
    ensures forall selection :: MixedClientOk(Choosing(selection), artifacts, n)
  {
  }

  lemma {:induction false} MovedChangesLedger(d: Db, d': Db, artifacts: seq<Migration>, n: nat, n': nat)
    requires DistinctIds(artifacts) && Moved(d, d', artifacts, n, n') && d.ledger == LedgerOf(artifacts, n)
    ensures n' <= |artifacts| && (n' != n ==> d'.ledger != d.ledger)
  {
    hide LedgerOf;
    if n' == n + 1 { LedgersDiffer(artifacts, n); }
    if n == n' + 1 { LedgersDiffer(artifacts, n'); }
  }

  /** Safety of mixed calls: over every interleaving of applies and rollbacks, kill and database
      failure in which neither kind commits behind the other's back, the ledger is always that of a
      prefix, reached by single moves whose SQL has been committed in that order. */
  lemma {:induction false} MixedCalls(base: Db, s: System, actions: seq<Action>, artifacts: seq<Migration>, n0: nat,
                                      moves: seq<Move>, n: nat)
    requires DistinctIds(artifacts) && MixedInv(base, s, artifacts, n0, moves, n) && TakesTurnsRun(s, actions, artifacts)
    ensures exists moves': seq<Move>, n': nat ::
              moves <= moves' && MixedInv(base, Run(s, actions, artifacts), artifacts, n0, moves', n')
    decreases |actions|
  {
    hide Step, MixedInv, TakesTurns, DistinctIds;
    if actions != [] {
      var moves1, n1 := MixedStepKeeps(base, s, actions[0], artifacts, n0, moves, n);
      MixedCalls(base, Step(s, actions[0], artifacts), actions[1..], artifacts, n0, moves1, n1);
      assert Run(s, actions, artifacts) == Run(Step(s, actions[0], artifacts), actions[1..], artifacts);
    } else {
      assert Run(s, actions, artifacts) == s;
    }
  }

  /** The same from the start, when nobody has called yet. */
  lemma {:induction false} MixedCallsFromStart(d: Db, actions: seq<Action>, artifacts: seq<Migration>, n0: nat)
    requires n0 <= |artifacts| && DistinctIds(artifacts) && d.ledger == LedgerOf(artifacts, n0)
    requires TakesTurnsRun(System(d, []), actions, artifacts)
    ensures RecordsPrefix(Run(System(d, []), actions, artifacts).db.ledger, artifacts)
    ensures exists moves, n :: MixedAt(d, Run(System(d, []), actions, artifacts).db, artifacts, n0, moves, n)
  {
    hide Run, TakesTurnsRun, Walk, LedgerOf, MixedClientOk;
    MixedInvInitially(d, artifacts, n0);
    MixedCalls(d, System(d, []), actions, artifacts, n0, [], n0);
    var moves, n :| MixedInv(d, Run(System(d, []), actions, artifacts), artifacts, n0, moves, n);
    MixedIsPrefix(d, Run(System(d, []), actions, artifacts).db, artifacts, n0, moves, n);
  }

  lemma {:induction false} MixedIsPrefix(base: Db, d: Db, artifacts: seq<Migration>, n0: nat, moves: seq<Move>, n: nat)
    requires MixedAt(base, d, artifacts, n0, moves, n)
    ensures RecordsPrefix(d.ledger, artifacts)
  {
    hide LedgerOf;
  }

  lemma {:induction false} MixedInvInitially(d: Db, artifacts: seq<Migration>, n0: nat)
    requires n0 <= |artifacts| && d.ledger == LedgerOf(artifacts, n0)
    ensures MixedInv(d, System(d, []), artifacts, n0, [], n0)
  {
    assert d.trace + [] == d.trace;
  }

  // ---------------------------------------------------------------- an interleaving that leaves a gap

  lemma {:induction false} RunTrail(states: seq<System>, actions: seq<Action>, artifacts: seq<Migration>)
    requires |states| == |actions| + 1
    requires forall k :: 0 <= k < |actions| ==> states[k + 1] == Step(states[k], actions[k], artifacts)
    ensures Run(states[0], actions, artifacts) == states[|actions|]
    decreases |actions|
  {
    if actions != [] { RunTrail(states[1..], actions[1..], artifacts); }
  }

  lemma {:induction false} PlansTheOnlyOne(m1: Migration, m2: Migration)
    requires m1.id < m2.id && m1.rollback.Some? && m1.rollback.value.accepted
    ensures PrepareLedger(map[m1.id := m1.name], [m1, m2]) == Ok({m1.id})
    ensures RollbackPlan(map[m1.id := m1.name], [m1, m2], Steps(1)) == Ok([m1])
  {
    var artifacts := [m1, m2];
    assert LedgerOf(artifacts, 0) == map[];
    assert LedgerOf(artifacts, 1) == map[m1.id := m1.name];
    assert map[m1.id := m1.name].Keys == {m1.id};
    PrefixLedgerIsAccepted(artifacts, 1);
    SelectsSuffix(artifacts, 1, Steps(1));
    CollectsSuffix(artifacts, 0, 1);
    assert Reversible(artifacts, 0, 1);
    SuffixSplits(artifacts, 0, 1);
    SuffixSplits(artifacts, 0, 0);
    hide Suffix, IdSuffix, LedgerOf, SelectRollbackIds, Collect, CutLength, PrepareLedger;
    assert Suffix(artifacts, 0, 1) == [m1] + Suffix(artifacts, 0, 1)[1..] == [m1];
    assert Collect(artifacts, IdSuffix(artifacts, 0, 1)) == Ok([m1]);
    assert SelectRollbackIds(Ids(artifacts)[..1], Steps(1)) == Ok(IdSuffix(artifacts, 0, 1));
  }

  lemma {:induction false} OnlySecondIsAGap(m1: Migration, m2: Migration)
    requires m1.id < m2.id
    ensures RollbackPlan(map[m2.id := m2.name], [m1, m2], Steps(1)) == Err(LineageGap)
  {
    var ledger := map[m2.id := m2.name];
    assert [m1, m2][1] == m2;
    assert Tracked([m1, m2], m2.id, m2.name);
    assert Ids([m1, m2])[0] !in ledger.Keys && Ids([m1, m2])[1] in ledger.Keys;
  }

  /** An apply that has read the ledger `{m1}`, and a rollback of `m1` that finishes before the apply goes on. */
  lemma {:induction false} RollbackOvertakes(m1: Migration, m2: Migration)
    requires m1.id < m2.id && m1.rollback.Some? && m1.rollback.value.accepted
    ensures var d := Db(map[m1.id := m1.name], []);
            var d' := Db(map[], m1.rollback.value.statements);
            && ClientStep(d, Choosing(Steps(1)), [m1, m2], map[]) == (d, Checking([m1]))
            && ClientStep(d, Checking([m1]), [m1, m2], map[]) == (d, Rolling([m1], 0))
            && ClientStep(d, Rolling([m1], 0), [m1, m2], map[]) == (d', Rolling([], 1))
            && ClientStep(d', Rolling([], 1), [m1, m2], map[]) == (d', RolledBack(1))
  {
    hide RollbackPlan, PrepareLedger, RollbackTx, ApplyTx, ApplyStep;
    PlansTheOnlyOne(m1, m2);
    RollsBackTheOnlyOne(m1);
    assert [m1][1..] == [];
  }

  lemma {:induction false} RollsBackTheOnlyOne(m: Migration)
    requires m.rollback.Some?
    ensures RollbackTx(Db(map[m.id := m.name], []), m, m.rollback.value, map[])
         == (Db(map[], m.rollback.value.statements), Ok(()))
  {
    var ledger := map[m.id := m.name];
    assert m.id in ledger && ledger - {m.id} == map[];
    assert [] + m.rollback.value.statements == m.rollback.value.statements;
  }

  lemma {:induction false} ApplyGoesOn(m1: Migration, m2: Migration)
    requires m1.id < m2.id && m1.rollback.Some? && m1.rollback.value.accepted && m2.sql.accepted
    ensures var d := Db(map[m1.id := m1.name], []);
            var d' := Db(map[], m1.rollback.value.statements);
            var d'' := Db(map[m2.id := m2.name], m1.rollback.value.statements + m2.sql.statements);
            var c := Applying({m1.id}, None, 0, Report(0, 0, 0));
            var c' := Applying({m1.id}, None, 1, Report(0, 1, 0));
            var c'' := Applying({m1.id, m2.id}, None, 2, Report(1, 1, 0));
            && ClientStep(d, Inspecting(Execute), [m1, m2], map[]) == (d, Preparing(Execute))
            && ClientStep(d, Preparing(Execute), [m1, m2], map[]) == (d, c)
            && ClientStep(d', c, [m1, m2], map[]) == (d', c')
            && ClientStep(d', c', [m1, m2], map[]) == (d'', c'')
            && ClientStep(d'', c'', [m1, m2], map[]) == (d'', Applied(Report(1, 1, 0)))
  {
    hide RollbackPlan, PrepareLedger, RollbackTx;
    PlansTheOnlyOne(m1, m2);
    assert {m1.id} + {m2.id} == {m1.id, m2.id};
  }

  /** Mixing the two kinds does break the prefix: an apply works from the ids it read at its start.
      A rollback of migration 1 between that read and the apply's loop leaves only migration 2, and
      every later rollback is refused. */
  lemma {:induction false} MixedCallsLeaveGap(m1: Migration, m2: Migration)
    requires m1.id < m2.id && m2.sql.accepted && m1.rollback.Some? && m1.rollback.value.accepted
    ensures var artifacts := [m1, m2];
            var start := System(Db(map[m1.id := m1.name], []), []);
            var go := c => Advance(c, map[]);
            var end := Run(start, [SpawnApply(Execute), SpawnRollback(Steps(1)), go(0), go(0),
                                   go(1), go(1), go(1), go(1), go(0), go(0), go(0)], artifacts);
            && end.clients == [Applied(Report(1, 1, 0)), RolledBack(1)]
            && end.db.ledger == map[m2.id := m2.name]
            && RollbackPlan(end.db.ledger, artifacts, Steps(1)) == Err(LineageGap)
  {
    hide ClientStep, RollbackPlan, Run;
    var artifacts := [m1, m2];
    var d := Db(map[m1.id := m1.name], []);
    var d' := Db(map[], m1.rollback.value.statements);
    var d'' := Db(map[m2.id := m2.name], m1.rollback.value.statements + m2.sql.statements);
    var c := Applying({m1.id}, None, 0, Report(0, 0, 0));
    var c' := Applying({m1.id}, None, 1, Report(0, 1, 0));
    var c'' := Applying({m1.id, m2.id}, None, 2, Report(1, 1, 0));
    var roll := Choosing(Steps(1));
    var go := c => Advance(c, map[]);
    OnlySecondIsAGap(m1, m2);
    RollbackOvertakes(m1, m2);
    ApplyGoesOn(m1, m2);
    var states := [System(d, []), System(d, [Inspecting(Execute)]), System(d, [Inspecting(Execute), roll]),
                   System(d, [Preparing(Execute), roll]), System(d, [c, roll]),
                   System(d, [c, Checking([m1])]), System(d, [c, Rolling([m1], 0)]),
                   System(d', [c, Rolling([], 1)]), System(d', [c, RolledBack(1)]),
                   System(d', [c', RolledBack(1)]), System(d'', [c'', RolledBack(1)]),
                   System(d'', [Applied(Report(1, 1, 0)), RolledBack(1)])];
    RunTrail(states, [SpawnApply(Execute), SpawnRollback(Steps(1)), go(0), go(0),
                      go(1), go(1), go(1), go(1), go(0), go(0), go(0)], artifacts);
  }
}
