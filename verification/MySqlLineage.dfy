/** What an interrupted or finished MySQL history means for a generated lineage: the live schema is the
    snapshot of the newest ledgered migration, or a marker says how many statements of the next step
    have run on top of one. */
module MySqlLineage {
  import opened Wrappers
  import opened MySqlProtocol
  import S = MySqlSafety
  import G = Lineage
  import H = LineageLaws
  import A = ArtifactStore
  import AL = ArtifactLaws
  import P = TransactionalLaws

  // ---------------------------------------------------------------- histories of one lineage

  /** The operation applies, records or rolls back migration `k`. */
  predicate OpOf(toasty: G.Toasty, done: seq<A.Owned>, op: Op, k: nat) {
    && k < |done| && op.id == done[k].id && op.name == done[k].name && !op.kind.Prepare?
    && (op.kind.Apply? ==> op.sql == G.Statements(toasty, done[k].sql))
    && (op.kind.Rollback? ==> done[k].rollback.Some? && op.sql == G.Statements(toasty, done[k].rollback.value))
  }

  ghost predicate FromLineage(toasty: G.Toasty, done: seq<A.Owned>, op: Op) {
    exists k: nat :: OpOf(toasty, done, op, k)
  }

  ghost predicate AllFromLineage(toasty: G.Toasty, done: seq<A.Owned>, log: seq<Op>) {
    forall j :: 0 <= j < |log| ==> FromLineage(toasty, done, log[j])
  }

  /** The ledger that records the first `n` migrations. */
  ghost function Ledger(toasty: G.Toasty, done: seq<A.Owned>, n: nat): map<nat, string>
    requires n <= |done|
  {
    P.LedgerOf(G.Migrations(toasty, done), n)
  }

  lemma {:induction false} LedgerKeys(toasty: G.Toasty, done: seq<A.Owned>, n: nat)
    requires n <= |done| && AL.Numbered(done)
    ensures forall id: nat :: id in Ledger(toasty, done, n) <==> 0 < id <= n
  {
    hide P.LedgerOf, G.Script;
    var artifacts := G.Migrations(toasty, done);
    P.LedgerOfKeys(artifacts, n);
    forall id: nat | 0 < id <= n ensures id in Ledger(toasty, done, n) {
      assert artifacts[id - 1].id == id;
    }
  }

  lemma {:induction false} LedgerGrows(toasty: G.Toasty, done: seq<A.Owned>, n: nat)
    requires n < |done| && AL.Numbered(done)
    ensures Ledger(toasty, done, n + 1) == Ledger(toasty, done, n)[n + 1 := done[n].name]
    ensures Ledger(toasty, done, n + 1) - {n + 1} == Ledger(toasty, done, n)
  {
    hide G.Script;
    LedgerKeys(toasty, done, n);
  }

  lemma {:induction false} LedgerSize(toasty: G.Toasty, done: seq<A.Owned>, n: nat)
    requires n <= |done| && AL.Numbered(done)
    ensures |Ledger(toasty, done, n)| == n
  {
    if n == 0 {
      EmptyIsPrefix(toasty, done);
    } else {
      hide AL.Numbered, Ledger;
      LedgerSize(toasty, done, n - 1);
      LedgerGrows(toasty, done, n - 1);
      LedgerKeys(toasty, done, n - 1);
      OneRowMore(Ledger(toasty, done, n - 1), n, done[n - 1].name);
    }
  }

  lemma {:induction false} OneRowMore(ledger: map<nat, string>, id: nat, name: string)
    requires id !in ledger
    ensures |ledger[id := name]| == |ledger| + 1
  {
    assert ledger[id := name].Keys == ledger.Keys + {id};
  }

  /** Every apply took the migration that followed the ledgered ones. */
  ghost predicate InOrder(log: seq<Op>) {
    log == [] ||
    var init, op := log[..|log| - 1], log[|log| - 1];
    InOrder(init) && (!op.kind.Rollback? ==> op.id == |Applied(init)| + 1)
  }

  ghost predicate IsPrefix(toasty: G.Toasty, done: seq<A.Owned>, ledger: map<nat, string>) {
    |ledger| <= |done| && ledger == Ledger(toasty, done, |ledger|)
  }

  /** At every point of the history, the ledger records a prefix of the lineage. */
  ghost predicate AlwaysPrefix(toasty: G.Toasty, done: seq<A.Owned>, log: seq<Op>) {
    IsPrefix(toasty, done, Applied(log)) && (log == [] || AlwaysPrefix(toasty, done, log[..|log| - 1]))
  }

  lemma {:induction false} AppliesNext(toasty: G.Toasty, done: seq<A.Owned>, ledger: map<nat, string>, op: Op)
    requires AL.Numbered(done) && IsPrefix(toasty, done, ledger) && FromLineage(toasty, done, op)
    requires !op.kind.Rollback? && Allowed(ledger, op)
    ensures IsPrefix(toasty, done, ledger[op.id := op.name]) <==> op.id == |ledger| + 1
    ensures |ledger[op.id := op.name]| == |ledger| + 1
    ensures op.id == |ledger| + 1 ==> |ledger| < |done| && OpOf(toasty, done, op, |ledger|)
  {
    hide Ledger;
    var n, longer := |ledger|, ledger[op.id := op.name];
    var k: nat :| OpOf(toasty, done, op, k);
    OneRowMore(ledger, op.id, op.name);
    LedgerKeys(toasty, done, n);
    if n < |done| {
      LedgerKeys(toasty, done, n + 1);
      LedgerGrows(toasty, done, n);
      assert n + 1 in Ledger(toasty, done, n + 1);
    }
  }

  lemma {:induction false} RollsBackNewest(toasty: G.Toasty, done: seq<A.Owned>, ledger: map<nat, string>, op: Op)
    requires AL.Numbered(done) && IsPrefix(toasty, done, ledger) && FromLineage(toasty, done, op)
    requires op.kind.Rollback? && Allowed(ledger, op)
    ensures |ledger| > 0 && OpOf(toasty, done, op, |ledger| - 1)
    ensures IsPrefix(toasty, done, ledger - {op.id}) && |ledger - {op.id}| == |ledger| - 1
  {
    hide Ledger;
    var n := |ledger|;
    var k: nat :| OpOf(toasty, done, op, k);
    LedgerKeys(toasty, done, n);
    assert n in ledger;
    LedgerGrows(toasty, done, n - 1);
    LedgerSize(toasty, done, n - 1);
  }

  /** With the ids of a generated lineage, the ledger always records a prefix exactly when every apply
      took the next migration; rollbacks never leave a gap. */
  lemma {:induction false} PrefixIffInOrder(toasty: G.Toasty, done: seq<A.Owned>, log: seq<Op>)
    requires AL.Numbered(done) && Legal(log) && AllFromLineage(toasty, done, log)
    ensures AlwaysPrefix(toasty, done, log) <==> InOrder(log)
    decreases |log|
  {
    hide IsPrefix, FromLineage, AL.Numbered, Allowed;
    if log == [] {
      EmptyIsPrefix(toasty, done);
    } else {
      var init, op := log[..|log| - 1], log[|log| - 1];
      PrefixIffInOrder(toasty, done, init);
      assert FromLineage(toasty, done, op);
      if InOrder(init) {
        if op.kind.Rollback? {
          RollsBackNewest(toasty, done, Applied(init), op);
        } else {
          AppliesNext(toasty, done, Applied(init), op);
        }
      }
    }
  }

  lemma {:induction false} EmptyIsPrefix(toasty: G.Toasty, done: seq<A.Owned>)
    ensures IsPrefix(toasty, done, Applied([]))
  {
  }

  // ---------------------------------------------------------------- the live schema

  ghost function Live(toasty: G.Toasty, base: G.Catalog, trace: seq<Statement>): G.Catalog {
    G.ExecuteAll(toasty, base, trace)
  }

  /** Nothing was executed on a database with a schema that no ledger row accounts for, and a migration
      was recorded without its SQL only when the live schema was its snapshot. */
  ghost predicate Backed(toasty: G.Toasty, base: G.Catalog, schemas: seq<G.Schema>, log: seq<Op>) {
    log == [] ||
    var init, op := log[..|log| - 1], log[|log| - 1];
    var live := Live(toasty, base, Executed(init));
    && Backed(toasty, base, schemas, init)
    && (op.kind.Apply? && Applied(init) == map[] ==> G.Holds(toasty, live, G.EMPTY))
    && (op.kind.Record? ==>
          |Applied(init)| < |schemas| && G.Holds(toasty, live, schemas[|Applied(init)|]))
  }

  /** The ledger records a prefix of the lineage, and the live schema is the snapshot of the newest
      migration in it; with none recorded it is the empty schema. */
  ghost predicate OnSnapshot(toasty: G.Toasty, done: seq<A.Owned>, schemas: seq<G.Schema>, ledger: map<nat, string>,
                             live: G.Catalog)
  {
    && IsPrefix(toasty, done, ledger) && |ledger| <= |schemas|
    && G.Holds(toasty, live, H.Before(schemas, |ledger|))
  }

  lemma {:induction false} ChainLength(toasty: G.Toasty, done: seq<A.Owned>, schemas: seq<G.Schema>)
    requires H.Chain(toasty, done, schemas)
    ensures |schemas| == |done|
  {
  }

  /** The live schema after the SQL of an operation. */
  ghost function Ran(toasty: G.Toasty, live: G.Catalog, op: Op): G.Catalog {
    if Executes(op) then G.ExecuteAll(toasty, live, op.sql) else live
  }

  lemma {:induction false} ApplyMovesOn(toasty: G.Toasty, done: seq<A.Owned>, schemas: seq<G.Schema>, op: Op,
                                        ledger: map<nat, string>, live: G.Catalog)
    requires H.Chain(toasty, done, schemas) && AL.Numbered(done) && IsPrefix(toasty, done, ledger)
    requires FromLineage(toasty, done, op) && !op.kind.Rollback? && Allowed(ledger, op)
    requires |done| == |schemas| && op.id == |ledger| + 1
    requires op.kind.Apply? ==> G.Holds(toasty, live, H.Before(schemas, |ledger|))
    requires op.kind.Record? ==> |ledger| < |schemas| && G.Holds(toasty, live, schemas[|ledger|])
    requires Executes(op) ==> G.Runs(toasty, live, op.sql)
    ensures OnSnapshot(toasty, done, schemas, ledger[op.id := op.name], Ran(toasty, live, op))
  {
    hide G.Holds, G.ExecuteAll, G.Runs, H.Chain, AL.Numbered, IsPrefix, FromLineage, Allowed;
    AppliesNext(toasty, done, ledger, op);
    H.LinkRuns(toasty, done, schemas, |ledger|, live);
  }

  lemma {:induction false} RollbackMovesBack(toasty: G.Toasty, done: seq<A.Owned>, schemas: seq<G.Schema>, op: Op,
                                             ledger: map<nat, string>, live: G.Catalog)
    requires H.Chain(toasty, done, schemas) && AL.Numbered(done) && OnSnapshot(toasty, done, schemas, ledger, live)
    requires FromLineage(toasty, done, op) && op.kind.Rollback? && Allowed(ledger, op) && |done| == |schemas|
    requires G.Runs(toasty, live, op.sql)
    ensures OnSnapshot(toasty, done, schemas, ledger - {op.id}, Ran(toasty, live, op))
  {
    hide G.Holds, G.ExecuteAll, G.Runs, H.Chain, AL.Numbered, IsPrefix, FromLineage, Allowed;
    RollsBackNewest(toasty, done, ledger, op);
    H.LinkRuns(toasty, done, schemas, |ledger| - 1, live);
  }

  lemma {:induction false} ExecutedLast(toasty: G.Toasty, base: G.Catalog, log: seq<Op>)
    requires log != []
    ensures var init, op := log[..|log| - 1], log[|log| - 1];
            && Live(toasty, base, Executed(log)) == Ran(toasty, Live(toasty, base, Executed(init)), op)
            && Applied(log) == (if op.kind.Rollback? then Applied(init) - {op.id} else Applied(init)[op.id := op.name])
            && (G.Runs(toasty, base, Executed(log)) ==>
                  && G.Runs(toasty, base, Executed(init))
                  && (Executes(op) ==> G.Runs(toasty, Live(toasty, base, Executed(init)), op.sql)))
  {
    hide G.ExecuteAll, G.Runs;
    var init, op := log[..|log| - 1], log[|log| - 1];
    if Executes(op) {
      H.ExecuteConcat(toasty, base, Executed(init), op.sql);
    } else {
      assert Executed(init) + [] == Executed(init);
    }
  }

  /** Every operation moves ledger and live schema along the chain together. */
  lemma {:induction false} HistoryOnSnapshot(toasty: G.Toasty, base: G.Catalog, done: seq<A.Owned>,
                                             schemas: seq<G.Schema>, log: seq<Op>)
    requires H.Chain(toasty, done, schemas) && AL.Numbered(done)
    requires Legal(log) && AllFromLineage(toasty, done, log) && InOrder(log) && Backed(toasty, base, schemas, log)
    requires G.Runs(toasty, base, Executed(log))
    ensures IsPrefix(toasty, done, Applied(log))
    ensures log != [] ==> OnSnapshot(toasty, done, schemas, Applied(log), Live(toasty, base, Executed(log)))
    decreases |log|
  {
    hide G.Holds, G.Runs, H.Chain, AL.Numbered, FromLineage, Allowed, IsPrefix, Live, Applied, Executed, Ran;
    ChainLength(toasty, done, schemas);
    EmptyIsPrefix(toasty, done);
    if log != [] {
      var init, op := log[..|log| - 1], log[|log| - 1];
      ExecutedLast(toasty, base, log);
      HistoryOnSnapshot(toasty, base, done, schemas, init);
      assert FromLineage(toasty, done, op);
      var ledger, live := Applied(init), Live(toasty, base, Executed(init));
      EmptyLedger(ledger);
      if op.kind.Rollback? {
        RollsBackNewest(toasty, done, ledger, op);
        RollbackMovesBack(toasty, done, schemas, op, ledger, live);
      } else {
        ApplyMovesOn(toasty, done, schemas, op, ledger, live);
      }
    }
  }

  lemma {:induction false} EmptyLedger(ledger: map<nat, string>)
    ensures Applied([]) == map[]
    ensures |ledger| == 0 <==> ledger == map[]
  {
  }

  // ---------------------------------------------------------------- over every run of the protocol

  /** The operations started on the source, listing apart, apply, record or roll back its migrations. */
  ghost predicate RunsLineage(toasty: G.Toasty, done: seq<A.Owned>, actions: seq<Action>, source: Source) {
    forall a :: a in actions && a.Start? && a.op.source == source && !a.op.kind.Prepare? ==>
                  FromLineage(toasty, done, a.op)
  }

  lemma {:induction false} LogIsOfLineage(toasty: G.Toasty, done: seq<A.Owned>, actions: seq<Action>, source: Source)
    requires ValidRun(INITIAL, actions) && RunsLineage(toasty, done, actions, source)
    ensures var db := Db(After(INITIAL, actions), source);
            Legal(db.log) && AllFromLineage(toasty, done, db.log)
  {
    hide FromLineage, Legal, ValidRun, After;
    S.RowsComeFromRuns(actions, source);
    var s := After(INITIAL, actions);
    S.ReachableInv(s);
    var db := Db(s, source);
    assert DbInv(db);
    forall j | 0 <= j < |db.log| ensures FromLineage(toasty, done, db.log[j]) {
      var op := db.log[j];
      assert op in db.log;
      var c :| Start(c, op) in actions;
      assert Start(c, op).Start?;
    }
  }

  /** Whatever runs were started on the source and however they were interleaved, failed or were cut
      off: without a marker, the ledger is a prefix of the lineage and the live schema is the snapshot
      of its newest migration, provided that applies took the next migration, the first one found the
      schema it expects, and the database had accepted what was executed. */
  lemma {:induction false} SettledOnSnapshot(toasty: G.Toasty, base: G.Catalog, done: seq<A.Owned>,
                                             schemas: seq<G.Schema>, actions: seq<Action>, source: Source)
    requires H.Chain(toasty, done, schemas) && AL.Numbered(done)
    requires ValidRun(INITIAL, actions) && RunsLineage(toasty, done, actions, source)
    requires var db := Db(After(INITIAL, actions), source);
             && db.markers == map[] && InOrder(db.log) && Backed(toasty, base, schemas, db.log)
             && G.Runs(toasty, base, db.trace)
    ensures var db := Db(After(INITIAL, actions), source);
            && IsPrefix(toasty, done, db.ledger)
            && (if db.log == [] then db.trace == []
                else OnSnapshot(toasty, done, schemas, db.ledger, Live(toasty, base, db.trace)))
  {
    hide H.Chain, AL.Numbered, RunsLineage, ValidRun, After, AllFromLineage, InOrder, Backed, IsPrefix, OnSnapshot, Live,
         Legal, Applied, G.Runs;
    LogIsOfLineage(toasty, done, actions, source);
    S.NoMarkerNoHalfRun(After(INITIAL, actions), source);
    HistoryOnSnapshot(toasty, base, done, schemas, Db(After(INITIAL, actions), source).log);
  }

  /** With a marker, the live schema is some snapshot of the lineage on which the first `d` statements of
      the marked operation have run, and the marker's index is `d` or one less. */
  lemma {:induction false} MarkedFromSnapshot(toasty: G.Toasty, base: G.Catalog, done: seq<A.Owned>,
                                              schemas: seq<G.Schema>, actions: seq<Action>, source: Source,
                                              id: nat, kind: Kind)
    returns (op: Op, d: nat)
    requires H.Chain(toasty, done, schemas) && AL.Numbered(done)
    requires ValidRun(INITIAL, actions) && RunsLineage(toasty, done, actions, source)
    requires var db := Db(After(INITIAL, actions), source);
             && (id, kind) in db.markers && InOrder(db.log) && Backed(toasty, base, schemas, db.log)
             && G.Runs(toasty, base, db.trace)
    ensures var db := Db(After(INITIAL, actions), source);
            var finished := S.Before(db, id, kind);
            && FromLineage(toasty, done, op) && op.id == id && op.kind == kind
            && d <= |op.sql| && d - 1 <= db.markers[(id, kind)].index <= d
            && Live(toasty, base, db.trace)
               == G.ExecuteAll(toasty, Live(toasty, base, Executed(finished)), op.sql[..d])
            && IsPrefix(toasty, done, Applied(finished))
            && (finished != [] ==>
                  OnSnapshot(toasty, done, schemas, Applied(finished), Live(toasty, base, Executed(finished))))
  {
    hide H.Chain, AL.Numbered, ValidRun, After, AllFromLineage, InOrder, Backed, IsPrefix, OnSnapshot, FromLineage,
         Legal, Applied, Executed, G.ExecuteAll, G.Runs;
    var db := Db(After(INITIAL, actions), source);
    op, d := S.MarkerIsPrecise(actions, source, id, kind);
    LogIsOfLineage(toasty, done, actions, source);
    assert FromLineage(toasty, done, op) by {
      var c :| Start(c, op) in actions;
      assert Start(c, op).Start?;
    }
    var finished := S.Before(db, id, kind);
    H.ExecuteConcat(toasty, base, Executed(finished), op.sql[..d]);
    ShorterHistory(toasty, base, done, schemas, db.log);
    HistoryOnSnapshot(toasty, base, done, schemas, finished);
  }

  lemma {:induction false} ShorterHistory(toasty: G.Toasty, base: G.Catalog, done: seq<A.Owned>,
                                          schemas: seq<G.Schema>, log: seq<Op>)
    requires Legal(log) && AllFromLineage(toasty, done, log) && InOrder(log) && Backed(toasty, base, schemas, log)
    ensures log != [] ==>
              var init := log[..|log| - 1];
              Legal(init) && AllFromLineage(toasty, done, init) && InOrder(init) && Backed(toasty, base, schemas, init)
  {
    hide FromLineage, Live, Applied, Executed;
  }

  /** On a database that starts out empty and whose migrations are all executed, the first apply always
      finds the schema it expects. */
  lemma {:induction false} EmptyBaseIsBacked(toasty: G.Toasty, base: G.Catalog, done: seq<A.Owned>,
                                             schemas: seq<G.Schema>, log: seq<Op>)
    requires H.Chain(toasty, done, schemas) && AL.Numbered(done) && G.Holds(toasty, base, G.EMPTY)
    requires Legal(log) && AllFromLineage(toasty, done, log) && InOrder(log)
    requires forall j :: 0 <= j < |log| ==> !log[j].kind.Record?
    requires G.Runs(toasty, base, Executed(log))
    ensures Backed(toasty, base, schemas, log)
    decreases |log|
  {
    hide H.Chain, AL.Numbered, IsPrefix, FromLineage, Allowed, Applied, Executed, G.ExecuteAll, G.Runs, G.Holds;
    if log != [] {
      var init := log[..|log| - 1];
      ExecutedLast(toasty, base, log);
      EmptyBaseIsBacked(toasty, base, done, schemas, init);
      HistoryOnSnapshot(toasty, base, done, schemas, init);
      NothingExecuted(toasty, base);
      EmptyLedger(Applied(init));
    }
  }

  lemma {:induction false} NothingExecuted(toasty: G.Toasty, base: G.Catalog)
    ensures Live(toasty, base, Executed([])) == base
  {
  }
}
