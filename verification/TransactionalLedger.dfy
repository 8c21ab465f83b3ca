/** The ledger of the backends whose DDL is transactional, and the manager's apply and rollback.

    PostgreSQL and the SQLite family run each migration and its ledger change in one transaction.
    The class below carries out the statements one at a time on a working copy; its methods are
    specified by functions from the committed state to the next one. */
module TransactionalLedger {
  import opened Wrappers

  type Statement = string

  /** A migration script; `accepted` says that the SQL policy (not blank, no foreign keys) admits it. */
  datatype Script = Script(statements: seq<Statement>, accepted: bool)

  datatype Migration = Migration(id: nat, name: string, sql: Script, rollback: Option<Script>)

  /** Committed state of one source: its ledger rows, and every statement that ran. */
  datatype Db = Db(ledger: map<nat, string>, trace: seq<Statement>)

  datatype Error =
    | NameMismatch(id: nat)
    | UnknownId(id: nat)
    | SqlFailed(id: nat)
    | ForbiddenSql(id: nat)
    | NothingApplied
    | OrderChanged(id: nat)
    | LineageGap
    | BadSelection
    | MissingRollbackSql(id: nat)
    | NotEmptyForAdoption
    | NoMigrations

  /** Which step of which migration fails: a statement, or, one past the last, the ledger write. */
  type Faults = map<nat, nat>

  predicate Rejects(faults: Faults, id: nat, statements: seq<Statement>) {
    id in faults && faults[id] <= |statements|
  }

  predicate IsNewest(ledger: map<nat, string>, id: nat) {
    id in ledger && forall other :: other in ledger ==> other <= id
  }

  // ---------------------------------------------------------------- one transaction

  function ApplyTx(d: Db, m: Migration, execute: bool, faults: Faults): (Db, Result<bool, Error>) {
    if m.id in d.ledger then (d, if d.ledger[m.id] == m.name then Ok(false) else Err(NameMismatch(m.id)))
    else
      var run := if execute then m.sql.statements else [];
      if Rejects(faults, m.id, run) then (d, Err(SqlFailed(m.id)))
      else (Db(d.ledger[m.id := m.name], d.trace + run), Ok(true))
  }

  function RollbackTx(d: Db, m: Migration, reverse: Script, faults: Faults): (Db, Result<(), Error>) {
    if d.ledger == map[] then (d, Err(NothingApplied))
    else if !IsNewest(d.ledger, m.id) || d.ledger[m.id] != m.name then (d, Err(OrderChanged(m.id)))
    else if Rejects(faults, m.id, reverse.statements) then (d, Err(SqlFailed(m.id)))
    else (Db(d.ledger - {m.id}, d.trace + reverse.statements), Ok(()))
  }

  class Database {
    var ledger: map<nat, string>
    var trace: seq<Statement>

    function Committed(): Db
      reads this
    {
      Db(ledger, trace)
    }

    constructor (ledger: map<nat, string>, trace: seq<Statement>)
      ensures Committed() == Db(ledger, trace)
    {
      this.ledger, this.trace := ledger, trace;
    }

    /** Runs statements on the working copy of a transaction until one is rejected. */
    static method ExecuteStatements(work: seq<Statement>, id: nat, statements: seq<Statement>, faults: Faults)
      returns (r: Result<seq<Statement>, Error>)
      ensures r == if id in faults && faults[id] < |statements| then Err(SqlFailed(id))
                   else Ok(work + statements)
    {
      var copy := work;
      for k := 0 to |statements|
        invariant copy == work + statements[..k]
        invariant id in faults ==> k <= faults[id]
      {
        if id in faults && faults[id] == k {
          return Err(SqlFailed(id));
        }
        copy := copy + [statements[k]];
      }
      assert statements[..|statements|] == statements;
      r := Ok(copy);
    }

    method ApplyMigration(m: Migration, execute: bool, faults: Faults) returns (r: Result<bool, Error>)
      modifies this
      ensures (Committed(), r) == ApplyTx(old(Committed()), m, execute, faults)
    {
      if m.id in ledger {
        return if ledger[m.id] != m.name then Err(NameMismatch(m.id)) else Ok(false);
      }
      var run := if execute then m.sql.statements else [];
      var executed := ExecuteStatements(trace, m.id, run, faults);
      if executed.Err? {
        return Err(executed.error);
      }
      if m.id in faults && faults[m.id] == |run| {
        return Err(SqlFailed(m.id));
      }
      ledger, trace := ledger[m.id := m.name], executed.value;
      r := Ok(true);
    }

    method RollbackMigration(m: Migration, reverse: Script, faults: Faults) returns (r: Result<(), Error>)
      modifies this
      ensures (Committed(), r) == RollbackTx(old(Committed()), m, reverse, faults)
    {
      if ledger == map[] {
        return Err(NothingApplied);
      }
      if !IsNewest(ledger, m.id) || ledger[m.id] != m.name {
        return Err(OrderChanged(m.id));
      }
      var executed := ExecuteStatements(trace, m.id, reverse.statements, faults);
      if executed.Err? {
        return Err(executed.error);
      }
      if m.id in faults && faults[m.id] == |reverse.statements| {
        return Err(SqlFailed(m.id));
      }
      ledger, trace := ledger - {m.id}, executed.value;
      r := Ok(());
    }
  }

  // ---------------------------------------------------------------- reading the ledger

  predicate Tracked(artifacts: seq<Migration>, id: nat, name: string) {
    exists m :: m in artifacts && m.id == id && m.name == name
  }

  /** Every ledger row is a tracked migration under its tracked name. */
  predicate LedgerTracked(ledger: map<nat, string>, artifacts: seq<Migration>) {
    forall id :: id in ledger ==> Tracked(artifacts, id, ledger[id])
  }

  predicate Untracked(ledger: map<nat, string>, artifacts: seq<Migration>, id: nat) {
    id in ledger && !Tracked(artifacts, id, ledger[id])
  }

  /** Rows are read in the order of their ids. */
  predicate FirstUntracked(ledger: map<nat, string>, artifacts: seq<Migration>, id: nat) {
    Untracked(ledger, artifacts, id)
    && forall other :: other in ledger && Untracked(ledger, artifacts, other) ==> id <= other
  }

  lemma {:induction false} SomeUntrackedIsFirst(ledger: map<nat, string>, artifacts: seq<Migration>, bound: nat)
    requires exists id: nat :: id <= bound && Untracked(ledger, artifacts, id)
    ensures exists id :: FirstUntracked(ledger, artifacts, id)
  {
    hide Untracked;
    var id: nat :| id <= bound && Untracked(ledger, artifacts, id);
    if exists lower: nat :: lower < id && Untracked(ledger, artifacts, lower) {
      SomeUntrackedIsFirst(ledger, artifacts, id - 1);
    } else {
      assert FirstUntracked(ledger, artifacts, id);
    }
  }

  function FirstUntrackedRow(ledger: map<nat, string>, artifacts: seq<Migration>): (id: nat)
    requires !LedgerTracked(ledger, artifacts)
    ensures FirstUntracked(ledger, artifacts, id)
  {
    assert exists id :: FirstUntracked(ledger, artifacts, id) by {
      var id :| id in ledger && !Tracked(artifacts, id, ledger[id]);
      assert Untracked(ledger, artifacts, id);
      SomeUntrackedIsFirst(ledger, artifacts, id);
    }
    var id :| id in ledger && FirstUntracked(ledger, artifacts, id);
    id
  }

  /** Reads the applied ids, refusing the first row that is unknown or misnamed. */
  function PrepareLedger(ledger: map<nat, string>, artifacts: seq<Migration>): Result<set<nat>, Error> {
    if LedgerTracked(ledger, artifacts) then Ok(ledger.Keys)
    else
      var id := FirstUntrackedRow(ledger, artifacts);
      Err(if exists m :: m in artifacts && m.id == id then NameMismatch(id) else UnknownId(id))
  }

  // ---------------------------------------------------------------- apply

  datatype Mode = Execute | AdoptBaseline

  datatype Report = Report(applied: nat, skipped: nat, adopted: nat)

  /** The apply loop from position `i`; `known` are the ids the call takes as applied. */
  function ApplyFrom(d: Db, artifacts: seq<Migration>, known: set<nat>, adopted: Option<nat>, i: nat,
                     report: Report, faults: Faults): (Db, Result<Report, Error>)
    requires i <= |artifacts|
    decreases |artifacts| - i
  {
    if i == |artifacts| then (d, Ok(report))
    else
      var m := artifacts[i];
      if adopted == Some(m.id) then ApplyFrom(d, artifacts, known, adopted, i + 1, report, faults)
      else if m.id in known then
        ApplyFrom(d, artifacts, known, adopted, i + 1, report.(skipped := report.skipped + 1), faults)
      else if !m.sql.accepted then (d, Err(ForbiddenSql(m.id)))
      else
        var tx := ApplyTx(d, m, true, faults);
        if tx.1.Err? then (tx.0, Err(tx.1.error))
        else
          var report' := if tx.1.value then report.(applied := report.applied + 1)
                         else report.(skipped := report.skipped + 1);
          ApplyFrom(tx.0, artifacts, known + {m.id}, adopted, i + 1, report', faults)
  }

  function ApplyCall(d: Db, artifacts: seq<Migration>, mode: Mode, faults: Faults)
    : (Db, Result<Report, Error>)
  {
    match PrepareLedger(d.ledger, artifacts)
    case Err(e) => (d, Err(e))
    case Ok(known) =>
      if mode.Execute? then ApplyFrom(d, artifacts, known, None, 0, Report(0, 0, 0), faults)
      else if known != {} then (d, Err(NotEmptyForAdoption))
      else if artifacts == [] then (d, Err(NoMigrations))
      else
        var tx := ApplyTx(d, artifacts[0], false, faults);
        if tx.1.Err? then (tx.0, Err(tx.1.error))
        else ApplyFrom(tx.0, artifacts, {artifacts[0].id}, Some(artifacts[0].id), 0, Report(0, 0, 1), faults)
  }

  method ApplyArtifacts(db: Database, artifacts: seq<Migration>, mode: Mode, faults: Faults)
    returns (r: Result<Report, Error>)
    modifies db
    ensures (db.Committed(), r) == ApplyCall(old(db.Committed()), artifacts, mode, faults)
  {
    var prepared := PrepareLedger(db.ledger, artifacts);
    if prepared.Err? {
      return Err(prepared.error);
    }
    var known := prepared.value;
    var report := Report(0, 0, 0);
    var adopted := None;
    if mode.AdoptBaseline? {
      if known != {} {
        return Err(NotEmptyForAdoption);
      }
      if artifacts == [] {
        return Err(NoMigrations);
      }
      var recorded := db.ApplyMigration(artifacts[0], false, faults);
      if recorded.Err? {
        return Err(recorded.error);
      }
      known := known + {artifacts[0].id};
      report := report.(adopted := 1);
      adopted := Some(artifacts[0].id);
      assert known == {artifacts[0].id};
    }
    for i := 0 to |artifacts|
      invariant ApplyFrom(db.Committed(), artifacts, known, adopted, i, report, faults)
             == ApplyCall(old(db.Committed()), artifacts, mode, faults)
    {
      var m := artifacts[i];
      if adopted == Some(m.id) {
        continue;
      }
      if m.id in known {
        report := report.(skipped := report.skipped + 1);
        continue;
      }
      if !m.sql.accepted {
        return Err(ForbiddenSql(m.id));
      }
      var applied := db.ApplyMigration(m, true, faults);
      if applied.Err? {
        return Err(applied.error);
      }
      known := known + {m.id};
      if applied.value {
        report := report.(applied := report.applied + 1);
      } else {
        report := report.(skipped := report.skipped + 1);
      }
    }
    r := Ok(report);
  }

  // ---------------------------------------------------------------- rollback

  datatype Selection = Steps(count: nat) | Target(id: nat)

  function Ids(artifacts: seq<Migration>): (r: seq<nat>)
    ensures |r| == |artifacts| && forall k :: 0 <= k < |r| ==> r[k] == artifacts[k].id
  {
    if artifacts == [] then [] else [artifacts[0].id] + Ids(artifacts[1..])
  }

  /** The applied ids are those of the first `n` artifacts. */
  predicate IsCut(ids: seq<nat>, applied: set<nat>, n: nat) {
    && n <= |ids|
    && (forall k :: 0 <= k < n ==> ids[k] in applied)
    && forall k :: n <= k < |ids| ==> ids[k] !in applied
  }

  lemma {:induction false} CutIsUnique(ids: seq<nat>, applied: set<nat>, n: nat, m: nat)
    requires IsCut(ids, applied, n) && IsCut(ids, applied, m)
    ensures n == m
  {
    assert m < |ids| ==> (ids[m] in applied <==> m < n);
    assert n < |ids| ==> (ids[n] in applied <==> n < m);
  }

  /** How many artifacts are applied, provided that no pending one comes before an applied one. */
  ghost function CutLength(ids: seq<nat>, applied: set<nat>): Option<nat> {
    if exists n: nat :: IsCut(ids, applied, n) then
      var n: nat :| IsCut(ids, applied, n);
      Some(n)
    else None
  }

  method AppliedLineage(ids: seq<nat>, applied: set<nat>) returns (r: Result<seq<nat>, Error>)
    ensures match CutLength(ids, applied)
            case None => r == Err(LineageGap)
            case Some(n) => IsCut(ids, applied, n) && r == Ok(ids[..n])
  {
    var lineage: seq<nat> := [];
    var pendingSeen := false;
    for i := 0 to |ids|
      invariant |lineage| <= i && lineage == ids[..|lineage|]
      invariant pendingSeen == (|lineage| < i)
      invariant forall k :: 0 <= k < |lineage| ==> ids[k] in applied
      invariant forall k :: |lineage| <= k < i ==> ids[k] !in applied
    {
      if ids[i] in applied {
        if pendingSeen {
          assert ids[|lineage|] !in applied;
          return Err(LineageGap);
        }
        lineage := lineage + [ids[i]];
      } else {
        pendingSeen := true;
      }
    }
    assert IsCut(ids, applied, |lineage|);
    CutIsUnique(ids, applied, |lineage|, CutLength(ids, applied).value);
    r := Ok(lineage);
  }

  function Reverse<T>(s: seq<T>): (r: seq<T>)
    ensures |r| == |s| && forall k :: 0 <= k < |s| ==> r[k] == s[|s| - 1 - k]
  {
    if s == [] then [] else Reverse(s[1..]) + [s[0]]
  }

  function PositionOf(ids: seq<nat>, id: nat): (r: Option<nat>)
    ensures r.Some? ==> r.value < |ids| && ids[r.value] == id && id !in ids[..r.value]
    ensures r.None? ==> id !in ids
  {
    if ids == [] then None
    else if ids[0] == id then Some(0)
    else
      match PositionOf(ids[1..], id)
      case None => None
      case Some(k) => assert ids[..k + 1] == [ids[0]] + ids[1..][..k]; Some(k + 1)
  }

  /** The migrations to roll back, newest first: the last `count`, or everything down to a target. */
  function SelectRollbackIds(applied: seq<nat>, selection: Selection): Result<seq<nat>, Error> {
    match selection
    case Steps(count) =>
      if count == 0 || count > |applied| then Err(BadSelection) else Ok(Reverse(applied[|applied| - count..]))
    case Target(id) =>
      match PositionOf(applied, id)
      case None => Err(BadSelection)
      case Some(k) => Ok(Reverse(applied[k..]))
  }

  function FindMigration(artifacts: seq<Migration>, id: nat): (r: Option<Migration>)
    ensures r.Some? ==> r.value in artifacts && r.value.id == id
    ensures r.None? ==> forall m :: m in artifacts ==> m.id != id
  {
    if artifacts == [] then None
    else if artifacts[0].id == id then Some(artifacts[0]) else FindMigration(artifacts[1..], id)
  }

  /** The selected migrations, all with acceptable reverse SQL. */
  function Collect(artifacts: seq<Migration>, selected: seq<nat>): (r: Result<seq<Migration>, Error>)
    ensures r.Ok? ==> |r.value| == |selected|
    ensures r.Ok? ==> forall k :: 0 <= k < |selected| ==>
              && FindMigration(artifacts, selected[k]) == Some(r.value[k])
              && r.value[k].rollback.Some? && r.value[k].rollback.value.accepted
  {
    if selected == [] then Ok([])
    else
      match FindMigration(artifacts, selected[0])
      case None => Err(UnknownId(selected[0]))
      case Some(m) =>
        if m.rollback.None? then Err(MissingRollbackSql(m.id))
        else if !m.rollback.value.accepted then Err(ForbiddenSql(m.id))
        else
          match Collect(artifacts, selected[1..])
          case Err(e) => Err(e)
          case Ok(rest) => Ok([m] + rest)
  }

  /** Rolls back one migration after the other, until one fails. */
  function RollbackAll(d: Db, migrations: seq<Migration>, faults: Faults): (Db, Result<(), Error>)
    requires forall m :: m in migrations ==> m.rollback.Some?
    decreases |migrations|
  {
    if migrations == [] then (d, Ok(()))
    else
      var tx := RollbackTx(d, migrations[0], migrations[0].rollback.value, faults);
      if tx.1.Err? then tx else RollbackAll(tx.0, migrations[1..], faults)
  }

  /** What a rollback call would do, or why it refuses; nothing has changed yet. */
  ghost function RollbackPlan(ledger: map<nat, string>, artifacts: seq<Migration>, selection: Selection)
    : (r: Result<seq<Migration>, Error>)
    ensures r.Ok? ==> forall m :: m in r.value ==> m.rollback.Some?
  {
    match PrepareLedger(ledger, artifacts)
    case Err(e) => Err(e)
    case Ok(applied) =>
      match CutLength(Ids(artifacts), applied)
      case None => Err(LineageGap)
      case Some(n) =>
        match SelectRollbackIds(Ids(artifacts)[..n], selection)
        case Err(e) => Err(e)
        case Ok(selected) => Collect(artifacts, selected)
  }

  ghost function RollbackCall(d: Db, artifacts: seq<Migration>, selection: Selection, faults: Faults)
    : (Db, Result<nat, Error>)
  {
    match RollbackPlan(d.ledger, artifacts, selection)
    case Err(e) => (d, Err(e))
    case Ok(migrations) =>
      var all := RollbackAll(d, migrations, faults);
      (all.0, if all.1.Ok? then Ok(|migrations|) else Err(all.1.error))
  }

  method PlanRollback(ledger: map<nat, string>, artifacts: seq<Migration>, selection: Selection)
    returns (r: Result<seq<Migration>, Error>)
    ensures r == RollbackPlan(ledger, artifacts, selection)
  {
    var applied :- PrepareLedger(ledger, artifacts);
    var lineage :- AppliedLineage(Ids(artifacts), applied);
    var selected :- SelectRollbackIds(lineage, selection);
    r := Collect(artifacts, selected);
  }

  method Rollback(db: Database, artifacts: seq<Migration>, selection: Selection, faults: Faults)
    returns (r: Result<nat, Error>)
    modifies db
    ensures (db.Committed(), r) == RollbackCall(old(db.Committed()), artifacts, selection, faults)
  {
    var migrations :- PlanRollback(db.ledger, artifacts, selection);
    for k := 0 to |migrations|
      invariant RollbackAll(db.Committed(), migrations[k..], faults)
             == RollbackAll(old(db.Committed()), migrations, faults)
    {
      assert migrations[k..][0] == migrations[k] && migrations[k..][1..] == migrations[k + 1..];
      var _ :- db.RollbackMigration(migrations[k], migrations[k].rollback.value, faults);
    }
    r := Ok(|migrations|);
  }
}
