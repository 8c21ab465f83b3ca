/** Rollback over a ledger that records the first artifacts of a list. */
module TransactionalLaws {
  import opened Wrappers
  import opened TransactionalLedger

  ghost predicate DistinctIds(artifacts: seq<Migration>) {
    forall i, j :: 0 <= i < j < |artifacts| ==> artifacts[i].id != artifacts[j].id
  }

  /** The ledger in which exactly the first `n` artifacts are recorded. */
  ghost function LedgerOf(artifacts: seq<Migration>, n: nat): map<nat, string>
    requires n <= |artifacts|
  {
    if n == 0 then map[] else LedgerOf(artifacts, n - 1)[artifacts[n - 1].id := artifacts[n - 1].name]
  }

  /** The forward SQL of artifacts `lo` to `hi`, in order. */
  ghost function ForwardSql(artifacts: seq<Migration>, lo: nat, hi: nat): seq<Statement>
    requires lo <= hi <= |artifacts|
    decreases hi
  {
    if lo == hi then [] else ForwardSql(artifacts, lo, hi - 1) + artifacts[hi - 1].sql.statements
  }

  /** The reverse SQL of artifacts `lo` to `hi`, newest first. */
  ghost function ReverseSql(artifacts: seq<Migration>, lo: nat, hi: nat): seq<Statement>
    requires lo <= hi <= |artifacts|
    requires forall k :: lo <= k < hi ==> artifacts[k].rollback.Some?
    decreases hi
  {
    if lo == hi then []
    else artifacts[hi - 1].rollback.value.statements + ReverseSql(artifacts, lo, hi - 1)
  }

  // ---------------------------------------------------------------- the ledger of a prefix

  lemma {:induction false} LedgerOfKeys(artifacts: seq<Migration>, n: nat)
    requires n <= |artifacts|
    ensures forall id :: id in LedgerOf(artifacts, n) ==> exists k :: 0 <= k < n && artifacts[k].id == id
    ensures forall k :: 0 <= k < n ==> artifacts[k].id in LedgerOf(artifacts, n)
  {
    if n > 0 { LedgerOfKeys(artifacts, n - 1); }
  }

  lemma {:induction false} LedgerOfNames(artifacts: seq<Migration>, n: nat)
    requires n <= |artifacts| && DistinctIds(artifacts)
    ensures forall k :: 0 <= k < n ==>
              artifacts[k].id in LedgerOf(artifacts, n) && LedgerOf(artifacts, n)[artifacts[k].id] == artifacts[k].name
    ensures forall k :: n <= k < |artifacts| ==> artifacts[k].id !in LedgerOf(artifacts, n)
  {
    LedgerOfKeys(artifacts, n);
    if n > 0 { LedgerOfNames(artifacts, n - 1); }
  }

  /** Such a ledger passes the tracking check, and its lineage is the first `n` artifacts. */
  lemma {:induction false} PrefixLedgerIsAccepted(artifacts: seq<Migration>, n: nat)
    requires n <= |artifacts| && DistinctIds(artifacts)
    ensures PrepareLedger(LedgerOf(artifacts, n), artifacts) == Ok(LedgerOf(artifacts, n).Keys)
    ensures CutLength(Ids(artifacts), LedgerOf(artifacts, n).Keys) == Some(n)
  {
    LedgerOfKeys(artifacts, n);
    LedgerOfNames(artifacts, n);
    var ledger := LedgerOf(artifacts, n);
    forall id | id in ledger ensures Tracked(artifacts, id, ledger[id]) {
      var k :| 0 <= k < n && artifacts[k].id == id;
      assert artifacts[k] in artifacts;
    }
    assert IsCut(Ids(artifacts), ledger.Keys, n);
    CutIsUnique(Ids(artifacts), ledger.Keys, n, CutLength(Ids(artifacts), ledger.Keys).value);
  }

  /** Conversely, a ledger that is accepted with `n` applied artifacts is the ledger of those. */
  lemma {:induction false} AcceptedLedgerIsPrefix(artifacts: seq<Migration>, ledger: map<nat, string>, n: nat)
    requires DistinctIds(artifacts)
    requires LedgerTracked(ledger, artifacts) && CutLength(Ids(artifacts), ledger.Keys) == Some(n)
    ensures n <= |artifacts| && ledger == LedgerOf(artifacts, n)
  {
    assert IsCut(Ids(artifacts), ledger.Keys, n);
    LedgerOfKeys(artifacts, n);
    LedgerOfNames(artifacts, n);
    forall id | id in ledger ensures id in LedgerOf(artifacts, n) && ledger[id] == LedgerOf(artifacts, n)[id] {
      AcceptedRow(artifacts, ledger, n, id);
    }
    forall id | id in LedgerOf(artifacts, n) ensures id in ledger {
      var k :| 0 <= k < n && artifacts[k].id == id;
      assert Ids(artifacts)[k] == id;
    }
  }

  lemma {:induction false} AcceptedRow(artifacts: seq<Migration>, ledger: map<nat, string>, n: nat, id: nat)
    requires DistinctIds(artifacts) && id in ledger && LedgerTracked(ledger, artifacts)
    requires IsCut(Ids(artifacts), ledger.Keys, n)
    ensures id in LedgerOf(artifacts, n) && ledger[id] == LedgerOf(artifacts, n)[id]
  {
    assert Tracked(artifacts, id, ledger[id]);
    var k :| 0 <= k < |artifacts| && artifacts[k].id == id && artifacts[k].name == ledger[id];
    assert Ids(artifacts)[k] == id;
    LedgerOfNames(artifacts, n);
  }

  // ---------------------------------------------------------------- one rollback step

  /** Artifact `k` has a larger id than every artifact before it. */
  ghost predicate Newest(artifacts: seq<Migration>, k: nat)
    requires k < |artifacts|
  {
    forall i :: 0 <= i < k ==> artifacts[i].id < artifacts[k].id
  }

  lemma {:induction false} NewestRowIff(artifacts: seq<Migration>, n: nat)
    requires 0 < n <= |artifacts| && DistinctIds(artifacts)
    ensures IsNewest(LedgerOf(artifacts, n), artifacts[n - 1].id) <==> Newest(artifacts, n - 1)
  {
    LedgerOfKeys(artifacts, n);
  }

  lemma {:induction false} RollbackNewestRow(d: Db, artifacts: seq<Migration>, n: nat, faults: Faults)
    requires 0 < n <= |artifacts| && DistinctIds(artifacts) && d.ledger == LedgerOf(artifacts, n)
    requires artifacts[n - 1].rollback.Some?
    ensures var m := artifacts[n - 1];
            RollbackTx(d, m, m.rollback.value, faults) ==
              if !Newest(artifacts, n - 1) then (d, Err(OrderChanged(m.id)))
              else if Rejects(faults, m.id, m.rollback.value.statements) then (d, Err(SqlFailed(m.id)))
              else (Db(LedgerOf(artifacts, n - 1), d.trace + m.rollback.value.statements), Ok(()))
  {
    NewestRowIff(artifacts, n);
    LedgerOfNames(artifacts, n);
    LedgerOfNames(artifacts, n - 1);
    assert LedgerOf(artifacts, n) - {artifacts[n - 1].id} == LedgerOf(artifacts, n - 1);
    assert artifacts[n - 1].id in LedgerOf(artifacts, n);
  }

  // ---------------------------------------------------------------- the whole rollback

  /** Artifacts `lo` to `hi` have reverse SQL, and it is acceptable. */
  ghost predicate Reversible(artifacts: seq<Migration>, lo: nat, hi: nat)
    requires hi <= |artifacts|
  {
    forall k :: lo <= k < hi ==> artifacts[k].rollback.Some? && artifacts[k].rollback.value.accepted
  }

  /** The artifacts from `lo` to `hi`, newest first. */
  ghost function Suffix(artifacts: seq<Migration>, lo: nat, hi: nat): (r: seq<Migration>)
    requires lo <= hi <= |artifacts|
    ensures |r| == hi - lo
    ensures Reversible(artifacts, lo, hi) ==> forall m :: m in r ==> m.rollback.Some?
  {
    Reverse(artifacts[lo..hi])
  }

  ghost function IdSuffix(artifacts: seq<Migration>, lo: nat, hi: nat): seq<nat>
    requires lo <= hi <= |artifacts|
  {
    Reverse(Ids(artifacts)[lo..hi])
  }

  /** Where the selection cuts: it names the applied artifacts from this position on. */
  ghost function Floor(artifacts: seq<Migration>, n: nat, selection: Selection): (r: Option<nat>)
    requires n <= |artifacts|
    ensures r.Some? ==> r.value < n
  {
    match selection
    case Steps(count) => if 0 < count <= n then Some(n - count) else None
    case Target(id) =>
      if exists k :: 0 <= k < n && artifacts[k].id == id then
        var k: nat :| k < n && artifacts[k].id == id;
        Some(k)
      else None
  }

  lemma {:induction false} SelectsSuffix(artifacts: seq<Migration>, n: nat, selection: Selection)
    requires n <= |artifacts| && DistinctIds(artifacts)
    ensures SelectRollbackIds(Ids(artifacts)[..n], selection) ==
              match Floor(artifacts, n, selection)
              case None => Err(BadSelection)
              case Some(lo) => Ok(IdSuffix(artifacts, lo, n))
  {
    var applied := Ids(artifacts)[..n];
    match selection
    case Steps(count) =>
      if 0 < count <= n { assert applied[n - count..] == Ids(artifacts)[n - count..n]; }
    case Target(id) =>
      match Floor(artifacts, n, selection) {
        case Some(lo) =>
          assert applied[lo] == id;
          var k := PositionOf(applied, id).value;
          assert artifacts[k].id == artifacts[lo].id;
          assert applied[lo..] == Ids(artifacts)[lo..n];
        case None =>
      }
  }

  lemma {:induction false} FindsByPosition(artifacts: seq<Migration>, k: nat)
    requires k < |artifacts| && DistinctIds(artifacts)
    ensures FindMigration(artifacts, artifacts[k].id) == Some(artifacts[k])
  {
    if k > 0 {
      assert artifacts[0].id != artifacts[k].id;
      assert artifacts[1..][k - 1] == artifacts[k];
      FindsByPosition(artifacts[1..], k - 1);
    }
  }

  lemma {:induction false} SuffixSplits(artifacts: seq<Migration>, lo: nat, hi: nat)
    requires lo <= hi <= |artifacts|
    ensures lo == hi ==> Suffix(artifacts, lo, hi) == []
    ensures lo < hi ==> Suffix(artifacts, lo, hi) != [] && Suffix(artifacts, lo, hi)[0] == artifacts[hi - 1]
                        && Suffix(artifacts, lo, hi)[1..] == Suffix(artifacts, lo, hi - 1)
  {
    if lo < hi { ReverseSplits(artifacts, lo, hi); }
  }

  lemma {:induction false} IdSuffixSplits(artifacts: seq<Migration>, lo: nat, hi: nat)
    requires lo <= hi <= |artifacts|
    ensures lo == hi ==> IdSuffix(artifacts, lo, hi) == []
    ensures lo < hi ==> IdSuffix(artifacts, lo, hi) != [] && IdSuffix(artifacts, lo, hi)[0] == artifacts[hi - 1].id
                        && IdSuffix(artifacts, lo, hi)[1..] == IdSuffix(artifacts, lo, hi - 1)
  {
    if lo < hi { ReverseSplits(Ids(artifacts), lo, hi); }
  }

  lemma {:induction false} CollectStep(artifacts: seq<Migration>, selected: seq<nat>, m: Migration)
    requires selected != [] && FindMigration(artifacts, selected[0]) == Some(m)
    ensures Collect(artifacts, selected).Ok? <==>
              && m.rollback.Some? && m.rollback.value.accepted
              && Collect(artifacts, selected[1..]).Ok?
    ensures Collect(artifacts, selected).Ok? ==>
              Collect(artifacts, selected) == Ok([m] + Collect(artifacts, selected[1..]).value)
    ensures Collect(artifacts, selected).Err? ==>
              Collect(artifacts, selected) ==
                if m.rollback.None? then Err(MissingRollbackSql(m.id))
                else if !m.rollback.value.accepted then Err(ForbiddenSql(m.id))
                else Err(Collect(artifacts, selected[1..]).error)
  {
    hide FindMigration;
  }

  /** Artifact `k` is the newest below `hi` without acceptable reverse SQL, and the error says which it lacks. */
  ghost predicate RefusedAt(artifacts: seq<Migration>, hi: nat, k: nat, error: Error)
    requires k < hi <= |artifacts|
  {
    && Reversible(artifacts, k + 1, hi)
    && match artifacts[k].rollback
       case None => error == MissingRollbackSql(artifacts[k].id)
       case Some(script) => !script.accepted && error == ForbiddenSql(artifacts[k].id)
  }

  /** The newest artifact from `lo` to `hi` without acceptable reverse SQL refuses the rollback. */
  ghost predicate Refused(artifacts: seq<Migration>, lo: nat, hi: nat, error: Error)
    requires lo <= hi <= |artifacts|
  {
    exists k: nat :: lo <= k < hi && RefusedAt(artifacts, hi, k, error)
  }

  ghost predicate SuffixCollected(artifacts: seq<Migration>, lo: nat, hi: nat)
    requires lo <= hi <= |artifacts|
  {
    var r := Collect(artifacts, IdSuffix(artifacts, lo, hi));
    if Reversible(artifacts, lo, hi) then r == Ok(Suffix(artifacts, lo, hi))
    else r.Err? && Refused(artifacts, lo, hi, r.error)
  }

  lemma {:induction false} CollectsOneMore(artifacts: seq<Migration>, lo: nat, hi: nat)
    requires lo < hi <= |artifacts| && DistinctIds(artifacts) && SuffixCollected(artifacts, lo, hi - 1)
    ensures SuffixCollected(artifacts, lo, hi)
  {
    hide Reverse, Suffix, IdSuffix, Ids, FindMigration, Collect, DistinctIds;
    SuffixSplits(artifacts, lo, hi);
    IdSuffixSplits(artifacts, lo, hi);
    var newest := artifacts[hi - 1];
    FindsByPosition(artifacts, hi - 1);
    CollectStep(artifacts, IdSuffix(artifacts, lo, hi), newest);
    assert Reversible(artifacts, lo, hi) <==>
           Reversible(artifacts, lo, hi - 1) && newest.rollback.Some? && newest.rollback.value.accepted;
    assert [newest] + Suffix(artifacts, lo, hi)[1..] == Suffix(artifacts, lo, hi);
    var r := Collect(artifacts, IdSuffix(artifacts, lo, hi));
    if newest.rollback.None? || !newest.rollback.value.accepted {
      assert RefusedAt(artifacts, hi, hi - 1, r.error);
    } else if r.Err? {
      var k: nat :| lo <= k < hi - 1 && RefusedAt(artifacts, hi - 1, k, r.error);
      assert RefusedAt(artifacts, hi, k, r.error);
    }
  }

  lemma {:induction false} CollectsSuffix(artifacts: seq<Migration>, lo: nat, hi: nat)
    requires lo <= hi <= |artifacts| && DistinctIds(artifacts)
    ensures SuffixCollected(artifacts, lo, hi)
    decreases hi
  {
    if lo == hi {
      SuffixSplits(artifacts, lo, hi);
      IdSuffixSplits(artifacts, lo, hi);
    } else {
      CollectsSuffix(artifacts, lo, hi - 1);
      CollectsOneMore(artifacts, lo, hi);
    }
  }

  lemma {:induction false} ReverseSplits<T>(s: seq<T>, lo: nat, hi: nat)
    requires lo < hi <= |s|
    ensures Reverse(s[lo..hi]) == [s[hi - 1]] + Reverse(s[lo..hi - 1])
  {
  }

  /** With reverse SQL at hand and no failing statement, the rollback goes through exactly when
      each selected id exceeds all the ids before it in the list. */
  lemma {:induction false} RollsBackSuffix(d: Db, artifacts: seq<Migration>, lo: nat, hi: nat)
    requires lo <= hi <= |artifacts| && DistinctIds(artifacts) && Reversible(artifacts, lo, hi)
    requires d.ledger == LedgerOf(artifacts, hi)
    ensures var r := RollbackAll(d, Suffix(artifacts, lo, hi), map[]);
            && (r.1.Ok? <==> forall k :: lo <= k < hi ==> Newest(artifacts, k))
            && (r.1.Ok? ==> r.0 == Db(LedgerOf(artifacts, lo), d.trace + ReverseSql(artifacts, lo, hi)))
            && (r.1.Err? ==> exists k :: lo < k <= hi && r.0.ledger == LedgerOf(artifacts, k))
    decreases hi
  {
    hide Suffix, LedgerOf, Newest, RollbackTx;
    SuffixSplits(artifacts, lo, hi);
    if lo < hi {
      var m := artifacts[hi - 1];
      RollbackNewestRow(d, artifacts, hi, map[]);
      if Newest(artifacts, hi - 1) {
        var d' := Db(LedgerOf(artifacts, hi - 1), d.trace + m.rollback.value.statements);
        RollsBackSuffix(d', artifacts, lo, hi - 1);
        ReverseSqlOneMore(d.trace, artifacts, lo, hi);
      }
    }
  }

  lemma {:induction false} ReverseSqlOneMore(trace: seq<Statement>, artifacts: seq<Migration>, lo: nat, hi: nat)
    requires lo < hi <= |artifacts| && Reversible(artifacts, lo, hi)
    ensures trace + ReverseSql(artifacts, lo, hi)
         == trace + artifacts[hi - 1].rollback.value.statements + ReverseSql(artifacts, lo, hi - 1)
  {
  }

  /** The whole call: a bad selection or missing reverse SQL changes nothing; otherwise, on ids that
      grow along the list, exactly the selected suffix is undone and a prefix remains. */
  lemma {:induction false} RollbackUndoesSuffix(d: Db, artifacts: seq<Migration>, n: nat, selection: Selection)
    requires n <= |artifacts| && DistinctIds(artifacts) && d.ledger == LedgerOf(artifacts, n)
    ensures var r := RollbackCall(d, artifacts, selection, map[]);
            match Floor(artifacts, n, selection)
            case None => r == (d, Err(BadSelection))
            case Some(lo) =>
              && (!Reversible(artifacts, lo, n) ==> r.0 == d && r.1.Err? && Refused(artifacts, lo, n, r.1.error))
              && (r.1.Ok? <==> Reversible(artifacts, lo, n) && forall k :: lo <= k < n ==> Newest(artifacts, k))
              && (r.1.Ok? ==> && r.1.value == n - lo
                              && r.0 == Db(LedgerOf(artifacts, lo), d.trace + ReverseSql(artifacts, lo, n)))
  {
    hide Reverse, Suffix, LedgerOf, RollbackAll, Collect, SelectRollbackIds, PrepareLedger, CutLength, Newest,
         ReverseSql, Floor, Ids, IdSuffix, Reversible;
    PrefixLedgerIsAccepted(artifacts, n);
    SelectsSuffix(artifacts, n, selection);
    match Floor(artifacts, n, selection)
    case None =>
    case Some(lo) =>
      CollectsSuffix(artifacts, lo, n);
      if Reversible(artifacts, lo, n) { RollsBackSuffix(d, artifacts, lo, n); }
  }

  /** Artifacts `k` to `hi` have been undone, newest first, and nothing else has happened. */
  ghost predicate UndoneTo(before: Db, after: Db, artifacts: seq<Migration>, k: nat, hi: nat) {
    && k <= hi <= |artifacts|
    && (forall j :: k <= j < hi ==> artifacts[j].rollback.Some?)
    && after == Db(LedgerOf(artifacts, k), before.trace + ReverseSql(artifacts, k, hi))
  }

  lemma {:induction false} ReverseSqlSplits(artifacts: seq<Migration>, lo: nat, mid: nat, hi: nat)
    requires lo <= mid <= hi <= |artifacts|
    requires forall k :: lo <= k < hi ==> artifacts[k].rollback.Some?
    ensures ReverseSql(artifacts, lo, hi) == ReverseSql(artifacts, mid, hi) + ReverseSql(artifacts, lo, mid)
    decreases hi
  {
    if mid < hi { ReverseSqlSplits(artifacts, lo, mid, hi - 1); }
  }

  lemma {:induction false} UndoneTwice(before: Db, middle: Db, after: Db, artifacts: seq<Migration>,
                                       lo: nat, mid: nat, hi: nat)
    requires UndoneTo(before, middle, artifacts, mid, hi) && UndoneTo(middle, after, artifacts, lo, mid)
    ensures UndoneTo(before, after, artifacts, lo, hi)
  {
    hide LedgerOf, ReverseSql;
    ReverseSqlSplits(artifacts, lo, mid, hi);
  }

  /** One successful rollback transaction. */
  lemma {:induction false} UndoneOne(before: Db, after: Db, artifacts: seq<Migration>, hi: nat)
    requires 0 < hi <= |artifacts| && artifacts[hi - 1].rollback.Some?
    requires after == Db(LedgerOf(artifacts, hi - 1), before.trace + artifacts[hi - 1].rollback.value.statements)
    ensures UndoneTo(before, after, artifacts, hi - 1, hi)
  {
    assert ReverseSql(artifacts, hi - 1, hi) == artifacts[hi - 1].rollback.value.statements + [];
  }

  /** A failure in the middle of a rollback still leaves a prefix of the artifacts recorded. */
  lemma {:induction false} FailedRollbackLeavesPrefix(d: Db, artifacts: seq<Migration>, lo: nat, hi: nat,
                                                      faults: Faults)
    requires lo <= hi <= |artifacts| && DistinctIds(artifacts) && Reversible(artifacts, lo, hi)
    requires d.ledger == LedgerOf(artifacts, hi)
    ensures exists k: nat :: lo <= k && UndoneTo(d, RollbackAll(d, Suffix(artifacts, lo, hi), faults).0, artifacts, k, hi)
    decreases hi
  {
    hide Suffix, LedgerOf, Newest, RollbackTx;
    SuffixSplits(artifacts, lo, hi);
    assert d.trace == d.trace + ReverseSql(artifacts, hi, hi);
    assert UndoneTo(d, d, artifacts, hi, hi);
    if lo < hi {
      var m := artifacts[hi - 1];
      RollbackNewestRow(d, artifacts, hi, faults);
      var tx := RollbackTx(d, m, m.rollback.value, faults);
      if tx.1.Ok? {
        FailedRollbackLeavesPrefix(tx.0, artifacts, lo, hi - 1, faults);
        var end := RollbackAll(d, Suffix(artifacts, lo, hi), faults).0;
        assert end == RollbackAll(tx.0, Suffix(artifacts, lo, hi - 1), faults).0;
        var k: nat :| lo <= k && UndoneTo(tx.0, end, artifacts, k, hi - 1);
        UndoneOne(d, tx.0, artifacts, hi);
        UndoneTwice(d, tx.0, end, artifacts, k, hi - 1, hi);
      } else {
        assert RollbackAll(d, Suffix(artifacts, lo, hi), faults).0 == d;
      }
    } else {
      assert RollbackAll(d, Suffix(artifacts, lo, hi), faults).0 == d;
    }
  }
}
