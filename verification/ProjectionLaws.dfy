/** What is left of an observed schema before it is compared with the latest snapshot. */
module ProjectionLaws {
  import opened Wrappers
  import opened Lineage
  import N = SchemaNormalizer
  import R = CatalogReading
  import S = Sequences

  /** The columns of two indices have the same names, in order. */
  predicate SameColumns(a: N.Table, x: N.Index, b: N.Table, y: N.Index) {
    && |x.columns| == |y.columns|
    && forall p :: 0 <= p < |x.columns| ==> N.ColumnName(a, x.columns[p].column) == N.ColumnName(b, y.columns[p].column)
  }

  /** The snapshot's table has an index with the same two flags on columns of the same names. */
  predicate HasLike(latest: N.Table, observed: N.Table, index: N.Index) {
    exists k :: && 0 <= k < |latest.indices|
                && latest.indices[k].unique == index.unique && latest.indices[k].primaryKey == index.primaryKey
                && SameColumns(latest, latest.indices[k], observed, index)
  }

  /** The first table of this name. */
  predicate IsFirst(tables: seq<N.Table>, name: string, k: nat) {
    k < |tables| && tables[k].name == name && forall j :: 0 <= j < k ==> tables[j].name != name
  }

  /** The index takes part in the comparison. */
  predicate TakesPart(scope: R.Scope, latest: Schema, observed: N.Table, index: N.Index) {
    || scope.NamespaceExclusive?
    || (forall k :: 0 <= k < |latest.tables| ==> latest.tables[k].name != observed.name)
    || index.unique
    || exists k :: && 0 <= k < |latest.tables| && IsFirst(latest.tables, observed.name, k)
                   && HasLike(latest.tables[k], observed, index)
  }

  lemma {:induction false} ColumnNamesAt(t: N.Table, columns: seq<N.IndexColumn>)
    ensures |ColumnNames(t, columns)| == |columns|
    ensures forall p :: 0 <= p < |columns| ==> ColumnNames(t, columns)[p] == N.ColumnName(t, columns[p].column)
  {
    if columns != [] { ColumnNamesAt(t, columns[1..]); }
  }

  lemma {:induction false} ColumnNamesAgree(a: N.Table, x: N.Index, b: N.Table, y: N.Index)
    ensures ColumnNames(a, x.columns) == ColumnNames(b, y.columns) <==> SameColumns(b, y, a, x)
  {
    ColumnNamesAt(a, x.columns);
    ColumnNamesAt(b, y.columns);
    if ColumnNames(a, x.columns) == ColumnNames(b, y.columns) {
      forall p | 0 <= p < |x.columns|
        ensures N.ColumnName(a, x.columns[p].column) == N.ColumnName(b, y.columns[p].column)
      {
        assert ColumnNames(a, x.columns)[p] == ColumnNames(b, y.columns)[p];
      }
    }
  }

  lemma {:induction false} ManagedIff(observed: N.Table, latest: N.Table, index: N.Index)
    ensures ManagedIndex(observed, latest, index) <==> index.unique || HasLike(latest, observed, index)
  {
    forall k | 0 <= k < |latest.indices|
      ensures ColumnNames(observed, index.columns) == ColumnNames(latest, latest.indices[k].columns)
              <==> SameColumns(latest, latest.indices[k], observed, index)
    {
      ColumnNamesAgree(observed, index, latest, latest.indices[k]);
    }
  }

  lemma {:induction false} FoundIsFirst(tables: seq<N.Table>, name: string) returns (k: nat)
    ensures N.FindTable(tables, name).None? <==> forall j :: 0 <= j < |tables| ==> tables[j].name != name
    ensures N.FindTable(tables, name).Some? ==> IsFirst(tables, name, k) && N.FindTable(tables, name).value == tables[k]
  {
    k := 0;
    if tables != [] && tables[0].name != name {
      k := FoundIsFirst(tables[1..], name);
      assert forall j :: 1 <= j < |tables| ==> tables[j] == tables[1..][j - 1];
      k := k + 1;
    }
  }

  lemma {:induction false} TakesPartIff(scope: R.Scope, latest: Schema, observed: N.Table, index: N.Index)
    requires !scope.NamespaceExclusive?
    ensures TakesPart(scope, latest, observed, index) <==>
              match N.FindTable(latest.tables, observed.name)
              case None => true
              case Some(table) => ManagedIndex(observed, table, index)
  {
    hide ManagedIndex, HasLike;
    var k := FoundIsFirst(latest.tables, observed.name);
    if N.FindTable(latest.tables, observed.name).Some? {
      ManagedIff(observed, latest.tables[k], index);
      assert forall j: nat :: IsFirst(latest.tables, observed.name, j) ==> j == k;
    }
  }

  function ManagedBy(observed: N.Table, latest: N.Table): N.Index -> bool {
    index => ManagedIndex(observed, latest, index)
  }

  function Taking(scope: R.Scope, latest: Schema, t: N.Table): N.Index -> bool {
    index => TakesPart(scope, latest, t, index)
  }

  lemma {:induction false} ManagedMore(observed: N.Table, latest: N.Table, indices: seq<N.Index>, x: N.Index)
    ensures ManagedIndices(observed, latest, indices + [x])
         == ManagedIndices(observed, latest, indices) + if ManagedIndex(observed, latest, x) then [x] else []
  {
    hide ManagedIndex;
    if indices == [] {
      assert [] + [x] == [x] && [x][1..] == [];
    } else {
      assert (indices + [x])[1..] == indices[1..] + [x];
      ManagedMore(observed, latest, indices[1..], x);
    }
  }

  lemma {:induction false} ByManaged(observed: N.Table, latest: N.Table, x: N.Index)
    ensures ManagedBy(observed, latest)(x) == ManagedIndex(observed, latest, x)
  {
  }

  lemma {:induction false} ManagedPicks(observed: N.Table, latest: N.Table, indices: seq<N.Index>) returns (at: seq<nat>)
    ensures S.Picks(ManagedIndices(observed, latest, indices), indices, ManagedBy(observed, latest), at)
    decreases |indices|
  {
    hide ManagedIndex, S.Picks, ManagedBy;
    var keeps := ManagedBy(observed, latest);
    if indices == [] {
      at := [];
      S.PicksNothing(keeps);
    } else {
      hide ManagedIndices;
      var init, x := S.Init(indices), S.Last(indices);
      assert indices == init + [x];
      at := ManagedPicks(observed, latest, init);
      ManagedMore(observed, latest, init, x);
      ByManaged(observed, latest, x);
      var kept := ManagedIndices(observed, latest, init);
      assert kept + [] == kept;
      S.PicksMore(ManagedIndices(observed, latest, init), init, keeps, at, x);
      if keeps(x) { at := at + [|init|]; }
    }
  }

  lemma {:induction false} ProjectedTable(observed: seq<N.Table>, latest: Schema, i: nat)
    requires i < |observed|
    ensures |ProjectTables(observed, latest)| == |observed|
    ensures ProjectTables(observed, latest)[i] ==
              match N.FindTable(latest.tables, observed[i].name)
              case None => observed[i]
              case Some(table) => observed[i].(indices := ManagedIndices(observed[i], table, observed[i].indices))
  {
    hide ManagedIndices;
    if i > 0 {
      ProjectedTable(observed[1..], latest, i - 1);
    } else if |observed| > 1 {
      ProjectedTable(observed[1..], latest, 0);
    }
  }

  lemma {:induction false} PicksSame<T(!new)>(kept: seq<T>, all: seq<T>, p: T -> bool, q: T -> bool, at: seq<nat>)
    requires S.Picks(kept, all, p, at) && forall j :: 0 <= j < |all| ==> p(all[j]) == q(all[j])
    ensures S.Picks(kept, all, q, at)
  {
  }

  lemma {:induction false} PicksAll<T(!new)>(all: seq<T>, keeps: T -> bool) returns (at: seq<nat>)
    requires forall j :: 0 <= j < |all| ==> keeps(all[j])
    ensures S.Picks(all, all, keeps, at)
  {
    at := seq(|all|, i => i);
    assert forall j: nat :: j < |all| ==> at[j] == j;
  }

  lemma {:induction false} ProjectedIndices(toasty: Toasty, observed: Schema, latest: Schema, i: nat) returns (at: seq<nat>)
    requires i < |observed.tables| == |Project(toasty, observed, latest).tables|
    ensures Projected(toasty.scope, latest, observed.tables[i], Project(toasty, observed, latest).tables[i].indices, at)
    ensures Project(toasty, observed, latest).tables[i]
         == observed.tables[i].(indices := Project(toasty, observed, latest).tables[i].indices)
  {
    hide TakesPart, ManagedIndex, ManagedIndices;
    var t := observed.tables[i];
    var keeps := Taking(toasty.scope, latest, t);
    if toasty.scope.NamespaceExclusive? {
      ExclusiveTakesAll(toasty.scope, latest, t);
      at := PicksAll(t.indices, keeps);
    } else {
      ProjectedTable(observed.tables, latest, i);
      forall index ensures TakesPart(toasty.scope, latest, t, index) <==>
                             match N.FindTable(latest.tables, t.name)
                             case None => true
                             case Some(table) => ManagedIndex(t, table, index)
      {
        TakesPartIff(toasty.scope, latest, t, index);
      }
      match N.FindTable(latest.tables, t.name)
      case None => at := PicksAll(t.indices, keeps);
      case Some(table) =>
        at := ManagedPicks(t, table, t.indices);
        PicksSame(ManagedIndices(t, table, t.indices), t.indices, ManagedBy(t, table), keeps, at);
    }
  }

  /** These are the table's indices that take part, in order. */
  ghost predicate Projected(scope: R.Scope, latest: Schema, t: N.Table, indices: seq<N.Index>, at: seq<nat>) {
    S.Picks(indices, t.indices, Taking(scope, latest, t), at)
  }

  lemma {:induction false} ExclusiveTakesAll(scope: R.Scope, latest: Schema, t: N.Table)
    requires scope.NamespaceExclusive?
    ensures forall index :: TakesPart(scope, latest, t, index)
  {
  }

  lemma {:induction false} AsManyTables(toasty: Toasty, observed: Schema, latest: Schema)
    ensures |Project(toasty, observed, latest).tables| == |observed.tables|
  {
    hide ManagedIndices;
    if observed.tables != [] { ProjectedTable(observed.tables, latest, 0); }
  }

  /** The table `p` is `t`, of whose indices it has those that take part. */
  ghost predicate ProjectsTo(scope: R.Scope, latest: Schema, t: N.Table, p: N.Table) {
    p == t.(indices := p.indices) && exists at :: Projected(scope, latest, t, p.indices, at)
  }

  /** The projected schema has the observed tables with their names and columns, in order, and of each
      table's indices exactly those that take part, in order. */
  lemma {:induction false} ProjectionIs(toasty: Toasty, observed: Schema, latest: Schema)
    ensures var p := Project(toasty, observed, latest);
            && |p.tables| == |observed.tables|
            && forall i :: 0 <= i < |p.tables| ==> ProjectsTo(toasty.scope, latest, observed.tables[i], p.tables[i])
  {
    hide Project, Projected;
    AsManyTables(toasty, observed, latest);
    forall i | 0 <= i < |observed.tables|
      ensures ProjectsTo(toasty.scope, latest, observed.tables[i], Project(toasty, observed, latest).tables[i])
    {
      var at := ProjectedIndices(toasty, observed, latest, i);
    }
  }
}
