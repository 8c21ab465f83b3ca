/** Generating from a live database over a ready lineage: which differences from the latest snapshot are
    refused as drift, in the toy. */
module ToyDrift {
  import opened Wrappers
  import opened Lineage
  import opened LineageLaws
  import opened ToyCode
  import opened ToyToasty
  import opened ProjectionLaws
  import A = ArtifactStore
  import N = SchemaNormalizer
  import R = CatalogReading
  import S = Sequences

  // ---------------------------------------------------------------- refusal in general

  /** A live generation over a ready lineage. */
  ghost predicate LiveGeneration(toasty: Toasty, t: A.Tree, live: Catalog, q: GenerateRequest, observed: Schema,
                                 latest: Schema)
  {
    && A.InspectState(t) == A.Ready && A.LoadHistory(t).Ok? && q.origin.LiveDatabase?
    && Observe(toasty, live, q.current) == Some(observed)
    && LatestSchema(t, A.LoadHistory(t).value) == Ok(latest)
  }

  /** It is refused as drift, before anything is written, exactly when Toasty would change something
      between the latest snapshot and what is left of the observed schema. */
  lemma {:induction false} DriftIff(toasty: Toasty, t: A.Tree, live: Catalog, q: GenerateRequest, steps: nat,
                                    observed: Schema, latest: Schema)
    requires LiveGeneration(toasty, t, live, q, observed, latest)
    ensures var g := Generate(toasty, t, live, q, steps);
            var drift := Diff(toasty, latest, Project(toasty, observed, latest), NO_HINTS).Some?;
            (g.1 == Err(TrackedDrift) <==> drift) && (drift ==> g.0 == t)
  {
    hide Project, Observe, A.InspectState, A.LoadHistory, LatestSchema, A.Written;
  }

  // ---------------------------------------------------------------- what is never left out

  predicate Solid(x: Thing) { x.TableThing? || x.unique }

  function SolidOf(things: seq<Thing>): seq<Thing> {
    if things == [] then []
    else SolidOf(S.Init(things)) + if Solid(S.Last(things)) then [S.Last(things)] else []
  }

  lemma {:induction false} SolidJoin(a: seq<Thing>, b: seq<Thing>)
    ensures SolidOf(a + b) == SolidOf(a) + SolidOf(b)
    decreases |b|
  {
    if b == [] {
      assert a + b == a;
    } else {
      assert S.Init(a + b) == a + S.Init(b) && S.Last(a + b) == S.Last(b);
      SolidJoin(a, S.Init(b));
    }
  }

  lemma {:induction false} SolidCount(things: seq<Thing>, x: Thing)
    ensures multiset(SolidOf(things))[x] == if Solid(x) then multiset(things)[x] else 0
  {
    if things != [] {
      SolidCount(S.Init(things), x);
      assert things == S.Init(things) + [S.Last(things)];
    }
  }

  lemma {:induction false} SameSolid(a: seq<Thing>, b: seq<Thing>)
    requires multiset(a) == multiset(b)
    ensures multiset(SolidOf(a)) == multiset(SolidOf(b))
  {
    forall x: Thing ensures multiset(SolidOf(a))[x] == multiset(SolidOf(b))[x] {
      SolidCount(a, x);
      SolidCount(b, x);
    }
  }

  /** The tables and the unique indices. */
  function SolidThings(s: Schema): multiset<Thing> { multiset(SolidOf(SchemaThings(s.tables))) }

  lemma {:induction false} ThingOfProjected(t: N.Table, p: N.Table, index: N.Index)
    requires p == t.(indices := p.indices)
    ensures IndexThingOf(p, index) == IndexThingOf(t, index)
  {
    assert Names(p, index.columns) == Names(t, index.columns);
  }

  lemma {:induction false} IndexThingsMore(t: N.Table, indices: seq<N.Index>, x: N.Index)
    ensures IndexThings(t, indices + [x]) == IndexThings(t, indices) + [IndexThingOf(t, x)]
  {
    assert S.Init(indices + [x]) == indices;
  }

  lemma {:induction false} OneSolid(x: Thing)
    ensures SolidOf([x]) == if Solid(x) then [x] else []
  {
    assert S.Init([x]) == [];
  }

  /** Leaving out indices that are not unique leaves the solid things of a table. */
  lemma {:induction false} SolidIndicesStay(t: N.Table, p: N.Table, latest: N.Table, indices: seq<N.Index>)
    requires p == t.(indices := p.indices)
    ensures SolidOf(IndexThings(p, ManagedIndices(t, latest, indices))) == SolidOf(IndexThings(t, indices))
    decreases |indices|
  {
    if indices != [] {
      hide ManagedIndex, ManagedIndices, IndexThings, SolidOf, IndexThingOf;
      var init, x := S.Init(indices), S.Last(indices);
      assert indices == init + [x];
      SolidIndicesStay(t, p, latest, init);
      ManagedMore(t, latest, init, x);
      var kept := ManagedIndices(t, latest, init);
      assert kept + [] == kept;
      IndexThingsMore(t, init, x);
      IndexThingsMore(p, kept, x);
      ThingOfProjected(t, p, x);
      SolidJoin(IndexThings(t, init), [IndexThingOf(t, x)]);
      SolidJoin(IndexThings(p, kept), [IndexThingOf(p, x)]);
      OneSolid(IndexThingOf(t, x));
      UnmanagedNotSolid(t, latest, x);
    }
  }

  lemma {:induction false} UnmanagedNotSolid(t: N.Table, latest: N.Table, x: N.Index)
    ensures !ManagedIndex(t, latest, x) ==> !Solid(IndexThingOf(t, x))
  {
  }

  lemma {:induction false} SchemaThingsMore(tables: seq<N.Table>, t: N.Table)
    ensures SchemaThings(tables + [t]) == SchemaThings(tables) + ([TableThing(t.name)] + IndexThings(t, t.indices))
  {
    assert S.Init(tables + [t]) == tables;
  }

  lemma {:induction false} SolidTableStays(t: N.Table, p: N.Table, latest: Schema)
    requires p == match N.FindTable(latest.tables, t.name)
                  case None => t
                  case Some(table) => t.(indices := ManagedIndices(t, table, t.indices))
    ensures SolidOf([TableThing(p.name)] + IndexThings(p, p.indices)) == SolidOf([TableThing(t.name)] + IndexThings(t, t.indices))
  {
    hide ManagedIndices, IndexThings, SolidOf;
    SolidJoin([TableThing(p.name)], IndexThings(p, p.indices));
    SolidJoin([TableThing(t.name)], IndexThings(t, t.indices));
    match N.FindTable(latest.tables, t.name)
    case None =>
    case Some(table) => SolidIndicesStay(t, p, table, t.indices);
  }

  lemma {:induction false} SolidTablesStay(observed: seq<N.Table>, latest: Schema, i: nat)
    requires i <= |observed| == |ProjectTables(observed, latest)|
    ensures SolidOf(SchemaThings(ProjectTables(observed, latest)[..i])) == SolidOf(SchemaThings(observed[..i]))
  {
    hide ManagedIndices, SolidOf, ProjectTables, SchemaThings;
    var projected := ProjectTables(observed, latest);
    if i > 0 {
      SolidTablesStay(observed, latest, i - 1);
      ProjectedTable(observed, latest, i - 1);
      var t, p := observed[i - 1], projected[i - 1];
      assert observed[..i] == observed[..i - 1] + [t] && projected[..i] == projected[..i - 1] + [p];
      SchemaThingsMore(observed[..i - 1], t);
      SchemaThingsMore(projected[..i - 1], p);
      SolidJoin(SchemaThings(observed[..i - 1]), [TableThing(t.name)] + IndexThings(t, t.indices));
      SolidJoin(SchemaThings(projected[..i - 1]), [TableThing(p.name)] + IndexThings(p, p.indices));
      SolidTableStays(t, p, latest);
    } else {
      assert projected[..0] == observed[..0] == [];
    }
  }

  lemma {:induction false} SolidStays(observed: Schema, latest: Schema)
    ensures SolidThings(Project(TOY, observed, latest)) == SolidThings(observed)
  {
    hide ProjectTables, SolidOf, SchemaThings;
    AsManyTables(TOY, observed, latest);
    var n := |observed.tables|;
    SolidTablesStay(observed.tables, latest, n);
    assert observed.tables[..n] == observed.tables;
    assert ProjectTables(observed.tables, latest)[..n] == ProjectTables(observed.tables, latest);
  }

  /** A live database that differs from the latest snapshot by a table or a unique index is refused. */
  lemma {:induction false} SolidDifferenceIsDrift(t: A.Tree, live: Catalog, q: GenerateRequest, steps: nat,
                                                  observed: Schema, latest: Schema)
    requires LiveGeneration(TOY, t, live, q, observed, latest) && SolidThings(observed) != SolidThings(latest)
    ensures Generate(TOY, t, live, q, steps) == (t, Err(TrackedDrift))
  {
    hide LiveGeneration, Generate, Project, SolidOf, SchemaThings, Sql;
    DriftIff(TOY, t, live, q, steps, observed, latest);
    SolidStays(observed, latest);
    if ThingsOf(latest) == ThingsOf(Project(TOY, observed, latest)) {
      SameSolid(SchemaThings(latest.tables), SchemaThings(Project(TOY, observed, latest).tables));
    }
  }

  // ---------------------------------------------------------------- what is left out

  /** Index `x` of the observed table is index `y` of the snapshot's. */
  ghost predicate IsIndex(t: N.Table, x: N.Index, latest: N.Table, y: N.Index) {
    && x.unique == y.unique && x.primaryKey == y.primaryKey && (x.primaryKey || x.name == y.name)
    && SameColumns(latest, y, t, x)
  }

  /** The observed table is the snapshot's, whose indices stand at `at`, with other indices that are not
      unique and unlike any of the snapshot's. */
  ghost predicate OnlyExtraIndices(t: N.Table, latest: N.Table, at: seq<nat>) {
    && t.name == latest.name
    && |at| == |latest.indices|
    && (forall k :: 0 <= k < |at| ==> at[k] < |t.indices| && IsIndex(t, t.indices[at[k]], latest, latest.indices[k]))
    && (forall j, k :: 0 <= j < k < |at| ==> at[j] < at[k])
    && forall j: nat :: j < |t.indices| && j !in at ==>
         !t.indices[j].unique && !HasLike(latest, t, t.indices[j])
  }

  ghost predicate OnlyExtra(observed: Schema, latest: Schema, ats: seq<seq<nat>>) {
    && |observed.tables| == |latest.tables| == |ats|
    && (forall a, b :: 0 <= a < b < |latest.tables| ==> latest.tables[a].name != latest.tables[b].name)
    && forall i :: 0 <= i < |ats| ==> OnlyExtraIndices(observed.tables[i], latest.tables[i], ats[i])
  }

  lemma {:induction false} SameThing(t: N.Table, x: N.Index, latest: N.Table, y: N.Index)
    requires IsIndex(t, x, latest, y) && t.name == latest.name
    ensures IndexThingOf(t, x) == IndexThingOf(latest, y)
  {
    assert Names(t, x.columns) == Names(latest, y.columns);
  }

  lemma {:induction false} ManagedOneMore(t: N.Table, p: N.Table, latest: N.Table, j: nat)
    requires p == t.(indices := p.indices) && j < |t.indices|
    ensures IndexThings(p, ManagedIndices(t, latest, t.indices[..j + 1]))
         == IndexThings(p, ManagedIndices(t, latest, t.indices[..j]))
            + if t.indices[j].unique || HasLike(latest, t, t.indices[j]) then [IndexThingOf(t, t.indices[j])] else []
  {
    hide ManagedIndices, ManagedIndex, IndexThings, IndexThingOf, HasLike;
    var x, kept := t.indices[j], ManagedIndices(t, latest, t.indices[..j]);
    assert t.indices[..j + 1] == t.indices[..j] + [x];
    ManagedMore(t, latest, t.indices[..j], x);
    ManagedIff(t, latest, x);
    ThingOfProjected(t, p, x);
    IndexThingsMore(p, kept, x);
    assert kept + [] == kept && IndexThings(p, kept) + [] == IndexThings(p, kept);
  }

  lemma {:induction false} IndexAt(t: N.Table, latest: N.Table, at: seq<nat>, k: nat)
    requires OnlyExtraIndices(t, latest, at) && k < |at|
    ensures var x := t.indices[at[k]];
            && (x.unique || HasLike(latest, t, x)) && IndexThingOf(t, x) == IndexThingOf(latest, latest.indices[k])
  {
    hide HasLike, IndexThingOf, IsIndex;
    SameThing(t, t.indices[at[k]], latest, latest.indices[k]);
    LikeIsThere(t, t.indices[at[k]], latest, k);
  }

  lemma {:induction false} LikeIsThere(t: N.Table, x: N.Index, latest: N.Table, k: nat)
    requires k < |latest.indices| && IsIndex(t, x, latest, latest.indices[k])
    ensures HasLike(latest, t, x)
  {
  }

  /** The observed indices up to `j`, of which the first `k` positions of `at` are those below `j`. */
  lemma {:induction false} ExtraLeftOut(t: N.Table, p: N.Table, latest: N.Table, at: seq<nat>, j: nat, k: nat)
    requires OnlyExtraIndices(t, latest, at) && p == t.(indices := p.indices)
    requires j <= |t.indices| && k <= |at| && (forall i :: 0 <= i < k ==> at[i] < j) && forall i :: k <= i < |at| ==> at[i] >= j
    ensures IndexThings(p, ManagedIndices(t, latest, t.indices[..j])) == IndexThings(latest, latest.indices[..k])
    decreases j
  {
    hide ManagedIndices, IndexThings, IndexThingOf, HasLike, IsIndex;
    if j == 0 {
      assert t.indices[..0] == [] && latest.indices[..0] == [];
      NoThings(t, p, latest);
    } else {
      ManagedOneMore(t, p, latest, j - 1);
      if k > 0 && at[k - 1] == j - 1 {
        ExtraLeftOut(t, p, latest, at, j - 1, k - 1);
        IndexAt(t, latest, at, k - 1);
        IndexThingsMore(latest, latest.indices[..k - 1], latest.indices[k - 1]);
        assert latest.indices[..k] == latest.indices[..k - 1] + [latest.indices[k - 1]];
      } else {
        assert j - 1 !in at;
        ExtraLeftOut(t, p, latest, at, j - 1, k);
      }
    }
  }

  lemma {:induction false} NoThings(t: N.Table, p: N.Table, latest: N.Table)
    ensures IndexThings(p, ManagedIndices(t, latest, [])) == IndexThings(latest, []) == []
  {
  }

  lemma {:induction false} FindsTable(tables: seq<N.Table>, i: nat)
    requires i < |tables| && forall a, b :: 0 <= a < b < |tables| ==> tables[a].name != tables[b].name
    ensures N.FindTable(tables, tables[i].name) == Some(tables[i])
  {
    var k := FoundIsFirst(tables, tables[i].name);
    assert k == i;
  }

  lemma {:induction false} ExtraTablesLeftOut(observed: Schema, latest: Schema, ats: seq<seq<nat>>, i: nat)
    requires OnlyExtra(observed, latest, ats) && i <= |ats|
    requires |ProjectTables(observed.tables, latest)| == |observed.tables|
    ensures SchemaThings(ProjectTables(observed.tables, latest)[..i]) == SchemaThings(latest.tables[..i])
  {
    hide ManagedIndices, ProjectTables, SchemaThings, OnlyExtraIndices;
    var projected := ProjectTables(observed.tables, latest);
    if i > 0 {
      ExtraTablesLeftOut(observed, latest, ats, i - 1);
      var o, l, p := observed.tables[i - 1], latest.tables[i - 1], projected[i - 1];
      assert OnlyExtraIndices(o, l, ats[i - 1]);
      ExtraName(o, l, ats[i - 1]);
      ProjectedTable(observed.tables, latest, i - 1);
      FindsTable(latest.tables, i - 1);
      ExtraTable(o, p, l, ats[i - 1]);
      SchemaThingsMore(projected[..i - 1], p);
      SchemaThingsMore(latest.tables[..i - 1], l);
      assert projected[..i] == projected[..i - 1] + [p] && latest.tables[..i] == latest.tables[..i - 1] + [l];
    } else {
      assert projected[..0] == latest.tables[..0] == [];
    }
  }

  lemma {:induction false} ExtraName(t: N.Table, latest: N.Table, at: seq<nat>)
    requires OnlyExtraIndices(t, latest, at)
    ensures t.name == latest.name
  {
  }

  lemma {:induction false} ExtraTable(t: N.Table, p: N.Table, latest: N.Table, at: seq<nat>)
    requires OnlyExtraIndices(t, latest, at) && p == t.(indices := ManagedIndices(t, latest, t.indices))
    ensures p.name == latest.name && IndexThings(p, p.indices) == IndexThings(latest, latest.indices)
  {
    hide ManagedIndices, IndexThings, HasLike, IsIndex;
    ExtraLeftOut(t, p, latest, at, |t.indices|, |at|);
    assert t.indices[..|t.indices|] == t.indices && latest.indices[..|at|] == latest.indices;
  }

  /** A live database that differs from the latest snapshot only by further secondary indices that are not
      unique is not refused. */
  lemma {:induction false} ExtraIndicesAreNoDrift(t: A.Tree, live: Catalog, q: GenerateRequest, steps: nat,
                                                  observed: Schema, latest: Schema, ats: seq<seq<nat>>)
    requires LiveGeneration(TOY, t, live, q, observed, latest) && OnlyExtra(observed, latest, ats)
    ensures Generate(TOY, t, live, q, steps).1 != Err(TrackedDrift)
  {
    hide LiveGeneration, Generate, ProjectTables, SchemaThings, Sql;
    DriftIff(TOY, t, live, q, steps, observed, latest);
    AsManyTables(TOY, observed, latest);
    ExtraTablesLeftOut(observed, latest, ats, |ats|);
    var projected := ProjectTables(observed.tables, latest);
    assert projected[..|ats|] == projected && latest.tables[..|ats|] == latest.tables;
  }
}
