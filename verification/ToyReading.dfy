/** In the toy, the schema that is read is the schema of the database exactly when it is read as it is. */
module ToyReading {
  import opened Wrappers
  import opened Lineage
  import opened LineageLaws
  import opened ToyCode
  import opened ToyToasty
  import B = SchemaNormalizerStability
  import N = SchemaNormalizer
  import R = CatalogReading
  import S = Sequences

  // ---------------------------------------------------------------- where things come from

  lemma {:induction false} ObservedThingsHave(table: string, indices: seq<N.ObservedIndex>, j: nat)
    requires j < |indices|
    ensures ObservedThing(table, indices[j]) in ObservedThings(table, indices)
  {
    if j < |indices| - 1 {
      ObservedThingsHave(table, S.Init(indices), j);
    }
  }

  lemma {:induction false} LiveThingsHave(tables: seq<R.LiveTable>, i: nat)
    requires i < |tables|
    ensures var o := tables[i].table;
            && TableThing(o.name) in LiveThings(tables)
            && forall x :: x in ObservedThings(o.name, o.indices) ==> x in LiveThings(tables)
  {
    if i < |tables| - 1 {
      LiveThingsHave(S.Init(tables), i);
    }
  }

  lemma {:induction false} FromIndex(t: N.Table, indices: seq<N.Index>, x: Thing) returns (m: nat)
    requires x in IndexThings(t, indices)
    ensures m < |indices| && x == IndexThingOf(t, indices[m])
  {
    if x == IndexThingOf(t, S.Last(indices)) {
      m := |indices| - 1;
    } else {
      m := FromIndex(t, S.Init(indices), x);
    }
  }

  lemma {:induction false} FromTable(tables: seq<N.Table>, x: Thing) returns (k: nat)
    requires x in SchemaThings(tables)
    ensures k < |tables|
    ensures x == TableThing(tables[k].name) || x in IndexThings(tables[k], tables[k].indices)
  {
    var t := S.Last(tables);
    if x == TableThing(t.name) || x in IndexThings(t, t.indices) {
      k := |tables| - 1;
    } else {
      k := FromTable(S.Init(tables), x);
    }
  }

  lemma {:induction false} IndexThingsAreIndices(t: N.Table, indices: seq<N.Index>)
    ensures forall x :: x in IndexThings(t, indices) ==> x.IndexThing? && x.table == t.name
  {
    if indices != [] { IndexThingsAreIndices(t, S.Init(indices)); }
  }

  // ---------------------------------------------------------------- an index that is there is kept

  /** An observed index whose thing the normalized table has is not skipped and keeps its name. */
  lemma {:induction false} FoundIsKept(i: nat, o: N.ObservedTable, target: Option<N.Table>, n: N.Table, j: nat)
    requires B.Mirrors(n, i, o, target) && R.SaneTable(o) && j < |o.indices|
    requires ObservedThing(o.name, o.indices[j]) in IndexThings(n, n.indices)
    ensures !N.Skipped(target, o.indices, o.indices[j])
    ensures o.indices[j].primaryKey || o.indices[j].name == B.NameFor(target, o.indices[j])
  {
    hide N.Skipped, N.TargetIndex, B.Kept;
    var mine := o.indices[j];
    var kept := B.Kept(target, o.indices, o.indices);
    var m := FromIndex(n, n.indices, ObservedThing(o.name, mine));
    assert kept[m] in kept && kept[m] in o.indices;
    SameNames(n, n.indices[m], kept[m]);
    assert B.SameObservedShape(mine, kept[m]);
    B.TargetIndexSame(target, mine, kept[m]);
    if N.TargetIndex(target, mine).None? || mine.primaryKey {
      assert mine.primaryKey || mine.name == kept[m].name;
      var a :| 0 <= a < |o.indices| && o.indices[a] == kept[m];
      assert a == j;
    } else {
      FoundNotSkipped(target, o.indices, mine);
    }
  }

  lemma {:induction false} SameNames(n: N.Table, index: N.Index, o: N.ObservedIndex)
    requires N.ShapeMatches(n, index, o)
    ensures Names(n, index.columns) == o.columns
  {
  }

  lemma {:induction false} FoundNotSkipped(target: Option<N.Table>, all: seq<N.ObservedIndex>, o: N.ObservedIndex)
    requires N.TargetIndex(target, o).Some? && o.filter.None?
    ensures !N.Skipped(target, all, o)
  {
    hide N.TargetIndex, N.Shadowed;
  }

  // ---------------------------------------------------------------- the whole catalog

  lemma {:induction false} HeldIsCovered(live: Catalog, target: Schema)
    requires Observe(TOY, live, target).Some? && Holds(TOY, live, Observe(TOY, live, target).value)
    ensures R.Covers(R.Managed, live, target)
  {
    hide LiveThings, SchemaThings, B.Mirrors, N.Normalize, R.InScope, R.Visible;
    var n := Observe(TOY, live, target).value;
    var visible := R.Visible(R.Managed, live.tables, target);
    var o := R.AsObserved(visible);
    B.NormalizeIsWellFormed(o, target, TOY.typer);
    forall i | 0 <= i < |live.tables| ensures R.InScope(R.Managed, live.tables[i].table.name, target) {
      LiveThingsHave(live.tables, i);
      assert TableThing(live.tables[i].table.name) in ThingsOf(n);
      var k := FromTable(n.tables, TableThing(live.tables[i].table.name));
      IndexThingsAreIndices(n.tables[k], n.tables[k].indices);
      MirroredName(n, o, target, k);
      R.VisibleIff(R.Managed, live.tables, target);
      assert visible[k] in visible;
    }
  }

  lemma {:induction false} MirroredName(n: Schema, o: N.ObservedSchema, target: Schema, k: nat)
    requires k < |n.tables| == |o.tables|
    requires B.Mirrors(n.tables[k], k, o.tables[k], N.FindTable(target.tables, o.tables[k].name))
    ensures n.tables[k].name == o.tables[k].name
  {
  }

  lemma {:induction false} HeldKeepsIndices(live: Catalog, target: Schema, i: nat)
    requires Observe(TOY, live, target).Some? && Holds(TOY, live, Observe(TOY, live, target).value)
    requires R.Sane(live) && R.Covers(R.Managed, live, target) && i < |live.tables|
    ensures R.KeepsIndices(live.tables[i].table, N.FindTable(target.tables, live.tables[i].table.name))
  {
    hide LiveThings, SchemaThings, ObservedThings, IndexThings, B.Mirrors, N.Normalize, R.InScope, R.Visible, R.SaneTable,
         N.Skipped, B.NameFor;
    var n := Observe(TOY, live, target).value;
    var o := R.AsObserved(live.tables);
    R.VisibleAll(R.Managed, live.tables, target);
    B.NormalizeIsWellFormed(o, target, TOY.typer);
    var mine := live.tables[i].table;
    forall j | 0 <= j < |mine.indices|
      ensures !N.Skipped(N.FindTable(target.tables, mine.name), mine.indices, mine.indices[j])
      ensures mine.indices[j].primaryKey
              || mine.indices[j].name == B.NameFor(N.FindTable(target.tables, mine.name), mine.indices[j])
    {
      var x := ObservedThing(mine.name, mine.indices[j]);
      ObservedThingsHave(mine.name, mine.indices, j);
      LiveThingsHave(live.tables, i);
      assert x in ThingsOf(n);
      var k := FromTable(n.tables, x);
      IndexThingsAreIndices(n.tables[k], n.tables[k].indices);
      MirroredName(n, o, target, k);
      assert k == i;
      FoundIsKept(i, mine, N.FindTable(target.tables, mine.name), n.tables[i], j);
    }
  }

  lemma {:induction false} TypesKept(i: nat, o: N.ObservedTable, target: Option<N.Table>, n: N.Table)
    requires B.Mirrors(n, i, o, target)
    ensures R.KeepsTypes(o, n, TOY.typer)
  {
    hide B.Kept;
  }

  lemma {:induction false} HeldIsTrue(live: Catalog, target: Schema)
    requires Observe(TOY, live, target).Some? && Holds(TOY, live, Observe(TOY, live, target).value) && R.Sane(live)
    ensures TrulyObserved(TOY, live, target)
  {
    hide LiveThings, SchemaThings, B.Mirrors, N.Normalize, R.InScope, R.Visible, R.Sane, R.KeepsIndices, R.KeepsTypes, Holds;
    HeldIsCovered(live, target);
    R.VisibleAll(R.Managed, live.tables, target);
    var n := Observe(TOY, live, target).value;
    var o := R.AsObserved(live.tables);
    B.NormalizeIsWellFormed(o, target, TOY.typer);
    forall i | 0 <= i < |live.tables|
      ensures R.KeepsIndices(live.tables[i].table, N.FindTable(target.tables, live.tables[i].table.name))
      ensures R.KeepsTypes(live.tables[i].table, n.tables[i], TOY.typer)
    {
      HeldKeepsIndices(live, target, i);
      TypesKept(i, o.tables[i], N.FindTable(target.tables, o.tables[i].name), n.tables[i]);
    }
  }

  /** A toy database has the schema that is read off it if and only if it is read as it is. */
  lemma {:induction false} HeldIffTrue(live: Catalog, target: Schema)
    requires Observe(TOY, live, target).Some? && R.Sane(live)
    ensures Holds(TOY, live, Observe(TOY, live, target).value) <==> TrulyObserved(TOY, live, target)
  {
    hide Holds, R.Sane, R.ReadSchema, R.TrulyRead, R.Shows;
    if Holds(TOY, live, Observe(TOY, live, target).value) {
      HeldIsTrue(live, target);
    } else if TrulyObserved(TOY, live, target) {
      ToyMeetsLaws();
      ObservedIsHeld(TOY, live, target);
    }
  }
}
