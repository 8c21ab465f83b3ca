/** Normalizing is stable, ignores the names of indices that the target recognises by shape, and
    builds a well-formed schema with distinct index names. */
module SchemaNormalizerStability {
  import opened Wrappers
  import opened Sequences
  import opened SchemaNormalizer
  import opened SchemaNormalizerLaws

  ghost predicate SameObservedShape(a: ObservedIndex, b: ObservedIndex) {
    a.columns == b.columns && a.unique == b.unique && a.primaryKey == b.primaryKey
  }

  lemma {:induction false} FindShapeSame(table: Table, indices: seq<Index>, a: ObservedIndex, b: ObservedIndex)
    requires SameObservedShape(a, b)
    ensures FindShape(table, indices, a) == FindShape(table, indices, b)
  {
    if indices != [] { FindShapeSame(table, indices[1..], a, b); }
  }

  lemma {:induction false} TargetIndexSame(target: Option<Table>, a: ObservedIndex, b: ObservedIndex)
    requires SameObservedShape(a, b)
    ensures TargetIndex(target, a) == TargetIndex(target, b)
  {
    if target.Some? { FindShapeSame(target.value, target.value.indices, a, b); }
  }

  // ---------------------------------------------------------------- name independence

  /** Two observed indices that differ at most in name, and in name only if the target has their
      shape. */
  ghost predicate SameForTarget(target: Option<Table>, a: ObservedIndex, b: ObservedIndex) {
    && SameObservedShape(a, b) && a.filter == b.filter
    && (a.name == b.name || TargetIndex(target, a).Some?)
  }

  ghost predicate RenamedIndices(target: Option<Table>, a: seq<ObservedIndex>, b: seq<ObservedIndex>) {
    |a| == |b| && forall j :: 0 <= j < |a| ==> SameForTarget(target, a[j], b[j])
  }

  ghost predicate RenamedTables(target: Schema, a: seq<ObservedTable>, b: seq<ObservedTable>) {
    && |a| == |b|
    && forall i :: 0 <= i < |a| ==>
         && b[i].name == a[i].name && b[i].columns == a[i].columns
         && RenamedIndices(FindTable(target.tables, a[i].name), a[i].indices, b[i].indices)
  }

  lemma {:induction false} ShadowedRenamed(target: Option<Table>, a: seq<ObservedIndex>, b: seq<ObservedIndex>,
                                           x: ObservedIndex, y: ObservedIndex)
    requires RenamedIndices(target, a, b) && x.name == y.name
    ensures Shadowed(target, a, x) == Shadowed(target, b, y)
  {
    if Shadowed(target, a, x) {
      var candidate, other :| candidate in target.value.indices && candidate.name == x.name
        && other in a && ShapeMatches(target.value, candidate, other);
      var j :| 0 <= j < |a| && a[j] == other;
      assert SameForTarget(target, a[j], b[j]) && b[j] in b;
      assert ShapeMatches(target.value, candidate, b[j]);
    }
    if Shadowed(target, b, y) {
      var candidate, other :| candidate in target.value.indices && candidate.name == y.name
        && other in b && ShapeMatches(target.value, candidate, other);
      var j :| 0 <= j < |b| && b[j] == other;
      assert SameForTarget(target, a[j], b[j]) && a[j] in a;
      assert ShapeMatches(target.value, candidate, a[j]);
    }
  }

  lemma {:induction false} AddIndexRenamed(parts: Parts, table: nat, a: seq<ObservedIndex>, b: seq<ObservedIndex>,
                                           target: Option<Table>, x: ObservedIndex, y: ObservedIndex)
    requires RenamedIndices(target, a, b) && SameForTarget(target, x, y)
    ensures AddIndex(parts, table, a, target, x) == AddIndex(parts, table, b, target, y)
  {
    hide MarkAll, IndexColumns, Shadowed;
    TargetIndexSame(target, x, y);
    if TargetIndex(target, x).None? { ShadowedRenamed(target, a, b, x, y); }
  }

  lemma {:induction false} IndicesRenamed(columns: seq<Column>, table: nat, a: seq<ObservedIndex>,
                                          b: seq<ObservedIndex>, target: Option<Table>,
                                          x: seq<ObservedIndex>, y: seq<ObservedIndex>)
    requires RenamedIndices(target, a, b) && RenamedIndices(target, x, y)
    ensures Indices(columns, table, a, target, x) == Indices(columns, table, b, target, y)
    decreases |x|
  {
    hide AddIndex, SameForTarget;
    if x != [] {
      IndicesRenamed(columns, table, a, b, target, Init(x), Init(y));
      var parts := Indices(columns, table, a, target, Init(x));
      if parts.Ok? { AddIndexRenamed(parts.value, table, a, b, target, Last(x), Last(y)); }
    }
  }

  lemma {:induction false} TablesRenamed(a: seq<ObservedTable>, b: seq<ObservedTable>, target: Schema, typer: Typer)
    requires RenamedTables(target, a, b)
    ensures Tables(a, target, typer) == Tables(b, target, typer)
  {
    hide Columns, Indices, RenamedIndices;
    if a != [] {
      TablesRenamed(Init(a), Init(b), target, typer);
      var columns := Columns(|Init(a)|, Last(a).columns, FindTable(target.tables, Last(a).name), typer);
      if columns.Ok? {
        IndicesRenamed(columns.value, |Init(a)|, Last(a).indices, Last(b).indices,
                       FindTable(target.tables, Last(a).name), Last(a).indices, Last(b).indices);
      }
    }
  }

  /** Renaming observed indices whose shape the target has never changes the result. */
  lemma {:induction false} NormalizeIgnoresMatchedNames(a: ObservedSchema, b: ObservedSchema, target: Schema,
                                                        typer: Typer)
    requires a.diagnostics == b.diagnostics && RenamedTables(target, a.tables, b.tables)
    ensures Normalize(a, target, typer) == Normalize(b, target, typer)
  {
    TablesRenamed(a.tables, b.tables, target, typer);
  }

  // ---------------------------------------------------------------- the indices that are kept

  /** The observed indices that stand in the result, in order. */
  ghost function Kept(target: Option<Table>, all: seq<ObservedIndex>, seen: seq<ObservedIndex>)
    : (r: seq<ObservedIndex>)
    ensures forall o :: o in r ==> o in seen && !Skipped(target, all, o)
  {
    if seen == [] then []
    else Kept(target, all, Init(seen)) + if Skipped(target, all, Last(seen)) then [] else [Last(seen)]
  }

  /** The target's name where it has an index of this shape, and the index's own name elsewhere. */
  function NameFor(target: Option<Table>, o: ObservedIndex): string {
    var index := TargetIndex(target, o);
    if index.Some? then index.value.name else o.name
  }

  /** Index `n` is the `j`-th of table `table`, made from the observed index `o`. */
  ghost predicate MadeFrom(columns: seq<Column>, table: nat, j: nat, target: Option<Table>, o: ObservedIndex,
                           n: Index)
  {
    && n.id == IndexId(table, j) && n.on == table
    && n.unique == o.unique && n.primaryKey == o.primaryKey
    && n.name == NameFor(target, o)
    && |n.columns| == |o.columns|
    && forall p :: 0 <= p < |n.columns| ==>
         var k := Position(columns, o.columns[p]);
         k.Some? && n.columns[p].column == columns[k.value].id
  }

  lemma {:induction false} IndexColumnsMade(columns: seq<Column>, names: seq<string>, index: Option<Index>)
    requires IndexColumns(columns, names, index).Ok?
    ensures forall p :: 0 <= p < |names| ==>
              var k := Position(columns, names[p]);
              k.Some? && IndexColumns(columns, names, index).value[p].column == columns[k.value].id
  {
    hide Position;
    if names != [] { IndexColumnsMade(columns, Init(names), index); }
  }

  /** `parts` holds the columns `columns`, apart from key flags, and the indices made from `kept`. */
  ghost predicate Made(columns: seq<Column>, table: nat, target: Option<Table>, kept: seq<ObservedIndex>,
                       parts: Parts)
  {
    && SameApartFromFlags(columns, parts.columns)
    && |parts.indices| == |kept|
    && forall j :: 0 <= j < |kept| ==> MadeFrom(columns, table, j, target, kept[j], parts.indices[j])
  }

  ghost predicate SameApartFromFlags(a: seq<Column>, b: seq<Column>) {
    |a| == |b| && forall k :: 0 <= k < |a| ==> b[k] == a[k].(primaryKey := b[k].primaryKey)
  }

  lemma {:induction false} NormalIndexMade(columns: seq<Column>, table: nat, target: Option<Table>,
                                           parts: Parts, o: ObservedIndex)
    requires SameApartFromFlags(columns, parts.columns)
    requires IndexColumns(parts.columns, o.columns, TargetIndex(target, o)).Ok?
    ensures var made := IndexColumns(parts.columns, o.columns, TargetIndex(target, o)).value;
            MadeFrom(columns, table, |parts.indices|, target, o,
                     NormalIndex(table, |parts.indices|, o, TargetIndex(target, o), made))
  {
    hide TargetIndex, IndexColumns;
    IndexColumnsMade(parts.columns, o.columns, TargetIndex(target, o));
    forall p | 0 <= p < |o.columns|
      ensures Position(parts.columns, o.columns[p]) == Position(columns, o.columns[p])
    {
      PositionMarked(parts.columns, columns, o.columns[p]);
    }
  }

  lemma {:induction false} AddIndexMade(columns: seq<Column>, table: nat, all: seq<ObservedIndex>,
                                        target: Option<Table>, kept: seq<ObservedIndex>, parts: Parts,
                                        o: ObservedIndex)
    requires Made(columns, table, target, kept, parts) && !Skipped(target, all, o)
    requires AddIndex(parts, table, all, target, o).Ok?
    ensures Made(columns, table, target, kept + [o], AddIndex(parts, table, all, target, o).value)
  {
    hide IndexColumns, MarkAll, TargetIndex, MadeFrom;
    NormalIndexMade(columns, table, target, parts, o);
  }

  /** What the index loop keeps of the columns and makes of the kept indices. */
  lemma {:induction false} IndicesMade(columns: seq<Column>, table: nat, all: seq<ObservedIndex>,
                                       target: Option<Table>, seen: seq<ObservedIndex>)
    requires Indices(columns, table, all, target, seen).Ok?
    ensures Made(columns, table, target, Kept(target, all, seen),
                 Indices(columns, table, all, target, seen).value)
    decreases |seen|
  {
    hide Skipped, MadeFrom;
    if seen != [] {
      IndicesMade(columns, table, all, target, Init(seen));
      var before := Indices(columns, table, all, target, Init(seen)).value;
      if Skipped(target, all, Last(seen)) {
        assert Kept(target, all, seen) == Kept(target, all, Init(seen));
      } else {
        AddIndexMade(columns, table, all, target, Kept(target, all, Init(seen)), before, Last(seen));
      }
    }
  }

  // ---------------------------------------------------------------- a well-formed result

  /** The table `n` is well formed and mirrors the observed table `o`: identifiers are positions,
      an index has the name of the target's index of its shape if there is one, every index column is a
      column of the table with the name that the observed index gives, and the primary key is the first
      primary index. */
  ghost predicate Mirrors(n: Table, i: nat, o: ObservedTable, target: Option<Table>) {
    var kept := Kept(target, o.indices, o.indices);
    && n.id == i && n.name == o.name && |n.columns| == |o.columns|
    && (forall k :: 0 <= k < |n.columns| ==>
          && n.columns[k].id == ColumnId(i, k) && n.columns[k].name == o.columns[k].name
          && n.columns[k].nullable == o.columns[k].nullable
          && n.columns[k].autoIncrement == o.columns[k].autoIncrement)
    && |n.indices| == |kept|
    && (forall j :: 0 <= j < |kept| ==>
          && n.indices[j].id == IndexId(i, j) && n.indices[j].on == i
          && n.indices[j].name == NameFor(target, kept[j])
          && ShapeMatches(n, n.indices[j], kept[j])
          && forall p :: 0 <= p < |n.indices[j].columns| ==> n.indices[j].columns[p].column.table == i)
    && var key := FirstPrimary(n.indices);
       key.Some? && n.primaryKey == PrimaryKey(KeyColumns(key.value.columns), key.value.id)
  }

  lemma {:induction false} ColumnsMade(table: nat, observed: seq<ObservedColumn>, target: Option<Table>, typer: Typer)
    requires Columns(table, observed, target, typer).Ok?
    ensures var columns := Columns(table, observed, target, typer).value;
            forall k :: 0 <= k < |columns| ==>
              && columns[k].id == ColumnId(table, k) && columns[k].name == observed[k].name
              && columns[k].nullable == observed[k].nullable
              && columns[k].autoIncrement == observed[k].autoIncrement
  {
    hide TypeOf;
    if observed != [] { ColumnsMade(table, Init(observed), target, typer); }
  }

  lemma {:induction false} NormalTableMirrors(i: nat, o: ObservedTable, target: Option<Table>, typer: Typer)
    requires NormalTable(i, o, target, typer).Ok?
    ensures Mirrors(NormalTable(i, o, target, typer).value, i, o, target)
  {
    hide Columns, Indices, Kept, TargetIndex, Position, FirstPrimary, KeyColumns;
    var columns := Columns(i, o.columns, target, typer).value;
    ColumnsMade(i, o.columns, target, typer);
    IndicesMade(columns, i, o.indices, target, o.indices);
    var n := NormalTable(i, o, target, typer).value;
    var kept := Kept(target, o.indices, o.indices);
    forall j | 0 <= j < |kept|
      ensures ShapeMatches(n, n.indices[j], kept[j]) && n.indices[j].name == NameFor(target, kept[j])
      ensures forall p :: 0 <= p < |n.indices[j].columns| ==> n.indices[j].columns[p].column.table == i
    {
      assert MadeFrom(columns, i, j, target, kept[j], n.indices[j]);
    }
  }

  lemma {:induction false} TablesAt(observed: seq<ObservedTable>, target: Schema, typer: Typer, i: nat)
    requires Tables(observed, target, typer).Ok? && i < |observed|
    ensures NormalTable(i, observed[i], FindTable(target.tables, observed[i].name), typer)
            == Ok(Tables(observed, target, typer).value[i])
    decreases |observed|
  {
    hide NormalTable;
    if i < |observed| - 1 { TablesAt(Init(observed), target, typer, i); }
  }

  /** Every normalized table mirrors its observed table. */
  lemma {:induction false} NormalizeIsWellFormed(observed: ObservedSchema, target: Schema, typer: Typer)
    requires Normalize(observed, target, typer).Ok?
    ensures var n := Normalize(observed, target, typer).value;
            && |n.tables| == |observed.tables|
            && forall i :: 0 <= i < |n.tables| ==>
                 Mirrors(n.tables[i], i, observed.tables[i],
                         FindTable(target.tables, observed.tables[i].name))
  {
    hide NormalTable, Mirrors;
    var n := Normalize(observed, target, typer).value;
    forall i | 0 <= i < |n.tables|
      ensures Mirrors(n.tables[i], i, observed.tables[i], FindTable(target.tables, observed.tables[i].name))
    {
      TablesAt(observed.tables, target, typer, i);
      NormalTableMirrors(i, observed.tables[i], FindTable(target.tables, observed.tables[i].name), typer);
    }
  }

  // ---------------------------------------------------------------- distinct index names

  ghost predicate DistinctObserved(s: seq<ObservedIndex>) {
    && (forall a, b :: 0 <= a < b < |s| ==> s[a].name != s[b].name)
    && forall a, b :: 0 <= a < b < |s| && s[a].filter.None? && s[b].filter.None? ==>
         !SameObservedShape(s[a], s[b])
  }

  lemma {:induction false} KeptDistinct(target: Option<Table>, all: seq<ObservedIndex>, seen: seq<ObservedIndex>)
    requires DistinctObserved(seen)
    ensures DistinctObserved(Kept(target, all, seen))
    ensures forall o :: o in Kept(target, all, seen) ==> o.filter.None?
  {
    if seen != [] {
      var init := Init(seen);
      assert forall k :: 0 <= k < |init| ==> init[k] == seen[k];
      KeptDistinct(target, all, init);
      var kept := Kept(target, all, init);
      if !Skipped(target, all, Last(seen)) {
        forall a | 0 <= a < |kept|
          ensures kept[a].name != Last(seen).name && !SameObservedShape(kept[a], Last(seen))
        {
          assert kept[a] in init;
          var k :| 0 <= k < |init| && init[k] == kept[a];
        }
      }
    }
  }

  lemma {:induction false} SameTargetSameShape(table: Table, index: Index, a: ObservedIndex, b: ObservedIndex)
    requires ShapeMatches(table, index, a) && ShapeMatches(table, index, b)
    ensures SameObservedShape(a, b)
  {
    forall p | 0 <= p < |a.columns| ensures a.columns[p] == b.columns[p] {
      assert ColumnName(table, index.columns[p].column) == Some(a.columns[p]);
    }
  }

  /** Two kept indices get different names. */
  lemma {:induction false} NamesDiffer(target: Option<Table>, all: seq<ObservedIndex>, a: ObservedIndex,
                                       b: ObservedIndex)
    requires a in all && b in all && !Skipped(target, all, a) && !Skipped(target, all, b)
    requires a.name != b.name && !SameObservedShape(a, b)
    requires target.Some? ==> forall x, y :: 0 <= x < y < |target.value.indices| ==>
               target.value.indices[x].name != target.value.indices[y].name
    ensures NameFor(target, a) != NameFor(target, b)
  {
    var ia, ib := TargetIndex(target, a), TargetIndex(target, b);
    if ia.Some? && ib.Some? {
      if ia.value == ib.value {
        SameTargetSameShape(target.value, ia.value, a, b);
      }
      var x :| 0 <= x < |target.value.indices| && target.value.indices[x] == ia.value;
      var y :| 0 <= y < |target.value.indices| && target.value.indices[y] == ib.value;
      assert x != y;
    }
  }

  /** Despite renaming, and thanks to dropping shadowed indices, index names stay distinct. */
  lemma {:induction false} NormalTableIndexNamesDistinct(i: nat, o: ObservedTable, target: Option<Table>, typer: Typer)
    requires NormalTable(i, o, target, typer).Ok? && DistinctObserved(o.indices)
    requires target.Some? ==> forall x, y :: 0 <= x < y < |target.value.indices| ==>
               target.value.indices[x].name != target.value.indices[y].name
    ensures var n := NormalTable(i, o, target, typer).value;
            forall a, b :: 0 <= a < b < |n.indices| ==> n.indices[a].name != n.indices[b].name
  {
    hide Columns, Indices, Skipped, TargetIndex;
    var columns := Columns(i, o.columns, target, typer).value;
    IndicesMade(columns, i, o.indices, target, o.indices);
    KeptDistinct(target, o.indices, o.indices);
    var n := NormalTable(i, o, target, typer).value;
    var kept := Kept(target, o.indices, o.indices);
    forall a, b | 0 <= a < b < |n.indices| ensures n.indices[a].name != n.indices[b].name {
      assert MadeFrom(columns, i, a, target, kept[a], n.indices[a]);
      assert MadeFrom(columns, i, b, target, kept[b], n.indices[b]);
      assert kept[a] in kept && kept[b] in kept;
      NamesDiffer(target, o.indices, kept[a], kept[b]);
    }
  }

  // ---------------------------------------------------------------- idempotence

  /** The live table after a sync to `n`: the observed columns, native types kept, and the indices
      of `n` under their names. */
  ghost predicate RendersBack(o': ObservedTable, o: ObservedTable, n: Table) {
    && o'.name == o.name && o'.columns == o.columns
    && |o'.indices| == |n.indices|
    && forall j :: 0 <= j < |n.indices| ==>
         && o'.indices[j].name == n.indices[j].name
         && o'.indices[j].filter == None
         && ShapeMatches(n, n.indices[j], o'.indices[j])
  }

  /** The index loop without the indices that are skipped. */
  ghost function FoldKept(columns: seq<Column>, table: nat, target: Option<Table>, kept: seq<ObservedIndex>)
    : Result<Parts, Error>
  {
    if kept == [] then Ok(Parts(columns, []))
    else
      var parts :- FoldKept(columns, table, target, Init(kept));
      AddKept(parts, table, target, Last(kept))
  }

  ghost function AddKept(parts: Parts, table: nat, target: Option<Table>, o: ObservedIndex): Result<Parts, Error> {
    var index := TargetIndex(target, o);
    var columns :- IndexColumns(parts.columns, o.columns, index);
    Ok(Parts(if o.primaryKey then MarkAll(parts.columns, o.columns, target) else parts.columns,
             parts.indices + [NormalIndex(table, |parts.indices|, o, index, columns)]))
  }

  lemma {:induction false} IndicesFoldKept(columns: seq<Column>, table: nat, all: seq<ObservedIndex>,
                                           target: Option<Table>, seen: seq<ObservedIndex>)
    ensures Indices(columns, table, all, target, seen) == FoldKept(columns, table, target, Kept(target, all, seen))
    decreases |seen|
  {
    hide Skipped, TargetIndex, IndexColumns, MarkAll;
    if seen != [] {
      IndicesFoldKept(columns, table, all, target, Init(seen));
      var kept := Kept(target, all, Init(seen));
      if Skipped(target, all, Last(seen)) {
        assert Kept(target, all, seen) == kept;
      } else {
        assert Init(kept + [Last(seen)]) == kept;
      }
    }
  }

  lemma {:induction false} AllKept(target: Option<Table>, all: seq<ObservedIndex>, seen: seq<ObservedIndex>)
    requires forall o :: o in seen ==> !Skipped(target, all, o)
    ensures Kept(target, all, seen) == seen
    decreases |seen|
  {
    hide Skipped, Init, Last;
    if seen != [] {
      InitLast(seen);
      assert forall o :: o in Init(seen) ==> o in seen;
      AllKept(target, all, Init(seen));
    }
  }

  lemma {:induction false} FoldKeptSame(columns: seq<Column>, table: nat, target: Option<Table>,
                                        a: seq<ObservedIndex>, b: seq<ObservedIndex>)
    requires |a| == |b|
    requires forall j :: 0 <= j < |a| ==>
               && SameObservedShape(a[j], b[j])
               && (TargetIndex(target, a[j]).None? ==> a[j].name == b[j].name)
    ensures FoldKept(columns, table, target, a) == FoldKept(columns, table, target, b)
    decreases |a|
  {
    hide TargetIndex, IndexColumns, MarkAll;
    if a != [] {
      FoldKeptSame(columns, table, target, Init(a), Init(b));
      TargetIndexSame(target, Last(a), Last(b));
    }
  }

  /** A rendered index has the shape of the observed index it was made from, and its name unless the
      target named it; and it is not shadowed among the rendered indices. */
  lemma {:induction false} RenderedBackKept(i: nat, o': ObservedTable, o: ObservedTable, target: Option<Table>,
                                            typer: Typer, j: nat)
    requires NormalTable(i, o, target, typer).Ok?
    requires RendersBack(o', o, NormalTable(i, o, target, typer).value)
    requires j < |o'.indices|
    ensures var kept := Kept(target, o.indices, o.indices);
            && j < |kept| && SameObservedShape(o'.indices[j], kept[j])
            && (TargetIndex(target, kept[j]).None? ==> o'.indices[j].name == kept[j].name)
  {
    hide Columns, Indices, Kept, TargetIndex, FirstPrimary, KeyColumns, Position;
    var n := NormalTable(i, o, target, typer).value;
    var kept := Kept(target, o.indices, o.indices);
    NormalTableMirrors(i, o, target, typer);
    IndicesMade(Columns(i, o.columns, target, typer).value, i, o.indices, target, o.indices);
    assert MadeFrom(Columns(i, o.columns, target, typer).value, i, j, target, kept[j], n.indices[j]);
    SameTargetSameShape(n, n.indices[j], o'.indices[j], kept[j]);
  }

  lemma {:induction false} RenderedBackNotSkipped(i: nat, o': ObservedTable, o: ObservedTable, target: Option<Table>,
                                                  typer: Typer, j: nat)
    requires NormalTable(i, o, target, typer).Ok?
    requires RendersBack(o', o, NormalTable(i, o, target, typer).value)
    requires j < |o'.indices|
    ensures !Skipped(target, o'.indices, o'.indices[j])
  {
    hide Columns, Indices, TargetIndex, NormalTable, ShapeMatches;
    var kept := Kept(target, o.indices, o.indices);
    var x := o'.indices[j];
    RenderedBackKept(i, o', o, target, typer, j);
    TargetIndexSame(target, x, kept[j]);
    assert kept[j] in kept;
    if TargetIndex(target, x).None? && Shadowed(target, o'.indices, x) {
      var candidate, other :| candidate in target.value.indices && candidate.name == x.name
        && other in o'.indices && ShapeMatches(target.value, candidate, other);
      var k :| 0 <= k < |o'.indices| && o'.indices[k] == other;
      RenderedBackKept(i, o', o, target, typer, k);
      ShapeMatchesSame(target.value, candidate, other, kept[k]);
    }
  }

  lemma {:induction false} ShapeMatchesSame(table: Table, index: Index, a: ObservedIndex, b: ObservedIndex)
    requires SameObservedShape(a, b) && ShapeMatches(table, index, a)
    ensures ShapeMatches(table, index, b)
  {
  }

  lemma {:induction false} NormalTableIdempotent(i: nat, o': ObservedTable, o: ObservedTable, target: Option<Table>,
                                                 typer: Typer)
    requires NormalTable(i, o, target, typer).Ok?
    requires RendersBack(o', o, NormalTable(i, o, target, typer).value)
    ensures NormalTable(i, o', target, typer) == NormalTable(i, o, target, typer)
  {
    hide Columns, Indices, TargetIndex, FirstPrimary, KeyColumns, Skipped, Kept, FoldKept, ShapeMatches;
    var columns := Columns(i, o.columns, target, typer).value;
    var kept := Kept(target, o.indices, o.indices);
    NormalTableMirrors(i, o, target, typer);
    forall x | x in o'.indices ensures !Skipped(target, o'.indices, x) {
      var j :| 0 <= j < |o'.indices| && o'.indices[j] == x;
      RenderedBackNotSkipped(i, o', o, target, typer, j);
    }
    AllKept(target, o'.indices, o'.indices);
    IndicesFoldKept(columns, i, o.indices, target, o.indices);
    IndicesFoldKept(columns, i, o'.indices, target, o'.indices);
    forall j | 0 <= j < |kept|
      ensures SameObservedShape(kept[j], o'.indices[j])
      ensures TargetIndex(target, kept[j]).None? ==> kept[j].name == o'.indices[j].name
    {
      RenderedBackKept(i, o', o, target, typer, j);
    }
    FoldKeptSame(columns, i, target, kept, o'.indices);
  }

  lemma {:induction false} TablesIdempotent(a: seq<ObservedTable>, b: seq<ObservedTable>, target: Schema, typer: Typer)
    requires Tables(a, target, typer).Ok? && |a| == |b|
    requires forall i :: 0 <= i < |a| ==> RendersBack(b[i], a[i], Tables(a, target, typer).value[i])
    ensures Tables(b, target, typer) == Tables(a, target, typer)
    decreases |a|
  {
    hide NormalTable;
    if a != [] {
      var n := Tables(a, target, typer).value;
      assert forall i :: 0 <= i < |a| - 1 ==> Tables(Init(a), target, typer).value[i] == n[i];
      forall i | 0 <= i < |a| - 1
        ensures RendersBack(Init(b)[i], Init(a)[i], Tables(Init(a), target, typer).value[i])
      {
        assert RendersBack(b[i], a[i], n[i]);
      }
      TablesIdempotent(Init(a), Init(b), target, typer);
      var last := |a| - 1;
      assert RendersBack(b[last], a[last], n[last]);
      NormalTableIdempotent(last, b[last], a[last], FindTable(target.tables, a[last].name), typer);
    }
  }

  /** Normalizing the catalog that renders a normalized schema, native types kept, changes nothing. */
  lemma {:induction false} NormalizeIdempotent(observed: ObservedSchema, again: ObservedSchema, target: Schema,
                                               typer: Typer)
    requires Normalize(observed, target, typer).Ok?
    requires again.diagnostics == [] && |again.tables| == |observed.tables|
    requires forall i :: 0 <= i < |observed.tables| ==>
               RendersBack(again.tables[i], observed.tables[i], Normalize(observed, target, typer).value.tables[i])
    ensures Normalize(again, target, typer) == Normalize(observed, target, typer)
  {
    TablesIdempotent(observed.tables, again.tables, target, typer);
  }
}
