/** What normalizing keeps: a live schema that is the target normalizes to the target, normalizing
    is stable, backend-chosen index names do not matter, and the result is a well-formed schema. */
module SchemaNormalizerLaws {
  import opened Wrappers
  import opened Sequences
  import opened SchemaNormalizer

  // ---------------------------------------------------------------- look-ups

  lemma {:induction false} FindTableAt(tables: seq<Table>, i: nat)
    requires i < |tables| && forall a, b :: 0 <= a < b < |tables| ==> tables[a].name != tables[b].name
    ensures FindTable(tables, tables[i].name) == Some(tables[i])
  {
    if i > 0 { FindTableAt(tables[1..], i - 1); }
  }

  lemma {:induction false} FindColumnAt(columns: seq<Column>, k: nat)
    requires k < |columns| && forall a, b :: 0 <= a < b < |columns| ==> columns[a].name != columns[b].name
    ensures FindColumn(columns, columns[k].name) == Some(columns[k])
  {
    if k > 0 { FindColumnAt(columns[1..], k - 1); }
  }

  /** The position of the first index with the observed shape. */
  lemma {:induction false} FindShapeFirst(table: Table, indices: seq<Index>, observed: ObservedIndex)
    returns (f: nat)
    requires exists index :: index in indices && ShapeMatches(table, index, observed)
    ensures f < |indices| && FindShape(table, indices, observed) == Some(indices[f])
    ensures ShapeMatches(table, indices[f], observed)
    ensures forall g :: 0 <= g < f ==> !ShapeMatches(table, indices[g], observed)
  {
    if ShapeMatches(table, indices[0], observed) {
      f := 0;
    } else {
      assert exists index :: index in indices[1..] && ShapeMatches(table, index, observed) by {
        var index :| index in indices && ShapeMatches(table, index, observed);
        assert index in indices[1..];
      }
      f := FindShapeFirst(table, indices[1..], observed);
      f := f + 1;
    }
  }

  /** One of the names stands for column `k`. */
  predicate Names(columns: seq<Column>, names: seq<string>, k: nat) {
    exists q :: 0 <= q < |names| && Position(columns, names[q]) == Some(k)
  }

  lemma {:induction false} NamesLast(columns: seq<Column>, names: seq<string>, k: nat)
    requires names != []
    ensures Names(columns, names, k)
            == (Names(columns, Init(names), k) || Position(columns, Last(names)) == Some(k))
  {
    hide Position;
    if Names(columns, names, k) {
      var q :| 0 <= q < |names| && Position(columns, names[q]) == Some(k);
      assert q < |names| - 1 ==> Init(names)[q] == names[q];
    } else {
      assert names[|names| - 1] == Last(names);
    }
  }

  /** The key flag of a column after an index is marked: the target's flag if the index names it. */
  lemma {:induction false} MarkAllFlag(columns: seq<Column>, names: seq<string>, target: Option<Table>, k: nat)
    requires k < |columns|
    ensures MarkAll(columns, names, target)[k].primaryKey
            == if Names(columns, names, k) then KeyFlag(target, columns[k].name) else columns[k].primaryKey
  {
    hide Position, Names;
    if names == [] {
      assert !Names(columns, names, k) by { NoNames(columns, k); }
    } else {
      var before := MarkAll(columns, Init(names), target);
      MarkAllFlag(columns, Init(names), target, k);
      PositionMarked(before, columns, Last(names));
      NamesLast(columns, names, k);
    }
  }

  lemma {:induction false} NoNames(columns: seq<Column>, k: nat)
    ensures !Names(columns, [], k)
  {
  }

  // ---------------------------------------------------------------- fixpoint

  ghost predicate WellFormedTable(table: Table, i: nat) {
    && table.id == i
    && (forall k :: 0 <= k < |table.columns| ==> table.columns[k].id == ColumnId(i, k))
    && (forall a, b :: 0 <= a < b < |table.columns| ==> table.columns[a].name != table.columns[b].name)
    && (forall j :: 0 <= j < |table.indices| ==> WellFormedIndex(table, i, j))
    && (var key := FirstPrimary(table.indices);
        key.Some? && table.primaryKey == PrimaryKey(KeyColumns(key.value.columns), key.value.id))
    && (forall k :: 0 <= k < |table.columns| && table.columns[k].primaryKey ==>
          Keyed(table, k, |table.indices|))
  }

  ghost predicate WellFormedIndex(table: Table, i: nat, j: nat)
    requires j < |table.indices|
  {
    var index := table.indices[j];
    && index.id == IndexId(i, j) && index.on == i
    && forall p :: 0 <= p < |index.columns| ==>
         index.columns[p].column.table == i && index.columns[p].column.index < |table.columns|
  }

  /** One of the first `j` indices is primary and holds column `k`. */
  ghost predicate Keyed(table: Table, k: nat, j: nat)
    requires j <= |table.indices|
  {
    exists a :: 0 <= a < j && KeyedBy(table.indices[a], k)
  }

  ghost predicate KeyedBy(index: Index, k: nat) {
    index.primaryKey && exists p :: 0 <= p < |index.columns| && index.columns[p].column.index == k
  }

  ghost predicate WellFormed(schema: Schema) {
    && (forall i :: 0 <= i < |schema.tables| ==> WellFormedTable(schema.tables[i], i))
    && forall a, b :: 0 <= a < b < |schema.tables| ==> schema.tables[a].name != schema.tables[b].name
  }

  /** The live table is the table `t`: names, order and flags agree, no index is partial, and the
      backend types every column back to the target's types. Comments, defaults, ordinals and
      native type spellings are free, and so is the name of a primary index, which databases choose. */
  ghost predicate RendersTable(o: ObservedTable, t: Table, typer: Typer) {
    && o.name == t.name
    && |o.columns| == |t.columns|
    && (forall k :: 0 <= k < |t.columns| ==>
          && o.columns[k].name == t.columns[k].name
          && o.columns[k].nullable == t.columns[k].nullable
          && o.columns[k].autoIncrement == t.columns[k].autoIncrement
          && typer(o.columns[k], Some(t.columns[k])) == Ok((t.columns[k].ty, t.columns[k].storage)))
    && SameShapes(t, o)
    && forall j :: 0 <= j < |t.indices| ==>
         && (t.indices[j].primaryKey || o.indices[j].name == t.indices[j].name)
         && o.indices[j].filter == None
  }

  ghost predicate Renders(o: ObservedSchema, s: Schema, typer: Typer) {
    && o.diagnostics == []
    && |o.tables| == |s.tables|
    && forall i :: 0 <= i < |s.tables| ==> RendersTable(o.tables[i], s.tables[i], typer)
  }

  /** The columns of `index` with the operators and scopes of `first`. */
  ghost function CanonicalColumns(columns: seq<IndexColumn>, first: seq<IndexColumn>): (r: seq<IndexColumn>)
    requires |first| == |columns|
    ensures |r| == |columns|
    ensures forall p :: 0 <= p < |r| ==>
              r[p] == IndexColumn(columns[p].column, first[p].op, first[p].scope)
  {
    if columns == [] then []
    else [IndexColumn(columns[0].column, first[0].op, first[0].scope)]
         + CanonicalColumns(columns[1..], first[1..])
  }

  /** Index `j` with the name, operators and scopes of the first index of its shape. */
  ghost function CanonicalIndex(t: Table, o: ObservedTable, j: nat): Index
    requires j < |t.indices| == |o.indices| && ShapeMatches(t, t.indices[j], o.indices[j])
  {
    var index := t.indices[j];
    match FindShape(t, t.indices, o.indices[j])
    case None => index
    case Some(first) =>
      index.(name := first.name, columns := CanonicalColumns(index.columns, first.columns))
  }

  ghost predicate SameShapes(t: Table, o: ObservedTable) {
    && |t.indices| == |o.indices|
    && forall j :: 0 <= j < |t.indices| ==> ShapeMatches(t, t.indices[j], o.indices[j])
  }

  ghost function CanonicalIndices(t: Table, o: ObservedTable, j: nat): (r: seq<Index>)
    requires SameShapes(t, o) && j <= |t.indices|
    ensures |r| == j && forall a :: 0 <= a < j ==> r[a] == CanonicalIndex(t, o, a)
  {
    if j == 0 then [] else CanonicalIndices(t, o, j - 1) + [CanonicalIndex(t, o, j - 1)]
  }

  ghost function CanonicalTable(t: Table, o: ObservedTable): Table
    requires SameShapes(t, o)
  {
    t.(indices := CanonicalIndices(t, o, |t.indices|))
  }

  /** The first `n` columns, flagged as the first `j` indices flag them. */
  ghost function FlaggedPrefix(t: Table, j: nat, n: nat): (r: seq<Column>)
    requires j <= |t.indices| && n <= |t.columns|
    ensures |r| == n
    ensures forall k :: 0 <= k < n ==>
              r[k] == t.columns[k].(primaryKey := t.columns[k].primaryKey && Keyed(t, k, j))
  {
    if n == 0 then []
    else FlaggedPrefix(t, j, n - 1)
         + [t.columns[n - 1].(primaryKey := t.columns[n - 1].primaryKey && Keyed(t, n - 1, j))]
  }

  ghost function Flagged(t: Table, j: nat): seq<Column>
    requires j <= |t.indices|
  {
    FlaggedPrefix(t, j, |t.columns|)
  }

  lemma {:induction false} RenderedColumns(i: nat, o: ObservedTable, t: Table, typer: Typer, k: nat)
    requires WellFormedTable(t, i) && RendersTable(o, t, typer) && k <= |t.columns|
    ensures Columns(i, o.columns[..k], Some(t), typer) == Ok(FlaggedPrefix(t, 0, k))
  {
    if k > 0 {
      RenderedColumns(i, o, t, typer, k - 1);
      assert Init(o.columns[..k]) == o.columns[..k - 1];
      FindColumnAt(t.columns, k - 1);
      assert !Keyed(t, k - 1, 0);
    }
  }

  lemma {:induction false} PositionAt(columns: seq<Column>, k: nat)
    requires k < |columns| && forall a, b :: 0 <= a < b < |columns| ==> columns[a].name != columns[b].name
    ensures Position(columns, columns[k].name) == Some(k)
  {
  }

  /** The shape that index `j` has in common with the first target index of that shape. */
  lemma {:induction false} FirstOfShape(i: nat, o: ObservedTable, t: Table, typer: Typer, j: nat)
    requires WellFormedTable(t, i) && RendersTable(o, t, typer) && j < |t.indices|
    ensures var found := FindShape(t, t.indices, o.indices[j]);
            found.Some? && |found.value.columns| == |t.indices[j].columns| == |o.indices[j].columns|
    ensures |CanonicalIndex(t, o, j).columns| == |t.indices[j].columns|
  {
    hide FindShape, WellFormedTable;
    assert t.indices[j] in t.indices;
    assert ShapeMatches(t, t.indices[j], o.indices[j]);
  }

  /** Where the `p`-th column of index `j` is found, and what the normalizer makes of it. */
  lemma {:induction false} RenderedIndexColumn(i: nat, o: ObservedTable, t: Table, typer: Typer, j: nat, p: nat)
    requires WellFormedTable(t, i) && RendersTable(o, t, typer) && j < |t.indices|
    requires p < |t.indices[j].columns| == |o.indices[j].columns|
    requires var found := FindShape(t, t.indices, o.indices[j]);
             found.Some? && |found.value.columns| == |t.indices[j].columns|
    ensures var id := t.indices[j].columns[p].column;
            var first := FindShape(t, t.indices, o.indices[j]).value;
            && Position(Flagged(t, j), o.indices[j].columns[p]) == Some(id.index)
            && Flagged(t, j)[id.index].id == id
            && CanonicalIndex(t, o, j).columns[p] == IndexColumn(id, first.columns[p].op, first.columns[p].scope)
  {
    hide FindShape, Position, Keyed;
    assert WellFormedIndex(t, i, j) && ShapeMatches(t, t.indices[j], o.indices[j]);
    var id := t.indices[j].columns[p].column;
    assert ColumnName(t, id) == Some(o.indices[j].columns[p]);
    PositionAt(Flagged(t, j), id.index);
  }

  lemma {:induction false} RenderedIndexColumns(i: nat, o: ObservedTable, t: Table, typer: Typer, j: nat, p: nat)
    requires WellFormedTable(t, i) && RendersTable(o, t, typer) && j < |t.indices|
    requires p <= |t.indices[j].columns|
    ensures IndexColumns(Flagged(t, j), o.indices[j].columns[..p], FindShape(t, t.indices, o.indices[j]))
            == Ok(CanonicalIndex(t, o, j).columns[..p])
  {
    hide FindShape, WellFormedTable, Flagged, CanonicalIndex, Position, IndexColumns, MarkAll;
    FirstOfShape(i, o, t, typer, j);
    var found := FindShape(t, t.indices, o.indices[j]);
    if p > 0 {
      RenderedIndexColumns(i, o, t, typer, j, p - 1);
      RenderedIndexColumn(i, o, t, typer, j, p - 1);
      OneIndexColumn(Flagged(t, j), o.indices[j].columns, found, None, p - 1);
      var canonical := CanonicalIndex(t, o, j).columns;
      assert canonical[..p] == canonical[..p - 1] + [canonical[p - 1]];
    } else {
      NoIndexColumns(Flagged(t, j), o.indices[j].columns, found, None);
    }
  }

  /** An index names a column exactly when one of its columns is that column. */
  lemma {:induction false} RenderedNames(i: nat, o: ObservedTable, t: Table, typer: Typer, j: nat, k: nat)
    requires WellFormedTable(t, i) && RendersTable(o, t, typer) && j < |t.indices| && k < |t.columns|
    ensures Names(Flagged(t, j), o.indices[j].columns, k)
            <==> exists p :: 0 <= p < |t.indices[j].columns| && t.indices[j].columns[p].column.index == k
  {
    hide Position;
    var index, names, columns := t.indices[j], o.indices[j].columns, Flagged(t, j);
    assert WellFormedIndex(t, i, j) && ShapeMatches(t, index, o.indices[j]);
    forall p | 0 <= p < |names|
      ensures Position(columns, names[p]) == Some(index.columns[p].column.index)
    {
      assert ColumnName(t, index.columns[p].column) == Some(names[p]);
      PositionAt(columns, index.columns[p].column.index);
    }
  }

  lemma {:induction false} KeyedOneMore(t: Table, k: nat, j: nat)
    requires j < |t.indices|
    ensures Keyed(t, k, j + 1) == (Keyed(t, k, j) || KeyedBy(t.indices[j], k))
  {
  }

  /** What index `j` does to the flag of column `k`. */
  lemma {:induction false} RenderedMark(i: nat, o: ObservedTable, t: Table, typer: Typer, j: nat, k: nat)
    requires WellFormedTable(t, i) && RendersTable(o, t, typer) && j < |t.indices| && k < |t.columns|
    ensures Flagged(t, j + 1)[k]
            == if o.indices[j].primaryKey then MarkAll(Flagged(t, j), o.indices[j].columns, Some(t))[k]
               else Flagged(t, j)[k]
  {
    hide Names, MarkAll, Keyed;
    assert ShapeMatches(t, t.indices[j], o.indices[j]);
    MarkAllFlag(Flagged(t, j), o.indices[j].columns, Some(t), k);
    FindColumnAt(t.columns, k);
    RenderedNames(i, o, t, typer, j, k);
    KeyedOneMore(t, k, j);
  }

  lemma {:induction false} RenderedMarks(i: nat, o: ObservedTable, t: Table, typer: Typer, j: nat)
    requires WellFormedTable(t, i) && RendersTable(o, t, typer) && j < |t.indices|
    ensures Flagged(t, j + 1)
            == if o.indices[j].primaryKey then MarkAll(Flagged(t, j), o.indices[j].columns, Some(t))
               else Flagged(t, j)
  {
    hide MarkAll, Keyed, WellFormedTable, ShapeMatches;
    forall k | 0 <= k < |t.columns|
      ensures Flagged(t, j + 1)[k]
              == if o.indices[j].primaryKey then MarkAll(Flagged(t, j), o.indices[j].columns, Some(t))[k]
                 else Flagged(t, j)[k]
    {
      RenderedMark(i, o, t, typer, j, k);
    }
  }

  /** An index of the target's shape is added under the target's name. */
  lemma {:induction false} AddFound(parts: Parts, i: nat, all: seq<ObservedIndex>, t: Table, o: ObservedIndex,
                                    columns: seq<IndexColumn>)
    requires o.filter == None && FindShape(t, t.indices, o).Some?
    requires IndexColumns(parts.columns, o.columns, FindShape(t, t.indices, o)) == Ok(columns)
    ensures AddIndex(parts, i, all, Some(t), o)
         == Ok(Parts(if o.primaryKey then MarkAll(parts.columns, o.columns, Some(t)) else parts.columns,
                     parts.indices + [NormalIndex(i, |parts.indices|, o, FindShape(t, t.indices, o), columns)]))
  {
    hide FindShape, IndexColumns, MarkAll, Shadowed;
  }

  lemma {:induction false} NormalIsCanonical(i: nat, o: ObservedTable, t: Table, typer: Typer, j: nat)
    requires WellFormedTable(t, i) && RendersTable(o, t, typer) && j < |t.indices|
    requires FindShape(t, t.indices, o.indices[j]).Some?
    ensures NormalIndex(i, j, o.indices[j], FindShape(t, t.indices, o.indices[j]), CanonicalIndex(t, o, j).columns)
         == CanonicalIndex(t, o, j)
  {
    hide FindShape;
    assert WellFormedIndex(t, i, j) && ShapeMatches(t, t.indices[j], o.indices[j]);
  }

  lemma {:induction false} RenderedIndex(i: nat, o: ObservedTable, t: Table, typer: Typer, j: nat)
    requires WellFormedTable(t, i) && RendersTable(o, t, typer) && j < |t.indices|
    ensures AddIndex(Parts(Flagged(t, j), CanonicalIndices(t, o, j)), i, o.indices, Some(t), o.indices[j])
            == Ok(Parts(Flagged(t, j + 1), CanonicalIndices(t, o, j + 1)))
  {
    hide MarkAll, IndexColumns, AddIndex, NormalIndex, Flagged, CanonicalIndex, FindShape, WellFormedTable;
    FirstOfShape(i, o, t, typer, j);
    RenderedIndexColumns(i, o, t, typer, j, |t.indices[j].columns|);
    var columns := CanonicalIndex(t, o, j).columns;
    assert o.indices[j].columns[..|o.indices[j].columns|] == o.indices[j].columns;
    assert columns[..|columns|] == columns;
    RenderedMarks(i, o, t, typer, j);
    NormalIsCanonical(i, o, t, typer, j);
    AddFound(Parts(Flagged(t, j), CanonicalIndices(t, o, j)), i, o.indices, t, o.indices[j], columns);
  }

  lemma {:induction false} NoIndices(columns: seq<Column>, i: nat, all: seq<ObservedIndex>, target: Option<Table>)
    ensures Indices(columns, i, all, target, all[..0]) == Ok(Parts(columns, []))
  {
  }

  lemma {:induction false} OneIndexMore(columns: seq<Column>, i: nat, all: seq<ObservedIndex>, target: Option<Table>,
                                        j: nat)
    requires j < |all| && Indices(columns, i, all, target, all[..j]).Ok?
    ensures Indices(columns, i, all, target, all[..j + 1])
         == AddIndex(Indices(columns, i, all, target, all[..j]).value, i, all, target, all[j])
  {
    hide AddIndex;
    assert Init(all[..j + 1]) == all[..j] && Last(all[..j + 1]) == all[j];
  }

  lemma {:induction false} RenderedIndices(i: nat, o: ObservedTable, t: Table, typer: Typer, j: nat)
    requires WellFormedTable(t, i) && RendersTable(o, t, typer) && j <= |t.indices|
    ensures Indices(Flagged(t, 0), i, o.indices, Some(t), o.indices[..j])
            == Ok(Parts(Flagged(t, j), CanonicalIndices(t, o, j)))
  {
    hide AddIndex, Flagged, WellFormedTable, Indices;
    if j > 0 {
      RenderedIndices(i, o, t, typer, j - 1);
      RenderedIndex(i, o, t, typer, j - 1);
      OneIndexMore(Flagged(t, 0), i, o.indices, Some(t), j - 1);
    } else {
      NoIndices(Flagged(t, 0), i, o.indices, Some(t));
    }
  }

  lemma {:induction false} FirstPrimaryCanonical(a: seq<Index>, b: seq<Index>)
    requires |a| == |b|
    requires forall j :: 0 <= j < |a| ==>
               a[j].primaryKey == b[j].primaryKey && a[j].id == b[j].id
               && KeyColumns(a[j].columns) == KeyColumns(b[j].columns)
    ensures FirstPrimary(a).Some? == FirstPrimary(b).Some?
    ensures FirstPrimary(a).Some? ==>
              FirstPrimary(a).value.id == FirstPrimary(b).value.id
              && KeyColumns(FirstPrimary(a).value.columns) == KeyColumns(FirstPrimary(b).value.columns)
  {
    if a != [] && !a[0].primaryKey { FirstPrimaryCanonical(a[1..], b[1..]); }
  }

  lemma {:induction false} CanonicalKeys(t: Table, o: ObservedTable, j: nat)
    requires SameShapes(t, o) && j < |t.indices|
    ensures var canonical := CanonicalIndex(t, o, j);
            && canonical.primaryKey == t.indices[j].primaryKey && canonical.id == t.indices[j].id
            && KeyColumns(canonical.columns) == KeyColumns(t.indices[j].columns)
  {
  }

  lemma {:induction false} FlaggedByAll(t: Table, i: nat)
    requires WellFormedTable(t, i)
    ensures Flagged(t, |t.indices|) == t.columns
  {
  }

  lemma {:induction false} RenderedTable(i: nat, o: ObservedTable, t: Table, typer: Typer)
    requires WellFormedTable(t, i) && RendersTable(o, t, typer)
    ensures NormalTable(i, o, Some(t), typer) == Ok(CanonicalTable(t, o))
  {
    hide FindShape, Columns, Indices, FlaggedPrefix, CanonicalIndex, Keyed, WellFormedIndex, FirstPrimary, KeyColumns;
    RenderedColumns(i, o, t, typer, |t.columns|);
    assert o.columns[..|t.columns|] == o.columns && o.indices[..|t.indices|] == o.indices;
    RenderedIndices(i, o, t, typer, |t.indices|);
    FlaggedByAll(t, i);
    forall j | 0 <= j < |t.indices|
      ensures var canonical := CanonicalIndex(t, o, j);
              && canonical.primaryKey == t.indices[j].primaryKey && canonical.id == t.indices[j].id
              && KeyColumns(canonical.columns) == KeyColumns(t.indices[j].columns)
    {
      CanonicalKeys(t, o, j);
    }
    FirstPrimaryCanonical(CanonicalIndices(t, o, |t.indices|), t.indices);
  }

  ghost function CanonicalTables(s: Schema, o: ObservedSchema, n: nat): (r: seq<Table>)
    requires n <= |s.tables| == |o.tables|
    requires forall i :: 0 <= i < n ==> SameShapes(s.tables[i], o.tables[i])
    ensures |r| == n && forall i :: 0 <= i < n ==> r[i] == CanonicalTable(s.tables[i], o.tables[i])
  {
    if n == 0 then []
    else CanonicalTables(s, o, n - 1) + [CanonicalTable(s.tables[n - 1], o.tables[n - 1])]
  }

  ghost function Canonical(s: Schema, o: ObservedSchema): Schema
    requires |s.tables| == |o.tables|
    requires forall i :: 0 <= i < |s.tables| ==> SameShapes(s.tables[i], o.tables[i])
  {
    Schema(CanonicalTables(s, o, |s.tables|))
  }

  lemma {:induction false} RenderedTables(o: ObservedSchema, s: Schema, typer: Typer, i: nat)
    requires WellFormed(s) && Renders(o, s, typer) && i <= |s.tables|
    ensures Tables(o.tables[..i], s, typer) == Ok(CanonicalTables(s, o, i))
  {
    hide NormalTable, CanonicalTable, WellFormedTable;
    if i > 0 {
      RenderedTables(o, s, typer, i - 1);
      assert Init(o.tables[..i]) == o.tables[..i - 1] && Last(o.tables[..i]) == o.tables[i - 1];
      assert RendersTable(o.tables[i - 1], s.tables[i - 1], typer);
      FindTableAt(s.tables, i - 1);
      RenderedTable(i - 1, o.tables[i - 1], s.tables[i - 1], typer);
    }
  }

  /** A live database that is the target normalizes to the target with each index named after the
      first index of its shape. */
  lemma {:induction false} NormalizeRendered(o: ObservedSchema, s: Schema, typer: Typer)
    requires WellFormed(s) && Renders(o, s, typer)
    ensures Normalize(o, s, typer) == Ok(Canonical(s, o))
  {
    RenderedTables(o, s, typer, |s.tables|);
    assert o.tables[..|s.tables|] == o.tables;
  }

  ghost predicate SameShape(t: Table, a: Index, b: Index) {
    && a.primaryKey == b.primaryKey && a.unique == b.unique && |a.columns| == |b.columns|
    && forall p :: 0 <= p < |a.columns| ==>
         ColumnName(t, a.columns[p].column) == ColumnName(t, b.columns[p].column)
  }

  ghost predicate DistinctShapes(s: Schema) {
    forall i, a, b :: 0 <= i < |s.tables| && 0 <= a < b < |s.tables[i].indices| ==>
      !SameShape(s.tables[i], s.tables[i].indices[a], s.tables[i].indices[b])
  }

  ghost predicate DistinctIndexNames(s: Schema) {
    forall i, a, b :: 0 <= i < |s.tables| && 0 <= a < b < |s.tables[i].indices| ==>
      s.tables[i].indices[a].name != s.tables[i].indices[b].name
  }

  /** A live database that is the target normalizes to exactly the target, so that `sync` finds
      nothing to change, if and only if no table has two indices of one shape. */
  lemma {:induction false} NormalizeFixpointIff(o: ObservedSchema, s: Schema, typer: Typer)
    requires WellFormed(s) && Renders(o, s, typer) && DistinctIndexNames(s)
    ensures Normalize(o, s, typer) == Ok(s) <==> DistinctShapes(s)
  {
    hide Normalize, WellFormed, Renders, Canonical, DistinctIndexNames, SameShape;
    NormalizeRendered(o, s, typer);
    if DistinctShapes(s) {
      DistinctShapesAreCanonical(o, s, typer);
    } else {
      var i, a, b :| 0 <= i < |s.tables| && 0 <= a < b < |s.tables[i].indices|
        && SameShape(s.tables[i], s.tables[i].indices[a], s.tables[i].indices[b]);
      SharedShapeRenames(i, a, b, o, s, typer);
    }
  }

  lemma {:induction false} DistinctShapesAreCanonical(o: ObservedSchema, s: Schema, typer: Typer)
    requires Renders(o, s, typer) && DistinctShapes(s)
    ensures Canonical(s, o) == s
  {
    hide DistinctShapes, CanonicalTable;
    forall i | 0 <= i < |s.tables| ensures Canonical(s, o).tables[i] == s.tables[i] {
      DistinctShapesCanonical(i, o, s, typer);
    }
    assert Canonical(s, o).tables == s.tables;
  }

  lemma {:induction false} DistinctShapesCanonical(i: nat, o: ObservedSchema, s: Schema, typer: Typer)
    requires Renders(o, s, typer) && DistinctShapes(s) && i < |s.tables|
    ensures CanonicalTable(s.tables[i], o.tables[i]) == s.tables[i]
  {
    hide FindShape, CanonicalIndex, SameShape;
    var t, ot := s.tables[i], o.tables[i];
    assert RendersTable(ot, t, typer);
    forall j | 0 <= j < |t.indices| ensures CanonicalIndex(t, ot, j) == t.indices[j] {
      assert t.indices[j] in t.indices && ShapeMatches(t, t.indices[j], ot.indices[j]);
      var f := FindShapeFirst(t, t.indices, ot.indices[j]);
      if f < j { MatchesShare(t, t.indices[f], t.indices[j], ot.indices[j]); }
      FirstIsItself(t, ot, j);
    }
    assert CanonicalTable(t, ot).indices == t.indices;
  }

  lemma {:induction false} MatchesShare(t: Table, a: Index, b: Index, o: ObservedIndex)
    requires ShapeMatches(t, a, o) && ShapeMatches(t, b, o)
    ensures SameShape(t, a, b)
  {
  }

  lemma {:induction false} FirstIsItself(t: Table, o: ObservedTable, j: nat)
    requires j < |t.indices| == |o.indices| && ShapeMatches(t, t.indices[j], o.indices[j])
    requires FindShape(t, t.indices, o.indices[j]) == Some(t.indices[j])
    ensures CanonicalIndex(t, o, j) == t.indices[j]
  {
    hide FindShape, ShapeMatches;
    assert CanonicalIndex(t, o, j).columns == t.indices[j].columns;
  }

  lemma {:induction false} SharedShapeRenames(i: nat, a: nat, b: nat, o: ObservedSchema, s: Schema, typer: Typer)
    requires Renders(o, s, typer) && DistinctIndexNames(s) && i < |s.tables|
    requires a < b < |s.tables[i].indices|
    requires SameShape(s.tables[i], s.tables[i].indices[a], s.tables[i].indices[b])
    ensures Canonical(s, o) != s
  {
    var t, ot := s.tables[i], o.tables[i];
    assert RendersTable(ot, t, typer);
    assert ShapeMatches(t, t.indices[b], ot.indices[b]);
    assert ShapeMatches(t, t.indices[a], ot.indices[b]);
    assert t.indices[b] in t.indices;
    var f := FindShapeFirst(t, t.indices, ot.indices[b]);
    assert f < b && t.indices[f].name != t.indices[b].name;
    assert CanonicalIndex(t, ot, b).name == t.indices[f].name;
    assert Canonical(s, o).tables[i].indices[b] == CanonicalIndex(t, ot, b);
  }
}
