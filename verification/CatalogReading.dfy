/** Reading the live database: the tables in scope are taken from the catalog and normalized against
    the model's schema. When is the schema that has been read the one that the database has? */
module CatalogReading {
  import opened Wrappers
  import opened Sequences
  import opened SchemaNormalizer
  import opened SchemaNormalizerLaws
  import opened SchemaNormalizerStability

  /** A table as the catalog queries show it, with what they report as unsupported. */
  datatype LiveTable = LiveTable(table: ObservedTable, diagnostics: seq<string>)

  datatype Catalog = Catalog(tables: seq<LiveTable>)

  /** Which tables of the live database the source manages. */
  datatype Scope = Managed | Listed(names: set<string>) | Prefixes(prefixes: seq<string>) | NamespaceExclusive

  /** A live table of this name is read when the model has the schema `target`. */
  predicate InScope(scope: Scope, name: string, target: Schema) {
    match scope
    case Managed => exists k :: 0 <= k < |target.tables| && target.tables[k].name == name
    case Listed(names) => name in names
    case Prefixes(prefixes) => exists k :: 0 <= k < |prefixes| && prefixes[k] <= name
    case NamespaceExclusive => true
  }

  /** The tables in scope, in catalog order. */
  function Visible(scope: Scope, tables: seq<LiveTable>, target: Schema): (r: seq<LiveTable>)
    ensures |r| <= |tables|
  {
    if tables == [] then []
    else
      Visible(scope, Init(tables), target)
      + if InScope(scope, Last(tables).table.name, target) then [Last(tables)] else []
  }

  lemma {:induction false} VisibleIff(scope: Scope, tables: seq<LiveTable>, target: Schema)
    ensures forall t :: t in Visible(scope, tables, target) <==> t in tables && InScope(scope, t.table.name, target)
    decreases |tables|
  {
    hide InScope, Init, Last;
    if tables != [] {
      InitLast(tables);
      VisibleIff(scope, Init(tables), target);
    }
  }

  function TablesOf(tables: seq<LiveTable>): (r: seq<ObservedTable>)
    ensures |r| == |tables| && forall i :: 0 <= i < |r| ==> r[i] == tables[i].table
  {
    seq(|tables|, i requires 0 <= i < |tables| => tables[i].table)
  }

  function DiagnosticsOf(tables: seq<LiveTable>): seq<string> {
    if tables == [] then [] else DiagnosticsOf(Init(tables)) + Last(tables).diagnostics
  }

  function AsObserved(tables: seq<LiveTable>): ObservedSchema {
    ObservedSchema("", TablesOf(tables), DiagnosticsOf(tables))
  }

  /** What generation and adoption take the database's schema to be. */
  function ReadSchema(scope: Scope, typer: Typer, live: Catalog, target: Schema): Result<Schema, Error> {
    Normalize(AsObserved(Visible(scope, live.tables, target)), target, typer)
  }

  // ---------------------------------------------------------------- when it is the database's schema

  /** The database has exactly this schema; the names of primary indices are its own business. */
  ghost predicate Shows(typer: Typer, live: Catalog, s: Schema) {
    Renders(AsObserved(live.tables), s, typer)
  }

  /** No table is outside the scope. */
  ghost predicate Covers(scope: Scope, live: Catalog, target: Schema) {
    forall i :: 0 <= i < |live.tables| ==> InScope(scope, live.tables[i].table.name, target)
  }

  /** No index is partial or shadowed by an index of the model, and each secondary index for which the
      model has one of its shape already bears the model's name. */
  ghost predicate KeepsIndices(o: ObservedTable, target: Option<Table>) {
    forall j :: 0 <= j < |o.indices| ==>
      && !Skipped(target, o.indices, o.indices[j])
      && (o.indices[j].primaryKey || o.indices[j].name == NameFor(target, o.indices[j]))
  }

  /** The types that were read are the types of the columns. */
  ghost predicate KeepsTypes(o: ObservedTable, n: Table, typer: Typer) {
    && |n.columns| == |o.columns|
    && forall k :: 0 <= k < |n.columns| ==>
         typer(o.columns[k], Some(n.columns[k])) == Ok((n.columns[k].ty, n.columns[k].storage))
  }

  /** What can be checked before relying on a schema that was read. */
  ghost predicate TrulyRead(scope: Scope, typer: Typer, live: Catalog, target: Schema)
    requires ReadSchema(scope, typer, live, target).Ok?
  {
    var n := ReadSchema(scope, typer, live, target).value;
    && Covers(scope, live, target)
    && |n.tables| == |live.tables|
    && forall i :: 0 <= i < |live.tables| ==>
         && KeepsIndices(live.tables[i].table, FindTable(target.tables, live.tables[i].table.name))
         && KeepsTypes(live.tables[i].table, n.tables[i], typer)
  }

  lemma {:induction false} KeptLength(target: Option<Table>, all: seq<ObservedIndex>, seen: seq<ObservedIndex>)
    ensures |Kept(target, all, seen)| <= |seen|
    ensures |Kept(target, all, seen)| == |seen| ==> forall j :: 0 <= j < |seen| ==> !Skipped(target, all, seen[j])
    decreases |seen|
  {
    hide Skipped, Init, Last;
    if seen != [] {
      InitLast(seen);
      KeptLength(target, all, Init(seen));
    }
  }

  /** A normalized table is the observed one exactly when its indices and types are kept. */
  lemma {:induction false} RendersTableIff(i: nat, o: ObservedTable, target: Option<Table>, typer: Typer)
    requires NormalTable(i, o, target, typer).Ok?
    ensures var n := NormalTable(i, o, target, typer).value;
            RendersTable(o, n, typer) <==> KeepsIndices(o, target) && KeepsTypes(o, n, typer)
  {
    hide NormalTable, Skipped, NameFor, ShapeMatches, FirstPrimary, KeyColumns, Kept;
    NormalTableMirrors(i, o, target, typer);
    var n := NormalTable(i, o, target, typer).value;
    KeptLength(target, o.indices, o.indices);
    if forall j :: 0 <= j < |o.indices| ==> !Skipped(target, o.indices, o.indices[j]) {
      AllKept(target, o.indices, o.indices);
      IndicesIff(o, n, target);
    }
  }

  lemma {:induction false} IndicesIff(o: ObservedTable, n: Table, target: Option<Table>)
    requires |n.indices| == |o.indices|
    requires forall j :: 0 <= j < |o.indices| ==>
               && ShapeMatches(n, n.indices[j], o.indices[j]) && n.indices[j].name == NameFor(target, o.indices[j])
               && !Skipped(target, o.indices, o.indices[j])
    ensures KeepsIndices(o, target) <==>
              SameShapes(n, o)
              && forall j :: 0 <= j < |n.indices| ==>
                   && (n.indices[j].primaryKey || o.indices[j].name == n.indices[j].name)
                   && o.indices[j].filter == None
  {
    hide NameFor, TargetIndex, Shadowed;
    assert forall j :: 0 <= j < |o.indices| ==> n.indices[j].primaryKey == o.indices[j].primaryKey;
    assert forall j :: 0 <= j < |o.indices| ==> !Skipped(target, o.indices, o.indices[j]) ==> o.indices[j].filter == None;
  }

  lemma {:induction false} VisibleAll(scope: Scope, tables: seq<LiveTable>, target: Schema)
    requires forall i :: 0 <= i < |tables| ==> InScope(scope, tables[i].table.name, target)
    ensures Visible(scope, tables, target) == tables
    decreases |tables|
  {
    hide InScope, Init, Last;
    if tables != [] {
      InitLast(tables);
      VisibleAll(scope, Init(tables), target);
    }
  }

  lemma {:induction false} VisibleAsMany(scope: Scope, tables: seq<LiveTable>, target: Schema)
    requires |Visible(scope, tables, target)| == |tables|
    ensures forall i :: 0 <= i < |tables| ==> InScope(scope, tables[i].table.name, target)
    decreases |tables|
  {
    hide InScope, Init, Last;
    if tables != [] {
      InitLast(tables);
      VisibleAsMany(scope, Init(tables), target);
    }
  }

  /** The schema that has been read is the schema that the database has, if and only if all tables are
      in scope and every one of them keeps its indices and its types. */
  lemma {:induction false} ReadIsShownIff(scope: Scope, typer: Typer, live: Catalog, target: Schema)
    requires ReadSchema(scope, typer, live, target).Ok?
    ensures Shows(typer, live, ReadSchema(scope, typer, live, target).value)
            <==> TrulyRead(scope, typer, live, target)
  {
    hide NormalTable, RendersTable, KeepsIndices, KeepsTypes, Mirrors, Visible, InScope;
    var visible := Visible(scope, live.tables, target);
    var o := AsObserved(visible);
    var n := ReadSchema(scope, typer, live, target).value;
    if |visible| == |live.tables| { VisibleAsMany(scope, live.tables, target); }
    NormalizeIsWellFormed(o, target, typer);
    if Covers(scope, live, target) {
      VisibleAll(scope, live.tables, target);
      forall i | 0 <= i < |n.tables|
        ensures RendersTable(live.tables[i].table, n.tables[i], typer)
                <==> && KeepsIndices(live.tables[i].table, FindTable(target.tables, live.tables[i].table.name))
                     && KeepsTypes(live.tables[i].table, n.tables[i], typer)
      {
        TablesAt(o.tables, target, typer, i);
        RendersTableIff(i, o.tables[i], FindTable(target.tables, o.tables[i].name), typer);
      }
    }
  }

  // ---------------------------------------------------------------- what has been read is well formed

  /** Names are distinct and there is one primary index at most, as in every database. */
  ghost predicate SaneTable(o: ObservedTable) {
    && (forall a, b :: 0 <= a < b < |o.columns| ==> o.columns[a].name != o.columns[b].name)
    && forall a, b :: 0 <= a < b < |o.indices| ==>
         o.indices[a].name != o.indices[b].name && !(o.indices[a].primaryKey && o.indices[b].primaryKey)
  }

  ghost predicate Sane(live: Catalog) {
    && (forall a, b :: 0 <= a < b < |live.tables| ==> live.tables[a].table.name != live.tables[b].table.name)
    && forall i :: 0 <= i < |live.tables| ==> SaneTable(live.tables[i].table)
  }

  /** Only columns of primary indices carry the key flag. */
  ghost predicate FlagsKeyed(parts: Parts) {
    forall k :: 0 <= k < |parts.columns| && parts.columns[k].primaryKey ==>
      exists a :: 0 <= a < |parts.indices| && KeyedBy(parts.indices[a], k)
  }

  lemma {:induction false} AddIndexFlags(parts: Parts, table: nat, all: seq<ObservedIndex>, target: Option<Table>,
                                         o: ObservedIndex)
    requires FlagsKeyed(parts) && AddIndex(parts, table, all, target, o).Ok?
    requires forall k :: 0 <= k < |parts.columns| ==> parts.columns[k].id == ColumnId(table, k)
    ensures FlagsKeyed(AddIndex(parts, table, all, target, o).value)
  {
    hide Skipped, TargetIndex, MarkAll, IndexColumns;
    if !Skipped(target, all, o) {
      var after := AddIndex(parts, table, all, target, o).value;
      var made := after.indices[|parts.indices|];
      IndexColumnsMade(parts.columns, o.columns, TargetIndex(target, o));
      forall k | 0 <= k < |after.columns| && after.columns[k].primaryKey
        ensures exists a :: 0 <= a < |after.indices| && KeyedBy(after.indices[a], k)
      {
        MarkAllFlag(parts.columns, o.columns, target, k);
        if o.primaryKey && Names(parts.columns, o.columns, k) {
          var q :| 0 <= q < |o.columns| && Position(parts.columns, o.columns[q]) == Some(k);
          assert made.columns[q].column.index == k;
          assert KeyedBy(after.indices[|parts.indices|], k);
        } else {
          var a :| 0 <= a < |parts.indices| && KeyedBy(parts.indices[a], k);
          assert after.indices[a] == parts.indices[a];
        }
      }
    }
  }

  lemma {:induction false} IndicesFlags(columns: seq<Column>, table: nat, all: seq<ObservedIndex>,
                                        target: Option<Table>, seen: seq<ObservedIndex>)
    requires Indices(columns, table, all, target, seen).Ok?
    requires forall k :: 0 <= k < |columns| ==> columns[k].id == ColumnId(table, k) && !columns[k].primaryKey
    ensures FlagsKeyed(Indices(columns, table, all, target, seen).value)
    decreases |seen|
  {
    hide AddIndex, FlagsKeyed;
    if seen == [] {
      NoFlags(columns);
    } else {
      IndicesFlags(columns, table, all, target, Init(seen));
      IndicesMade(columns, table, all, target, Init(seen));
      AddIndexFlags(Indices(columns, table, all, target, Init(seen)).value, table, all, target, Last(seen));
    }
  }

  lemma {:induction false} NoFlags(columns: seq<Column>)
    requires forall k :: 0 <= k < |columns| ==> !columns[k].primaryKey
    ensures FlagsKeyed(Parts(columns, []))
  {
  }

  lemma {:induction false} ColumnsUnflagged(table: nat, observed: seq<ObservedColumn>, target: Option<Table>,
                                            typer: Typer)
    requires Columns(table, observed, target, typer).Ok?
    ensures forall k :: 0 <= k < |observed| ==> !Columns(table, observed, target, typer).value[k].primaryKey
  {
    hide TypeOf;
    if observed != [] { ColumnsUnflagged(table, Init(observed), target, typer); }
  }

  lemma {:induction false} NormalTableFlags(i: nat, o: ObservedTable, target: Option<Table>, typer: Typer)
    requires NormalTable(i, o, target, typer).Ok?
    ensures var n := NormalTable(i, o, target, typer).value;
            forall k :: 0 <= k < |n.columns| && n.columns[k].primaryKey ==> Keyed(n, k, |n.indices|)
  {
    hide Columns, Indices, FirstPrimary, KeyColumns;
    var columns := Columns(i, o.columns, target, typer).value;
    ColumnsMade(i, o.columns, target, typer);
    ColumnsUnflagged(i, o.columns, target, typer);
    IndicesFlags(columns, i, o.indices, target, o.indices);
  }

  lemma {:induction false} NormalTableWellFormed(i: nat, o: ObservedTable, target: Option<Table>, typer: Typer)
    requires NormalTable(i, o, target, typer).Ok? && SaneTable(o)
    ensures WellFormedTable(NormalTable(i, o, target, typer).value, i)
  {
    hide NormalTable, Kept, FirstPrimary, KeyColumns, NameFor, Keyed;
    NormalTableMirrors(i, o, target, typer);
    NormalTableFlags(i, o, target, typer);
    var n := NormalTable(i, o, target, typer).value;
    var kept := Kept(target, o.indices, o.indices);
    forall j | 0 <= j < |n.indices| ensures WellFormedIndex(n, i, j) {
      assert ShapeMatches(n, n.indices[j], kept[j]);
      forall p | 0 <= p < |n.indices[j].columns| ensures n.indices[j].columns[p].column.index < |n.columns| {
        assert ColumnName(n, n.indices[j].columns[p].column) == Some(kept[j].columns[p]);
      }
    }
  }

  lemma {:induction false} VisibleSane(scope: Scope, tables: seq<LiveTable>, target: Schema)
    requires Sane(Catalog(tables))
    ensures Sane(Catalog(Visible(scope, tables, target)))
    decreases |tables|
  {
    hide InScope, SaneTable, Init, Last;
    if tables != [] {
      var init := Init(tables);
      InitLast(tables);
      VisibleSane(scope, init, target);
      VisibleIff(scope, init, target);
      var before := Visible(scope, init, target);
      forall a | 0 <= a < |before| ensures before[a].table.name != Last(tables).table.name {
        assert before[a] in init;
      }
    }
  }

  /** The schema that is read off a database is well formed. */
  lemma {:induction false} ReadIsWellFormed(scope: Scope, typer: Typer, live: Catalog, target: Schema)
    requires Sane(live) && ReadSchema(scope, typer, live, target).Ok?
    ensures WellFormed(ReadSchema(scope, typer, live, target).value)
  {
    hide NormalTable, Mirrors, Visible, WellFormedTable, SaneTable;
    var visible := Visible(scope, live.tables, target);
    var o := AsObserved(visible);
    VisibleSane(scope, live.tables, target);
    NormalizeIsWellFormed(o, target, typer);
    var n := ReadSchema(scope, typer, live, target).value;
    forall i | 0 <= i < |n.tables| ensures WellFormedTable(n.tables[i], i) && n.tables[i].name == visible[i].table.name {
      TablesAt(o.tables, target, typer, i);
      assert SaneTable(visible[i].table);
      NormalTableWellFormed(i, o.tables[i], FindTable(target.tables, o.tables[i].name), typer);
      MirrorsName(i, n.tables[i], o.tables[i], FindTable(target.tables, o.tables[i].name));
    }
  }

  lemma {:induction false} MirrorsName(i: nat, n: Table, o: ObservedTable, target: Option<Table>)
    requires Mirrors(n, i, o, target)
    ensures n.name == o.name
  {
  }
}
