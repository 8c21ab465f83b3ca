/** Mapping an observed catalog to a schema shaped like the target schema.

    The specification walks the observed lists from their ends, so that it can be read as "what a
    prefix of the list gives"; the method below builds the same schema with nested loops. */
module SchemaNormalizer {
  import opened Wrappers
  import opened Sequences

  datatype ColumnId = ColumnId(table: nat, index: nat)
  datatype IndexId = IndexId(table: nat, index: nat)
  datatype IndexOp = Eq | Sort
  datatype IndexScope = Partition | Local

  datatype Column = Column(
    id: ColumnId, name: string, ty: string, storage: string,
    nullable: bool, primaryKey: bool, autoIncrement: bool, versionable: bool)

  datatype IndexColumn = IndexColumn(column: ColumnId, op: IndexOp, scope: IndexScope)

  datatype Index = Index(
    id: IndexId, name: string, on: nat, columns: seq<IndexColumn>, unique: bool, primaryKey: bool)

  datatype PrimaryKey = PrimaryKey(columns: seq<ColumnId>, index: IndexId)

  datatype Table = Table(
    id: nat, name: string, columns: seq<Column>, primaryKey: PrimaryKey, indices: seq<Index>)

  datatype Schema = Schema(tables: seq<Table>)

  datatype ObservedColumn = ObservedColumn(
    name: string, dataType: string, nativeType: string, nullable: bool, autoIncrement: bool,
    default: Option<string>, ordinal: nat, comment: Option<string>)

  /** `filter` is the predicate of a partial index. */
  datatype ObservedIndex = ObservedIndex(
    name: string, columns: seq<string>, unique: bool, primaryKey: bool, filter: Option<string>)

  datatype ObservedTable = ObservedTable(
    name: string, comment: Option<string>, columns: seq<ObservedColumn>, indices: seq<ObservedIndex>)

  datatype ObservedSchema = ObservedSchema(
    namespace: string, tables: seq<ObservedTable>, diagnostics: seq<string>)

  datatype Error =
    | Unsupported(diagnostic: string)
    | UnmappedType(reason: string)
    | UnknownColumn(column: string)
    | NoPrimaryKey(table: string)

  /** The backend's column typing: the logical and the storage type. */
  type Typer = (ObservedColumn, Option<Column>) -> Result<(string, string), Error>

  /** What the index loop of one table has built. */
  datatype Parts = Parts(columns: seq<Column>, indices: seq<Index>)

  // ---------------------------------------------------------------- look-ups: the first match

  function FindTable(tables: seq<Table>, name: string): Option<Table> {
    if tables == [] then None
    else if tables[0].name == name then Some(tables[0]) else FindTable(tables[1..], name)
  }

  function FindColumn(columns: seq<Column>, name: string): Option<Column> {
    if columns == [] then None
    else if columns[0].name == name then Some(columns[0]) else FindColumn(columns[1..], name)
  }

  function Position(columns: seq<Column>, name: string): (r: Option<nat>)
    ensures r.Some? ==> r.value < |columns| && columns[r.value].name == name
                        && forall k :: 0 <= k < r.value ==> columns[k].name != name
    ensures r.None? ==> forall k :: 0 <= k < |columns| ==> columns[k].name != name
  {
    if columns == [] then None
    else if columns[0].name == name then Some(0)
    else
      match Position(columns[1..], name)
      case None => None
      case Some(k) => Some(k + 1)
  }

  /** The name of a table's column; `None` for an identifier outside the table. */
  function ColumnName(table: Table, id: ColumnId): Option<string> {
    if id.index < |table.columns| then Some(table.columns[id.index].name) else None
  }

  predicate ShapeMatches(table: Table, index: Index, observed: ObservedIndex) {
    && index.primaryKey == observed.primaryKey
    && index.unique == observed.unique
    && |index.columns| == |observed.columns|
    && forall p :: 0 <= p < |index.columns| ==>
         ColumnName(table, index.columns[p].column) == Some(observed.columns[p])
  }

  function FindShape(table: Table, indices: seq<Index>, observed: ObservedIndex): (r: Option<Index>)
    ensures r.Some? ==> r.value in indices && ShapeMatches(table, r.value, observed)
    ensures r.None? ==> forall index :: index in indices ==> !ShapeMatches(table, index, observed)
  {
    if indices == [] then None
    else if ShapeMatches(table, indices[0], observed) then Some(indices[0])
    else FindShape(table, indices[1..], observed)
  }

  function TargetIndex(target: Option<Table>, observed: ObservedIndex): Option<Index> {
    match target
    case None => None
    case Some(table) => FindShape(table, table.indices, observed)
  }

  /** An auxiliary index that carries a target index's name while another observed index has that
      target index's shape. */
  predicate Shadowed(target: Option<Table>, all: seq<ObservedIndex>, observed: ObservedIndex) {
    && target.Some?
    && exists candidate, other ::
         && candidate in target.value.indices && candidate.name == observed.name
         && other in all && ShapeMatches(target.value, candidate, other)
  }

  /** Partial indices and shadowed ones have no place in the normalized schema. */
  predicate Skipped(target: Option<Table>, all: seq<ObservedIndex>, observed: ObservedIndex) {
    observed.filter.Some? || (TargetIndex(target, observed).None? && Shadowed(target, all, observed))
  }

  // ---------------------------------------------------------------- one table

  function NormalColumn(table: nat, k: nat, observed: ObservedColumn, target: Option<Table>,
                        types: (string, string)): Column
  {
    var targetColumn := if target.Some? then FindColumn(target.value.columns, observed.name) else None;
    Column(ColumnId(table, k), observed.name, types.0, types.1, observed.nullable, false,
           observed.autoIncrement, targetColumn.Some? && targetColumn.value.versionable)
  }

  function TypeOf(observed: ObservedColumn, target: Option<Table>, typer: Typer)
    : Result<(string, string), Error>
  {
    typer(observed, if target.Some? then FindColumn(target.value.columns, observed.name) else None)
  }

  function Columns(table: nat, observed: seq<ObservedColumn>, target: Option<Table>, typer: Typer)
    : (r: Result<seq<Column>, Error>)
    ensures r.Ok? ==> |r.value| == |observed|
  {
    if observed == [] then Ok([])
    else
      var columns :- Columns(table, Init(observed), target, typer);
      var types :- TypeOf(Last(observed), target, typer);
      Ok(columns + [NormalColumn(table, |columns|, Last(observed), target, types)])
  }

  /** The primary-key flag that a primary index gives to a column. */
  function KeyFlag(target: Option<Table>, name: string): bool {
    match if target.Some? then FindColumn(target.value.columns, name) else None
    case None => true
    case Some(column) => column.primaryKey
  }

  function Mark(columns: seq<Column>, name: string, target: Option<Table>): (r: seq<Column>)
    ensures |r| == |columns|
    ensures forall k :: 0 <= k < |r| ==>
              r[k] == if Position(columns, name) == Some(k)
                      then columns[k].(primaryKey := KeyFlag(target, name)) else columns[k]
  {
    match Position(columns, name)
    case None => columns
    case Some(k) => columns[k := columns[k].(primaryKey := KeyFlag(target, name))]
  }

  function MarkAll(columns: seq<Column>, names: seq<string>, target: Option<Table>): (r: seq<Column>)
    ensures |r| == |columns|
    ensures forall k :: 0 <= k < |r| ==> r[k] == columns[k].(primaryKey := r[k].primaryKey)
  {
    if names == [] then columns else Mark(MarkAll(columns, Init(names), target), Last(names), target)
  }

  function IndexColumns(columns: seq<Column>, names: seq<string>, index: Option<Index>)
    : (r: Result<seq<IndexColumn>, Error>)
    ensures r.Ok? ==> |r.value| == |names|
  {
    if names == [] then Ok([])
    else
      var init :- IndexColumns(columns, Init(names), index);
      match Position(columns, Last(names))
      case None => Err(UnknownColumn(Last(names)))
      case Some(k) =>
        var p := |init|;
        Ok(init + [if index.Some? && p < |index.value.columns|
                   then IndexColumn(columns[k].id, index.value.columns[p].op, index.value.columns[p].scope)
                   else IndexColumn(columns[k].id, Eq, Local)])
  }

  function NormalIndex(table: nat, k: nat, observed: ObservedIndex, index: Option<Index>,
                       columns: seq<IndexColumn>): Index
  {
    Index(IndexId(table, k), if index.Some? then index.value.name else observed.name, table,
          columns, observed.unique, observed.primaryKey)
  }

  function AddIndex(parts: Parts, table: nat, all: seq<ObservedIndex>, target: Option<Table>,
                    observed: ObservedIndex): Result<Parts, Error>
  {
    if Skipped(target, all, observed) then Ok(parts)
    else
      var index := TargetIndex(target, observed);
      var columns :- IndexColumns(parts.columns, observed.columns, index);
      var marked := if observed.primaryKey then MarkAll(parts.columns, observed.columns, target)
                    else parts.columns;
      Ok(Parts(marked, parts.indices + [NormalIndex(table, |parts.indices|, observed, index, columns)]))
  }

  /** What the observed indices `seen`, a prefix of `all`, add to the typed columns. */
  function Indices(columns: seq<Column>, table: nat, all: seq<ObservedIndex>, target: Option<Table>,
                   seen: seq<ObservedIndex>): Result<Parts, Error>
  {
    if seen == [] then Ok(Parts(columns, []))
    else
      var parts :- Indices(columns, table, all, target, Init(seen));
      AddIndex(parts, table, all, target, Last(seen))
  }

  function FirstPrimary(indices: seq<Index>): (r: Option<Index>)
    ensures r.Some? ==> r.value in indices && r.value.primaryKey
    ensures r.None? ==> forall index :: index in indices ==> !index.primaryKey
  {
    if indices == [] then None
    else if indices[0].primaryKey then Some(indices[0]) else FirstPrimary(indices[1..])
  }

  function KeyColumns(columns: seq<IndexColumn>): (r: seq<ColumnId>)
    ensures |r| == |columns| && forall p :: 0 <= p < |r| ==> r[p] == columns[p].column
  {
    if columns == [] then [] else [columns[0].column] + KeyColumns(columns[1..])
  }

  function NormalTable(table: nat, observed: ObservedTable, target: Option<Table>, typer: Typer)
    : Result<Table, Error>
  {
    var columns :- Columns(table, observed.columns, target, typer);
    var parts :- Indices(columns, table, observed.indices, target, observed.indices);
    match FirstPrimary(parts.indices)
    case None => Err(NoPrimaryKey(observed.name))
    case Some(key) =>
      Ok(Table(table, observed.name, parts.columns, PrimaryKey(KeyColumns(key.columns), key.id),
               parts.indices))
  }

  function Tables(observed: seq<ObservedTable>, target: Schema, typer: Typer)
    : (r: Result<seq<Table>, Error>)
    ensures r.Ok? ==> |r.value| == |observed|
  {
    if observed == [] then Ok([])
    else
      var tables :- Tables(Init(observed), target, typer);
      var table :- NormalTable(|tables|, Last(observed),
                               FindTable(target.tables, Last(observed).name), typer);
      Ok(tables + [table])
  }

  function Normalize(observed: ObservedSchema, target: Schema, typer: Typer): Result<Schema, Error> {
    if observed.diagnostics != [] then Err(Unsupported(observed.diagnostics[0]))
    else
      var tables :- Tables(observed.tables, target, typer);
      Ok(Schema(tables))
  }

  /** Index columns of the target lie inside their tables; otherwise the look-up of their names
      panics. */
  predicate Resolves(schema: Schema) {
    forall table, index, column ::
      table in schema.tables && index in table.indices && column in index.columns ==>
        column.column.index < |table.columns|
  }

  // ---------------------------------------------------------------- the loops

  method NormalizeColumns(table: nat, observed: seq<ObservedColumn>, target: Option<Table>, typer: Typer)
    returns (r: Result<seq<Column>, Error>)
    ensures r == Columns(table, observed, target, typer)
  {
    var columns: seq<Column> := [];
    for i := 0 to |observed|
      invariant Columns(table, observed[..i], target, typer) == Ok(columns)
    {
      assert Init(observed[..i + 1]) == observed[..i];
      var types := TypeOf(observed[i], target, typer);
      if types.Err? {
        ColumnsFailEarly(table, observed, target, typer, i + 1);
        return Err(types.error);
      }
      columns := columns + [NormalColumn(table, i, observed[i], target, types.value)];
    }
    assert observed[..|observed|] == observed;
    r := Ok(columns);
  }

  lemma {:induction false} ColumnsFailEarly(table: nat, observed: seq<ObservedColumn>,
                                            target: Option<Table>, typer: Typer, i: nat)
    requires i <= |observed| && Columns(table, observed[..i], target, typer).Err?
    ensures Columns(table, observed, target, typer) == Columns(table, observed[..i], target, typer)
    decreases |observed|
  {
    if i == |observed| {
      assert observed[..i] == observed;
    } else {
      assert Init(observed)[..i] == observed[..i];
      ColumnsFailEarly(table, Init(observed), target, typer, i);
    }
  }

  lemma {:induction false} NoIndexColumns(columns: seq<Column>, names: seq<string>, index: Option<Index>,
                                          target: Option<Table>)
    ensures IndexColumns(columns, names[..0], index) == Ok([]) && MarkAll(columns, names[..0], target) == columns
  {
  }

  /** What one more name adds to the index columns and to the key flags. */
  lemma {:induction false} OneIndexColumn(columns: seq<Column>, names: seq<string>, index: Option<Index>,
                                          target: Option<Table>, p: nat)
    requires p < |names| && IndexColumns(columns, names[..p], index).Ok?
    ensures var init := IndexColumns(columns, names[..p], index).value;
            var position := Position(columns, names[p]);
            && |init| == p
            && IndexColumns(columns, names[..p + 1], index) ==
                 match position
                 case None => Err(UnknownColumn(names[p]))
                 case Some(k) =>
                   Ok(init + [if index.Some? && p < |index.value.columns|
                              then IndexColumn(columns[k].id, index.value.columns[p].op, index.value.columns[p].scope)
                              else IndexColumn(columns[k].id, Eq, Local)])
    ensures MarkAll(columns, names[..p + 1], target) == Mark(MarkAll(columns, names[..p], target), names[p], target)
  {
    hide Position, Mark;
    assert Init(names[..p + 1]) == names[..p] && Last(names[..p + 1]) == names[p];
  }

  /** Key flags leave identifiers and names as they are. */
  lemma {:induction false} MarkedKeepsColumns(columns: seq<Column>, names: seq<string>, target: Option<Table>,
                                              name: string)
    ensures var marked := MarkAll(columns, names, target);
            && |marked| == |columns| && Position(marked, name) == Position(columns, name)
            && forall k :: 0 <= k < |columns| ==> marked[k].id == columns[k].id
  {
    hide Position, MarkAll;
    PositionMarked(MarkAll(columns, names, target), columns, name);
  }

  /** The columns of one index, and the key flags they set; the loop over an index's columns. */
  method NormalizeIndexColumns(columns0: seq<Column>, observed: ObservedIndex, index: Option<Index>,
                               target: Option<Table>)
    returns (r: Result<seq<IndexColumn>, Error>, columns: seq<Column>)
    ensures r == IndexColumns(columns0, observed.columns, index)
    ensures r.Ok? ==>
              columns == if observed.primaryKey then MarkAll(columns0, observed.columns, target) else columns0
  {
    hide IndexColumns, MarkAll, Position, KeyFlag;
    columns := columns0;
    var indexColumns: seq<IndexColumn> := [];
    var names := observed.columns;
    NoIndexColumns(columns0, names, index, target);
    for p := 0 to |names|
      invariant IndexColumns(columns0, names[..p], index) == Ok(indexColumns)
      invariant columns == if observed.primaryKey then MarkAll(columns0, names[..p], target) else columns0
    {
      MarkedKeepsColumns(columns0, names[..p], target, names[p]);
      OneIndexColumn(columns0, names, index, target, p);
      var position := Position(columns, names[p]);
      if position.None? {
        IndexColumnsFailEarly(columns0, names, index, p + 1);
        return Err(UnknownColumn(names[p])), columns;
      }
      var k := position.value;
      if observed.primaryKey {
        columns := columns[k := columns[k].(primaryKey := KeyFlag(target, names[p]))];
      }
      indexColumns := indexColumns +
        [if index.Some? && p < |index.value.columns|
         then IndexColumn(columns[k].id, index.value.columns[p].op, index.value.columns[p].scope)
         else IndexColumn(columns[k].id, Eq, Local)];
    }
    assert names[..|names|] == names;
    r := Ok(indexColumns);
  }

  lemma {:induction false} PositionMarked(a: seq<Column>, b: seq<Column>, name: string)
    requires |a| == |b| && forall k :: 0 <= k < |a| ==> a[k].name == b[k].name
    ensures Position(a, name) == Position(b, name)
  {
  }

  lemma {:induction false} IndexColumnsFailEarly(columns: seq<Column>, names: seq<string>,
                                                 index: Option<Index>, p: nat)
    requires p <= |names| && IndexColumns(columns, names[..p], index).Err?
    ensures IndexColumns(columns, names, index) == IndexColumns(columns, names[..p], index)
    decreases |names|
  {
    if p == |names| {
      assert names[..p] == names;
    } else {
      assert Init(names)[..p] == names[..p];
      IndexColumnsFailEarly(columns, Init(names), index, p);
    }
  }

  method NormalizeIndices(columns0: seq<Column>, table: nat, observed: seq<ObservedIndex>,
                          target: Option<Table>)
    returns (r: Result<Parts, Error>)
    ensures r == Indices(columns0, table, observed, target, observed)
  {
    var columns := columns0;
    var indices: seq<Index> := [];
    for i := 0 to |observed|
      invariant Indices(columns0, table, observed, target, observed[..i]) == Ok(Parts(columns, indices))
    {
      assert Init(observed[..i + 1]) == observed[..i];
      if observed[i].filter.None? {
        var index := TargetIndex(target, observed[i]);
        if !(index.None? && Shadowed(target, observed, observed[i])) {
          var indexColumns;
          indexColumns, columns := NormalizeIndexColumns(columns, observed[i], index, target);
          if indexColumns.Err? {
            IndicesFailEarly(columns0, table, observed, target, i + 1);
            return Err(indexColumns.error);
          }
          indices := indices + [NormalIndex(table, |indices|, observed[i], index, indexColumns.value)];
        }
      }
    }
    assert observed[..|observed|] == observed;
    r := Ok(Parts(columns, indices));
  }

  lemma {:induction false} IndicesFailEarly(columns: seq<Column>, table: nat, all: seq<ObservedIndex>,
                                            target: Option<Table>, i: nat)
    requires i <= |all| && Indices(columns, table, all, target, all[..i]).Err?
    ensures Indices(columns, table, all, target, all) == Indices(columns, table, all, target, all[..i])
  {
    IndicesFail(columns, table, all, target, all, i);
  }

  lemma {:induction false} IndicesFail(columns: seq<Column>, table: nat, all: seq<ObservedIndex>,
                                       target: Option<Table>, seen: seq<ObservedIndex>, i: nat)
    requires i <= |seen| && Indices(columns, table, all, target, seen[..i]).Err?
    ensures Indices(columns, table, all, target, seen) == Indices(columns, table, all, target, seen[..i])
    decreases |seen|
  {
    if i == |seen| {
      assert seen[..i] == seen;
    } else {
      assert Init(seen)[..i] == seen[..i];
      IndicesFail(columns, table, all, target, Init(seen), i);
    }
  }

  method NormalizeObserved(observed: ObservedSchema, target: Schema, typer: Typer)
    returns (r: Result<Schema, Error>)
    requires Resolves(target)
    ensures r == Normalize(observed, target, typer)
  {
    if observed.diagnostics != [] {
      return Err(Unsupported(observed.diagnostics[0]));
    }
    var tables: seq<Table> := [];
    for i := 0 to |observed.tables|
      invariant Tables(observed.tables[..i], target, typer) == Ok(tables)
    {
      var table := observed.tables[i];
      assert Init(observed.tables[..i + 1]) == observed.tables[..i];
      var targetTable := FindTable(target.tables, table.name);
      var columns := NormalizeColumns(i, table.columns, targetTable, typer);
      if columns.Err? {
        TablesFailEarly(observed.tables, target, typer, i + 1);
        return Err(columns.error);
      }
      var parts := NormalizeIndices(columns.value, i, table.indices, targetTable);
      if parts.Err? {
        TablesFailEarly(observed.tables, target, typer, i + 1);
        return Err(parts.error);
      }
      var key := FirstPrimary(parts.value.indices);
      if key.None? {
        TablesFailEarly(observed.tables, target, typer, i + 1);
        return Err(NoPrimaryKey(table.name));
      }
      tables := tables + [Table(i, table.name, parts.value.columns,
                                PrimaryKey(KeyColumns(key.value.columns), key.value.id),
                                parts.value.indices)];
    }
    assert observed.tables[..|observed.tables|] == observed.tables;
    r := Ok(Schema(tables));
  }

  lemma {:induction false} TablesFailEarly(observed: seq<ObservedTable>, target: Schema, typer: Typer, i: nat)
    requires i <= |observed| && Tables(observed[..i], target, typer).Err?
    ensures Tables(observed, target, typer) == Tables(observed[..i], target, typer)
    decreases |observed|
  {
    if i == |observed| {
      assert observed[..i] == observed;
    } else {
      assert Init(observed)[..i] == observed[..i];
      TablesFailEarly(Init(observed), target, typer, i);
    }
  }
}
