/** Which tables of the live database are read, and when reading refuses the database. */
module ScopeLaws {
  import opened Wrappers
  import opened Sequences
  import opened SchemaNormalizer
  import opened SchemaNormalizerStability
  import opened CatalogReading

  predicate NamesTable(schema: Schema, name: string) {
    exists table :: table in schema.tables && name == table.name
  }

  predicate BeginsWith(name: string, prefix: string) {
    |prefix| <= |name| && forall i :: 0 <= i < |prefix| ==> name[i] == prefix[i]
  }

  /** What the four scopes promise: the model's tables, the listed ones, those with one of the prefixes, all. */
  predicate Manages(scope: Scope, name: string, target: Schema) {
    && (scope.Managed? ==> NamesTable(target, name))
    && (scope.Listed? ==> name in scope.names)
    && (scope.Prefixes? ==> exists prefix :: prefix in scope.prefixes && BeginsWith(name, prefix))
  }

  lemma {:induction false} ManagesIff(scope: Scope, name: string, target: Schema)
    ensures InScope(scope, name, target) <==> Manages(scope, name, target)
  {
    if scope.Managed? && NamesTable(target, name) {
      var table :| table in target.tables && name == table.name;
      var k :| 0 <= k < |target.tables| && target.tables[k] == table;
    }
    if scope.Prefixes? && Manages(scope, name, target) {
      var prefix :| prefix in scope.prefixes && BeginsWith(name, prefix);
      var k :| 0 <= k < |scope.prefixes| && scope.prefixes[k] == prefix;
      assert prefix <= name;
    }
    if scope.Prefixes? && InScope(scope, name, target) {
      var k :| 0 <= k < |scope.prefixes| && scope.prefixes[k] <= name;
      assert scope.prefixes[k] in scope.prefixes && BeginsWith(name, scope.prefixes[k]);
    }
  }

  /** `visible` are the managed ones among the tables, in order; `at` says where they stand. */
  ghost predicate Selected(scope: Scope, tables: seq<LiveTable>, target: Schema, visible: seq<LiveTable>, at: seq<nat>) {
    && |at| == |visible|
    && (forall i :: 0 <= i < |at| ==> at[i] < |tables| && visible[i] == tables[at[i]])
    && (forall i, j :: 0 <= i < j < |at| ==> at[i] < at[j])
    && forall j: nat :: j < |tables| ==> (j in at <==> Manages(scope, tables[j].table.name, target))
  }

  lemma {:induction false} VisibleSelected(scope: Scope, tables: seq<LiveTable>, target: Schema) returns (at: seq<nat>)
    ensures Selected(scope, tables, target, Visible(scope, tables, target), at)
    decreases |tables|
  {
    hide InScope, Manages, Init, Last;
    at := [];
    if tables != [] {
      InitLast(tables);
      at := VisibleSelected(scope, Init(tables), target);
      ManagesIff(scope, Last(tables).table.name, target);
      var n := |tables| - 1;
      if InScope(scope, Last(tables).table.name, target) {
        at := at + [n];
      } else {
        assert forall i :: 0 <= i < |at| ==> at[i] != n;
      }
    }
  }

  /** The tables that have been read are exactly the managed ones, in catalog order, each as it was observed. */
  lemma {:induction false} ReadTablesAre(scope: Scope, typer: Typer, live: Catalog, target: Schema)
    returns (at: seq<nat>)
    requires ReadSchema(scope, typer, live, target).Ok?
    ensures Selected(scope, live.tables, target, Visible(scope, live.tables, target), at)
    ensures var n := ReadSchema(scope, typer, live, target).value;
            && |n.tables| == |at|
            && forall i :: 0 <= i < |at| ==>
                 && n.tables[i].name == live.tables[at[i]].table.name
                 && Mirrors(n.tables[i], i, live.tables[at[i]].table,
                            FindTable(target.tables, live.tables[at[i]].table.name))
  {
    hide Manages, Mirrors, Normalize, InScope;
    at := VisibleSelected(scope, live.tables, target);
    NormalizeIsWellFormed(AsObserved(Visible(scope, live.tables, target)), target, typer);
    forall i | 0 <= i < |at| ensures ReadSchema(scope, typer, live, target).value.tables[i].name == live.tables[at[i]].table.name {
      MirrorsName(ReadSchema(scope, typer, live, target).value.tables[i], i, live.tables[at[i]].table,
                  FindTable(target.tables, live.tables[at[i]].table.name));
    }
  }

  lemma {:induction false} MirrorsName(n: Table, i: nat, o: ObservedTable, target: Option<Table>)
    requires Mirrors(n, i, o, target)
    ensures n.name == o.name
  {
  }

  // ---------------------------------------------------------------- refusals

  /** Table `j` is the first managed one with diagnostics. */
  ghost predicate FirstDiagnosed(scope: Scope, tables: seq<LiveTable>, target: Schema, j: nat) {
    && j < |tables| && Manages(scope, tables[j].table.name, target) && tables[j].diagnostics != []
    && forall i :: 0 <= i < j && Manages(scope, tables[i].table.name, target) ==> tables[i].diagnostics == []
  }

  lemma {:induction false} DiagnosticsFirst(scope: Scope, tables: seq<LiveTable>, target: Schema)
    ensures var found := DiagnosticsOf(Visible(scope, tables, target));
            if found == [] then
              forall j :: 0 <= j < |tables| && Manages(scope, tables[j].table.name, target) ==> tables[j].diagnostics == []
            else
              exists j: nat :: FirstDiagnosed(scope, tables, target, j) && found[0] == tables[j].diagnostics[0]
    decreases |tables|
  {
    hide InScope, Manages;
    if tables != [] {
      InitLast(tables);
      DiagnosticsFirst(scope, Init(tables), target);
      var last, before := Last(tables), Visible(scope, Init(tables), target);
      ManagesIff(scope, last.table.name, target);
      if InScope(scope, last.table.name, target) {
        assert Init(before + [last]) == before && Last(before + [last]) == last;
        if DiagnosticsOf(before) == [] && last.diagnostics != [] {
          assert FirstDiagnosed(scope, tables, target, |tables| - 1);
        }
      } else {
        assert before + [] == before;
      }
      if DiagnosticsOf(before) != [] {
        var j: nat :| FirstDiagnosed(scope, Init(tables), target, j) && DiagnosticsOf(before)[0] == Init(tables)[j].diagnostics[0];
        assert FirstDiagnosed(scope, tables, target, j);
      }
    }
  }

  /** A database in which a managed table has something unsupported is refused, and the first such finding is
      named; what other tables have does not matter. */
  lemma {:induction false} DiagnosedIsRefused(scope: Scope, typer: Typer, live: Catalog, target: Schema)
    ensures var r := ReadSchema(scope, typer, live, target);
            && (forall j: nat :: FirstDiagnosed(scope, live.tables, target, j) ==>
                  r == Err(Unsupported(live.tables[j].diagnostics[0])))
            && (r.Ok? ==> forall j :: 0 <= j < |live.tables| && Manages(scope, live.tables[j].table.name, target) ==>
                            live.tables[j].diagnostics == [])
  {
    hide InScope, Manages, Visible, Tables, DiagnosticsOf;
    DiagnosticsFirst(scope, live.tables, target);
    var found := DiagnosticsOf(Visible(scope, live.tables, target));
    forall j: nat | FirstDiagnosed(scope, live.tables, target, j)
      ensures found != [] && found[0] == live.tables[j].diagnostics[0]
    {
      if found != [] {
        var i: nat :| FirstDiagnosed(scope, live.tables, target, i) && found[0] == live.tables[i].diagnostics[0];
        OnlyOneIsFirst(scope, live.tables, target, i, j);
      }
    }
  }

  lemma {:induction false} OnlyOneIsFirst(scope: Scope, tables: seq<LiveTable>, target: Schema, i: nat, j: nat)
    requires FirstDiagnosed(scope, tables, target, i) && FirstDiagnosed(scope, tables, target, j)
    ensures i == j
  {
  }

  /** A table that is not managed makes no difference to what is read. */
  lemma {:induction false} OthersAreIgnored(scope: Scope, typer: Typer, before: seq<LiveTable>, other: LiveTable,
                                            after: seq<LiveTable>, target: Schema)
    requires !Manages(scope, other.table.name, target)
    ensures ReadSchema(scope, typer, Catalog(before + [other] + after), target)
         == ReadSchema(scope, typer, Catalog(before + after), target)
  {
    hide InScope, Manages, Normalize, AsObserved;
    ManagesIff(scope, other.table.name, target);
    VisibleWithout(scope, before, other, after, target);
  }

  lemma {:induction false} VisibleWithout(scope: Scope, before: seq<LiveTable>, other: LiveTable, after: seq<LiveTable>,
                                          target: Schema)
    requires !InScope(scope, other.table.name, target)
    ensures Visible(scope, before + [other] + after, target) == Visible(scope, before + after, target)
    decreases |after|
  {
    hide InScope;
    if after == [] {
      assert Init(before + [other] + after) == before && Last(before + [other] + after) == other;
      assert before + after == before;
      assert Visible(scope, before, target) + [] == Visible(scope, before, target);
    } else {
      var long, short := before + [other] + after, before + after;
      assert Init(long) == before + [other] + Init(after) && Init(short) == before + Init(after);
      assert Last(long) == Last(after) == Last(short);
      VisibleWithout(scope, before, other, Init(after), target);
    }
  }
}
