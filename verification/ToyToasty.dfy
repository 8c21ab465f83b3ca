/** A concrete toy that meets the assumed laws. A database and a schema matter to it through their
    tables and indices: the database has the schema when both consist of the same things, SQL drops
    the things of one schema and makes those of another, one statement each, and the database carries
    a statement out when some catalog with distinct names consists of what should then be there. The
    scope is the default one, and the types of columns are never in doubt. */
module ToyToasty {
  import opened Wrappers
  import opened Lineage
  import opened ToyCode
  import A = ArtifactStore
  import H = LineageLaws
  import L = TransactionalLedger
  import N = SchemaNormalizer
  import R = CatalogReading
  import S = Sequences
  import W = SchemaNormalizerLaws

  // ---------------------------------------------------------------- the things of a database and of a schema

  /** The name of a primary index is the database's own business. */
  function ObservedThing(table: string, o: N.ObservedIndex): Thing {
    IndexThing(table, if o.primaryKey then "" else o.name, o.columns, o.unique, o.primaryKey, o.filter.Some?)
  }

  function ObservedThings(table: string, indices: seq<N.ObservedIndex>): seq<Thing> {
    if indices == [] then []
    else ObservedThings(table, S.Init(indices)) + [ObservedThing(table, S.Last(indices))]
  }

  function LiveThings(tables: seq<R.LiveTable>): seq<Thing> {
    if tables == [] then []
    else
      var o := S.Last(tables).table;
      LiveThings(S.Init(tables)) + ([TableThing(o.name)] + ObservedThings(o.name, o.indices))
  }

  function Names(t: N.Table, columns: seq<N.IndexColumn>): (r: seq<string>)
    ensures |r| == |columns|
    ensures forall p :: 0 <= p < |r| ==> r[p] == NameOr(N.ColumnName(t, columns[p].column))
  {
    if columns == [] then [] else [NameOr(N.ColumnName(t, columns[0].column))] + Names(t, columns[1..])
  }

  function NameOr(name: Option<string>): string { if name.Some? then name.value else "" }

  function IndexThingOf(t: N.Table, index: N.Index): Thing {
    IndexThing(t.name, if index.primaryKey then "" else index.name, Names(t, index.columns), index.unique,
               index.primaryKey, false)
  }

  function IndexThings(t: N.Table, indices: seq<N.Index>): seq<Thing> {
    if indices == [] then [] else IndexThings(t, S.Init(indices)) + [IndexThingOf(t, S.Last(indices))]
  }

  function SchemaThings(tables: seq<N.Table>): seq<Thing> {
    if tables == [] then []
    else
      var t := S.Last(tables);
      SchemaThings(S.Init(tables)) + ([TableThing(t.name)] + IndexThings(t, t.indices))
  }

  function ThingsIn(live: Catalog): multiset<Thing> { multiset(LiveThings(live.tables)) }

  function ThingsOf(s: Schema): multiset<Thing> { multiset(SchemaThings(s.tables)) }

  // ---------------------------------------------------------------- the toy

  ghost predicate Becomes(live: Catalog, things: multiset<Thing>) {
    R.Sane(live) && ThingsIn(live) == things
  }

  /** What a statement leaves of the things; `None` if it does not apply. */
  ghost function Effect(things: multiset<Thing>, statement: L.Statement): Option<multiset<Thing>> {
    match Meaning(statement)
    case None => None
    case Some(said) =>
      if said.0 then Some(things + multiset{said.1})
      else if said.1 in things then Some(things - multiset{said.1}) else None
  }

  ghost predicate ToyAccepts(live: Catalog, statement: L.Statement) {
    var after := Effect(ThingsIn(live), statement);
    after.Some? && exists next :: Becomes(next, after.value)
  }

  ghost function ToyExecute(live: Catalog, statement: L.Statement): Catalog {
    if ToyAccepts(live, statement) then
      var next :| Becomes(next, Effect(ThingsIn(live), statement).value);
      next
    else live
  }

  function Sql(a: Schema, b: Schema): string {
    Text(Drops(SchemaThings(a.tables)) + Makes(SchemaThings(b.tables)))
  }

  function ToyTyper(o: N.ObservedColumn, target: Option<N.Column>): Result<(string, string), N.Error> {
    match target
    case None => Ok(("", ""))
    case Some(column) => Ok((column.ty, column.storage))
  }

  ghost const TOY: Toasty := Toasty(
    R.Managed,
    (o, target) => ToyTyper(o, target),
    (a: Schema, b: Schema, hints: Hints) =>
      if ThingsOf(a) == ThingsOf(b) then None else Some(Generated(Sql(a, b), b)),
    text => Split(text, ""),
    (live: Catalog, statement: L.Statement) => ToyAccepts(live, statement),
    (live: Catalog, statement: L.Statement) => ToyExecute(live, statement),
    (live: Catalog, s: Schema) => ThingsIn(live) == ThingsOf(s))

  // ---------------------------------------------------------------- what its SQL does

  lemma {:induction false} AcceptedEffect(live: Catalog, statement: L.Statement)
    requires ToyAccepts(live, statement)
    ensures Effect(ThingsIn(live), statement).Some?
    ensures Becomes(ToyExecute(live, statement), Effect(ThingsIn(live), statement).value)
  {
    hide Effect, R.Sane, ThingsIn;
  }

  lemma {:induction false} OneDropped(live: Catalog, x: Thing)
    requires ToyAccepts(live, Drop(x))
    ensures ThingsIn(ToyExecute(live, Drop(x))) + multiset{x} == ThingsIn(live)
  {
    hide Drop, ThingsIn, ToyAccepts, ToyExecute, R.Sane, Meaning;
    DropMeans(x);
    AcceptedEffect(live, Drop(x));
  }

  lemma {:induction false} OneMade(live: Catalog, x: Thing)
    requires ToyAccepts(live, Make(x))
    ensures ThingsIn(ToyExecute(live, Make(x))) == ThingsIn(live) + multiset{x}
  {
    hide Make, ThingsIn, ToyAccepts, ToyExecute, R.Sane, Meaning;
    MakeMeans(x);
    AcceptedEffect(live, Make(x));
  }

  lemma {:induction false} LastOfAll(live: Catalog, statements: seq<L.Statement>, last: L.Statement)
    requires Runs(TOY, live, statements + [last])
    ensures var before := ExecuteAll(TOY, live, statements);
            && Runs(TOY, live, statements) && ToyAccepts(before, last)
            && ExecuteAll(TOY, live, statements + [last]) == ToyExecute(before, last)
  {
    hide ToyAccepts, ToyExecute;
    assert S.Init(statements + [last]) == statements && S.Last(statements + [last]) == last;
  }

  lemma {:induction false} DropsBalance(live: Catalog, things: seq<Thing>)
    requires Runs(TOY, live, Drops(things))
    ensures ThingsIn(ExecuteAll(TOY, live, Drops(things))) + multiset(things) == ThingsIn(live)
  {
    hide Drop, ThingsIn, ToyAccepts, ToyExecute, TOY, Runs, ExecuteAll;
    if things == [] {
      H.ExecuteNothing(TOY, live);
    } else {
      var x, rest := things[0], things[1..];
      LastOfAll(live, Drops(rest), Drop(x));
      DropsBalance(live, rest);
      OneDropped(ExecuteAll(TOY, live, Drops(rest)), x);
      assert things == [x] + rest;
    }
  }

  lemma {:induction false} MakesBalance(live: Catalog, things: seq<Thing>)
    requires Runs(TOY, live, Makes(things))
    ensures ThingsIn(ExecuteAll(TOY, live, Makes(things))) == ThingsIn(live) + multiset(things)
    decreases |things|
  {
    hide Make, ThingsIn, ToyAccepts, ToyExecute, TOY, Runs, ExecuteAll;
    if things == [] {
      H.ExecuteNothing(TOY, live);
    } else {
      var x, rest := S.Last(things), S.Init(things);
      LastOfAll(live, Makes(rest), Make(x));
      MakesBalance(live, rest);
      OneMade(ExecuteAll(TOY, live, Makes(rest)), x);
      assert things == rest + [x];
    }
  }

  lemma {:induction false} SqlFileRuns(a: Schema, b: Schema)
    ensures Statements(TOY, A.SqlFile(Sql(a, b)).text)
         == Drops(SchemaThings(a.tables)) + Makes(SchemaThings(b.tables))
  {
    hide SchemaThings, AllPlain, Harmless, Split, Text, Drops, Makes;
    var statements := Drops(SchemaThings(a.tables)) + Makes(SchemaThings(b.tables));
    BothPlain(SchemaThings(a.tables), SchemaThings(b.tables));
    TextHarmless(statements);
    HarmlessUnchanged(Text(statements));
    SplitText(statements);
  }

  lemma {:induction false} BothPlain(a: seq<Thing>, b: seq<Thing>)
    ensures AllPlain(Drops(a) + Makes(b))
  {
    hide Plain, Drops, Makes;
    DropsPlain(a);
    MakesPlain(b);
  }

  /** Whatever a database consists of, the SQL takes away the one schema and adds the other. */
  lemma {:induction false} SqlBalance(live: Catalog, drops: seq<Thing>, makes: seq<Thing>)
    requires Runs(TOY, live, Drops(drops) + Makes(makes))
    ensures ThingsIn(ExecuteAll(TOY, live, Drops(drops) + Makes(makes))) + multiset(drops)
         == ThingsIn(live) + multiset(makes)
  {
    hide TOY, ExecuteAll, Runs, ThingsIn, Drops, Makes;
    H.ExecuteConcat(TOY, live, Drops(drops), Makes(makes));
    DropsBalance(live, drops);
    MakesBalance(ExecuteAll(TOY, live, Drops(drops)), makes);
  }

  /** What a database has beyond a schema stays beyond it. */
  lemma {:induction false} Cancels<T>(after: multiset<T>, a: multiset<T>, before: multiset<T>, b: multiset<T>)
    requires after + a == before + b
    ensures after == b <==> before == a
  {
    forall x: T ensures after[x] + a[x] == before[x] + b[x] {
      assert (after + a)[x] == (before + b)[x];
    }
    assert (forall x: T :: after[x] == b[x]) <==> forall x: T :: before[x] == a[x];
  }

  lemma {:induction false} SqlTakes(a: Schema, b: Schema)
    ensures Takes(TOY, A.SqlFile(Sql(a, b)).text, a, b)
  {
    hide ExecuteAll, Runs, A.SqlFile, Sql, SchemaThings, LiveThings, Drops, Makes, Statements;
    SqlFileRuns(a, b);
    var statements := Drops(SchemaThings(a.tables)) + Makes(SchemaThings(b.tables));
    forall live | Holds(TOY, live, a) && Runs(TOY, live, statements)
      ensures Holds(TOY, ExecuteAll(TOY, live, statements), b)
    {
      SqlBalance(live, SchemaThings(a.tables), SchemaThings(b.tables));
      Cancels(ThingsIn(ExecuteAll(TOY, live, statements)), ThingsOf(a), ThingsIn(live), ThingsOf(b));
    }
  }

  // ---------------------------------------------------------------- a database that shows a schema

  lemma {:induction false} RenderedIndexThings(o: N.ObservedTable, t: N.Table, k: nat)
    requires o.name == t.name && |o.indices| == |t.indices| && k <= |t.indices|
    requires forall j :: 0 <= j < |t.indices| ==>
               && N.ShapeMatches(t, t.indices[j], o.indices[j]) && o.indices[j].filter == None
               && (t.indices[j].primaryKey || o.indices[j].name == t.indices[j].name)
    ensures ObservedThings(o.name, o.indices[..k]) == IndexThings(t, t.indices[..k])
  {
    if k > 0 {
      RenderedIndexThings(o, t, k - 1);
      assert S.Init(o.indices[..k]) == o.indices[..k - 1] && S.Init(t.indices[..k]) == t.indices[..k - 1];
      SameIndexThing(o.indices[k - 1], t, t.indices[k - 1]);
    }
  }

  lemma {:induction false} SameIndexThing(o: N.ObservedIndex, t: N.Table, index: N.Index)
    requires N.ShapeMatches(t, index, o) && o.filter == None && (index.primaryKey || o.name == index.name)
    ensures ObservedThing(t.name, o) == IndexThingOf(t, index)
  {
    assert Names(t, index.columns) == o.columns;
  }

  lemma {:induction false} RenderedThings(live: Catalog, s: Schema, typer: N.Typer, i: nat)
    requires R.Shows(typer, live, s) && i <= |live.tables|
    ensures LiveThings(live.tables[..i]) == SchemaThings(s.tables[..i])
  {
    hide N.ShapeMatches;
    if i > 0 {
      RenderedThings(live, s, typer, i - 1);
      var o, t := live.tables[i - 1].table, s.tables[i - 1];
      assert W.RendersTable(R.AsObserved(live.tables).tables[i - 1], t, typer);
      RenderedIndexThings(o, t, |t.indices|);
      assert o.indices[..|t.indices|] == o.indices && t.indices[..|t.indices|] == t.indices;
      assert S.Init(live.tables[..i]) == live.tables[..i - 1] && S.Init(s.tables[..i]) == s.tables[..i - 1];
    }
  }

  lemma {:induction false} ShownIsHeld(live: Catalog, s: Schema, typer: N.Typer)
    requires R.Shows(typer, live, s)
    ensures ThingsIn(live) == ThingsOf(s)
  {
    RenderedThings(live, s, typer, |live.tables|);
    assert live.tables[..|live.tables|] == live.tables && s.tables[..|s.tables|] == s.tables;
  }

  lemma {:induction false} NothingInside(live: Catalog, s: Schema)
    ensures ThingsIn(live) == multiset{} <==> live.tables == []
    ensures ThingsOf(s) == multiset{} <==> s.tables == []
  {
    if live.tables != [] {
      assert TableThing(S.Last(live.tables).table.name) in LiveThings(live.tables);
    }
    if s.tables != [] {
      assert TableThing(S.Last(s.tables).name) in SchemaThings(s.tables);
    }
  }

  /** The assumptions of the lineage theorems hold together. */
  lemma {:induction false} ToyMeetsLaws()
    ensures Laws(TOY)
  {
    hide A.SqlFile, Takes, Sql, SchemaThings, LiveThings, R.Shows, R.Sane, W.WellFormed, ToyAccepts, ToyExecute;
    forall a, b, h | Diff(TOY, a, b, h).Some?
      ensures Takes(TOY, A.SqlFile(Diff(TOY, a, b, h).value.sql).text, a, b)
    {
      SqlTakes(a, b);
    }
    forall live, s | R.Shows(TOY.typer, live, s) ensures Holds(TOY, live, s) {
      ShownIsHeld(live, s, TOY.typer);
    }
    forall s: Schema | s.tables != [] ensures Diff(TOY, EMPTY, s, NO_HINTS).Some? {
      NothingInside(R.Catalog([]), s);
      NothingInside(R.Catalog([]), EMPTY);
    }
    forall live | Holds(TOY, live, EMPTY) ensures live.tables == [] {
      NothingInside(live, EMPTY);
    }
  }

  // ---------------------------------------------------------------- schemas that no database tells apart

  function ShowIndices(t: N.Table, indices: seq<N.Index>): seq<N.ObservedIndex> {
    if indices == [] then []
    else
      var index := S.Last(indices);
      ShowIndices(t, S.Init(indices))
      + [N.ObservedIndex(index.name, Names(t, index.columns), index.unique, index.primaryKey, None)]
  }

  /** A catalog with the things of the schema. */
  function Show(tables: seq<N.Table>): seq<R.LiveTable> {
    if tables == [] then []
    else
      var t := S.Last(tables);
      Show(S.Init(tables)) + [R.LiveTable(N.ObservedTable(t.name, None, [], ShowIndices(t, t.indices)), [])]
  }

  lemma {:induction false} ShowIndicesThings(t: N.Table, indices: seq<N.Index>)
    ensures ObservedThings(t.name, ShowIndices(t, indices)) == IndexThings(t, indices)
  {
    if indices != [] {
      ShowIndicesThings(t, S.Init(indices));
      assert S.Init(ShowIndices(t, indices)) == ShowIndices(t, S.Init(indices));
    }
  }

  lemma {:induction false} ShowThings(tables: seq<N.Table>)
    ensures LiveThings(Show(tables)) == SchemaThings(tables)
  {
    if tables != [] {
      ShowThings(S.Init(tables));
      ShowIndicesThings(S.Last(tables), S.Last(tables).indices);
      assert S.Init(Show(tables)) == Show(S.Init(tables));
    }
  }

  lemma {:induction false} SameIff(a: Schema, b: Schema)
    ensures Same(TOY, a, b) <==> ThingsOf(a) == ThingsOf(b)
  {
    hide SchemaThings, LiveThings, Show;
    ShowThings(a.tables);
    assert Holds(TOY, R.Catalog(Show(a.tables)), a);
  }
}
