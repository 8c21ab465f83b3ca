/** Field by field, where a normalized table comes from; and exactly which catalogs are refused, and why. */
module SchemaNormalizerAnswers {
  import opened Wrappers
  import opened Sequences
  import opened SchemaNormalizer
  import opened SchemaNormalizerStability

  // ---------------------------------------------------------------- the target's part in a column

  /** `r` is the first column of the target's table with this name, if there is one. */
  ghost predicate FirstNamed(target: Option<Table>, name: string, r: Option<Column>) {
    match r
    case None => target.None? || forall k :: 0 <= k < |target.value.columns| ==> target.value.columns[k].name != name
    case Some(c) =>
      target.Some? && exists k :: && 0 <= k < |target.value.columns| && target.value.columns[k] == c && c.name == name
                                  && forall j :: 0 <= j < k ==> target.value.columns[j].name != name
  }

  function TargetColumn(target: Option<Table>, name: string): (r: Option<Column>)
    ensures FirstNamed(target, name, r)
  {
    FindColumnFirst(target, name);
    if target.Some? then FindColumn(target.value.columns, name) else None
  }

  lemma {:induction false} FindColumnFirst(target: Option<Table>, name: string)
    ensures FirstNamed(target, name, if target.Some? then FindColumn(target.value.columns, name) else None)
  {
    if target.Some? { FindColumnAt(target.value.columns, name); }
  }

  lemma {:induction false} FindColumnAt(columns: seq<Column>, name: string)
    ensures match FindColumn(columns, name)
            case None => forall k :: 0 <= k < |columns| ==> columns[k].name != name
            case Some(c) => exists k :: && 0 <= k < |columns| && columns[k] == c && c.name == name
                                        && forall j :: 0 <= j < k ==> columns[j].name != name
  {
    if columns != [] && columns[0].name != name {
      FindColumnAt(columns[1..], name);
      assert forall k :: 0 < k < |columns| ==> columns[k] == columns[1..][k - 1];
      match FindColumn(columns[1..], name)
      case None =>
      case Some(c) =>
        var k :| && 0 <= k < |columns[1..]| && columns[1..][k] == c && c.name == name
                 && forall j :: 0 <= j < k ==> columns[1..][j].name != name;
        assert columns[k + 1] == c;
    }
  }

  /** The typer's answer for an observed column, given the target's column of its name. */
  function Typed(o: ObservedColumn, target: Option<Table>, typer: Typer): Result<(string, string), Error> {
    typer(o, TargetColumn(target, o.name))
  }

  lemma {:induction false} ColumnFields(table: nat, observed: seq<ObservedColumn>, target: Option<Table>, typer: Typer)
    requires Columns(table, observed, target, typer).Ok?
    ensures var columns := Columns(table, observed, target, typer).value;
            forall k :: 0 <= k < |observed| ==>
              && Typed(observed[k], target, typer) == Ok((columns[k].ty, columns[k].storage))
              && (columns[k].versionable <==>
                    TargetColumn(target, observed[k].name).Some? && TargetColumn(target, observed[k].name).value.versionable)
              && !columns[k].primaryKey && columns[k].name == observed[k].name
  {
    hide FirstNamed;
    if observed != [] { ColumnFields(table, Init(observed), target, typer); }
  }

  // ---------------------------------------------------------------- key flags

  /** The name is that of column `k`, and of no column before it. */
  predicate Names(name: string, columns: seq<Column>, k: nat) {
    k < |columns| && columns[k].name == name && forall j :: 0 <= j < k ==> columns[j].name != name
  }

  predicate MayBeKey(target: Option<Table>, name: string) {
    TargetColumn(target, name).Some? ==> TargetColumn(target, name).value.primaryKey
  }

  predicate Among(names: seq<string>, columns: seq<Column>, k: nat) {
    exists p :: 0 <= p < |names| && Names(names[p], columns, k)
  }

  lemma {:induction false} PositionNames(columns: seq<Column>, name: string, k: nat)
    ensures Position(columns, name) == Some(k) <==> Names(name, columns, k)
  {
  }

  lemma {:induction false} MarkedFlags(columns: seq<Column>, names: seq<string>, target: Option<Table>)
    ensures var marked := MarkAll(columns, names, target);
            forall k :: 0 <= k < |columns| ==>
              marked[k] == columns[k].(primaryKey := if Among(names, columns, k) then MayBeKey(target, columns[k].name)
                                                     else columns[k].primaryKey)
  {
    hide FirstNamed;
    if names != [] {
      MarkedFlags(columns, Init(names), target);
      InitLast(names);
      var before := MarkAll(columns, Init(names), target);
      PositionMarked(before, columns, Last(names));
      forall k: nat | k < |columns|
        ensures Among(names, columns, k) <==> Among(Init(names), columns, k) || Position(columns, Last(names)) == Some(k)
      {
        PositionNames(columns, Last(names), k);
        AmongLast(names, columns, k);
      }
    }
  }

  lemma {:induction false} AmongLast(names: seq<string>, columns: seq<Column>, k: nat)
    requires names != []
    ensures Among(names, columns, k) <==> Among(Init(names), columns, k) || Names(Last(names), columns, k)
  {
    hide Names;
    InitLast(names);
    if Among(Init(names), columns, k) {
      var p :| 0 <= p < |Init(names)| && Names(Init(names)[p], columns, k);
      assert Names(names[p], columns, k);
    }
    if Names(Last(names), columns, k) { assert Names(names[|names| - 1], columns, k); }
  }

  /** A primary index among `kept` names column `k`. */
  predicate Keyed(kept: seq<ObservedIndex>, columns: seq<Column>, k: nat) {
    exists j :: 0 <= j < |kept| && kept[j].primaryKey && Among(kept[j].columns, columns, k)
  }

  lemma {:induction false} KeyedMore(kept: seq<ObservedIndex>, o: ObservedIndex, columns: seq<Column>, k: nat)
    ensures Keyed(kept + [o], columns, k) <==> Keyed(kept, columns, k) || (o.primaryKey && Among(o.columns, columns, k))
  {
    hide Among;
    var more := kept + [o];
    if Keyed(kept, columns, k) {
      var j :| 0 <= j < |kept| && kept[j].primaryKey && Among(kept[j].columns, columns, k);
      assert more[j] == kept[j];
    }
    if o.primaryKey && Among(o.columns, columns, k) { assert more[|kept|] == o; }
  }

  ghost predicate FlagsAre(before: seq<Column>, after: seq<Column>, kept: seq<ObservedIndex>, target: Option<Table>) {
    && |after| == |before|
    && forall k :: 0 <= k < |before| ==>
         after[k] == before[k].(primaryKey := if Keyed(kept, before, k) then MayBeKey(target, before[k].name)
                                              else before[k].primaryKey)
  }

  lemma {:induction false} SameNames(a: seq<Column>, b: seq<Column>, names: seq<string>, k: nat)
    requires |a| == |b| && forall j :: 0 <= j < |a| ==> a[j].name == b[j].name
    ensures Among(names, a, k) <==> Among(names, b, k)
  {
    forall name: string ensures Names(name, a, k) <==> Names(name, b, k) {}
    hide Names;
    if Among(names, a, k) {
      var p :| 0 <= p < |names| && Names(names[p], a, k);
      assert Names(names[p], b, k);
    }
    if Among(names, b, k) {
      var p :| 0 <= p < |names| && Names(names[p], b, k);
      assert Names(names[p], a, k);
    }
  }

  lemma {:induction false} OneMoreFlagged(before: seq<Column>, after: seq<Column>, kept: seq<ObservedIndex>,
                                          o: ObservedIndex, target: Option<Table>)
    requires FlagsAre(before, after, kept, target)
    ensures FlagsAre(before, if o.primaryKey then MarkAll(after, o.columns, target) else after, kept + [o], target)
  {
    hide Keyed, Among, FirstNamed, Names, MayBeKey;
    MarkedFlags(after, o.columns, target);
    forall k: nat | k < |before|
      ensures Among(o.columns, after, k) <==> Among(o.columns, before, k)
      ensures Keyed(kept + [o], before, k) <==> Keyed(kept, before, k) || (o.primaryKey && Among(o.columns, before, k))
    {
      SameNames(after, before, o.columns, k);
      KeyedMore(kept, o, before, k);
    }
  }

  lemma {:induction false} FlagsAfter(columns: seq<Column>, table: nat, all: seq<ObservedIndex>, target: Option<Table>,
                                      seen: seq<ObservedIndex>)
    requires Indices(columns, table, all, target, seen).Ok?
    ensures FlagsAre(columns, Indices(columns, table, all, target, seen).value.columns, Kept(target, all, seen), target)
    decreases |seen|
  {
    hide Skipped, FlagsAre, IndexColumns, MarkAll, TargetIndex;
    if seen == [] {
      NothingFlagged(columns, target);
    } else {
      FlagsAfter(columns, table, all, target, Init(seen));
      var before := Indices(columns, table, all, target, Init(seen)).value;
      var kept := Kept(target, all, Init(seen));
      assert kept + [] == kept;
      if !Skipped(target, all, Last(seen)) { OneMoreFlagged(columns, before.columns, kept, Last(seen), target); }
    }
  }

  lemma {:induction false} NothingFlagged(columns: seq<Column>, target: Option<Table>)
    ensures FlagsAre(columns, columns, [], target)
  {
  }

  // ---------------------------------------------------------------- index columns

  /** Operation and scope are those of the target's index of this shape at the same position, and otherwise
      equality and local. */
  predicate OpsAre(columns: seq<IndexColumn>, index: Option<Index>) {
    forall p :: 0 <= p < |columns| ==>
      if index.Some? && p < |index.value.columns|
      then columns[p].op == index.value.columns[p].op && columns[p].scope == index.value.columns[p].scope
      else columns[p].op == Eq && columns[p].scope == Local
  }

  lemma {:induction false} IndexColumnOps(columns: seq<Column>, names: seq<string>, index: Option<Index>)
    requires IndexColumns(columns, names, index).Ok?
    ensures OpsAre(IndexColumns(columns, names, index).value, index)
  {
    if names != [] { IndexColumnOps(columns, Init(names), index); }
  }

  ghost predicate AllOpsAre(indices: seq<Index>, kept: seq<ObservedIndex>, target: Option<Table>) {
    && |indices| == |kept|
    && forall j :: 0 <= j < |kept| ==> OpsAre(indices[j].columns, TargetIndex(target, kept[j]))
  }

  lemma {:induction false} OpsAfter(columns: seq<Column>, table: nat, all: seq<ObservedIndex>, target: Option<Table>,
                                    seen: seq<ObservedIndex>)
    requires Indices(columns, table, all, target, seen).Ok?
    ensures AllOpsAre(Indices(columns, table, all, target, seen).value.indices, Kept(target, all, seen), target)
    decreases |seen|
  {
    hide Skipped, OpsAre, IndexColumns, MarkAll, TargetIndex;
    if seen != [] {
      OpsAfter(columns, table, all, target, Init(seen));
      var before := Indices(columns, table, all, target, Init(seen)).value;
      var kept, o := Kept(target, all, Init(seen)), Last(seen);
      assert kept + [] == kept;
      if !Skipped(target, all, o) { IndexColumnOps(before.columns, o.columns, TargetIndex(target, o)); }
    }
  }

  // ---------------------------------------------------------------- the fields of a normalized table

  /** Types are what the typer says; a column is versionable if the target's is; it belongs to the key if a
      primary index names it, unless the target's column does not; operations and scopes of index columns
      are the target's. */
  lemma {:induction false} TableFields(i: nat, o: ObservedTable, target: Option<Table>, typer: Typer)
    requires NormalTable(i, o, target, typer).Ok?
    ensures var n, kept := NormalTable(i, o, target, typer).value, Kept(target, o.indices, o.indices);
            && |n.columns| == |o.columns| && AllOpsAre(n.indices, kept, target)
            && forall k :: 0 <= k < |n.columns| ==>
                 var c := TargetColumn(target, o.columns[k].name);
                 && n.columns[k].name == o.columns[k].name
                 && Typed(o.columns[k], target, typer) == Ok((n.columns[k].ty, n.columns[k].storage))
                 && (n.columns[k].versionable <==> c.Some? && c.value.versionable)
                 && (n.columns[k].primaryKey <==> Keyed(kept, n.columns, k) && (c.Some? ==> c.value.primaryKey))
  {
    hide Columns, Indices, Kept, AllOpsAre, FirstPrimary, KeyColumns, Keyed, Typed, TargetColumn;
    var columns := Columns(i, o.columns, target, typer).value;
    ColumnFields(i, o.columns, target, typer);
    FlagsAfter(columns, i, o.indices, target, o.indices);
    OpsAfter(columns, i, o.indices, target, o.indices);
    var n, kept := NormalTable(i, o, target, typer).value, Kept(target, o.indices, o.indices);
    forall k: nat | k < |n.columns| ensures Keyed(kept, n.columns, k) <==> Keyed(kept, columns, k) {
      KeyedSame(kept, n.columns, columns, k);
    }
  }

  lemma {:induction false} KeyedSame(kept: seq<ObservedIndex>, a: seq<Column>, b: seq<Column>, k: nat)
    requires |a| == |b| && forall j :: 0 <= j < |a| ==> a[j].name == b[j].name
    ensures Keyed(kept, a, k) <==> Keyed(kept, b, k)
  {
    hide Among;
    forall j | 0 <= j < |kept| ensures Among(kept[j].columns, a, k) <==> Among(kept[j].columns, b, k) {
      SameNames(a, b, kept[j].columns, k);
    }
  }

  // ---------------------------------------------------------------- refusals

  /** Column `k` is the first that the typer refuses. */
  ghost predicate FirstUntyped(observed: seq<ObservedColumn>, target: Option<Table>, typer: Typer, k: nat, e: Error) {
    && k < |observed| && Typed(observed[k], target, typer) == Err(e)
    && forall j :: 0 <= j < k ==> Typed(observed[j], target, typer).Ok?
  }

  lemma {:induction false} ColumnsAnswer(table: nat, observed: seq<ObservedColumn>, target: Option<Table>, typer: Typer)
    ensures var r := Columns(table, observed, target, typer);
            && (r.Ok? ==> forall k :: 0 <= k < |observed| ==> Typed(observed[k], target, typer).Ok?)
            && (r.Err? ==> exists k: nat :: FirstUntyped(observed, target, typer, k, r.error))
  {
    hide FirstNamed;
    if observed != [] {
      var before, r := Columns(table, Init(observed), target, typer), Columns(table, observed, target, typer);
      ColumnsAnswer(table, Init(observed), target, typer);
      if before.Err? {
        var k: nat :| FirstUntyped(Init(observed), target, typer, k, before.error);
        assert FirstUntyped(observed, target, typer, k, r.error);
      } else if r.Err? {
        assert FirstUntyped(observed, target, typer, |observed| - 1, r.error);
      }
    }
  }

  predicate HasColumn(columns: seq<Column>, name: string) {
    exists k :: 0 <= k < |columns| && columns[k].name == name
  }

  /** Name `p` is the first that is no column's. */
  predicate FirstUnknown(columns: seq<Column>, names: seq<string>, p: nat) {
    p < |names| && !HasColumn(columns, names[p]) && forall i :: 0 <= i < p ==> HasColumn(columns, names[i])
  }

  lemma {:induction false} IndexColumnsAnswer(columns: seq<Column>, names: seq<string>, index: Option<Index>)
    ensures var r := IndexColumns(columns, names, index);
            && (r.Ok? ==> forall p :: 0 <= p < |names| ==> HasColumn(columns, names[p]))
            && (r.Err? ==> exists p: nat :: FirstUnknown(columns, names, p) && r.error == UnknownColumn(names[p]))
  {
    if names != [] {
      var before := IndexColumns(columns, Init(names), index);
      IndexColumnsAnswer(columns, Init(names), index);
      if before.Err? {
        var p: nat :| FirstUnknown(columns, Init(names), p) && before.error == UnknownColumn(Init(names)[p]);
        assert FirstUnknown(columns, names, p);
      } else if Position(columns, Last(names)).None? {
        assert FirstUnknown(columns, names, |names| - 1);
      }
    }
  }

  /** Name `p` of index `j` is the first name in the kept indices that is no column's. */
  ghost predicate FirstDangling(columns: seq<Column>, kept: seq<ObservedIndex>, j: nat, p: nat) {
    && j < |kept| && FirstUnknown(columns, kept[j].columns, p)
    && forall i :: 0 <= i < j ==> AllKnown(columns, kept[i])
  }

  predicate AllKnown(columns: seq<Column>, o: ObservedIndex) {
    forall p :: 0 <= p < |o.columns| ==> HasColumn(columns, o.columns[p])
  }

  lemma {:induction false} SameColumns(a: seq<Column>, b: seq<Column>, names: seq<string>)
    requires |a| == |b| && forall j :: 0 <= j < |a| ==> a[j].name == b[j].name
    ensures forall p :: 0 <= p < |names| ==> (HasColumn(a, names[p]) <==> HasColumn(b, names[p]))
    ensures forall p: nat :: FirstUnknown(a, names, p) ==> FirstUnknown(b, names, p)
  {
    forall name: string ensures HasColumn(a, name) <==> HasColumn(b, name) {
      if HasColumn(a, name) {
        var k :| 0 <= k < |a| && a[k].name == name;
        assert b[k].name == name;
      }
      if HasColumn(b, name) {
        var k :| 0 <= k < |b| && b[k].name == name;
        assert a[k].name == name;
      }
    }
  }

  lemma {:induction false} AddIndexAnswer(columns: seq<Column>, parts: Parts, table: nat, all: seq<ObservedIndex>,
                                          target: Option<Table>, o: ObservedIndex)
    requires SameApartFromFlags(columns, parts.columns) && !Skipped(target, all, o)
    ensures var r := AddIndex(parts, table, all, target, o);
            && (r.Ok? ==> AllKnown(columns, o))
            && (r.Err? ==> exists p: nat :: FirstUnknown(columns, o.columns, p) && r.error == UnknownColumn(o.columns[p]))
  {
    hide IndexColumns, MarkAll, TargetIndex, Skipped, FirstUnknown, HasColumn;
    IndexColumnsAnswer(parts.columns, o.columns, TargetIndex(target, o));
    SameColumns(parts.columns, columns, o.columns);
  }

  lemma {:induction false} IndicesAnswer(columns: seq<Column>, table: nat, all: seq<ObservedIndex>, target: Option<Table>,
                                         seen: seq<ObservedIndex>)
    ensures var r, kept := Indices(columns, table, all, target, seen), Kept(target, all, seen);
            && (r.Ok? ==> forall j :: 0 <= j < |kept| ==> AllKnown(columns, kept[j]))
            && (r.Err? ==> Dangles(columns, kept, r.error))
    decreases |seen|
  {
    hide Skipped, AddIndex, AllKnown, HasColumn, Made, SameApartFromFlags;
    if seen != [] {
      IndicesAnswer(columns, table, all, target, Init(seen));
      var before, kept, o := Indices(columns, table, all, target, Init(seen)), Kept(target, all, Init(seen)), Last(seen);
      if before.Err? {
        DanglingStays(columns, kept, Kept(target, all, seen), before.error);
      } else if Skipped(target, all, o) {
        SkippedAddsNothing(before.value, table, all, target, o);
        assert kept + [] == kept;
      } else {
        IndicesMade(columns, table, all, target, Init(seen));
        MadeIsSame(columns, table, target, kept, before.value);
        AddIndexAnswer(columns, before.value, table, all, target, o);
        assert Kept(target, all, seen) == kept + [o];
        var r := AddIndex(before.value, table, all, target, o);
        if r.Err? { DanglingLast(columns, kept, o, r.error); }
      }
    }
  }

  ghost predicate Dangles(columns: seq<Column>, kept: seq<ObservedIndex>, e: Error) {
    exists j: nat, p: nat :: FirstDangling(columns, kept, j, p) && e == UnknownColumn(kept[j].columns[p])
  }

  lemma {:induction false} DanglingStays(columns: seq<Column>, kept: seq<ObservedIndex>, longer: seq<ObservedIndex>, e: Error)
    requires Dangles(columns, kept, e) && kept <= longer
    ensures Dangles(columns, longer, e)
  {
    hide AllKnown, HasColumn;
    var j: nat, p: nat :| FirstDangling(columns, kept, j, p) && e == UnknownColumn(kept[j].columns[p]);
    assert forall i :: 0 <= i <= j ==> longer[i] == kept[i];
    assert FirstDangling(columns, longer, j, p);
  }

  lemma {:induction false} DanglingLast(columns: seq<Column>, kept: seq<ObservedIndex>, o: ObservedIndex, e: Error)
    requires forall j :: 0 <= j < |kept| ==> AllKnown(columns, kept[j])
    requires exists p: nat :: FirstUnknown(columns, o.columns, p) && e == UnknownColumn(o.columns[p])
    ensures Dangles(columns, kept + [o], e)
  {
    hide AllKnown, HasColumn;
    var p: nat :| FirstUnknown(columns, o.columns, p) && e == UnknownColumn(o.columns[p]);
    assert (kept + [o])[|kept|] == o;
    assert FirstDangling(columns, kept + [o], |kept|, p);
  }

  lemma {:induction false} SkippedAddsNothing(parts: Parts, table: nat, all: seq<ObservedIndex>, target: Option<Table>,
                                              o: ObservedIndex)
    requires Skipped(target, all, o)
    ensures AddIndex(parts, table, all, target, o) == Ok(parts)
  {
  }

  lemma {:induction false} MadeIsSame(columns: seq<Column>, table: nat, target: Option<Table>, kept: seq<ObservedIndex>,
                                      parts: Parts)
    requires Made(columns, table, target, kept, parts)
    ensures SameApartFromFlags(columns, parts.columns)
    ensures |parts.indices| == |kept| && forall j :: 0 <= j < |kept| ==> parts.indices[j].primaryKey == kept[j].primaryKey
  {
  }

  /** An index among these is primary. */
  predicate HasPrimary(kept: seq<ObservedIndex>) {
    exists j :: 0 <= j < |kept| && kept[j].primaryKey
  }

  lemma {:induction false} FirstPrimaryIff(indices: seq<Index>, kept: seq<ObservedIndex>)
    requires |indices| == |kept| && forall j :: 0 <= j < |kept| ==> indices[j].primaryKey == kept[j].primaryKey
    ensures FirstPrimary(indices).Some? <==> HasPrimary(kept)
  {
    if HasPrimary(kept) {
      var j :| 0 <= j < |kept| && kept[j].primaryKey;
      assert indices[j] in indices;
    }
    if FirstPrimary(indices).Some? {
      var j :| 0 <= j < |indices| && indices[j] == FirstPrimary(indices).value;
      assert kept[j].primaryKey;
    }
  }

  /** Why a table is refused: a type first, then a name that no column has, then the lack of a primary index. */
  ghost predicate TableRefused(o: ObservedTable, target: Option<Table>, typer: Typer, e: Error) {
    var kept := Kept(target, o.indices, o.indices);
    || (exists k: nat :: FirstUntyped(o.columns, target, typer, k, e))
    || (AllTyped(o, target, typer)
        && exists j: nat, p: nat :: FirstMissing(o, kept, j, p) && e == UnknownColumn(kept[j].columns[p]))
    || (AllTyped(o, target, typer) && (forall j :: 0 <= j < |kept| ==> Refers(o, kept[j])) && !HasPrimary(kept)
        && e == NoPrimaryKey(o.name))
  }

  ghost predicate AllTyped(o: ObservedTable, target: Option<Table>, typer: Typer) {
    forall k :: 0 <= k < |o.columns| ==> Typed(o.columns[k], target, typer).Ok?
  }

  predicate Observes(o: ObservedTable, name: string) {
    exists k :: 0 <= k < |o.columns| && o.columns[k].name == name
  }

  predicate Refers(o: ObservedTable, index: ObservedIndex) {
    forall p :: 0 <= p < |index.columns| ==> Observes(o, index.columns[p])
  }

  ghost predicate FirstMissing(o: ObservedTable, kept: seq<ObservedIndex>, j: nat, p: nat) {
    && j < |kept| && p < |kept[j].columns| && !Observes(o, kept[j].columns[p])
    && (forall i :: 0 <= i < p ==> Observes(o, kept[j].columns[i]))
    && forall i :: 0 <= i < j ==> Refers(o, kept[i])
  }

  lemma {:induction false} ObservesIff(o: ObservedTable, columns: seq<Column>)
    requires |columns| == |o.columns| && forall k :: 0 <= k < |columns| ==> columns[k].name == o.columns[k].name
    ensures forall name :: HasColumn(columns, name) <==> Observes(o, name)
  {
    forall name: string ensures HasColumn(columns, name) <==> Observes(o, name) {
      if HasColumn(columns, name) {
        var k :| 0 <= k < |columns| && columns[k].name == name;
        assert o.columns[k].name == name;
      }
      if Observes(o, name) {
        var k :| 0 <= k < |columns| && o.columns[k].name == name;
        assert columns[k].name == name;
      }
    }
  }

  lemma {:induction false} DanglingIsMissing(o: ObservedTable, columns: seq<Column>, kept: seq<ObservedIndex>)
    requires |columns| == |o.columns| && forall k :: 0 <= k < |columns| ==> columns[k].name == o.columns[k].name
    ensures forall j: nat, p: nat :: FirstDangling(columns, kept, j, p) ==> FirstMissing(o, kept, j, p)
    ensures forall j :: 0 <= j < |kept| ==> (AllKnown(columns, kept[j]) <==> Refers(o, kept[j]))
  {
    hide HasColumn, Observes;
    ObservesIff(o, columns);
  }

  /** A table is normalized exactly when every column can be typed, the kept indices name columns that are
      there and one of them is primary; otherwise the first failure in this order is named. */
  lemma {:induction false} TableAnswers(i: nat, o: ObservedTable, target: Option<Table>, typer: Typer)
    ensures var r, kept := NormalTable(i, o, target, typer), Kept(target, o.indices, o.indices);
            && (r.Ok? <==> && AllTyped(o, target, typer) && HasPrimary(kept)
                           && forall j :: 0 <= j < |kept| ==> Refers(o, kept[j]))
            && (r.Err? ==> TableRefused(o, target, typer, r.error))
  {
    hide Columns, Indices, Kept, FirstUntyped, FirstDangling, FirstMissing, FirstPrimary, KeyColumns, Typed, Refers,
         AllKnown, HasPrimary, Made;
    ColumnsAnswer(i, o.columns, target, typer);
    var columns, kept := Columns(i, o.columns, target, typer), Kept(target, o.indices, o.indices);
    if columns.Ok? {
      ColumnFields(i, o.columns, target, typer);
      DanglingIsMissing(o, columns.value, kept);
      IndicesAnswer(columns.value, i, o.indices, target, o.indices);
      var parts := Indices(columns.value, i, o.indices, target, o.indices);
      if parts.Ok? {
        IndicesMade(columns.value, i, o.indices, target, o.indices);
        MadeIsSame(columns.value, i, target, kept, parts.value);
        FirstPrimaryIff(parts.value.indices, kept);
      } else {
        MissingDoesNotRefer(o, kept);
      }
    } else {
      UntypedIsNotTyped(o, target, typer);
    }
  }

  lemma {:induction false} UntypedIsNotTyped(o: ObservedTable, target: Option<Table>, typer: Typer)
    ensures forall k: nat, e :: FirstUntyped(o.columns, target, typer, k, e) ==> !AllTyped(o, target, typer)
  {
  }

  lemma {:induction false} MissingDoesNotRefer(o: ObservedTable, kept: seq<ObservedIndex>)
    ensures forall j: nat, p: nat :: FirstMissing(o, kept, j, p) ==> j < |kept| && !Refers(o, kept[j])
  {
  }

  /** A catalog is normalized exactly when each of its tables is, and the first one that is not decides. */
  lemma {:induction false} SchemaAnswers(observed: ObservedSchema, target: Schema, typer: Typer)
    requires observed.diagnostics == []
    ensures var r := Normalize(observed, target, typer);
            && (r.Ok? <==> forall i :: 0 <= i < |observed.tables| ==> TableAt(observed.tables, target, typer, i).Ok?)
            && (r.Err? ==> exists i: nat :: && i < |observed.tables| && TableAt(observed.tables, target, typer, i) == Err(r.error)
                                            && forall j :: 0 <= j < i ==> TableAt(observed.tables, target, typer, j).Ok?)
  {
    hide NormalTable;
    TablesAnswer(observed.tables, target, typer);
  }

  function TableAt(observed: seq<ObservedTable>, target: Schema, typer: Typer, i: nat): Result<Table, Error>
    requires i < |observed|
  {
    NormalTable(i, observed[i], FindTable(target.tables, observed[i].name), typer)
  }

  ghost predicate FirstRefused(observed: seq<ObservedTable>, target: Schema, typer: Typer, i: nat, e: Error) {
    && i < |observed| && TableAt(observed, target, typer, i) == Err(e)
    && forall j :: 0 <= j < i ==> TableAt(observed, target, typer, j).Ok?
  }

  lemma {:induction false} TablesAnswer(observed: seq<ObservedTable>, target: Schema, typer: Typer)
    ensures var r := Tables(observed, target, typer);
            && (r.Ok? ==> forall i :: 0 <= i < |observed| ==> TableAt(observed, target, typer, i).Ok?)
            && (r.Err? ==> exists i: nat :: FirstRefused(observed, target, typer, i, r.error))
  {
    hide NormalTable;
    if observed != [] {
      var before, r := Tables(Init(observed), target, typer), Tables(observed, target, typer);
      TablesAnswer(Init(observed), target, typer);
      InitLast(observed);
      assert forall i :: 0 <= i < |observed| - 1 ==>
               TableAt(Init(observed), target, typer, i) == TableAt(observed, target, typer, i);
      if before.Err? {
        var i: nat :| FirstRefused(Init(observed), target, typer, i, before.error);
        assert FirstRefused(observed, target, typer, i, r.error);
      } else if r.Err? {
        assert FirstRefused(observed, target, typer, |observed| - 1, r.error);
      }
    }
  }
}
