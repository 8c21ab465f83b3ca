/** The migration lineage on disk: the classifier, the loader and the writer of a generated migration.

    The writer is a sequence of filesystem steps. The process may stop before any of them, and a
    file write that is cut short leaves arbitrary content behind. */
module ArtifactStore {
  import opened Wrappers
  import opened MigrationNames
  import Normalizer = SchemaNormalizer

  type Schema = Normalizer.Schema

  datatype Entry = Entry(id: nat, name: string, snapshotName: string)

  /** A file: its text, and what the parsers of histories and snapshots make of that text. */
  datatype Content = Content(text: string, history: Option<seq<Entry>>, schema: Option<Schema>)

  type Directory = map<string, Content>

  datatype Place = Migrations | Rollbacks | Snapshots

  /** The lineage root; `created` says that the root directory exists. */
  datatype Tree = Tree(created: bool, history: Option<Content>, historyTemp: Option<Content>,
                       migrations: Directory, rollbacks: Directory, snapshots: Directory)

  datatype ArtifactState = Missing | Empty | Ready | Partial | Invalid

  datatype Owned = Owned(id: nat, name: string, sql: string, rollback: Option<string>, snapshotName: Option<string>)

  datatype Error =
    | Stopped
    | BadName(name: string)
    | IdsExhausted
    | WouldOverwrite
    | ForbiddenSql
    | CorruptHistory
    | Unreadable(name: string)
    | DuplicateId(id: nat)
    | DuplicateName(name: string)
    | EmptySql(name: string)
    | NoArtifacts
    | IncompleteLineage

  const MAX_ID: nat := 0xFFFF_FFFF_FFFF_FFFF

  // ---------------------------------------------------------------- the classifier

  /** The files of a directory with the given extension; leftover temporaries end in `.tmp`. */
  function FileNames(d: Directory, extension: string): set<string> {
    set name | name in d && Extension(name) == Some(extension)
  }

  function EntryNames(entries: seq<Entry>): set<string> {
    set k | 0 <= k < |entries| :: entries[k].name
  }

  function SnapshotNames(entries: seq<Entry>): set<string> {
    set k | 0 <= k < |entries| :: entries[k].snapshotName
  }

  /** The first entry that lacks a file or a readable snapshot decides. */
  function CheckEntries(t: Tree, entries: seq<Entry>): (r: ArtifactState)
    ensures r == Ready || r == Partial || r == Invalid
  {
    if entries == [] then Ready
    else if entries[0].name !in t.migrations || entries[0].snapshotName !in t.snapshots then Partial
    else if t.snapshots[entries[0].snapshotName].schema.None? then Invalid
    else CheckEntries(t, entries[1..])
  }

  function WithoutEntries(t: Tree): ArtifactState {
    if t.migrations != map[] || t.snapshots != map[] then Partial else Empty
  }

  function InspectState(t: Tree): ArtifactState {
    if !t.created then Missing
    else if t.history.None? then WithoutEntries(t)
    else if t.history.value.history.None? then Invalid
    else
      var entries := t.history.value.history.value;
      if entries == [] then WithoutEntries(t)
      else if
        || FileNames(t.migrations, "sql") != EntryNames(entries)
        || FileNames(t.snapshots, "toml") != SnapshotNames(entries)
        || !(FileNames(t.rollbacks, "sql") <= EntryNames(entries))
      then Partial
      else CheckEntries(t, entries)
  }

  // ---------------------------------------------------------------- the loader

  /** The first fault among the first `n` files, in list order. */
  function FirstFault(files: seq<Owned>, n: nat): Option<Error>
    requires n <= |files|
  {
    if n == 0 then None
    else
      match FirstFault(files, n - 1)
      case Some(e) => Some(e)
      case None =>
        var m := files[n - 1];
        if exists k :: 0 <= k < n - 1 && files[k].id == m.id then Some(DuplicateId(m.id))
        else if exists k :: 0 <= k < n - 1 && files[k].name == m.name then Some(DuplicateName(m.name))
        else if Blank(m.sql) then Some(EmptySql(m.name))
        else None
  }

  function Validated(files: seq<Owned>): (r: Result<seq<Owned>, Error>)
    ensures r.Ok? ==> r.value == files
  {
    match FirstFault(files, |files|)
    case None => Ok(files)
    case Some(e) => Err(e)
  }

  method NewArtifactSet(files: seq<Owned>) returns (r: Result<seq<Owned>, Error>)
    ensures r == Validated(files)
  {
    var ids: set<nat> := {};
    var names: set<string> := {};
    for i := 0 to |files|
      invariant FirstFault(files, i) == None
      invariant ids == set k | 0 <= k < i :: files[k].id
      invariant names == set k | 0 <= k < i :: files[k].name
    {
      var m := files[i];
      if m.id in ids {
        FaultStays(files, i + 1, |files|);
        return Err(DuplicateId(m.id));
      }
      ids := ids + {m.id};
      if m.name in names {
        FaultStays(files, i + 1, |files|);
        return Err(DuplicateName(m.name));
      }
      names := names + {m.name};
      if Blank(m.sql) {
        FaultStays(files, i + 1, |files|);
        return Err(EmptySql(m.name));
      }
    }
    r := Ok(files);
  }

  lemma {:induction false} FaultStays(files: seq<Owned>, n: nat, m: nat)
    requires n <= m <= |files| && FirstFault(files, n).Some?
    ensures FirstFault(files, m) == FirstFault(files, n)
  {
    hide Blank;
    if n < m { FaultStays(files, n, m - 1); }
  }

  function OwnedFile(t: Tree, entry: Entry): Owned
    requires entry.name in t.migrations
  {
    Owned(entry.id, entry.name, t.migrations[entry.name].text,
          if entry.name in t.rollbacks then Some(t.rollbacks[entry.name].text) else None,
          Some(entry.snapshotName))
  }

  /** The files of the first `n` entries. */
  function FilesOf(t: Tree, entries: seq<Entry>, n: nat): (r: Result<seq<Owned>, Error>)
    requires n <= |entries|
    ensures r.Ok? ==> |r.value| == n
  {
    if n == 0 then Ok([])
    else
      match FilesOf(t, entries, n - 1)
      case Err(e) => Err(e)
      case Ok(files) =>
        if entries[n - 1].name !in t.migrations then Err(Unreadable(entries[n - 1].name))
        else Ok(files + [OwnedFile(t, entries[n - 1])])
  }

  function FromEntries(t: Tree, entries: seq<Entry>): Result<seq<Owned>, Error> {
    match FilesOf(t, entries, |entries|)
    case Err(e) => Err(e)
    case Ok(files) => Validated(files)
  }

  method FromHistory(t: Tree, entries: seq<Entry>) returns (r: Result<seq<Owned>, Error>)
    ensures r == FromEntries(t, entries)
  {
    var files: seq<Owned> := [];
    for i := 0 to |entries|
      invariant FilesOf(t, entries, i) == Ok(files)
    {
      if entries[i].name !in t.migrations {
        UnreadableStays(t, entries, i + 1);
        return Err(Unreadable(entries[i].name));
      }
      files := files + [OwnedFile(t, entries[i])];
    }
    r := NewArtifactSet(files);
  }

  lemma {:induction false} UnreadableStays(t: Tree, entries: seq<Entry>, n: nat)
    requires n <= |entries| && FilesOf(t, entries, n).Err?
    ensures FilesOf(t, entries, |entries|) == FilesOf(t, entries, n)
    decreases |entries| - n
  {
    if n < |entries| {
      assert FilesOf(t, entries, n + 1) == FilesOf(t, entries, n);
      UnreadableStays(t, entries, n + 1);
    }
  }

  /** The recorded history; a missing file is an empty history. */
  function LoadHistory(t: Tree): Result<seq<Entry>, Error> {
    match t.history
    case None => Ok([])
    case Some(content) => if content.history.Some? then Ok(content.history.value) else Err(CorruptHistory)
  }

  function Load(t: Tree): Result<seq<Owned>, Error> {
    match LoadHistory(t)
    case Err(e) => Err(e)
    case Ok(entries) => FromEntries(t, entries)
  }

  /** What apply and rollback work from: only a ready lineage is loaded. */
  function ResolveArtifacts(t: Tree): Result<seq<Owned>, Error> {
    match InspectState(t)
    case Ready => Load(t)
    case Missing => Err(NoArtifacts)
    case Empty => Err(NoArtifacts)
    case Partial => Err(IncompleteLineage)
    case Invalid => Err(IncompleteLineage)
  }

  // ---------------------------------------------------------------- filesystem steps

  datatype FsOp =
    | MakeDirectory(place: Place)
    | WriteFile(place: Place, name: string, content: Content)
    | WriteHistoryTemp(content: Content)
    | RenameFile(place: Place, from: string, to: string)
    | RenameHistory

  function Dir(t: Tree, place: Place): Directory {
    match place
    case Migrations => t.migrations
    case Rollbacks => t.rollbacks
    case Snapshots => t.snapshots
  }

  function WithDir(t: Tree, place: Place, d: Directory): Tree {
    match place
    case Migrations => t.(migrations := d)
    case Rollbacks => t.(rollbacks := d)
    case Snapshots => t.(snapshots := d)
  }

  function Perform(t: Tree, op: FsOp): Tree {
    match op
    case MakeDirectory(_) => t.(created := true)
    case WriteFile(place, name, content) => WithDir(t, place, Dir(t, place)[name := content])
    case WriteHistoryTemp(content) => t.(historyTemp := Some(content))
    case RenameFile(place, from, to) =>
      if from in Dir(t, place) then
        WithDir(t, place, (Dir(t, place) - {from})[to := Dir(t, place)[from]])
      else t
    case RenameHistory =>
      if t.historyTemp.Some? then t.(history := t.historyTemp, historyTemp := None) else t
  }

  /** The tree after the first `k` steps. */
  function RunTo(t: Tree, ops: seq<FsOp>, k: nat): Tree
    requires k <= |ops|
  {
    if k == 0 then t else Perform(RunTo(t, ops, k - 1), ops[k - 1])
  }

  // ---------------------------------------------------------------- the writer

  /** A generation request: the SQL both ways, the new snapshot, how the serializers render the
      snapshot and the extended history, and what a cut-off write leaves in each of the four files. */
  datatype Request = Request(
    source: string, name: string, sql: string, rollbackSql: string,
    snapshotText: string, schema: Schema, historyText: string, torn: (Content, Content, Content, Content))

  datatype Names = Names(id: nat, migration: string, snapshot: string)

  function Temp(name: string): string { "." + name + ".tmp" }

  function NextId(entries: seq<Entry>): Result<nat, Error> {
    if entries == [] then Ok(1)
    else if entries[|entries| - 1].id >= MAX_ID then Err(IdsExhausted)
    else Ok(entries[|entries| - 1].id + 1)
  }

  function NamesFor(entries: seq<Entry>, source: string, name: string): Result<Names, Error> {
    match NextId(entries)
    case Err(e) => Err(e)
    case Ok(id) =>
      match (Slug(name), Slug(source))
      case (None, _) => Err(BadName(name))
      case (Some(_), None) => Err(BadName(source))
      case (Some(slug), Some(src)) =>
        var stem := src + "_" + DecimalDigits(id) + "_" + slug;
        Ok(Names(id, stem + "." + "sql", stem + "." + "toml"))
  }

  predicate WouldClash(t: Tree, names: Names) {
    || names.migration in t.migrations || names.migration in t.rollbacks || names.snapshot in t.snapshots
    || Temp(names.migration) in t.migrations || Temp(names.migration) in t.rollbacks
    || Temp(names.snapshot) in t.snapshots || t.historyTemp.Some?
  }

  const DIRECTORIES: seq<FsOp> := [MakeDirectory(Migrations), MakeDirectory(Rollbacks), MakeDirectory(Snapshots)]

  function SqlFile(sql: string): Content {
    Content(NormalizeSql(sql) + "\n", None, None)
  }

  function NewEntry(names: Names): Entry {
    Entry(names.id, names.migration, names.snapshot)
  }

  /** Four temporaries, each first torn and then complete; then four renames, the history last. */
  function Publication(entries: seq<Entry>, names: Names, q: Request): (r: seq<FsOp>)
    ensures |r| == 12
  {
    [WriteFile(Migrations, Temp(names.migration), q.torn.0),
     WriteFile(Migrations, Temp(names.migration), SqlFile(q.sql)),
     WriteFile(Rollbacks, Temp(names.migration), q.torn.1),
     WriteFile(Rollbacks, Temp(names.migration), SqlFile(q.rollbackSql)),
     WriteFile(Snapshots, Temp(names.snapshot), q.torn.2),
     WriteFile(Snapshots, Temp(names.snapshot), Content(q.snapshotText, None, Some(q.schema))),
     WriteHistoryTemp(q.torn.3),
     WriteHistoryTemp(Content(q.historyText, Some(entries + [NewEntry(names)]), None)),
     RenameFile(Migrations, Temp(names.migration), names.migration),
     RenameFile(Rollbacks, Temp(names.migration), names.migration),
     RenameFile(Snapshots, Temp(names.snapshot), names.snapshot),
     RenameHistory]
  }

  /** The tree and the result when the process stops after `steps` filesystem steps. */
  function Written(t: Tree, entries: seq<Entry>, q: Request, steps: nat): (Tree, Result<Names, Error>) {
    match NamesFor(entries, q.source, q.name)
    case Err(e) => (t, Err(e))
    case Ok(names) =>
      if steps < 3 then (RunTo(t, DIRECTORIES, steps), Err(Stopped))
      else
        var ready := RunTo(t, DIRECTORIES, 3);
        if WouldClash(ready, names) then (ready, Err(WouldOverwrite))
        else if !ValidSql(q.sql) || !ValidSql(q.rollbackSql) then (ready, Err(ForbiddenSql))
        else
          var ops := Publication(entries, names, q);
          if steps < 15 then (RunTo(ready, ops, steps - 3), Err(Stopped))
          else (RunTo(ready, ops, 12), Ok(names))
  }

  lemma {:induction false} TemporaryWrites(entries: seq<Entry>, names: Names, q: Request)
    ensures var ops := Publication(entries, names, q);
            && ops[0] == WriteFile(Migrations, Temp(names.migration), q.torn.0)
            && ops[1] == WriteFile(Migrations, Temp(names.migration), SqlFile(q.sql))
            && ops[2] == WriteFile(Rollbacks, Temp(names.migration), q.torn.1)
            && ops[3] == WriteFile(Rollbacks, Temp(names.migration), SqlFile(q.rollbackSql))
            && ops[4] == WriteFile(Snapshots, Temp(names.snapshot), q.torn.2)
            && ops[5] == WriteFile(Snapshots, Temp(names.snapshot), Content(q.snapshotText, None, Some(q.schema)))
            && ops[6] == WriteHistoryTemp(q.torn.3)
            && ops[7] == WriteHistoryTemp(Content(q.historyText, Some(entries + [NewEntry(names)]), None))
  {
    hide Temp, SqlFile, NewEntry;
  }

  class ArtifactRoot {
    var tree: Tree

    /** How many more filesystem steps the process will take. */
    var steps: nat

    constructor (tree: Tree, steps: nat)
      ensures this.tree == tree && this.steps == steps
    {
      this.tree, this.steps := tree, steps;
    }

    /** Carries out step `k` of a sequence that started at `start`. */
    method Do(op: FsOp, ghost start: Tree, ghost ops: seq<FsOp>, ghost k: nat) returns (r: Result<(), Error>)
      requires k < |ops| && ops[k] == op && tree == RunTo(start, ops, k)
      modifies this
      ensures old(steps) == 0 ==> r == Err(Stopped) && tree == old(tree) && steps == 0
      ensures old(steps) > 0 ==> r == Ok(()) && tree == RunTo(start, ops, k + 1) && steps == old(steps) - 1
    {
      if steps == 0 {
        return Err(Stopped);
      }
      tree := Perform(tree, op);
      steps := steps - 1;
      r := Ok(());
    }

    /** A write that may be cut short after the file has been created. */
    method Save(torn: FsOp, whole: FsOp, ghost start: Tree, ghost ops: seq<FsOp>, ghost k: nat)
      returns (r: Result<(), Error>)
      requires k + 1 < |ops| && ops[k] == torn && ops[k + 1] == whole && tree == RunTo(start, ops, k)
      modifies this
      ensures old(steps) < 2 ==> r == Err(Stopped) && tree == RunTo(start, ops, k + old(steps)) && steps == 0
      ensures old(steps) >= 2 ==> r == Ok(()) && tree == RunTo(start, ops, k + 2) && steps == old(steps) - 2
    {
      var _ :- Do(torn, start, ops, k);
      r := Do(whole, start, ops, k + 1);
    }

    method SaveTemporaries(names: Names, q: Request, entries: seq<Entry>, ghost ready: Tree, ghost ops: seq<FsOp>)
      returns (r: Result<(), Error>)
      requires ops == Publication(entries, names, q) && tree == RunTo(ready, ops, 0)
      modifies this
      ensures old(steps) < 8 ==> r == Err(Stopped) && tree == RunTo(ready, ops, old(steps)) && steps == 0
      ensures old(steps) >= 8 ==> r == Ok(()) && tree == RunTo(ready, ops, 8) && steps == old(steps) - 8
    {
      hide RunTo, Temp, SqlFile, NewEntry, Publication;
      TemporaryWrites(entries, names, q);
      var _ :- Save(WriteFile(Migrations, Temp(names.migration), q.torn.0),
                    WriteFile(Migrations, Temp(names.migration), SqlFile(q.sql)), ready, ops, 0);
      var _ :- Save(WriteFile(Rollbacks, Temp(names.migration), q.torn.1),
                    WriteFile(Rollbacks, Temp(names.migration), SqlFile(q.rollbackSql)), ready, ops, 2);
      var _ :- Save(WriteFile(Snapshots, Temp(names.snapshot), q.torn.2),
                    WriteFile(Snapshots, Temp(names.snapshot), Content(q.snapshotText, None, Some(q.schema))),
                    ready, ops, 4);
      r := Save(WriteHistoryTemp(q.torn.3),
                WriteHistoryTemp(Content(q.historyText, Some(entries + [NewEntry(names)]), None)), ready, ops, 6);
    }

    method Publish(names: Names, ghost q: Request, ghost entries: seq<Entry>, ghost ready: Tree, ghost ops: seq<FsOp>)
      returns (r: Result<(), Error>)
      requires ops == Publication(entries, names, q) && tree == RunTo(ready, ops, 8)
      modifies this
      ensures old(steps) < 4 ==> r == Err(Stopped) && tree == RunTo(ready, ops, 8 + old(steps)) && steps == 0
      ensures old(steps) >= 4 ==> r == Ok(()) && tree == RunTo(ready, ops, 12) && steps == old(steps) - 4
    {
      hide RunTo, Temp, SqlFile, NewEntry;
      var _ :- Do(RenameFile(Migrations, Temp(names.migration), names.migration), ready, ops, 8);
      var _ :- Do(RenameFile(Rollbacks, Temp(names.migration), names.migration), ready, ops, 9);
      var _ :- Do(RenameFile(Snapshots, Temp(names.snapshot), names.snapshot), ready, ops, 10);
      r := Do(RenameHistory, ready, ops, 11);
    }

    method WriteGenerated(entries: seq<Entry>, q: Request) returns (r: Result<Names, Error>)
      modifies this
      ensures (tree, r) == Written(old(tree), entries, q, old(steps))
    {
      hide RunTo, Slug, ValidSql, Publication, WouldClash, NamesFor;
      ghost var start := tree;
      var names :- NamesFor(entries, q.source, q.name);
      RunToZero(start, DIRECTORIES);
      var _ :- Do(MakeDirectory(Migrations), start, DIRECTORIES, 0);
      var _ :- Do(MakeDirectory(Rollbacks), start, DIRECTORIES, 1);
      var _ :- Do(MakeDirectory(Snapshots), start, DIRECTORIES, 2);
      if WouldClash(tree, names) {
        return Err(WouldOverwrite);
      }
      if !ValidSql(q.sql) || !ValidSql(q.rollbackSql) {
        return Err(ForbiddenSql);
      }
      ghost var ops := Publication(entries, names, q);
      ghost var ready := tree;
      RunToZero(ready, ops);
      var _ :- SaveTemporaries(names, q, entries, ready, ops);
      var _ :- Publish(names, q, entries, ready, ops);
      r := Ok(names);
    }
  }

  lemma {:induction false} RunToZero(t: Tree, ops: seq<FsOp>)
    ensures RunTo(t, ops, 0) == t
  {
  }
}
