/** No crash of the writer makes a torn lineage look ready. */
module ArtifactLaws {
  import opened Wrappers
  import opened MigrationNames
  import opened ArtifactStore

  // ---------------------------------------------------------------- names of a new migration

  ghost predicate NameShapes(names: Names) {
    && Extension(names.migration) == Some("sql") && Extension(names.snapshot) == Some("toml")
    && Extension(Temp(names.migration)) == Some("tmp") && Extension(Temp(names.snapshot)) == Some("tmp")
  }

  lemma {:induction false} NamesHaveShapes(entries: seq<Entry>, source: string, name: string)
    requires NamesFor(entries, source, name).Ok?
    ensures NameShapes(NamesFor(entries, source, name).value)
  {
    hide Slug, Extension, DecimalDigits, NextId;
    var names := NamesFor(entries, source, name).value;
    var stem := Slug(source).value + "_" + DecimalDigits(names.id) + "_" + Slug(name).value;
    ExtensionIs(stem, "sql");
    ExtensionIs(stem, "toml");
    ExtensionIs("." + names.migration, "tmp");
    ExtensionIs("." + names.snapshot, "tmp");
    assert Temp(names.migration) == "." + names.migration + "." + "tmp";
    assert Temp(names.snapshot) == "." + names.snapshot + "." + "tmp";
  }

  // ---------------------------------------------------------------- the tree at each crash point

  lemma {:induction false} DirectoriesOnlyCreate(t: Tree, k: nat)
    requires k <= 3
    ensures RunTo(t, DIRECTORIES, k) == if k == 0 then t else t.(created := true)
  {
    if k > 0 { DirectoriesOnlyCreate(t, k - 1); }
  }

  ghost function FileAfter(d: Directory, temp: string, name: string, torn: Content, whole: Content, at: int,
                           renamed: int,
                           k: int): Directory
  {
    if k <= at then d
    else if k == at + 1 then d[temp := torn]
    else if k < renamed then d[temp := whole]
    else d[name := whole]
  }

  /** The tree after `k` of the twelve publication steps. */
  ghost function TreeAfter(t: Tree, entries: seq<Entry>, names: Names, q: Request, k: int): Tree {
    var whole := Content(q.historyText, Some(entries + [NewEntry(names)]), None);
    t.(migrations := FileAfter(t.migrations, Temp(names.migration), names.migration, q.torn.0, SqlFile(q.sql), 0, 9, k),
       rollbacks := FileAfter(t.rollbacks, Temp(names.migration), names.migration, q.torn.1, SqlFile(q.rollbackSql), 2, 10, k),
       snapshots := FileAfter(t.snapshots, Temp(names.snapshot), names.snapshot, q.torn.2,
                              Content(q.snapshotText, None, Some(q.schema)), 4, 11, k),
       historyTemp := if k <= 6 || k == 12 then None else if k == 7 then Some(q.torn.3) else Some(whole),
       history := if k == 12 then Some(whole) else t.history)
  }

  lemma {:induction false} RenamesTemp(d: Directory, temp: string, name: string, c: Content)
    requires temp !in d && temp != name
    ensures (d[temp := c] - {temp})[name := d[temp := c][temp]] == d[name := c]
  {
  }

  lemma {:induction false} TemporariesDiffer(names: Names)
    requires NameShapes(names)
    ensures Temp(names.migration) != names.migration && Temp(names.snapshot) != names.snapshot
  {
  }

  lemma {:induction false} SavesSql(t: Tree, entries: seq<Entry>, names: Names, q: Request, k: nat)
    requires k < 4 && NameShapes(names) && !WouldClash(t, names)
    ensures Perform(TreeAfter(t, entries, names, q, k), Publication(entries, names, q)[k])
         == TreeAfter(t, entries, names, q, k + 1)
  {
    hide Extension, SqlFile, NewEntry, Temp, NameShapes;
    TemporariesDiffer(names);
  }

  lemma {:induction false} SavesRecords(t: Tree, entries: seq<Entry>, names: Names, q: Request, k: nat)
    requires 4 <= k < 8 && NameShapes(names) && !WouldClash(t, names)
    ensures Perform(TreeAfter(t, entries, names, q, k), Publication(entries, names, q)[k])
         == TreeAfter(t, entries, names, q, k + 1)
  {
    hide Extension, SqlFile, NewEntry, Temp, NameShapes;
    TemporariesDiffer(names);
  }

  lemma {:induction false} PublishesFile(t: Tree, entries: seq<Entry>, names: Names, q: Request, k: nat)
    requires 8 <= k < 12 && NameShapes(names) && !WouldClash(t, names)
    ensures Perform(TreeAfter(t, entries, names, q, k), Publication(entries, names, q)[k])
         == TreeAfter(t, entries, names, q, k + 1)
  {
    hide Extension, SqlFile, NewEntry, Temp, NameShapes;
    TemporariesDiffer(names);
    var mt, st := Temp(names.migration), Temp(names.snapshot);
    RenamesTemp(t.migrations, mt, names.migration, SqlFile(q.sql));
    RenamesTemp(t.rollbacks, mt, names.migration, SqlFile(q.rollbackSql));
    RenamesTemp(t.snapshots, st, names.snapshot, Content(q.snapshotText, None, Some(q.schema)));
  }

  lemma {:induction false} PublicationStep(t: Tree, entries: seq<Entry>, names: Names, q: Request, k: nat)
    requires k < 12 && NameShapes(names) && !WouldClash(t, names)
    ensures Perform(TreeAfter(t, entries, names, q, k), Publication(entries, names, q)[k])
         == TreeAfter(t, entries, names, q, k + 1)
  {
    hide Perform, TreeAfter, Publication, WouldClash, NameShapes;
    if k < 4 { SavesSql(t, entries, names, q, k); }
    else if k < 8 { SavesRecords(t, entries, names, q, k); }
    else { PublishesFile(t, entries, names, q, k); }
  }

  lemma {:induction false} PublicationTree(t: Tree, entries: seq<Entry>, names: Names, q: Request, k: nat)
    requires k <= 12 && NameShapes(names) && !WouldClash(t, names)
    ensures RunTo(t, Publication(entries, names, q), k) == TreeAfter(t, entries, names, q, k)
  {
    if k == 0 {
    } else {
      hide TreeAfter, Publication, WouldClash, NameShapes;
      PublicationTree(t, entries, names, q, k - 1);
      PublicationStep(t, entries, names, q, k - 1);
    }
  }

  // ---------------------------------------------------------------- what classification and loading look at

  /** `t'` holds the files of the given entries as `t` does. */
  ghost predicate SameFiles(t: Tree, t': Tree, entries: seq<Entry>) {
    forall k :: 0 <= k < |entries| ==>
      && entries[k].name in t.migrations && entries[k].name in t'.migrations
      && t'.migrations[entries[k].name] == t.migrations[entries[k].name]
      && (entries[k].name in t'.rollbacks <==> entries[k].name in t.rollbacks)
      && (entries[k].name in t.rollbacks ==> t'.rollbacks[entries[k].name] == t.rollbacks[entries[k].name])
      && entries[k].snapshotName in t.snapshots && entries[k].snapshotName in t'.snapshots
      && t'.snapshots[entries[k].snapshotName] == t.snapshots[entries[k].snapshotName]
  }

  lemma {:induction false} SameFilesCheck(t: Tree, t': Tree, entries: seq<Entry>, more: seq<Entry>)
    requires SameFiles(t, t', entries) && CheckEntries(t, entries) == Ready
    ensures CheckEntries(t', entries + more) == CheckEntries(t', more)
  {
    if entries == [] {
      assert entries + more == more;
    } else {
      assert (entries + more)[0] == entries[0] && (entries + more)[1..] == entries[1..] + more;
      SameFilesCheck(t, t', entries[1..], more);
    }
  }

  lemma {:induction false} SameFilesLoad(t: Tree, t': Tree, entries: seq<Entry>, more: seq<Entry>, n: nat)
    requires SameFiles(t, t', entries) && n <= |entries|
    ensures FilesOf(t, entries, n).Ok? && FilesOf(t', entries + more, n) == FilesOf(t, entries, n)
  {
    if n > 0 { SameFilesLoad(t, t', entries, more, n - 1); }
  }

  /** The files of a ready lineage are there, under the names that its history lists. */
  lemma {:induction false} ReadyFiles(t: Tree, entries: seq<Entry>)
    requires InspectState(t) == Ready && LoadHistory(t) == Ok(entries)
    ensures forall k :: 0 <= k < |entries| ==>
              && entries[k].name in t.migrations && Extension(entries[k].name) == Some("sql")
              && entries[k].snapshotName in t.snapshots && Extension(entries[k].snapshotName) == Some("toml")
    ensures CheckEntries(t, entries) == Ready
  {
    forall k | 0 <= k < |entries|
      ensures && entries[k].name in t.migrations && Extension(entries[k].name) == Some("sql")
              && entries[k].snapshotName in t.snapshots && Extension(entries[k].snapshotName) == Some("toml")
    {
      assert entries[k].name in EntryNames(entries) && entries[k].snapshotName in SnapshotNames(entries);
    }
  }

  lemma {:induction false} PublicationKeepsFiles(t: Tree, entries: seq<Entry>, names: Names, q: Request, k: nat)
    requires k <= 12 && NameShapes(names) && !WouldClash(t, names)
    requires InspectState(t) == Ready && LoadHistory(t) == Ok(entries)
    ensures SameFiles(t, TreeAfter(t, entries, names, q, k), entries)
  {
    ReadyFiles(t, entries);
    hide Extension, Temp, InspectState;
  }

  lemma {:induction false} FileNamesAfter(d: Directory, temp: string, name: string, extension: string, torn: Content,
                                          whole: Content, at: int, renamed: int, k: int)
    requires Extension(temp) == Some("tmp") && Extension(name) == Some(extension) && extension != "tmp"
    requires at + 2 <= renamed
    ensures FileNames(FileAfter(d, temp, name, torn, whole, at, renamed, k), extension)
         == FileNames(d, extension) + if k < renamed then {} else {name}
  {
    hide Extension;
  }

  lemma {:induction false} NamesOfLonger(entries: seq<Entry>, e: Entry)
    ensures EntryNames(entries + [e]) == EntryNames(entries) + {e.name}
    ensures SnapshotNames(entries + [e]) == SnapshotNames(entries) + {e.snapshotName}
  {
    var longer := entries + [e];
    assert longer[|entries|] == e;
    forall k | 0 <= k < |entries| ensures longer[k].name in EntryNames(longer) && longer[k].snapshotName in SnapshotNames(longer) {
    }
    assert forall k :: 0 <= k < |entries| ==> entries[k] == longer[k];
  }

  /** The listed names of all three directories after `k` publication steps. */
  lemma {:induction false} ListingsAfter(t: Tree, entries: seq<Entry>, names: Names, q: Request, k: nat)
    requires k <= 12 && NameShapes(names)
    ensures var t' := TreeAfter(t, entries, names, q, k);
            && FileNames(t'.migrations, "sql") == FileNames(t.migrations, "sql") + (if k < 9 then {} else {names.migration})
            && FileNames(t'.rollbacks, "sql") == FileNames(t.rollbacks, "sql") + (if k < 10 then {} else {names.migration})
            && FileNames(t'.snapshots, "toml") == FileNames(t.snapshots, "toml") + (if k < 11 then {} else {names.snapshot})
  {
    hide Extension, Temp, FileNames, FileAfter;
    FileNamesAfter(t.migrations, Temp(names.migration), names.migration, "sql", q.torn.0, SqlFile(q.sql), 0, 9, k);
    FileNamesAfter(t.rollbacks, Temp(names.migration), names.migration, "sql", q.torn.1, SqlFile(q.rollbackSql), 2, 10, k);
    FileNamesAfter(t.snapshots, Temp(names.snapshot), names.snapshot, "toml", q.torn.2,
                   Content(q.snapshotText, None, Some(q.schema)), 4, 11, k);
  }

  /** A lineage the writer may start from, and a writer that passed its overwrite check. */
  ghost predicate Startable(t: Tree, entries: seq<Entry>, names: Names) {
    && t.created && (InspectState(t) == Ready || InspectState(t) == Empty)
    && LoadHistory(t) == Ok(entries)
    && NameShapes(names) && !WouldClash(t, names)
  }

  /** The files of the rollback directory belong to recorded migrations. */
  ghost predicate NoStrayRollbacks(t: Tree, entries: seq<Entry>) {
    FileNames(t.rollbacks, "sql") <= EntryNames(entries)
  }

  /** The directories list what the history does. */
  ghost predicate Listed(t: Tree, entries: seq<Entry>) {
    && FileNames(t.migrations, "sql") == EntryNames(entries)
    && FileNames(t.snapshots, "toml") == SnapshotNames(entries)
    && NoStrayRollbacks(t, entries)
  }

  lemma {:induction false} Classified(t: Tree, entries: seq<Entry>)
    requires t.created && LoadHistory(t) == Ok(entries) && entries != []
    ensures InspectState(t) == if Listed(t, entries) then CheckEntries(t, entries) else Partial
  {
    hide CheckEntries, FileNames, EntryNames, SnapshotNames;
  }

  lemma {:induction false} ReadyHasEntries(t: Tree, entries: seq<Entry>)
    requires LoadHistory(t) == Ok(entries)
    ensures InspectState(t) == Ready ==> entries != [] && Listed(t, entries)
    ensures InspectState(t) == Empty ==> entries == [] && t.migrations == map[] && t.snapshots == map[]
  {
    hide FileNames, EntryNames, SnapshotNames, CheckEntries;
  }

  lemma {:induction false} NewNamesUnlisted(t: Tree, names: Names)
    requires !WouldClash(t, names)
    ensures names.migration !in FileNames(t.migrations, "sql") && names.migration !in FileNames(t.rollbacks, "sql")
  {
  }

  lemma {:induction false} ListedUntilPublished(t: Tree, entries: seq<Entry>, names: Names, q: Request, k: nat)
    requires k < 12 && NameShapes(names) && !WouldClash(t, names) && Listed(t, entries)
    ensures Listed(TreeAfter(t, entries, names, q, k), entries) <==> k < 9
  {
    hide Extension, Temp, FileNames, EntryNames, SnapshotNames, WouldClash, TreeAfter, NameShapes;
    NewNamesUnlisted(t, names);
    ListingsAfter(t, entries, names, q, k);
  }

  lemma {:induction false} StillChecks(t: Tree, entries: seq<Entry>, names: Names, q: Request, k: nat)
    requires k <= 12 && Startable(t, entries, names) && InspectState(t) == Ready
    ensures CheckEntries(TreeAfter(t, entries, names, q, k), entries) == Ready
  {
    hide Extension, Temp, FileNames, FileAfter, EntryNames, SnapshotNames, CheckEntries, SameFiles, WouldClash,
         InspectState, TreeAfter, LoadHistory, NameShapes;
    var t' := TreeAfter(t, entries, names, q, k);
    ReadyFiles(t, entries);
    PublicationKeepsFiles(t, entries, names, q, k);
    SameFilesCheck(t, t', entries, []);
    assert entries + [] == entries;
    NothingToCheck(t');
  }

  lemma {:induction false} StateFromReady(t: Tree, entries: seq<Entry>, names: Names, q: Request, k: nat)
    requires k < 12 && Startable(t, entries, names) && InspectState(t) == Ready
    ensures InspectState(TreeAfter(t, entries, names, q, k)) == if k < 9 then Ready else Partial
  {
    var t' := TreeAfter(t, entries, names, q, k);
    assert t'.created && LoadHistory(t') == Ok(entries);
    hide *;
    ReadyHasEntries(t, entries);
    StillChecks(t, entries, names, q, k);
    Classified(t', entries);
    ListedUntilPublished(t, entries, names, q, k);
  }

  lemma {:induction false} NothingToCheck(t: Tree)
    ensures CheckEntries(t, []) == Ready
  {
  }

  lemma {:induction false} StateFromEmpty(t: Tree, entries: seq<Entry>, names: Names, q: Request, k: nat)
    requires k < 12 && Startable(t, entries, names) && InspectState(t) == Empty
    ensures entries == []
    ensures InspectState(TreeAfter(t, entries, names, q, k)) == if k == 0 then Empty else Partial
  {
    var t' := TreeAfter(t, entries, names, q, k);
    ReadyHasEntries(t, entries);
    hide Extension, Temp, FileNames, CheckEntries, WouldClash;
    if 0 < k <= 8 {
      assert Temp(names.migration) in t'.migrations;
    } else if k > 0 {
      assert names.migration in t'.migrations;
    }
  }

  lemma {:induction false} NewEntryChecks(t: Tree, entries: seq<Entry>, names: Names, q: Request)
    ensures CheckEntries(TreeAfter(t, entries, names, q, 12), [NewEntry(names)]) == Ready
  {
    hide Temp;
    assert [NewEntry(names)][1..] == [];
    NothingToCheck(TreeAfter(t, entries, names, q, 12));
  }

  lemma {:induction false} NothingListed(t: Tree)
    requires t.migrations == map[] && t.snapshots == map[]
    ensures FileNames(t.migrations, "sql") == EntryNames([]) && FileNames(t.snapshots, "toml") == SnapshotNames([])
  {
  }

  lemma {:induction false} StateWhenPublished(t: Tree, entries: seq<Entry>, names: Names, q: Request)
    requires Startable(t, entries, names)
    ensures InspectState(t) == Ready ==> NoStrayRollbacks(t, entries)
    ensures InspectState(TreeAfter(t, entries, names, q, 12)) == if NoStrayRollbacks(t, entries) then Ready else Partial
  {
    var t' := TreeAfter(t, entries, names, q, 12);
    var e := NewEntry(names);
    assert t'.created && LoadHistory(t') == Ok(entries + [e]);
    assert e.name == names.migration && e.snapshotName == names.snapshot;
    hide Extension, Temp, FileNames, FileAfter, EntryNames, SnapshotNames, CheckEntries, SameFiles, WouldClash,
         InspectState, TreeAfter, LoadHistory, NameShapes, NewEntry;
    NewNamesUnlisted(t, names);
    ListingsAfter(t, entries, names, q, 12);
    NamesOfLonger(entries, e);
    NewEntryChecks(t, entries, names, q);
    ReadyHasEntries(t, entries);
    if InspectState(t) == Ready {
      ReadyFiles(t, entries);
      PublicationKeepsFiles(t, entries, names, q, 12);
      SameFilesCheck(t, t', entries, [e]);
    } else {
      NothingListed(t);
      assert [] + [e] == [e];
    }
    Classified(t', entries + [e]);
    assert NoStrayRollbacks(t, entries) <==> NoStrayRollbacks(t', entries + [e]);
  }

  // ---------------------------------------------------------------- what a lineage loads as

  ghost function NewFile(names: Names, q: Request): Owned {
    Owned(names.id, names.migration, SqlFile(q.sql).text, Some(SqlFile(q.rollbackSql).text), Some(names.snapshot))
  }

  lemma {:induction false} LoadsUnchanged(t: Tree, entries: seq<Entry>, names: Names, q: Request, k: nat)
    requires k < 12 && Startable(t, entries, names) && InspectState(t) == Ready
    ensures Load(TreeAfter(t, entries, names, q, k)) == Load(t)
  {
    var t' := TreeAfter(t, entries, names, q, k);
    assert LoadHistory(t') == Ok(entries);
    PublicationKeepsFiles(t, entries, names, q, k);
    SameFilesLoad(t, t', entries, [], |entries|);
    assert entries + [] == entries;
    hide Extension, Temp, FileAfter, SameFiles, WouldClash, InspectState, TreeAfter, LoadHistory, NameShapes, FilesOf, Validated;
  }

  lemma {:induction false} NewEntryLoads(t: Tree, entries: seq<Entry>, names: Names, q: Request, files: seq<Owned>)
    requires FilesOf(TreeAfter(t, entries, names, q, 12), entries + [NewEntry(names)], |entries|) == Ok(files)
    ensures FromEntries(TreeAfter(t, entries, names, q, 12), entries + [NewEntry(names)])
         == Validated(files + [NewFile(names, q)])
  {
    var t' := TreeAfter(t, entries, names, q, 12);
    var longer := entries + [NewEntry(names)];
    hide Temp, SqlFile;
    assert longer[|longer| - 1] == NewEntry(names);
    assert OwnedFile(t', NewEntry(names)) == NewFile(names, q);
    hide TreeAfter, OwnedFile, NewEntry, NewFile, Validated;
    assert FilesOf(t', longer, |longer|) == Ok(files + [OwnedFile(t', longer[|longer| - 1])]);
  }

  /** The files of an accepted old lineage. */
  ghost function OldFiles(t: Tree): Result<seq<Owned>, Error> {
    if InspectState(t) == Ready then Load(t) else Ok([])
  }

  /** What a validated set is: distinct ids, distinct names and no blank SQL. */
  ghost predicate Acceptable(files: seq<Owned>, n: nat)
    requires n <= |files|
  {
    && (forall i, j :: 0 <= i < j < n ==> files[i].id != files[j].id && files[i].name != files[j].name)
    && forall i :: 0 <= i < n ==> !Blank(files[i].sql)
  }

  lemma {:induction false} FaultlessIffAcceptable(files: seq<Owned>, n: nat)
    requires n <= |files|
    ensures FirstFault(files, n) == None <==> Acceptable(files, n)
  {
    hide Blank;
    if n > 0 { FaultlessIffAcceptable(files, n - 1); }
  }

  lemma {:induction false} FirstFaultPrefix(files: seq<Owned>, more: seq<Owned>, n: nat)
    requires n <= |files|
    ensures FirstFault(files + more, n) == FirstFault(files, n)
  {
    if n > 0 {
      FirstFaultPrefix(files, more, n - 1);
      assert forall k :: 0 <= k < n ==> (files + more)[k] == files[k];
    }
  }

  ghost predicate HasId(files: seq<Owned>, id: nat) {
    exists k :: 0 <= k < |files| && files[k].id == id
  }

  lemma {:induction false} ValidatedLonger(files: seq<Owned>, new_: Owned)
    requires !Blank(new_.sql) && forall k :: 0 <= k < |files| ==> files[k].name != new_.name
    ensures Validated(files + [new_]) ==
              match Validated(files)
              case Err(e) => Err(e)
              case Ok(_) => if HasId(files, new_.id) then Err(DuplicateId(new_.id)) else Ok(files + [new_])
  {
    var longer := files + [new_];
    FirstFaultPrefix(files, [new_], |files|);
    assert forall k :: 0 <= k < |files| ==> longer[k] == files[k];
    assert longer[|files|] == new_;
  }

  lemma {:induction false} FileNamesFromEntries(t: Tree, entries: seq<Entry>, n: nat)
    requires n <= |entries| && FilesOf(t, entries, n).Ok?
    ensures forall k :: 0 <= k < n ==>
              FilesOf(t, entries, n).value[k].name == entries[k].name && FilesOf(t, entries, n).value[k].id == entries[k].id
  {
    if n > 0 { FileNamesFromEntries(t, entries, n - 1); }
  }

  lemma {:induction false} LoadsPublished(t: Tree, entries: seq<Entry>, names: Names, q: Request)
    requires Startable(t, entries, names) && ValidSql(q.sql)
    ensures Load(TreeAfter(t, entries, names, q, 12)) ==
              match OldFiles(t)
              case Err(e) => Err(e)
              case Ok(old_) =>
                if HasId(old_, names.id) then Err(DuplicateId(names.id)) else Ok(old_ + [NewFile(names, q)])
  {
    hide TreeAfter, SqlFile, ValidSql, Blank, WouldClash, InspectState, FilesOf, FromEntries, Validated, SameFiles, Extension,
         NameShapes, HasId;
    var t' := TreeAfter(t, entries, names, q, 12);
    var longer := entries + [NewEntry(names)];
    assert !Blank(NewFile(names, q).sql) by { NewFileNotBlank(names, q); }
    PublishedHistory(t, entries, names, q);
    ReadyHasEntries(t, entries);
    if InspectState(t) == Ready {
      PublicationKeepsFiles(t, entries, names, q, 12);
      SameFilesLoad(t, t', entries, [NewEntry(names)], |entries|);
      var files := FilesOf(t, entries, |entries|).value;
      NewEntryLoads(t, entries, names, q, files);
      FileNamesFromEntries(t, entries, |entries|);
      NewNameIsNew(t, entries, names, files);
      ValidatedLonger(files, NewFile(names, q));
      LoadedFromEntries(t, entries, files);
    } else {
      NothingLoads(t', longer);
      NewEntryLoads(t, entries, names, q, []);
      ValidatedLonger([], NewFile(names, q));
    }
  }

  lemma {:induction false} NewFileNotBlank(names: Names, q: Request)
    requires ValidSql(q.sql)
    ensures !Blank(NewFile(names, q).sql)
  {
    hide Blank, Contains;
    PublishedSqlNotBlank(q.sql);
  }

  lemma {:induction false} PublishedHistory(t: Tree, entries: seq<Entry>, names: Names, q: Request)
    ensures LoadHistory(TreeAfter(t, entries, names, q, 12)) == Ok(entries + [NewEntry(names)])
  {
    hide FileAfter;
  }

  lemma {:induction false} NewNameIsNew(t: Tree, entries: seq<Entry>, names: Names, files: seq<Owned>)
    requires Startable(t, entries, names) && InspectState(t) == Ready
    requires |files| == |entries| && forall k :: 0 <= k < |files| ==> files[k].name == entries[k].name
    ensures forall k :: 0 <= k < |files| ==> files[k].name != names.migration
  {
    hide InspectState, Extension;
    ReadyFiles(t, entries);
  }

  lemma {:induction false} LoadedFromEntries(t: Tree, entries: seq<Entry>, files: seq<Owned>)
    requires LoadHistory(t) == Ok(entries) && FilesOf(t, entries, |entries|) == Ok(files)
    ensures Load(t) == Validated(files)
  {
    hide FilesOf, Validated;
  }

  lemma {:induction false} NothingLoads(t: Tree, entries: seq<Entry>)
    ensures FilesOf(t, entries, 0) == Ok([]) && Validated([]) == Ok([])
  {
  }

  // ---------------------------------------------------------------- crash safety of one write

  /** A root that does not exist holds nothing. */
  ghost predicate WellFormed(t: Tree) {
    !t.created ==> t.history == None && t.historyTemp == None && t.migrations == map[] && t.rollbacks == map[]
                   && t.snapshots == map[]
  }

  ghost predicate Generable(t: Tree, entries: seq<Entry>) {
    && WellFormed(t) && LoadHistory(t) == Ok(entries)
    && (InspectState(t) == Ready || InspectState(t) == Empty || InspectState(t) == Missing)
  }

  lemma {:induction false} CreatedRoot(t: Tree, entries: seq<Entry>)
    requires Generable(t, entries)
    ensures var t' := t.(created := true);
            && WellFormed(t') && Generable(t', entries)
            && InspectState(t') == (if InspectState(t) == Missing then Empty else InspectState(t))
            && OldFiles(t') == OldFiles(t) && Load(t') == Load(t)
            && (InspectState(t) == Missing ==> NoStrayRollbacks(t, entries))
  {
    var t' := t.(created := true);
    assert t.created ==> t' == t;
    if !t.created { assert FileNames(t.rollbacks, "sql") == {}; }
  }

  /** The state after a stopped publication. */
  lemma {:induction false} StoppedPublication(t: Tree, entries: seq<Entry>, names: Names, q: Request, k: nat)
    requires k < 12 && Startable(t, entries, names)
    ensures var t' := RunTo(t, Publication(entries, names, q), k);
            && t'.created && InspectState(t') != Invalid && InspectState(t') != Missing
            && (InspectState(t') == Ready ==> InspectState(t) == Ready && Load(t') == Load(t))
            && (InspectState(t') == Empty ==> InspectState(t) == Empty && t' == t)
  {
    PublicationTree(t, entries, names, q, k);
    assert TreeAfter(t, entries, names, q, k).created;
    assert k == 0 ==> RunTo(t, Publication(entries, names, q), k) == t;
    if InspectState(t) == Ready {
      StateFromReady(t, entries, names, q, k);
      LoadsUnchanged(t, entries, names, q, k);
    } else {
      StateFromEmpty(t, entries, names, q, k);
    }
    hide *;
  }

  /** Torn-lineage freedom of one write, at every crash point. If the write did not complete, a
      lineage that is then ready was ready before and loads as it did. If it completed, the lineage
      is ready exactly when no unrelated file lies in the rollback directory, and it loads as the old
      list plus the new migration exactly when the new id is not already in the old list. */
  lemma {:induction false} CrashSafeWrite(t: Tree, entries: seq<Entry>, q: Request, steps: nat)
    requires Generable(t, entries)
    ensures var w := Written(t, entries, q, steps);
            && WellFormed(w.0)
            && (w.1.Err? ==> InspectState(w.0) != Invalid)
            && (w.1.Err? && (InspectState(w.0) == Empty || InspectState(w.0) == Missing) ==>
                  InspectState(t) != Ready && w.0.rollbacks == t.rollbacks)
            && (w.1.Err? && InspectState(w.0) == Ready ==> InspectState(t) == Ready && Load(w.0) == Load(t))
            && (w.1.Ok? ==> InspectState(w.0) == if NoStrayRollbacks(t, entries) then Ready else Partial)
            && (w.1.Ok? ==>
                  Load(w.0) == match OldFiles(t)
                               case Err(e) => Err(e)
                               case Ok(old_) =>
                                 if HasId(old_, w.1.value.id) then Err(DuplicateId(w.1.value.id))
                                 else Ok(old_ + [NewFile(w.1.value, q)]))
  {
    hide InspectState, LoadHistory, Load, NameShapes, WouldClash, Publication, RunTo, OldFiles, ValidSql, NamesFor,
         NoStrayRollbacks, HasId, NewFile, TreeAfter;
    if NamesFor(entries, q.source, q.name).Ok? {
      var names := NamesFor(entries, q.source, q.name).value;
      NamesHaveShapes(entries, q.source, q.name);
      CreatedRoot(t, entries);
      var root := t.(created := true);
      DirectoriesOnlyCreate(t, if steps < 3 then steps else 3);
      if steps >= 3 && !WouldClash(root, names) && ValidSql(q.sql) && ValidSql(q.rollbackSql) {
        assert Startable(root, entries, names);
        if steps < 15 {
          StoppedPublication(root, entries, names, q, steps - 3);
        } else {
          PublicationTree(root, entries, names, q, 12);
          TreeStaysCreated(root, entries, names, q, 12);
          StateWhenPublished(root, entries, names, q);
          LoadsPublished(root, entries, names, q);
          assert NoStrayRollbacks(root, entries) <==> NoStrayRollbacks(t, entries) by { SameRollbacks(t, root, entries); }
        }
      }
    }
  }

  lemma {:induction false} TreeStaysCreated(t: Tree, entries: seq<Entry>, names: Names, q: Request, k: nat)
    ensures TreeAfter(t, entries, names, q, k).created == t.created
  {
    hide FileAfter;
  }

  lemma {:induction false} SameRollbacks(t: Tree, t': Tree, entries: seq<Entry>)
    requires t'.rollbacks == t.rollbacks
    ensures NoStrayRollbacks(t', entries) <==> NoStrayRollbacks(t, entries)
  {
  }

  const NO_TREE: Tree := Tree(false, None, None, map[], map[], map[])

  /** An undisturbed first write with usable names and acceptable SQL completes. */
  lemma {:induction false} FirstWriteCompletes(q: Request)
    requires Slug(q.source).Some? && Slug(q.name).Some? && ValidSql(q.sql) && ValidSql(q.rollbackSql)
    ensures var w := Written(NO_TREE, [], q, 15);
            && w.1.Ok? && w.1.value.id == 1
            && ResolveArtifacts(w.0) == Ok([NewFile(w.1.value, q)])
  {
    hide Slug, ValidSql, Publication, NewFile, Load;
    var names := NamesFor([], q.source, q.name).value;
    DirectoriesOnlyCreate(NO_TREE, 3);
    var w := Written(NO_TREE, [], q, 15);
    assert w.1 == Ok(names);
    CrashSafeWrite(NO_TREE, [], q, 15);
    assert FileNames(NO_TREE.rollbacks, "sql") == {};
    assert [] + [NewFile(names, q)] == [NewFile(names, q)];
  }

  /** A write that nothing stops, over a lineage without clashing files, completes. */
  lemma {:induction false} UnclashedWriteCompletes(t: Tree, entries: seq<Entry>, q: Request)
    requires Generable(t, entries) && NamesFor(entries, q.source, q.name).Ok?
    requires !WouldClash(t, NamesFor(entries, q.source, q.name).value) && ValidSql(q.sql) && ValidSql(q.rollbackSql)
    ensures Written(t, entries, q, 15).1 == NamesFor(entries, q.source, q.name)
  {
    hide NamesFor, ValidSql, Publication, Generable;
    DirectoriesOnlyCreate(t, 3);
  }

  /** A stray file in the rollback directory: the empty lineage may be generated for, and the completed
      first write leaves it partial. */
  lemma {:induction false} StrayRollbackBlocks(stray: string, content: Content, q: Request)
    requires Extension(stray) == Some("sql") && NamesFor([], q.source, q.name).Ok?
    requires stray != NamesFor([], q.source, q.name).value.migration && ValidSql(q.sql) && ValidSql(q.rollbackSql)
    ensures var t := NO_TREE.(created := true, rollbacks := map[stray := content]);
            && InspectState(t) == Empty
            && Written(t, [], q, 15).1.Ok? && InspectState(Written(t, [], q, 15).0) == Partial
  {
    hide NamesFor, ValidSql, Publication, Extension, Written, Load;
    var t := NO_TREE.(created := true, rollbacks := map[stray := content]);
    var names := NamesFor([], q.source, q.name).value;
    NamesHaveShapes([], q.source, q.name);
    UnclashedWriteCompletes(t, [], q);
    assert stray in FileNames(t.rollbacks, "sql");
    CrashSafeWrite(t, [], q, 15);
  }

  /** A history that ends below an earlier id. */
  const DESCENDING: seq<Entry> := [Entry(2, "b.sql", "b.toml"), Entry(1, "a.sql", "a.toml")]

  function DescendingTree(sql: Content, snapshot: Content): Tree {
    Tree(true, Some(Content("", Some(DESCENDING), None)), None, map["a.sql" := sql, "b.sql" := sql], map[],
         map["a.toml" := snapshot, "b.toml" := snapshot])
  }

  lemma {:induction false} DescendingIsReady(sql: Content, snapshot: Content)
    requires !Blank(sql.text) && snapshot.schema.Some?
    ensures var t := DescendingTree(sql, snapshot);
            && Generable(t, DESCENDING) && InspectState(t) == Ready
            && Load(t).Ok? && HasId(Load(t).value, 2)
  {
    hide Blank, Extension;
    var t := DescendingTree(sql, snapshot);
    ExtensionIs("a", "sql");
    ExtensionIs("b", "sql");
    ExtensionIs("a", "toml");
    ExtensionIs("b", "toml");
    assert "a" + "." + "sql" == "a.sql" && "b" + "." + "sql" == "b.sql";
    assert "a" + "." + "toml" == "a.toml" && "b" + "." + "toml" == "b.toml";
    assert FileNames(t.migrations, "sql") == {"b.sql", "a.sql"} == EntryNames(DESCENDING) by {
      assert DESCENDING[0].name == "b.sql" && DESCENDING[1].name == "a.sql";
    }
    assert FileNames(t.snapshots, "toml") == {"b.toml", "a.toml"} == SnapshotNames(DESCENDING) by {
      assert DESCENDING[0].snapshotName == "b.toml" && DESCENDING[1].snapshotName == "a.toml";
    }
    var second := DESCENDING[1];
    assert DESCENDING[1..] == [second] && [second][1..] == [];
    assert CheckEntries(t, []) == Ready && CheckEntries(t, [second]) == Ready;
    assert CheckEntries(t, DESCENDING) == Ready;
    var first := [OwnedFile(t, DESCENDING[0])];
    var files := first + [OwnedFile(t, second)];
    assert FilesOf(t, DESCENDING, 0) == Ok([]) && [] + first == first;
    assert FilesOf(t, DESCENDING, 1) == Ok(first);
    assert FilesOf(t, DESCENDING, 2) == Ok(files);
    assert FirstFault(files, 1) == None;
    assert FirstFault(files, 2) == None;
    assert files[0].id == 2;
  }

  lemma {:induction false} NewNamesAreLong(entries: seq<Entry>, source: string, name: string)
    requires NamesFor(entries, source, name).Ok?
    ensures var names := NamesFor(entries, source, name).value;
            |names.migration| > 5 && |names.snapshot| > 6 && |Temp(names.migration)| > 5 && |Temp(names.snapshot)| > 6
  {
    hide Slug, DecimalDigits;
  }

  /** A taken id: a ready lineage whose history ends below an earlier id is written to, and then no
      longer loads. */
  lemma {:induction false} TakenIdBlocks(sql: Content, snapshot: Content, q: Request)
    requires !Blank(sql.text) && snapshot.schema.Some?
    requires Slug(q.source).Some? && Slug(q.name).Some? && ValidSql(q.sql) && ValidSql(q.rollbackSql)
    ensures var t := DescendingTree(sql, snapshot);
            var w := Written(t, DESCENDING, q, 15);
            && InspectState(t) == Ready && Load(t).Ok?
            && w.1.Ok? && InspectState(w.0) == Ready && Load(w.0) == Err(DuplicateId(2))
  {
    hide Slug, Blank, ValidSql, Written, Load, InspectState, Generable, DecimalDigits, HasId;
    var t := DescendingTree(sql, snapshot);
    DescendingIsReady(sql, snapshot);
    NewNamesAreLong(DESCENDING, q.source, q.name);
    UnclashedWriteCompletes(t, DESCENDING, q);
    assert FileNames(t.rollbacks, "sql") == {};
    CrashSafeWrite(t, DESCENDING, q, 15);
  }

  // ---------------------------------------------------------------- any number of interrupted writes

  /** One generation: it refuses a partial or invalid lineage, and otherwise writes until it stops. */
  ghost function Attempt(t: Tree, q: Request, steps: nat): (Tree, Result<Names, Error>) {
    if InspectState(t) == Partial || InspectState(t) == Invalid then (t, Err(IncompleteLineage))
    else
      match LoadHistory(t)
      case Err(e) => (t, Err(e))
      case Ok(entries) => Written(t, entries, q, steps)
  }

  /** The tree after the attempts, and the migrations whose write completed, in order. */
  ghost function Attempts(t: Tree, done: seq<Owned>, requests: seq<(Request, nat)>): (Tree, seq<Owned>)
    decreases |requests|
  {
    if requests == [] then (t, done)
    else
      var (q, steps) := requests[0];
      var a := Attempt(t, q, steps);
      Attempts(a.0, if a.1.Ok? then done + [NewFile(a.1.value, q)] else done, requests[1..])
  }

  ghost predicate Numbered(files: seq<Owned>) {
    forall k :: 0 <= k < |files| ==> files[k].id == k + 1
  }

  /** A ready lineage loads as `done`; while nothing is recorded, nothing has been done. */
  ghost predicate LineageInv(t: Tree, done: seq<Owned>) {
    && WellFormed(t) && InspectState(t) != Invalid && Numbered(done)
    && (InspectState(t) == Missing || InspectState(t) == Empty ==> done == [] && FileNames(t.rollbacks, "sql") == {})
    && (InspectState(t) == Ready ==> Load(t) == Ok(done))
  }

  lemma {:induction false} NextIdContinues(t: Tree, entries: seq<Entry>, done: seq<Owned>)
    requires InspectState(t) == Ready && LoadHistory(t) == Ok(entries) && Load(t) == Ok(done) && Numbered(done)
    ensures NextId(entries).Ok? ==> NextId(entries).value == |done| + 1
  {
    FileNamesFromEntries(t, entries, |entries|);
    hide InspectState;
    if entries != [] { assert done[|entries| - 1].id == entries[|entries| - 1].id; }
  }

  lemma {:induction false} WrittenKeeps(t: Tree, done: seq<Owned>, entries: seq<Entry>, q: Request, steps: nat)
    requires LineageInv(t, done) && Generable(t, entries)
    ensures var a := Written(t, entries, q, steps);
            && LineageInv(a.0, if a.1.Ok? then done + [NewFile(a.1.value, q)] else done)
            && (a.1.Ok? ==> InspectState(a.0) == Ready)
  {
    hide InspectState, LoadHistory, Load, Written, CheckEntries, FileNames, EntryNames, SnapshotNames, NextId,
         WellFormed, SqlFile;
    var a := Written(t, entries, q, steps);
    ReadyHasEntries(t, entries);
    CrashSafeWrite(t, entries, q, steps);
    if InspectState(t) == Ready {
      NextIdContinues(t, entries, done);
    } else {
      FirstId(t, entries);
      assert FileNames(t.rollbacks, "sql") == {};
    }
    assert NoStrayRollbacks(t, entries);
    if a.1.Ok? {
      WrittenId(t, entries, q, steps);
      assert !HasId(done, |done| + 1);
    }
  }

  lemma {:induction false} FirstId(t: Tree, entries: seq<Entry>)
    requires Generable(t, entries) && InspectState(t) != Ready
    ensures NextId(entries) == Ok(1)
  {
  }

  lemma {:induction false} GenerableUnlessPartial(t: Tree)
    requires WellFormed(t) && InspectState(t) != Invalid && InspectState(t) != Partial
    ensures LoadHistory(t).Ok? && Generable(t, LoadHistory(t).value)
  {
  }

  lemma {:induction false} AttemptKeeps(t: Tree, done: seq<Owned>, q: Request, steps: nat)
    requires LineageInv(t, done)
    ensures var a := Attempt(t, q, steps);
            LineageInv(a.0, if a.1.Ok? then done + [NewFile(a.1.value, q)] else done)
  {
    assert WellFormed(t) && InspectState(t) != Invalid;
    hide LineageInv, InspectState, Written, WellFormed, Generable, LoadHistory;
    if InspectState(t) != Partial {
      GenerableUnlessPartial(t);
      WrittenKeeps(t, done, LoadHistory(t).value, q, steps);
    }
  }

  lemma {:induction false} WrittenId(t: Tree, entries: seq<Entry>, q: Request, steps: nat)
    requires Written(t, entries, q, steps).1.Ok?
    ensures NextId(entries) == Ok(Written(t, entries, q, steps).1.value.id)
  {
    hide Slug, DecimalDigits, NextId, RunTo, Publication, WouldClash, ValidSql;
  }

  /** From a root that does not exist, after any number of generations, each completed, refused or
      stopped at any step: a lineage that is ready loads as exactly the migrations whose write
      completed, in order and numbered from one. */
  lemma {:induction false} LineageIsNeverTorn(t: Tree, done: seq<Owned>, requests: seq<(Request, nat)>)
    requires LineageInv(t, done)
    ensures var end := Attempts(t, done, requests);
            && LineageInv(end.0, end.1)
            && (InspectState(end.0) == Ready ==> ResolveArtifacts(end.0) == Ok(end.1))
            && (InspectState(end.0) != Ready ==> ResolveArtifacts(end.0).Err?)
    decreases |requests|
  {
    hide Attempt, Load, LineageInv;
    if requests != [] {
      var (q, steps) := requests[0];
      AttemptKeeps(t, done, q, steps);
      var a := Attempt(t, q, steps);
      LineageIsNeverTorn(a.0, if a.1.Ok? then done + [NewFile(a.1.value, q)] else done, requests[1..]);
    } else {
      ReadyLoadsDone(t, done);
    }
  }

  lemma {:induction false} ReadyLoadsDone(t: Tree, done: seq<Owned>)
    requires LineageInv(t, done)
    ensures InspectState(t) == Ready ==> Load(t) == Ok(done)
  {
  }

  lemma {:induction false} NoLineageYet()
    ensures LineageInv(NO_TREE, [])
  {
    assert FileNames(map[], "sql") == {};
  }
}
