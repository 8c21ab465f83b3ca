/** What the classifier, the loader and the writer answer, on any tree. */
module ArtifactAnswers {
  import opened Wrappers
  import opened MigrationNames
  import opened ArtifactStore
  import opened ArtifactLaws
  import L = MigrationNameLaws

  // ---------------------------------------------------------------- the classifier

  /** The history is absent or has no entries. */
  predicate NoEntries(t: Tree) {
    t.history.None? || t.history.value.history == Some([])
  }

  predicate HasEntries(t: Tree) {
    t.history.Some? && t.history.value.history.Some? && t.history.value.history.value != []
  }

  function EntriesOf(t: Tree): seq<Entry>
    requires HasEntries(t)
  {
    t.history.value.history.value
  }

  predicate NamesMigration(entries: seq<Entry>, name: string) {
    exists k :: 0 <= k < |entries| && entries[k].name == name
  }

  predicate NamesSnapshot(entries: seq<Entry>, name: string) {
    exists k :: 0 <= k < |entries| && entries[k].snapshotName == name
  }

  predicate IsFile(d: Directory, name: string, extension: string) {
    name in d && Extension(name) == Some(extension)
  }

  /** The files on disk and the files that the history names are the same; a rollback may be absent. */
  ghost predicate FilesMatch(t: Tree, entries: seq<Entry>) {
    && (forall name :: IsFile(t.migrations, name, "sql") <==> NamesMigration(entries, name))
    && (forall name :: IsFile(t.snapshots, name, "toml") <==> NamesSnapshot(entries, name))
    && forall name :: IsFile(t.rollbacks, name, "sql") ==> NamesMigration(entries, name)
  }

  predicate ReadableSnapshots(t: Tree, entries: seq<Entry>) {
    forall k :: 0 <= k < |entries| ==>
      entries[k].snapshotName in t.snapshots && t.snapshots[entries[k].snapshotName].schema.Some?
  }

  lemma {:induction false} FilesMatchIff(t: Tree, entries: seq<Entry>)
    ensures FilesMatch(t, entries) <==>
              && FileNames(t.migrations, "sql") == EntryNames(entries)
              && FileNames(t.snapshots, "toml") == SnapshotNames(entries)
              && FileNames(t.rollbacks, "sql") <= EntryNames(entries)
  {
    hide Extension;
    assert forall name :: name in FileNames(t.migrations, "sql") <==> IsFile(t.migrations, name, "sql");
    assert forall name :: name in FileNames(t.snapshots, "toml") <==> IsFile(t.snapshots, name, "toml");
    assert forall name :: name in FileNames(t.rollbacks, "sql") <==> IsFile(t.rollbacks, name, "sql");
    assert forall name :: name in EntryNames(entries) <==> NamesMigration(entries, name);
    assert forall name :: name in SnapshotNames(entries) <==> NamesSnapshot(entries, name);
  }

  lemma {:induction false} ChecksSnapshots(t: Tree, entries: seq<Entry>)
    requires forall k :: 0 <= k < |entries| ==> entries[k].name in t.migrations && entries[k].snapshotName in t.snapshots
    ensures CheckEntries(t, entries) == if ReadableSnapshots(t, entries) then Ready else Invalid
  {
    if entries != [] {
      ChecksSnapshots(t, entries[1..]);
      if t.snapshots[entries[0].snapshotName].schema.Some? {
        assert ReadableSnapshots(t, entries[1..]) ==> ReadableSnapshots(t, entries) by {
          assert forall k :: 0 < k < |entries| ==> entries[k] == entries[1..][k - 1];
        }
      }
    }
  }

  lemma {:induction false} MatchedFilesExist(t: Tree, entries: seq<Entry>)
    requires FilesMatch(t, entries)
    ensures forall k :: 0 <= k < |entries| ==> entries[k].name in t.migrations && entries[k].snapshotName in t.snapshots
  {
    hide Extension;
    forall k | 0 <= k < |entries| ensures entries[k].name in t.migrations && entries[k].snapshotName in t.snapshots {
      assert NamesMigration(entries, entries[k].name) && NamesSnapshot(entries, entries[k].snapshotName);
    }
  }

  /** The state of any tree. A lineage is ready exactly when its non-empty history names the files that
      are there and each snapshot can be read; it is invalid exactly when the history cannot be read, or
      only a snapshot cannot; it is partial whenever files and history do not fit together. */
  lemma {:induction false} StateIs(t: Tree)
    ensures var s := InspectState(t);
            && (s == Missing <==> !t.created)
            && (s == Empty <==> t.created && NoEntries(t) && t.migrations == map[] && t.snapshots == map[])
            && (s == Ready <==>
                  t.created && HasEntries(t) && FilesMatch(t, EntriesOf(t)) && ReadableSnapshots(t, EntriesOf(t)))
            && (s == Invalid <==>
                  && t.created && !NoEntries(t)
                  && (HasEntries(t) ==> FilesMatch(t, EntriesOf(t)) && !ReadableSnapshots(t, EntriesOf(t))))
  {
    hide FilesMatch, ReadableSnapshots, FileNames, EntryNames, SnapshotNames, CheckEntries;
    if HasEntries(t) {
      FilesMatchIff(t, EntriesOf(t));
      if FilesMatch(t, EntriesOf(t)) {
        MatchedFilesExist(t, EntriesOf(t));
        ChecksSnapshots(t, EntriesOf(t));
      }
    }
  }

  /** Only a ready lineage is worked from: without one there is nothing to apply, and a damaged one is
      refused as such. */
  lemma {:induction false} ResolveAnswers(t: Tree)
    ensures var s, r := InspectState(t), ResolveArtifacts(t);
            && (s == Missing || s == Empty ==> r == Err(NoArtifacts))
            && (s == Partial || s == Invalid ==> r == Err(IncompleteLineage))
            && (s == Ready ==> HasEntries(t) && (r.Ok? ==> Resolves(t, EntriesOf(t), r.value)))
            && (r.Ok? ==> s == Ready)
  {
    hide InspectState, Validated;
    StateIs(t);
    if InspectState(t) == Ready && ResolveArtifacts(t).Ok? {
      FilesResolve(t, EntriesOf(t), |EntriesOf(t)|);
    }
  }

  /** The migrations of the history, in its order, each with its own files. */
  predicate Resolves(t: Tree, entries: seq<Entry>, files: seq<Owned>) {
    && |files| == |entries|
    && forall k :: 0 <= k < |files| ==>
         && files[k].id == entries[k].id && files[k].name == entries[k].name
         && entries[k].name in t.migrations && files[k].sql == t.migrations[entries[k].name].text
         && (files[k].rollback.Some? <==> entries[k].name in t.rollbacks)
         && (entries[k].name in t.rollbacks ==> files[k].rollback == Some(t.rollbacks[entries[k].name].text))
         && files[k].snapshotName == Some(entries[k].snapshotName)
  }

  lemma {:induction false} FilesResolve(t: Tree, entries: seq<Entry>, n: nat)
    requires n <= |entries| && FilesOf(t, entries, n).Ok?
    ensures Resolves(t, entries[..n], FilesOf(t, entries, n).value) && entries[..|entries|] == entries
  {
    if n > 0 { FilesResolve(t, entries, n - 1); }
  }

  // ---------------------------------------------------------------- the writer

  predicate HasLetter(s: string) {
    exists k :: 0 <= k < |s| && L.AsciiAlphanumeric(s[k])
  }

  lemma {:induction false} SlugIff(s: string)
    ensures Slug(s).Some? <==> HasLetter(s)
  {
    var at, pos := L.SlugIs(s);
  }

  /** The id follows the last one, as far as 64 bits go; the names are made of the two slugs around it. */
  lemma {:induction false} NamesAnswer(entries: seq<Entry>, source: string, name: string)
    ensures var r := NamesFor(entries, source, name);
            if entries != [] && entries[|entries| - 1].id >= 0xFFFF_FFFF_FFFF_FFFF then r == Err(IdsExhausted)
            else if !HasLetter(name) then r == Err(BadName(name))
            else if !HasLetter(source) then r == Err(BadName(source))
            else
              && r.Ok? && r.value.id == (if entries == [] then 1 else entries[|entries| - 1].id + 1)
              && Slug(source).Some? && Slug(name).Some?
              && var stem := Slug(source).value + "_" + DecimalDigits(r.value.id) + "_" + Slug(name).value;
                 r.value.migration == stem + ".sql" && r.value.snapshot == stem + ".toml"
  {
    hide Slug, HasLetter, DecimalDigits;
    SlugIff(name);
    SlugIff(source);
    var r := NamesFor(entries, source, name);
    if r.Ok? {
      var stem := Slug(source).value + "_" + DecimalDigits(r.value.id) + "_" + Slug(name).value;
      assert stem + "." + "sql" == stem + ".sql" && stem + "." + "toml" == stem + ".toml";
    }
  }

  predicate KeepsFiles(d: Directory, d': Directory) {
    forall name :: name in d ==> name in d' && d'[name] == d[name]
  }

  /** Every file of the three directories is as it was. */
  predicate KeepsTree(t: Tree, t': Tree) {
    KeepsFiles(t.migrations, t'.migrations) && KeepsFiles(t.rollbacks, t'.rollbacks) && KeepsFiles(t.snapshots, t'.snapshots)
  }

  lemma {:induction false} PublicationKeeps(t: Tree, entries: seq<Entry>, names: Names, q: Request, k: nat)
    requires k <= 12 && NameShapes(names) && !WouldClash(t, names)
    ensures var t' := RunTo(t, Publication(entries, names, q), k);
            KeepsTree(t, t') && (k < 12 ==> t'.history == t.history)
  {
    hide Temp, NewEntry, SqlFile, NameShapes, Publication, RunTo;
    PublicationTree(t, entries, names, q, k);
  }

  /** However far a write gets, it overwrites none of the migrations, rollbacks and snapshots, and the
      history only as its last step. */
  lemma {:induction false} NothingOverwritten(t: Tree, entries: seq<Entry>, q: Request, steps: nat)
    ensures var w := Written(t, entries, q, steps);
            KeepsTree(t, w.0) && (w.1.Err? ==> w.0.history == t.history)
  {
    hide WouldClash, Publication, RunTo, ValidSql, NamesFor, NameShapes;
    DirectoriesOnlyCreate(t, if steps < 3 then steps else 3);
    if NamesFor(entries, q.source, q.name).Ok? {
      var names := NamesFor(entries, q.source, q.name).value;
      NamesHaveShapes(entries, q.source, q.name);
      var root := t.(created := true);
      if steps >= 3 && !WouldClash(root, names) {
        PublicationKeeps(root, entries, names, q, if steps < 15 then steps - 3 else 12);
      }
    }
  }

  /** One of the files that a write would create, or one of its temporaries, exists. */
  predicate Occupied(t: Tree, names: Names) {
    || (exists name :: name in t.migrations && (name == names.migration || name == "." + names.migration + ".tmp"))
    || (exists name :: name in t.rollbacks && (name == names.migration || name == "." + names.migration + ".tmp"))
    || (exists name :: name in t.snapshots && (name == names.snapshot || name == "." + names.snapshot + ".tmp"))
    || t.historyTemp.Some?
  }

  /** What a write that is given all its steps answers. */
  lemma {:induction false} WriteAnswers(t: Tree, entries: seq<Entry>, q: Request, steps: nat)
    requires steps >= 15
    ensures var r, names := Written(t, entries, q, steps).1, NamesFor(entries, q.source, q.name);
            if names.Err? then r == Err(names.error)
            else if Occupied(t, names.value) then r == Err(WouldOverwrite)
            else if !ValidSql(q.sql) || !ValidSql(q.rollbackSql) then r == Err(ForbiddenSql)
            else r == Ok(names.value)
  {
    hide Publication, RunTo, ValidSql, NamesFor;
    DirectoriesOnlyCreate(t, 3);
  }

  // ---------------------------------------------------------------- what has been written is accepted

  predicate Accepted(file: Owned) {
    ValidSql(file.sql) && file.rollback.Some? && ValidSql(file.rollback.value)
  }

  predicate AllAccepted(files: seq<Owned>) {
    forall k :: 0 <= k < |files| ==> Accepted(files[k])
  }

  lemma {:induction false} WrittenIsAccepted(t: Tree, q: Request, steps: nat)
    requires Attempt(t, q, steps).1.Ok?
    ensures Accepted(NewFile(Attempt(t, q, steps).1.value, q))
  {
    hide InspectState, LoadHistory, NamesFor, RunTo, Publication, WouldClash, ValidSql, NormalizeSql;
    L.PublishedStaysValid(q.sql);
    L.PublishedStaysValid(q.rollbackSql);
  }

  /** After any number of generations, each completed, refused or stopped at any step, all migrations that
      were written are accepted by the SQL policy both ways, as they stand on disk. */
  lemma {:induction false} DoneIsAccepted(t: Tree, done: seq<Owned>, requests: seq<(Request, nat)>)
    requires LineageInv(t, done) && AllAccepted(done)
    ensures var end := Attempts(t, done, requests);
            && AllAccepted(end.1)
            && (ResolveArtifacts(end.0).Ok? ==> AllAccepted(ResolveArtifacts(end.0).value))
    decreases |requests|
  {
    hide Attempt, LineageInv, Accepted, InspectState, ResolveArtifacts, NewFile;
    LineageIsNeverTorn(t, done, requests);
    if requests != [] {
      var (q, steps) := requests[0];
      AttemptKeeps(t, done, q, steps);
      var a := Attempt(t, q, steps);
      if a.1.Ok? { WrittenIsAccepted(t, q, steps); }
      DoneIsAccepted(a.0, if a.1.Ok? then done + [NewFile(a.1.value, q)] else done, requests[1..]);
    }
  }
}
