# Verification of the schema-migration engine

A Dafny model of the schema-migration engine of a Toasty connection manager, with proofs of what its
protocols and algorithms promise. `dafny verify dfyconfig.toml` checks the whole project.

| part | files | what is modelled |
|---|---|---|
| MySQL protocol | `MySqlProtocol`, `MySqlSafety`, `MySqlOutcomes`, `MySqlCompletion`, `MySqlLineage`, `MySqlManager` | apply, record, rollback and prepare runs as steps over a session lock, run markers, a ledger and a live schema; any number of runs and sources interleave, any statement may fail, and a run may be cancelled or lose its session between any two statements; then what that history means for a generated lineage, and the manager's loops over it |
| transactional backends | `TransactionalLedger`, `TransactionalLaws`, `TransactionalAnswers` | the PostgreSQL and SQLite ledger as a class whose transactions succeed or leave everything as it was; the manager's apply and rollback over it |
| concurrent calls | `MigrationClients`, `MixedClients` | many apply and rollback calls interleaved between their transactions: each kind alone, and both kinds together |
| artifacts on disk | `MigrationNames`, `MigrationNameLaws`, `ArtifactStore`, `ArtifactLaws`, `ArtifactAnswers` | slugs, file names, the lineage classifier, the loader, and the temp-write-then-rename writer that may stop at any filesystem step |
| reading the live database | `CatalogReading`, `ScopeLaws` | the scope filter and the normalizer over a catalog, and exactly when the schema that is read is the schema that the database has |
| whole life of a source | `Lineage`, `LineageLaws`, `ProjectionLaws`, `GenerationAnswers`, `PolicyLaws` | generation from all four origins, baseline, apply, adoption and rollback, combined; Toasty and the database's execution of SQL are one record of functions with stated laws, while reading the live schema is the model above |
| a toy Toasty | `ToyCode`, `ToyToasty`, `ToyReading`, `ToyLineage`, `ToyDrift` | tables and indices in the default scope: the laws hold together, and what a caller must see to is exact |
| PostgreSQL statement splitter | `PostgresLexer`, `PostgresSplitter`, `PostgresConstructs`, `PostgresSplitterLaws`, `PostgresRoundTrip` | the single-pass scanner (sections 4.1.2 and 4.1.5 of the PostgreSQL manual), proved against a recursive lexical grammar, whose constructs are characterised without recursion |
| schema normalizer | `SchemaNormalizer`, `SchemaNormalizerLaws`, `SchemaNormalizerStability`, `SchemaNormalizerAnswers` | the nested loops that turn a live catalog into a target-shaped schema |
| smaller cores | `MySqlEnum`, `Fingerprint`, `Registry`, `RegistryLaws`, `RegistryAnswers`, `RegistryReplacement`, `Paging` | the MySQL enum parser, the FNV-1a fingerprint, lazy loading in the connection registry, and the ordering and page arithmetic of generated queries |

Code that loops or updates state is a method, proved equal to a specification function; the laws are
lemmas about those functions, and say what they come to in other terms than their bodies. Protocols are state
machines whose invariants are proved over every run.

Where a promise does not hold of the code as it stands, the project shows an input for which it fails
and the condition under which it holds. The condition is exact unless the entry says otherwise:

* On MySQL, and in general, applying below a ledgered migration is allowed; the ledger then no longer
  describes the order in which SQL ran. It does at every point of a history exactly when no migration
  was applied below a ledgered one (`InOrderIffAscending`; a reachable input in `OutOfOrderApply`), and
  it records a prefix of a generated lineage at every point exactly when every apply took the next
  migration (`PrefixIffInOrder`).
* An apply works from the ids read at its start, so an interleaved rollback can leave a gap
  (`MixedCallsLeaveGap`); applies alone and rollbacks alone cannot. An apply that counted the first `m`
  migrations as applied and goes on from a ledger of `n` leaves a prefix exactly when `m <= n`, or there
  is no migration after those `m`, or the next one is refused (`OvertakenApplyIff`); a rollback, exactly when it was not
  overtaken or the newest-row check refuses it (`OvertakenRollbackIff`). Runs of both kinds in which
  neither commits behind the other's back keep the prefix (`MixedCalls`, one way).
* Executing migrations on a database that has a schema but no applied migration records them without
  reaching their snapshots (`ExecutingUnadopted`). Adopting a database whose schema is not the one that is
  read leaves a live schema that is not the snapshot (`AdoptingMisread`): one with tables outside the scope
  (`AdoptingUncovered`), or one whose secondary index goes by another name than the model's, which the
  normalizer replaces by the model's (`AdoptingRenamed`). The schema that is read is the database's own
  exactly when all tables are in scope, no index is partial or shadowed, each secondary index whose shape
  the model has bears the model's name, and the types that were read are the columns' types
  (`ReadIsShownIff`). Every run without such calls is consistent, as far as the database accepts the SQL
  (`EndToEnd`); in the toy every such call that changes anything breaks it (`SupportedIsExact`).
* Generation reports the lineage as ready whenever it has written, which is true exactly when no unrelated
  `.sql` file lies among the rollbacks (`GenerationReports`).
* A completed write is classified as ready exactly when no unrelated `.sql` file lies among the rollbacks,
  and it loads exactly when the old files did and the next id is not taken (`CrashSafeWrite`; inputs in `StrayRollbackBlocks`
  and `TakenIdBlocks`).
* Normalizing a schema against itself is the identity exactly when no table has two indices of one shape
  (`NormalizeFixpointIff`).
* Trimming drops white space that the splitter counts as code, so an emitted statement need not split to
  itself again (`VerticalTabBreaksRoundTrip`, `NoBreakSpaceBreaksRoundTrip`). Splitting, joining and
  splitting again is splitting once exactly when each statement on its own still lexes to code without a
  separator (`SplitRoundTripIff`); texts whose segments begin and end in no white space but ASCII's meet
  that (`SplitRoundTrip`).
* An alias with models that is registered by hand before its source is replaced when the source loads
  (`MisplacedIsReplaced`). All callers agree in every run exactly when no such alias has a source that can
  still be loaded (`AgreementIff`).

## Model

| member | source | states |
|---|---|---|
| MySqlProtocol.StepKeeps | src/migration/backend/mysql.rs:168-338 | every step of every run, failure, cancellation and session loss keeps the invariant that ties lock, markers, ledger, executed statements and the position of each run together; what runs answer is in `MySqlOutcomes` |
| MySqlProtocol.DbStepKeeps | src/migration/backend/mysql.rs:168-205 | each statement of the lock holder, from the marker check to the marker's deletion, keeps the rows of its source consistent with its own progress |
| MySqlProtocol.InsertMarkerKeeps | src/migration/backend/mysql.rs:378-394 | inserting the run marker finds no other marker and records a run of which nothing has been executed |
| MySqlProtocol.UpdateProgressKeeps | src/migration/backend/mysql.rs:396-418 | writing the statement index before the statement never claims more than one statement beyond the executed ones |
| MySqlProtocol.ExecuteKeeps | src/migration/backend/mysql.rs:396-418 | executing statement k extends the live schema by exactly the next statement of the marked run |
| MySqlProtocol.WriteLedgerKeeps | src/migration/backend/mysql.rs:191-201 | the ledger changes only after all statements have run, and the change is the one the ledger allowed |
| MySqlProtocol.DeleteMarkerKeeps | src/migration/backend/mysql.rs:420-435 | deleting the marker leaves a source whose schema is what its finished operations made |
| MySqlProtocol.LockStep | src/migration/backend/mysql.rs:272-338 | releasing a stale lock before taking it keeps the re-entrant session lock held at most once, by the one run inside |
| MySqlSafety.MutualExclusion | src/migration/backend/mysql.rs:272-304 | in every reachable state at most one run of all sources is between taking and releasing the lock |
| MySqlSafety.NoMarkerNoHalfRun | src/migration/backend/mysql.rs:356-376 | in every reachable state a source without a marker has executed exactly its finished operations, and its ledger is exactly theirs |
| MySqlSafety.RowsComeFromRuns | src/migration/backend/mysql.rs:168-270 | every finished operation of a source, and the run behind its marker, was started on that source |
| MySqlSafety.MarkerIsPrecise | src/migration/backend/mysql.rs:378-435 | after every run of the protocol a marker with index k belongs to an operation that was started on its source, exactly k or k+1 of whose statements have been executed, and all of them once the ledger has changed |
| MySqlSafety.InterruptionOrphans | src/migration/backend/mysql.rs:306-338 | failing, cancelling or losing the session of a marked run leaves its marker behind |
| MySqlSafety.OrphanBlocksForever | src/migration/backend/mysql.rs:356-376 | after such an interruption no later run, in any continuation, changes ledger, markers or schema of that source |
| MySqlOutcomes.AnswersAreTrue | src/migration/backend/mysql.rs:168-270 | in every reachable state a run about to answer "changed" is the last finished operation of its source and its ledger shows it; one about to answer "unchanged" found its migration recorded under its own name, or only reads |
| MySqlOutcomes.AnswersUndisturbed | src/migration/backend/mysql.rs:168-270 | started on a free lock and not disturbed, a run answers exactly as it must and changes exactly what it must: it fails on a marker; a rollback changes the newest row of its own name only; an apply or record changes a ledger without its id, leaves one with its id and name, and fails on another name |
| MySqlOutcomes.OneAnswer | src/migration/backend/mysql.rs:272-304 | and it has no other answer |
| MySqlOutcomes.LockAfterEnd | src/migration/backend/mysql.rs:272-338 | a run inside that fails releases the lock before it ends; one that is cancelled, or fails in releasing, leaves it to its session and nobody else can take it; losing the session frees it |
| MySqlOutcomes.StaleLockIsReleased | src/migration/backend/mysql.rs:272-304 | a lock left to a session is released by the next run on that session |
| MySqlSafety.StepTouchesOwnSource | src/migration/backend/mysql.rs:168-270 | a step changes rows or schema of its own source only, and only while holding the lock |
| MySqlSafety.CrashSafety | src/migration/backend/mysql.rs:168-270 | in every reachable state a source without a marker has a live schema equal to the fold of its ledgered migrations in id order, in every semantics of SQL in which the rollbacks that ran were inverses, if each migration was applied above all ledgered ones |
| MySqlCompletion.RunsToCompletion | src/migration/backend/mysql.rs:168-270 | an allowed run on a free lock and a source without a marker can go through, and then leaves its statements run in order, its ledger change, and neither marker nor lock |
| MySqlSafety.StackIsLedger | src/migration/backend/mysql.rs:229-270 | in a history whose applies were each above all ledgered ids, the applies that no rollback has undone are the ledgered migrations in ascending order |
| MySqlSafety.InOrderIffAscending | src/migration/backend/mysql.rs:182-201 | history follows the ids at every point exactly when no migration was applied below a ledgered one |
| MySqlCompletion.OutOfOrderApply | src/migration/backend/mysql.rs:182-201 | a reachable state in which a lower migration was applied after a higher one, so that SQL ran against id order |
| MySqlLineage.PrefixIffInOrder | src/migration/backend/mysql.rs:182-270 | the ledger of a generated lineage is a prefix at every point of the history exactly when every apply took the migration after the ledgered ones; rollbacks never leave a gap |
| MySqlLineage.SettledOnSnapshot | src/migration/backend/mysql.rs:168-270 | over every interleaving, failure and cut-off of runs on a generated lineage, without a marker the ledger is a prefix and the live schema is the snapshot of its newest migration, if applies took the next migration, the first one found the schema it expects, and the database had accepted what was executed |
| MySqlLineage.MarkedFromSnapshot | src/migration/backend/mysql.rs:356-435 | under the same conditions, with a marker the live schema is such a snapshot on which exactly the first d statements of the marked operation have run, and the marker says d or d-1 |
| MySqlLineage.EmptyBaseIsBacked | src/migration/manager.rs:422-524 | on a database that starts out empty, executing migrations in order always meets that condition |
| MySqlManager.ApplyAgrees | src/migration/manager.rs:466-524 | an undisturbed apply call over MySQL can end with the ledger, the executed SQL and the report of the transactional call, leaving neither marker nor lock and no other source changed |
| MySqlManager.RollbackAgrees | src/migration/manager.rs:527-566 | so can a rollback call whose selection is reversible and newest |
| TransactionalLedger.Database.ApplyMigration | src/migration/backend/postgresql.rs:158-199 | a transaction records the migration after running all of its SQL, or changes nothing; an existing row is skipped or refused by its name |
| TransactionalLedger.Database.RollbackMigration | src/migration/backend/sqlite.rs:199-261 | a transaction removes the newest row after running the reverse SQL, or changes nothing |
| TransactionalLedger.Database.ExecuteStatements | src/migration/backend/postgresql.rs:323-331 | statements run in order on the transaction's copy until one is rejected |
| TransactionalAnswers.ApplyAnswers | src/migration/backend/sqlite.rs:147-190 | for every ledger and failure: an apply transaction adds the row and its statements exactly when the id is free and nothing fails, answers "skipped" exactly when the row is there, refuses another name, and otherwise changes nothing |
| TransactionalAnswers.RollbackAnswers | src/migration/backend/sqlite.rs:199-237 | a rollback transaction removes the row and runs its statements exactly when its migration has the newest row and nothing fails; otherwise it says which of the three reasons holds and changes nothing |
| TransactionalAnswers.RollbackUndoesApply | src/migration/backend/sqlite.rs:147-237 | rolling back what has just been applied restores the ledger |
| TransactionalAnswers.LedgerAnswers | src/migration/backend/sqlite.rs:125-145 | a ledger is accepted exactly when every row is a tracked migration's, under its name; otherwise the lowest other row is named, as misnamed or as unknown |
| TransactionalAnswers.UntrackedStopsCalls | src/migration/manager.rs:467-478 | such a row stops every apply, adoption and rollback before anything changes |
| TransactionalAnswers.GapStopsRollback | src/migration/manager.rs:822-844 | a recorded migration behind a pending one stops every rollback before anything changes |
| TransactionalAnswers.ApplyFillsGaps | src/migration/manager.rs:502-524 | on any accepted ledger, gaps included, and under any failures, an apply executes and records the pending migrations in order up to the first whose SQL is refused or fails, and reports so |
| TransactionalAnswers.AdoptionAnswers | src/migration/manager.rs:479-524 | an adoption needs an empty ledger and a first migration, records that one without its SQL, and goes on as an apply |
| TransactionalLedger.ApplyArtifacts | src/migration/manager.rs:466-524 | the apply loop, with adoption, skips, policy refusals and counters, equals its specification from the committed state |
| TransactionalLedger.AppliedLineage | src/migration/manager.rs:823-841 | succeeds exactly when the applied ids are those of a prefix of the artifacts, and returns that prefix |
| TransactionalLedger.CutIsUnique | src/migration/manager.rs:823-841 | the applied ids determine the prefix |
| TransactionalLedger.PlanRollback | src/migration/manager.rs:532-559 | the plan is the suffix to undo or the first refusal of the checks, in the order in which the code makes them |
| TransactionalLedger.Rollback | src/migration/manager.rs:527-566 | the whole rollback call equals plan-then-execute, newest first, up to the first failure |
| TransactionalLaws.PrefixLedgerIsAccepted | src/migration/manager.rs:782-841 | the ledger of the first n artifacts passes the tracking checks and has lineage n |
| TransactionalLaws.AcceptedLedgerIsPrefix | src/migration/manager.rs:782-841 | conversely an accepted ledger is exactly that of a prefix |
| TransactionalLaws.SelectsSuffix | src/migration/manager.rs:843-863 | steps and targets both select a reversed suffix ending at the target, and nothing else is accepted |
| TransactionalLaws.CollectsSuffix | src/migration/manager.rs:544-559 | the selected suffix is collected exactly when all of it has acceptable reverse SQL; a refusal names the newest migration without acceptable reverse SQL and what it lacks |
| TransactionalLaws.RollbackNewestRow | src/migration/backend/postgresql.rs:209-244 | the newest-row check passes exactly when the id exceeds all earlier ones, and then the ledger of one artifact fewer remains |
| TransactionalLaws.RollsBackSuffix | src/migration/manager.rs:560-562 | without failures the selected suffix is undone exactly when each of its ids exceeds all ids before it |
| TransactionalLaws.RollbackUndoesSuffix | src/migration/manager.rs:527-566 | the whole call: bad selections and missing reverse SQL change nothing, otherwise the suffix is undone and a prefix remains, with an exact condition |
| TransactionalLaws.FailedRollbackLeavesPrefix | src/migration/manager.rs:560-562 | a failure in the middle leaves a prefix recorded and exactly the undone part executed |
| MigrationClients.ConcurrentApplies | src/migration/manager.rs:466-524 | over every interleaving of any number of applies, with kills and failures, the ledger stays a prefix, each migration's SQL commits at most once and in list order, and a finished call accounts for every artifact |
| MigrationClients.ConcurrentRollbacks | src/migration/manager.rs:527-566 | over every interleaving of any number of rollbacks on distinct ids a prefix stays recorded and each removed artifact was undone once, newest first |
| MigrationClients.ConcurrentRollbacksFromStart | src/migration/manager.rs:527-566 | starting from a prefix ledger with nobody calling, any interleaving of rollbacks undoes a suffix of the recorded artifacts, newest first |
| MigrationClients.ApplyCallIsAClientAlone | src/migration/manager.rs:466-524 | the sequential apply call is a client of the concurrent model run by itself |
| MigrationClients.RollbackCallIsAClientAlone | src/migration/manager.rs:527-569 | the rollback call is its client, run to the end with nobody else around |
| MigrationClients.ApplyCompletes | src/migration/manager.rs:490-524 | without failures an apply completes exactly when the pending SQL is acceptable, and reports pending as applied and the rest as skipped |
| MigrationClients.CallLeavesPrefix | src/migration/manager.rs:466-524 | however a single apply call ends, the ledger is that of some longer prefix |
| MigrationClients.RecordsNext | src/migration/backend/sqlite.rs:147-190 | on a prefix ledger a transaction can only record the next artifact or skip a recorded one |
| MixedClients.OvertakenApplyIff | src/migration/manager.rs:472-524 | an apply that took the first m artifacts as applied and goes on from a ledger of the first n leaves a prefix exactly when m is at most n, nothing is left after the m, or the next artifact is refused; the loop may stand anywhere up to m or n |
| MixedClients.OvertakenRollbackIff | src/migration/backend/postgresql.rs:209-244 | a planned rollback step on a ledger that has grown leaves a prefix exactly when it was not overtaken or the newest-row check refuses it |
| MixedClients.MixedCalls | src/migration/manager.rs:422-566 | over every interleaving of applies, adoptions and rollbacks in which neither kind commits behind the other's back, the ledger is a prefix, reached by single moves whose SQL committed in that order |
| MixedClients.MixedCallsFromStart | src/migration/manager.rs:422-566 | the same from a prefix ledger with nobody calling |
| MixedClients.MixedCallsLeaveGap | src/migration/manager.rs:472-524 | an interleaving of one apply and one rollback that leaves a gap, after which every rollback is refused |
| MigrationNames.SanitizeName | src/migration/manager.rs:952-976 | the character loop yields the lower-cased alphanumeric words joined by underscores, and refuses names without any |
| MigrationNames.PushedTrims | src/migration/manager.rs:955-975 | trimming the loop's buffer leaves exactly the joined words, empty only if there are none |
| MigrationNames.PublishedSqlNotBlank | src/migration/manager.rs:985-992 | accepted SQL is not blank after it has been rewritten for publication |
| MigrationNames.ExtensionIs | src/migration/artifact.rs:172-184 | the extension of a name built from a stem is the one it was built with, so temporaries are never listed |
| MigrationNameLaws.SlugIs | src/migration/manager.rs:952-976 | a slug is the ASCII letters and digits of the name, in order and in lower case, with one underscore wherever anything else came between; it is refused exactly when there are none |
| MigrationNameLaws.ExtensionIff | src/migration/artifact.rs:172-184 | a name has an extension exactly when it is a stem, a dot and the extension without a dot |
| MigrationNameLaws.DigitsAre | src/migration/manager.rs:898-899 | ids are written in decimal without leading zeros |
| MigrationNameLaws.ValidSqlIff | src/migration/manager.rs:989-1000 | SQL is accepted exactly when it is not blank and none of three clauses stands in it, in any case |
| MigrationNameLaws.NothingRewritten | src/migration/manager.rs:985-987 | published SQL without a `DROP INDEX "` is the generated SQL |
| MigrationNameLaws.FirstRewritten | src/migration/manager.rs:985-987 | and the first such clause is made conditional, and then those behind it |
| MigrationNameLaws.PublishedStaysValid | src/migration/manager.rs:985-1000 | SQL that the policy admits is still admitted as it stands on disk |
| ArtifactStore.NewArtifactSet | src/migration/artifact.rs:33-48 | the validating loop reports the first duplicate id, duplicate name or blank SQL in list order |
| ArtifactLaws.FaultlessIffAcceptable | src/migration/artifact.rs:33-48 | a set is accepted exactly when ids and names are distinct and no SQL is blank |
| ArtifactStore.FromHistory | src/migration/artifact.rs:75-100 | the loading loop reads exactly the files the history lists, with optional rollbacks, and validates them |
| ArtifactAnswers.StateIs | src/migration/artifact.rs:115-170 | the state of any tree: ready exactly when its non-empty history names the files that are there and each snapshot can be read, invalid exactly when the history cannot be read or only a snapshot cannot, partial whenever history and files do not fit together |
| ArtifactAnswers.ResolveAnswers | src/migration/manager.rs:759-780 | only a ready lineage is worked from, as the migrations of its history, in order, each with its own files; a missing and a damaged lineage are refused as such |
| ArtifactAnswers.NamesAnswer | src/migration/manager.rs:894-899 | the new id follows the last one as far as 64 bits go, and both file names are made of the two slugs around it |
| ArtifactAnswers.NothingOverwritten | src/migration/manager.rs:912-948 | however far a write gets, it overwrites no migration, rollback or snapshot, and the history only as its last step |
| ArtifactAnswers.WriteAnswers | src/migration/manager.rs:887-949 | what a write that is not stopped answers, for every tree, name and SQL |
| ArtifactAnswers.DoneIsAccepted | src/migration/manager.rs:930-937 | after any number of generations, each completed, refused or stopped, all migrations on disk are accepted by the SQL policy both ways |
| ArtifactStore.ArtifactRoot.WriteGenerated | src/migration/manager.rs:887-950 | stopped after any number of filesystem steps, the writer has carried out exactly that prefix of its steps, and refuses before touching any file when a target exists |
| ArtifactStore.ArtifactRoot.Save | src/migration/manager.rs:932-944 | a write may stop with the file created but incomplete |
| ArtifactLaws.PublicationTree | src/migration/manager.rs:932-948 | what lies on disk after each of the twelve publication steps |
| ArtifactLaws.StateFromReady | src/migration/artifact.rs:115-170 | from a ready lineage the classifier answers ready until the first rename and partial from then until the history is renamed |
| ArtifactLaws.StateFromEmpty | src/migration/artifact.rs:115-170 | from an empty lineage it answers partial at every crash point after the first file |
| ArtifactLaws.StateWhenPublished | src/migration/artifact.rs:115-170 | after the last rename it answers ready exactly when no unrelated rollback file is present |
| ArtifactLaws.LoadsUnchanged | src/migration/artifact.rs:75-100 | before the history is renamed a ready lineage loads as it did |
| ArtifactLaws.LoadsPublished | src/migration/artifact.rs:33-100 | afterwards it loads as the old list plus the new migration, unless the new id is already taken |
| ArtifactLaws.CrashSafeWrite | src/migration/manager.rs:887-950 | torn-lineage freedom of one write at every crash point, with the exact conditions for the completed write |
| ArtifactLaws.FirstWriteCompletes | src/migration/manager.rs:887-950 | an undisturbed first write with usable names and accepted SQL completes and loads as the one new migration |
| ArtifactLaws.StrayRollbackBlocks | src/migration/artifact.rs:148-157 | an empty lineage with a stray file among its rollbacks may be generated for and is partial afterwards |
| ArtifactLaws.TakenIdBlocks | src/migration/artifact.rs:33-48 | a ready lineage whose history ends below an earlier id may be written to and then no longer loads |
| ArtifactLaws.LineageIsNeverTorn | src/migration/manager.rs:759-780 | after any number of completed, refused or stopped generations, a ready lineage loads as exactly the completed migrations numbered from one, and any other lineage is refused |
| LineageLaws.EndToEnd | src/migration/manager.rs:231-566 | after any run of generations, baselines, applies, adoptions and rollbacks whose committed SQL the database accepted, replaying the history on any empty database leads to the latest snapshot, the ledger records a prefix, and the live schema is the snapshot of the newest recorded migration or empty |
| LineageLaws.StepKeeps | src/migration/manager.rs:231-566 | each of these actions, stopped or failing anywhere, keeps the lineage a chain and the live schema in step with the ledger |
| LineageLaws.GenerateKeeps | src/migration/manager.rs:231-366 | generation from every origin extends the chain of snapshots and ends at a snapshot that no database tells from the model schema; it never lacks a baseline, and lacks reverse SQL only if rename hints make a change of schemas that do not differ without them |
| LineageLaws.GenerateFromKeeps | src/migration/manager.rs:312-348 | the exact condition for that: hints produce SQL and without hints there is nothing to change |
| LineageLaws.LiveStartKeeps | src/migration/manager.rs:267-311 | the live-database origin refuses drift from the latest snapshot, or writes a baseline that ends at the observed schema |
| ProjectionLaws.ProjectionIs | src/migration/manager.rs:722-757 | the projected schema has the observed tables, names and columns, in order, and of the indices exactly those that are unique, or stand in an exclusive scope or in a table the snapshot lacks, or have their like in the snapshot's table |
| ToyDrift.DriftIff | src/migration/manager.rs:267-294 | generation from a live database is refused as drift, with nothing written, exactly when Toasty would change something between the latest snapshot and the projected schema |
| ToyDrift.SolidDifferenceIsDrift | src/migration/manager.rs:267-294 | in the toy, a live database that differs from the snapshot by a table or a unique index is refused |
| ToyDrift.ExtraIndicesAreNoDrift | src/migration/manager.rs:722-757 | and one that differs only by further secondary indices that are not unique is not |
| GenerationAnswers.GenerationReports | src/migration/manager.rs:231-366 | a generation reports truthfully whether it has written and the newest id, from every origin and wherever it may write twice; its report that the lineage is ready is true if and only if no unrelated file lies among the rollbacks |
| GenerationAnswers.BaselineReports | src/migration/manager.rs:369-420 | the same of a baseline, which leaves a history of one entry |
| GenerationAnswers.GenerationRefuses | src/migration/manager.rs:231-311 | exactly when generation refuses the lineage, the origin or the database, and that it has then written nothing |
| GenerationAnswers.BaselineRefuses | src/migration/manager.rs:369-393 | exactly when a baseline is refused |
| GenerationAnswers.ThirtyStepsSuffice | src/migration/manager.rs:291-366 | with the filesystem steps of two writes no generation is cut short, also one that writes a baseline first |
| PolicyLaws.WrittenIsNeverForbidden | src/migration/manager.rs:422-569 | whatever was generated from an empty directory, no apply, adoption or rollback refuses it for its SQL |
| PolicyLaws.ForbiddenIsRefused | src/migration/manager.rs:502-517 | a pending migration whose SQL breaks the policy is not executed, and stops the apply after the ones before it |
| LineageLaws.BaselineStepKeeps | src/migration/manager.rs:369-420 | however a baseline is stopped the lineage stays a chain, and a completed one ends at the schema of the database if that is read as it is |
| LineageLaws.ObservedIsHeld | src/migration/manager.rs:382-394 | a schema that is read as it is, is the schema of the database |
| LineageLaws.WriteExtends | src/migration/manager.rs:331-348 | writing SQL generated both ways adds one link to the chain, or nothing |
| LineageLaws.ApplyKeeps | src/migration/manager.rs:422-524 | apply and adoption move the live schema and the ledger along the chain together |
| LineageLaws.RollbackKeeps | src/migration/manager.rs:527-566 | rollback moves them back together, also when it fails in the middle |
| LineageLaws.ForwardFollowsChain | src/migration/manager.rs:502-523 | the forward SQL of consecutive migrations leads from snapshot to snapshot |
| LineageLaws.ReverseFollowsChain | src/migration/manager.rs:560-562 | the reverse SQL leads back |
| LineageLaws.WrittenSnapshots | src/migration/manager.rs:880-949 | at every crash point the snapshots on disk are those of the recorded history |
| LineageLaws.AdoptedIsFirst | src/migration/manager.rs:442-465 | an allowed adoption of a database that is read as it is finds the first snapshot to be its schema |
| LineageLaws.EmptyBaseSupportsAll | src/migration/manager.rs:422-524 | on a database that starts out empty every run is covered by the end-to-end result |
| CatalogReading.ReadIsShownIff | src/migration/backend/mod.rs:153-292 | the schema that is read off a database is the one it has if and only if all tables are in scope, no index is partial or shadowed, each secondary index of a shape that the model has bears the model's name, and the types are kept |
| CatalogReading.RendersTableIff | src/migration/backend/mod.rs:164-290 | the same for one table |
| CatalogReading.ReadIsWellFormed | src/migration/backend/mod.rs:164-290 | what is read off a database with distinct names is a well-formed schema, only columns of primary indices being flagged |
| ScopeLaws.ReadTablesAre | src/migration/backend/postgresql.rs:568-581 | the tables that are read are exactly the model's, the listed ones, those with a prefix, or all, as the scope says, in catalog order |
| ScopeLaws.DiagnosedIsRefused | src/migration/backend/mod.rs:160-163 | a managed table with something unsupported is refused by its first finding |
| ScopeLaws.OthersAreIgnored | src/migration/backend/postgresql.rs:568-581 | a table that is not managed makes no difference |
| ToyToasty.ToyMeetsLaws | src/migration/manager.rs:317-340 | the laws assumed of Toasty and of databases hold together, in a toy with tables and indices in the default scope |
| ToyReading.HeldIffTrue | src/migration/backend/mod.rs:194-269 | a toy database has the schema that is read off it if and only if the checkable condition on scope, names and types holds |
| ToyLineage.SupportedIsExact | src/migration/manager.rs:422-524 | in the toy an apply or adoption leaves a consistent lineage exactly when it changes nothing, executes on no unadopted schema, or adopts a database that is read as it is |
| ToyLineage.ExecutingUnadopted | src/migration/manager.rs:476-524 | generating and then executing on a database that already has other tables: a reachable state whose apply goes through and breaks the lineage |
| ToyLineage.AdoptingMisread | src/migration/manager.rs:442-465 | a baseline and its adoption on any database that is not read as it is: reachable, allowed, and the live schema is not the snapshot |
| ToyLineage.AdoptingUncovered | src/migration/backend/postgresql.rs:568-573 | in particular with a table the models do not name |
| ToyLineage.AdoptingRenamed | src/migration/backend/mod.rs:194-269 | and, with every table in scope, on any database that is the model but for the name of a secondary index, which is read as the model itself |
| ToyLineage.RenamedExample | src/migration/backend/mod.rs:260-262 | such a database: one table, its primary index, and an index under a name of its own |
| PostgresSplitter.SplitStatements | src/migration/backend/postgresql.rs:343-474 | the single-pass six-state scanner equals the recursive specification, error cases included; its index strictly advances and stays inside the text |
| PostgresSplitter.StepNormal | src/migration/backend/postgresql.rs:353-396 | one step outside quotes and comments recognises the construct that the grammar puts there |
| PostgresSplitter.StepQuoted | src/migration/backend/postgresql.rs:397-430 | one step inside a string, identifier or dollar quote ends it exactly where the grammar does |
| PostgresSplitter.StepComment | src/migration/backend/postgresql.rs:431-450 | one step inside a line comment or nested block comment ends it exactly where the grammar does |
| PostgresSplitter.DollarQuoteDelimiter | src/migration/backend/postgresql.rs:487-506 | the look-ahead finds exactly the delimiter of the grammar |
| PostgresConstructs.DollarQuoted | src/migration/backend/postgresql.rs:487-506 | for every tag, empty or an identifier, a delimiter, a body in which it does not occur and the delimiter again are one token, whatever the body holds |
| PostgresConstructs.DollarLeftOpen | src/migration/backend/postgresql.rs:454-469 | a delimiter that does not occur again leaves its quote open |
| PostgresConstructs.DollarAlone | src/migration/backend/postgresql.rs:377-386 | a dollar sign that begins no delimiter opens nothing |
| PostgresConstructs.DollarQuotedIsOneStatement | src/migration/backend/postgresql.rs:377-386 | a dollar-quoted body splits to itself, whatever semicolons it holds |
| PostgresConstructs.EscapePrefixIff | src/migration/backend/postgresql.rs:477-485 | a quote has backslash escapes exactly behind E or U& that continues no identifier |
| PostgresConstructs.SingleQuoted | src/migration/backend/postgresql.rs:397-412 | a single quote begins a token exactly if a string of characters, doubled quotes and, behind such a prefix, escapes begins there, and is left open otherwise |
| PostgresConstructs.DoubleQuoted | src/migration/backend/postgresql.rs:413-420 | the same for identifiers, in which only the quote is doubled |
| PostgresConstructs.LineCommented | src/migration/backend/postgresql.rs:431-437 | a line comment is a token to the end of its line |
| PostgresConstructs.BlockCommented | src/migration/backend/postgresql.rs:438-450 | a block comment is a token exactly if its marks are balanced, and is left open otherwise |
| PostgresConstructs.SingleByte | src/migration/backend/postgresql.rs:387-396 | every other byte is a separator, ASCII white space or code |
| PostgresConstructs.StatementsPick | src/migration/backend/postgresql.rs:384-394 | the statements are the trimmed texts of the segments with code, in order |
| PostgresConstructs.TrimsWhiteSpace | src/migration/backend/postgresql.rs:386-386 | trimming takes off all white space of Unicode at both ends, and nothing else |
| PostgresSplitterLaws.LexCovers | src/migration/backend/postgresql.rs:343-474 | the tokens cover the text, and each is what its kind says |
| PostgresSplitterLaws.SplitCutsAtSeparators | src/migration/backend/postgresql.rs:353-474 | cuts are made exactly at semicolons outside quotes and comments, segments rejoined with semicolons are the text, and dropped segments hold only ASCII white space and comments |
| PostgresSplitterLaws.FailsIffLeftOpen | src/migration/backend/postgresql.rs:454-469 | splitting fails exactly when the text ends inside a quote, dollar quote or block comment |
| PostgresSplitterLaws.SplitIsHomomorphic | src/migration/backend/postgresql.rs:343-474 | splitting distributes over a separator on its own line and fails exactly when the second part fails |
| PostgresSplitterLaws.LexAfterBreak | src/migration/backend/postgresql.rs:477-506 | look-behind never sees across a separator |
| PostgresSplitterLaws.SegmentsLexAlone | src/migration/backend/postgresql.rs:384-396 | each segment lexes alone to itself |
| PostgresSplitterLaws.EmittedStatementSplitsToItself | src/migration/backend/postgresql.rs:343-474 | each emitted statement splits to exactly itself, if trimming drops only ASCII white space |
| PostgresSplitterLaws.EmittedSplitsIff | src/migration/backend/postgresql.rs:343-474 | an emitted statement splits to exactly itself if and only if on its own it lexes to code without a separator |
| PostgresSplitterLaws.PlainHasCleanEdges | src/migration/backend/postgresql.rs:384-394 | every text without vertical tabs and non-ASCII white space meets that condition |
| PostgresSplitterLaws.JoinedStatementsSplitBack | src/migration/backend/postgresql.rs:343-474 | joining statements that split to themselves, and splitting again, gives them back |
| PostgresSplitterLaws.SplitRoundTrip | src/migration/backend/postgresql.rs:343-474 | split, join with separators and split again is split once, if trimming drops only ASCII white space |
| PostgresRoundTrip.SplitRoundTripIff | src/migration/backend/postgresql.rs:343-474 | for every text that splits, it is split once if and only if each statement on its own lexes to code without a separator |
| PostgresRoundTrip.EmittedIsEmittable | src/migration/backend/postgresql.rs:384-394 | an emitted statement is trimmed, and on its own is one statement, or only comments, or begins like the prefix of an escape string |
| PostgresSplitterLaws.VerticalTabBreaksRoundTrip | src/migration/backend/postgresql.rs:384-394 | with a vertical tab the round trip fails |
| PostgresSplitterLaws.NoBreakSpaceBreaksRoundTrip | src/migration/backend/postgresql.rs:477-485 | with a no-break space before an escape string it fails |
| PostgresSplitterLaws.SegmentsAreUtf8 | src/migration/backend/postgresql.rs:384-391 | every cut falls on a character boundary |
| SchemaNormalizer.NormalizeObserved | src/migration/backend/mod.rs:153-292 | the outer loop over tables equals its specification, errors included |
| SchemaNormalizer.NormalizeIndices | src/migration/backend/mod.rs:194-269 | the loop over indices, with shape matching and shadow removal, equals its specification |
| SchemaNormalizer.NormalizeIndexColumns | src/migration/backend/mod.rs:223-255 | the loop over an index's columns resolves each name and sets the key flags in place as specified |
| SchemaNormalizerLaws.FindShapeFirst | src/migration/backend/mod.rs:294-303 | whenever a target index has the observed shape, the first such index is the one found |
| SchemaNormalizer.NormalizeColumns | src/migration/backend/mod.rs:168-193 | the loop over columns equals its specification and stops at the first unmapped type |
| SchemaNormalizerLaws.NormalizeRendered | src/migration/backend/mod.rs:153-292 | normalizing the rendering of a well-formed schema gives its canonical form |
| SchemaNormalizerLaws.NormalizeFixpointIff | src/migration/manager.rs:145-162 | normalizing the rendering of a schema against itself gives exactly that schema if and only if no table has two indices of one shape |
| SchemaNormalizerStability.NormalizeIgnoresMatchedNames | src/migration/backend/mod.rs:200-269 | renaming observed indices whose shape the target has never changes the result |
| SchemaNormalizerStability.NormalizeIsWellFormed | src/migration/backend/mod.rs:164-290 | ids equal positions, index columns resolve to the observed names, and the primary key mirrors its index |
| SchemaNormalizerAnswers.TableFields | src/migration/backend/mod.rs:169-255 | types are the typer's, a column is versionable if the model's is, it belongs to the key if a kept primary index names it unless the model's column does not, and operations and scopes of index columns are the model's |
| SchemaNormalizerAnswers.TableAnswers | src/migration/backend/mod.rs:169-276 | a table is normalized exactly when every column can be typed, the kept indices name columns that are there and one is primary; otherwise the first failure in this order is named |
| SchemaNormalizerAnswers.SchemaAnswers | src/migration/backend/mod.rs:160-292 | a catalog without diagnostics is normalized exactly when each table is, and the first that is not decides |
| SchemaNormalizerStability.NormalTableIndexNamesDistinct | src/migration/backend/mod.rs:202-269 | despite renaming and shadow removal index names stay distinct |
| SchemaNormalizerStability.NormalizeIdempotent | src/migration/backend/mod.rs:153-292 | normalizing the rendering of a normalized schema changes nothing |
| MySqlEnum.ParseEnum | src/migration/backend/mysql.rs:771-811 | the nested loops over the characters terminate and equal the grammar, error cases included |
| MySqlEnum.ReadValue | src/migration/backend/mysql.rs:786-802 | one quoted value is read to its closing quote with escapes and doubled quotes resolved |
| MySqlEnum.LabelsRoundTrip | src/migration/backend/mysql.rs:771-811 | every non-empty list of labels survives rendering and parsing |
| MySqlEnum.AcceptedIff | src/migration/backend/mysql.rs:771-811 | a text is accepted with these labels if and only if it is a non-empty list of them in the quoted notation: separators before each value, escapes and doubled quotes within, none after the last |
| MySqlEnum.RefusedIff | src/migration/backend/mysql.rs:771-811 | and every other text for exactly one reason: no `enum(...)`, nothing in it, or after some values no quote behind the separators, a lone backslash at the end, or a value that never ends |
| Fingerprint.Fingerprint | src/migration/backend/mod.rs:72-79 | the byte loop computes the specified 64-bit hash and its sixteen digits |
| Fingerprint.MixInjective | src/migration/backend/mod.rs:75-76 | each step is injective in the state, as the multiplier is odd |
| Fingerprint.HexInjective | src/migration/backend/mod.rs:78-78 | sixteen hexadecimal digits determine the word |
| Fingerprint.OneByteChangesFingerprint | src/migration/backend/mod.rs:72-79 | equal-length renderings that differ in one byte have different fingerprints |
| Fingerprint.XorBits | src/migration/backend/mod.rs:75-75 | bit by bit, the exclusive or is one exactly where its two operands differ |
| Fingerprint.PublishedValues | src/migration/backend/mod.rs:72-77 | the hashes of the empty text and of "a" are the published ones of 64-bit FNV-1a |
| Fingerprint.WrittenForm | src/migration/backend/mod.rs:78-78 | a fingerprint is its prefix and sixteen lower-case digits of the hash, the most significant first |
| Registry.CheckValues | src/registry.rs:261-269 | the check accepts exactly the alias tables in which no source is an alias |
| RegistryLaws.LazyLoading | src/registry.rs:412-434 | over every interleaving, failure and cancellation each source is published at most once, a failed call has changed nothing, and all callers of a code hold the same connection, unless it is a modelled alias and one was registered ahead of a loadable source |
| RegistryLaws.StepKeeps | src/registry.rs:412-545 | each step of a load keeps the map, the load lock and every caller consistent |
| RegistryLaws.AliasesFollowSource | src/registry.rs:527-554 | a model-less alias always shares its source's database; a modelled one is made from the source's URL, if none was registered ahead of a loadable source |
| RegistryAnswers.AnswersBearCodes | src/registry.rs:412-434 | in every run each entry bears its key and each answer the code asked for, and the answer for a model-less alias is its source's entry with nothing but the code changed |
| RegistryAnswers.PublishedIsSwept | src/registry.rs:507-525 | in every run, whenever no call is loading, the model-less aliases of a loaded source have no entry of their own, whatever was registered for them |
| RegistryLaws.CachedStays | src/registry.rs:478-485 | what the lock-free look-up has answered it keeps answering |
| RegistryReplacement.AgreementIff | src/registry.rs:412-434 | all callers of a code hold the same connection in every run exactly when no modelled alias was registered ahead of a source that can be loaded |
| RegistryReplacement.MisplacedIsReplaced | src/registry.rs:507-525 | for every such alias there is a run in which two callers hold different connections |
| Paging.ApplyOrders | toasty-mgr-macros/src/query_spec.rs:462-493 | the loop over the orders equals its specification, the named field of a refusal included |
| Paging.EffectiveOrdering | toasty-mgr-macros/src/query_spec.rs:462-493 | the orders of the request, or the declared defaults if it has none, are refused exactly when they repeat a field, and the first repeated one is named; otherwise the ordering is those orders, followed by the tie-breaker exactly if they do not mention its field |
| Paging.SortedIsUnique | toasty-mgr-macros/src/query_spec.rs:408-417 | an ordering with a unique key leaves the database only one answer |
| Paging.PagesPartition | toasty-mgr-macros/src/query_spec.rs:502-552 | the accepted pages, each answered under the effective ordering by its own query, put together are the sorted list without gap or repeat, inner pages are full, later pages are empty and all report the same totals |
| Paging.AcceptedRequestsFit | toasty-mgr-macros/src/query_spec.rs:502-552 | a request is accepted exactly when page, size and offset fit and no sort field is repeated, and then no page count overflows |
| Paging.PageAnswers | toasty-mgr-macros/src/query_spec.rs:502-552 | which of its faults a request is refused for; an answered page reports what was asked for, the number of rows and the least page count with room for them, and holds the rows behind those of the pages before it |
| Paging.PrecedesIff | toasty-mgr-macros/src/query_spec.rs:484-491 | of two rows the one comes first that the first deciding order puts first |

## Left out

- `sync`: it writes neither ledger nor marker; only the normalizer's fixpoint, on which it rests, is proved.
- Toasty's differ, renderer, history and snapshot parsers, and the databases' execution of SQL: assumed as the laws in `Lineage.Laws`, and as files being read back as they were written; nothing is assumed of SQL that a database rejects. The laws are shown consistent by `ToyToasty`.
- Catalog queries, row decoding and native type tables: a catalog is what the backend's queries show, the column typer is a parameter, and an inspection that fails for another reason than an unsupported or untypable schema is not modelled. A database whose catalog shows exactly a schema is taken to have it, whatever the names of its primary indices, which databases choose and no generated SQL uses.
- The MySQL backend under the manager's loop: `MySqlManager` composes the two for calls that nothing disturbs; under failures and interleavings the loops are proved over the transactional backends, and the MySQL calls one at a time and interleaved.
- MySqlSafety.CrashSafety: assumes that each migration was applied above all ledgered ones, which `InOrderIffAscending` shows to be exact for id order, and that the rollback SQL that ran was an inverse.
- MySqlLineage.SettledOnSnapshot: assumes that applies took the next migration, which `PrefixIffInOrder` shows to be exact, that the first one found an empty schema or was adopted at its snapshot, which an empty start meets (`EmptyBaseIsBacked`), and that the database had accepted the statements in the state in which they ran.
- LineageLaws.EndToEnd: covers runs in which no migration is executed on a database with a schema that was not adopted and no database is adopted that is not read as it is; `SupportedIsExact` shows that in the toy nothing more can be covered, and `EmptyBaseSupportsAll` that this never matters on a database that starts out empty.
- LineageLaws.GenerateKeeps: that reverse SQL exists whenever forward SQL does is not promised when rename hints are given, since the hints are checked for existing names only (src/migration/manager.rs:1010-1031) and go to one direction; without hints it is.
- ToyLineage.SupportedIsExact: the converse is about one record that meets the laws; under the laws alone executed SQL may happen to reach a snapshot from any schema.
- MixedClients.MixedCalls: covers runs in which no rollback commits between an apply's read of the ids and its end, and no apply between a rollback's plan and its end unless ids increase; the two `Overtaken` lemmas give the exact effect of one such commit.
- RegistryLaws.LazyLoading: covers `get_or_load` with fixed models and aliases; reload, removal and explicit registration while loads run are not modelled.
- Paging.PagesPartition: takes the filtered rows to be the same for every page; fields are integers, and the order in which the database compares text is not modelled.
- Creation of the metadata tables, lock timeouts, source codes as ledger keys of the transactional backends (one source at a time), commit failures apart from failing ledger writes, and the check that ids fit a signed 64-bit column.
- The ledger tables in the catalog: on PostgreSQL alone the exclusive scope shows the ledger table to the normalizer as well (src/migration/backend/postgresql.rs:578, compared with mysql.rs:823 and sqlite.rs:584).
- File permissions, directories in place of files, flushing to disk, and concurrent generators on one lineage.
- Text that is not valid UTF-8, error messages, logging, URL assembly, builders and the other generated query methods.
- The planned features of docs/design/schema-migration-manager.md (plans, checksums, recovery by fingerprint) are not implemented in the code.
