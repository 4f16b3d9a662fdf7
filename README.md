# Experiment metadata store: ingest and update

This project models the part of the elog crawler that files crawled experiment artifacts into the SQLite experiment database. There are two engines.

- **`ExperimentDBManager`** (`save_to_db.py`) works in insert mode. Every statement is an `INSERT OR REPLACE`, and every `sqlite3.Error` is logged and swallowed.
- **`DatabaseUpdater`** (`update_db.py`) works in update-else-insert mode. It selects a matching row first, then updates selected columns or falls back to the inherited insert. Errors are re-raised.

Both engines do four things:

- Classify an artifact path by its suffix.
- Derive the experiment id from the file name.
- Turn parsed JSON and CSV records into statement parameters. This covers the logbook's carried run number and the "Checked" filter on detectors.
- Apply those statements to the tables.

The files follow the program's structure:

- `values.dfy` (module `Values`) covers the parsed input and the Python operations applied to it:
  - `d.get`, `d[k]`, truthiness, `int()`, and what a `for` loop visits;
  - the exceptions that can escape.
- `classify.dfy` (module `Classify`) covers `get_file_type` and the experiment id, which is the base name up to its first `.`.
- `tables.dfy` (module `Tables`) models the store.
  - Experiment is a map keyed by `experiment_id`. Run is a map keyed by its INTEGER PRIMARY KEY, with the largest key in use kept alongside.
  - The AUTOINCREMENT tables are sequences; row *i* has id *i+1*.
  - It also models parameter binding, INTEGER affinity and SQL `=` (NULL equals nothing).
  - Each `insert_*` and `update_*` statement is a function on the store.
  - The store also holds `committed`, the tables as the database file last saved them. `Commit` saves the live tables; `Reopen` opens a connection on a saved file; `Synced` says nothing is pending.
  - `Step` pairs the new store with the exception raised, if any. No transaction encloses a file, so what ran before a raise stays in the connection.
- `store_laws.dfy` (module `StoreLaws`) holds what the single statements promise: upserts, appends, tab replacement and first-match updates.
- `ingest.dfy` (module `Ingest`) defines the `process_*` methods, the dispatch, and the two command-line loops. These are functions on the store, for both modes. The directory is a map from path to decoded contents. `SaveToDb` and `UpdateMain` return an `Exit`: what the database file holds afterwards, and the exit status.
- `ingest_laws.dfy` (module `IngestLaws`) holds the properties of those definitions:
  - the carry-forward rule in both modes;
  - the detector filter;
  - one row per production entry;
  - re-ingesting an info file;
  - how the loops stop at the first exception;
  - what update_db leaves in the file.
- `pass_laws.dfy` (module `PassLaws`) holds the whole-file laws of the file-manager processors in both modes and of the update-mode production loop.
- `loop_laws.dfy` (module `LoopLaws`) states the per-file loops of both commands as one fold over a step that may raise. It proves the exit status against `Through`, the reference fold that ignores raises.
- `engine.dfy` (module `Engine`):
  - **`ExperimentDBManager`** is a class whose fields are the tables. Its insert and process methods update them in place. Each method's loop is proved equal to the `Ingest` definition.
  - **`DatabaseUpdater`** holds the inherited manager as `base`; the source's `super()` calls go to it. It adds the update methods and the overridden processors.
  - **`SaveToDbMain`** and **`UpdateDbMain`** are the two `main` loops.

The model follows the code, also where the code does less than its names suggest:

- Processing a file is not one transaction.
  - In insert mode every `insert_*` commits its own statement. An exception escaping a processor ends the run with status 1, and the file keeps every row written before it.
  - No `update_*` method commits. Only the inherited `insert_*` fallbacks do, and each such commit also saves every update pending before it.
  - update_db's `main` ends with `close()` or `sys.exit(1)`, and neither commits. So the file keeps the tables as of the last fallback insert, and every later update is lost.
  - Example: update_db over info files of experiments the database already holds exits 0 and leaves the file unchanged (`UpdateMainDiscardsExperimentUpdates`). For a new experiment, only the Experiment row that the fallback insert commits reaches the file (`UpdateMainKeepsFallbackInsert`).
- Insert mode never writes `experiment_id` on Detector, Logbook, DataProduction or FileManager rows.
  - The update path matches every one of those tables on `experiment_id`, so it never finds a row the insert path wrote (`UpdatesNeverMatchInserted`).
  - On a database whose dependent tables have an `experiment_id` column (the schema this model assumes, see "## Left out"), re-ingesting in update mode over rows the insert path wrote therefore appends a second copy of each row.
  - On the schema `create_tables` itself makes, those tables have no `experiment_id` column. There the first update_detector, update_logbook, update_data_production or update_file_manager SELECT fails with "no such column", the sqlite3.Error is re-raised, and update_db exits 1. This failure is not modelled.
- Insert-mode `process_file_manager` passes the raw CSV row to `insert_run`. That reads `Run`, but the CSV column is `Run Number`, so the key is NULL and SQLite picks a fresh one each time (`InsertRunNullKeyAddsRow`).
- A file-manager refresh in update mode calls `update_run` with NULL start and end times and NULL event counts. Afterwards the run holds the experiment and four NULL data columns, whatever it held before (`FileManagerRefreshClearsEvents`, `FileManagerUpdatePass`).
- Insert-mode `insert_experiment` reads the top-level keys of the info document. Update mode reads the parsed `main_content` block, but only for an experiment that already exists.

## Model

| member | source | states |
|---|---|---|
| Classify.GetFileType | elog_crawler/save_to_db.py:385-389 | a kind other than `unknown` is one whose suffix the path ends with |
| Classify.GetFileTypeCorrect | elog_crawler/save_to_db.py:385-389 | the kind is returned exactly when the path ends with that kind's suffix; `unknown` exactly when it ends with none |
| Classify.FileTypesSuffixFree | elog_crawler/save_to_db.py:97-102 | no suffix in the table ends with another, so at most one entry matches |
| Classify.FirstMatchIsOnlyMatch | elog_crawler/save_to_db.py:385-389 | in a suffix-free table the first matching entry is the one a path matches, whatever its position |
| Classify.ClassifyOrderIndependent | elog_crawler/save_to_db.py:97-102 | any reordering of a suffix-free table classifies every path alike, so dict order does not matter |
| Classify.Basename | elog_crawler/save_to_db.py:311 | the base name holds no `/`, is a suffix of the path, and is the whole path or follows a `/` |
| Classify.BeforeDot | elog_crawler/save_to_db.py:311 | `split('.')[0]` holds no `.`, is a prefix, and is the whole string or is followed by `.` |
| Classify.ExperimentId | elog_crawler/save_to_db.py:311 | the experiment id holds neither `.` nor `/` |
| Classify.ExperimentIdOfArtifact | elog_crawler/save_to_db.py:311 | `<dir>/<id><suffix>` gives back `id` and is classified as the suffix's kind |
| Tables.IntegerAffinity | elog_crawler/save_to_db.py:19 | text becomes an INTEGER exactly when it reads as an integer within 64 bits; every other cell is kept as it is |
| Tables.Bind | elog_crawler/update_db.py:80-82 | a parameter fails to bind, raising sqlite3.Error, exactly when it is a list, a dict, or an int outside the signed 64-bit range |
| Tables.Commit | elog_crawler/save_to_db.py:203 | afterwards nothing is pending, the live tables are unchanged, and only the saved file changes |
| Tables.Reopen | elog_crawler/save_to_db.py:82-86 | a connection on a saved file holds that file's tables with nothing pending |
| Tables.InsertExperiment | elog_crawler/save_to_db.py:186-208 | either nothing happens (a swallowed binding error) or the store is committed; only the Experiment table changes, and at most `id` is added to it |
| Tables.InsertRun | elog_crawler/save_to_db.py:210-229 | the key invariant is kept; only the Run table and its largest key change, and no run is removed; unbindable parameters, or a key that is neither NULL nor an integer SQLite can hold, leave the store unchanged (the swallowed sqlite3.Error); otherwise the row is stored under its key and the store is committed |
| Tables.InsertDetector | elog_crawler/save_to_db.py:231-247 | unbindable parameters leave the store unchanged (the swallowed sqlite3.Error); otherwise exactly one row is appended and the store is committed; the table only grows, and the new row names no experiment |
| Tables.InsertLogbook | elog_crawler/save_to_db.py:249-267 | unbindable parameters leave the store unchanged (the swallowed sqlite3.Error); otherwise exactly one row is appended and the store is committed; the table only grows, and the new row names no experiment |
| Tables.InsertDataProduction | elog_crawler/save_to_db.py:269-288 | unbindable parameters leave the store unchanged (the swallowed sqlite3.Error); otherwise exactly one row is appended and the store is committed; the table only grows, and the new row names no experiment |
| Tables.InsertFileManager | elog_crawler/save_to_db.py:290-306 | unbindable parameters leave the store unchanged (the swallowed sqlite3.Error); otherwise exactly one row is appended and the store is committed; the table only grows, and the new row names no experiment |
| Tables.UpdateExperiment | elog_crawler/update_db.py:26-82 | only the Experiment and tab tables change; an existing experiment commits nothing, a new one commits what insert_experiment commits; at most `id` is added |
| Tables.UpdateRun | elog_crawler/update_db.py:84-114 | the key invariant is kept; a raise changes nothing; only the Run table changes and no run is removed; the file either stays as it was or is committed by the insert fallback |
| Tables.UpdateDetector | elog_crawler/update_db.py:116-141 | unbindable match keys raise sqlite3.Error with the store unchanged, and any raise changes nothing; existing rows change in their status only; at most one row is added, naming no experiment; only the fallback commits |
| Tables.UpdateLogbook | elog_crawler/update_db.py:143-170 | unbindable match keys raise sqlite3.Error with the store unchanged, and any raise changes nothing; existing rows change in content and tags only; at most one row is added, naming no experiment; only the fallback commits |
| Tables.UpdateDataProduction | elog_crawler/update_db.py:172-200 | unbindable match keys raise sqlite3.Error with the store unchanged, and any raise changes nothing; no row changes its experiment or run; at most one row is added, naming no experiment; only the fallback commits |
| Tables.UpdateFileManager | elog_crawler/update_db.py:202-227 | unbindable match keys raise sqlite3.Error with the store unchanged, and any raise changes nothing; no row changes its experiment or run; at most one row is added, naming no experiment; only the fallback commits |
| Tables.FirstWhere | elog_crawler/update_db.py:152-155 | the index returned satisfies the match and no earlier row does; None means no row matches |
| StoreLaws.InsertExperimentUpsert | elog_crawler/save_to_db.py:186-208 | afterwards the id holds exactly the incoming top-level values; other experiments and tables are unchanged; an unbindable row changes nothing |
| StoreLaws.InsertExperimentIdempotent | elog_crawler/save_to_db.py:186-202 | repeating the same insert leaves the store as the first call left it |
| StoreLaws.InsertRunReplaces | elog_crawler/save_to_db.py:210-223 | an integer key's row is replaced whole, experiment_id included; other runs and tables are unchanged |
| StoreLaws.InsertRunNullKeyAddsRow | elog_crawler/save_to_db.py:323-324 | a NULL run number adds one row under a key no existing row has and keeps every existing row |
| StoreLaws.InsertRunMismatchIgnored | elog_crawler/save_to_db.py:226-229 | a text key that is not an integer, or is one beyond 64 bits, fails and the swallowed error leaves the store unchanged |
| StoreLaws.RefreshOfNonIntegerRunIsNoop | elog_crawler/update_db.py:254-262 | the update-mode refresh of a run whose `Run Number` is text that is not an integer SQLite can hold keeps it as text, raises nothing and changes nothing |
| StoreLaws.OverRangeRunNumberWritesNoRun | elog_crawler/update_db.py:254-262 | a `Run Number` of twenty nines stays text, and the update-mode refresh of it writes no Run row and changes nothing |
| StoreLaws.DigitsValueAtLeast | elog_crawler/save_to_db.py:19 | decimal digits with a nonzero lead are worth at least 10 to the power of one less than their count |
| StoreLaws.InsertDetectorAppends | elog_crawler/save_to_db.py:231-247 | one row appended under a fresh id; old rows and other tables unchanged; repeating adds a second copy |
| StoreLaws.InsertLogbookAppends | elog_crawler/save_to_db.py:249-267 | one row appended; old rows and other tables unchanged; repeating adds a second copy |
| StoreLaws.InsertDataProductionAppends | elog_crawler/save_to_db.py:269-288 | one row appended; old rows and other tables unchanged; repeating adds a second copy |
| StoreLaws.InsertFileManagerAppends | elog_crawler/save_to_db.py:290-306 | one row appended; old rows and other tables unchanged; repeating adds a second copy |
| StoreLaws.InsertedRowsHaveNoExperiment | elog_crawler/save_to_db.py:233-300 | the dependent rows the insert statements write carry a NULL experiment_id |
| StoreLaws.TabsOfReplaced | elog_crawler/update_db.py:65-78 | deleting an experiment's tabs and appending new ones leaves it exactly the new rows; other experiments keep theirs |
| StoreLaws.UpdateExperimentTabRows | elog_crawler/update_db.py:65-78 | with a dict `tabs`, the tab table becomes the old rows without this experiment's, then one row per entry |
| StoreLaws.UpdateExperimentReplacesTabs | elog_crawler/update_db.py:65-78 | one tab row per key of `tabs` for the experiment, no stale tab survives, other experiments' tabs unchanged |
| StoreLaws.UpdateExperimentTabsIdempotent | elog_crawler/update_db.py:65-78 | repeating the update yields the same tab set for every experiment |
| StoreLaws.UpdateExperimentBadTabsDeletes | elog_crawler/update_db.py:72-73 | a `tabs` value that is not a dict raises AttributeError after the delete, leaving the experiment no tab rows |
| StoreLaws.UpdateExperimentColumns | elog_crawler/update_db.py:30-63 | an existing experiment takes the parsed main-content columns, or raises when they cannot bind; a new one is inserted from the top-level keys |
| StoreLaws.RunColumnsSplit | elog_crawler/update_db.py:84-107 | the six Run parameters bind exactly when the key pair and the four data columns bind |
| StoreLaws.UpdateRunOverwrites | elog_crawler/update_db.py:84-114 | on a match with bindable columns the store is the old one with only that run's four data columns overwritten, NULLs included; a match with an unbindable data column raises and changes nothing; no match is insert_run; unbindable keys raise |
| StoreLaws.FileManagerRefreshClearsEvents | elog_crawler/update_db.py:254-262 | for any integer run number, the refresh leaves that key holding the experiment and four NULL data columns, matched or not; nothing else changes and only the insert fallback commits |
| StoreLaws.UpdateDetectorSelective | elog_crawler/update_db.py:116-141 | on a match only the status of the matching rows changes and no row is added; otherwise insert_detector |
| StoreLaws.UpdateLogbookFirstMatch | elog_crawler/update_db.py:143-170 | only content and tags of the first matching row change |
| StoreLaws.UpdateDataProductionFirstMatch | elog_crawler/update_db.py:172-200 | only the five data columns of the first matching row change |
| StoreLaws.UpdateFileManagerFirstMatch | elog_crawler/update_db.py:202-227 | only the two counts of the first matching row change; the other rows and tables are unchanged |
| StoreLaws.UpdateDetectorNeverMatchesInserted | elog_crawler/update_db.py:119-123 | over rows with NULL experiment_id, update_detector always falls back to an insert |
| StoreLaws.UpdatesNeverMatchInserted | elog_crawler/update_db.py:148-152 | the same for update_logbook, update_data_production and update_file_manager |
| Ingest.ProcessInfo | elog_crawler/update_db.py:231-247 | the update-mode info processor never raises, since every exception is caught |
| Ingest.ProcessFileManager | elog_crawler/save_to_db.py:318-332 | only the Run and FileManager tables change; insert mode commits everything; no row comes to name an experiment |
| Ingest.WriteLogbook | elog_crawler/update_db.py:292 | only the Logbook table changes; in insert mode nothing raises and nothing stays pending |
| Ingest.ProcessLogbook | elog_crawler/save_to_db.py:334-352 | only the Logbook table changes; insert mode commits everything; no row comes to name an experiment |
| Ingest.WriteProduction | elog_crawler/update_db.py:313 | only the DataProduction table changes; in insert mode nothing raises and nothing stays pending |
| Ingest.WriteDetector | elog_crawler/update_db.py:325 | only the Detector table changes; in insert mode nothing raises and nothing stays pending |
| Ingest.ProcessRuntable | elog_crawler/save_to_db.py:353-375 | only the DataProduction and Detector tables change; insert mode commits everything; no row comes to name an experiment |
| Ingest.ProcessFile | elog_crawler/save_to_db.py:377-383 | a file of a kind other than info leaves the Experiment and tab tables alone; insert mode commits everything; no dependent row comes to name an experiment |
| Ingest.InsertMain | elog_crawler/save_to_db.py:394-405 | the status is 0 or 1; the loop keeps the key invariant, keeps nothing pending, and keeps every dependent row without an experiment |
| Ingest.UpdateFiles | elog_crawler/update_db.py:342-360 | the status is 0 or 1; the loop keeps the key invariant and keeps every dependent row without an experiment |
| Ingest.SaveToDb | elog_crawler/save_to_db.py:394-405 | the file afterwards holds the insert-mode loop's final tables, and the status is the loop's |
| Ingest.UpdateMain | elog_crawler/update_db.py:331-360 | a missing database file gives no file and status 1; otherwise the file survives and the status is 0 or 1 |
| IngestLaws.MostRecentFits | elog_crawler/save_to_db.py:339-340 | a carried run number read from well-formed cells fits SQLite's 64-bit integers |
| IngestLaws.LogbookInsertCarriesForward | elog_crawler/save_to_db.py:334-352 | an insert-mode pass appends exactly the reference rows: each row under the most recent run named at or before it, none before the first |
| IngestLaws.NoRunYetNothingWritten | elog_crawler/save_to_db.py:337-341 | rows before the first named run are dropped |
| IngestLaws.MostRecentIsLatest | elog_crawler/save_to_db.py:339-340 | the carried run is the one the latest naming row names |
| IngestLaws.WrittenSnoc | elog_crawler/save_to_db.py:338-348 | a further row is written under the run it names, or else under the one carried to it |
| IngestLaws.MostRecentIsCarried | elog_crawler/save_to_db.py:339-341 | the carried run depends on the `Run` cells alone |
| IngestLaws.CarryForwardExample | elog_crawler/save_to_db.py:337-341 | `Run` cells 5, -, -, 6, - carry 5, 5, 5, 6, 6; cells -, -, 7 drop the first two rows |
| IngestLaws.IssuedAgreesWithWritten | elog_crawler/update_db.py:275-292 | both modes issue the insert-mode reference rows one for one and in order; update mode tags each with the experiment id |
| IngestLaws.LogbookUpdateCarriesForward | elog_crawler/update_db.py:275-295 | an update-mode pass raises nothing and applies update_logbook to exactly those dicts, in order |
| IngestLaws.UpdateEach | elog_crawler/update_db.py:143-170 | logbook updates leave every other table unchanged |
| IngestLaws.ProductionRowsOf | elog_crawler/save_to_db.py:356-364 | one DataProduction row per entry, in order |
| IngestLaws.ProductionInsertOnePerEntry | elog_crawler/save_to_db.py:356-364 | an insert-mode pass over well-formed entries appends exactly those rows and raises nothing |
| IngestLaws.DetectorInsertOnePerRequest | elog_crawler/save_to_db.py:365-372 | in insert mode every detector dict becomes one appended row, in field order |
| IngestLaws.CheckedDetectorsExact | elog_crawler/save_to_db.py:365-372 | a request is made for a name exactly when the name is not `Run` and its field is `Checked`; each request carries the entry's run and status `Checked` |
| IngestLaws.ProcessFileNoop | elog_crawler/save_to_db.py:377-383 | a missing, unknown, undecodable or empty file, or an info or runtable document that is falsy, changes nothing and raises nothing, in either mode |
| IngestLaws.InfoReingestIdempotent | elog_crawler/save_to_db.py:308-316 | re-ingesting an info file in insert mode leaves the store as one ingest did |
| IngestLaws.InsertMainStops | elog_crawler/save_to_db.py:402-403 | once a file raises, later files have no effect |
| IngestLaws.InsertMainComposes | elog_crawler/save_to_db.py:402-403 | a successful run over some files, continued over more, equals a fresh run over the rest on its result |
| IngestLaws.Existing | elog_crawler/update_db.py:345-350 | the files kept are exactly those listed that exist |
| IngestLaws.UpdateFilesSkipsMissing | elog_crawler/update_db.py:345-350 | update mode over a list behaves as over its existing files alone |
| IngestLaws.UpdateFilesStops | elog_crawler/update_db.py:342-360 | once an update-mode file raises, the run has stopped with status 1 |
| IngestLaws.InfoUpdateExisting | elog_crawler/update_db.py:26-63 | an update-mode info file of an experiment already stored raises nothing, commits nothing and adds no experiment |
| IngestLaws.UpdateInfoOnly | elog_crawler/update_db.py:342-352 | update mode over info files of stored experiments exits 0 with nothing committed and the same experiments |
| IngestLaws.UpdateMainDiscardsExperimentUpdates | elog_crawler/update_db.py:352 | update_db over info files of experiments the file already holds exits 0 and leaves the file exactly as it was |
| IngestLaws.UpdateMainKeepsFallbackInsert | elog_crawler/save_to_db.py:186-203 | update_db over the info file of a new experiment leaves the file with that one Experiment row added, as insert_experiment committed it, and nothing else; status 0 |
| IngestLaws.InfoFallbackCommits | elog_crawler/save_to_db.py:186-203 | the update-mode info processor on a new experiment raises nothing and commits the store with the new Experiment row |
| IngestLaws.UpdateMainNeedsDatabase | elog_crawler/update_db.py:353-357 | a missing database file gives status 1 whatever the files |
| PassLaws.FileManagerRowsFor | elog_crawler/save_to_db.py:325-330 | one FileManager row per CSV row |
| PassLaws.FreshRuns | elog_crawler/save_to_db.py:323-324 | the keys are exactly the `n` after `high`, each holding a bare Run row of the experiment |
| PassLaws.BareRunInsert | elog_crawler/save_to_db.py:323-324 | insert_run on a file-manager row puts a bare Run row of the experiment under the next key, and commits |
| PassLaws.InsertHead | elog_crawler/save_to_db.py:322-330 | one insert-mode row raises nothing, adds one bare Run row under the next key, appends its FileManager row, and commits |
| PassLaws.FileManagerInsertPass | elog_crawler/save_to_db.py:318-332 | the insert-mode pass adds one bare Run row per CSV row under the next free keys, appends one FileManager row per CSV row in order, raises nothing, commits, and changes no other table |
| PassLaws.FileManagerInsertMissingColumn | elog_crawler/save_to_db.py:324-328 | a row missing one of the three columns raises KeyError after its Run row is added and committed; nothing else changes |
| PassLaws.UpdateHead | elog_crawler/update_db.py:254-270 | one update-mode row raises nothing, leaves its run bare, appends its FileManager row through the fallback insert, commits, and changes no other table |
| PassLaws.FileManagerUpdatePass | elog_crawler/update_db.py:249-273 | the update-mode pass leaves every run the CSV names bare, existing or new, keeps every other run, appends one FileManager row per CSV row in order, raises nothing, and changes no other table |
| PassLaws.ProductionUpdateHead | elog_crawler/update_db.py:303-313 | the first entry falls back to insert_data_production: its row is appended and committed, and the pass goes on with the rest |
| PassLaws.ProductionUpdatePass | elog_crawler/update_db.py:303-313 | the update-mode production pass appends one row per entry, in order, raises nothing, and changes no other table |
| PassLaws.ProductionModesAgree | elog_crawler/update_db.py:303-313 | entries insert mode writes are written by update mode as the same rows |
| LoopLaws.Loop | elog_crawler/save_to_db.py:402-403 | a per-file loop that stops at the first raise exits with 0 or 1 |
| LoopLaws.LoopStops | elog_crawler/save_to_db.py:402-403 | once the loop has stopped, more files change nothing |
| LoopLaws.LoopComposes | elog_crawler/save_to_db.py:402-403 | a clean loop continued over more files is the loop over the rest on its result |
| LoopLaws.LoopExitCode | elog_crawler/save_to_db.py:394-405 | the status is 0 exactly when no file raises along the fold that ignores raises, and then the store is that fold's |
| LoopLaws.LoopFailure | elog_crawler/save_to_db.py:402-403 | status 1 means some file is the first to raise, and the store is what that file's processor left |
| LoopLaws.InsertMainIsLoop | elog_crawler/save_to_db.py:394-405 | save_to_db's loop is the generic loop over the insert-mode step |
| LoopLaws.UpdateFilesIsLoop | elog_crawler/update_db.py:342-360 | update_db's loop is the generic loop over the update-mode step, which skips missing files |
| LoopLaws.InsertMainExitCode | elog_crawler/save_to_db.py:394-405 | save_to_db exits 0 exactly when no file raises along the fold that ignores raises, and then its store is that fold's |
| LoopLaws.InsertMainFailure | elog_crawler/save_to_db.py:402-403 | a status of 1 names the first file that raised, and the store is what its processor left |
| LoopLaws.UpdateFilesExitCode | elog_crawler/update_db.py:342-360 | update_db's loop exits 0 exactly when no existing file raises along the fold that ignores raises, and then its store is that fold's |
| LoopLaws.UpdateFilesFailure | elog_crawler/update_db.py:354-360 | a status of 1 names the first file that raised, and the store is what its processor left |
| Engine.ExperimentDBManager.constructor | elog_crawler/save_to_db.py:82-86 | the manager's tables are those of the given store |
| Engine.ExperimentDBManager.Commit | elog_crawler/save_to_db.py:203 | the manager's state afterwards is the committed state |
| Engine.ExperimentDBManager.InsertExperiment | elog_crawler/save_to_db.py:186-208 | the tables afterwards are the insert_experiment upsert of the tables before |
| Engine.ExperimentDBManager.InsertRun | elog_crawler/save_to_db.py:210-229 | the Run table and its largest key are those of the insert_run upsert; the key invariant is kept |
| Engine.ExperimentDBManager.InsertDetector | elog_crawler/save_to_db.py:231-247 | the tables afterwards are the append of insert_detector |
| Engine.ExperimentDBManager.InsertLogbook | elog_crawler/save_to_db.py:249-267 | the tables afterwards are the append of insert_logbook |
| Engine.ExperimentDBManager.InsertDataProduction | elog_crawler/save_to_db.py:269-288 | the tables afterwards are the append of insert_data_production |
| Engine.ExperimentDBManager.InsertFileManager | elog_crawler/save_to_db.py:290-306 | the tables afterwards are the append of insert_file_manager |
| Engine.ExperimentDBManager.ProcessInfoFile | elog_crawler/save_to_db.py:308-316 | the new tables and the exception equal the insert-mode info definition |
| Engine.ExperimentDBManager.ProcessFileManager | elog_crawler/save_to_db.py:318-332 | the row loop's tables and exception equal the insert-mode file-manager definition, so PassLaws.FileManagerInsertPass holds of it: one bare Run row and one FileManager row per CSV row |
| Engine.ExperimentDBManager.ProcessLogbook | elog_crawler/save_to_db.py:334-352 | the loop carrying the last run equals the insert-mode logbook definition, so the carry-forward laws hold of it |
| Engine.ExperimentDBManager.InsertLogbookRows | elog_crawler/save_to_db.py:337-348 | the row loop, carrying the last run named from None, equals the insert-mode logbook fold: a row before any run is skipped, a bad `Run` cell or a missing column raises |
| Engine.ExperimentDBManager.InsertCheckedDetectors | elog_crawler/save_to_db.py:366-372 | the inner detector loop writes the checked fields' rows, or raises KeyError before any row when `Run` is missing |
| Engine.ExperimentDBManager.InsertProductionEntries | elog_crawler/save_to_db.py:356-364 | the `Data Production` loop writes one production row per entry in order and stops at the first entry that raises, as the insert-mode production fold says |
| Engine.ExperimentDBManager.InsertDetectorEntries | elog_crawler/save_to_db.py:365-372 | the `Detectors` loop runs each entry's checked fields in order, raising AttributeError for an entry that is not a dict, as the insert-mode detector fold says |
| Engine.ExperimentDBManager.ProcessRuntable | elog_crawler/save_to_db.py:353-375 | the production loop, then the detector loop, equal the insert-mode runtable definition |
| Engine.ExperimentDBManager.ProcessFile | elog_crawler/save_to_db.py:377-383 | the processor of the classified kind runs; nothing for an unknown kind |
| Engine.ExperimentDBManager.ProcessFiles | elog_crawler/save_to_db.py:402-403 | processing the files in order, stopping at the first exception, leaves the tables and exit status of the insert-mode main definition |
| Engine.DatabaseUpdater.constructor | elog_crawler/update_db.py:11-24 | a new updater whose base tables are those of the existing store |
| Engine.DatabaseUpdater.Open | elog_crawler/update_db.py:11-15 | a missing database raises FileNotFoundError and creates nothing; otherwise an updater over that store |
| Engine.DatabaseUpdater.UpdateExperiment | elog_crawler/update_db.py:26-82 | update or insert, then the tab delete and the per-tab insert loop, equal the update_experiment definition |
| Engine.DatabaseUpdater.InsertTabs | elog_crawler/update_db.py:73-78 | the tab loop appends one Tab row per tab, in tab order, to the rows left by the delete, and changes no other table |
| Engine.DatabaseUpdater.UpdateRun | elog_crawler/update_db.py:84-114 | the new tables and the exception equal the update_run definition |
| Engine.DatabaseUpdater.UpdateDetector | elog_crawler/update_db.py:116-141 | the new tables and the exception equal the update_detector definition |
| Engine.DatabaseUpdater.UpdateLogbook | elog_crawler/update_db.py:143-170 | the new tables and the exception equal the update_logbook definition |
| Engine.DatabaseUpdater.UpdateDataProduction | elog_crawler/update_db.py:172-200 | the new tables and the exception equal the update_data_production definition |
| Engine.DatabaseUpdater.UpdateFileManager | elog_crawler/update_db.py:202-227 | the new tables and the exception equal the update_file_manager definition |
| Engine.DatabaseUpdater.ProcessInfoFile | elog_crawler/update_db.py:231-247 | equals the update-mode info definition, so it never raises |
| Engine.DatabaseUpdater.ProcessFileManager | elog_crawler/update_db.py:249-273 | update_run, then update_file_manager per row, equal the update-mode file-manager definition, so PassLaws.FileManagerUpdatePass holds of it: every run named ends bare, one FileManager row per CSV row |
| Engine.DatabaseUpdater.ProcessLogbook | elog_crawler/update_db.py:275-295 | the loop carrying the last run equals the update-mode logbook definition |
| Engine.DatabaseUpdater.UpdateLogbookRows | elog_crawler/update_db.py:279-292 | the row loop, carrying the last run named from None, equals the update-mode logbook fold and stops at the first exception |
| Engine.DatabaseUpdater.UpdateCheckedDetectors | elog_crawler/update_db.py:317-325 | the inner detector loop updates the checked fields' rows, or raises KeyError before any row when `Run` is missing |
| Engine.DatabaseUpdater.UpdateProductionEntries | elog_crawler/update_db.py:303-313 | the `Data Production` loop equals the update-mode production fold and stops at the first exception, so PassLaws.ProductionUpdatePass holds of it: one row per entry, in order |
| Engine.DatabaseUpdater.UpdateDetectorEntries | elog_crawler/update_db.py:316-325 | the `Detectors` loop runs each entry's checked fields in order, as the update-mode detector fold says |
| Engine.DatabaseUpdater.ProcessRuntable | elog_crawler/update_db.py:297-329 | equals the update-mode runtable definition |
| Engine.DatabaseUpdater.ProcessFile | elog_crawler/update_db.py:18-24 | the overridden processors are the ones dispatched to |
| Engine.SaveToDbMain | elog_crawler/save_to_db.py:394-405 | the file and exit status equal the insert-mode main definition: the file keeps the loop's final tables |
| Engine.UpdateDbMain | elog_crawler/update_db.py:331-360 | the file and exit status equal the update-mode main, which skips missing files, stops with 1 at the first exception, and leaves the file as the last fallback insert committed it |
| Engine.ScanWithRun | elog_crawler/save_to_db.py:366-372 | with `Run` present, writing each checked field's row as the field loop reaches it is applying the collected requests in field order |
| Engine.ScanWithoutRun | elog_crawler/save_to_db.py:366-372 | with `Run` absent, the field loop raises KeyError, having written nothing, exactly when some field is checked, and otherwise changes nothing |
| Engine.ScanIsDetectorReqs | elog_crawler/update_db.py:317-325 | the field loop as it runs, in either mode, is the all-or-KeyError request list of DetectorReqsOf followed by its application |

## Left out

- The Selenium crawlers, the credential store, the file-manager visualisation and packaging are not part of this model. They are browser I/O, encryption, prompts and plotting.
- `json.load` and `csv.DictReader`. A file's decoded contents are given as input: a JSON value, or None when it is not valid JSON, and a list of CSV rows.
  - The `Contents` of a path hold both forms; a processor reads the one its kind uses.
  - CSV errors other than a missing file are not modelled.
- `parse_main_content` is not in the repository. It is a function parameter of the updater, and exceptions it might raise are not modelled.
- `json.dumps` of a tab's content: the tab row keeps the parsed value as it is.
- Logging, argparse and `create_tables`, which only fixes the schema.
  - The tables and columns the update path names but `create_tables` does not create are modelled as if they existed: the tabs table, `slack_channels` and the other extra experiment columns, and `experiment_id` on the dependent tables.
  - SQLite's "no such column" failure is not modelled.
- Transactions are modelled only as far as `commit()` and a `close()` without one go: journal files, a crash midway and other connections are not modelled.
- Values:
  - Floating-point JSON numbers are not modelled.
  - TEXT and NUMERIC affinity are not modelled. Of INTEGER affinity only the conversion of integer text is (see Tables.IntegerAffinity below).
  - Duplicate keys in one JSON object are not modelled.
  - Rowid overflow past 2^63 is not modelled.
- Tables.IntegerAffinity: converts an optional sign and decimal digits only. Real text with an integer value, such as '5.0' or '3.0e+5', which SQLite stores in an INTEGER column as 5 and 300000, stays text here; integer text beyond 64 bits, which SQLite stores as REAL, also stays text, and as a Run key it is the datatype mismatch insert_run swallows, as SQLite's REAL would be.
- Tables.Bind: Python's OverflowError for an int outside 64 bits is modelled as the sqlite3.Error outcome. Both are swallowed in insert mode and re-raised in update mode, so the outcome is the same.
- Values.ParseInt: accepts an optional sign and ASCII decimal digits. It does not model the surrounding whitespace, the underscores or the non-ASCII digits Python's `int()` also accepts.
- Tables.FirstWhere: a SELECT without ORDER BY is taken to return rows in id order.
- The exceptions that escape a `process_*` method in insert mode other than TypeError, AttributeError, KeyError and the ValueError of `int()` on a logbook `Run` cell are not modelled. `sqlite3.Error` is always swallowed there.
- A file whose bytes are not valid text is not modelled. Reading it raises UnicodeDecodeError, which `parse_json` and `parse_csv` do not catch. In insert mode that ends the run with status 1; in update mode it does too, except for an info file, whose processor catches every exception. The model can only give such a file no JSON value, which is read as invalid JSON and skipped.
- IngestLaws.LogbookInsertCarriesForward and IngestLaws.LogbookUpdateCarriesForward are stated for well-formed logs only: every `Run` cell blank or an integer, and the four columns present. The raising paths are modelled in `Ingest.LogbookRows`, but no lemma states them.
- IngestLaws.ProductionInsertOnePerEntry and IngestLaws.DetectorInsertOnePerRequest are stated for entries whose values bind. An unbindable entry is swallowed by the insert and writes no row, which `StoreLaws.InsertRunMismatchIgnored` and the `!Bindable(...) ==> t == s` clauses of the Tables insert functions state for the single statement.
- PassLaws.FileManagerInsertPass is stated for rows that carry the three columns, text cells and none of the Run table's column names. A row missing a column is stated by PassLaws.FileManagerInsertMissingColumn; a CSV with a `Run` column is not stated as a pass.
- PassLaws.FileManagerUpdatePass and PassLaws.ProductionUpdatePass are stated for a store where no FileManager or DataProduction row names the experiment. `Tables.NoOwners` gives that, and both loops keep it (the `NoOwners` clauses of Ingest.InsertMain and Ingest.UpdateFiles). The in-place branch, where such a row exists, is stated only per statement, by StoreLaws.UpdateFileManagerFirstMatch and StoreLaws.UpdateDataProductionFirstMatch. Two kinds of input fall outside `PassLaws.UpdateRowsOk` and `PassLaws.ProductionUpdateOk` and are not stated as pass laws. Paths that do not raise: a `Run Number` that is missing (None), not integer text (empty text included), or beyond 64 bits matches no run, so update_run falls back to insert_run. For None that takes a fresh key; otherwise it is the swallowed datatype mismatch (`StoreLaws.RefreshOfNonIntegerRunIsNoop` states it for one row). update_file_manager then still appends its row. Paths that raise: a production entry that is not a dict, or one whose values do not bind.
- Engine.DatabaseUpdater: inheritance is modelled by composition. The updater holds the base manager as `base`, and its update methods write the base's tables directly.
