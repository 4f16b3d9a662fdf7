/** Turning parsed artifacts into statements: the process_* methods of both
    engines, the dispatch on the artifact kind and the per-file loops of the
    two command-line entry points, as functions on the store. These are the
    reference definitions the imperative engine is proved against. */
module Ingest {
  import opened Values
  import opened Tables
  import opened Classify

  /** Insert mode is ExperimentDBManager; update mode is DatabaseUpdater,
      whose info processor also needs the main-content normaliser. */
  datatype Mode = InsertMode | UpdateMode(parseMainContent: Value -> Record)

  /** What the two decoders make of one file: `json.load` (None when it
      raises JSONDecodeError) and `csv.DictReader` (rows keyed by the header). */
  datatype Contents = Contents(json: Option<Value>, csv: seq<Record>)

  /** The files present on disk; a path outside the map does not exist. */
  type FileSystem = map<string, Contents>

  /** `parse_json`: None for a missing or undecodable file. */
  function ParseJson(fs: FileSystem, path: string): Option<Value> {
    if path in fs then fs[path].json else None
  }

  /** `parse_csv`: None for a missing file. */
  function ParseCsv(fs: FileSystem, path: string): Option<seq<Record>> {
    if path in fs then Some(fs[path].csv) else None
  }

  // ---------------------------------------------------------------------
  // info
  // ---------------------------------------------------------------------

  /** `process_info_file`. Insert mode: a falsy or missing document changes
      nothing; a document that is not a dict raises TypeError at
      `data['experiment_id'] = ...`; otherwise insert_experiment. Update mode
      catches every exception, so it never raises, but keeps what
      update_experiment did before raising. */
  function ProcessInfo(s: DbState, path: string, fs: FileSystem, mode: Mode): (t: Step)
    requires Valid(s)
    ensures Valid(t.db)
    ensures mode.UpdateMode? ==> t.raised == None
    ensures t.db.(experiments := s.experiments, tabs := s.tabs, committed := s.committed) == s
    ensures mode.InsertMode? ==> t.db.tabs == s.tabs && (Synced(s) ==> Synced(t.db))
  {
    match ParseJson(fs, path)
    case None => Step(s, None)
    case Some(data) =>
      if !Truthy(data) then Step(s, None)
      else if !data.Dict? then (if mode.InsertMode? then Step(s, Some(TypeError)) else Step(s, None))
      else if mode.InsertMode? then Step(InsertExperiment(s, ExperimentId(path), data.entries), None)
      else Step(UpdateExperiment(s, ExperimentId(path), data.entries, mode.parseMainContent).db, None)
  }

  // ---------------------------------------------------------------------
  // file_manager
  // ---------------------------------------------------------------------

  /** The dict insert-mode process_file_manager hands to insert_run: the raw
      CSV row with `experiment_id` set, read with `data.get('Run')` and so on.
      The CSV column is `Run Number`, so `Run` is normally NULL. */
  function InsertModeRunReq(id: string, row: Record): RunReq {
    RunReq(Get(row, "Run"), Str(id), Get(row, "start_time"), Get(row, "end_time"), Get(row, "n_events"), Get(row, "n_damaged"))
  }

  /** The three file-manager columns, read with `row[...]`. */
  function FileManagerFields(row: Record): Result<(Value, Value, Value)> {
    if HasKey(row, "Run Number") && HasKey(row, "Number of Files") && HasKey(row, "Total Size (bytes)") then
      Ok((Get(row, "Run Number"), Get(row, "Number of Files"), Get(row, "Total Size (bytes)")))
    else Fail(KeyError)
  }

  /** One CSV row of a file_manager artifact. Insert mode: insert_run with
      the raw row, then insert_file_manager (a missing column raises after
      the run row is written). Update mode: update_run with a run dict whose
      timing and counts are all None, then update_file_manager. */
  function FileManagerRowStep(s: DbState, id: string, row: Record, mode: Mode): (t: Step)
    requires Valid(s)
    ensures Valid(t.db)
    ensures t.db.(runs := s.runs, runHigh := s.runHigh, fileManager := s.fileManager, committed := s.committed) == s
    ensures mode.InsertMode? && Synced(s) ==> Synced(t.db)
    ensures NoOwners(s) ==> NoOwners(t.db)
  {
    if mode.InsertMode? then
      var s1 := InsertRun(s, InsertModeRunReq(id, row));
      match FileManagerFields(row)
      case Fail(e) => Step(s1, Some(e))
      case Ok((rn, nf, ts)) => Step(InsertFileManager(s1, FileManagerReq(Null, rn, nf, ts)), None)
    else
      match FileManagerFields(row)
      case Fail(e) =>
        // `row['Run Number']` is read first: when it is missing nothing runs;
        // when only a later column is missing, update_run has run.
        if !HasKey(row, "Run Number") then Step(s, Some(e))
        else
          var r := UpdateRun(s, RunReq(Get(row, "Run Number"), Str(id), Null, Null, Null, Null));
          if r.raised.Some? then r else Step(r.db, Some(e))
      case Ok((rn, nf, ts)) =>
        var r := UpdateRun(s, RunReq(rn, Str(id), Null, Null, Null, Null));
        if r.raised.Some? then r
        else UpdateFileManager(r.db, FileManagerReq(Str(id), rn, nf, ts))
  }

  /** The rows of a file_manager artifact in order, stopping at the first raise. */
  function FileManagerRows(s: DbState, id: string, rows: seq<Record>, mode: Mode): (t: Step)
    requires Valid(s)
    ensures Valid(t.db)
    ensures t.db.(runs := s.runs, runHigh := s.runHigh, fileManager := s.fileManager, committed := s.committed) == s
    ensures mode.InsertMode? && Synced(s) ==> Synced(t.db)
    ensures NoOwners(s) ==> NoOwners(t.db)
    decreases |rows|
  {
    if rows == [] then Step(s, None)
    else
      var r := FileManagerRowStep(s, id, rows[0], mode);
      if r.raised.Some? then r else FileManagerRows(r.db, id, rows[1..], mode)
  }

  /** `process_file_manager`: a missing file or an empty CSV changes nothing. */
  function ProcessFileManager(s: DbState, path: string, fs: FileSystem, mode: Mode): (t: Step)
    requires Valid(s)
    ensures Valid(t.db)
    ensures t.db.(runs := s.runs, runHigh := s.runHigh, fileManager := s.fileManager, committed := s.committed) == s
    ensures mode.InsertMode? && Synced(s) ==> Synced(t.db)
    ensures NoOwners(s) ==> NoOwners(t.db)
  {
    match ParseCsv(fs, path)
    case None => Step(s, None)
    case Some(rows) => if rows == [] then Step(s, None) else FileManagerRows(s, ExperimentId(path), rows, mode)
  }

  // ---------------------------------------------------------------------
  // logbook
  // ---------------------------------------------------------------------

  /** The explicit run number of a logbook row: `row['Run']` (KeyError when
      the column is missing), None when blank, else `int(row['Run'])`. */
  function ExplicitRun(row: Record): Result<Option<int>> {
    match Lookup(row, "Run")
    case Fail(e) => Fail(e)
    case Ok(v) =>
      if !Truthy(v) then Ok(None)
      else match ToInt(v)
        case Fail(e) => Fail(e)
        case Ok(n) => Ok(Some(n))
  }

  /** The logbook dict for a row attributed to `run`, its columns read with
      `row[...]`; insert mode does not pass an experiment_id. */
  function LogbookReqOf(id: string, run: int, row: Record, mode: Mode): Result<LogbookReq> {
    if HasKey(row, "Posted") && HasKey(row, "Content") && HasKey(row, "Tags") && HasKey(row, "Author") then
      Ok(LogbookReq(if mode.InsertMode? then Null else Str(id), Int(run),
         Get(row, "Posted"), Get(row, "Content"), Get(row, "Tags"), Get(row, "Author")))
    else Fail(KeyError)
  }

  /** One logbook dict written: insert_logbook, or update_logbook. */
  function WriteLogbook(s: DbState, req: LogbookReq, mode: Mode): (t: Step)
    ensures t.db.(logbook := s.logbook, committed := s.committed) == s
    ensures mode.InsertMode? ==> t.raised == None && (Synced(s) ==> Synced(t.db))
    ensures NoOwners(s) ==> NoOwners(t.db)
  {
    if mode.InsertMode? then Step(InsertLogbook(s, req), None) else UpdateLogbook(s, req)
  }

  /** The logbook loop from a carried `last_run_number` on: each row first
      updates the carried run when it names one, and is then written under
      the carried run, or skipped while none has been seen. */
  function LogbookRows(s: DbState, id: string, last: Option<int>, rows: seq<Record>, mode: Mode): (t: Step)
    requires Valid(s)
    ensures Valid(t.db)
    ensures t.db.(logbook := s.logbook, committed := s.committed) == s
    ensures mode.InsertMode? && Synced(s) ==> Synced(t.db)
    ensures NoOwners(s) ==> NoOwners(t.db)
    decreases |rows|
  {
    if rows == [] then Step(s, None)
    else match ExplicitRun(rows[0])
      case Fail(e) => Step(s, Some(e))
      case Ok(explicit) =>
        var last' := if explicit.Some? then explicit else last;
        if last'.None? then LogbookRows(s, id, last', rows[1..], mode)
        else match LogbookReqOf(id, last'.value, rows[0], mode)
          case Fail(e) => Step(s, Some(e))
          case Ok(req) =>
            var r := WriteLogbook(s, req, mode);
            if r.raised.Some? then r else LogbookRows(r.db, id, last', rows[1..], mode)
  }

  /** `process_logbook`. */
  function ProcessLogbook(s: DbState, path: string, fs: FileSystem, mode: Mode): (t: Step)
    requires Valid(s)
    ensures Valid(t.db)
    ensures t.db.(logbook := s.logbook, committed := s.committed) == s
    ensures mode.InsertMode? && Synced(s) ==> Synced(t.db)
    ensures NoOwners(s) ==> NoOwners(t.db)
  {
    match ParseCsv(fs, path)
    case None => Step(s, None)
    case Some(rows) => if rows == [] then Step(s, None) else LogbookRows(s, ExperimentId(path), None, rows, mode)
  }

  // ---------------------------------------------------------------------
  // runtable
  // ---------------------------------------------------------------------

  /** The data-production dict for one `Data Production` entry. Insert mode
      reads `run['Run']` and so on (KeyError when missing, TypeError when the
      entry is not a dict); update mode reads `run.get(...)` (AttributeError
      when the entry is not a dict). */
  function ProductionReqOf(id: string, entry: Value, mode: Mode): Result<ProductionReq> {
    if !entry.Dict? then Fail(if mode.InsertMode? then TypeError else AttributeError)
    else
      var r := entry.entries;
      if mode.InsertMode? then
        if HasKey(r, "Run") && HasKey(r, "N events") && HasKey(r, "N damaged") && HasKey(r, "N dropped")
           && HasKey(r, "Prod Start") && HasKey(r, "Prod End")
        then Ok(ProductionReq(Null, Get(r, "Run"), Get(r, "N events"), Get(r, "N damaged"), Get(r, "N dropped"),
                              Get(r, "Prod Start"), Get(r, "Prod End")))
        else Fail(KeyError)
      else Ok(ProductionReq(Str(id), Get(r, "Run"), Get(r, "N events"), Get(r, "N damaged"), Get(r, "N dropped"),
                            Get(r, "Prod Start"), Get(r, "Prod End")))
  }

  /** One data-production dict written: insert_data_production, or
      update_data_production. */
  function WriteProduction(s: DbState, req: ProductionReq, mode: Mode): (t: Step)
    ensures t.db.(production := s.production, committed := s.committed) == s
    ensures mode.InsertMode? ==> t.raised == None && (Synced(s) ==> Synced(t.db))
    ensures NoOwners(s) ==> NoOwners(t.db)
  {
    if mode.InsertMode? then Step(InsertDataProduction(s, req), None) else UpdateDataProduction(s, req)
  }

  function ProductionEntries(s: DbState, id: string, entries: seq<Value>, mode: Mode): (t: Step)
    requires Valid(s)
    ensures Valid(t.db)
    ensures t.db.(production := s.production, committed := s.committed) == s
    ensures mode.InsertMode? && Synced(s) ==> Synced(t.db)
    ensures NoOwners(s) ==> NoOwners(t.db)
    decreases |entries|
  {
    if entries == [] then Step(s, None)
    else match ProductionReqOf(id, entries[0], mode)
      case Fail(e) => Step(s, Some(e))
      case Ok(req) =>
        var r := WriteProduction(s, req, mode);
        if r.raised.Some? then r else ProductionEntries(r.db, id, entries[1..], mode)
  }

  /** A detector field is recorded when it is not `Run` and reads `Checked`. */
  predicate IsChecked(field: (string, Value)) {
    field.0 != "Run" && field.1 == Str("Checked")
  }

  /** The detector dicts for the checked fields of one `Detectors` entry, in
      field order, each carrying `detector['Run']`. */
  function CheckedDetectors(id: string, run: Value, fields: Record, mode: Mode): (reqs: seq<DetectorReq>)
    decreases |fields|
  {
    if fields == [] then []
    else (if IsChecked(fields[0])
          then [DetectorReq(if mode.InsertMode? then Null else Str(id), run, Str(fields[0].0), fields[0].1)]
          else [])
         + CheckedDetectors(id, run, fields[1..], mode)
  }

  /** `detector['Run']` is read only for a checked field, so a `Detectors`
      entry without `Run` raises KeyError exactly when it has a checked field,
      before any of its rows is written. */
  function DetectorReqsOf(id: string, entry: Value, mode: Mode): Result<seq<DetectorReq>> {
    if !entry.Dict? then Fail(AttributeError)
    else if (exists i :: 0 <= i < |entry.entries| && IsChecked(entry.entries[i])) && !HasKey(entry.entries, "Run")
    then Fail(KeyError)
    else Ok(CheckedDetectors(id, Get(entry.entries, "Run"), entry.entries, mode))
  }

  /** One detector dict written: insert_detector, or update_detector. */
  function WriteDetector(s: DbState, req: DetectorReq, mode: Mode): (t: Step)
    ensures t.db.(detectors := s.detectors, committed := s.committed) == s
    ensures mode.InsertMode? ==> t.raised == None && (Synced(s) ==> Synced(t.db))
    ensures NoOwners(s) ==> NoOwners(t.db)
  {
    if mode.InsertMode? then Step(InsertDetector(s, req), None) else UpdateDetector(s, req)
  }

  function ApplyDetectors(s: DbState, reqs: seq<DetectorReq>, mode: Mode): (t: Step)
    requires Valid(s)
    ensures Valid(t.db)
    ensures t.db.(detectors := s.detectors, committed := s.committed) == s
    ensures mode.InsertMode? && Synced(s) ==> Synced(t.db)
    ensures NoOwners(s) ==> NoOwners(t.db)
    decreases |reqs|
  {
    if reqs == [] then Step(s, None)
    else
      var r := WriteDetector(s, reqs[0], mode);
      if r.raised.Some? then r else ApplyDetectors(r.db, reqs[1..], mode)
  }

  function DetectorEntries(s: DbState, id: string, entries: seq<Value>, mode: Mode): (t: Step)
    requires Valid(s)
    ensures Valid(t.db)
    ensures t.db.(detectors := s.detectors, committed := s.committed) == s
    ensures mode.InsertMode? && Synced(s) ==> Synced(t.db)
    ensures NoOwners(s) ==> NoOwners(t.db)
    decreases |entries|
  {
    if entries == [] then Step(s, None)
    else match DetectorReqsOf(id, entries[0], mode)
      case Fail(e) => Step(s, Some(e))
      case Ok(reqs) =>
        var r := ApplyDetectors(s, reqs, mode);
        if r.raised.Some? then r else DetectorEntries(r.db, id, entries[1..], mode)
  }

  /** `process_runtable`: the `Data Production` rows first, then the checked
      detectors; a document that is not a dict raises AttributeError at
      `data.get`, a section that cannot be iterated raises TypeError. */
  function ProcessRuntable(s: DbState, path: string, fs: FileSystem, mode: Mode): (t: Step)
    requires Valid(s)
    ensures Valid(t.db)
    ensures t.db.(production := s.production, detectors := s.detectors, committed := s.committed) == s
    ensures mode.InsertMode? && Synced(s) ==> Synced(t.db)
    ensures NoOwners(s) ==> NoOwners(t.db)
  {
    match ParseJson(fs, path)
    case None => Step(s, None)
    case Some(data) =>
      if !Truthy(data) then Step(s, None)
      else if !data.Dict? then Step(s, Some(AttributeError))
      else
        var id := ExperimentId(path);
        match Iterate(GetOr(data.entries, "Data Production", List([])))
        case Fail(e) => Step(s, Some(e))
        case Ok(runs) =>
          var r := ProductionEntries(s, id, runs, mode);
          if r.raised.Some? then r
          else match Iterate(GetOr(data.entries, "Detectors", List([])))
            case Fail(e) => Step(r.db, Some(e))
            case Ok(detectors) => DetectorEntries(r.db, id, detectors, mode)
  }

  // ---------------------------------------------------------------------
  // Dispatch and the entry points
  // ---------------------------------------------------------------------

  /** `process_file`: the processor of the classified kind; nothing for an
      unknown suffix. */
  function ProcessFile(s: DbState, path: string, fs: FileSystem, mode: Mode): (t: Step)
    requires Valid(s)
    ensures Valid(t.db)
    ensures GetFileType(path) != Info ==> t.db.experiments == s.experiments && t.db.tabs == s.tabs
    ensures mode.InsertMode? && Synced(s) ==> Synced(t.db)
    ensures NoOwners(s) ==> NoOwners(t.db)
  {
    match GetFileType(path)
    case Info => ProcessInfo(s, path, fs, mode)
    case FileManager => ProcessFileManager(s, path, fs, mode)
    case Logbook => ProcessLogbook(s, path, fs, mode)
    case Runtable => ProcessRuntable(s, path, fs, mode)
    case Unknown => Step(s, None)
  }

  /** Where a per-file loop stops: the connection's store and the exit
      status. */
  datatype Outcome = Outcome(db: DbState, exitCode: int)

  /** save_to_db's per-file loop: every file in order; an exception escaping
      a processor is uncaught and ends the process with status 1. Every
      statement commits as it goes, so nothing is left pending. */
  function InsertMain(s: DbState, files: seq<string>, fs: FileSystem): (o: Outcome)
    requires Valid(s)
    ensures Valid(o.db)
    ensures o.exitCode == 0 || o.exitCode == 1
    ensures Synced(s) ==> Synced(o.db)
    ensures NoOwners(s) ==> NoOwners(o.db)
    decreases |files|
  {
    if files == [] then Outcome(s, 0)
    else
      var r := ProcessFile(s, files[0], fs, InsertMode);
      if r.raised.Some? then Outcome(r.db, 1) else InsertMain(r.db, files[1..], fs)
  }

  /** The per-file loop of update_db's `main`: files that do not exist are
      skipped; an exception stops the loop and exits with status 1. */
  function UpdateFiles(s: DbState, files: seq<string>, fs: FileSystem, parseMainContent: Value -> Record): (o: Outcome)
    requires Valid(s)
    ensures Valid(o.db)
    ensures o.exitCode == 0 || o.exitCode == 1
    ensures NoOwners(s) ==> NoOwners(o.db)
    decreases |files|
  {
    if files == [] then Outcome(s, 0)
    else if files[0] !in fs then UpdateFiles(s, files[1..], fs, parseMainContent)
    else
      var r := ProcessFile(s, files[0], fs, UpdateMode(parseMainContent));
      if r.raised.Some? then Outcome(r.db, 1) else UpdateFiles(r.db, files[1..], fs, parseMainContent)
  }

  /** What a command leaves behind: the database file (None when there is
      none) and the process exit status. */
  datatype Exit = Exit(file: Option<Saved>, exitCode: int)

  /** save_to_db's `main`: connecting creates a missing file empty
      (`EmptyFile`), the loop runs, and `close()` keeps what was committed,
      which in insert mode is the whole final store. */
  function SaveToDb(file: Saved, files: seq<string>, fs: FileSystem): (e: Exit)
    requires Valid(Reopen(file))
    ensures e.file == Some(Snap(InsertMain(Reopen(file), files, fs).db))
    ensures e.exitCode == InsertMain(Reopen(file), files, fs).exitCode
  {
    var o := InsertMain(Reopen(file), files, fs);
    Exit(Some(o.db.committed), o.exitCode)
  }

  /** update_db's `main`: the DatabaseUpdater constructor raises
      FileNotFoundError when the database file does not exist, before
      anything is opened, and `main` exits with status 1. Otherwise the loop
      runs; then `close()`, or `sys.exit(1)` after an exception, ends the
      connection without a commit, so the file keeps the store as of the
      last commit, which only an insert fallback makes. */
  function UpdateMain(file: Option<Saved>, files: seq<string>, fs: FileSystem, parseMainContent: Value -> Record): (e: Exit)
    requires file.Some? ==> Valid(Reopen(file.value))
    ensures file.None? ==> e == Exit(None, 1)
    ensures e.exitCode == 0 || e.exitCode == 1
    ensures file.Some? ==> e.file.Some?
  {
    match file
    case None => Exit(None, 1)
    case Some(f) =>
      var o := UpdateFiles(Reopen(f), files, fs, parseMainContent);
      Exit(Some(o.db.committed), o.exitCode)
  }
}
