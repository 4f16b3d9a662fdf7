/** The two engines as objects over the tables they change in place:
    ExperimentDBManager (insert mode) and DatabaseUpdater (update-existing-
    else-insert), and the two command-line entry points. Each operation is
    proved to leave the tables as the reference function of the same name
    in Tables or Ingest describes. */
module Engine {
  import opened Values
  import opened Tables
  import opened Classify
  import opened Ingest

  class ExperimentDBManager {
    var experiments: map<string, ExperimentRow>
    var tabs: seq<TabRow>
    var runs: map<int, RunRow>
    var runHigh: int
    var detectors: seq<DetectorRow>
    var logbook: seq<LogbookRow>
    var production: seq<ProductionRow>
    var fileManager: seq<FileManagerRow>
    /** What the database file holds: the tables as of the last commit. */
    var committed: Saved

    /** The connection as one value. */
    function State(): DbState
      reads this
    {
      DbState(experiments, tabs, runs, runHigh, detectors, logbook, production, fileManager, committed)
    }

    predicate Valid()
      reads this
    {
      Tables.Valid(State())
    }

    /** Connecting to a database file: create_tables only creates missing
        tables, so the store holds what the file held, with nothing pending. */
    constructor(file: Saved)
      requires Tables.Valid(Reopen(file))
      ensures Valid() && State() == Reopen(file)
    {
      experiments, tabs, runs, runHigh := file.experiments, file.tabs, file.runs, file.runHigh;
      detectors, logbook, production, fileManager := file.detectors, file.logbook, file.production, file.fileManager;
      committed := file;
    }

    /** `self.conn.commit()`. */
    method Commit()
      modifies this
      ensures State() == Tables.Commit(old(State()))
    {
      committed := Snap(State());
    }

    method InsertExperiment(id: string, data: Record)
      modifies this
      ensures State() == Tables.InsertExperiment(old(State()), id, data)
    {
      if Bindable(InfoColumns(data)) {
        experiments := experiments[id := InfoRow(data)];
        Commit();
      }
    }

    method InsertRun(req: RunReq)
      requires Valid()
      modifies this
      ensures Valid() && State() == Tables.InsertRun(old(State()), req)
    {
      if Bindable(RunColumns(req)) {
        var k := RunKey(State(), B(req.run));
        if k.Some? {
          if |runs| == 0 || runHigh < k.value {
            runHigh := k.value;
          }
          runs := runs[k.value := RunRowOf(req)];
          Commit();
        }
      }
    }

    method InsertDetector(req: DetectorReq)
      modifies this
      ensures State() == Tables.InsertDetector(old(State()), req)
    {
      if Bindable(DetectorColumns(req)) {
        detectors := detectors + [DetectorRowOf(req)];
        Commit();
      }
    }

    method InsertLogbook(req: LogbookReq)
      modifies this
      ensures State() == Tables.InsertLogbook(old(State()), req)
    {
      if Bindable(LogbookColumns(req)) {
        logbook := logbook + [LogbookRowOf(req)];
        Commit();
      }
    }

    method InsertDataProduction(req: ProductionReq)
      modifies this
      ensures State() == Tables.InsertDataProduction(old(State()), req)
    {
      if Bindable(ProductionColumns(req)) {
        production := production + [ProductionRowOf(req)];
        Commit();
      }
    }

    method InsertFileManager(req: FileManagerReq)
      modifies this
      ensures State() == Tables.InsertFileManager(old(State()), req)
    {
      if Bindable(FileManagerColumns(req)) {
        fileManager := fileManager + [FileManagerRowOf(req)];
        Commit();
      }
    }

    method ProcessInfoFile(path: string, fs: FileSystem) returns (raised: Option<Error>)
      requires Valid()
      modifies this
      ensures Valid() && Step(State(), raised) == ProcessInfo(old(State()), path, fs, InsertMode)
    {
      var data := ParseJson(fs, path);
      if data.None? || !Truthy(data.value) {
        return None;
      }
      if !data.value.Dict? {
        return Some(TypeError);
      }
      InsertExperiment(ExperimentId(path), data.value.entries);
      return None;
    }

    method ProcessFileManager(path: string, fs: FileSystem) returns (raised: Option<Error>)
      requires Valid()
      modifies this
      ensures Valid() && Step(State(), raised) == Ingest.ProcessFileManager(old(State()), path, fs, InsertMode)
    {
      var data := ParseCsv(fs, path);
      if data.None? || data.value == [] {
        return None;
      }
      var rows, id := data.value, ExperimentId(path);
      var i := 0;
      while i < |rows|
        invariant 0 <= i <= |rows| && Valid()
        invariant FileManagerRows(old(State()), id, rows, InsertMode) == FileManagerRows(State(), id, rows[i..], InsertMode)
      {
        assert rows[i..][0] == rows[i] && rows[i..][1..] == rows[i + 1..];
        InsertRun(InsertModeRunReq(id, rows[i]));
        var fields := FileManagerFields(rows[i]);
        if fields.Fail? {
          return Some(fields.error);
        }
        var (rn, nf, ts) := fields.value;
        InsertFileManager(FileManagerReq(Null, rn, nf, ts));
        i := i + 1;
      }
      return None;
    }

    method ProcessLogbook(path: string, fs: FileSystem) returns (raised: Option<Error>)
      requires Valid()
      modifies this
      ensures Valid() && Step(State(), raised) == Ingest.ProcessLogbook(old(State()), path, fs, InsertMode)
    {
      var data := ParseCsv(fs, path);
      if data.None? || data.value == [] {
        return None;
      }
      raised := InsertLogbookRows(ExperimentId(path), data.value);
    }

    /** process_logbook's row loop, carrying `last_run_number` from None. */
    method InsertLogbookRows(id: string, rows: seq<Record>) returns (raised: Option<Error>)
      requires Valid()
      modifies this
      ensures Valid() && Step(State(), raised) == LogbookRows(old(State()), id, None, rows, InsertMode)
    {
      var last: Option<int> := None;
      var i := 0;
      while i < |rows|
        invariant 0 <= i <= |rows| && Valid()
        invariant LogbookRows(old(State()), id, None, rows, InsertMode) == LogbookRows(State(), id, last, rows[i..], InsertMode)
      {
        assert rows[i..][0] == rows[i] && rows[i..][1..] == rows[i + 1..];
        var run := Lookup(rows[i], "Run");
        if run.Fail? {
          return Some(run.error);
        }
        if Truthy(run.value) {
          var n := ToInt(run.value);
          if n.Fail? {
            return Some(n.error);
          }
          last := Some(n.value);
        }
        if last.Some? {
          var req := LogbookReqOf(id, last.value, rows[i], InsertMode);
          if req.Fail? {
            return Some(req.error);
          }
          InsertLogbook(req.value);
        }
        i := i + 1;
      }
      return None;
    }

    /** The checked fields of one `Detectors` entry, in field order. */
    method InsertCheckedDetectors(ghost id: string, fields: Record) returns (raised: Option<Error>)
      requires Valid()
      modifies this
      ensures Valid()
      ensures match DetectorReqsOf(id, Dict(fields), InsertMode)
        case Fail(e) => raised == Some(e) && State() == old(State())
        case Ok(reqs) => Step(State(), raised) == ApplyDetectors(old(State()), reqs, InsertMode)
    {
      ghost var run := RunField(fields);
      ScanIsDetectorReqs(State(), id, fields, InsertMode);
      var k := 0;
      while k < |fields|
        invariant 0 <= k <= |fields| && Valid()
        invariant ScanChecked(old(State()), id, run, fields, InsertMode) == ScanChecked(State(), id, run, fields[k..], InsertMode)
      {
        assert fields[k..][0] == fields[k] && fields[k..][1..] == fields[k + 1..];
        if IsChecked(fields[k]) {
          var value := Lookup(fields, "Run");
          if value.Fail? {
            return Some(value.error);
          }
          InsertDetector(DetectorReq(Null, value.value, Str(fields[k].0), fields[k].1));
        }
        k := k + 1;
      }
      return None;
    }

    /** The `Data Production` loop of process_runtable. */
    method InsertProductionEntries(id: string, entries: seq<Value>) returns (raised: Option<Error>)
      requires Valid()
      modifies this
      ensures Valid() && Step(State(), raised) == ProductionEntries(old(State()), id, entries, InsertMode)
    {
      var i := 0;
      while i < |entries|
        invariant 0 <= i <= |entries| && Valid()
        invariant ProductionEntries(old(State()), id, entries, InsertMode) == ProductionEntries(State(), id, entries[i..], InsertMode)
      {
        assert entries[i..][0] == entries[i] && entries[i..][1..] == entries[i + 1..];
        var req := ProductionReqOf(id, entries[i], InsertMode);
        if req.Fail? {
          return Some(req.error);
        }
        InsertDataProduction(req.value);
        i := i + 1;
      }
      return None;
    }

    /** The `Detectors` loop of process_runtable. */
    method InsertDetectorEntries(id: string, detectors: seq<Value>) returns (raised: Option<Error>)
      requires Valid()
      modifies this
      ensures Valid() && Step(State(), raised) == DetectorEntries(old(State()), id, detectors, InsertMode)
    {
      var j := 0;
      while j < |detectors|
        invariant 0 <= j <= |detectors| && Valid()
        invariant DetectorEntries(old(State()), id, detectors, InsertMode) == DetectorEntries(State(), id, detectors[j..], InsertMode)
      {
        assert detectors[j..][0] == detectors[j] && detectors[j..][1..] == detectors[j + 1..];
        if !detectors[j].Dict? {
          return Some(AttributeError);
        }
        raised := InsertCheckedDetectors(id, detectors[j].entries);
        if raised.Some? {
          return;
        }
        j := j + 1;
      }
      return None;
    }

    method ProcessRuntable(path: string, fs: FileSystem) returns (raised: Option<Error>)
      requires Valid()
      modifies this
      ensures Valid() && Step(State(), raised) == Ingest.ProcessRuntable(old(State()), path, fs, InsertMode)
    {
      var data := ParseJson(fs, path);
      if data.None? || !Truthy(data.value) {
        return None;
      }
      if !data.value.Dict? {
        return Some(AttributeError);
      }
      var id := ExperimentId(path);
      var production := Iterate(GetOr(data.value.entries, "Data Production", List([])));
      if production.Fail? {
        return Some(production.error);
      }
      raised := InsertProductionEntries(id, production.value);
      if raised.Some? {
        return;
      }
      var detectors := Iterate(GetOr(data.value.entries, "Detectors", List([])));
      if detectors.Fail? {
        return Some(detectors.error);
      }
      raised := InsertDetectorEntries(id, detectors.value);
    }

    /** save_to_db's per-file loop in `main`, on this manager. */
    method ProcessFiles(files: seq<string>, fs: FileSystem) returns (exitCode: int)
      requires Valid()
      modifies this
      ensures Valid() && Outcome(State(), exitCode) == InsertMain(old(State()), files, fs)
    {
      var i := 0;
      while i < |files|
        invariant 0 <= i <= |files| && Valid()
        invariant InsertMain(old(State()), files, fs) == InsertMain(State(), files[i..], fs)
      {
        assert files[i..][0] == files[i] && files[i..][1..] == files[i + 1..];
        var raised := ProcessFile(files[i], fs);
        if raised.Some? {
          return 1;
        }
        i := i + 1;
      }
      return 0;
    }

    /** `process_file`: the processor for the path's kind, if any. */
    method ProcessFile(path: string, fs: FileSystem) returns (raised: Option<Error>)
      requires Valid()
      modifies this
      ensures Valid() && Step(State(), raised) == Ingest.ProcessFile(old(State()), path, fs, InsertMode)
    {
      match GetFileType(path)
      case Info => raised := ProcessInfoFile(path, fs);
      case FileManager => raised := ProcessFileManager(path, fs);
      case Logbook => raised := ProcessLogbook(path, fs);
      case Runtable => raised := ProcessRuntable(path, fs);
      case Unknown => raised := None;
    }
  }

  /** Without a checked field, a `Detectors` entry yields no request. */
  lemma {:induction false} NoCheckedNoRequests(id: string, run: Value, fields: Record, mode: Mode)
    requires forall m :: 0 <= m < |fields| ==> !IsChecked(fields[m])
    ensures CheckedDetectors(id, run, fields, mode) == []
    decreases |fields|
  {
    if fields != [] {
      assert forall m :: 0 <= m < |fields[1..]| ==> fields[1..][m] == fields[m + 1];
      NoCheckedNoRequests(id, run, fields[1..], mode);
    }
  }

  /** Applying a request list is applying its head, then (unless that
      raised) the rest. */
  lemma ApplyDetectorsCons(s: DbState, req: DetectorReq, rest: seq<DetectorReq>, mode: Mode)
    requires Tables.Valid(s)
    ensures ApplyDetectors(s, [req] + rest, mode)
      == (var r := WriteDetector(s, req, mode); if r.raised.Some? then r else ApplyDetectors(r.db, rest, mode))
  {
    assert ([req] + rest)[0] == req && ([req] + rest)[1..] == rest;
  }

  /** `detector['Run']` as the loops read it: absent, or its value. */
  function RunField(fields: Record): (run: Option<Value>)
    ensures run.Some? <==> HasKey(fields, "Run")
    ensures run.Some? ==> run.value == Get(fields, "Run")
  {
    if HasKey(fields, "Run") then Some(Get(fields, "Run")) else None
  }

  /** The per-field loop over one `Detectors` entry as it runs: a checked
      field reads `Run` (KeyError when absent) and writes its row at once. */
  function ScanChecked(s: DbState, id: string, run: Option<Value>, fields: Record, mode: Mode): (t: Step)
    requires Tables.Valid(s)
    ensures Tables.Valid(t.db)
    decreases |fields|
  {
    if fields == [] then Step(s, None)
    else if !IsChecked(fields[0]) then ScanChecked(s, id, run, fields[1..], mode)
    else if run.None? then Step(s, Some(KeyError))
    else
      var req := DetectorReq(if mode.InsertMode? then Null else Str(id), run.value, Str(fields[0].0), fields[0].1);
      var r := WriteDetector(s, req, mode);
      if r.raised.Some? then r else ScanChecked(r.db, id, run, fields[1..], mode)
  }

  /** With `Run` present, the loop applies exactly the collected requests. */
  lemma {:induction false} ScanWithRun(s: DbState, id: string, v: Value, fields: Record, mode: Mode)
    requires Tables.Valid(s)
    ensures ScanChecked(s, id, Some(v), fields, mode) == ApplyDetectors(s, CheckedDetectors(id, v, fields, mode), mode)
    decreases |fields|
  {
    if fields != [] {
      var rest := CheckedDetectors(id, v, fields[1..], mode);
      if IsChecked(fields[0]) {
        var req := DetectorReq(if mode.InsertMode? then Null else Str(id), v, Str(fields[0].0), fields[0].1);
        assert CheckedDetectors(id, v, fields, mode) == [req] + rest;
        ApplyDetectorsCons(s, req, rest, mode);
        var r := WriteDetector(s, req, mode);
        if r.raised.None? {
          ScanWithRun(r.db, id, v, fields[1..], mode);
        }
      } else {
        assert CheckedDetectors(id, v, fields, mode) == rest;
        ScanWithRun(s, id, v, fields[1..], mode);
      }
    }
  }

  /** Without `Run`, the loop raises KeyError at the first checked field,
      having written nothing, and otherwise changes nothing. */
  lemma {:induction false} ScanWithoutRun(s: DbState, id: string, fields: Record, mode: Mode)
    requires Tables.Valid(s)
    ensures ScanChecked(s, id, None, fields, mode)
      == if exists i :: 0 <= i < |fields| && IsChecked(fields[i]) then Step(s, Some(KeyError)) else Step(s, None)
    decreases |fields|
  {
    if fields != [] {
      if IsChecked(fields[0]) {
        assert 0 <= 0 < |fields| && IsChecked(fields[0]);
      } else {
        ScanWithoutRun(s, id, fields[1..], mode);
        if exists i :: 0 <= i < |fields| && IsChecked(fields[i]) {
          var i :| 0 <= i < |fields| && IsChecked(fields[i]);
          assert fields[1..][i - 1] == fields[i];
        }
        if exists j :: 0 <= j < |fields[1..]| && IsChecked(fields[1..][j]) {
          var j :| 0 <= j < |fields[1..]| && IsChecked(fields[1..][j]);
          assert fields[1..][j] == fields[j + 1];
        }
      }
    }
  }

  /** The loop over one `Detectors` entry agrees with DetectorReqsOf and
      ApplyDetectors. */
  lemma {:induction false} ScanIsDetectorReqs(s: DbState, id: string, fields: Record, mode: Mode)
    requires Tables.Valid(s)
    ensures ScanChecked(s, id, RunField(fields), fields, mode)
      == match DetectorReqsOf(id, Dict(fields), mode)
         case Fail(e) => Step(s, Some(e))
         case Ok(reqs) => ApplyDetectors(s, reqs, mode)
  {
    if HasKey(fields, "Run") {
      ScanWithRun(s, id, Get(fields, "Run"), fields, mode);
    } else {
      ScanWithoutRun(s, id, fields, mode);
      if !exists i :: 0 <= i < |fields| && IsChecked(fields[i]) {
        NoCheckedNoRequests(id, Get(fields, "Run"), fields, mode);
      }
    }
  }

  /** The updater: an ExperimentDBManager whose process methods are
      overridden; `super().insert_*` are the base manager's insert methods. */
  class DatabaseUpdater {
    const base: ExperimentDBManager
    /** The main-content normaliser update_experiment applies; it is not
        part of this model. */
    const parseMainContent: Value -> Record

    predicate Valid()
      reads base
    {
      base.Valid()
    }

    constructor(file: Saved, parseMainContent: Value -> Record)
      requires Tables.Valid(Reopen(file))
      ensures fresh(base) && Valid() && base.State() == Reopen(file) && this.parseMainContent == parseMainContent
    {
      base := new ExperimentDBManager(file);
      this.parseMainContent := parseMainContent;
    }

    /** `DatabaseUpdater(db_name)`: a database file that does not exist
        raises FileNotFoundError before anything is opened. */
    static method Open(file: Option<Saved>, parseMainContent: Value -> Record) returns (u: DatabaseUpdater?, raised: Option<Error>)
      requires file.Some? ==> Tables.Valid(Reopen(file.value))
      ensures file.None? ==> u == null && raised == Some(FileNotFoundError)
      ensures file.Some? ==> u != null && fresh(u) && fresh(u.base) && u.Valid() && u.base.State() == Reopen(file.value)
      ensures file.Some? ==> u != null && u.parseMainContent == parseMainContent && raised == None
    {
      if file.None? {
        return null, Some(FileNotFoundError);
      }
      u := new DatabaseUpdater(file.value, parseMainContent);
      raised := None;
    }

    method UpdateExperiment(id: string, data: Record) returns (raised: Option<Error>)
      requires Valid()
      modifies base
      ensures Valid() && Step(base.State(), raised) == Tables.UpdateExperiment(old(base.State()), id, data, parseMainContent)
    {
      var present := id in base.experiments;
      var mc := parseMainContent(GetOr(data, "main_content", Str("")));
      if present {
        if !Bindable(MainColumns(mc)) {
          return Some(SqliteError);
        }
        base.experiments := base.experiments[id := MainRow(mc)];
      } else {
        base.InsertExperiment(id, data);
      }
      base.tabs := WithoutTabs(base.tabs, id);
      var tabs := GetOr(data, "tabs", Dict([]));
      if !tabs.Dict? {
        return Some(AttributeError);
      }
      InsertTabs(id, tabs.entries);
      return None;
    }

    /** update_experiment's loop re-inserting one Tab row per tab, in order. */
    method InsertTabs(id: string, entries: Record)
      requires Valid()
      modifies base
      ensures Valid() && base.State() == old(base.State()).(tabs := old(base.tabs) + NewTabs(id, entries))
    {
      var i := 0;
      while i < |entries|
        invariant 0 <= i <= |entries| && Valid()
        invariant base.State() == old(base.State()).(tabs := old(base.tabs) + NewTabs(id, entries[..i]))
      {
        assert NewTabs(id, entries[..i + 1]) == NewTabs(id, entries[..i]) + [TabRow(id, entries[i].0, entries[i].1)];
        base.tabs := base.tabs + [TabRow(id, entries[i].0, entries[i].1)];
        i := i + 1;
      }
      assert entries[..i] == entries;
    }

    method UpdateRun(req: RunReq) returns (raised: Option<Error>)
      requires Valid()
      modifies base
      ensures Valid() && Step(base.State(), raised) == Tables.UpdateRun(old(base.State()), req)
    {
      if !Bindable([req.run, req.experimentId]) {
        return Some(SqliteError);
      }
      var key := IntegerAffinity(B(req.run));
      var present := key.Integer? && key.i in base.runs && SqlEq(base.runs[key.i].experimentId, B(req.experimentId));
      if present {
        if !Bindable([req.startTime, req.endTime, req.nEvents, req.nDamaged]) {
          return Some(SqliteError);
        }
        base.runs := base.runs[key.i := base.runs[key.i].(startTime := B(req.startTime), endTime := B(req.endTime),
          nEvents := IntegerAffinity(B(req.nEvents)), nDamaged := IntegerAffinity(B(req.nDamaged)))];
      } else {
        base.InsertRun(req);
      }
      return None;
    }

    method UpdateDetector(req: DetectorReq) returns (raised: Option<Error>)
      requires Valid()
      modifies base
      ensures Valid() && Step(base.State(), raised) == Tables.UpdateDetector(old(base.State()), req)
    {
      if !Bindable([req.runNumber, req.experimentId, req.detectorName]) {
        return Some(SqliteError);
      }
      var run, exp, name := B(req.runNumber), B(req.experimentId), B(req.detectorName);
      var present := exists i :: 0 <= i < |base.detectors| && DetectorMatches(base.detectors[i], run, exp, name);
      if present {
        if Bind(req.status).None? {
          return Some(SqliteError);
        }
        base.detectors := SetStatus(base.detectors, run, exp, name, B(req.status));
      } else {
        base.InsertDetector(req);
      }
      return None;
    }

    method UpdateLogbook(req: LogbookReq) returns (raised: Option<Error>)
      requires Valid()
      modifies base
      ensures Valid() && Step(base.State(), raised) == Tables.UpdateLogbook(old(base.State()), req)
    {
      if !Bindable([req.runNumber, req.timestamp, req.author, req.experimentId]) {
        return Some(SqliteError);
      }
      var run, ts, au, exp := B(req.runNumber), B(req.timestamp), B(req.author), B(req.experimentId);
      var found := FirstWhere(base.logbook, (r: LogbookRow) => LogbookMatches(r, run, ts, au, exp));
      if found.Some? {
        if !Bindable([req.content, req.tags]) {
          return Some(SqliteError);
        }
        var i := found.value;
        base.logbook := base.logbook[i := base.logbook[i].(content := B(req.content), tags := B(req.tags))];
      } else {
        base.InsertLogbook(req);
      }
      return None;
    }

    method UpdateDataProduction(req: ProductionReq) returns (raised: Option<Error>)
      requires Valid()
      modifies base
      ensures Valid() && Step(base.State(), raised) == Tables.UpdateDataProduction(old(base.State()), req)
    {
      if !Bindable([req.runNumber, req.experimentId]) {
        return Some(SqliteError);
      }
      var run, exp := B(req.runNumber), B(req.experimentId);
      var found := FirstWhere(base.production, (r: ProductionRow) => ProductionMatches(r, run, exp));
      if found.Some? {
        if !Bindable([req.nEvents, req.nDamaged, req.nDropped, req.prodStart, req.prodEnd]) {
          return Some(SqliteError);
        }
        var i := found.value;
        base.production := base.production[i := base.production[i].(
          nEvents := IntegerAffinity(B(req.nEvents)), nDamaged := IntegerAffinity(B(req.nDamaged)),
          nDropped := IntegerAffinity(B(req.nDropped)), prodStart := B(req.prodStart), prodEnd := B(req.prodEnd))];
      } else {
        base.InsertDataProduction(req);
      }
      return None;
    }

    method UpdateFileManager(req: FileManagerReq) returns (raised: Option<Error>)
      requires Valid()
      modifies base
      ensures Valid() && Step(base.State(), raised) == Tables.UpdateFileManager(old(base.State()), req)
    {
      if !Bindable([req.runNumber, req.experimentId]) {
        return Some(SqliteError);
      }
      var run, exp := B(req.runNumber), B(req.experimentId);
      var found := FirstWhere(base.fileManager, (r: FileManagerRow) => FileManagerMatches(r, run, exp));
      if found.Some? {
        if !Bindable([req.numberOfFiles, req.totalSizeBytes]) {
          return Some(SqliteError);
        }
        var i := found.value;
        base.fileManager := base.fileManager[i := base.fileManager[i].(
          numberOfFiles := IntegerAffinity(B(req.numberOfFiles)), totalSizeBytes := IntegerAffinity(B(req.totalSizeBytes)))];
      } else {
        base.InsertFileManager(req);
      }
      return None;
    }

    /** Every exception is caught and logged here. */
    method ProcessInfoFile(path: string, fs: FileSystem) returns (raised: Option<Error>)
      requires Valid()
      modifies base
      ensures Valid() && Step(base.State(), raised) == ProcessInfo(old(base.State()), path, fs, UpdateMode(parseMainContent))
    {
      var data := ParseJson(fs, path);
      if data.None? || !Truthy(data.value) || !data.value.Dict? {
        return None;
      }
      var caught := UpdateExperiment(ExperimentId(path), data.value.entries);
      return None;
    }

    method ProcessFileManager(path: string, fs: FileSystem) returns (raised: Option<Error>)
      requires Valid()
      modifies base
      ensures Valid() && Step(base.State(), raised) == Ingest.ProcessFileManager(old(base.State()), path, fs, UpdateMode(parseMainContent))
    {
      var data := ParseCsv(fs, path);
      if data.None? || data.value == [] {
        return None;
      }
      var rows, id := data.value, ExperimentId(path);
      var i := 0;
      while i < |rows|
        invariant 0 <= i <= |rows| && Valid()
        invariant FileManagerRows(old(base.State()), id, rows, UpdateMode(parseMainContent))
          == FileManagerRows(base.State(), id, rows[i..], UpdateMode(parseMainContent))
      {
        assert rows[i..][0] == rows[i] && rows[i..][1..] == rows[i + 1..];
        var rn := Lookup(rows[i], "Run Number");
        if rn.Fail? {
          return Some(rn.error);
        }
        raised := UpdateRun(RunReq(rn.value, Str(id), Null, Null, Null, Null));
        if raised.Some? {
          return;
        }
        var fields := FileManagerFields(rows[i]);
        if fields.Fail? {
          return Some(fields.error);
        }
        var (_, nf, ts) := fields.value;
        raised := UpdateFileManager(FileManagerReq(Str(id), rn.value, nf, ts));
        if raised.Some? {
          return;
        }
        i := i + 1;
      }
      return None;
    }

    method ProcessLogbook(path: string, fs: FileSystem) returns (raised: Option<Error>)
      requires Valid()
      modifies base
      ensures Valid() && Step(base.State(), raised) == Ingest.ProcessLogbook(old(base.State()), path, fs, UpdateMode(parseMainContent))
    {
      var data := ParseCsv(fs, path);
      if data.None? || data.value == [] {
        return None;
      }
      raised := UpdateLogbookRows(ExperimentId(path), data.value);
    }

    /** The overridden process_logbook's row loop, carrying `last_run_number` from None. */
    method UpdateLogbookRows(id: string, rows: seq<Record>) returns (raised: Option<Error>)
      requires Valid()
      modifies base
      ensures Valid() && Step(base.State(), raised) == LogbookRows(old(base.State()), id, None, rows, UpdateMode(parseMainContent))
    {
      var last: Option<int> := None;
      var i := 0;
      while i < |rows|
        invariant 0 <= i <= |rows| && Valid()
        invariant LogbookRows(old(base.State()), id, None, rows, UpdateMode(parseMainContent))
          == LogbookRows(base.State(), id, last, rows[i..], UpdateMode(parseMainContent))
      {
        assert rows[i..][0] == rows[i] && rows[i..][1..] == rows[i + 1..];
        var run := Lookup(rows[i], "Run");
        if run.Fail? {
          return Some(run.error);
        }
        if Truthy(run.value) {
          var n := ToInt(run.value);
          if n.Fail? {
            return Some(n.error);
          }
          last := Some(n.value);
        }
        if last.Some? {
          var req := LogbookReqOf(id, last.value, rows[i], UpdateMode(parseMainContent));
          if req.Fail? {
            return Some(req.error);
          }
          raised := UpdateLogbook(req.value);
          if raised.Some? {
            return;
          }
        }
        i := i + 1;
      }
      return None;
    }

    /** The checked fields of one `Detectors` entry, in field order. */
    method UpdateCheckedDetectors(id: string, fields: Record) returns (raised: Option<Error>)
      requires Valid()
      modifies base
      ensures Valid()
      ensures match DetectorReqsOf(id, Dict(fields), UpdateMode(parseMainContent))
        case Fail(e) => raised == Some(e) && base.State() == old(base.State())
        case Ok(reqs) => Step(base.State(), raised) == ApplyDetectors(old(base.State()), reqs, UpdateMode(parseMainContent))
    {
      ghost var mode := UpdateMode(parseMainContent);
      ghost var run := RunField(fields);
      ScanIsDetectorReqs(base.State(), id, fields, mode);
      var k := 0;
      while k < |fields|
        invariant 0 <= k <= |fields| && Valid()
        invariant ScanChecked(old(base.State()), id, run, fields, mode) == ScanChecked(base.State(), id, run, fields[k..], mode)
      {
        assert fields[k..][0] == fields[k] && fields[k..][1..] == fields[k + 1..];
        if IsChecked(fields[k]) {
          var value := Lookup(fields, "Run");
          if value.Fail? {
            return Some(value.error);
          }
          raised := UpdateDetector(DetectorReq(Str(id), value.value, Str(fields[k].0), fields[k].1));
          if raised.Some? {
            return;
          }
        }
        k := k + 1;
      }
      return None;
    }

    /** The `Data Production` loop of the overridden process_runtable. */
    method UpdateProductionEntries(id: string, entries: seq<Value>) returns (raised: Option<Error>)
      requires Valid()
      modifies base
      ensures Valid() && Step(base.State(), raised) == ProductionEntries(old(base.State()), id, entries, UpdateMode(parseMainContent))
    {
      var i := 0;
      while i < |entries|
        invariant 0 <= i <= |entries| && Valid()
        invariant ProductionEntries(old(base.State()), id, entries, UpdateMode(parseMainContent))
          == ProductionEntries(base.State(), id, entries[i..], UpdateMode(parseMainContent))
      {
        assert entries[i..][0] == entries[i] && entries[i..][1..] == entries[i + 1..];
        var req := ProductionReqOf(id, entries[i], UpdateMode(parseMainContent));
        if req.Fail? {
          return Some(req.error);
        }
        raised := UpdateDataProduction(req.value);
        if raised.Some? {
          return;
        }
        i := i + 1;
      }
      return None;
    }

    /** The `Detectors` loop of the overridden process_runtable. */
    method UpdateDetectorEntries(id: string, detectors: seq<Value>) returns (raised: Option<Error>)
      requires Valid()
      modifies base
      ensures Valid() && Step(base.State(), raised) == DetectorEntries(old(base.State()), id, detectors, UpdateMode(parseMainContent))
    {
      var j := 0;
      while j < |detectors|
        invariant 0 <= j <= |detectors| && Valid()
        invariant DetectorEntries(old(base.State()), id, detectors, UpdateMode(parseMainContent))
          == DetectorEntries(base.State(), id, detectors[j..], UpdateMode(parseMainContent))
      {
        assert detectors[j..][0] == detectors[j] && detectors[j..][1..] == detectors[j + 1..];
        if !detectors[j].Dict? {
          return Some(AttributeError);
        }
        raised := UpdateCheckedDetectors(id, detectors[j].entries);
        if raised.Some? {
          return;
        }
        j := j + 1;
      }
      return None;
    }

    method ProcessRuntable(path: string, fs: FileSystem) returns (raised: Option<Error>)
      requires Valid()
      modifies base
      ensures Valid() && Step(base.State(), raised) == Ingest.ProcessRuntable(old(base.State()), path, fs, UpdateMode(parseMainContent))
    {
      var data := ParseJson(fs, path);
      if data.None? || !Truthy(data.value) {
        return None;
      }
      if !data.value.Dict? {
        return Some(AttributeError);
      }
      var id := ExperimentId(path);
      var production := Iterate(GetOr(data.value.entries, "Data Production", List([])));
      if production.Fail? {
        return Some(production.error);
      }
      raised := UpdateProductionEntries(id, production.value);
      if raised.Some? {
        return;
      }
      var detectors := Iterate(GetOr(data.value.entries, "Detectors", List([])));
      if detectors.Fail? {
        return Some(detectors.error);
      }
      raised := UpdateDetectorEntries(id, detectors.value);
    }

    /** The inherited `process_file`, dispatching to the overridden processors. */
    method ProcessFile(path: string, fs: FileSystem) returns (raised: Option<Error>)
      requires Valid()
      modifies base
      ensures Valid() && Step(base.State(), raised) == Ingest.ProcessFile(old(base.State()), path, fs, UpdateMode(parseMainContent))
    {
      match GetFileType(path)
      case Info => raised := ProcessInfoFile(path, fs);
      case FileManager => raised := ProcessFileManager(path, fs);
      case Logbook => raised := ProcessLogbook(path, fs);
      case Runtable => raised := ProcessRuntable(path, fs);
      case Unknown => raised := None;
    }
  }

  /** save_to_db's `main`: one manager, every file in order; an exception
      escaping a processor ends the process with status 1. `close()` keeps
      what was committed. */
  method SaveToDbMain(file: Saved, files: seq<string>, fs: FileSystem) returns (saved: Saved, exitCode: int)
    requires Tables.Valid(Reopen(file))
    ensures Exit(Some(saved), exitCode) == SaveToDb(file, files, fs)
  {
    var manager := new ExperimentDBManager(file);
    exitCode := manager.ProcessFiles(files, fs);
    saved := manager.committed;
  }

  /** update_db's `main`: status 1 when the database file is missing, files
      that do not exist are skipped, and the first exception ends the run
      with status 1. Neither `close()` nor `sys.exit(1)` commits, so the
      file keeps what was last committed. */
  method UpdateDbMain(file: Option<Saved>, files: seq<string>, fs: FileSystem, parseMainContent: Value -> Record)
    returns (saved: Option<Saved>, exitCode: int)
    requires file.Some? ==> Tables.Valid(Reopen(file.value))
    ensures Exit(saved, exitCode) == UpdateMain(file, files, fs, parseMainContent)
  {
    var updater, missing := DatabaseUpdater.Open(file, parseMainContent);
    if missing.Some? {
      return None, 1;
    }
    var i := 0;
    while i < |files|
      invariant 0 <= i <= |files| && updater.Valid()
      invariant UpdateFiles(Reopen(file.value), files, fs, parseMainContent)
        == UpdateFiles(updater.base.State(), files[i..], fs, parseMainContent)
    {
      assert files[i..][0] == files[i] && files[i..][1..] == files[i + 1..];
      if files[i] in fs {
        var raised := updater.ProcessFile(files[i], fs);
        if raised.Some? {
          return Some(updater.base.committed), 1;
        }
      }
      i := i + 1;
    }
    return Some(updater.base.committed), 0;
  }
}
