/** The SQLite store, abstractly: six tables (plus the ExperimentTabs table
    the update path writes), the way sqlite3 binds and compares values, and
    each per-table statement of the two engines as a function on the whole
    store. */
module Tables {
  import opened Values

  /** A stored SQL value. */
  datatype Cell = NULL | Integer(i: int) | Text(s: string)

  /** The integers an SQLite INTEGER holds: 64-bit two's complement. */
  predicate Int64(i: int) {
    -0x8000_0000_0000_0000 <= i < 0x8000_0000_0000_0000
  }

  /** Binding a Python value as a statement parameter. A list or a dict
      cannot be bound (sqlite3 raises a subclass of sqlite3.Error), nor can
      an int outside 64 bits (OverflowError). */
  function Bind(v: Value): (c: Option<Cell>)
    ensures c.None? <==> v.List? || v.Dict? || (v.Int? && !Int64(v.i))
    ensures v.Int? && Int64(v.i) ==> c == Some(Integer(v.i))
  {
    match v
    case Null => Some(NULL)
    case Bool(b) => Some(Integer(if b then 1 else 0))
    case Int(i) => if Int64(i) then Some(Integer(i)) else None
    case Str(s) => Some(Text(s))
    case _ => None
  }

  /** INTEGER column affinity: text that reads as an integer SQLite can
      hold becomes one. Integer text beyond 64 bits is not an INTEGER
      (SQLite would keep it as REAL, which the model leaves as text). */
  function IntegerAffinity(c: Cell): (r: Cell)
    ensures c.Text? && ParseInt(c.s).Some? && Int64(ParseInt(c.s).value) ==> r == Integer(ParseInt(c.s).value)
    ensures !(c.Text? && ParseInt(c.s).Some? && Int64(ParseInt(c.s).value)) ==> r == c
    ensures r.Integer? ==> c.Integer? || Int64(r.i)
  {
    if c.Text? && ParseInt(c.s).Some? && Int64(ParseInt(c.s).value) then Integer(ParseInt(c.s).value) else c
  }

  /** `column = ?` in a WHERE clause: NULL on either side matches nothing. */
  predicate SqlEq(stored: Cell, param: Cell) {
    stored != NULL && param != NULL && stored == param
  }

  datatype ExperimentRow = ExperimentRow(
    name: Cell, instrument: Cell, startTime: Cell, endTime: Cell, pi: Cell, piEmail: Cell,
    leaderAccount: Cell, description: Cell,
    slackChannels: Cell, analysisQueues: Cell, urawiProposal: Cell)

  /** A row of ExperimentTabs; the content is kept as the parsed value that
      `json.dumps` serialises. */
  datatype TabRow = TabRow(experimentId: string, tabName: string, tabContent: Value)

  datatype RunRow = RunRow(experimentId: Cell, startTime: Cell, endTime: Cell, nEvents: Cell, nDamaged: Cell)

  datatype DetectorRow = DetectorRow(experimentId: Cell, runNumber: Cell, detectorName: Cell, status: Cell)

  datatype LogbookRow = LogbookRow(
    experimentId: Cell, runNumber: Cell, timestamp: Cell, content: Cell, tags: Cell, author: Cell)

  datatype ProductionRow = ProductionRow(
    experimentId: Cell, runNumber: Cell, nEvents: Cell, nDamaged: Cell, nDropped: Cell,
    prodStart: Cell, prodEnd: Cell)

  datatype FileManagerRow = FileManagerRow(
    experimentId: Cell, runNumber: Cell, numberOfFiles: Cell, totalSizeBytes: Cell)

  /** The tables as the database file holds them, that is, as the last
      `commit()` left them. */
  datatype Saved = Saved(
    experiments: map<string, ExperimentRow>,
    tabs: seq<TabRow>,
    runs: map<int, RunRow>,
    runHigh: int,
    detectors: seq<DetectorRow>,
    logbook: seq<LogbookRow>,
    production: seq<ProductionRow>,
    fileManager: seq<FileManagerRow>)

  /** A connection to the store: the tables as its statements have left
      them, and what the file holds. Experiment is keyed by experiment_id
      and Run by its INTEGER PRIMARY KEY run_number; `runHigh` is the
      largest run_number in use (0 for an empty table), from which SQLite
      picks the key of a row inserted with a NULL run_number. The
      AUTOINCREMENT tables are sequences: nothing ever deletes from them, so
      row i has id i + 1. sqlite3 opens a transaction at the first data
      statement after a commit; closing the connection without a commit
      discards it, so `committed` is all that survives the process. */
  datatype DbState = DbState(
    experiments: map<string, ExperimentRow>,
    tabs: seq<TabRow>,
    runs: map<int, RunRow>,
    runHigh: int,
    detectors: seq<DetectorRow>,
    logbook: seq<LogbookRow>,
    production: seq<ProductionRow>,
    fileManager: seq<FileManagerRow>,
    committed: Saved)

  /** The live tables of a connection. */
  function Snap(s: DbState): Saved {
    Saved(s.experiments, s.tabs, s.runs, s.runHigh, s.detectors, s.logbook, s.production, s.fileManager)
  }

  /** No statement is pending: the file holds the live tables. */
  predicate Synced(s: DbState) {
    s.committed == Snap(s)
  }

  /** `conn.commit()`: everything pending is saved, and nothing else changes. */
  function Commit(s: DbState): (t: DbState)
    ensures Synced(t) && Snap(t) == Snap(s)
    ensures t.(committed := s.committed) == s
  {
    s.(committed := Snap(s))
  }

  /** A connection just opened on a file: its tables are the file's, with
      nothing pending. */
  function Reopen(f: Saved): (s: DbState)
    ensures Synced(s) && Snap(s) == f
  {
    DbState(f.experiments, f.tabs, f.runs, f.runHigh, f.detectors, f.logbook, f.production, f.fileManager, f)
  }

  /** A database file sqlite3 has just created. */
  const EmptyFile := Saved(map[], [], map[], 0, [], [], [], [])

  /** No Detector, Logbook, DataProduction or FileManager row names an
      experiment: the insert statements never set that column, and no update
      statement changes it. */
  predicate NoOwners(s: DbState) {
    && (forall i :: 0 <= i < |s.detectors| ==> s.detectors[i].experimentId == NULL)
    && (forall i :: 0 <= i < |s.logbook| ==> s.logbook[i].experimentId == NULL)
    && (forall i :: 0 <= i < |s.production| ==> s.production[i].experimentId == NULL)
    && (forall i :: 0 <= i < |s.fileManager| ==> s.fileManager[i].experimentId == NULL)
  }

  predicate Valid(s: DbState) {
    && (|s.runs| == 0 ==> s.runHigh == 0)
    && (|s.runs| != 0 ==> s.runHigh in s.runs && forall k :: k in s.runs ==> k <= s.runHigh)
  }

  /** The rowid SQLite gives a Run row inserted with a NULL key. */
  function FreshRowid(s: DbState): (k: int)
    requires Valid(s)
    ensures k !in s.runs
    ensures forall j :: j in s.runs ==> j < k
  {
    s.runHigh + 1
  }

  /** The dicts the process methods hand to insert_* / update_*, read with
      `data.get(...)`. */
  datatype RunReq = RunReq(run: Value, experimentId: Value, startTime: Value, endTime: Value, nEvents: Value, nDamaged: Value)
  datatype DetectorReq = DetectorReq(experimentId: Value, runNumber: Value, detectorName: Value, status: Value)
  datatype LogbookReq = LogbookReq(
    experimentId: Value, runNumber: Value, timestamp: Value, content: Value, tags: Value, author: Value)
  datatype ProductionReq = ProductionReq(
    experimentId: Value, runNumber: Value, nEvents: Value, nDamaged: Value, nDropped: Value,
    prodStart: Value, prodEnd: Value)
  datatype FileManagerReq = FileManagerReq(
    experimentId: Value, runNumber: Value, numberOfFiles: Value, totalSizeBytes: Value)

  /** What a statement leaves behind: the new store, and the exception it
      raised, if any (the store then holds what ran before the raise). */
  datatype Step = Step(db: DbState, raised: Option<Error>)

  predicate Bindable(vs: seq<Value>) {
    forall i :: 0 <= i < |vs| ==> Bind(vs[i]).Some?
  }

  /** The bound cell of a value that binds (callers test Bindable first). */
  function B(v: Value): Cell {
    match Bind(v)
    case Some(c) => c
    case None => NULL
  }

  // ---------------------------------------------------------------------
  // Insert mode: INSERT OR REPLACE, every sqlite3.Error swallowed.
  // ---------------------------------------------------------------------

  /** The columns insert_experiment reads from the top level of the info
      dict (not from its main_content block). */
  function InfoColumns(data: Record): seq<Value> {
    [Get(data, "name"), Get(data, "instrument"), Get(data, "start_time"), Get(data, "end_time"),
     Get(data, "pi"), Get(data, "pi_email"), Get(data, "leader_account"), Get(data, "description")]
  }

  /** The Experiment row INSERT OR REPLACE writes: the three columns the
      statement does not name are NULL in the replacing row. */
  function InfoRow(data: Record): ExperimentRow
  {
    var c := InfoColumns(data);
    ExperimentRow(B(c[0]), B(c[1]), B(c[2]), B(c[3]), B(c[4]), B(c[5]), B(c[6]), B(c[7]), NULL, NULL, NULL)
  }

  /** `insert_experiment`: an upsert on experiment_id, then a commit. A row
      that cannot be bound raises before the statement runs, and the error is
      swallowed, so nothing at all happens, the commit included. */
  function InsertExperiment(s: DbState, id: string, data: Record): (t: DbState)
    ensures t == s || Synced(t)
    ensures t.(experiments := s.experiments, committed := s.committed) == s
    ensures t.experiments.Keys <= s.experiments.Keys + {id}
  {
    if Bindable(InfoColumns(data)) then Commit(s.(experiments := s.experiments[id := InfoRow(data)])) else s
  }

  function RunColumns(req: RunReq): seq<Value> {
    [req.run, req.experimentId, req.startTime, req.endTime, req.nEvents, req.nDamaged]
  }

  /** The key a Run row gets: NULL takes a fresh rowid, an integer (or text
      that reads as one) is itself, other text is a datatype mismatch. */
  function RunKey(s: DbState, run: Cell): (k: Option<int>)
    requires Valid(s)
    ensures IntegerAffinity(run) == NULL ==> k == Some(FreshRowid(s))
    ensures IntegerAffinity(run).Integer? ==> k == Some(IntegerAffinity(run).i)
    ensures IntegerAffinity(run).Text? ==> k.None?
  {
    match IntegerAffinity(run)
    case NULL => Some(FreshRowid(s))
    case Integer(n) => Some(n)
    case Text(_) => None
  }

  function RunRowOf(req: RunReq): RunRow
  {
    var c := RunColumns(req);
    RunRow(B(c[1]), B(c[2]), B(c[3]), IntegerAffinity(B(c[4])), IntegerAffinity(B(c[5])))
  }

  /** Store a Run row under key k, replacing whatever row k held. */
  function PutRun(s: DbState, k: int, row: RunRow): (t: DbState)
    requires Valid(s)
    ensures Valid(t)
    ensures t.runs == s.runs[k := row]
    ensures t == s.(runs := t.runs, runHigh := t.runHigh)
  {
    s.(runs := s.runs[k := row], runHigh := if |s.runs| == 0 || s.runHigh < k then k else s.runHigh)
  }

  /** `insert_run`: an upsert on the run_number primary key, then a commit;
      a swallowed error changes nothing. */
  function InsertRun(s: DbState, req: RunReq): (t: DbState)
    requires Valid(s)
    ensures Valid(t)
    ensures t == s || Synced(t)
    ensures t == s.(runs := t.runs, runHigh := t.runHigh, committed := t.committed)
    ensures s.runs.Keys <= t.runs.Keys
    ensures !Bindable(RunColumns(req)) || RunKey(s, B(req.run)).None? ==> t == s
    ensures Bindable(RunColumns(req)) && RunKey(s, B(req.run)).Some? ==>
      Synced(t) && t.runs == s.runs[RunKey(s, B(req.run)).value := RunRowOf(req)]
  {
    if !Bindable(RunColumns(req)) then s
    else match RunKey(s, B(req.run))
      case None => s
      case Some(k) => Commit(PutRun(s, k, RunRowOf(req)))
  }

  function DetectorColumns(req: DetectorReq): seq<Value> {
    [req.runNumber, req.detectorName, req.status]
  }

  /** The statement names no experiment_id column, so that column is NULL. */
  function DetectorRowOf(req: DetectorReq): DetectorRow
  {
    DetectorRow(NULL, IntegerAffinity(B(req.runNumber)), B(req.detectorName), B(req.status))
  }

  /** `insert_detector`: one new row and a commit or, on a binding error,
      nothing. The new row names no experiment. */
  function InsertDetector(s: DbState, req: DetectorReq): (t: DbState)
    ensures t == s || Synced(t)
    ensures t.(detectors := s.detectors, committed := s.committed) == s
    ensures s.detectors <= t.detectors && |t.detectors| <= |s.detectors| + 1
    ensures forall i :: |s.detectors| <= i < |t.detectors| ==> t.detectors[i].experimentId == NULL
    ensures !Bindable(DetectorColumns(req)) ==> t == s
    ensures Bindable(DetectorColumns(req)) ==> Synced(t) && |t.detectors| == |s.detectors| + 1
  {
    if Bindable(DetectorColumns(req)) then Commit(s.(detectors := s.detectors + [DetectorRowOf(req)])) else s
  }

  function LogbookColumns(req: LogbookReq): seq<Value> {
    [req.runNumber, req.timestamp, req.content, req.tags, req.author]
  }

  function LogbookRowOf(req: LogbookReq): LogbookRow
  {
    LogbookRow(NULL, IntegerAffinity(B(req.runNumber)), B(req.timestamp), B(req.content), B(req.tags), B(req.author))
  }

  /** `insert_logbook`: one new row, naming no experiment, and a commit;
      nothing on a binding error. */
  function InsertLogbook(s: DbState, req: LogbookReq): (t: DbState)
    ensures t == s || Synced(t)
    ensures t.(logbook := s.logbook, committed := s.committed) == s
    ensures s.logbook <= t.logbook && |t.logbook| <= |s.logbook| + 1
    ensures forall i :: |s.logbook| <= i < |t.logbook| ==> t.logbook[i].experimentId == NULL
    ensures !Bindable(LogbookColumns(req)) ==> t == s
    ensures Bindable(LogbookColumns(req)) ==> Synced(t) && |t.logbook| == |s.logbook| + 1
  {
    if Bindable(LogbookColumns(req)) then Commit(s.(logbook := s.logbook + [LogbookRowOf(req)])) else s
  }

  function ProductionColumns(req: ProductionReq): seq<Value> {
    [req.runNumber, req.nEvents, req.nDamaged, req.nDropped, req.prodStart, req.prodEnd]
  }

  function ProductionRowOf(req: ProductionReq): ProductionRow
  {
    ProductionRow(NULL, IntegerAffinity(B(req.runNumber)), IntegerAffinity(B(req.nEvents)),
      IntegerAffinity(B(req.nDamaged)), IntegerAffinity(B(req.nDropped)), B(req.prodStart), B(req.prodEnd))
  }

  /** `insert_data_production`: one new row, naming no experiment, and a
      commit; nothing on a binding error. */
  function InsertDataProduction(s: DbState, req: ProductionReq): (t: DbState)
    ensures t == s || Synced(t)
    ensures t.(production := s.production, committed := s.committed) == s
    ensures s.production <= t.production && |t.production| <= |s.production| + 1
    ensures forall i :: |s.production| <= i < |t.production| ==> t.production[i].experimentId == NULL
    ensures !Bindable(ProductionColumns(req)) ==> t == s
    ensures Bindable(ProductionColumns(req)) ==> Synced(t) && |t.production| == |s.production| + 1
  {
    if Bindable(ProductionColumns(req)) then Commit(s.(production := s.production + [ProductionRowOf(req)])) else s
  }

  function FileManagerColumns(req: FileManagerReq): seq<Value> {
    [req.runNumber, req.numberOfFiles, req.totalSizeBytes]
  }

  function FileManagerRowOf(req: FileManagerReq): FileManagerRow
  {
    FileManagerRow(NULL, IntegerAffinity(B(req.runNumber)), IntegerAffinity(B(req.numberOfFiles)),
      IntegerAffinity(B(req.totalSizeBytes)))
  }

  /** `insert_file_manager`: one new row, naming no experiment, and a
      commit; nothing on a binding error. */
  function InsertFileManager(s: DbState, req: FileManagerReq): (t: DbState)
    ensures t == s || Synced(t)
    ensures t.(fileManager := s.fileManager, committed := s.committed) == s
    ensures s.fileManager <= t.fileManager && |t.fileManager| <= |s.fileManager| + 1
    ensures forall i :: |s.fileManager| <= i < |t.fileManager| ==> t.fileManager[i].experimentId == NULL
    ensures !Bindable(FileManagerColumns(req)) ==> t == s
    ensures Bindable(FileManagerColumns(req)) ==> Synced(t) && |t.fileManager| == |s.fileManager| + 1
  {
    if Bindable(FileManagerColumns(req)) then Commit(s.(fileManager := s.fileManager + [FileManagerRowOf(req)])) else s
  }

  // ---------------------------------------------------------------------
  // Update mode: look the row up, update selected columns, else delegate to
  // the insert-mode statement (whose own errors stay swallowed). Errors of
  // the SELECT and UPDATE themselves are re-raised. No update statement
  // commits: what they change reaches the file only when a later insert
  // fallback commits.
  // ---------------------------------------------------------------------

  /** The index of the first row p selects: `fetchone()` of a SELECT,
      rows coming back in id order. */
  function FirstWhere<T>(rows: seq<T>, p: T -> bool): (r: Option<nat>)
    ensures r.Some? ==> r.value < |rows| && p(rows[r.value]) && forall j :: 0 <= j < r.value ==> !p(rows[j])
    ensures r.None? ==> forall j :: 0 <= j < |rows| ==> !p(rows[j])
    decreases |rows|
  {
    if rows == [] then None
    else if p(rows[0]) then Some(0)
    else match FirstWhere(rows[1..], p)
      case None => None
      case Some(i) => Some(i + 1)
  }

  /** The ExperimentTabs rows of one experiment, in id order. */
  function TabsOf(tabs: seq<TabRow>, id: string): seq<TabRow>
    decreases |tabs|
  {
    if tabs == [] then []
    else (if tabs[0].experimentId == id then [tabs[0]] else []) + TabsOf(tabs[1..], id)
  }

  /** `DELETE FROM ExperimentTabs WHERE experiment_id = id`. */
  function WithoutTabs(tabs: seq<TabRow>, id: string): seq<TabRow>
    decreases |tabs|
  {
    if tabs == [] then []
    else (if tabs[0].experimentId == id then [] else [tabs[0]]) + WithoutTabs(tabs[1..], id)
  }

  /** One ExperimentTabs row per entry of the `tabs` dict, in its order. */
  function NewTabs(id: string, entries: Record): (r: seq<TabRow>)
    ensures |r| == |entries|
    ensures forall i :: 0 <= i < |entries| ==> r[i] == TabRow(id, entries[i].0, entries[i].1)
  {
    seq(|entries|, i requires 0 <= i < |entries| => TabRow(id, entries[i].0, entries[i].1))
  }

  /** The eleven columns update_experiment sets, read from the parsed
      main-content block. */
  function MainColumns(mc: Record): seq<Value> {
    [Get(mc, "Name"), Get(mc, "Instrument"), Get(mc, "Start Time"), Get(mc, "End Time"),
     Get(mc, "PI"), Get(mc, "PI Email"), Get(mc, "Leader Account"), Get(mc, "Description"),
     Get(mc, "Slack channels"), Get(mc, "Analysis Queues"), Get(mc, "URAWI Proposal")]
  }

  function MainRow(mc: Record): ExperimentRow
  {
    var c := MainColumns(mc);
    ExperimentRow(B(c[0]), B(c[1]), B(c[2]), B(c[3]), B(c[4]), B(c[5]), B(c[6]), B(c[7]), B(c[8]), B(c[9]), B(c[10]))
  }

  /** `update_experiment`: UPDATE from the main content when the experiment
      exists, else insert_experiment from the top-level keys; then delete the
      experiment's tab rows and insert one per entry of `tabs`. A `tabs`
      value that is not a dict raises AttributeError after the delete. */
  function UpdateExperiment(s: DbState, id: string, data: Record, parseMainContent: Value -> Record): (t: Step)
    ensures t.db.(experiments := s.experiments, tabs := s.tabs, committed := s.committed) == s
    ensures id in s.experiments ==> t.db.committed == s.committed
    ensures id !in s.experiments ==> t.db.committed == InsertExperiment(s, id, data).committed
    ensures t.db.experiments.Keys <= s.experiments.Keys + {id}
  {
    var mc := parseMainContent(GetOr(data, "main_content", Str("")));
    if id in s.experiments && !Bindable(MainColumns(mc)) then Step(s, Some(SqliteError))
    else
      var s1 := if id in s.experiments then s.(experiments := s.experiments[id := MainRow(mc)])
                else InsertExperiment(s, id, data);
      var s2 := s1.(tabs := WithoutTabs(s1.tabs, id));
      var tabs := GetOr(data, "tabs", Dict([]));
      if tabs.Dict? then Step(s2.(tabs := s2.tabs + NewTabs(id, tabs.entries)), None)
      else Step(s2, Some(AttributeError))
  }

  /** The Run row `WHERE run_number = ? AND experiment_id = ?` finds. */
  predicate RunMatches(s: DbState, run: Cell, exp: Cell) {
    var key := IntegerAffinity(run);
    key.Integer? && key.i in s.runs && SqlEq(s.runs[key.i].experimentId, exp)
  }

  /** `update_run`: overwrite the four data columns of the matching row with
      the incoming values, NULL included; else insert_run. */
  function UpdateRun(s: DbState, req: RunReq): (t: Step)
    requires Valid(s)
    ensures Valid(t.db)
    ensures t.raised.Some? ==> t.db == s
    ensures t.db.(runs := s.runs, runHigh := s.runHigh, committed := s.committed) == s
    ensures s.runs.Keys <= t.db.runs.Keys
    ensures t.db.committed == s.committed || Synced(t.db)
  {
    if !Bindable([req.run, req.experimentId]) then Step(s, Some(SqliteError))
    else if RunMatches(s, B(req.run), B(req.experimentId)) then
      if !Bindable([req.startTime, req.endTime, req.nEvents, req.nDamaged]) then Step(s, Some(SqliteError))
      else
        var k := IntegerAffinity(B(req.run)).i;
        var row := s.runs[k].(startTime := B(req.startTime), endTime := B(req.endTime),
                              nEvents := IntegerAffinity(B(req.nEvents)), nDamaged := IntegerAffinity(B(req.nDamaged)));
        Step(s.(runs := s.runs[k := row]), None)
    else Step(InsertRun(s, req), None)
  }

  predicate DetectorMatches(row: DetectorRow, run: Cell, exp: Cell, name: Cell) {
    SqlEq(row.runNumber, IntegerAffinity(run)) && SqlEq(row.experimentId, exp) && SqlEq(row.detectorName, name)
  }

  /** `UPDATE Detector SET status = ? WHERE ...`: every matching row. */
  function SetStatus(rows: seq<DetectorRow>, run: Cell, exp: Cell, name: Cell, status: Cell): (r: seq<DetectorRow>)
    ensures |r| == |rows|
    ensures forall i :: 0 <= i < |rows| ==>
      r[i] == if DetectorMatches(rows[i], run, exp, name) then rows[i].(status := status) else rows[i]
  {
    seq(|rows|, i requires 0 <= i < |rows| =>
      if DetectorMatches(rows[i], run, exp, name) then rows[i].(status := status) else rows[i])
  }

  /** `update_detector`: match on (run_number, experiment_id, detector_name).
      Existing rows change in their status only; a new row names no
      experiment; a raise comes before any change. */
  function UpdateDetector(s: DbState, req: DetectorReq): (t: Step)
    ensures t.raised.Some? ==> t.db == s
    ensures t.db.(detectors := s.detectors, committed := s.committed) == s
    ensures |s.detectors| <= |t.db.detectors| <= |s.detectors| + 1
    ensures forall i :: 0 <= i < |s.detectors| ==> t.db.detectors[i] == s.detectors[i].(status := t.db.detectors[i].status)
    ensures forall i :: |s.detectors| <= i < |t.db.detectors| ==> t.db.detectors[i].experimentId == NULL
    ensures t.db.committed == s.committed || Synced(t.db)
    ensures !Bindable([req.runNumber, req.experimentId, req.detectorName]) ==> t == Step(s, Some(SqliteError))
  {
    if !Bindable([req.runNumber, req.experimentId, req.detectorName]) then Step(s, Some(SqliteError))
    else
      var run, exp, name := B(req.runNumber), B(req.experimentId), B(req.detectorName);
      if exists i :: 0 <= i < |s.detectors| && DetectorMatches(s.detectors[i], run, exp, name) then
        if Bind(req.status).None? then Step(s, Some(SqliteError))
        else Step(s.(detectors := SetStatus(s.detectors, run, exp, name, B(req.status))), None)
      else Step(InsertDetector(s, req), None)
  }

  predicate LogbookMatches(row: LogbookRow, run: Cell, timestamp: Cell, author: Cell, exp: Cell) {
    SqlEq(row.runNumber, IntegerAffinity(run)) && SqlEq(row.timestamp, timestamp)
    && SqlEq(row.author, author) && SqlEq(row.experimentId, exp)
  }

  /** `update_logbook`: match on (run_number, timestamp, author,
      experiment_id); update content and tags of the first match. */
  function UpdateLogbook(s: DbState, req: LogbookReq): (t: Step)
    ensures t.raised.Some? ==> t.db == s
    ensures t.db.(logbook := s.logbook, committed := s.committed) == s
    ensures |s.logbook| <= |t.db.logbook| <= |s.logbook| + 1
    ensures forall i :: 0 <= i < |s.logbook| ==>
      t.db.logbook[i] == s.logbook[i].(content := t.db.logbook[i].content, tags := t.db.logbook[i].tags)
    ensures forall i :: |s.logbook| <= i < |t.db.logbook| ==> t.db.logbook[i].experimentId == NULL
    ensures t.db.committed == s.committed || Synced(t.db)
    ensures !Bindable([req.runNumber, req.timestamp, req.author, req.experimentId]) ==> t == Step(s, Some(SqliteError))
  {
    if !Bindable([req.runNumber, req.timestamp, req.author, req.experimentId]) then Step(s, Some(SqliteError))
    else
      var run, ts, au, exp := B(req.runNumber), B(req.timestamp), B(req.author), B(req.experimentId);
      match FirstWhere(s.logbook, (r: LogbookRow) => LogbookMatches(r, run, ts, au, exp))
      case Some(i) =>
        if !Bindable([req.content, req.tags]) then Step(s, Some(SqliteError))
        else Step(s.(logbook := s.logbook[i := s.logbook[i].(content := B(req.content), tags := B(req.tags))]), None)
      case None => Step(InsertLogbook(s, req), None)
  }

  predicate ProductionMatches(row: ProductionRow, run: Cell, exp: Cell) {
    SqlEq(row.runNumber, IntegerAffinity(run)) && SqlEq(row.experimentId, exp)
  }

  /** `update_data_production`: match on (run_number, experiment_id); update
      the five data columns of the first match. */
  function UpdateDataProduction(s: DbState, req: ProductionReq): (t: Step)
    ensures t.raised.Some? ==> t.db == s
    ensures t.db.(production := s.production, committed := s.committed) == s
    ensures |s.production| <= |t.db.production| <= |s.production| + 1
    ensures forall i :: 0 <= i < |s.production| ==>
      t.db.production[i].experimentId == s.production[i].experimentId && t.db.production[i].runNumber == s.production[i].runNumber
    ensures forall i :: |s.production| <= i < |t.db.production| ==> t.db.production[i].experimentId == NULL
    ensures t.db.committed == s.committed || Synced(t.db)
    ensures !Bindable([req.runNumber, req.experimentId]) ==> t == Step(s, Some(SqliteError))
  {
    if !Bindable([req.runNumber, req.experimentId]) then Step(s, Some(SqliteError))
    else
      var run, exp := B(req.runNumber), B(req.experimentId);
      match FirstWhere(s.production, (r: ProductionRow) => ProductionMatches(r, run, exp))
      case Some(i) =>
        if !Bindable([req.nEvents, req.nDamaged, req.nDropped, req.prodStart, req.prodEnd]) then Step(s, Some(SqliteError))
        else
          var row := s.production[i].(nEvents := IntegerAffinity(B(req.nEvents)), nDamaged := IntegerAffinity(B(req.nDamaged)),
                                      nDropped := IntegerAffinity(B(req.nDropped)), prodStart := B(req.prodStart), prodEnd := B(req.prodEnd));
          Step(s.(production := s.production[i := row]), None)
      case None => Step(InsertDataProduction(s, req), None)
  }

  predicate FileManagerMatches(row: FileManagerRow, run: Cell, exp: Cell) {
    SqlEq(row.runNumber, IntegerAffinity(run)) && SqlEq(row.experimentId, exp)
  }

  /** `update_file_manager`: match on (run_number, experiment_id); update the
      two counts of the first match. */
  function UpdateFileManager(s: DbState, req: FileManagerReq): (t: Step)
    ensures t.raised.Some? ==> t.db == s
    ensures t.db.(fileManager := s.fileManager, committed := s.committed) == s
    ensures |s.fileManager| <= |t.db.fileManager| <= |s.fileManager| + 1
    ensures forall i :: 0 <= i < |s.fileManager| ==>
      t.db.fileManager[i].experimentId == s.fileManager[i].experimentId && t.db.fileManager[i].runNumber == s.fileManager[i].runNumber
    ensures forall i :: |s.fileManager| <= i < |t.db.fileManager| ==> t.db.fileManager[i].experimentId == NULL
    ensures t.db.committed == s.committed || Synced(t.db)
    ensures !Bindable([req.runNumber, req.experimentId]) ==> t == Step(s, Some(SqliteError))
  {
    if !Bindable([req.runNumber, req.experimentId]) then Step(s, Some(SqliteError))
    else
      var run, exp := B(req.runNumber), B(req.experimentId);
      match FirstWhere(s.fileManager, (r: FileManagerRow) => FileManagerMatches(r, run, exp))
      case Some(i) =>
        if !Bindable([req.numberOfFiles, req.totalSizeBytes]) then Step(s, Some(SqliteError))
        else
          var row := s.fileManager[i].(numberOfFiles := IntegerAffinity(B(req.numberOfFiles)),
                                       totalSizeBytes := IntegerAffinity(B(req.totalSizeBytes)));
          Step(s.(fileManager := s.fileManager[i := row]), None)
      case None => Step(InsertFileManager(s, req), None)
  }
}
