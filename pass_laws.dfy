/** Laws of whole passes over one file_manager artifact, in both modes, and
    of the update-mode pass over a `Data Production` list: what the folds of
    Ingest write, stated with closed-form reference definitions. */
module PassLaws {
  import opened Values
  import opened Tables
  import opened Ingest
  import IngestLaws
  import StoreLaws

  // ---------------------------------------------------------------------
  // file_manager rows
  // ---------------------------------------------------------------------

  /** The three columns the file-manager processors read with `row[...]`. */
  predicate HasFileManagerColumns(row: Record) {
    HasKey(row, "Run Number") && HasKey(row, "Number of Files") && HasKey(row, "Total Size (bytes)")
  }

  /** None of the Run table's own column names is a column of the CSV, so
      insert mode's `data.get(...)` reads None for each of them. */
  predicate NoRunColumns(row: Record) {
    && !HasKey(row, "Run") && !HasKey(row, "start_time") && !HasKey(row, "end_time")
    && !HasKey(row, "n_events") && !HasKey(row, "n_damaged")
  }

  /** A file_manager row as the crawler writes it, seen by insert mode. */
  predicate InsertRowOk(row: Record) {
    HasFileManagerColumns(row) && NoRunColumns(row) && IngestLaws.CsvRow(row)
  }

  /** Every row of the CSV is one insert mode writes without raising. */
  predicate InsertRowsOk(rows: seq<Record>) {
    rows != [] ==> InsertRowOk(rows[0]) && InsertRowsOk(rows[1..])
  }

  /** A file_manager row update mode writes without raising: the three
      columns, text cells, and a `Run Number` that reads as an integer. */
  predicate UpdateRowOk(row: Record) {
    && HasFileManagerColumns(row) && IngestLaws.CsvRow(row)
    && IntegerAffinity(B(Get(row, "Run Number"))).Integer?
  }

  /** Every row of the CSV is one update mode writes without raising. */
  predicate UpdateRowsOk(rows: seq<Record>) {
    rows != [] ==> UpdateRowOk(rows[0]) && UpdateRowsOk(rows[1..])
  }

  /** The Run row a file_manager row leaves: this experiment, and the four
      data columns NULL. */
  function BareRun(id: string): RunRow {
    RunRow(Text(id), NULL, NULL, NULL, NULL)
  }

  /** The FileManager row of one CSV row; both modes leave its experiment
      column NULL. */
  function FileManagerRowFor(row: Record): FileManagerRow {
    FileManagerRowOf(FileManagerReq(Null, Get(row, "Run Number"), Get(row, "Number of Files"), Get(row, "Total Size (bytes)")))
  }

  /** The FileManager rows of a CSV, one per row, in order. */
  function FileManagerRowsFor(rows: seq<Record>): (r: seq<FileManagerRow>)
    ensures |r| == |rows|
  {
    if rows == [] then [] else [FileManagerRowFor(rows[0])] + FileManagerRowsFor(rows[1..])
  }

  /** `n` Run rows of experiment `id` under the keys after `high`. */
  function FreshRuns(high: int, id: string, n: nat): (m: map<int, RunRow>)
    ensures forall k :: k in m <==> high < k <= high + n
    ensures forall k :: k in m ==> m[k] == BareRun(id)
  {
    if n == 0 then map[] else FreshRuns(high, id, n - 1)[high + n := BareRun(id)]
  }

  /** Adding the row under `high + 1` first, then the rest after it, is
      adding all of them. */
  lemma FreshRunsShift(runs: map<int, RunRow>, runs1: map<int, RunRow>, high: int, high1: int, id: string, n: nat)
    requires n > 0 && runs1 == runs[high + 1 := BareRun(id)] && high1 == high + 1
    ensures runs1 + FreshRuns(high1, id, n - 1) == runs + FreshRuns(high, id, n)
  {
    var a, b := runs1 + FreshRuns(high1, id, n - 1), runs + FreshRuns(high, id, n);
    assert a.Keys == b.Keys;
    forall k | k in a ensures a[k] == b[k] {
      if high < k <= high + n { assert k in FreshRuns(high, id, n); }
    }
  }

  /** The columns after the first row and after the rest, as the columns
      after all rows. */
  lemma InsertGlue(s: DbState, s1: DbState, t: DbState, id: string, rows: seq<Record>)
    requires rows != []
    requires s1.runs == s.runs[s.runHigh + 1 := BareRun(id)] && s1.runHigh == s.runHigh + 1
    requires s1.fileManager == s.fileManager + [FileManagerRowFor(rows[0])]
    requires t.runs == s1.runs + FreshRuns(s1.runHigh, id, |rows[1..]|) && t.runHigh == s1.runHigh + |rows[1..]|
    requires t.fileManager == s1.fileManager + FileManagerRowsFor(rows[1..])
    ensures t.runs == s.runs + FreshRuns(s.runHigh, id, |rows|) && t.runHigh == s.runHigh + |rows|
    ensures t.fileManager == s.fileManager + FileManagerRowsFor(rows)
  {
    FreshRunsShift(s.runs, s1.runs, s.runHigh, s1.runHigh, id, |rows|);
    AppendOne(s.fileManager, FileManagerRowFor(rows[0]), FileManagerRowsFor(rows[1..]));
  }

  /** Appending one element and then a sequence is appending both. */
  lemma AppendOne<T>(a: seq<T>, x: T, b: seq<T>)
    ensures a + [x] + b == a + ([x] + b)
  {
    assert (a + [x]) + b == a + ([x] + b);
  }

  /** The run number an update-mode row names. */
  function RunNumberOf(row: Record): int
    requires UpdateRowOk(row)
  {
    IntegerAffinity(B(Get(row, "Run Number"))).i
  }

  /** The run numbers of a CSV. */
  function RunNumbersOf(rows: seq<Record>): set<int>
    requires UpdateRowsOk(rows)
  {
    if rows == [] then {} else {RunNumberOf(rows[0])} + RunNumbersOf(rows[1..])
  }

  /** No FileManager row names experiment `id`. */
  predicate NoFileManagerRowsOf(s: DbState, id: string) {
    forall i :: 0 <= i < |s.fileManager| ==> s.fileManager[i].experimentId != Text(id)
  }

  // ---------------------------------------------------------------------
  // Insert mode
  // ---------------------------------------------------------------------

  /** insert_run on an insert-mode file-manager row, whose `Run` and data
      columns are absent: a bare Run row of the experiment under the next
      free key, committed. */
  lemma BareRunInsert(s: DbState, id: string, row: Record)
    requires Valid(s) && NoRunColumns(row)
    ensures var t := InsertRun(s, InsertModeRunReq(id, row));
      && t.runs == s.runs[s.runHigh + 1 := BareRun(id)] && t.runHigh == s.runHigh + 1
      && Synced(t)
  {
    var req := InsertModeRunReq(id, row);
    assert req == RunReq(Null, Str(id), Null, Null, Null, Null);
    assert Bindable(RunColumns(req));
    assert IntegerAffinity(B(req.run)) == NULL;
  }

  /** One row in insert mode: insert_run with a NULL key adds a fresh Run
      row of the experiment with nothing else in it, then the FileManager
      row is appended; both commit. */
  lemma InsertHead(s: DbState, id: string, row: Record)
    requires Valid(s) && InsertRowOk(row)
    ensures var t := FileManagerRowStep(s, id, row, InsertMode);
      && t.raised == None
      && t.db.runs == s.runs[s.runHigh + 1 := BareRun(id)] && t.db.runHigh == s.runHigh + 1
      && t.db.fileManager == s.fileManager + [FileManagerRowFor(row)]
      && Synced(t.db)
  {
    BareRunInsert(s, id, row);
    var s1 := InsertRun(s, InsertModeRunReq(id, row));
    var freq := FileManagerReq(Null, Get(row, "Run Number"), Get(row, "Number of Files"), Get(row, "Total Size (bytes)"));
    FileManagerColumnsBind(row, Null);
    assert InsertFileManager(s1, freq).fileManager == s1.fileManager + [FileManagerRowFor(row)];
  }

  /** The insert-mode file_manager pass over well-formed rows raises
      nothing; it adds one Run row per CSV row, under the next free keys,
      naming the experiment and nothing else, appends one FileManager row
      per CSV row in order, commits, and changes no other table. */
  lemma {:induction false} FileManagerInsertPass(s: DbState, id: string, rows: seq<Record>)
    requires Valid(s) && Synced(s) && InsertRowsOk(rows)
    ensures var t := FileManagerRows(s, id, rows, InsertMode);
      && t.raised == None
      && t.db.runs == s.runs + FreshRuns(s.runHigh, id, |rows|) && t.db.runHigh == s.runHigh + |rows|
      && t.db.fileManager == s.fileManager + FileManagerRowsFor(rows)
      && Synced(t.db)
    decreases |rows|
  {
    if rows == [] {
      assert s.runs + FreshRuns(s.runHigh, id, 0) == s.runs;
      assert s.fileManager + FileManagerRowsFor([]) == s.fileManager;
    } else {
      InsertHead(s, id, rows[0]);
      var s1 := FileManagerRowStep(s, id, rows[0], InsertMode).db;
      var rest := rows[1..];
      FileManagerInsertPass(s1, id, rest);
      InsertGlue(s, s1, FileManagerRows(s1, id, rest, InsertMode).db, id, rows);
    }
  }

  /** A row without one of the three columns raises KeyError at `row[...]`,
      after insert_run has added and committed the row's Run row; the rows
      after it are not read. */
  lemma FileManagerInsertMissingColumn(s: DbState, id: string, row: Record, more: seq<Record>)
    requires Valid(s) && !HasFileManagerColumns(row) && NoRunColumns(row)
    ensures var t := FileManagerRows(s, id, [row] + more, InsertMode);
      && t.raised == Some(KeyError)
      && t.db.runs == s.runs[s.runHigh + 1 := BareRun(id)] && t.db.runHigh == s.runHigh + 1
      && t.db.(runs := s.runs, runHigh := s.runHigh, committed := s.committed) == s
      && Synced(t.db)
  {
    BareRunInsert(s, id, row);
    var s1 := InsertRun(s, InsertModeRunReq(id, row));
    assert ([row] + more)[0] == row;
    assert FileManagerRowStep(s, id, row, InsertMode) == Step(s1, Some(KeyError));
  }

  // ---------------------------------------------------------------------
  // Update mode
  // ---------------------------------------------------------------------

  /** One row in update mode: the run ends bare (StoreLaws.
      FileManagerRefreshClearsEvents), and since no FileManager row names
      the experiment the update falls back to the insert, which appends the
      row and commits everything pending. */
  lemma UpdateHead(s: DbState, id: string, row: Record, parseMainContent: Value -> Record)
    requires Valid(s) && UpdateRowOk(row) && NoFileManagerRowsOf(s, id)
    ensures var t := FileManagerRowStep(s, id, row, UpdateMode(parseMainContent));
      && t.raised == None
      && t.db.runs == s.runs[RunNumberOf(row) := BareRun(id)]
      && t.db.fileManager == s.fileManager + [FileManagerRowFor(row)]
      && t.db.(runs := s.runs, runHigh := s.runHigh, fileManager := s.fileManager, committed := s.committed) == s
      && NoFileManagerRowsOf(t.db, id)
      && Synced(t.db)
  {
    var rn, nf, ts := Get(row, "Run Number"), Get(row, "Number of Files"), Get(row, "Total Size (bytes)");
    IngestLaws.CsvCellBinds(row, "Run Number");
    StoreLaws.FileManagerRefreshClearsEvents(s, id, rn);
    var r := UpdateRun(s, RunReq(rn, Str(id), Null, Null, Null, Null));
    var freq := FileManagerReq(Str(id), rn, nf, ts);
    assert r.db.fileManager == s.fileManager;
    FileManagerColumnsBind(row, Str(id));
    FileManagerFallsBack(r.db, id, freq);
    assert InsertFileManager(r.db, freq).fileManager == s.fileManager + [FileManagerRowFor(row)];
  }

  /** The three file-manager cells of a CSV row bind. */
  lemma FileManagerColumnsBind(row: Record, exp: Value)
    requires IngestLaws.CsvRow(row)
    ensures Bindable(FileManagerColumns(FileManagerReq(exp, Get(row, "Run Number"), Get(row, "Number of Files"), Get(row, "Total Size (bytes)"))))
  {
    IngestLaws.CsvCellBinds(row, "Run Number");
    IngestLaws.CsvCellBinds(row, "Number of Files");
    IngestLaws.CsvCellBinds(row, "Total Size (bytes)");
  }

  /** update_file_manager for an experiment no FileManager row names is
      insert_file_manager. */
  lemma FileManagerFallsBack(s: DbState, id: string, req: FileManagerReq)
    requires NoFileManagerRowsOf(s, id) && req.experimentId == Str(id)
    requires Bindable([req.runNumber, req.experimentId])
    ensures UpdateFileManager(s, req) == Step(InsertFileManager(s, req), None)
  {
  }

  /** The update-mode file_manager pass over well-formed rows, on a store
      where no FileManager row names the experiment (as NoOwners gives):
      nothing raises; every run the CSV names ends holding the experiment
      and four NULL data columns, whether it existed or not; every other
      run is unchanged; one FileManager row is appended per CSV row, in
      order; no other table changes; and the last fallback insert has
      committed everything. */
  lemma {:induction false} FileManagerUpdatePass(s: DbState, id: string, rows: seq<Record>, parseMainContent: Value -> Record)
    requires Valid(s) && NoFileManagerRowsOf(s, id) && UpdateRowsOk(rows)
    ensures var t := FileManagerRows(s, id, rows, UpdateMode(parseMainContent));
      && t.raised == None
      && t.db.runs.Keys == s.runs.Keys + RunNumbersOf(rows)
      && (forall k :: k in RunNumbersOf(rows) ==> t.db.runs[k] == BareRun(id))
      && (forall k :: k in s.runs && k !in RunNumbersOf(rows) ==> t.db.runs[k] == s.runs[k])
      && t.db.fileManager == s.fileManager + FileManagerRowsFor(rows)
      && t.db.(runs := s.runs, runHigh := s.runHigh, fileManager := s.fileManager, committed := s.committed) == s
      && (rows == [] ==> t.db == s)
      && (rows != [] ==> Synced(t.db))
    decreases |rows|
  {
    if rows == [] {
      assert s.fileManager + FileManagerRowsFor([]) == s.fileManager;
    } else {
      var mode := UpdateMode(parseMainContent);
      UpdateHead(s, id, rows[0], parseMainContent);
      var s1 := FileManagerRowStep(s, id, rows[0], mode).db;
      FileManagerUpdatePass(s1, id, rows[1..], parseMainContent);
      var t1 := FileManagerRows(s1, id, rows[1..], mode).db;
      UpdateRunsGlue(s.runs, s1.runs, t1.runs, id, rows);
      UpdateTablesGlue(s, s1, t1, rows);
    }
  }

  /** The Run table after the first row and after the rest, as the Run
      table after all rows. */
  lemma UpdateRunsGlue(runs: map<int, RunRow>, runs1: map<int, RunRow>, runsT: map<int, RunRow>, id: string, rows: seq<Record>)
    requires UpdateRowsOk(rows) && rows != []
    requires runs1 == runs[RunNumberOf(rows[0]) := BareRun(id)]
    requires runsT.Keys == runs1.Keys + RunNumbersOf(rows[1..])
    requires forall k :: k in RunNumbersOf(rows[1..]) ==> runsT[k] == BareRun(id)
    requires forall k :: k in runs1 && k !in RunNumbersOf(rows[1..]) ==> runsT[k] == runs1[k]
    ensures runsT.Keys == runs.Keys + RunNumbersOf(rows)
    ensures forall k :: k in RunNumbersOf(rows) ==> runsT[k] == BareRun(id)
    ensures forall k :: k in runs && k !in RunNumbersOf(rows) ==> runsT[k] == runs[k]
  {
  }

  /** The other tables after the first row and after the rest, as after
      all rows. */
  lemma UpdateTablesGlue(s: DbState, s1: DbState, t: DbState, rows: seq<Record>)
    requires rows != []
    requires s1.fileManager == s.fileManager + [FileManagerRowFor(rows[0])]
    requires s1.(runs := s.runs, runHigh := s.runHigh, fileManager := s.fileManager, committed := s.committed) == s
    requires t.fileManager == s1.fileManager + FileManagerRowsFor(rows[1..])
    requires t.(runs := s1.runs, runHigh := s1.runHigh, fileManager := s1.fileManager, committed := s1.committed) == s1
    ensures t.fileManager == s.fileManager + FileManagerRowsFor(rows)
    ensures t.(runs := s.runs, runHigh := s.runHigh, fileManager := s.fileManager, committed := s.committed) == s
  {
    AppendOne(s.fileManager, FileManagerRowFor(rows[0]), FileManagerRowsFor(rows[1..]));
  }

  // ---------------------------------------------------------------------
  // The update-mode Data Production pass
  // ---------------------------------------------------------------------

  /** Every entry is a dict whose six values bind (update mode reads them
      with `run.get(...)`, so a missing key is None). */
  predicate ProductionUpdateOk(id: string, entries: seq<Value>, parseMainContent: Value -> Record) {
    entries != [] ==>
      && entries[0].Dict?
      && Bindable(ProductionColumns(ProductionReqOf(id, entries[0], UpdateMode(parseMainContent)).value))
      && ProductionUpdateOk(id, entries[1..], parseMainContent)
  }

  /** The DataProduction rows of the entries in update mode, one per entry,
      in order. */
  function ProductionUpdateRowsOf(id: string, entries: seq<Value>, parseMainContent: Value -> Record): (rows: seq<ProductionRow>)
    requires ProductionUpdateOk(id, entries, parseMainContent)
    ensures |rows| == |entries|
  {
    if entries == [] then []
    else [ProductionRowOf(ProductionReqOf(id, entries[0], UpdateMode(parseMainContent)).value)]
         + ProductionUpdateRowsOf(id, entries[1..], parseMainContent)
  }

  /** No DataProduction row names experiment `id`. */
  predicate NoProductionRowsOf(s: DbState, id: string) {
    forall i :: 0 <= i < |s.production| ==> s.production[i].experimentId != Text(id)
  }

  /** The first entry in update mode: update_data_production finds no row
      of the experiment, so it falls back to the insert, which appends the
      entry's row and commits; the pass goes on with the rest. */
  lemma ProductionUpdateHead(s: DbState, id: string, entries: seq<Value>, parseMainContent: Value -> Record)
    requires Valid(s) && NoProductionRowsOf(s, id) && entries != [] && ProductionUpdateOk(id, entries, parseMainContent)
    ensures var mode := UpdateMode(parseMainContent);
      var req := ProductionReqOf(id, entries[0], mode).value;
      var r := WriteProduction(s, req, mode);
      && r.raised == None
      && r.db.production == s.production + [ProductionRowOf(req)]
      && Synced(r.db)
      && NoProductionRowsOf(r.db, id)
      && ProductionEntries(s, id, entries, mode) == ProductionEntries(r.db, id, entries[1..], mode)
  {
    var mode := UpdateMode(parseMainContent);
    var req := ProductionReqOf(id, entries[0], mode).value;
    assert req.experimentId == Str(id);
    assert Bindable(ProductionColumns(req));
    assert Bind(req.experimentId).Some? && Bind(ProductionColumns(req)[0]).Some?;
    ProductionFallsBack(s, id, req);
  }

  /** update_data_production for an experiment no DataProduction row names
      is insert_data_production. */
  lemma ProductionFallsBack(s: DbState, id: string, req: ProductionReq)
    requires NoProductionRowsOf(s, id) && req.experimentId == Str(id)
    requires Bindable([req.runNumber, req.experimentId])
    ensures UpdateDataProduction(s, req) == Step(InsertDataProduction(s, req), None)
  {
  }

  /** The production table after the first entry and after the rest, as
      after all entries. */
  lemma ProductionUpdateGlue(p: seq<ProductionRow>, p1: seq<ProductionRow>, pT: seq<ProductionRow>,
                             id: string, entries: seq<Value>, parseMainContent: Value -> Record)
    requires entries != [] && ProductionUpdateOk(id, entries, parseMainContent)
    requires p1 == p + [ProductionRowOf(ProductionReqOf(id, entries[0], UpdateMode(parseMainContent)).value)]
    requires pT == p1 + ProductionUpdateRowsOf(id, entries[1..], parseMainContent)
    ensures pT == p + ProductionUpdateRowsOf(id, entries, parseMainContent)
  {
    AppendOne(p, ProductionRowOf(ProductionReqOf(id, entries[0], UpdateMode(parseMainContent)).value),
              ProductionUpdateRowsOf(id, entries[1..], parseMainContent));
  }

  /** The update-mode production pass, on a store where no DataProduction
      row names the experiment (as NoOwners gives): every
      update_data_production falls back to the insert, so the pass appends
      one row per entry, in order, raises nothing, commits, and changes no
      other table. */
  lemma {:induction false} ProductionUpdatePass(s: DbState, id: string, entries: seq<Value>, parseMainContent: Value -> Record)
    requires Valid(s) && NoProductionRowsOf(s, id) && ProductionUpdateOk(id, entries, parseMainContent)
    ensures var t := ProductionEntries(s, id, entries, UpdateMode(parseMainContent));
      && t.raised == None
      && t.db.production == s.production + ProductionUpdateRowsOf(id, entries, parseMainContent)
      && t.db.(production := s.production, committed := s.committed) == s
      && (entries == [] ==> t.db == s)
      && (entries != [] ==> Synced(t.db))
    decreases |entries|
  {
    if entries == [] {
      assert s.production + ProductionUpdateRowsOf(id, entries, parseMainContent) == s.production;
    } else {
      var mode := UpdateMode(parseMainContent);
      ProductionUpdateHead(s, id, entries, parseMainContent);
      var s1 := WriteProduction(s, ProductionReqOf(id, entries[0], mode).value, mode).db;
      ProductionUpdatePass(s1, id, entries[1..], parseMainContent);
      ProductionUpdateGlue(s.production, s1.production, ProductionEntries(s1, id, entries[1..], mode).db.production,
                           id, entries, parseMainContent);
    }
  }

  /** Entries that insert mode writes are written by update mode as the same
      rows: both passes append one identical row per entry. */
  lemma {:induction false} ProductionModesAgree(id: string, entries: seq<Value>, parseMainContent: Value -> Record)
    requires IngestLaws.ProductionOk(id, entries)
    ensures ProductionUpdateOk(id, entries, parseMainContent)
    ensures ProductionUpdateRowsOf(id, entries, parseMainContent) == IngestLaws.ProductionRowsOf(id, entries)
    decreases |entries|
  {
    if entries != [] {
      IngestLaws.ProductionRowsSplit(id, entries);
      ProductionModesAgree(id, entries[1..], parseMainContent);
      var ins := ProductionReqOf(id, entries[0], InsertMode).value;
      var upd := ProductionReqOf(id, entries[0], UpdateMode(parseMainContent)).value;
      assert ProductionColumns(upd) == ProductionColumns(ins);
      assert ProductionRowOf(upd) == ProductionRowOf(ins);
    }
  }
}
