/** What the processors and the entry points promise: the logbook
    carry-forward rule, the detector filter, re-ingesting an info file, and
    how the per-file loops of both commands stop at the first exception. */
module IngestLaws {
  import opened Values
  import opened Tables
  import opened Classify
  import opened Ingest
  import StoreLaws

  // ---------------------------------------------------------------------
  // Logbook: run numbers carried forward
  // ---------------------------------------------------------------------

  /** Every row's `Run` column is present and blank or an integer. */
  predicate RunsReadable(rows: seq<Record>) {
    forall i :: 0 <= i < |rows| ==> ExplicitRun(rows[i]).Ok?
  }

  /** A CSV row: every cell is text, or None for a missing trailing cell. */
  predicate CsvRow(row: Record) {
    forall i :: 0 <= i < |row| ==> row[i].1.Str? || row[i].1.Null?
  }

  /** A logbook row the processor writes without raising: its run, if it
      names one, fits an SQLite INTEGER. */
  predicate LogRowOk(row: Record) {
    && ExplicitRun(row).Ok?
    && (ExplicitRun(row).value.Some? ==> Int64(ExplicitRun(row).value.value))
    && HasKey(row, "Posted") && HasKey(row, "Content") && HasKey(row, "Tags") && HasKey(row, "Author")
    && CsvRow(row)
  }

  /** A carried run that fits an SQLite INTEGER, or none. */
  predicate RunFits(last: Option<int>) {
    last.Some? ==> Int64(last.value)
  }

  /** The run a row names: its explicit run when readable, else none. */
  function RunOf(row: Record): Option<int> {
    match ExplicitRun(row)
    case Ok(v) => v
    case Fail(_) => None
  }

  predicate LogRowsOk(rows: seq<Record>) {
    forall i :: 0 <= i < |rows| ==> LogRowOk(rows[i])
  }

  /** Reference definition of the carried run: the explicit run of the
      latest row that names one, or `last` when none does. */
  function MostRecent(last: Option<int>, rows: seq<Record>): Option<int>
    decreases |rows|
  {
    if rows == [] then last
    else
      match RunOf(rows[|rows| - 1])
      case Some(n) => Some(n)
      case None => MostRecent(last, rows[..|rows| - 1])
  }

  /** The Logbook row filed under run n for a CSV row: no experiment_id,
      the row's Posted, Content, Tags and Author cells. */
  function LogbookRowFor(n: int, row: Record): LogbookRow {
    LogbookRow(NULL, Integer(n), B(Get(row, "Posted")), B(Get(row, "Content")), B(Get(row, "Tags")), B(Get(row, "Author")))
  }

  /** Reference definition of what an insert-mode logbook pass writes: for
      each row in document order, one Logbook row under the most recent run
      named at or before it, and nothing while no run has been named. */
  function Written(last: Option<int>, rows: seq<Record>): seq<LogbookRow>
    decreases |rows|
  {
    if rows == [] then []
    else
      Written(last, rows[..|rows| - 1]) + (match MostRecent(last, rows) case Some(n) => [LogbookRowFor(n, rows[|rows| - 1])] case None => [])
  }

  lemma {:induction false} MostRecentAppend(last: Option<int>, a: seq<Record>, b: seq<Record>)
    ensures MostRecent(last, a + b) == MostRecent(MostRecent(last, a), b)
    decreases |b|
  {
    if b == [] {
      assert a + b == a;
    } else {
      var init := b[..|b| - 1];
      assert (a + b)[..|a + b| - 1] == a + init;
      assert (a + b)[|a + b| - 1] == b[|b| - 1];
      MostRecentAppend(last, a, init);
    }
  }

  lemma {:induction false} WrittenAppend(last: Option<int>, a: seq<Record>, b: seq<Record>)
    ensures Written(last, a + b) == Written(last, a) + Written(MostRecent(last, a), b)
    decreases |b|
  {
    if b == [] {
      assert a + b == a;
    } else {
      var init := b[..|b| - 1];
      assert (a + b)[..|a + b| - 1] == a + init;
      assert (a + b)[|a + b| - 1] == b[|b| - 1];
      WrittenAppend(last, a, init);
      MostRecentAppend(last, a, b);
    }
  }

  /** A CSV cell binds. */
  lemma CsvCellBinds(row: Record, k: string)
    requires CsvRow(row)
    ensures Bind(Get(row, k)).Some?
  {
    if HasKey(row, k) {
      var i :| 0 <= i < |row| && row[i] == (k, Get(row, k));
      assert row[i].1.Str? || row[i].1.Null?;
    }
  }

  /** The carried run is always one the rows or `last` named. */
  lemma {:induction false} MostRecentFits(last: Option<int>, rows: seq<Record>)
    requires LogRowsOk(rows) && RunFits(last)
    ensures RunFits(MostRecent(last, rows))
    decreases |rows|
  {
    if rows != [] {
      var init := rows[..|rows| - 1];
      assert LogRowsOk(init) by { assert forall i :: 0 <= i < |init| ==> init[i] == rows[i]; }
      assert LogRowOk(rows[|rows| - 1]);
      MostRecentFits(last, init);
    }
  }

  lemma MostRecentSingle(last: Option<int>, r: Record)
    requires ExplicitRun(r).Ok?
    ensures RunsReadable([r])
    ensures MostRecent(last, [r]) == if ExplicitRun(r).value.Some? then ExplicitRun(r).value else last
  {
    assert [r][..0] == [];
  }

  lemma WrittenSingle(last: Option<int>, r: Record)
    requires LogRowOk(r)
    ensures LogRowsOk([r]) && RunsReadable([r])
    ensures Written(last, [r]) == match MostRecent(last, [r]) case Some(n) => [LogbookRowFor(n, r)] case None => []
  {
    assert [r][..0] == [];
  }

  /** A well-formed row under run `n` binds, so insert_logbook appends its
      row and commits. */
  lemma LogbookWrite(s: DbState, id: string, n: int, r: Record)
    requires Valid(s) && LogRowOk(r) && Int64(n)
    ensures LogbookReqOf(id, n, r, InsertMode).Ok?
    ensures InsertLogbook(s, LogbookReqOf(id, n, r, InsertMode).value) == Commit(s.(logbook := s.logbook + [LogbookRowFor(n, r)]))
  {
    var req := LogbookReqOf(id, n, r, InsertMode).value;
    CsvCellBinds(r, "Posted"); CsvCellBinds(r, "Content"); CsvCellBinds(r, "Tags"); CsvCellBinds(r, "Author");
    assert Bindable(LogbookColumns(req));
  }

  /** One well-formed row: written under the carried run, if any. */
  lemma LogbookHead(s: DbState, id: string, last: Option<int>, rows: seq<Record>)
    requires Valid(s) && Synced(s) && rows != [] && LogRowOk(rows[0]) && RunFits(last)
    ensures LogRowsOk([rows[0]]) && RunFits(MostRecent(last, [rows[0]]))
    ensures LogbookRows(s, id, last, rows, InsertMode)
      == LogbookRows(Commit(s.(logbook := s.logbook + Written(last, [rows[0]]))), id, MostRecent(last, [rows[0]]), rows[1..], InsertMode)
  {
    var r := rows[0];
    MostRecentSingle(last, r);
    WrittenSingle(last, r);
    var l' := MostRecent(last, [r]);
    if l'.Some? {
      LogbookWrite(s, id, l'.value, r);
    } else {
      assert Commit(s.(logbook := s.logbook + [])) == s;
    }
  }

  lemma LogbookGlue(s: DbState, w1: seq<LogbookRow>, w2: seq<LogbookRow>, w: seq<LogbookRow>)
    requires w == w1 + w2
    ensures var s1 := Commit(s.(logbook := s.logbook + w1)); Commit(s1.(logbook := s1.logbook + w2)) == Commit(s.(logbook := s.logbook + w))
  {
    assert s.logbook + w1 + w2 == s.logbook + w;
  }

  /** The carry-forward rule: an insert-mode logbook pass over well-formed
      rows appends exactly the reference rows, commits them and raises
      nothing. Insert mode starts every statement with nothing pending. */
  lemma {:induction false} LogbookInsertCarriesForward(s: DbState, id: string, last: Option<int>, rows: seq<Record>)
    requires Valid(s) && Synced(s) && LogRowsOk(rows) && RunFits(last)
    ensures LogbookRows(s, id, last, rows, InsertMode) == Step(Commit(s.(logbook := s.logbook + Written(last, rows))), None)
    decreases |rows|
  {
    if rows == [] {
      assert Commit(s.(logbook := s.logbook + [])) == s;
    } else {
      var r, rest := rows[0], rows[1..];
      assert LogRowsOk(rest);
      LogbookHead(s, id, last, rows);
      var s1 := Commit(s.(logbook := s.logbook + Written(last, [r])));
      var l' := MostRecent(last, [r]);
      LogbookInsertCarriesForward(s1, id, l', rest);
      assert rows == [r] + rest;
      WrittenAppend(last, [r], rest);
      assert Written(last, rows) == Written(last, [r]) + Written(l', rest);
      LogbookGlue(s, Written(last, [r]), Written(l', rest), Written(last, rows));
    }
  }

  /** Rows before the first one that names a run are dropped. */
  lemma {:induction false} NoRunYetNothingWritten(rows: seq<Record>)
    requires LogRowsOk(rows)
    requires forall i :: 0 <= i < |rows| ==> ExplicitRun(rows[i]) == Ok(None)
    ensures RunsReadable(rows)
    ensures MostRecent(None, rows) == None
    ensures Written(None, rows) == []
    decreases |rows|
  {
    if rows != [] {
      var init := rows[..|rows| - 1];
      assert forall i :: 0 <= i < |init| ==> init[i] == rows[i];
      NoRunYetNothingWritten(init);
    }
  }

  /** The carried run is the one named by the latest row that names one. */
  lemma {:induction false} MostRecentIsLatest(last: Option<int>, rows: seq<Record>, i: nat, n: int)
    requires RunsReadable(rows)
    requires i < |rows| && ExplicitRun(rows[i]) == Ok(Some(n))
    requires forall j :: i < j < |rows| ==> ExplicitRun(rows[j]) == Ok(None)
    ensures MostRecent(last, rows) == Some(n)
    decreases |rows|
  {
    if i < |rows| - 1 {
      var init := rows[..|rows| - 1];
      assert forall j :: 0 <= j < |init| ==> init[j] == rows[j];
      MostRecentIsLatest(last, init, i, n);
    }
  }

  /** Appending a row: it is written under the run it names, or else under
      the run carried to it. */
  lemma WrittenSnoc(last: Option<int>, rows: seq<Record>, r: Record)
    requires LogRowsOk(rows) && LogRowOk(r)
    ensures LogRowsOk(rows + [r]) && RunsReadable(rows) && RunsReadable(rows + [r])
    ensures MostRecent(last, rows + [r]) == if ExplicitRun(r).value.Some? then ExplicitRun(r).value else MostRecent(last, rows)
    ensures Written(last, rows + [r]) == Written(last, rows)
      + match MostRecent(last, rows + [r]) case Some(n) => [LogbookRowFor(n, r)] case None => []
  {
    assert (rows + [r])[..|rows|] == rows;
    assert LogRowsOk(rows + [r]) by {
      forall i | 0 <= i < |rows + [r]| ensures LogRowOk((rows + [r])[i]) {
        if i < |rows| { assert (rows + [r])[i] == rows[i]; }
      }
    }
  }

  /** The carry-forward rule on the `Run` cells alone (None: blank). */
  function Carried(last: Option<int>, runs: seq<Option<int>>): Option<int>
    decreases |runs|
  {
    if runs == [] then last
    else match runs[|runs| - 1]
      case Some(n) => Some(n)
      case None => Carried(last, runs[..|runs| - 1])
  }

  /** The `Run` cells of a log, read as integers. */
  function ExplicitRuns(rows: seq<Record>): (e: seq<Option<int>>)
    requires RunsReadable(rows)
    ensures |e| == |rows| && forall i :: 0 <= i < |rows| ==> e[i] == ExplicitRun(rows[i]).value
  {
    seq(|rows|, i requires 0 <= i < |rows| && RunsReadable(rows) => ExplicitRun(rows[i]).value)
  }

  /** The carried run of a log depends on its `Run` cells only. */
  lemma {:induction false} MostRecentIsCarried(last: Option<int>, rows: seq<Record>)
    requires RunsReadable(rows)
    ensures MostRecent(last, rows) == Carried(last, ExplicitRuns(rows))
    decreases |rows|
  {
    if rows != [] {
      var init := rows[..|rows| - 1];
      assert RunsReadable(init) by { assert forall i :: 0 <= i < |init| ==> init[i] == rows[i]; }
      assert ExplicitRuns(rows)[..|rows| - 1] == ExplicitRuns(init);
      MostRecentIsCarried(last, init);
    }
  }

  /** The example the rule is stated with: `Run` cells 5, -, -, 6, - put the
      rows under 5, 5, 5, 6, 6; cells -, -, 7 drop the first two rows. */
  lemma CarryForwardExample()
    ensures forall j :: 0 <= j < 5 ==>
      Carried(None, [Some(5), None, None, Some(6), None][..j + 1]) == [Some(5), Some(5), Some(5), Some(6), Some(6)][j]
    ensures forall j :: 0 <= j < 3 ==>
      Carried(None, [None, None, Some(7)][..j + 1]) == [None, None, Some(7)][j]
  {
    var runs := [Some(5), None, None, Some(6), None];
    assert runs[..1] == [Some(5)] && runs[..2] == [Some(5), None] && runs[..3] == [Some(5), None, None];
    assert runs[..4] == [Some(5), None, None, Some(6)] && runs[..5] == runs;
    assert [Some(5), None][..1] == [Some(5)] && [Some(5), None, None][..2] == [Some(5), None];
    assert [Some(5), None, None, Some(6), None][..4] == [Some(5), None, None, Some(6)];
    var drop: seq<Option<int>> := [None, None, Some(7)];
    assert drop[..1] == [None] && drop[..2] == [None, None] && drop[..3] == drop;
    var one: seq<Option<int>> := [None];
    assert drop[..2][..1] == one && one[..0] == [];
  }

  // ---------------------------------------------------------------------
  // Runtable: only checked detectors are recorded
  // ---------------------------------------------------------------------

  // ---------------------------------------------------------------------
  // Logbook: the same rule in update mode
  // ---------------------------------------------------------------------

  /** The logbook dict for a well-formed row filed under run n. */
  function LogbookReqFor(id: string, n: int, row: Record, mode: Mode): LogbookReq {
    LogbookReq(if mode.InsertMode? then Null else Str(id), Int(n),
      Get(row, "Posted"), Get(row, "Content"), Get(row, "Tags"), Get(row, "Author"))
  }

  /** Reference definition of the dicts a logbook pass hands on, in
      document order: one per row, under the most recent run named at or
      before it, none while no run has been named. */
  function Issued(id: string, last: Option<int>, rows: seq<Record>, mode: Mode): seq<LogbookReq>
    decreases |rows|
  {
    if rows == [] then []
    else
      Issued(id, last, rows[..|rows| - 1], mode)
        + (match MostRecent(last, rows) case Some(n) => [LogbookReqFor(id, n, rows[|rows| - 1], mode)] case None => [])
  }

  /** update_logbook applied to each dict in turn; it touches no other table. */
  function UpdateEach(s: DbState, reqs: seq<LogbookReq>): (t: DbState)
    ensures t.(logbook := s.logbook, committed := s.committed) == s
    decreases |reqs|
  {
    if reqs == [] then s else UpdateEach(UpdateLogbook(s, reqs[0]).db, reqs[1..])
  }

  /** Both modes issue the rows of the insert-mode reference, in order and
      one for one; update mode tags each with the experiment id, insert mode
      with none. */
  lemma {:induction false} IssuedAgreesWithWritten(id: string, last: Option<int>, rows: seq<Record>, mode: Mode)
    requires LogRowsOk(rows) && RunFits(last)
    ensures |Issued(id, last, rows, mode)| == |Written(last, rows)|
    ensures forall i :: 0 <= i < |Issued(id, last, rows, mode)| ==>
      && LogbookRowOf(Issued(id, last, rows, mode)[i]) == Written(last, rows)[i]
      && Issued(id, last, rows, mode)[i].experimentId == if mode.InsertMode? then Null else Str(id)
    decreases |rows|
  {
    if rows != [] {
      var init := rows[..|rows| - 1];
      assert LogRowsOk(init) by { assert forall i :: 0 <= i < |init| ==> init[i] == rows[i]; }
      IssuedAgreesWithWritten(id, last, init, mode);
      MostRecentFits(last, rows);
      match MostRecent(last, rows)
      case Some(n) =>
        var r := rows[|rows| - 1];
        CsvCellBinds(r, "Posted"); CsvCellBinds(r, "Content"); CsvCellBinds(r, "Tags"); CsvCellBinds(r, "Author");
        assert LogbookRowOf(LogbookReqFor(id, n, r, mode)) == LogbookRowFor(n, r);
      case None =>
    }
  }

  lemma {:induction false} IssuedAppend(id: string, last: Option<int>, a: seq<Record>, b: seq<Record>, mode: Mode)
    ensures Issued(id, last, a + b, mode) == Issued(id, last, a, mode) + Issued(id, MostRecent(last, a), b, mode)
    decreases |b|
  {
    if b == [] {
      assert a + b == a;
    } else {
      var init := b[..|b| - 1];
      assert (a + b)[..|a + b| - 1] == a + init;
      assert (a + b)[|a + b| - 1] == b[|b| - 1];
      IssuedAppend(id, last, a, init, mode);
      MostRecentAppend(last, a, b);
      var r := b[|b| - 1];
      var tail := match MostRecent(last, a + b) case Some(n) => [LogbookReqFor(id, n, r, mode)] case None => [];
      assert Issued(id, last, a + b, mode) == Issued(id, last, a + init, mode) + tail;
      assert Issued(id, MostRecent(last, a), b, mode) == Issued(id, MostRecent(last, a), init, mode) + tail;
    }
  }

  lemma {:induction false} UpdateEachAppend(s: DbState, a: seq<LogbookReq>, b: seq<LogbookReq>)
    ensures UpdateEach(s, a + b) == UpdateEach(UpdateEach(s, a), b)
    decreases |a|
  {
    if a == [] {
      assert a + b == b;
    } else {
      assert (a + b)[0] == a[0] && (a + b)[1..] == a[1..] + b;
      UpdateEachAppend(UpdateLogbook(s, a[0]).db, a[1..], b);
    }
  }

  /** A dict for a well-formed row binds, so update_logbook does not raise on it. */
  lemma UpdateLogbookOfRow(s: DbState, id: string, n: int, r: Record, parseMainContent: Value -> Record)
    requires CsvRow(r) && Int64(n)
    ensures UpdateLogbook(s, LogbookReqFor(id, n, r, UpdateMode(parseMainContent))).raised == None
  {
    CsvCellBinds(r, "Posted"); CsvCellBinds(r, "Content"); CsvCellBinds(r, "Tags"); CsvCellBinds(r, "Author");
  }

  /** One well-formed row in update mode: its dict, if any, is applied. */
  lemma LogbookUpdateHead(s: DbState, id: string, last: Option<int>, rows: seq<Record>, parseMainContent: Value -> Record)
    requires Valid(s) && rows != [] && LogRowOk(rows[0]) && RunFits(last)
    ensures LogRowsOk([rows[0]]) && RunFits(MostRecent(last, [rows[0]]))
    ensures var mode := UpdateMode(parseMainContent); var s1 := UpdateEach(s, Issued(id, last, [rows[0]], mode));
      && Valid(s1)
      && LogbookRows(s, id, last, rows, mode) == LogbookRows(s1, id, MostRecent(last, [rows[0]]), rows[1..], mode)
  {
    var r, mode := rows[0], UpdateMode(parseMainContent);
    MostRecentSingle(last, r);
    assert [r][..0] == [];
    var l' := MostRecent(last, [r]);
    if l'.Some? {
      assert Issued(id, last, [r], mode) == [LogbookReqFor(id, l'.value, r, mode)];
      UpdateLogbookOfRow(s, id, l'.value, r, parseMainContent);
      assert UpdateEach(s, [LogbookReqFor(id, l'.value, r, mode)]) == UpdateLogbook(s, LogbookReqFor(id, l'.value, r, mode)).db;
    } else {
      assert Issued(id, last, [r], mode) == [];
    }
  }

  /** The carry-forward rule in update mode: a pass over well-formed rows
      raises nothing and applies update_logbook to exactly the issued dicts,
      in order. */
  lemma {:induction false} LogbookUpdateCarriesForward(s: DbState, id: string, last: Option<int>, rows: seq<Record>,
                                                       parseMainContent: Value -> Record)
    requires Valid(s) && LogRowsOk(rows) && RunFits(last)
    ensures var mode := UpdateMode(parseMainContent);
      LogbookRows(s, id, last, rows, mode) == Step(UpdateEach(s, Issued(id, last, rows, mode)), None)
    decreases |rows|
  {
    var mode := UpdateMode(parseMainContent);
    if rows != [] {
      var r, rest := rows[0], rows[1..];
      assert LogRowsOk(rest);
      LogbookUpdateHead(s, id, last, rows, parseMainContent);
      var s1 := UpdateEach(s, Issued(id, last, [r], mode));
      var l' := MostRecent(last, [r]);
      LogbookUpdateCarriesForward(s1, id, l', rest, parseMainContent);
      assert rows == [r] + rest;
      IssuedAppend(id, last, [r], rest, mode);
      UpdateEachAppend(s, Issued(id, last, [r], mode), Issued(id, l', rest, mode));
    }
  }

  // ---------------------------------------------------------------------
  // Runtable in insert mode
  // ---------------------------------------------------------------------

  /** Every `Data Production` entry is a dict with the six keys, whose values bind. */
  predicate ProductionOk(id: string, entries: seq<Value>) {
    forall i :: 0 <= i < |entries| ==>
      ProductionReqOf(id, entries[i], InsertMode).Ok? && Bindable(ProductionColumns(ProductionReqOf(id, entries[i], InsertMode).value))
  }

  /** The DataProduction row of one well-formed entry. */
  function ProductionRowOfEntry(id: string, entry: Value): ProductionRow
    requires ProductionReqOf(id, entry, InsertMode).Ok?
  {
    ProductionRowOf(ProductionReqOf(id, entry, InsertMode).value)
  }

  /** The DataProduction rows of the entries, one per entry, in order. */
  function ProductionRowsOf(id: string, entries: seq<Value>): (rows: seq<ProductionRow>)
    requires ProductionOk(id, entries)
    ensures |rows| == |entries|
    ensures forall i :: 0 <= i < |entries| ==> rows[i] == ProductionRowOfEntry(id, entries[i])
  {
    seq(|entries|, i requires 0 <= i < |entries| && ProductionOk(id, entries) => ProductionRowOfEntry(id, entries[i]))
  }

  lemma ProductionGlue(s: DbState, w1: seq<ProductionRow>, w2: seq<ProductionRow>, w: seq<ProductionRow>)
    requires w == w1 + w2
    ensures var s1 := Commit(s.(production := s.production + w1)); Commit(s1.(production := s1.production + w2)) == Commit(s.(production := s.production + w))
  {
    assert s.production + w1 + w2 == s.production + w;
  }

  lemma ProductionHead(s: DbState, id: string, entries: seq<Value>)
    requires Valid(s) && entries != [] && ProductionOk(id, entries)
    ensures ProductionEntries(s, id, entries, InsertMode)
      == ProductionEntries(Commit(s.(production := s.production + [ProductionRowOfEntry(id, entries[0])])), id, entries[1..], InsertMode)
  {
    var req := ProductionReqOf(id, entries[0], InsertMode).value;
    assert InsertDataProduction(s, req) == Commit(s.(production := s.production + [ProductionRowOf(req)]));
  }

  lemma ProductionRowsSplit(id: string, entries: seq<Value>)
    requires entries != [] && ProductionOk(id, entries)
    ensures ProductionOk(id, entries[1..])
    ensures ProductionRowsOf(id, entries) == [ProductionRowOfEntry(id, entries[0])] + ProductionRowsOf(id, entries[1..])
  {
    assert ProductionOk(id, entries[1..]) by { assert forall i :: 0 <= i < |entries| - 1 ==> entries[1..][i] == entries[i + 1]; }
  }

  /** process_runtable writes one DataProduction row per entry, in order,
      commits them and changes nothing else. */
  lemma {:induction false} ProductionInsertOnePerEntry(s: DbState, id: string, entries: seq<Value>)
    requires Valid(s) && Synced(s) && ProductionOk(id, entries)
    ensures ProductionEntries(s, id, entries, InsertMode) == Step(Commit(s.(production := s.production + ProductionRowsOf(id, entries))), None)
    decreases |entries|
  {
    if entries == [] {
      assert Commit(s.(production := s.production + [])) == s;
    } else {
      var head := [ProductionRowOfEntry(id, entries[0])];
      ProductionHead(s, id, entries);
      ProductionRowsSplit(id, entries);
      ProductionInsertOnePerEntry(Commit(s.(production := s.production + head)), id, entries[1..]);
      ProductionGlue(s, head, ProductionRowsOf(id, entries[1..]), ProductionRowsOf(id, entries));
    }
  }

  /** The Detector rows of the requests, one per request. */
  function DetectorRowsOf(reqs: seq<DetectorReq>): (rows: seq<DetectorRow>)
    ensures |rows| == |reqs| && forall i :: 0 <= i < |reqs| ==> rows[i] == DetectorRowOf(reqs[i])
  {
    seq(|reqs|, i requires 0 <= i < |reqs| => DetectorRowOf(reqs[i]))
  }

  lemma DetectorGlue(s: DbState, w1: seq<DetectorRow>, w2: seq<DetectorRow>, w: seq<DetectorRow>)
    requires w == w1 + w2
    ensures var s1 := Commit(s.(detectors := s.detectors + w1)); Commit(s1.(detectors := s1.detectors + w2)) == Commit(s.(detectors := s.detectors + w))
  {
    assert s.detectors + w1 + w2 == s.detectors + w;
  }

  /** In insert mode the checked fields of a `Detectors` entry become one
      Detector row each, in field order, when their values bind, and are committed. */
  lemma {:induction false} DetectorInsertOnePerRequest(s: DbState, reqs: seq<DetectorReq>)
    requires Valid(s) && Synced(s) && forall i :: 0 <= i < |reqs| ==> Bindable(DetectorColumns(reqs[i]))
    ensures ApplyDetectors(s, reqs, InsertMode) == Step(Commit(s.(detectors := s.detectors + DetectorRowsOf(reqs))), None)
    decreases |reqs|
  {
    if reqs == [] {
      assert Commit(s.(detectors := s.detectors + [])) == s;
    } else {
      var s1 := InsertDetector(s, reqs[0]);
      assert s1 == Commit(s.(detectors := s.detectors + [DetectorRowOf(reqs[0])]));
      DetectorInsertOnePerRequest(s1, reqs[1..]);
      assert DetectorRowsOf(reqs) == [DetectorRowOf(reqs[0])] + DetectorRowsOf(reqs[1..]);
      DetectorGlue(s, [DetectorRowOf(reqs[0])], DetectorRowsOf(reqs[1..]), DetectorRowsOf(reqs));
    }
  }

  /** A detector request is made for a field name exactly when the entry has
      that field set to `Checked` and the name is not `Run`; every request
      carries the entry's run and the status `Checked`. */
  lemma {:induction false} CheckedDetectorsExact(id: string, run: Value, fields: Record, mode: Mode)
    ensures forall k :: 0 <= k < |CheckedDetectors(id, run, fields, mode)| ==>
      CheckedDetectors(id, run, fields, mode)[k].runNumber == run
      && CheckedDetectors(id, run, fields, mode)[k].status == Str("Checked")
    ensures forall name: string ::
      (exists k :: 0 <= k < |CheckedDetectors(id, run, fields, mode)| && CheckedDetectors(id, run, fields, mode)[k].detectorName == Str(name))
      <==> (name != "Run" && exists i :: 0 <= i < |fields| && fields[i] == (name, Str("Checked")))
    decreases |fields|
  {
    if fields != [] {
      var rest := fields[1..];
      CheckedDetectorsExact(id, run, rest, mode);
      var head: seq<DetectorReq> := if IsChecked(fields[0])
        then [DetectorReq(if mode.InsertMode? then Null else Str(id), run, Str(fields[0].0), fields[0].1)] else [];
      var tail := CheckedDetectors(id, run, rest, mode);
      assert CheckedDetectors(id, run, fields, mode) == head + tail;
      forall name: string
        ensures (exists k :: 0 <= k < |head + tail| && (head + tail)[k].detectorName == Str(name))
          <==> (name != "Run" && exists i :: 0 <= i < |fields| && fields[i] == (name, Str("Checked")))
      {
        if exists i :: 0 <= i < |fields| && fields[i] == (name, Str("Checked")) {
          var i :| 0 <= i < |fields| && fields[i] == (name, Str("Checked"));
          if name != "Run" {
            if i == 0 {
              assert (head + tail)[0].detectorName == Str(name);
            } else {
              assert rest[i - 1] == (name, Str("Checked"));
              var k :| 0 <= k < |tail| && tail[k].detectorName == Str(name);
              assert (head + tail)[|head| + k] == tail[k];
            }
          }
        }
        if exists k :: 0 <= k < |head + tail| && (head + tail)[k].detectorName == Str(name) {
          var k :| 0 <= k < |head + tail| && (head + tail)[k].detectorName == Str(name);
          if k < |head| {
            assert fields[0] == (name, Str("Checked"));
          } else {
            assert tail[k - |head|].detectorName == Str(name);
            var i :| 0 <= i < |rest| && rest[i] == (name, Str("Checked"));
            assert fields[i + 1] == rest[i];
          }
        }
      }
    }
  }

  // ---------------------------------------------------------------------
  // Dispatch
  // ---------------------------------------------------------------------

  /** A file that does not exist, whose suffix is unknown, whose JSON does
      not decode or decodes to a falsy value, or whose CSV has no rows
      changes nothing and raises nothing, in either mode. */
  lemma ProcessFileNoop(s: DbState, path: string, fs: FileSystem, mode: Mode)
    requires Valid(s)
    requires || path !in fs
             || GetFileType(path) == Unknown
             || (GetFileType(path) in {Info, Runtable} && fs[path].json == None)
             || (GetFileType(path) in {Info, Runtable} && fs[path].json.Some? && !Truthy(fs[path].json.value))
             || (GetFileType(path) in {FileManager, Logbook} && fs[path].csv == [])
    ensures ProcessFile(s, path, fs, mode) == Step(s, None)
  {
  }

  /** Re-ingesting an info file in insert mode leaves the store as one
      ingest did: one Experiment row with that file's values. */
  lemma InfoReingestIdempotent(s: DbState, path: string, fs: FileSystem)
    requires Valid(s) && GetFileType(path) == Info
    ensures var once := ProcessFile(s, path, fs, InsertMode);
      ProcessFile(once.db, path, fs, InsertMode) == once
  {
    var once := ProcessFile(s, path, fs, InsertMode);
    assert once == ProcessInfo(s, path, fs, InsertMode);
    assert ProcessFile(once.db, path, fs, InsertMode) == ProcessInfo(once.db, path, fs, InsertMode);
    match ParseJson(fs, path)
    case None =>
    case Some(data) =>
      if Truthy(data) && data.Dict? {
        StoreLaws.InsertExperimentIdempotent(s, ExperimentId(path), data.entries);
      }
  }

  // ---------------------------------------------------------------------
  // The entry points
  // ---------------------------------------------------------------------

  /** Once a file raises, save_to_db's main has stopped: files after it
      have no effect. */
  lemma {:induction false} InsertMainStops(s: DbState, files: seq<string>, more: seq<string>, fs: FileSystem)
    requires Valid(s) && InsertMain(s, files, fs).exitCode != 0
    ensures InsertMain(s, files + more, fs) == InsertMain(s, files, fs)
    decreases |files|
  {
    assert files != [];
    assert (files + more)[0] == files[0] && (files + more)[1..] == files[1..] + more;
    var r := ProcessFile(s, files[0], fs, InsertMode);
    if r.raised.None? {
      InsertMainStops(r.db, files[1..], more, fs);
    }
  }

  /** A run that exits 0 over `files` then continues over `more` exactly as
      a fresh run over `more` on the resulting store. */
  lemma {:induction false} InsertMainComposes(s: DbState, files: seq<string>, more: seq<string>, fs: FileSystem)
    requires Valid(s) && InsertMain(s, files, fs).exitCode == 0
    ensures InsertMain(s, files + more, fs) == InsertMain(InsertMain(s, files, fs).db, more, fs)
    decreases |files|
  {
    if files == [] {
      assert files + more == more;
    } else {
      assert (files + more)[0] == files[0] && (files + more)[1..] == files[1..] + more;
      var r := ProcessFile(s, files[0], fs, InsertMode);
      InsertMainComposes(r.db, files[1..], more, fs);
    }
  }

  /** The files of the list that exist, in order. */
  function Existing(files: seq<string>, fs: FileSystem): (e: seq<string>)
    ensures forall f :: f in e <==> f in files && f in fs
    decreases |files|
  {
    if files == [] then []
    else (if files[0] in fs then [files[0]] else []) + Existing(files[1..], fs)
  }

  /** update_db's main over a list behaves as over the existing files alone. */
  lemma {:induction false} UpdateFilesSkipsMissing(s: DbState, files: seq<string>, fs: FileSystem, parseMainContent: Value -> Record)
    requires Valid(s)
    ensures UpdateFiles(s, files, fs, parseMainContent) == UpdateFiles(s, Existing(files, fs), fs, parseMainContent)
    decreases |files|
  {
    if files != [] {
      var e := Existing(files, fs);
      if files[0] in fs {
        assert e[0] == files[0] && e[1..] == Existing(files[1..], fs);
        var r := ProcessFile(s, files[0], fs, UpdateMode(parseMainContent));
        if r.raised.None? { UpdateFilesSkipsMissing(r.db, files[1..], fs, parseMainContent); }
      } else {
        assert e == Existing(files[1..], fs);
        UpdateFilesSkipsMissing(s, files[1..], fs, parseMainContent);
      }
    }
  }

  /** Once a file raises, update_db's main has stopped. */
  lemma {:induction false} UpdateFilesStops(s: DbState, files: seq<string>, more: seq<string>, fs: FileSystem, parseMainContent: Value -> Record)
    requires Valid(s) && UpdateFiles(s, files, fs, parseMainContent).exitCode != 0
    ensures UpdateFiles(s, files + more, fs, parseMainContent) == UpdateFiles(s, files, fs, parseMainContent)
    decreases |files|
  {
    assert files != [];
    assert (files + more)[0] == files[0] && (files + more)[1..] == files[1..] + more;
    if files[0] !in fs {
      UpdateFilesStops(s, files[1..], more, fs, parseMainContent);
    } else {
      var r := ProcessFile(s, files[0], fs, UpdateMode(parseMainContent));
      if r.raised.None? { UpdateFilesStops(r.db, files[1..], more, fs, parseMainContent); }
    }
  }

  /** An info path is dispatched to the info processor. */
  lemma DispatchInfo(s: DbState, path: string, fs: FileSystem, mode: Mode)
    requires Valid(s) && GetFileType(path) == Info
    ensures ProcessFile(s, path, fs, mode) == ProcessInfo(s, path, fs, mode)
  {
  }

  /** The update-mode info processor on an experiment the store holds:
      update_experiment takes the UPDATE branch, which adds no experiment
      and commits nothing. */
  lemma InfoUpdateKeepsKeys(s: DbState, path: string, fs: FileSystem, parseMainContent: Value -> Record)
    requires Valid(s) && ExperimentId(path) in s.experiments
    ensures var t := ProcessInfo(s, path, fs, UpdateMode(parseMainContent));
      && t.db.committed == s.committed
      && t.db.experiments.Keys == s.experiments.Keys
  {
    match ParseJson(fs, path)
    case None =>
    case Some(data) =>
      if Truthy(data) && data.Dict? {
        var u := UpdateExperiment(s, ExperimentId(path), data.entries, parseMainContent);
        assert ProcessInfo(s, path, fs, UpdateMode(parseMainContent)).db == u.db;
        assert u.db.experiments.Keys == s.experiments.Keys;
      }
  }

  /** Update mode on an info file of an experiment the store holds: nothing
      raises, no experiment is added or removed, and nothing is committed,
      since update_experiment issues no commit of its own. */
  lemma InfoUpdateExisting(s: DbState, path: string, fs: FileSystem, parseMainContent: Value -> Record)
    requires Valid(s) && GetFileType(path) == Info && ExperimentId(path) in s.experiments
    ensures var t := ProcessFile(s, path, fs, UpdateMode(parseMainContent));
      && t.raised == None
      && t.db.committed == s.committed
      && t.db.experiments.Keys == s.experiments.Keys
  {
    DispatchInfo(s, path, fs, UpdateMode(parseMainContent));
    InfoUpdateKeepsKeys(s, path, fs, parseMainContent);
  }

  /** update_db over info files of experiments the store already holds, as
      a loop: status 0, no experiment added, and nothing committed. */
  lemma {:induction false} UpdateInfoOnly(s: DbState, files: seq<string>, fs: FileSystem, parseMainContent: Value -> Record)
    requires Valid(s)
    requires forall i :: 0 <= i < |files| ==> GetFileType(files[i]) == Info && ExperimentId(files[i]) in s.experiments
    ensures UpdateFiles(s, files, fs, parseMainContent).exitCode == 0
    ensures UpdateFiles(s, files, fs, parseMainContent).db.committed == s.committed
    ensures UpdateFiles(s, files, fs, parseMainContent).db.experiments.Keys == s.experiments.Keys
    decreases |files|
  {
    if files != [] {
      if files[0] in fs {
        InfoUpdateExisting(s, files[0], fs, parseMainContent);
        UpdateInfoOnly(ProcessFile(s, files[0], fs, UpdateMode(parseMainContent)).db, files[1..], fs, parseMainContent);
      } else {
        UpdateInfoOnly(s, files[1..], fs, parseMainContent);
      }
    }
  }

  /** update_db over info files of experiments the database already holds
      exits 0 and leaves the file exactly as it was: the UPDATE of the
      Experiment row and the rewrite of its tabs are never committed, and
      `close()` discards them. */
  lemma UpdateMainDiscardsExperimentUpdates(f: Saved, files: seq<string>, fs: FileSystem, parseMainContent: Value -> Record)
    requires Valid(Reopen(f))
    requires forall i :: 0 <= i < |files| ==> GetFileType(files[i]) == Info && ExperimentId(files[i]) in f.experiments
    ensures UpdateMain(Some(f), files, fs, parseMainContent) == Exit(Some(f), 0)
  {
    UpdateInfoOnly(Reopen(f), files, fs, parseMainContent);
  }

  /** update_db on one info file of an experiment the database does not
      hold: the fallback insert_experiment commits the new Experiment row,
      which the file keeps; the tabs written after that commit are
      discarded by `close()`. */
  lemma UpdateMainKeepsFallbackInsert(f: Saved, path: string, fs: FileSystem, parseMainContent: Value -> Record)
    requires Valid(Reopen(f)) && GetFileType(path) == Info && path in fs
    requires fs[path].json.Some? && fs[path].json.value.Dict? && fs[path].json.value.entries != []
    requires Bindable(InfoColumns(fs[path].json.value.entries))
    requires ExperimentId(path) !in f.experiments
    ensures UpdateMain(Some(f), [path], fs, parseMainContent)
         == Exit(Some(f.(experiments := f.experiments[ExperimentId(path) := InfoRow(fs[path].json.value.entries)])), 0)
  {
    var s := Reopen(f);
    var id, data := ExperimentId(path), fs[path].json.value.entries;
    DispatchInfo(s, path, fs, UpdateMode(parseMainContent));
    InfoFallbackCommits(s, path, fs, parseMainContent);
    var t := ProcessFile(s, path, fs, UpdateMode(parseMainContent));
    UpdateFilesSingle(s, path, fs, parseMainContent);
    assert UpdateFiles(s, [path], fs, parseMainContent) == Outcome(t.db, 0);
    assert Snap(s.(experiments := s.experiments[id := InfoRow(data)])) == f.(experiments := f.experiments[id := InfoRow(data)]);
  }

  /** The update-mode info processor on a new experiment: the fallback
      insert_experiment commits the store with the new row; the tab rows
      written after it stay pending. */
  lemma InfoFallbackCommits(s: DbState, path: string, fs: FileSystem, parseMainContent: Value -> Record)
    requires Valid(s) && path in fs
    requires fs[path].json.Some? && fs[path].json.value.Dict? && fs[path].json.value.entries != []
    requires Bindable(InfoColumns(fs[path].json.value.entries))
    requires ExperimentId(path) !in s.experiments
    ensures var t := ProcessInfo(s, path, fs, UpdateMode(parseMainContent));
      && t.raised == None
      && t.db.committed == Snap(s.(experiments := s.experiments[ExperimentId(path) := InfoRow(fs[path].json.value.entries)]))
  {
    var id, data := ExperimentId(path), fs[path].json.value.entries;
    assert Truthy(fs[path].json.value);
    var u := UpdateExperiment(s, id, data, parseMainContent);
    assert ProcessInfo(s, path, fs, UpdateMode(parseMainContent)).db == u.db;
    assert InsertExperiment(s, id, data) == Commit(s.(experiments := s.experiments[id := InfoRow(data)]));
  }

  /** update_db's loop over one existing file. */
  lemma UpdateFilesSingle(s: DbState, path: string, fs: FileSystem, parseMainContent: Value -> Record)
    requires Valid(s) && path in fs
    ensures var r := ProcessFile(s, path, fs, UpdateMode(parseMainContent));
      UpdateFiles(s, [path], fs, parseMainContent) == Outcome(r.db, if r.raised.Some? then 1 else 0)
  {
    assert [path][0] == path && [path][1..] == [];
  }

  /** A missing database file: status 1 whatever the files. */
  lemma UpdateMainNeedsDatabase(files: seq<string>, fs: FileSystem, parseMainContent: Value -> Record)
    ensures UpdateMain(None, files, fs, parseMainContent).exitCode == 1
  {
  }
}
