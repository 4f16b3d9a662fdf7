/** What the per-table statements promise: upserts on the two keyed tables,
    appends on the AUTOINCREMENT tables, the replace-set semantics of the
    experiment tabs, and the selective updates of the update path. */
module StoreLaws {
  import opened Values
  import opened Tables

  // ---------------------------------------------------------------------
  // Insert mode
  // ---------------------------------------------------------------------

  /** insert_experiment is an upsert on experiment_id: afterwards the id
      holds exactly the incoming values, every other experiment and every
      other table is as before, and the commit has saved it all. A row that
      cannot be bound changes nothing. */
  lemma InsertExperimentUpsert(s: DbState, id: string, data: Record)
    ensures var t := InsertExperiment(s, id, data);
      && (Bindable(InfoColumns(data)) ==> id in t.experiments && t.experiments[id] == InfoRow(data) && Synced(t))
      && (!Bindable(InfoColumns(data)) ==> t == s)
      && (forall other :: other != id ==>
            (other in t.experiments <==> other in s.experiments)
            && (other in s.experiments ==> t.experiments[other] == s.experiments[other]))
      && t.(experiments := s.experiments, committed := s.committed) == s
  {
  }

  /** Repeating insert_experiment with the same info leaves the store as the
      first call left it. */
  lemma InsertExperimentIdempotent(s: DbState, id: string, data: Record)
    ensures InsertExperiment(InsertExperiment(s, id, data), id, data) == InsertExperiment(s, id, data)
  {
  }

  /** insert_run on an integer key (or text that reads as one) replaces the
      whole row under that key, experiment_id included, leaves every other
      run and every other table alone, and commits. */
  lemma InsertRunReplaces(s: DbState, req: RunReq)
    requires Valid(s)
    requires Bindable(RunColumns(req)) && IntegerAffinity(B(req.run)).Integer?
    ensures var t := InsertRun(s, req); var k := IntegerAffinity(B(req.run)).i;
      && t.runs == s.runs[k := RunRowOf(req)]
      && t.runs[k].experimentId == B(req.experimentId)
      && t.(runs := s.runs, runHigh := s.runHigh, committed := s.committed) == s
      && Synced(t)
  {
  }

  /** insert_run with a NULL run_number (what insert-mode process_file_manager
      passes, reading `Run` from a row whose column is `Run Number`) adds a
      row under a key no existing row has. */
  lemma InsertRunNullKeyAddsRow(s: DbState, req: RunReq)
    requires Valid(s)
    requires Bindable(RunColumns(req)) && req.run == Null
    ensures var t := InsertRun(s, req);
      && |t.runs| == |s.runs| + 1
      && s.runs.Keys < t.runs.Keys
      && (forall k :: k in s.runs ==> t.runs[k] == s.runs[k])
  {
    var k := FreshRowid(s);
    assert IntegerAffinity(B(req.run)) == NULL;
    assert InsertRun(s, req).runs == s.runs[k := RunRowOf(req)];
    assert k !in s.runs;
  }

  /** insert_run with text that is not an integer SQLite can hold fails
      with a datatype mismatch, which insert mode swallows. */
  lemma InsertRunMismatchIgnored(s: DbState, req: RunReq)
    requires Valid(s)
    requires req.run.Str? && (ParseInt(req.run.s).None? || !Int64(ParseInt(req.run.s).value))
    ensures InsertRun(s, req) == s
  {
  }

  /** An update-mode file-manager refresh whose `Run Number` is text that
      is not an integer SQLite can hold: update_run's lookup finds no row,
      and the fallback insert_run fails and is swallowed, so nothing
      changes and nothing raises. */
  lemma RefreshOfNonIntegerRunIsNoop(s: DbState, exp: string, v: string)
    requires Valid(s)
    requires ParseInt(v).None? || !Int64(ParseInt(v).value)
    ensures IntegerAffinity(Text(v)) == Text(v)
    ensures UpdateRun(s, RunReq(Str(v), Str(exp), Null, Null, Null, Null)) == Step(s, None)
  {
    var req := RunReq(Str(v), Str(exp), Null, Null, Null, Null);
    assert Bindable([req.run, req.experimentId]);
    assert !RunMatches(s, B(req.run), B(req.experimentId));
    InsertRunMismatchIgnored(s, req);
  }

  /** A file_manager `Run Number` of twenty nines is such text: the refresh
      of it writes no Run row. */
  lemma OverRangeRunNumberWritesNoRun(s: DbState, exp: string)
    requires Valid(s)
    ensures var run := Str("99999999999999999999");
      && IntegerAffinity(B(run)) == Text("99999999999999999999")
      && UpdateRun(s, RunReq(run, Str(exp), Null, Null, Null, Null)) == Step(s, None)
  {
    TwentyNinesOverRange();
    RefreshOfNonIntegerRunIsNoop(s, exp, "99999999999999999999");
  }

  /** Twenty nines read as an integer beyond 64 bits. */
  lemma TwentyNinesOverRange()
    ensures ParseInt("99999999999999999999").Some? && !Int64(ParseInt("99999999999999999999").value)
  {
    var digits := "99999999999999999999";
    assert AllDigits(digits) && ParseInt(digits) == Some(DigitsValue(digits));
    DigitsValueAtLeast(digits);
    Pow10NineteenOverRange();
  }

  /** 10^19 is beyond 64 bits. */
  lemma Pow10NineteenOverRange()
    ensures !Int64(Pow10(19))
  {
    assert Pow10(4) == 10_000 && Pow10(5) == 100_000;
    Pow10Add(5, 5);
    Pow10Add(5, 4);
    Pow10Add(10, 9);
  }

  function Pow10(n: nat): (p: nat)
    ensures p >= 1
  {
    if n == 0 then 1 else 10 * Pow10(n - 1)
  }

  lemma {:induction false} Pow10Add(a: nat, b: nat)
    ensures Pow10(a + b) == Pow10(a) * Pow10(b)
    decreases b
  {
    if b > 0 {
      Pow10Add(a, b - 1);
      assert Pow10(a + b) == 10 * Pow10(a + b - 1);
    }
  }

  /** Digits with a leading nonzero digit are worth at least 10^(length - 1). */
  lemma {:induction false} DigitsValueAtLeast(s: string)
    requires AllDigits(s) && s[0] != '0'
    ensures DigitsValue(s) >= Pow10(|s| - 1)
    decreases |s|
  {
    if |s| > 1 {
      var init := s[..|s| - 1];
      assert init[0] == s[0];
      assert AllDigits(init) by { assert forall i :: 0 <= i < |init| ==> init[i] == s[i]; }
      DigitsValueAtLeast(init);
    }
  }

  /** insert_detector adds one row at the end (its id is one past every
      existing id), changes no other row and commits. Re-ingesting the same
      row adds a second copy. */
  lemma InsertDetectorAppends(s: DbState, req: DetectorReq)
    requires Bindable(DetectorColumns(req))
    ensures var t := InsertDetector(s, req);
      && |t.detectors| == |s.detectors| + 1
      && t.detectors[..|s.detectors|] == s.detectors
      && t.detectors[|s.detectors|] == DetectorRowOf(req)
      && t.(detectors := s.detectors, committed := s.committed) == s && Synced(t)
    ensures |InsertDetector(InsertDetector(s, req), req).detectors| == |s.detectors| + 2
  {
  }

  /** insert_logbook: the same append law. */
  lemma InsertLogbookAppends(s: DbState, req: LogbookReq)
    requires Bindable(LogbookColumns(req))
    ensures var t := InsertLogbook(s, req);
      && |t.logbook| == |s.logbook| + 1
      && t.logbook[..|s.logbook|] == s.logbook
      && t.logbook[|s.logbook|] == LogbookRowOf(req)
      && t.(logbook := s.logbook, committed := s.committed) == s && Synced(t)
    ensures |InsertLogbook(InsertLogbook(s, req), req).logbook| == |s.logbook| + 2
  {
  }

  /** insert_data_production: the same append law. */
  lemma InsertDataProductionAppends(s: DbState, req: ProductionReq)
    requires Bindable(ProductionColumns(req))
    ensures var t := InsertDataProduction(s, req);
      && |t.production| == |s.production| + 1
      && t.production[..|s.production|] == s.production
      && t.production[|s.production|] == ProductionRowOf(req)
      && t.(production := s.production, committed := s.committed) == s && Synced(t)
    ensures |InsertDataProduction(InsertDataProduction(s, req), req).production| == |s.production| + 2
  {
  }

  /** insert_file_manager: the same append law. */
  lemma InsertFileManagerAppends(s: DbState, req: FileManagerReq)
    requires Bindable(FileManagerColumns(req))
    ensures var t := InsertFileManager(s, req);
      && |t.fileManager| == |s.fileManager| + 1
      && t.fileManager[..|s.fileManager|] == s.fileManager
      && t.fileManager[|s.fileManager|] == FileManagerRowOf(req)
      && t.(fileManager := s.fileManager, committed := s.committed) == s && Synced(t)
    ensures |InsertFileManager(InsertFileManager(s, req), req).fileManager| == |s.fileManager| + 2
  {
  }

  /** The dependent rows insert mode writes never carry an experiment_id. */
  lemma InsertedRowsHaveNoExperiment(d: DetectorReq, l: LogbookReq, p: ProductionReq, f: FileManagerReq)
    ensures DetectorRowOf(d).experimentId == NULL && LogbookRowOf(l).experimentId == NULL
    ensures ProductionRowOf(p).experimentId == NULL && FileManagerRowOf(f).experimentId == NULL
  {
  }

  // ---------------------------------------------------------------------
  // Experiment tabs
  // ---------------------------------------------------------------------

  lemma {:induction false} TabsOfConcat(a: seq<TabRow>, b: seq<TabRow>, id: string)
    ensures TabsOf(a + b, id) == TabsOf(a, id) + TabsOf(b, id)
    decreases |a|
  {
    if a == [] {
      assert a + b == b;
    } else {
      var h := if a[0].experimentId == id then [a[0]] else [];
      assert (a + b)[0] == a[0] && (a + b)[1..] == a[1..] + b;
      assert TabsOf(a + b, id) == h + TabsOf(a[1..] + b, id);
      assert TabsOf(a, id) == h + TabsOf(a[1..], id);
      TabsOfConcat(a[1..], b, id);
      assert h + (TabsOf(a[1..], id) + TabsOf(b, id)) == (h + TabsOf(a[1..], id)) + TabsOf(b, id);
    }
  }

  lemma {:induction false} TabsOfWithout(tabs: seq<TabRow>, id: string, other: string)
    ensures TabsOf(WithoutTabs(tabs, id), other) == if other == id then [] else TabsOf(tabs, other)
    decreases |tabs|
  {
    if tabs != [] {
      var head := if tabs[0].experimentId == id then [] else [tabs[0]];
      TabsOfConcat(head, WithoutTabs(tabs[1..], id), other);
      TabsOfWithout(tabs[1..], id, other);
      assert TabsOf(head, other) == if head == [] || head[0].experimentId != other then [] else head by {
        if head != [] { assert head[1..] == []; }
      }
    }
  }

  lemma {:induction false} TabsOfNew(id: string, entries: Record, other: string)
    ensures TabsOf(NewTabs(id, entries), other) == if other == id then NewTabs(id, entries) else []
    decreases |entries|
  {
    if entries != [] {
      var n := NewTabs(id, entries);
      assert n[1..] == NewTabs(id, entries[1..]);
      TabsOfNew(id, entries[1..], other);
      if other == id { assert n == [n[0]] + n[1..]; }
    }
  }

  /** Deleting an experiment's tab rows and appending new ones: the
      experiment's tab set is exactly the new rows, every other experiment's
      tab set is as before. */
  lemma TabsOfReplaced(tabs: seq<TabRow>, id: string, entries: Record, other: string)
    ensures TabsOf(WithoutTabs(tabs, id) + NewTabs(id, entries), other)
         == if other == id then NewTabs(id, entries) else TabsOf(tabs, other)
  {
    TabsOfConcat(WithoutTabs(tabs, id), NewTabs(id, entries), other);
    TabsOfWithout(tabs, id, other);
    TabsOfNew(id, entries, other);
  }

  /** What update_experiment does to ExperimentTabs when it does not raise. */
  lemma UpdateExperimentTabRows(s: DbState, id: string, data: Record, parseMainContent: Value -> Record)
    requires GetOr(data, "tabs", Dict([])).Dict?
    requires id in s.experiments ==> Bindable(MainColumns(parseMainContent(GetOr(data, "main_content", Str("")))))
    ensures var t := UpdateExperiment(s, id, data, parseMainContent);
      t.raised == None && t.db.tabs == WithoutTabs(s.tabs, id) + NewTabs(id, GetOr(data, "tabs", Dict([])).entries)
  {
  }

  /** update_experiment leaves exactly one tab row per entry of `tabs` for
      its experiment, so no stale tab survives, and leaves the tab rows of
      every other experiment as they were. */
  lemma UpdateExperimentReplacesTabs(s: DbState, id: string, data: Record, parseMainContent: Value -> Record)
    requires GetOr(data, "tabs", Dict([])).Dict?
    requires id in s.experiments ==> Bindable(MainColumns(parseMainContent(GetOr(data, "main_content", Str("")))))
    ensures var t := UpdateExperiment(s, id, data, parseMainContent);
      && t.raised == None
      && TabsOf(t.db.tabs, id) == NewTabs(id, GetOr(data, "tabs", Dict([])).entries)
      && forall other :: other != id ==> TabsOf(t.db.tabs, other) == TabsOf(s.tabs, other)
  {
    var entries := GetOr(data, "tabs", Dict([])).entries;
    UpdateExperimentTabRows(s, id, data, parseMainContent);
    forall other ensures TabsOf(WithoutTabs(s.tabs, id) + NewTabs(id, entries), other)
                      == if other == id then NewTabs(id, entries) else TabsOf(s.tabs, other) {
      TabsOfReplaced(s.tabs, id, entries, other);
    }
  }

  /** Repeating update_experiment with the same info yields the same tab set
      for every experiment. */
  lemma UpdateExperimentTabsIdempotent(s: DbState, id: string, data: Record, parseMainContent: Value -> Record)
    requires GetOr(data, "tabs", Dict([])).Dict?
    requires Bindable(MainColumns(parseMainContent(GetOr(data, "main_content", Str("")))))
    ensures var once := UpdateExperiment(s, id, data, parseMainContent).db;
      forall x :: TabsOf(UpdateExperiment(once, id, data, parseMainContent).db.tabs, x) == TabsOf(once.tabs, x)
  {
    var once := UpdateExperiment(s, id, data, parseMainContent).db;
    UpdateExperimentReplacesTabs(s, id, data, parseMainContent);
    UpdateExperimentReplacesTabs(once, id, data, parseMainContent);
  }

  /** A `tabs` value that is not a dict raises only after the delete: the
      experiment is left with no tab rows at all. */
  lemma UpdateExperimentBadTabsDeletes(s: DbState, id: string, data: Record, parseMainContent: Value -> Record)
    requires !GetOr(data, "tabs", Dict([])).Dict?
    requires id in s.experiments ==> Bindable(MainColumns(parseMainContent(GetOr(data, "main_content", Str("")))))
    ensures var t := UpdateExperiment(s, id, data, parseMainContent);
      t.raised == Some(AttributeError) && TabsOf(t.db.tabs, id) == []
  {
    TabsOfWithout(s.tabs, id, id);
  }

  /** On an existing experiment update_experiment takes its columns from
      the parsed main content; on a new one it falls back to insert_experiment,
      which reads the top-level keys. */
  lemma UpdateExperimentColumns(s: DbState, id: string, data: Record, parseMainContent: Value -> Record)
    ensures var mc := parseMainContent(GetOr(data, "main_content", Str("")));
      var t := UpdateExperiment(s, id, data, parseMainContent);
      && (id in s.experiments && Bindable(MainColumns(mc)) ==> t.db.experiments == s.experiments[id := MainRow(mc)])
      && (id in s.experiments && !Bindable(MainColumns(mc)) ==> t == Step(s, Some(SqliteError)))
      && (id !in s.experiments ==> t.db.experiments == InsertExperiment(s, id, data).experiments)
  {
  }

  // ---------------------------------------------------------------------
  // Update mode, per table
  // ---------------------------------------------------------------------

  /** The six columns of update_run bind exactly when the two it looks up
      with and the four it writes do. */
  lemma RunColumnsSplit(req: RunReq)
    ensures Bindable(RunColumns(req))
      <==> Bindable([req.run, req.experimentId]) && Bindable([req.startTime, req.endTime, req.nEvents, req.nDamaged])
  {
    var c, l, d := RunColumns(req), [req.run, req.experimentId], [req.startTime, req.endTime, req.nEvents, req.nDamaged];
    assert forall i :: 0 <= i < 2 ==> l[i] == c[i];
    assert forall i :: 0 <= i < 4 ==> d[i] == c[i + 2];
    if Bindable(l) && Bindable(d) {
      forall i | 0 <= i < 6 ensures Bind(c[i]).Some? {
        if i < 2 { assert c[i] == l[i]; } else { assert c[i] == d[i - 2]; }
      }
    }
  }

  /** update_run on a matching (run_number, experiment_id) row overwrites
      start_time, end_time, n_events and n_damaged with the incoming values,
      NULL included, keeps experiment_id, adds no row, leaves every other
      table alone and commits nothing. A data column that cannot be bound
      raises before anything changes. Without a match it is insert_run. */
  lemma UpdateRunOverwrites(s: DbState, req: RunReq)
    requires Valid(s)
    ensures var t := UpdateRun(s, req);
      && (Bindable(RunColumns(req)) && RunMatches(s, B(req.run), B(req.experimentId)) ==>
            var k := IntegerAffinity(B(req.run)).i;
            && t.db.runs.Keys == s.runs.Keys
            && t == Step(s.(runs := s.runs[k := RunRow(s.runs[k].experimentId, B(req.startTime), B(req.endTime),
                                                       IntegerAffinity(B(req.nEvents)), IntegerAffinity(B(req.nDamaged)))]), None))
      && (Bindable([req.run, req.experimentId]) && RunMatches(s, B(req.run), B(req.experimentId)) && !Bindable(RunColumns(req)) ==>
            t == Step(s, Some(SqliteError)))
      && (Bindable([req.run, req.experimentId]) && !RunMatches(s, B(req.run), B(req.experimentId)) ==>
            t == Step(InsertRun(s, req), None))
      && (!Bindable([req.run, req.experimentId]) ==> t == Step(s, Some(SqliteError)))
  {
    RunColumnsSplit(req);
  }

  /** The run half of an update-mode file-manager row: update_run with the
      four data columns None. Whether the run matched (the UPDATE overwrites
      the columns) or not (insert_run writes the row whole, replacing a row
      of another experiment), the key ends holding this experiment and four
      NULL columns, and no other run or table changes. Only the insert
      commits. */
  lemma FileManagerRefreshClearsEvents(s: DbState, exp: string, run: Value)
    requires Valid(s) && Bind(run).Some? && IntegerAffinity(B(run)).Integer?
    ensures var t := UpdateRun(s, RunReq(run, Str(exp), Null, Null, Null, Null)); var k := IntegerAffinity(B(run)).i;
      && t.raised == None
      && t.db.runs == s.runs[k := RunRow(Text(exp), NULL, NULL, NULL, NULL)]
      && t.db.(runs := s.runs, runHigh := s.runHigh, committed := s.committed) == s
      && (RunMatches(s, B(run), Text(exp)) ==> t.db == s.(runs := t.db.runs))
      && (!RunMatches(s, B(run), Text(exp)) ==> Synced(t.db))
  {
    var req := RunReq(run, Str(exp), Null, Null, Null, Null);
    assert Bindable(RunColumns(req));
    RunColumnsSplit(req);
  }

  /** update_detector on a match changes only the status of the matching
      rows and adds no row; without a match it is insert_detector. */
  lemma UpdateDetectorSelective(s: DbState, req: DetectorReq)
    requires Bindable([req.runNumber, req.experimentId, req.detectorName, req.status])
    ensures var t := UpdateDetector(s, req);
      var run, exp, name := B(req.runNumber), B(req.experimentId), B(req.detectorName);
      && t.raised == None
      && t.db.(detectors := s.detectors, committed := s.committed) == s
      && ((exists i :: 0 <= i < |s.detectors| && DetectorMatches(s.detectors[i], run, exp, name)) ==>
            && t.db.committed == s.committed
            && |t.db.detectors| == |s.detectors|
            && forall i :: 0 <= i < |s.detectors| ==>
                 t.db.detectors[i] == if DetectorMatches(s.detectors[i], run, exp, name)
                                      then s.detectors[i].(status := B(req.status)) else s.detectors[i])
      && ((forall i :: 0 <= i < |s.detectors| ==> !DetectorMatches(s.detectors[i], run, exp, name)) ==>
            t.db == InsertDetector(s, req))
  {
    assert Bindable([req.runNumber, req.experimentId, req.detectorName]) by {
      assert forall i :: 0 <= i < 3 ==> [req.runNumber, req.experimentId, req.detectorName][i] == [req.runNumber, req.experimentId, req.detectorName, req.status][i];
    }
    assert Bind(req.status).Some? by {
      assert [req.runNumber, req.experimentId, req.detectorName, req.status][3] == req.status;
    }
  }

  /** update_logbook updates content and tags of the first matching row only. */
  lemma UpdateLogbookFirstMatch(s: DbState, req: LogbookReq, i: nat)
    requires Bindable([req.runNumber, req.timestamp, req.author, req.experimentId])
    requires Bindable([req.content, req.tags])
    requires i < |s.logbook|
    requires LogbookMatches(s.logbook[i], B(req.runNumber), B(req.timestamp), B(req.author), B(req.experimentId))
    requires forall j :: 0 <= j < i ==>
      !LogbookMatches(s.logbook[j], B(req.runNumber), B(req.timestamp), B(req.author), B(req.experimentId))
    ensures var t := UpdateLogbook(s, req);
      && t.raised == None
      && t.db == s.(logbook := s.logbook[i := s.logbook[i].(content := B(req.content), tags := B(req.tags))])
  {
    var run, ts, au, exp := B(req.runNumber), B(req.timestamp), B(req.author), B(req.experimentId);
    var p := (r: LogbookRow) => LogbookMatches(r, run, ts, au, exp);
    var f := FirstWhere(s.logbook, p);
    assert p(s.logbook[i]);
    assert f.Some? && f.value == i;
  }

  /** update_data_production updates the five data columns of the first
      matching row only. */
  lemma UpdateDataProductionFirstMatch(s: DbState, req: ProductionReq, i: nat)
    requires Bindable([req.runNumber, req.experimentId])
    requires Bindable([req.nEvents, req.nDamaged, req.nDropped, req.prodStart, req.prodEnd])
    requires i < |s.production|
    requires ProductionMatches(s.production[i], B(req.runNumber), B(req.experimentId))
    requires forall j :: 0 <= j < i ==> !ProductionMatches(s.production[j], B(req.runNumber), B(req.experimentId))
    ensures var t := UpdateDataProduction(s, req);
      && t.raised == None
      && |t.db.production| == |s.production|
      && t.db.(production := s.production) == s
      && (forall j :: 0 <= j < |s.production| && j != i ==> t.db.production[j] == s.production[j])
      && t.db.production[i] == s.production[i].(nEvents := IntegerAffinity(B(req.nEvents)),
           nDamaged := IntegerAffinity(B(req.nDamaged)), nDropped := IntegerAffinity(B(req.nDropped)),
           prodStart := B(req.prodStart), prodEnd := B(req.prodEnd))
  {
    var run, exp := B(req.runNumber), B(req.experimentId);
    var p := (r: ProductionRow) => ProductionMatches(r, run, exp);
    assert p(s.production[i]);
    assert FirstWhere(s.production, p) == Some(i);
  }

  /** update_file_manager updates the two counts of the first matching row only. */
  lemma UpdateFileManagerFirstMatch(s: DbState, req: FileManagerReq, i: nat)
    requires Bindable([req.runNumber, req.experimentId])
    requires Bindable([req.numberOfFiles, req.totalSizeBytes])
    requires i < |s.fileManager|
    requires FileManagerMatches(s.fileManager[i], B(req.runNumber), B(req.experimentId))
    requires forall j :: 0 <= j < i ==> !FileManagerMatches(s.fileManager[j], B(req.runNumber), B(req.experimentId))
    ensures var t := UpdateFileManager(s, req);
      && t.raised == None
      && |t.db.fileManager| == |s.fileManager|
      && t.db.(fileManager := s.fileManager) == s
      && (forall j :: 0 <= j < |s.fileManager| && j != i ==> t.db.fileManager[j] == s.fileManager[j])
      && t.db.fileManager[i] == s.fileManager[i].(numberOfFiles := IntegerAffinity(B(req.numberOfFiles)),
           totalSizeBytes := IntegerAffinity(B(req.totalSizeBytes)))
  {
    var run, exp := B(req.runNumber), B(req.experimentId);
    var p := (r: FileManagerRow) => FileManagerMatches(r, run, exp);
    assert p(s.fileManager[i]);
    assert FirstWhere(s.fileManager, p) == Some(i);
  }

  /** Rows the insert statements wrote (experiment_id NULL) are never found
      by the update path's lookups, which all compare experiment_id: on such
      a table every update_detector falls back to an insert. */
  lemma UpdateDetectorNeverMatchesInserted(s: DbState, req: DetectorReq)
    requires forall i :: 0 <= i < |s.detectors| ==> s.detectors[i].experimentId == NULL
    requires Bindable([req.runNumber, req.experimentId, req.detectorName])
    ensures UpdateDetector(s, req) == Step(InsertDetector(s, req), None)
  {
  }

  /** The same for update_logbook, update_data_production and update_file_manager. */
  lemma UpdatesNeverMatchInserted(s: DbState, l: LogbookReq, p: ProductionReq, f: FileManagerReq)
    requires forall i :: 0 <= i < |s.logbook| ==> s.logbook[i].experimentId == NULL
    requires forall i :: 0 <= i < |s.production| ==> s.production[i].experimentId == NULL
    requires forall i :: 0 <= i < |s.fileManager| ==> s.fileManager[i].experimentId == NULL
    requires Bindable([l.runNumber, l.timestamp, l.author, l.experimentId])
    requires Bindable([p.runNumber, p.experimentId]) && Bindable([f.runNumber, f.experimentId])
    ensures UpdateLogbook(s, l) == Step(InsertLogbook(s, l), None)
    ensures UpdateDataProduction(s, p) == Step(InsertDataProduction(s, p), None)
    ensures UpdateFileManager(s, f) == Step(InsertFileManager(s, f), None)
  {
  }
}
