/** The per-file loops of both commands as one fold: each file is handed
    to a step that may raise, and the loop stops at the first raise with
    status 1. The laws are proved once for an arbitrary step and then read
    off for save_to_db's and update_db's steps. */
module LoopLaws {
  import opened Values
  import opened Tables
  import opened Ingest

  /** What processing one file does to the store. */
  type StepFn = (DbState, string) -> Step

  /** The per-file loop over `step`. */
  function Loop(step: StepFn, s: DbState, files: seq<string>): (o: Outcome)
    ensures o.exitCode == 0 || o.exitCode == 1
    decreases |files|
  {
    if files == [] then Outcome(s, 0)
    else
      var r := step(s, files[0]);
      if r.raised.Some? then Outcome(r.db, 1) else Loop(step, r.db, files[1..])
  }

  /** The store after every file's step, one after the other, whatever each
      raises: the reference the loop is measured against. */
  function Through(step: StepFn, s: DbState, files: seq<string>): DbState
    decreases |files|
  {
    if files == [] then s
    else step(Through(step, s, files[..|files| - 1]), files[|files| - 1]).db
  }

  /** File `k` raises when stepped after the files before it. */
  predicate RaisesAt(step: StepFn, s: DbState, files: seq<string>, k: nat)
    requires k < |files|
  {
    step(Through(step, s, files[..k]), files[k]).raised.Some?
  }

  /** No file raises. */
  predicate Clean(step: StepFn, s: DbState, files: seq<string>) {
    forall k :: 0 <= k < |files| ==> !RaisesAt(step, s, files, k)
  }

  // ---------------------------------------------------------------------
  // The loop over an arbitrary step
  // ---------------------------------------------------------------------

  /** Once a file raises, the loop has stopped: files after it have no
      effect. */
  lemma {:induction false} LoopStops(step: StepFn, s: DbState, files: seq<string>, more: seq<string>)
    requires Loop(step, s, files).exitCode != 0
    ensures Loop(step, s, files + more) == Loop(step, s, files)
    decreases |files|
  {
    assert files != [];
    assert (files + more)[0] == files[0] && (files + more)[1..] == files[1..] + more;
    var r := step(s, files[0]);
    if r.raised.None? {
      LoopStops(step, r.db, files[1..], more);
    }
  }

  /** A loop that exits 0 over `files` then continues over `more` exactly as
      a fresh loop over `more` on the resulting store. */
  lemma {:induction false} LoopComposes(step: StepFn, s: DbState, files: seq<string>, more: seq<string>)
    requires Loop(step, s, files).exitCode == 0
    ensures Loop(step, s, files + more) == Loop(step, Loop(step, s, files).db, more)
    decreases |files|
  {
    if files == [] {
      assert files + more == more;
    } else {
      assert (files + more)[0] == files[0] && (files + more)[1..] == files[1..] + more;
      LoopComposes(step, step(s, files[0]).db, files[1..], more);
    }
  }

  /** Every file but the last raises in a list exactly as it does in the
      list without its last file. */
  lemma PrefixRaises(step: StepFn, s: DbState, files: seq<string>)
    requires files != []
    ensures forall k :: 0 <= k < |files| - 1 ==> RaisesAt(step, s, files, k) == RaisesAt(step, s, files[..|files| - 1], k)
  {
    var init := files[..|files| - 1];
    forall k | 0 <= k < |files| - 1
      ensures RaisesAt(step, s, files, k) == RaisesAt(step, s, init, k)
    {
      assert files[..k] == init[..k];
    }
  }

  /** The loop exits 0 exactly when no file raises, and then the store is
      every file's step in order. */
  lemma {:induction false} LoopExitCode(step: StepFn, s: DbState, files: seq<string>)
    ensures Loop(step, s, files).exitCode == 0 <==> Clean(step, s, files)
    ensures Loop(step, s, files).exitCode == 0 ==> Loop(step, s, files).db == Through(step, s, files)
    decreases |files|
  {
    if files != [] {
      var n := |files| - 1;
      var init := files[..n];
      assert files == init + [files[n]];
      assert files[..n] == init;
      PrefixRaises(step, s, files);
      LoopExitCode(step, s, init);
      if Loop(step, s, init).exitCode != 0 {
        LoopStops(step, s, init, [files[n]]);
        var k :| 0 <= k < n && RaisesAt(step, s, init, k);
        assert RaisesAt(step, s, files, k);
      } else {
        var t0 := Through(step, s, init);
        LoopComposes(step, s, init, [files[n]]);
        assert [files[n]][1..] == [];
        assert Loop(step, s, files) == Loop(step, t0, [files[n]]);
        assert forall k :: 0 <= k < n ==> !RaisesAt(step, s, files, k);
        assert RaisesAt(step, s, files, n) == step(t0, files[n]).raised.Some?;
      }
    }
  }

  /** When the loop exits 1, some file raised while every file before it
      did not. */
  lemma {:induction false} LoopFirstRaise(step: StepFn, s: DbState, files: seq<string>)
    requires Loop(step, s, files).exitCode != 0
    ensures exists k :: 0 <= k < |files| && RaisesAt(step, s, files, k) && forall j :: 0 <= j < k ==> !RaisesAt(step, s, files, j)
    decreases |files|
  {
    var n := |files| - 1;
    var init := files[..n];
    assert files == init + [files[n]];
    assert files[..n] == init;
    PrefixRaises(step, s, files);
    LoopExitCode(step, s, init);
    LoopExitCode(step, s, files);
    if Loop(step, s, init).exitCode != 0 {
      LoopFirstRaise(step, s, init);
      var k :| 0 <= k < |init| && RaisesAt(step, s, init, k) && forall j :: 0 <= j < k ==> !RaisesAt(step, s, init, j);
      assert RaisesAt(step, s, files, k);
    } else {
      assert RaisesAt(step, s, files, n);
    }
  }

  /** When file `k` is the first to raise, the loop stops there with status
      1 and what that file's step left. */
  lemma LoopStopsAt(step: StepFn, s: DbState, files: seq<string>, k: nat)
    requires k < |files| && RaisesAt(step, s, files, k)
    requires forall j :: 0 <= j < k ==> !RaisesAt(step, s, files, j)
    ensures Loop(step, s, files) == Outcome(step(Through(step, s, files[..k]), files[k]).db, 1)
  {
    var pre := files[..k];
    assert forall j :: 0 <= j < k ==> files[..k][..j] == files[..j] && pre[j] == files[j];
    assert forall j :: 0 <= j < |pre| ==> RaisesAt(step, s, files, j) == RaisesAt(step, s, pre, j);
    LoopExitCode(step, s, pre);
    var t0 := Through(step, s, pre);
    LoopComposes(step, s, pre, [files[k]]);
    var upTo := pre + [files[k]];
    assert Loop(step, s, upTo) == Loop(step, t0, [files[k]]);
    assert files == upTo + files[k + 1..];
    LoopStops(step, s, upTo, files[k + 1..]);
  }

  /** When the loop exits 1, it stopped at the first file that raised, with
      what that file's step left. */
  lemma LoopFailure(step: StepFn, s: DbState, files: seq<string>)
    requires Loop(step, s, files).exitCode != 0
    ensures exists k :: && 0 <= k < |files| && RaisesAt(step, s, files, k)
                        && (forall j :: 0 <= j < k ==> !RaisesAt(step, s, files, j))
                        && Loop(step, s, files).db == step(Through(step, s, files[..k]), files[k]).db
  {
    LoopFirstRaise(step, s, files);
    var k :| 0 <= k < |files| && RaisesAt(step, s, files, k) && forall j :: 0 <= j < k ==> !RaisesAt(step, s, files, j);
    LoopStopsAt(step, s, files, k);
  }

  // ---------------------------------------------------------------------
  // save_to_db and update_db
  // ---------------------------------------------------------------------

  /** save_to_db's step: `process_file` in insert mode. */
  function InsertStep(fs: FileSystem): StepFn {
    (t: DbState, path: string) => if Valid(t) then ProcessFile(t, path, fs, InsertMode) else Step(t, None)
  }

  /** update_db's step: a file that does not exist is skipped, any other
      goes to the overridden `process_file`. */
  function UpdateStep(fs: FileSystem, parseMainContent: Value -> Record): StepFn {
    (t: DbState, path: string) =>
      if Valid(t) && path in fs then ProcessFile(t, path, fs, UpdateMode(parseMainContent)) else Step(t, None)
  }

  /** save_to_db's main is the loop over its step. */
  lemma {:induction false} InsertMainIsLoop(s: DbState, files: seq<string>, fs: FileSystem)
    requires Valid(s)
    ensures InsertMain(s, files, fs) == Loop(InsertStep(fs), s, files)
    decreases |files|
  {
    if files != [] {
      var r := ProcessFile(s, files[0], fs, InsertMode);
      assert InsertStep(fs)(s, files[0]) == r;
      if r.raised.None? { InsertMainIsLoop(r.db, files[1..], fs); }
    }
  }

  /** update_db's per-file loop is the loop over its step. */
  lemma {:induction false} UpdateFilesIsLoop(s: DbState, files: seq<string>, fs: FileSystem, parseMainContent: Value -> Record)
    requires Valid(s)
    ensures UpdateFiles(s, files, fs, parseMainContent) == Loop(UpdateStep(fs, parseMainContent), s, files)
    decreases |files|
  {
    if files != [] {
      var step := UpdateStep(fs, parseMainContent);
      if files[0] !in fs {
        assert step(s, files[0]) == Step(s, None);
        UpdateFilesIsLoop(s, files[1..], fs, parseMainContent);
      } else {
        var r := ProcessFile(s, files[0], fs, UpdateMode(parseMainContent));
        assert step(s, files[0]) == r;
        if r.raised.None? { UpdateFilesIsLoop(r.db, files[1..], fs, parseMainContent); }
      }
    }
  }

  /** save_to_db's main exits 0 exactly when no file raises, and then the
      store is every file's processing in order. */
  lemma InsertMainExitCode(s: DbState, files: seq<string>, fs: FileSystem)
    requires Valid(s)
    ensures InsertMain(s, files, fs).exitCode == 0 <==> Clean(InsertStep(fs), s, files)
    ensures InsertMain(s, files, fs).exitCode == 0 ==> InsertMain(s, files, fs).db == Through(InsertStep(fs), s, files)
  {
    InsertMainIsLoop(s, files, fs);
    LoopExitCode(InsertStep(fs), s, files);
  }

  /** When save_to_db's main exits 1, it stopped at the first file that
      raised, with what that file's processing left. */
  lemma InsertMainFailure(s: DbState, files: seq<string>, fs: FileSystem)
    requires Valid(s) && InsertMain(s, files, fs).exitCode != 0
    ensures exists k :: && 0 <= k < |files| && RaisesAt(InsertStep(fs), s, files, k)
                        && (forall j :: 0 <= j < k ==> !RaisesAt(InsertStep(fs), s, files, j))
                        && InsertMain(s, files, fs).db == InsertStep(fs)(Through(InsertStep(fs), s, files[..k]), files[k]).db
  {
    InsertMainIsLoop(s, files, fs);
    LoopFailure(InsertStep(fs), s, files);
  }

  /** update_db's loop exits 0 exactly when no existing file raises, and
      then the live store is every existing file's processing in order. */
  lemma UpdateFilesExitCode(s: DbState, files: seq<string>, fs: FileSystem, parseMainContent: Value -> Record)
    requires Valid(s)
    ensures UpdateFiles(s, files, fs, parseMainContent).exitCode == 0 <==> Clean(UpdateStep(fs, parseMainContent), s, files)
    ensures UpdateFiles(s, files, fs, parseMainContent).exitCode == 0 ==>
      UpdateFiles(s, files, fs, parseMainContent).db == Through(UpdateStep(fs, parseMainContent), s, files)
  {
    UpdateFilesIsLoop(s, files, fs, parseMainContent);
    LoopExitCode(UpdateStep(fs, parseMainContent), s, files);
  }

  /** When update_db's loop exits 1, it stopped at the first file that
      raised, with what that file's processing left. */
  lemma UpdateFilesFailure(s: DbState, files: seq<string>, fs: FileSystem, parseMainContent: Value -> Record)
    requires Valid(s) && UpdateFiles(s, files, fs, parseMainContent).exitCode != 0
    ensures var step := UpdateStep(fs, parseMainContent);
      exists k :: && 0 <= k < |files| && RaisesAt(step, s, files, k)
                  && (forall j :: 0 <= j < k ==> !RaisesAt(step, s, files, j))
                  && UpdateFiles(s, files, fs, parseMainContent).db == step(Through(step, s, files[..k]), files[k]).db
  {
    UpdateFilesIsLoop(s, files, fs, parseMainContent);
    LoopFailure(UpdateStep(fs, parseMainContent), s, files);
  }
}
