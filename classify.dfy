/** Artifact classification by file-name suffix and the experiment id that
    every artifact's file name carries. */
module Classify {

  /** The artifact kinds; `Unknown` is the classifier's `'unknown'`. */
  datatype Kind = Info | FileManager | Logbook | Runtable | Unknown

  predicate EndsWith(s: string, suffix: string) {
    |suffix| <= |s| && s[|s| - |suffix|..] == suffix
  }

  /** The suffix table in the order the dictionary literal lists it. */
  const FileTypes: seq<(string, Kind)> := [
    (".info.json", Info),
    (".file_manager.csv", FileManager),
    (".logbook.csv", Logbook),
    (".runtable.json", Runtable)
  ]

  /** The kind of the first entry whose suffix the path ends with. */
  function FirstMatch(path: string, table: seq<(string, Kind)>): Kind
    decreases |table|
  {
    if table == [] then Unknown
    else if EndsWith(path, table[0].0) then table[0].1
    else FirstMatch(path, table[1..])
  }

  /** `get_file_type`: the kind of the first suffix in the table the path
      ends with; GetFileTypeCorrect states that this is the one suffix it
      ends with. */
  function GetFileType(path: string): (k: Kind)
    ensures k != Unknown ==> EndsWith(path, SuffixOf(k))
  {
    FirstMatch(path, FileTypes)
  }

  /** The suffix that marks each known kind. */
  function SuffixOf(k: Kind): string
    requires k != Unknown
  {
    match k
    case Info => ".info.json"
    case FileManager => ".file_manager.csv"
    case Logbook => ".logbook.csv"
    case Runtable => ".runtable.json"
  }

  /** No suffix in the table ends with another one (nor repeats one). */
  predicate SuffixFree(table: seq<(string, Kind)>) {
    forall i, j :: 0 <= i < |table| && 0 <= j < |table| && i != j ==> !EndsWith(table[i].0, table[j].0)
  }

  /** Two suffixes of one path: the shorter is a suffix of the longer. */
  lemma SuffixesNest(s: string, a: string, b: string)
    requires EndsWith(s, a) && EndsWith(s, b) && |a| <= |b|
    ensures EndsWith(b, a)
  {
    assert s[|s| - |a|..] == s[|s| - |b|..][|b| - |a|..];
  }

  /** In a suffix-free table the first match is every match. */
  lemma {:induction false} FirstMatchIsOnlyMatch(path: string, table: seq<(string, Kind)>, i: nat)
    requires SuffixFree(table) && i < |table| && EndsWith(path, table[i].0)
    ensures FirstMatch(path, table) == table[i].1
    decreases i
  {
    if i == 0 {
    } else {
      var a, b := table[0].0, table[i].0;
      assert !EndsWith(path, a) by {
        if EndsWith(path, a) {
          if |a| <= |b| { SuffixesNest(path, a, b); } else { SuffixesNest(path, b, a); }
          assert false;
        }
      }
      var rest := table[1..];
      assert SuffixFree(rest) by {
        forall p, q | 0 <= p < |rest| && 0 <= q < |rest| && p != q
          ensures !EndsWith(rest[p].0, rest[q].0)
        {
          assert rest[p] == table[p + 1] && rest[q] == table[q + 1];
        }
      }
      assert rest[i - 1] == table[i];
      FirstMatchIsOnlyMatch(path, rest, i - 1);
    }
  }

  /** With no matching suffix the result is Unknown. */
  lemma {:induction false} NoMatchIsUnknown(path: string, table: seq<(string, Kind)>)
    requires forall i :: 0 <= i < |table| ==> !EndsWith(path, table[i].0)
    ensures FirstMatch(path, table) == Unknown
    decreases |table|
  {
    if table != [] {
      assert !EndsWith(path, table[0].0);
      var rest := table[1..];
      assert forall i :: 0 <= i < |rest| ==> rest[i] == table[i + 1];
      NoMatchIsUnknown(path, rest);
    }
  }

  /** A matched kind always comes from a matching table entry. */
  lemma {:induction false} FirstMatchFromEntry(path: string, table: seq<(string, Kind)>)
    requires FirstMatch(path, table) != Unknown
    ensures exists i :: 0 <= i < |table| && EndsWith(path, table[i].0) && table[i].1 == FirstMatch(path, table)
    decreases |table|
  {
    if !EndsWith(path, table[0].0) {
      FirstMatchFromEntry(path, table[1..]);
      var i :| 0 <= i < |table[1..]| && EndsWith(path, table[1..][i].0) && table[1..][i].1 == FirstMatch(path, table[1..]);
      assert table[i + 1] == table[1..][i];
    }
  }

  /** The built-in table is suffix-free. */
  lemma FileTypesSuffixFree()
    ensures SuffixFree(FileTypes)
  {
    // The four suffixes have different lengths, and inside each longer one
    // the position where a shorter one would begin holds a letter, not '.'.
    forall i, j | 0 <= i < |FileTypes| && 0 <= j < |FileTypes| && i != j
      ensures !EndsWith(FileTypes[i].0, FileTypes[j].0)
    {
      var a, b := FileTypes[i].0, FileTypes[j].0;
      assert b[0] == '.';
      if |b| <= |a| {
        assert a[|a| - |b|] != '.';
        assert a[|a| - |b|..][0] != b[0];
      }
    }
  }

  /** The classifier's result does not depend on the order in which the
      table is scanned: any reordering of a suffix-free table of known kinds
      classifies every path alike. */
  lemma {:induction false} ClassifyOrderIndependent(path: string, t1: seq<(string, Kind)>, t2: seq<(string, Kind)>)
    requires SuffixFree(t1) && SuffixFree(t2) && multiset(t1) == multiset(t2)
    ensures FirstMatch(path, t1) == FirstMatch(path, t2)
  {
    if FirstMatch(path, t1) != Unknown {
      FirstMatchFromEntry(path, t1);
      var i :| 0 <= i < |t1| && EndsWith(path, t1[i].0) && t1[i].1 == FirstMatch(path, t1);
      assert t1[i] in multiset(t2);
      var j :| 0 <= j < |t2| && t2[j] == t1[i];
      FirstMatchIsOnlyMatch(path, t2, j);
    } else if FirstMatch(path, t2) != Unknown {
      FirstMatchFromEntry(path, t2);
      var j :| 0 <= j < |t2| && EndsWith(path, t2[j].0) && t2[j].1 == FirstMatch(path, t2);
      assert t2[j] in multiset(t1);
      var i :| 0 <= i < |t1| && t1[i] == t2[j];
      FirstMatchIsOnlyMatch(path, t1, i);
    }
  }

  /** `get_file_type` returns a known kind exactly when the path ends with
      that kind's suffix, and `'unknown'` exactly when it ends with none. */
  lemma GetFileTypeCorrect(path: string)
    ensures forall k :: k != Unknown ==> (GetFileType(path) == k <==> EndsWith(path, SuffixOf(k)))
    ensures GetFileType(path) == Unknown <==> forall k :: k != Unknown ==> !EndsWith(path, SuffixOf(k))
  {
    FileTypesSuffixFree();
    assert forall i :: 0 <= i < |FileTypes| ==> FileTypes[i].1 != Unknown && SuffixOf(FileTypes[i].1) == FileTypes[i].0;
    forall k | k != Unknown ensures GetFileType(path) == k <==> EndsWith(path, SuffixOf(k)) {
      var i := match k case Info => 0 case FileManager => 1 case Logbook => 2 case Runtable => 3;
      assert FileTypes[i] == (SuffixOf(k), k);
      if EndsWith(path, SuffixOf(k)) {
        FirstMatchIsOnlyMatch(path, FileTypes, i);
      } else if GetFileType(path) == k {
        FirstMatchFromEntry(path, FileTypes);
      }
    }
    if forall k :: k != Unknown ==> !EndsWith(path, SuffixOf(k)) {
      NoMatchIsUnknown(path, FileTypes);
    }
  }

  /** `os.path.basename`: what follows the last '/'. */
  function Basename(path: string): (b: string)
    ensures '/' !in b
    ensures EndsWith(path, b)
    ensures b == path || path[|path| - |b| - 1] == '/'
    decreases |path|
  {
    if path == [] || path[|path| - 1] == '/' then []
    else
      var init := path[..|path| - 1];
      var b0 := Basename(init);
      assert b0 != init ==> path[|path| - |b0 + [path[|path| - 1]]| - 1] == init[|init| - |b0| - 1];
      b0 + [path[|path| - 1]]
  }

  /** `s.split('.')[0]`: what precedes the first '.'. */
  function BeforeDot(s: string): (r: string)
    ensures '.' !in r
    ensures r <= s
    ensures r == s || s[|r|] == '.'
  {
    if s == [] || s[0] == '.' then []
    else [s[0]] + BeforeDot(s[1..])
  }

  /** The experiment id of an artifact: its base name up to the first '.'. */
  function ExperimentId(path: string): (id: string)
    ensures '.' !in id && '/' !in id
  {
    BeforeDot(Basename(path))
  }

  /** A name without '/' is its own base name behind any directory part. */
  lemma {:induction false} BasenameAfterDir(dir: string, name: string)
    requires dir == [] || dir[|dir| - 1] == '/'
    requires '/' !in name
    ensures Basename(dir + name) == name
    decreases |name|
  {
    if name == [] {
      assert dir + name == dir;
    } else {
      var init := name[..|name| - 1];
      var p := dir + name;
      assert p[|p| - 1] == name[|name| - 1] && name[|name| - 1] in name;
      assert p[..|p| - 1] == dir + init;
      assert '/' !in init by { assert forall c :: c in init ==> c in name; }
      BasenameAfterDir(dir, init);
      assert Basename(p) == Basename(dir + init) + [name[|name| - 1]];
      assert init + [name[|name| - 1]] == name;
    }
  }

  /** The part before the first '.' of `id + suffix`, suffix starting with '.'. */
  lemma {:induction false} BeforeDotOfSuffixed(id: string, suffix: string)
    requires '.' !in id && |suffix| > 0 && suffix[0] == '.'
    ensures BeforeDot(id + suffix) == id
    decreases |id|
  {
    if id == [] {
      assert id + suffix == suffix;
    } else {
      assert (id + suffix)[1..] == id[1..] + suffix;
      assert '.' !in id[1..] by { assert forall c :: c in id[1..] ==> c in id; }
      BeforeDotOfSuffixed(id[1..], suffix);
      assert [id[0]] + id[1..] == id;
    }
  }

  /** The round trip the naming convention promises: a file
      `<dir>/<id>.<kind suffix>` yields `id` back when `id` holds no '.'
      and no '/'. */
  lemma ExperimentIdOfArtifact(dir: string, id: string, k: Kind)
    requires k != Unknown
    requires dir == [] || dir[|dir| - 1] == '/'
    requires '.' !in id && '/' !in id
    ensures ExperimentId(dir + id + SuffixOf(k)) == id
    ensures GetFileType(dir + id + SuffixOf(k)) == k
  {
    var suffix := SuffixOf(k);
    assert '/' !in suffix;
    assert '/' !in id + suffix;
    assert dir + id + suffix == dir + (id + suffix);
    BasenameAfterDir(dir, id + suffix);
    BeforeDotOfSuffixed(id, suffix);
    GetFileTypeCorrect(dir + id + suffix);
    assert (dir + id + suffix)[|dir + id + suffix| - |suffix|..] == suffix;
  }
}
