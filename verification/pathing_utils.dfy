/**
  src/utils/pathingUtils.py: reading a directory as a list of names sorted by
  name, and the neighbour search over such a list.

  The filesystem is pure data: every directory path is mapped to the set of
  names of its children. A child name that is not itself a directory key is
  a file. Listing a path that is not a directory raises, as `os.scandir` does.
 */
module PathingUtils {
  import opened Common
  import opened StringOrder
  import AlgoUtils

  datatype FileSystem = FileSystem(dirs: map<Path, set<string>>)

  /** The greatest name of a non-empty set. */
  function MaxName(names: set<string>): (m: string)
    requires names != {}
    ensures m in names && IsMaxName(m, names)
  {
    MaxNameExists(names);
    MaxNameUnique(names);
    var m :| m in names && IsMaxName(m, names); m
  }

  lemma PrependMaxKeepsDescending(m: string, names: set<string>, rest: seq<string>)
    requires m in names && IsMaxName(m, names)
    requires forall i | 0 <= i < |rest| :: rest[i] in names - {m}
    requires StrictlyDescending(rest)
    ensures StrictlyDescending([m] + rest)
  {
    var r := [m] + rest;
    forall i, j | 0 <= i < j < |r|
      ensures DescendsAt(r, i, j)
    {
      if i == 0 {
        assert r[j] == rest[j - 1] && r[j] in names && r[j] != m;
        LexLeCases(r[j], m);
      } else {
        assert r[i] == rest[i - 1] && r[j] == rest[j - 1];
        assert DescendsAt(rest, i - 1, j - 1);
      }
    }
  }

  /** `sorted(names, reverse=True)` over a set of distinct names. */
  function SortDescending(names: set<string>): (r: seq<string>)
    ensures |r| == |names|
    ensures forall i | 0 <= i < |r| :: r[i] in names
    ensures forall x | x in names :: x in r
    ensures StrictlyDescending(r)
    decreases names
  {
    if names == {} then []
    else
      var m := MaxName(names);
      var rest := SortDescending(names - {m});
      PrependMaxKeepsDescending(m, names, rest);
      [m] + rest
  }

  /** Read backwards, a strictly descending sequence is strictly ascending. */
  lemma ReverseAscending(d: seq<string>)
    requires StrictlyDescending(d)
    ensures StrictlyAscending(Reverse(d))
  {
    var r := Reverse(d);
    forall i, j | 0 <= i < j < |r|
      ensures AscendsAt(r, i, j)
    {
      assert r[i] == d[|d| - 1 - i] && r[j] == d[|d| - 1 - j];
      assert DescendsAt(d, |d| - 1 - j, |d| - 1 - i);
    }
  }

  lemma ReversedDescending(d: seq<string>, names: set<string>)
    requires StrictlyDescending(d)
    requires forall i | 0 <= i < |d| :: d[i] in names
    requires forall x | x in names :: x in d
    ensures StrictlyAscending(Reverse(d))
    ensures forall i | 0 <= i < |d| :: Reverse(d)[i] in names
    ensures forall x | x in names :: x in Reverse(d)
  {
    var r := Reverse(d);
    ReverseAscending(d);
    forall i | 0 <= i < |r|
      ensures r[i] in names
    {
      assert r[i] == d[|d| - 1 - i];
    }
    forall x | x in names
      ensures x in r
    {
      var i :| 0 <= i < |d| && d[i] == x;
      assert r[|d| - 1 - i] == x;
    }
  }

  /** `sorted(names)`: the descending order read back to front. */
  function SortAscending(names: set<string>): (r: seq<string>)
    ensures |r| == |names|
    ensures forall i | 0 <= i < |r| :: r[i] in names
    ensures forall x | x in names :: x in r
    ensures StrictlyAscending(r)
  {
    var d := SortDescending(names);
    ReversedDescending(d, names);
    Reverse(d)
  }

  /**
    `get_sorted_directory_by_name(path, reverse)`: the names of the children
    of `path`, each exactly once, ascending, or descending when `reverse`.
   */
  function SortedDirectoryByName(fs: FileSystem, path: Path, reverse: bool): (r: Result<seq<string>>)
    ensures path !in fs.dirs <==> r.Err?
    ensures r.Err? ==> r.error == FileNotFound(path)
    ensures r.Ok? ==> |r.value| == |fs.dirs[path]|
    ensures r.Ok? ==> forall i | 0 <= i < |r.value| :: r.value[i] in fs.dirs[path]
    ensures r.Ok? ==> forall x | x in fs.dirs[path] :: x in r.value
    ensures r.Ok? && reverse ==> StrictlyDescending(r.value)
    ensures r.Ok? && !reverse ==> StrictlyAscending(r.value)
  {
    if path !in fs.dirs then Err(FileNotFound(path))
    else if reverse then Ok(SortDescending(fs.dirs[path]))
    else Ok(SortAscending(fs.dirs[path]))
  }

  /** `get_reverse_sorted_directory_by_name(path)`: the children, newest name first. */
  function ReverseSortedDirectoryByName(fs: FileSystem, path: Path): (r: Result<seq<string>>)
    ensures path !in fs.dirs <==> r.Err?
    ensures r.Err? ==> r.error == FileNotFound(path)
    ensures r.Ok? ==> |r.value| == |fs.dirs[path]|
    ensures r.Ok? ==> forall i | 0 <= i < |r.value| :: r.value[i] in fs.dirs[path]
    ensures r.Ok? ==> forall x | x in fs.dirs[path] :: x in r.value
    ensures r.Ok? ==> StrictlyDescending(r.value)
  {
    SortedDirectoryByName(fs, path, true)
  }

  /** Two strictly descending sequences holding the same names are equal. */
  lemma {:induction false} StrictlyDescendingUnique(a: seq<string>, b: seq<string>)
    requires StrictlyDescending(a) && StrictlyDescending(b)
    requires forall x :: x in a <==> x in b
    ensures a == b
    decreases |a|
  {
    if |b| > 0 {
      assert b[0] in a;
    }
    if |a| > 0 {
      assert a[0] in b;
      var i :| 0 <= i < |b| && b[i] == a[0];
      assert b[0] in a;
      var i' :| 0 <= i' < |a| && a[i'] == b[0];
      if i > 0 && i' > 0 {
        assert DescendsAt(b, 0, i) && DescendsAt(a, 0, i');
        LexLtAsymmetric(b[i], b[0]);
        assert false;
      }
      assert a[0] == b[0];
      forall x
        ensures x in a[1..] <==> x in b[1..]
      {
        if x in a[1..] {
          var m :| 1 <= m < |a| && a[m] == x;
          assert DescendsAt(a, 0, m);
          LexLtIrreflexive(a[0]);
          assert x in b && x != b[0];
        }
        if x in b[1..] {
          var m :| 1 <= m < |b| && b[m] == x;
          assert DescendsAt(b, 0, m);
          LexLtIrreflexive(b[0]);
          assert x in a && x != a[0];
        }
      }
      StrictlyDescendingTail(a);
      StrictlyDescendingTail(b);
      StrictlyDescendingUnique(a[1..], b[1..]);
      assert a == [a[0]] + a[1..] && b == [b[0]] + b[1..];
    }
  }

  /** The listing of a directory is the one strictly descending sequence of its children. */
  lemma ReverseListingUnique(fs: FileSystem, path: Path, s: seq<string>)
    requires path in fs.dirs && fs.dirs[path] == Elements(s)
    requires StrictlyDescending(s)
    ensures ReverseSortedDirectoryByName(fs, path) == Ok(s)
  {
    var r := ReverseSortedDirectoryByName(fs, path).value;
    forall x
      ensures x in r <==> x in s
    {
      if x in r {
        var i :| 0 <= i < |r| && r[i] == x;
      }
    }
    StrictlyDescendingUnique(r, s);
  }

  /**
    `get_next_file_index_from_reverse_sorted`: the same code as
    `get_next_string_index_from_reverse_sorted` in algoUtils.py, and the
    same function.
   */
  function NextFileIndex(fileName: string, reverseSortedFiles: Option<seq<string>>, direction: Direction): (r: Option<nat>)
    ensures r == AlgoUtils.NextStringIndex(fileName, reverseSortedFiles, direction)
  {
    if reverseSortedFiles.Some? && |reverseSortedFiles.value| > 0 then
      var files := reverseSortedFiles.value;
      if direction != Backward then
        var nextIndex := AlgoUtils.BisectRightFrom(files, fileName, 0, |files|);
        if nextIndex < |files| then Some(nextIndex) else None
      else
        var nextIndex := AlgoUtils.BisectLeftFrom(files, fileName, 0, |files|);
        if nextIndex != 0 then Some(nextIndex - 1) else None
    else None
  }

  /** The fixed cases of test/utils/test_pathingUtils.py that the two tests files share. */
  lemma NextFileIndexExamples()
    ensures NextFileIndex("someFile", None, Forward) == None
    ensures NextFileIndex("2013", Some(["2013"]), Forward) == None
    ensures NextFileIndex("2013", Some(["2013"]), Backward) == None
    ensures NextFileIndex("9999-99-99", Some(["2024-01-14", "2024-01-13"]), Forward) == Some(0)
    ensures NextFileIndex("0000-00-00", Some(["2024-01-14", "2024-01-13"]), Backward) == Some(1)
  {
    AlgoUtils.NextStringIndexExamples();
  }
}
