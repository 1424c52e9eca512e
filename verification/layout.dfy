/**
  The repository tree read as one log. A repository is a list of date
  folders, each a list of entry names; reading the folders in listing order,
  and each folder's entries in listing order, gives the sequence of
  (date, entry name) pairs that paging walks through. Positions in the tree
  are pairs (j, k): entry k of date folder j.
 */
module Layout {
  import opened Common
  import opened StringOrder
  import opened PathingUtils
  import opened RepoUtils

  /** One date folder: its name and its entry names in listing order. */
  datatype DateFolder = DateFolder(date: string, entries: seq<string>)

  /** The (date, entry name) pairs of one folder. */
  function Pairs(f: DateFolder): (r: seq<(string, string)>)
    ensures |r| == |f.entries|
    ensures forall i | 0 <= i < |r| :: r[i] == (f.date, f.entries[i])
  {
    seq(|f.entries|, i requires 0 <= i < |f.entries| => (f.date, f.entries[i]))
  }

  /** The whole log: every folder's pairs, folder after folder. */
  function Flat(l: seq<DateFolder>): seq<(string, string)> {
    if |l| == 0 then [] else Pairs(l[0]) + Flat(l[1..])
  }

  /** The log index of the first entry of folder `j`. */
  function Offset(l: seq<DateFolder>, j: int): nat
    requires 0 <= j <= |l|
  {
    if j == 0 then 0 else |l[0].entries| + Offset(l[1..], j - 1)
  }

  /** Every folder holds at least one entry. */
  predicate NoEmptyFolder(l: seq<DateFolder>) {
    forall j | 0 <= j < |l| :: |l[j].entries| > 0
  }

  predicate IsPosition(l: seq<DateFolder>, j: int, k: int) {
    0 <= j < |l| && 0 <= k < |l[j].entries|
  }

  lemma {:induction false} OffsetAll(l: seq<DateFolder>)
    ensures Offset(l, |l|) == |Flat(l)|
  {
    if |l| > 0 {
      OffsetAll(l[1..]);
    }
  }

  lemma {:induction false} OffsetNext(l: seq<DateFolder>, j: int)
    requires 0 <= j < |l|
    ensures Offset(l, j + 1) == Offset(l, j) + |l[j].entries|
  {
    if j > 0 {
      OffsetNext(l[1..], j - 1);
    }
  }

  lemma {:induction false} OffsetMonotone(l: seq<DateFolder>, i: int, j: int)
    requires 0 <= i <= j <= |l|
    ensures Offset(l, i) <= Offset(l, j)
  {
    if i > 0 {
      OffsetMonotone(l[1..], i - 1, j - 1);
    } else if j > 0 {
      OffsetMonotone(l[1..], 0, j - 1);
    }
  }

  /** Entry k of folder j sits at log index Offset(j) + k. */
  lemma {:induction false} FlatAt(l: seq<DateFolder>, j: int, k: int)
    requires IsPosition(l, j, k)
    ensures Offset(l, j) + k < |Flat(l)|
    ensures Flat(l)[Offset(l, j) + k] == (l[j].date, l[j].entries[k])
  {
    if j > 0 {
      FlatAt(l[1..], j - 1, k);
    }
  }

  /** The position of a log index. */
  function Locate(l: seq<DateFolder>, p: int): (r: (nat, nat))
    requires 0 <= p < |Flat(l)|
    ensures IsPosition(l, r.0, r.1) && Offset(l, r.0) + r.1 == p
  {
    if p < |l[0].entries| then (0, p)
    else
      var q := Locate(l[1..], p - |l[0].entries|);
      (q.0 + 1, q.1)
  }

  /** Locate inverts the log index of a position. */
  lemma {:induction false} LocateOffset(l: seq<DateFolder>, j: int, k: int)
    requires IsPosition(l, j, k)
    ensures Offset(l, j) + k < |Flat(l)|
    ensures Locate(l, Offset(l, j) + k) == (j, k)
  {
    FlatAt(l, j, k);
    if j > 0 {
      LocateOffset(l[1..], j - 1, k);
    }
  }

  /** The position after (j, k) in log order, if any. */
  function Succ(l: seq<DateFolder>, j: int, k: int): Option<(nat, nat)>
    requires IsPosition(l, j, k)
  {
    if k + 1 < |l[j].entries| then Some((j, k + 1))
    else if j + 1 < |l| then Some((j + 1, 0))
    else None
  }

  /** The position before (j, k) in log order, if any. */
  function Pred(l: seq<DateFolder>, j: int, k: int): Option<(nat, nat)>
    requires IsPosition(l, j, k)
  {
    if k > 0 then Some((j, k - 1))
    else if j > 0 && |l[j - 1].entries| > 0 then Some((j - 1, |l[j - 1].entries| - 1))
    else None
  }

  /** Succ is log index + 1; it is None only at the last index. */
  lemma SuccIsNextIndex(l: seq<DateFolder>, j: int, k: int)
    requires NoEmptyFolder(l) && IsPosition(l, j, k)
    ensures Succ(l, j, k).Some? ==>
              IsPosition(l, Succ(l, j, k).value.0, Succ(l, j, k).value.1) &&
              Offset(l, Succ(l, j, k).value.0) + Succ(l, j, k).value.1 == Offset(l, j) + k + 1
    ensures Succ(l, j, k).None? <==> Offset(l, j) + k + 1 == |Flat(l)|
  {
    OffsetNext(l, j);
    OffsetAll(l);
    FlatAt(l, j, k);
    if j + 1 < |l| {
      assert |l[j + 1].entries| > 0;
      FlatAt(l, j + 1, 0);
    }
  }

  /** Pred is log index - 1; it is None only at index 0. */
  lemma PredIsPreviousIndex(l: seq<DateFolder>, j: int, k: int)
    requires NoEmptyFolder(l) && IsPosition(l, j, k)
    ensures Pred(l, j, k).Some? ==>
              IsPosition(l, Pred(l, j, k).value.0, Pred(l, j, k).value.1) &&
              Offset(l, Pred(l, j, k).value.0) + Pred(l, j, k).value.1 + 1 == Offset(l, j) + k
    ensures Pred(l, j, k).None? <==> Offset(l, j) + k == 0
  {
    if j > 0 {
      assert |l[j - 1].entries| > 0;
      OffsetNext(l, j - 1);
      OffsetMonotone(l, 0, j - 1);
    }
  }

  /** The tree under `root`: its date folders are directories and none is empty. */
  ghost predicate WellFormedTree(fs: FileSystem, root: Path) {
    && root in fs.dirs
    && (forall d | d in fs.dirs[root] :: root + [d] in fs.dirs)
    && (forall d | d in fs.dirs[root] :: fs.dirs[root + [d]] != {})
  }

  /** Every entry name under `root` holds exactly one underscore. */
  ghost predicate WellFormedNames(fs: FileSystem, root: Path)
    requires WellFormedTree(fs, root)
  {
    forall d, e | d in fs.dirs[root] && e in fs.dirs[root + [d]] :: WellFormedName(e)
  }

  /**
    The tree under `root` as a log, with every listing sorted by name,
    descending when `reverse`.
   */
  ghost function LayoutOf(fs: FileSystem, root: Path, reverse: bool): (l: seq<DateFolder>)
    requires WellFormedTree(fs, root)
    ensures |l| == |fs.dirs[root]|
    ensures forall j | 0 <= j < |l| ::
              l[j].date == SortedDirectoryByName(fs, root, reverse).value[j] &&
              root + [l[j].date] in fs.dirs &&
              SortedDirectoryByName(fs, root + [l[j].date], reverse) == Ok(l[j].entries)
    ensures NoEmptyFolder(l)
  {
    var dates := SortedDirectoryByName(fs, root, reverse).value;
    assert forall j | 0 <= j < |dates| :: dates[j] in fs.dirs[root];
    var l := seq(|dates|, j requires 0 <= j < |dates| => FolderOf(fs, root, dates[j], reverse));
    forall j | 0 <= j < |l|
      ensures l[j].date == dates[j] && root + [l[j].date] in fs.dirs
      ensures SortedDirectoryByName(fs, root + [l[j].date], reverse) == Ok(l[j].entries)
      ensures |l[j].entries| > 0
    {
      var f := FolderOf(fs, root, dates[j], reverse);
      assert l[j] == f;
    }
    l
  }

  ghost function FolderOf(fs: FileSystem, root: Path, d: string, reverse: bool): (f: DateFolder)
    requires root in fs.dirs && d in fs.dirs[root]
    requires WellFormedTree(fs, root)
    ensures f.date == d && root + [d] in fs.dirs
    ensures SortedDirectoryByName(fs, root + [d], reverse) == Ok(f.entries)
    ensures |f.entries| > 0
  {
    var entries := SortedDirectoryByName(fs, root + [d], reverse).value;
    assert fs.dirs[root + [d]] != {};
    var e :| e in fs.dirs[root + [d]];
    assert e in entries;
    DateFolder(d, entries)
  }

  /** The date names of a layout, in order. */
  function Dates(l: seq<DateFolder>): (r: seq<string>)
    ensures |r| == |l| && forall j | 0 <= j < |l| :: r[j] == l[j].date
  {
    seq(|l|, j requires 0 <= j < |l| => l[j].date)
  }

  lemma LayoutDates(fs: FileSystem, root: Path, reverse: bool)
    requires WellFormedTree(fs, root)
    ensures Dates(LayoutOf(fs, root, reverse)) == SortedDirectoryByName(fs, root, reverse).value
  {
  }
}
