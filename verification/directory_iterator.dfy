/**
  src/repoManager/DirectoryIterator.py: a cursor over the repository tree
  `root/<date>/<time>_<prompt>`. The iterator takes a snapshot of the date
  folders (newest name first) when it is built, and then steps entry by
  entry, falling through to the neighbouring date folder when the current
  one is used up. The direction is a parameter of every step, not state.

  The Python object is mutated in place; here each operation maps a state
  record to a new state record and its return value. An operation that
  raises yields `Err` and no state.
 */
module DirectoryIterator {
  import opened Common
  import opened StringOrder
  import AlgoUtils
  import opened PathingUtils
  import opened RepoUtils
  import opened Models
  import opened Layout

  /** `_rewind_to_forward` starts from a date above every real date. */
  const ForwardSentinel: string := "9999-99-99"
  /** `_rewind_to_backward` starts from a date below every real date. */
  const BackwardSentinel: string := "0000-00-00"

  /** The fields of a `DirectoryIterator` object. */
  datatype IteratorState = IteratorState(
    pathToDirectories: Path,
    sortedDateDirectories: seq<string>,
    currentDate: Option<string>,
    currentTimePromptDirectories: Option<seq<string>>,
    currentTimePrompt: Option<string>)
  {
    /** The three cursor fields are all set, or all None (exhausted). */
    predicate Valid() {
      || (currentDate.Some? && currentTimePromptDirectories.Some? && currentTimePrompt.Some?)
      || (currentDate.None? && currentTimePromptDirectories.None? && currentTimePrompt.None?)
    }

    predicate Exhausted() {
      currentDate.None? && currentTimePromptDirectories.None? && currentTimePrompt.None?
    }
  }

  /** A state with its result, as the stepping methods return it. */
  type Step = (IteratorState, Option<ImagePromptDirectory>)

  /** `x` is the record for entry `name` of folder `date` in the repo at `root`. */
  predicate Describes(x: ImagePromptDirectory, root: Path, date: string, name: string) {
    && x.repo == Basename(root)
    && x.date == date
    && '_' !in x.time && '_' !in x.prompt
    && GenerateFileName(x.time, x.prompt) == name
  }

  /**
    `get_current_image_prompt_directory`: the record of the entry under the
    cursor, None when the cursor is unset, ValueError when the entry name does
    not split into exactly two halves at '_'.
   */
  function CurrentImagePromptDirectory(it: IteratorState): (r: Result<Option<ImagePromptDirectory>>)
    ensures it.currentTimePrompt.None? || it.currentDate.None? ==> r == Ok(None)
    ensures it.currentTimePrompt.Some? && it.currentDate.Some? ==>
              (r.Ok? <==> WellFormedName(it.currentTimePrompt.value))
    ensures it.currentTimePrompt.Some? && it.currentDate.Some? && r.Ok? ==>
              r.value.Some? && Describes(r.value.value, it.pathToDirectories, it.currentDate.value, it.currentTimePrompt.value)
    ensures r.Err? ==> r.error.ValueError?
  {
    if it.currentTimePrompt.Some? && it.currentDate.Some? then
      var halves :- SplitPair(it.currentTimePrompt.value);
      Ok(Some(ImagePromptDirectory(halves.1, Basename(it.pathToDirectories), it.currentDate.value, halves.0)))
    else
      Ok(None)
  }

  /**
    The neighbour search as the iterator calls it: the key may be None, and
    comparing None with a str raises TypeError as soon as the bisect looks
    at an element.
   */
  function Neighbour(key: Option<string>, names: Option<seq<string>>, direction: Direction): (r: Result<Option<nat>>)
    ensures key.Some? ==> r == Ok(NextFileIndex(key.value, names, direction))
    ensures key.None? ==> (r.Err? <==> names.Some? && |names.value| > 0)
    ensures key.None? && r.Err? ==> r.error == TypeError
    ensures r.Ok? && r.value.Some? ==> names.Some? && r.value.value < |names.value|
  {
    match key
    case Some(k) => Ok(NextFileIndex(k, names, direction))
    case None => if names.Some? && |names.value| > 0 then Err(TypeError) else Ok(None)
  }

  /** `_iterate_time_prompt`: the neighbouring entry within the current date folder. */
  function IterateTimePrompt(it: IteratorState, direction: Direction): (r: Result<Step>)
    ensures r.Ok? ==> r.value.0 == it.(currentTimePrompt := r.value.0.currentTimePrompt)
    ensures r.Ok? && r.value.1.Some? ==> r.value.0.currentTimePrompt.Some? && it.currentDate.Some?
  {
    var next :- Neighbour(it.currentTimePrompt, it.currentTimePromptDirectories, direction);
    match next
    case Some(i) =>
      var moved := it.(currentTimePrompt := Some(it.currentTimePromptDirectories.value[i]));
      var current :- CurrentImagePromptDirectory(moved);
      Ok((moved, current))
    case None =>
      Ok((it.(currentTimePrompt := None), None))
  }

  /**
    `_iterate_date`: the first-in-direction entry of the neighbouring date
    folder, or the exhausted state when there is no such folder. An empty
    folder raises IndexError.
   */
  function IterateDate(it: IteratorState, fs: FileSystem, direction: Direction): (r: Result<Step>)
    ensures r.Ok? ==> r.value.0.pathToDirectories == it.pathToDirectories
    ensures r.Ok? ==> r.value.0.sortedDateDirectories == it.sortedDateDirectories
    ensures r.Ok? ==> r.value.0.Valid()
    ensures r.Ok? ==> (r.value.1.None? <==> r.value.0.Exhausted())
  {
    var next :- Neighbour(it.currentDate, Some(it.sortedDateDirectories), direction);
    match next
    case Some(j) =>
      var nextDate := it.sortedDateDirectories[j];
      var entries :- ReverseSortedDirectoryByName(fs, it.pathToDirectories + [nextDate]);
      if |entries| == 0 then Err(IndexError)
      else
        var start := if direction != Backward then 0 else |entries| - 1;
        var moved := it.(currentDate := Some(nextDate),
                         currentTimePromptDirectories := Some(entries),
                         currentTimePrompt := Some(entries[start]));
        var current :- CurrentImagePromptDirectory(moved);
        Ok((moved, current))
    case None =>
      Ok((it.(currentDate := None, currentTimePromptDirectories := None, currentTimePrompt := None), None))
  }

  /**
    `get_next_time_prompt_directories`: the next entry in `direction`, or None
    once every entry is used up. The snapshot and the root never change; the
    result is None exactly when the iterator is exhausted, and exhaustion is
    absorbing. The `while` loop of the source runs its body at most once,
    because `_iterate_date` either finds an entry or exhausts the iterator.
   */
  function GetNextTimePromptDirectories(it: IteratorState, fs: FileSystem, direction: Direction): (r: Result<Step>)
    ensures r.Ok? ==> r.value.0.pathToDirectories == it.pathToDirectories
    ensures r.Ok? ==> r.value.0.sortedDateDirectories == it.sortedDateDirectories
    ensures it.Valid() && r.Ok? ==> r.value.0.Valid()
    ensures it.Valid() && r.Ok? ==> (r.value.1.None? <==> r.value.0.Exhausted())
    ensures it.Exhausted() ==> r == Ok((it, None))
  {
    var first :- IterateTimePrompt(it, direction);
    var (afterTimePrompt, candidate) := first;
    if afterTimePrompt.currentDate.Some? && candidate.None? then
      IterateDate(afterTimePrompt, fs, direction)
    else
      Ok(first)
  }

  /** `_rewind_to_forward`: place the cursor above every date, then step FORWARD once. */
  function RewindToForward(it: IteratorState, fs: FileSystem): (r: Result<IteratorState>)
    ensures r.Ok? ==> r.value.Valid()
    ensures r.Ok? ==> r.value.pathToDirectories == it.pathToDirectories
    ensures r.Ok? ==> r.value.sortedDateDirectories == it.sortedDateDirectories
  {
    var sentinel := it.(currentDate := Some(ForwardSentinel), currentTimePromptDirectories := Some([]), currentTimePrompt := Some(""));
    var step :- GetNextTimePromptDirectories(sentinel, fs, Forward);
    Ok(step.0)
  }

  /** `_rewind_to_backward`: place the cursor below every date, then step BACKWARD once. */
  function RewindToBackward(it: IteratorState, fs: FileSystem): (r: Result<IteratorState>)
    ensures r.Ok? ==> r.value.Valid()
    ensures r.Ok? ==> r.value.pathToDirectories == it.pathToDirectories
    ensures r.Ok? ==> r.value.sortedDateDirectories == it.sortedDateDirectories
  {
    var sentinel := it.(currentDate := Some(BackwardSentinel), currentTimePromptDirectories := Some([]), currentTimePrompt := Some(""));
    var step :- GetNextTimePromptDirectories(sentinel, fs, Backward);
    Ok(step.0)
  }

  /**
    `DirectoryIterator(pathToDirectories, startingDirectory, direction)`.
    The date snapshot is the root's listing, newest first; a missing root
    raises FileNotFoundError. A bookmark sets the cursor to its date and
    entry name as given, whether or not that entry exists, but its date
    folder must exist.
   */
  function NewDirectoryIterator(fs: FileSystem, pathToDirectories: Path, startingDirectory: Option<ImagePromptDirectory>,
                                direction: Direction): (r: Result<IteratorState>)
    ensures pathToDirectories !in fs.dirs ==> r == Err(FileNotFound(pathToDirectories))
    ensures r.Ok? ==> r.value.Valid() && r.value.pathToDirectories == pathToDirectories
    ensures r.Ok? ==> Ok(r.value.sortedDateDirectories) == ReverseSortedDirectoryByName(fs, pathToDirectories)
    ensures startingDirectory.Some? ==>
              var s := startingDirectory.value;
              (r.Ok? <==> pathToDirectories in fs.dirs && pathToDirectories + [s.date] in fs.dirs) &&
              (r.Ok? ==>
                 && r.value.currentDate == Some(s.date)
                 && Ok(r.value.currentTimePromptDirectories.value) == ReverseSortedDirectoryByName(fs, pathToDirectories + [s.date])
                 && r.value.currentTimePrompt == Some(GenerateFileName(s.time, s.prompt)))
  {
    var sortedDates :- ReverseSortedDirectoryByName(fs, pathToDirectories);
    match startingDirectory
    case Some(s) =>
      var startingPromptWithTime := GenerateFileName(s.time, s.prompt);
      var entries :- ReverseSortedDirectoryByName(fs, pathToDirectories + [s.date]);
      Ok(IteratorState(pathToDirectories, sortedDates, Some(s.date), Some(entries), Some(startingPromptWithTime)))
    case None =>
      var unset := IteratorState(pathToDirectories, sortedDates, None, None, None);
      if direction == Backward then RewindToBackward(unset, fs) else RewindToForward(unset, fs)
  }

  /** Calling `next` up to `n` times from `it`, keeping the records returned up to the first None. */
  function Collect(next: IteratorState -> Result<Step>, it: IteratorState, n: nat): (r: Result<seq<ImagePromptDirectory>>)
    ensures r.Ok? ==> |r.value| <= n
    decreases n
  {
    if n == 0 then Ok([])
    else
      var step :- next(it);
      match step.1
      case None => Ok([])
      case Some(x) =>
        var rest :- Collect(next, step.0, n - 1);
        Ok([x] + rest)
  }

  /** `get_next_time_prompt_directories` in one direction, as a step function. */
  function NextIn(fs: FileSystem, direction: Direction): IteratorState -> Result<Step> {
    it => GetNextTimePromptDirectories(it, fs, direction)
  }

  /**
    A caller stepping `n` times in one direction: the records returned, up to
    the first None. This is how paging code consumes the iterator.
   */
  function Drain(it: IteratorState, fs: FileSystem, direction: Direction, n: nat): (r: Result<seq<ImagePromptDirectory>>)
    ensures r.Ok? ==> |r.value| <= n
  {
    Collect(NextIn(fs, direction), it, n)
  }

  // ---------------------------------------------------------------------
  // One step, in general
  // ---------------------------------------------------------------------

  /**
    Within a date, a step moves to the neighbour the search finds in the
    current listing, keeping the date and the listing.
   */
  lemma StepWithinDate(it: IteratorState, fs: FileSystem, direction: Direction, i: nat)
    requires it.Valid() && it.currentDate.Some?
    requires NextFileIndex(it.currentTimePrompt.value, it.currentTimePromptDirectories, direction) == Some(i)
    ensures var r := GetNextTimePromptDirectories(it, fs, direction);
            var name := it.currentTimePromptDirectories.value[i];
            (r.Ok? <==> WellFormedName(name)) &&
            (r.Ok? ==>
               r.value.0 == it.(currentTimePrompt := Some(name)) &&
               r.value.1.Some? && Describes(r.value.1.value, it.pathToDirectories, it.currentDate.value, name))
  {
  }

  /** `_iterate_date` onto date folder j, whose listing is `entries`, moves to the folder's first-in-direction entry. */
  lemma IterateDateLands(it: IteratorState, fs: FileSystem, direction: Direction, j: nat, entries: seq<string>)
    requires it.currentDate.Some?
    requires NextFileIndex(it.currentDate.value, Some(it.sortedDateDirectories), direction) == Some(j)
    requires ReverseSortedDirectoryByName(fs, it.pathToDirectories + [it.sortedDateDirectories[j]]) == Ok(entries)
    requires |entries| > 0
    requires WellFormedName(if direction == Forward then entries[0] else entries[|entries| - 1])
    ensures var r := IterateDate(it, fs, direction);
            var date := it.sortedDateDirectories[j];
            var name := if direction == Forward then entries[0] else entries[|entries| - 1];
            var moved := it.(currentDate := Some(date), currentTimePromptDirectories := Some(entries),
                             currentTimePrompt := Some(name));
            r.Ok? && r.value.0 == moved && Ok(r.value.1) == CurrentImagePromptDirectory(moved)
  {
  }

  /**
    Only when the current listing has no neighbour does a step move to the
    neighbouring date, reload its listing and take its first-in-direction
    entry.
   */
  lemma StepAcrossDate(it: IteratorState, fs: FileSystem, direction: Direction, j: nat, entries: seq<string>)
    requires it.Valid() && it.currentDate.Some?
    requires NextFileIndex(it.currentTimePrompt.value, it.currentTimePromptDirectories, direction) == None
    requires NextFileIndex(it.currentDate.value, Some(it.sortedDateDirectories), direction) == Some(j)
    requires ReverseSortedDirectoryByName(fs, it.pathToDirectories + [it.sortedDateDirectories[j]]) == Ok(entries)
    requires |entries| > 0
    requires WellFormedName(if direction == Forward then entries[0] else entries[|entries| - 1])
    ensures var r := GetNextTimePromptDirectories(it, fs, direction);
            var date := it.sortedDateDirectories[j];
            var name := if direction == Forward then entries[0] else entries[|entries| - 1];
            r.Ok? &&
            r.value.0 == it.(currentDate := Some(date), currentTimePromptDirectories := Some(entries),
                             currentTimePrompt := Some(name)) &&
            r.value.1.Some? && Describes(r.value.1.value, it.pathToDirectories, date, name)
  {
    IterateDateLands(it.(currentTimePrompt := None), fs, direction, j, entries);
  }

  /**
    Moving to a neighbouring date raises FileNotFoundError when its folder is
    missing and IndexError when it is empty.
   */
  lemma StepAcrossDateFails(it: IteratorState, fs: FileSystem, direction: Direction, j: nat)
    requires it.Valid() && it.currentDate.Some?
    requires NextFileIndex(it.currentTimePrompt.value, it.currentTimePromptDirectories, direction) == None
    requires NextFileIndex(it.currentDate.value, Some(it.sortedDateDirectories), direction) == Some(j)
    ensures var folder := it.pathToDirectories + [it.sortedDateDirectories[j]];
            var r := GetNextTimePromptDirectories(it, fs, direction);
            (folder !in fs.dirs ==> r == Err(FileNotFound(folder))) &&
            (folder in fs.dirs && fs.dirs[folder] == {} ==> r == Err(IndexError))
  {
    var folder := it.pathToDirectories + [it.sortedDateDirectories[j]];
    if folder in fs.dirs && fs.dirs[folder] == {} {
      assert |ReverseSortedDirectoryByName(fs, folder).value| == 0;
    }
  }

  /** With no neighbouring entry and no neighbouring date, a step exhausts the iterator. */
  lemma StepExhausts(it: IteratorState, fs: FileSystem, direction: Direction)
    requires it.Valid() && it.currentDate.Some?
    requires NextFileIndex(it.currentTimePrompt.value, it.currentTimePromptDirectories, direction) == None
    requires NextFileIndex(it.currentDate.value, Some(it.sortedDateDirectories), direction) == None
    ensures GetNextTimePromptDirectories(it, fs, direction) ==
              Ok((it.(currentDate := None, currentTimePromptDirectories := None, currentTimePrompt := None), None))
  {
  }

  /** Once exhausted, every later step in either direction returns None and changes nothing. */
  lemma {:induction false} ExhaustionAbsorbing(it: IteratorState, fs: FileSystem, direction: Direction, n: nat)
    requires it.Exhausted()
    ensures Drain(it, fs, direction, n) == Ok([])
  {
  }

  // ---------------------------------------------------------------------
  // Construction
  // ---------------------------------------------------------------------

  /** On an empty repo the iterator is built exhausted: no current entry, and every step returns None. */
  lemma EmptyRepo(fs: FileSystem, root: Path, direction: Direction)
    requires root in fs.dirs && fs.dirs[root] == {}
    ensures NewDirectoryIterator(fs, root, None, direction).Ok?
    ensures var it := NewDirectoryIterator(fs, root, None, direction).value;
            it.Exhausted() &&
            CurrentImagePromptDirectory(it) == Ok(None) &&
            GetNextTimePromptDirectories(it, fs, Forward) == Ok((it, None)) &&
            GetNextTimePromptDirectories(it, fs, Backward) == Ok((it, None))
  {
    assert ReverseSortedDirectoryByName(fs, root).value == [];
  }

  /** The layout the iterator walks: the tree with every listing newest first. */
  ghost function Log(fs: FileSystem, root: Path): seq<DateFolder>
    requires WellFormedTree(fs, root)
  {
    LayoutOf(fs, root, true)
  }

  /** Folder `f` exists under `root`, holds exactly the entries of `f`, listed newest first. */
  ghost predicate FolderHolds(fs: FileSystem, root: Path, f: DateFolder) {
    && root + [f.date] in fs.dirs
    && fs.dirs[root + [f.date]] == Elements(f.entries)
    && StrictlyDescending(f.entries)
  }

  /**
    Every folder of `l` holds exactly its entries, newest first, at least
    one, and every entry name splits. Stated folder by folder (rather than
    with a quantifier) so that its facts come into play only where a proof
    asks for them through FoldersHoldAt.
   */
  ghost predicate FoldersHold(fs: FileSystem, root: Path, l: seq<DateFolder>) {
    |l| == 0 ||
    (&& FolderHolds(fs, root, l[0])
     && |l[0].entries| > 0
     && (forall k | 0 <= k < |l[0].entries| :: WellFormedName(l[0].entries[k]))
     && FoldersHold(fs, root, l[1..]))
  }

  lemma {:induction false} FoldersHoldAt(fs: FileSystem, root: Path, l: seq<DateFolder>, j: int)
    requires FoldersHold(fs, root, l) && 0 <= j < |l|
    ensures FolderHolds(fs, root, l[j]) && |l[j].entries| > 0
    ensures forall k | 0 <= k < |l[j].entries| :: WellFormedName(l[j].entries[k])
  {
    if j > 0 {
      FoldersHoldAt(fs, root, l[1..], j - 1);
    }
  }

  lemma {:induction false} FoldersHoldNoEmpty(fs: FileSystem, root: Path, l: seq<DateFolder>)
    requires FoldersHold(fs, root, l)
    ensures NoEmptyFolder(l)
  {
    forall j | 0 <= j < |l|
      ensures |l[j].entries| > 0
    {
      FoldersHoldAt(fs, root, l, j);
    }
  }

  /**
    What the iterator reads from the tree, as a layout `l`: the root holds
    exactly the folders of `l`, newest first, each folder holds exactly its
    entries, newest first, no folder is empty and every entry name splits.
   */
  ghost predicate IsLog(fs: FileSystem, root: Path, l: seq<DateFolder>) {
    && root in fs.dirs
    && fs.dirs[root] == Elements(Dates(l))
    && ChainDescending(Dates(l))
    && FoldersHold(fs, root, l)
  }

  /** The snapshot the iterator takes of a log is its folder names. */
  lemma SnapshotOfLog(fs: FileSystem, root: Path, l: seq<DateFolder>)
    requires IsLog(fs, root, l)
    ensures ReverseSortedDirectoryByName(fs, root) == Ok(Dates(l))
  {
    ChainDescendingStrict(Dates(l));
    ReverseListingUnique(fs, root, Dates(l));
  }

  /** The listing the iterator loads for folder `j` of a log is its entries. */
  lemma ListingOfLog(fs: FileSystem, root: Path, l: seq<DateFolder>, j: int)
    requires IsLog(fs, root, l) && 0 <= j < |l|
    ensures ReverseSortedDirectoryByName(fs, root + [l[j].date]) == Ok(l[j].entries)
    ensures StrictlyDescending(l[j].entries) && |l[j].entries| > 0
    ensures forall k | 0 <= k < |l[j].entries| :: WellFormedName(l[j].entries[k])
  {
    FoldersHoldAt(fs, root, l, j);
    ReverseListingUnique(fs, root + [l[j].date], l[j].entries);
  }

  /** Folder facts stated with a quantifier give FoldersHold. */
  lemma {:induction false} FoldersHoldFrom(fs: FileSystem, root: Path, l: seq<DateFolder>)
    requires forall j | 0 <= j < |l| :: FolderHolds(fs, root, l[j]) && |l[j].entries| > 0
    requires forall j, k | IsPosition(l, j, k) :: WellFormedName(l[j].entries[k])
    ensures FoldersHold(fs, root, l)
  {
    if |l| > 0 {
      assert forall k | 0 <= k < |l[0].entries| :: IsPosition(l, 0, k);
      var rest := l[1..];
      forall j, k | IsPosition(rest, j, k)
        ensures WellFormedName(rest[j].entries[k])
      {
        assert IsPosition(l, j + 1, k);
      }
      FoldersHoldFrom(fs, root, rest);
    }
  }

  /** The dates of the log are exactly the folders under the root. */
  lemma LogDates(fs: FileSystem, root: Path)
    requires WellFormedTree(fs, root)
    ensures fs.dirs[root] == Elements(Dates(Log(fs, root)))
    ensures StrictlyDescending(Dates(Log(fs, root)))
  {
    LayoutDates(fs, root, true);
    var dates := Dates(Log(fs, root));
    forall d
      ensures d in fs.dirs[root] <==> d in dates
    {
      if d in dates {
        var j :| 0 <= j < |dates| && dates[j] == d;
      }
    }
  }

  /** Folder `j` of the log holds exactly the entries of its directory, all well formed. */
  lemma LogFolder(fs: FileSystem, root: Path, j: int)
    requires WellFormedTree(fs, root) && WellFormedNames(fs, root)
    requires 0 <= j < |Log(fs, root)|
    ensures FolderHolds(fs, root, Log(fs, root)[j]) && |Log(fs, root)[j].entries| > 0
    ensures forall k | 0 <= k < |Log(fs, root)[j].entries| :: WellFormedName(Log(fs, root)[j].entries[k])
  {
    var f := Log(fs, root)[j];
    var dir := root + [f.date];
    assert ReverseSortedDirectoryByName(fs, dir) == Ok(f.entries);
    assert f.date in fs.dirs[root];
    forall e
      ensures e in fs.dirs[dir] <==> e in f.entries
    {
      if e in f.entries {
        var k :| 0 <= k < |f.entries| && f.entries[k] == e;
      }
    }
    forall k | 0 <= k < |f.entries|
      ensures WellFormedName(f.entries[k])
    {
      assert f.entries[k] in fs.dirs[dir];
    }
  }

  /** A well-formed tree is read as its log. */
  lemma LogIsLog(fs: FileSystem, root: Path)
    requires WellFormedTree(fs, root) && WellFormedNames(fs, root)
    ensures IsLog(fs, root, Log(fs, root))
  {
    var l := Log(fs, root);
    LogDates(fs, root);
    StrictChainDescending(Dates(l));
    forall j | 0 <= j < |l|
      ensures FolderHolds(fs, root, l[j]) && |l[j].entries| > 0
      ensures forall k | 0 <= k < |l[j].entries| :: WellFormedName(l[j].entries[k])
    {
      LogFolder(fs, root, j);
    }
    FoldersHoldFrom(fs, root, l);
  }

  /** The iterator state with the cursor on entry `k` of folder `j`. */
  function StateAt(root: Path, l: seq<DateFolder>, j: int, k: int): (it: IteratorState)
    requires IsPosition(l, j, k)
    ensures it.Valid() && it.pathToDirectories == root && it.sortedDateDirectories == Dates(l)
    ensures it.currentDate == Some(l[j].date) && it.currentTimePrompt == Some(l[j].entries[k])
  {
    IteratorState(root, Dates(l), Some(l[j].date), Some(l[j].entries), Some(l[j].entries[k]))
  }

  /**
    Unseeded FORWARD construction puts the cursor on the first entry of the
    newest date, provided every date name sorts below the sentinel.
   */
  lemma RewindForwardLands(fs: FileSystem, root: Path, l: seq<DateFolder>)
    requires IsLog(fs, root, l) && |l| > 0
    requires forall j | 0 <= j < |l| :: LexLt(l[j].date, ForwardSentinel)
    ensures NewDirectoryIterator(fs, root, None, Forward) == Ok(StateAt(root, l, 0, 0))
  {
    var dates := Dates(l);
    SnapshotOfLog(fs, root, l);
    ListingOfLog(fs, root, l, 0);
    ChainDescendingStrict(dates);
    StrictlyDescendingIsDescending(dates);
    AlgoUtils.ForwardFromAboveAll(ForwardSentinel, dates);
    assert WellFormedName(l[0].entries[0]);
    var unset := IteratorState(root, dates, None, None, None);
    var sentinel := unset.(currentDate := Some(ForwardSentinel), currentTimePromptDirectories := Some([]), currentTimePrompt := Some(""));
    StepAcrossDate(sentinel, fs, Forward, 0, l[0].entries);
  }

  /**
    Unseeded BACKWARD construction puts the cursor on the last entry of the
    oldest date, provided every date name sorts above the sentinel.
   */
  lemma RewindBackwardLands(fs: FileSystem, root: Path, l: seq<DateFolder>)
    requires IsLog(fs, root, l) && |l| > 0
    requires forall j | 0 <= j < |l| :: LexLt(BackwardSentinel, l[j].date)
    ensures |l[|l| - 1].entries| > 0
    ensures NewDirectoryIterator(fs, root, None, Backward) ==
              Ok(StateAt(root, l, |l| - 1, |l[|l| - 1].entries| - 1))
  {
    var dates := Dates(l);
    var last := |l| - 1;
    SnapshotOfLog(fs, root, l);
    ListingOfLog(fs, root, l, last);
    ChainDescendingStrict(dates);
    StrictlyDescendingIsDescending(dates);
    AlgoUtils.BackwardFromBelowAll(BackwardSentinel, dates);
    assert WellFormedName(l[last].entries[|l[last].entries| - 1]);
    var unset := IteratorState(root, dates, None, None, None);
    var sentinel := unset.(currentDate := Some(BackwardSentinel), currentTimePromptDirectories := Some([]), currentTimePrompt := Some(""));
    StepAcrossDate(sentinel, fs, Backward, last, l[last].entries);
  }

  /** A bookmark that names an existing entry puts the cursor on that entry, whatever the direction. */
  lemma BookmarkLands(fs: FileSystem, root: Path, l: seq<DateFolder>, s: ImagePromptDirectory, j: int, k: int, direction: Direction)
    requires IsLog(fs, root, l) && IsPosition(l, j, k)
    requires s.date == l[j].date && GenerateFileName(s.time, s.prompt) == l[j].entries[k]
    ensures NewDirectoryIterator(fs, root, Some(s), direction) == Ok(StateAt(root, l, j, k))
  {
    SnapshotOfLog(fs, root, l);
    ListingOfLog(fs, root, l, j);
  }

  // ---------------------------------------------------------------------
  // Walking the log
  // ---------------------------------------------------------------------

  /**
    The iterator at entry (j, k) steps onto entry (q0, q1), the neighbouring
    entry of the log in `direction`, and reports it.
   */
  ghost predicate StepLands(fs: FileSystem, direction: Direction, root: Path, l: seq<DateFolder>, j: int, k: int, q0: int, q1: int)
    requires IsPosition(l, j, k)
  {
    && IsPosition(l, q0, q1)
    && (if direction == Forward then Succ(l, j, k) else Pred(l, j, k)) == Some((q0, q1))
    && var r := GetNextTimePromptDirectories(StateAt(root, l, j, k), fs, direction);
       r.Ok? && r.value.0 == StateAt(root, l, q0, q1) && r.value.1.Some? &&
       Describes(r.value.1.value, root, l[q0].date, l[q0].entries[q1])
  }

  /** The iterator at entry (j, k), the last entry of the log in `direction`, steps off the log: it is exhausted and reports None. */
  ghost predicate StepEnds(fs: FileSystem, direction: Direction, root: Path, l: seq<DateFolder>, j: int, k: int)
    requires IsPosition(l, j, k)
  {
    && (if direction == Forward then Succ(l, j, k) else Pred(l, j, k)) == None
    && var r := GetNextTimePromptDirectories(StateAt(root, l, j, k), fs, direction);
       r.Ok? && r.value.0.Exhausted() && r.value.1.None?
  }

  /**
    A step off the end of folder j's listing onto the neighbouring folder q0
    lands on that folder's first-in-direction entry q1.
   */
  lemma AcrossLands(fs: FileSystem, direction: Direction, root: Path, l: seq<DateFolder>, j: int, k: int, q0: int, q1: int)
    requires IsPosition(l, j, k) && IsPosition(l, q0, q1)
    requires (if direction == Forward then Succ(l, j, k) else Pred(l, j, k)) == Some((q0, q1))
    requires q1 == if direction == Forward then 0 else |l[q0].entries| - 1
    requires NextFileIndex(l[j].entries[k], Some(l[j].entries), direction) == None
    requires NextFileIndex(l[j].date, Some(Dates(l)), direction) == Some(q0)
    requires ReverseSortedDirectoryByName(fs, root + [l[q0].date]) == Ok(l[q0].entries)
    requires WellFormedName(l[q0].entries[q1])
    ensures StepLands(fs, direction, root, l, j, k, q0, q1)
  {
    StepAcrossDate(StateAt(root, l, j, k), fs, direction, q0, l[q0].entries);
  }

  /** A FORWARD step inside a folder. */
  lemma StepForwardWithin(fs: FileSystem, root: Path, l: seq<DateFolder>, j: int, k: int)
    requires IsLog(fs, root, l) && IsPosition(l, j, k) && k + 1 < |l[j].entries|
    ensures StepLands(fs, Forward, root, l, j, k, j, k + 1)
  {
    FoldersHoldAt(fs, root, l, j);
    AlgoUtils.NextStringIndexOfPresent(l[j].entries, k);
    assert WellFormedName(l[j].entries[k + 1]);
    StepWithinDate(StateAt(root, l, j, k), fs, Forward, k + 1);
  }

  /** A FORWARD step off the last entry of a folder that is not the last folder. */
  lemma StepForwardAcross(fs: FileSystem, root: Path, l: seq<DateFolder>, j: int, k: int)
    requires IsLog(fs, root, l) && IsPosition(l, j, k) && k + 1 == |l[j].entries| && j + 1 < |l|
    ensures |l[j + 1].entries| > 0
    ensures StepLands(fs, Forward, root, l, j, k, j + 1, 0)
  {
    FoldersHoldAt(fs, root, l, j);
    AlgoUtils.NextStringIndexOfPresent(l[j].entries, k);
    ChainDescendingStrict(Dates(l));
    AlgoUtils.NextStringIndexOfPresent(Dates(l), j);
    ListingOfLog(fs, root, l, j + 1);
    assert WellFormedName(l[j + 1].entries[0]);
    AcrossLands(fs, Forward, root, l, j, k, j + 1, 0);
  }

  /** A FORWARD step off the very last entry exhausts the iterator. */
  lemma StepForwardLast(fs: FileSystem, root: Path, l: seq<DateFolder>, j: int, k: int)
    requires IsLog(fs, root, l) && IsPosition(l, j, k) && k + 1 == |l[j].entries| && j + 1 == |l|
    ensures StepEnds(fs, Forward, root, l, j, k)
  {
    FoldersHoldAt(fs, root, l, j);
    AlgoUtils.NextStringIndexOfPresent(l[j].entries, k);
    ChainDescendingStrict(Dates(l));
    AlgoUtils.NextStringIndexOfPresent(Dates(l), j);
    StepExhausts(StateAt(root, l, j, k), fs, Forward);
  }

  /** A BACKWARD step inside a folder. */
  lemma StepBackwardWithin(fs: FileSystem, root: Path, l: seq<DateFolder>, j: int, k: int)
    requires IsLog(fs, root, l) && IsPosition(l, j, k) && k > 0
    ensures StepLands(fs, Backward, root, l, j, k, j, k - 1)
  {
    FoldersHoldAt(fs, root, l, j);
    AlgoUtils.NextStringIndexOfPresent(l[j].entries, k);
    assert WellFormedName(l[j].entries[k - 1]);
    StepWithinDate(StateAt(root, l, j, k), fs, Backward, k - 1);
  }

  /** A BACKWARD step off the first entry of a folder that is not the first folder. */
  lemma StepBackwardAcross(fs: FileSystem, root: Path, l: seq<DateFolder>, j: int, k: int)
    requires IsLog(fs, root, l) && IsPosition(l, j, k) && k == 0 && j > 0
    ensures |l[j - 1].entries| > 0
    ensures StepLands(fs, Backward, root, l, j, k, j - 1, |l[j - 1].entries| - 1)
  {
    FoldersHoldAt(fs, root, l, j);
    AlgoUtils.NextStringIndexOfPresent(l[j].entries, k);
    ChainDescendingStrict(Dates(l));
    AlgoUtils.NextStringIndexOfPresent(Dates(l), j);
    ListingOfLog(fs, root, l, j - 1);
    var last := |l[j - 1].entries| - 1;
    assert WellFormedName(l[j - 1].entries[last]);
    AcrossLands(fs, Backward, root, l, j, k, j - 1, last);
  }

  /** A BACKWARD step off the very first entry exhausts the iterator. */
  lemma StepBackwardFirst(fs: FileSystem, root: Path, l: seq<DateFolder>, j: int, k: int)
    requires IsLog(fs, root, l) && IsPosition(l, j, k) && k == 0 && j == 0
    ensures StepEnds(fs, Backward, root, l, j, k)
  {
    FoldersHoldAt(fs, root, l, j);
    AlgoUtils.NextStringIndexOfPresent(l[j].entries, k);
    ChainDescendingStrict(Dates(l));
    AlgoUtils.NextStringIndexOfPresent(Dates(l), j);
    StepExhausts(StateAt(root, l, j, k), fs, Backward);
  }

  /**
    `next` takes the cursor at entry (j, k) one entry further along the log
    (toward the end when `forward`, toward the start otherwise) and reports
    that entry, or reports None at the end.
   */
  ghost predicate StepsAlong(next: IteratorState -> Result<Step>, root: Path, l: seq<DateFolder>, j: int, k: int, forward: bool)
    requires IsPosition(l, j, k)
  {
    var r := next(StateAt(root, l, j, k));
    match (if forward then Succ(l, j, k) else Pred(l, j, k))
    case Some(q) =>
      IsPosition(l, q.0, q.1) &&
      r.Ok? && r.value.0 == StateAt(root, l, q.0, q.1) && r.value.1.Some? &&
      Describes(r.value.1.value, root, l[q.0].date, l[q.0].entries[q.1])
    case None =>
      r.Ok? && r.value.1.None?
  }

  /** The iterator steps FORWARD along the log from every position. */
  lemma IteratorStepsForwardEverywhere(fs: FileSystem, root: Path, l: seq<DateFolder>)
    requires IsLog(fs, root, l)
    ensures forall j, k {:trigger StepsAlong(NextIn(fs, Forward), root, l, j, k, true)} | IsPosition(l, j, k) ::
              StepsAlong(NextIn(fs, Forward), root, l, j, k, true)
  {
    forall j, k | IsPosition(l, j, k)
      ensures StepsAlong(NextIn(fs, Forward), root, l, j, k, true)
    {
      IteratorStepsForward(fs, root, l, j, k);
    }
  }

  /** The iterator steps BACKWARD along the log from every position. */
  lemma IteratorStepsBackwardEverywhere(fs: FileSystem, root: Path, l: seq<DateFolder>)
    requires IsLog(fs, root, l)
    ensures forall j, k {:trigger StepsAlong(NextIn(fs, Backward), root, l, j, k, false)} | IsPosition(l, j, k) ::
              StepsAlong(NextIn(fs, Backward), root, l, j, k, false)
  {
    forall j, k | IsPosition(l, j, k)
      ensures StepsAlong(NextIn(fs, Backward), root, l, j, k, false)
    {
      IteratorStepsBackward(fs, root, l, j, k);
    }
  }

  /** A step of the iterator that lands on the neighbouring position (q0, q1) walks along the log. */
  lemma StepsTo(fs: FileSystem, direction: Direction, root: Path, l: seq<DateFolder>, j: int, k: int, q0: int, q1: int)
    requires IsPosition(l, j, k) && StepLands(fs, direction, root, l, j, k, q0, q1)
    ensures StepsAlong(NextIn(fs, direction), root, l, j, k, direction == Forward)
  {
    var it := StateAt(root, l, j, k);
    assert NextIn(fs, direction)(it) == GetNextTimePromptDirectories(it, fs, direction);
  }

  /** A step of the iterator off the end of the log that reports None walks along the log. */
  lemma StepsToEnd(fs: FileSystem, direction: Direction, root: Path, l: seq<DateFolder>, j: int, k: int)
    requires IsPosition(l, j, k) && StepEnds(fs, direction, root, l, j, k)
    ensures StepsAlong(NextIn(fs, direction), root, l, j, k, direction == Forward)
  {
    var it := StateAt(root, l, j, k);
    assert NextIn(fs, direction)(it) == GetNextTimePromptDirectories(it, fs, direction);
  }

  /** The iterator steps FORWARD along the log. */
  lemma IteratorStepsForward(fs: FileSystem, root: Path, l: seq<DateFolder>, j: int, k: int)
    requires IsLog(fs, root, l) && IsPosition(l, j, k)
    ensures StepsAlong(NextIn(fs, Forward), root, l, j, k, true)
  {
    if k + 1 < |l[j].entries| {
      StepsForwardWithin(fs, root, l, j, k);
    } else if j + 1 < |l| {
      StepsForwardAcross(fs, root, l, j, k);
    } else {
      StepsForwardLast(fs, root, l, j, k);
    }
  }

  /** The iterator steps BACKWARD along the log. */
  lemma IteratorStepsBackward(fs: FileSystem, root: Path, l: seq<DateFolder>, j: int, k: int)
    requires IsLog(fs, root, l) && IsPosition(l, j, k)
    ensures StepsAlong(NextIn(fs, Backward), root, l, j, k, false)
  {
    if k > 0 {
      StepsBackwardWithin(fs, root, l, j, k);
    } else if j > 0 {
      StepsBackwardAcross(fs, root, l, j, k);
    } else {
      StepsBackwardFirst(fs, root, l, j, k);
    }
  }

  lemma StepsForwardWithin(fs: FileSystem, root: Path, l: seq<DateFolder>, j: int, k: int)
    requires IsLog(fs, root, l) && IsPosition(l, j, k) && k + 1 < |l[j].entries|
    ensures StepsAlong(NextIn(fs, Forward), root, l, j, k, true)
  {
    StepForwardWithin(fs, root, l, j, k);
    StepsTo(fs, Forward, root, l, j, k, j, k + 1);
  }

  lemma StepsForwardAcross(fs: FileSystem, root: Path, l: seq<DateFolder>, j: int, k: int)
    requires IsLog(fs, root, l) && IsPosition(l, j, k) && k + 1 == |l[j].entries| && j + 1 < |l|
    ensures StepsAlong(NextIn(fs, Forward), root, l, j, k, true)
  {
    StepForwardAcross(fs, root, l, j, k);
    StepsTo(fs, Forward, root, l, j, k, j + 1, 0);
  }

  lemma StepsForwardLast(fs: FileSystem, root: Path, l: seq<DateFolder>, j: int, k: int)
    requires IsLog(fs, root, l) && IsPosition(l, j, k) && k + 1 == |l[j].entries| && j + 1 == |l|
    ensures StepsAlong(NextIn(fs, Forward), root, l, j, k, true)
  {
    StepForwardLast(fs, root, l, j, k);
    StepsToEnd(fs, Forward, root, l, j, k);
  }

  lemma StepsBackwardWithin(fs: FileSystem, root: Path, l: seq<DateFolder>, j: int, k: int)
    requires IsLog(fs, root, l) && IsPosition(l, j, k) && k > 0
    ensures StepsAlong(NextIn(fs, Backward), root, l, j, k, false)
  {
    StepBackwardWithin(fs, root, l, j, k);
    StepsTo(fs, Backward, root, l, j, k, j, k - 1);
  }

  lemma StepsBackwardAcross(fs: FileSystem, root: Path, l: seq<DateFolder>, j: int, k: int)
    requires IsLog(fs, root, l) && IsPosition(l, j, k) && k == 0 && j > 0
    ensures StepsAlong(NextIn(fs, Backward), root, l, j, k, false)
  {
    var last := |l[j - 1].entries| - 1;
    StepBackwardAcross(fs, root, l, j, k);
    StepsTo(fs, Backward, root, l, j, k, j - 1, last);
  }

  lemma StepsBackwardFirst(fs: FileSystem, root: Path, l: seq<DateFolder>, j: int, k: int)
    requires IsLog(fs, root, l) && IsPosition(l, j, k) && k == 0 && j == 0
    ensures StepsAlong(NextIn(fs, Backward), root, l, j, k, false)
  {
    StepBackwardFirst(fs, root, l, j, k);
    StepsToEnd(fs, Backward, root, l, j, k);
  }

  /** Records matching the log from index p + 1 on, after one matching index p. */
  lemma ConsForward(x: ImagePromptDirectory, rest: seq<ImagePromptDirectory>, root: Path, flat: seq<(string, string)>, p: int)
    requires 0 <= p && p + 1 + |rest| <= |flat|
    requires Describes(x, root, flat[p].0, flat[p].1)
    requires forall i | 0 <= i < |rest| :: Describes(rest[i], root, flat[p + 1 + i].0, flat[p + 1 + i].1)
    ensures forall i | 0 <= i < |rest| + 1 :: Describes(([x] + rest)[i], root, flat[p + i].0, flat[p + i].1)
  {
    forall i | 0 <= i < |rest| + 1
      ensures Describes(([x] + rest)[i], root, flat[p + i].0, flat[p + i].1)
    {
      if i > 0 {
        assert ([x] + rest)[i] == rest[i - 1];
      }
    }
  }

  /** Records matching the log from index p - 1 back, after one matching index p. */
  lemma ConsBackward(x: ImagePromptDirectory, rest: seq<ImagePromptDirectory>, root: Path, flat: seq<(string, string)>, p: int)
    requires p < |flat| && p - |rest| >= 0
    requires Describes(x, root, flat[p].0, flat[p].1)
    requires forall i | 0 <= i < |rest| :: Describes(rest[i], root, flat[p - 1 - i].0, flat[p - 1 - i].1)
    ensures forall i | 0 <= i < |rest| + 1 :: Describes(([x] + rest)[i], root, flat[p - i].0, flat[p - i].1)
  {
    forall i | 0 <= i < |rest| + 1
      ensures Describes(([x] + rest)[i], root, flat[p - i].0, flat[p - i].1)
    {
      if i > 0 {
        assert ([x] + rest)[i] == rest[i - 1];
      }
    }
  }

  /**
    `r` is what `n` forward steps from entry (j, k), at log index p, should
    collect: the next min(n, |log| - p - 1) entries, in log order.
   */
  ghost predicate FollowsForward(r: Result<seq<ImagePromptDirectory>>, root: Path, l: seq<DateFolder>, j: int, k: int, n: nat)
    requires IsPosition(l, j, k)
  {
    var flat := Flat(l);
    var p := Offset(l, j) + k;
    p < |flat| &&
    r.Ok? && |r.value| == Min(n, |flat| - p - 1) &&
    forall i | 0 <= i < |r.value| :: Describes(r.value[i], root, flat[p + 1 + i].0, flat[p + 1 + i].1)
  }

  /**
    `r` is what `n` backward steps from entry (j, k), at log index p, should
    collect: the previous min(n, p) entries, nearest first.
   */
  ghost predicate FollowsBackward(r: Result<seq<ImagePromptDirectory>>, root: Path, l: seq<DateFolder>, j: int, k: int, n: nat)
    requires IsPosition(l, j, k)
  {
    var flat := Flat(l);
    var p := Offset(l, j) + k;
    p < |flat| &&
    r.Ok? && |r.value| == Min(n, p) &&
    forall i | 0 <= i < |r.value| :: Describes(r.value[i], root, flat[p - 1 - i].0, flat[p - 1 - i].1)
  }

  /** A record for the entry at log index p + 1, then records following it, follow p. */
  lemma FollowsForwardCons(x: ImagePromptDirectory, rest: Result<seq<ImagePromptDirectory>>, root: Path, l: seq<DateFolder>,
                           j: int, k: int, q0: int, q1: int, n: nat)
    requires IsPosition(l, j, k) && IsPosition(l, q0, q1) && n > 0
    requires Offset(l, q0) + q1 == Offset(l, j) + k + 1
    requires Describes(x, root, l[q0].date, l[q0].entries[q1])
    requires FollowsForward(rest, root, l, q0, q1, n - 1)
    ensures FollowsForward(Ok([x] + rest.value), root, l, j, k, n)
  {
    FlatAt(l, q0, q1);
    ConsForward(x, rest.value, root, Flat(l), Offset(l, j) + k + 1);
  }

  /** A record for the entry at log index p - 1, then records preceding it, follow p backward. */
  lemma FollowsBackwardCons(x: ImagePromptDirectory, rest: Result<seq<ImagePromptDirectory>>, root: Path, l: seq<DateFolder>,
                            j: int, k: int, q0: int, q1: int, n: nat)
    requires IsPosition(l, j, k) && IsPosition(l, q0, q1) && n > 0
    requires Offset(l, q0) + q1 + 1 == Offset(l, j) + k
    requires Describes(x, root, l[q0].date, l[q0].entries[q1])
    requires FollowsBackward(rest, root, l, q0, q1, n - 1)
    ensures FollowsBackward(Ok([x] + rest.value), root, l, j, k, n)
  {
    FlatAt(l, j, k);
    FlatAt(l, q0, q1);
    ConsBackward(x, rest.value, root, Flat(l), Offset(l, j) + k - 1);
  }

  /** One forward step, then what the remaining steps collect. */
  lemma CollectForwardStep(next: IteratorState -> Result<Step>, root: Path, l: seq<DateFolder>, j: int, k: int, n: nat)
    requires NoEmptyFolder(l) && IsPosition(l, j, k) && n > 0 && Succ(l, j, k).Some?
    requires StepsAlong(next, root, l, j, k, true)
    requires var q := Succ(l, j, k).value;
             IsPosition(l, q.0, q.1) && FollowsForward(Collect(next, StateAt(root, l, q.0, q.1), n - 1), root, l, q.0, q.1, n - 1)
    ensures FollowsForward(Collect(next, StateAt(root, l, j, k), n), root, l, j, k, n)
  {
    var q := Succ(l, j, k).value;
    SuccIsNextIndex(l, j, k);
    var x := next(StateAt(root, l, j, k)).value.1.value;
    var rest := Collect(next, StateAt(root, l, q.0, q.1), n - 1);
    FollowsForwardCons(x, rest, root, l, j, k, q.0, q.1, n);
  }

  /** One backward step, then what the remaining steps collect. */
  lemma CollectBackwardStep(next: IteratorState -> Result<Step>, root: Path, l: seq<DateFolder>, j: int, k: int, n: nat)
    requires NoEmptyFolder(l) && IsPosition(l, j, k) && n > 0 && Pred(l, j, k).Some?
    requires StepsAlong(next, root, l, j, k, false)
    requires var q := Pred(l, j, k).value;
             IsPosition(l, q.0, q.1) && FollowsBackward(Collect(next, StateAt(root, l, q.0, q.1), n - 1), root, l, q.0, q.1, n - 1)
    ensures FollowsBackward(Collect(next, StateAt(root, l, j, k), n), root, l, j, k, n)
  {
    var q := Pred(l, j, k).value;
    PredIsPreviousIndex(l, j, k);
    var x := next(StateAt(root, l, j, k)).value.1.value;
    var rest := Collect(next, StateAt(root, l, q.0, q.1), n - 1);
    FollowsBackwardCons(x, rest, root, l, j, k, q.0, q.1, n);
  }

  /**
    Any step function that walks the log forward, called `n` times from the
    entry at log index p, returns the next min(n, |log| - p - 1) entries.
   */
  lemma {:induction false} CollectForward(next: IteratorState -> Result<Step>, root: Path, l: seq<DateFolder>, j: int, k: int, n: nat)
    requires NoEmptyFolder(l) && IsPosition(l, j, k)
    requires forall j', k' {:trigger StepsAlong(next, root, l, j', k', true)} | IsPosition(l, j', k') :: StepsAlong(next, root, l, j', k', true)
    ensures FollowsForward(Collect(next, StateAt(root, l, j, k), n), root, l, j, k, n)
    decreases n
  {
    assert StepsAlong(next, root, l, j, k, true);
    if n > 0 && Succ(l, j, k).Some? {
      var q := Succ(l, j, k).value;
      CollectForward(next, root, l, q.0, q.1, n - 1);
      CollectForwardStep(next, root, l, j, k, n);
    } else {
      FlatAt(l, j, k);
      SuccIsNextIndex(l, j, k);
    }
  }

  /**
    Any step function that walks the log backward, called `n` times from the
    entry at log index p, returns the previous min(n, p) entries, nearest first.
   */
  lemma {:induction false} CollectBackward(next: IteratorState -> Result<Step>, root: Path, l: seq<DateFolder>, j: int, k: int, n: nat)
    requires NoEmptyFolder(l) && IsPosition(l, j, k)
    requires forall j', k' {:trigger StepsAlong(next, root, l, j', k', false)} | IsPosition(l, j', k') :: StepsAlong(next, root, l, j', k', false)
    ensures FollowsBackward(Collect(next, StateAt(root, l, j, k), n), root, l, j, k, n)
    decreases n
  {
    assert StepsAlong(next, root, l, j, k, false);
    if n > 0 && Pred(l, j, k).Some? {
      var q := Pred(l, j, k).value;
      CollectBackward(next, root, l, q.0, q.1, n - 1);
      CollectBackwardStep(next, root, l, j, k, n);
    } else {
      FlatAt(l, j, k);
      PredIsPreviousIndex(l, j, k);
    }
  }

  /**
    Stepping FORWARD `n` times from the entry at log index p returns the
    next min(n, |log| - p - 1) entries of the log, in log order.
   */
  lemma DrainForward(fs: FileSystem, root: Path, l: seq<DateFolder>, j: int, k: int, n: nat)
    requires IsLog(fs, root, l) && IsPosition(l, j, k)
    ensures FollowsForward(Drain(StateAt(root, l, j, k), fs, Forward, n), root, l, j, k, n)
  {
    FoldersHoldNoEmpty(fs, root, l);
    IteratorStepsForwardEverywhere(fs, root, l);
    CollectForward(NextIn(fs, Forward), root, l, j, k, n);
  }

  /**
    Stepping BACKWARD `n` times from the entry at log index p returns the
    previous min(n, p) entries of the log, nearest first.
   */
  lemma DrainBackward(fs: FileSystem, root: Path, l: seq<DateFolder>, j: int, k: int, n: nat)
    requires IsLog(fs, root, l) && IsPosition(l, j, k)
    ensures FollowsBackward(Drain(StateAt(root, l, j, k), fs, Backward, n), root, l, j, k, n)
  {
    FoldersHoldNoEmpty(fs, root, l);
    IteratorStepsBackwardEverywhere(fs, root, l);
    CollectBackward(NextIn(fs, Backward), root, l, j, k, n);
  }

  /** Collecting forward from log index 0 with enough steps covers the rest of the log. */
  lemma FollowsForwardWhole(r: Result<seq<ImagePromptDirectory>>, root: Path, l: seq<DateFolder>, n: nat)
    requires IsPosition(l, 0, 0) && FollowsForward(r, root, l, 0, 0, n)
    requires n + 1 >= |Flat(l)|
    ensures r.Ok? && |r.value| + 1 == |Flat(l)|
    ensures forall i | 0 <= i < |r.value| :: Describes(r.value[i], root, Flat(l)[i + 1].0, Flat(l)[i + 1].1)
  {
  }

  /** Collecting backward from the last log index with enough steps covers the rest of the log. */
  lemma FollowsBackwardWhole(r: Result<seq<ImagePromptDirectory>>, root: Path, l: seq<DateFolder>, j: int, k: int, n: nat)
    requires IsPosition(l, j, k) && FollowsBackward(r, root, l, j, k, n)
    requires Offset(l, j) + k == |Flat(l)| - 1 && n + 1 >= |Flat(l)|
    ensures var last := |Flat(l)| - 1;
            r.Ok? && |r.value| == last &&
            forall i | 0 <= i < |r.value| :: Describes(r.value[i], root, Flat(l)[last - 1 - i].0, Flat(l)[last - 1 - i].1)
  {
  }

  /** At any position of a log, the iterator's current entry is the log's entry there. */
  lemma CurrentAt(fs: FileSystem, root: Path, l: seq<DateFolder>, j: int, k: int)
    requires IsLog(fs, root, l) && IsPosition(l, j, k)
    ensures Offset(l, j) + k < |Flat(l)|
    ensures var c := CurrentImagePromptDirectory(StateAt(root, l, j, k));
            var e := Flat(l)[Offset(l, j) + k];
            c.Ok? && c.value.Some? && Describes(c.value.value, root, e.0, e.1)
  {
    ListingOfLog(fs, root, l, j);
    FlatAt(l, j, k);
  }

  /** The last entry of the log sits at the end of the last folder. */
  lemma LastPosition(fs: FileSystem, root: Path, l: seq<DateFolder>)
    requires IsLog(fs, root, l) && |l| > 0
    ensures IsPosition(l, |l| - 1, |l[|l| - 1].entries| - 1)
    ensures Offset(l, |l| - 1) + |l[|l| - 1].entries| - 1 == |Flat(l)| - 1
  {
    var j := |l| - 1;
    FoldersHoldNoEmpty(fs, root, l);
    assert |l[j].entries| > 0;
    OffsetNext(l, j);
    OffsetAll(l);
  }

  /**
    A FORWARD iterator on the first entry of the log, which is where a fresh
    one is built (RewindForwardLands), sees the whole log exactly once,
    newest first: its current entry is that entry, and draining it yields
    the rest in order.
   */
  lemma ForwardTraversalComplete(fs: FileSystem, root: Path, l: seq<DateFolder>, n: nat)
    requires IsLog(fs, root, l) && |l| > 0
    requires n + 1 >= |Flat(l)|
    ensures IsPosition(l, 0, 0)
    ensures var c := CurrentImagePromptDirectory(StateAt(root, l, 0, 0));
            c.Ok? && c.value.Some? && Describes(c.value.value, root, Flat(l)[0].0, Flat(l)[0].1)
    ensures var rest := Drain(StateAt(root, l, 0, 0), fs, Forward, n);
            rest.Ok? && |rest.value| + 1 == |Flat(l)| &&
            forall i | 0 <= i < |rest.value| :: Describes(rest.value[i], root, Flat(l)[i + 1].0, Flat(l)[i + 1].1)
  {
    FoldersHoldNoEmpty(fs, root, l);
    assert IsPosition(l, 0, 0);
    CurrentAt(fs, root, l, 0, 0);
    DrainForward(fs, root, l, 0, 0, n);
    FollowsForwardWhole(Drain(StateAt(root, l, 0, 0), fs, Forward, n), root, l, n);
  }

  /**
    A BACKWARD iterator on the last entry (j, k) of the log, which is where a
    fresh one is built (RewindBackwardLands, LastPosition), sees the whole log
    exactly once, oldest first: its current entry is that entry, and draining
    it yields the others from the end back to the start.
   */
  lemma BackwardTraversalComplete(fs: FileSystem, root: Path, l: seq<DateFolder>, j: int, k: int, n: nat)
    requires IsLog(fs, root, l) && IsPosition(l, j, k)
    requires Offset(l, j) + k == |Flat(l)| - 1
    requires n + 1 >= |Flat(l)|
    ensures var last := |Flat(l)| - 1;
            var c := CurrentImagePromptDirectory(StateAt(root, l, j, k));
            c.Ok? && c.value.Some? && Describes(c.value.value, root, Flat(l)[last].0, Flat(l)[last].1)
    ensures var last := |Flat(l)| - 1;
            var rest := Drain(StateAt(root, l, j, k), fs, Backward, n);
            rest.Ok? && |rest.value| == last &&
            forall i | 0 <= i < |rest.value| :: Describes(rest.value[i], root, Flat(l)[last - 1 - i].0, Flat(l)[last - 1 - i].1)
  {
    CurrentAt(fs, root, l, j, k);
    DrainBackward(fs, root, l, j, k, n);
    FollowsBackwardWhole(Drain(StateAt(root, l, j, k), fs, Backward, n), root, l, j, k, n);
  }
}
