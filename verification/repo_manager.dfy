/**
  src/repoManager/RepoManager.py: paging through an image repository.
  A repository is the folder tree `imageRepo/<date>/<time>_<prompt>/`
  whose leaves hold the image files. A page is a run of up to `number`
  entries in one direction from a starting entry, together with a token
  from which the next page in that direction starts.

  The Python object keeps only the repository path; the filesystem is a
  parameter of every operation here. Listings are taken in the order
  `listingReverse` names (newest first when true), see the `Manager`
  record.
 */
module RepoManager {
  import opened Common
  import opened StringOrder
  import opened PathingUtils
  import opened RepoUtils
  import opened Layout
  import Models
  import DirectoryIterator

  /**
    The fields of a `RepoManager` object. `listingReverse` is the sort order
    of the module's `get_sorted_directory_by_name(path)` calls, which pass no
    `reverse` argument.
   */
  datatype Manager = Manager(imageRepo: Path, listingReverse: bool)

  /** `ImagePrompResult` as RepoManager.py defines it: an entry and the paths of its image files. */
  datatype ImagePromptResult = ImagePromptResult(prompt: string, repo: string, date: string, time: string,
                                                 num: string, pngPaths: set<Path>)

  /** `GetImagePrompsResult` as RepoManager.py defines it: a page and the token for the next one. */
  datatype GetImagePromptsResult = GetImagePromptsResult(results: seq<ImagePromptResult>, nextToken: Option<Models.NextToken>)

  /**
    Which list the bounds check of `get_next_image_folder` measures: as
    written it always measures the entry listing, as intended it measures the
    list being indexed.
   */
  datatype BoundsRule = AsWritten | Intended

  /** `switch_repo`: the repository `newRepo` under the repositories folder `reposRoot`. */
  function SwitchRepo(m: Manager, reposRoot: Path, newRepo: string): (r: Manager)
    ensures r.imageRepo == reposRoot + [newRepo]
    ensures r.listingReverse == m.listingReverse
  {
    m.(imageRepo := reposRoot + [newRepo])
  }

  /** `RepoManager(startingRepo)`. */
  function NewRepoManager(reposRoot: Path, startingRepo: string, listingReverse: bool): (r: Manager)
    ensures r.imageRepo == reposRoot + [startingRepo]
    ensures r.listingReverse == listingReverse
  {
    SwitchRepo(Manager([], listingReverse), reposRoot, startingRepo)
  }

  /** `current_repo`: the name of the repository folder. */
  function CurrentRepo(m: Manager): string {
    Basename(m.imageRepo)
  }

  /** After switching to a repository, it is the current one. */
  lemma {:induction false} SwitchRepoCurrent(m: Manager, reposRoot: Path, newRepo: string)
    ensures CurrentRepo(SwitchRepo(m, reposRoot, newRepo)) == newRepo
    ensures CurrentRepo(NewRepoManager(reposRoot, newRepo, m.listingReverse)) == newRepo
  {
  }

  /** `RepoManager.generate_file_name`: the same name as the module-level `generate_file_name`. */
  function GenerateEntryName(time: string, prompt: string): (name: string)
    ensures name == GenerateFileName(time, prompt)
  {
    time + "_" + prompt
  }

  /** A directory listing in the manager's order. */
  function Listing(fs: FileSystem, m: Manager, path: Path): Result<seq<string>> {
    SortedDirectoryByName(fs, path, m.listingReverse)
  }

  /** Python's `list.index`: the first position holding `x`, or ValueError. */
  function IndexOf(s: seq<string>, x: string): (r: Result<nat>)
    ensures r.Err? <==> x !in s
    ensures r.Err? ==> r.error == ValueError("is not in list")
    ensures r.Ok? ==> r.value < |s| && s[r.value] == x
    ensures r.Ok? ==> forall i | 0 <= i < r.value :: s[i] != x
  {
    IndexFrom(s, x, 0)
  }

  /** The search of `list.index` from position `from` on. */
  function IndexFrom(s: seq<string>, x: string, from: nat): (r: Result<nat>)
    requires from <= |s|
    ensures r.Err? <==> forall i | from <= i < |s| :: s[i] != x
    ensures r.Err? ==> r.error == ValueError("is not in list")
    ensures r.Ok? ==> from <= r.value < |s| && s[r.value] == x
    ensures r.Ok? ==> forall i | from <= i < r.value :: s[i] != x
    decreases |s| - from
  {
    if from == |s| then Err(ValueError("is not in list"))
    else if s[from] == x then Ok(from)
    else IndexFrom(s, x, from + 1)
  }

  /**
    `get_files(date, folderName)`: the entry's record, with the paths of the
    files in its folder. The split of the folder name comes first, so a name
    without exactly one '_' raises ValueError before the folder is read.
   */
  function GetFiles(fs: FileSystem, m: Manager, date: string, folderName: string): (r: Result<ImagePromptResult>)
    ensures r.Ok? <==> WellFormedName(folderName) && m.imageRepo + [date, folderName] in fs.dirs
    ensures !WellFormedName(folderName) ==> r.Err? && r.error.ValueError?
    ensures WellFormedName(folderName) && m.imageRepo + [date, folderName] !in fs.dirs ==>
              r == Err(FileNotFound(m.imageRepo + [date, folderName]))
    ensures r.Ok? ==> && r.value.date == date && r.value.repo == CurrentRepo(m) && r.value.num == "1"
                      && GenerateFileName(r.value.time, r.value.prompt) == folderName
                      && '_' !in r.value.time && '_' !in r.value.prompt
    ensures r.Ok? ==> var folder := m.imageRepo + [date, folderName];
                      forall f :: folder + [f] in r.value.pngPaths <==> f in fs.dirs[folder]
    ensures r.Ok? ==> var folder := m.imageRepo + [date, folderName];
                      forall p | p in r.value.pngPaths :: |p| == |folder| + 1 && p[..|folder|] == folder
  {
    var halves :- SplitPair(folderName);
    var folder := m.imageRepo + [date, folderName];
    if folder !in fs.dirs then Err(FileNotFound(folder))
    else
      var paths := set f | f in fs.dirs[folder] :: folder + [f];
      assert forall f :: folder + [f] in paths ==> f in fs.dirs[folder] by {
        forall f | folder + [f] in paths
          ensures f in fs.dirs[folder]
        {
          var g :| g in fs.dirs[folder] && folder + [g] == folder + [f];
          assert (folder + [g])[|folder|] == g && (folder + [f])[|folder|] == f;
        }
      }
      Ok(ImagePromptResult(halves.1, CurrentRepo(m), date, halves.0, "1", paths))
  }

  /** The first name of a listing of `path`, or the error reading it raises. */
  function FirstListed(fs: FileSystem, m: Manager, path: Path): (r: Result<string>)
    ensures r.Ok? <==> path in fs.dirs && fs.dirs[path] != {}
    ensures r.Ok? ==> r.value == Listing(fs, m, path).value[0]
  {
    var names :- Listing(fs, m, path);
    if |names| == 0 then Err(IndexError)
    else
      assert names[0] in fs.dirs[path];
      Ok(names[0])
  }

  /**
    `get_latest_images_in_repo`: the record of the first entry of the first
    date folder, in listing order; None when anything on the way raises.
   */
  function GetLatestImagesInRepo(fs: FileSystem, m: Manager): (r: Option<ImagePromptResult>)
    ensures r.Some? <==>
              && FirstListed(fs, m, m.imageRepo).Ok?
              && FirstListed(fs, m, m.imageRepo + [FirstListed(fs, m, m.imageRepo).value]).Ok?
              && GetFiles(fs, m, FirstListed(fs, m, m.imageRepo).value,
                          FirstListed(fs, m, m.imageRepo + [FirstListed(fs, m, m.imageRepo).value]).value).Ok?
    ensures r.Some? ==>
              var date := FirstListed(fs, m, m.imageRepo).value;
              r.value.date == date &&
              GenerateFileName(r.value.time, r.value.prompt) == FirstListed(fs, m, m.imageRepo + [date]).value
  {
    match FirstListed(fs, m, m.imageRepo)
    case Err(_) => None
    case Ok(date) =>
      match FirstListed(fs, m, m.imageRepo + [date])
      case Err(_) => None
      case Ok(name) =>
        match GetFiles(fs, m, date, name)
        case Err(_) => None
        case Ok(x) => Some(x)
  }

  /**
    The bounds check `index_not_out_of_bounds(index, directory)`: FORWARD
    needs index below the measured length, BACKWARD needs index at least 0.
    As written the measured list is always `listing`, the caller's entry
    listing, whatever `directory` is passed.
   */
  predicate InBounds(rule: BoundsRule, direction: Direction, index: int, listing: seq<string>, directory: seq<string>) {
    var measured := if rule == AsWritten then listing else directory;
    (direction == Forward && index < |measured|) || (direction == Backward && index >= 0)
  }

  /** FORWARD moves to index + 1, BACKWARD to index - 1. */
  function StepOf(direction: Direction): int {
    if direction != Backward then 1 else -1
  }

  /**
    `get_next_image_folder`: the entry after `current` in `direction`,
    together with the entry listing of its date. Within the current listing
    it is the neighbour at index ± 1; past either end it is the first-in-
    direction entry of the neighbouring date, whose listing is loaded; past
    the last date it is None, with the listing handed back unchanged.
   */
  function GetNextImageFolder(fs: FileSystem, m: Manager, current: Models.ImagePromptDirectory, listing: seq<string>,
                              dates: seq<string>, direction: Direction, rule: BoundsRule)
    : (r: Result<(Option<Models.ImagePromptDirectory>, seq<string>)>)
    ensures r.Ok? ==> GenerateFileName(current.time, current.prompt) in listing
    ensures r.Ok? && r.value.0.None? ==> r.value.1 == listing
    ensures r.Ok? && r.value.0.Some? ==>
              var x := r.value.0.value;
              && x.repo == CurrentRepo(m) && '_' !in x.time && '_' !in x.prompt
              && GenerateFileName(x.time, x.prompt) in r.value.1
  {
    match IndexOf(listing, GenerateFileName(current.time, current.prompt))
    case Err(e) => Err(e)
    case Ok(i) =>
      if InBounds(rule, direction, i + StepOf(direction), listing, listing) then
        EntryOf(m, current.date, listing, i + StepOf(direction))
      else
        NextDate(fs, m, current, listing, dates, direction, rule)
  }

  /** Entry `index` of `listing`, a folder of `date`, with that listing; ValueError when its name does not split. */
  function EntryOf(m: Manager, date: string, listing: seq<string>, index: int)
    : (r: Result<(Option<Models.ImagePromptDirectory>, seq<string>)>)
    requires 0 <= index < |listing|
    ensures r.Ok? <==> WellFormedName(listing[index])
    ensures r.Ok? ==> r.value.1 == listing && r.value.0.Some?
    ensures r.Ok? ==> var x := r.value.0.value;
                      && x.repo == CurrentRepo(m) && x.date == date && '_' !in x.time && '_' !in x.prompt
                      && GenerateFileName(x.time, x.prompt) == listing[index]
  {
    var halves :- SplitPair(listing[index]);
    Ok((Some(Models.ImagePromptDirectory(halves.1, CurrentRepo(m), date, halves.0)), listing))
  }

  /**
    The branch of `get_next_image_folder` past either end of the listing:
    the first-in-direction entry of the neighbouring date, or None past the
    last date. An empty neighbouring date raises IndexError.
   */
  function NextDate(fs: FileSystem, m: Manager, current: Models.ImagePromptDirectory, listing: seq<string>,
                    dates: seq<string>, direction: Direction, rule: BoundsRule)
    : (r: Result<(Option<Models.ImagePromptDirectory>, seq<string>)>)
    ensures r.Ok? ==> current.date in dates
    ensures r.Ok? && r.value.0.None? ==> r.value.1 == listing
    ensures r.Ok? && r.value.0.Some? ==>
              var x := r.value.0.value;
              && x.repo == CurrentRepo(m) && '_' !in x.time && '_' !in x.prompt
              && GenerateFileName(x.time, x.prompt) in r.value.1
  {
    var d :- IndexOf(dates, current.date);
    var nextDateIndex := d + StepOf(direction);
    if !InBounds(rule, direction, nextDateIndex, listing, dates) then
      Ok((None, listing))
    else if nextDateIndex >= |dates| then
      Err(IndexError)
    else
      EnterDate(fs, m, dates[nextDateIndex], direction)
  }

  /** The first-in-direction entry of date folder `date`, with the folder's listing. */
  function EnterDate(fs: FileSystem, m: Manager, date: string, direction: Direction)
    : (r: Result<(Option<Models.ImagePromptDirectory>, seq<string>)>)
    ensures r.Ok? ==> m.imageRepo + [date] in fs.dirs && r.value.0.Some?
    ensures r.Ok? ==> var x := r.value.0.value;
                      && x.repo == CurrentRepo(m) && x.date == date && '_' !in x.time && '_' !in x.prompt
                      && GenerateFileName(x.time, x.prompt) in r.value.1
  {
    var entries :- Listing(fs, m, m.imageRepo + [date]);
    if |entries| == 0 then Err(IndexError)
    else EntryOf(m, date, entries, if direction != Backward then 0 else |entries| - 1)
  }

  /** The paging loop's variables: results so far, the current entry and its date's listing. */
  datatype PageState = PageState(results: seq<ImagePromptResult>, current: Models.ImagePromptDirectory, listing: seq<string>)

  /**
    How one round of the paging loop ends: an exception (the state is kept),
    a None or an exception after the step (the step's listing is kept), or a
    new entry and its record.
   */
  datatype RoundOutcome =
    | Raised
    | Stopped(listing: seq<string>)
    | Advanced(next: Models.ImagePromptDirectory, listing: seq<string>, x: ImagePromptResult)

  /**
    Round `num` of the paging loop of `_get_images`: the first round takes
    the starting entry itself when paging BACKWARD or when forced; every
    other round steps with `get_next_image_folder`. The new entry's files are
    then read.
   */
  function Round(fs: FileSystem, m: Manager, dates: seq<string>, direction: Direction, force: bool, rule: BoundsRule,
                 num: nat, s: PageState): (r: RoundOutcome)
    ensures num == 0 && (direction == Backward || force) ==> !r.Raised? && (r.Advanced? ==> r.next == s.current)
    ensures r.Advanced? ==> GetFiles(fs, m, r.next.date, GenerateFileName(r.next.time, r.next.prompt)) == Ok(r.x)
  {
    match RoundMove(fs, m, dates, direction, force, rule, num, s)
    case Err(_) => Raised
    case Ok((next, listing)) =>
      match next
      case None => Stopped(listing)
      case Some(f) =>
        match GetFiles(fs, m, f.date, GenerateFileName(f.time, f.prompt))
        case Err(_) => Stopped(listing)
        case Ok(x) => Advanced(f, listing, x)
  }

  /**
    Every outcome of a round, by what its move and the file read give: an
    exception in the move is Raised, no next entry or an exception reading
    its files is Stopped with the move's listing, and otherwise the round
    advances onto the entry with the record read.
   */
  lemma RoundOutcomes(fs: FileSystem, m: Manager, dates: seq<string>, direction: Direction, force: bool,
                      rule: BoundsRule, num: nat, s: PageState)
    ensures RoundMove(fs, m, dates, direction, force, rule, num, s).Err? ==>
              Round(fs, m, dates, direction, force, rule, num, s) == Raised
    ensures RoundMove(fs, m, dates, direction, force, rule, num, s).Ok? &&
            RoundMove(fs, m, dates, direction, force, rule, num, s).value.0.None? ==>
              Round(fs, m, dates, direction, force, rule, num, s) ==
              Stopped(RoundMove(fs, m, dates, direction, force, rule, num, s).value.1)
    ensures var mv := RoundMove(fs, m, dates, direction, force, rule, num, s);
            mv.Ok? && mv.value.0.Some? ==>
              var f := mv.value.0.value;
              var files := GetFiles(fs, m, f.date, GenerateFileName(f.time, f.prompt));
              Round(fs, m, dates, direction, force, rule, num, s) ==
              (if files.Err? then Stopped(mv.value.1) else Advanced(f, mv.value.1, files.value))
  {
  }

  /** The entry round `num` moves to: the starting entry itself, or the next one in `direction`. */
  function RoundMove(fs: FileSystem, m: Manager, dates: seq<string>, direction: Direction, force: bool, rule: BoundsRule,
                     num: nat, s: PageState): (r: Result<(Option<Models.ImagePromptDirectory>, seq<string>)>)
    ensures num == 0 && (direction == Backward || force) ==> r == Ok((Some(s.current), s.listing))
  {
    if num == 0 && (direction == Backward || force) then Ok((Some(s.current), s.listing))
    else GetNextImageFolder(fs, m, s.current, s.listing, dates, direction, rule)
  }

  /** One round of the paging loop of `_get_images` for the given page, as a function of the round number and state. */
  function RoundIn(fs: FileSystem, m: Manager, dates: seq<string>, direction: Direction, force: bool, rule: BoundsRule)
    : (nat, PageState) -> RoundOutcome
  {
    (num: nat, s: PageState) => Round(fs, m, dates, direction, force, rule, num, s)
  }

  /**
    Rounds `num` to `number - 1` of a paging loop whose rounds are `round`:
    it stops after `number` rounds, at the first None and at the first
    exception, keeping what it has collected.
   */
  function Gather(round: (nat, PageState) -> RoundOutcome, number: nat, num: nat, s: PageState): (r: PageState)
    requires num <= number
    ensures |s.results| <= |r.results| <= |s.results| + (number - num)
    ensures r.results[..|s.results|] == s.results
    decreases number - num
  {
    if num == number then s
    else
      match round(num, s)
      case Raised => s
      case Stopped(listing) => s.(listing := listing)
      case Advanced(f, listing, x) =>
        var r := Gather(round, number, num + 1, PageState(s.results + [x], f, listing));
        assert r.results[..|s.results|] == r.results[..|s.results| + 1][..|s.results|];
        r
  }

  /** A result record read as the entry it shows, as `get_next_image_folder` reads it. */
  function AsDirectory(x: ImagePromptResult): Models.ImagePromptDirectory {
    Models.ImagePromptDirectory(x.prompt, x.repo, x.date, x.time)
  }

  /** A token naming entry `x` of the repository at `m.imageRepo`. */
  function TokenFor(m: Manager, x: Models.ImagePromptDirectory): Models.NextToken {
    Models.NextToken(x.prompt, PathString(m.imageRepo), x.date, x.time)
  }

  /**
    `generate_nextToken`: no token unless the page is full. A full FORWARD
    page is continued from its last entry; a full BACKWARD page from the
    entry one step past its last entry, if there is one. The step is outside
    the loop's `try`, so its exceptions propagate; so does indexing the last
    result of an empty page.
   */
  function NextTokenOf(fs: FileSystem, m: Manager, number: int, results: seq<ImagePromptResult>, listing: seq<string>,
                       dates: seq<string>, direction: Direction, rule: BoundsRule): (r: Result<Option<Models.NextToken>>)
    ensures |results| != number ==> r == Ok(None)
    ensures number == 0 && |results| == 0 ==> r == Err(IndexError)
    ensures |results| == number > 0 && direction == Forward ==> r == Ok(Some(TokenFor(m, AsDirectory(results[number - 1]))))
  {
    if |results| != number then Ok(None)
    else if |results| == 0 then Err(IndexError)
    else
      var last := AsDirectory(results[|results| - 1]);
      if direction != Backward then Ok(Some(TokenFor(m, last)))
      else
        var step :- GetNextImageFolder(fs, m, last, listing, dates, direction, rule);
        match step.0
        case None => Ok(None)
        case Some(x) => Ok(Some(TokenFor(m, x)))
  }

  /**
    `_get_images(number, currentDirectory, direction, force)`: the page of up
    to `number` entries from `start`, BACKWARD pages put back in FORWARD
    order, and the token for the next page. The two listings read before
    the loop are outside its `try`.
   */
  function GetImagesPage(fs: FileSystem, m: Manager, number: int, start: Models.ImagePromptDirectory, direction: Direction,
                         force: bool, rule: BoundsRule): (r: Result<GetImagePromptsResult>)
    ensures r.Ok? ==> |r.value.results| <= Max(number, 0)
    ensures number == 0 ==> r.Err?
    ensures r.Ok? && r.value.nextToken.Some? ==> |r.value.results| == number
  {
    var sortedDates :- Listing(fs, m, m.imageRepo);
    var listing :- Listing(fs, m, m.imageRepo + [start.date]);
    var n: nat := if number < 0 then 0 else number;
    var s := Gather(RoundIn(fs, m, sortedDates, direction, force, rule), n, 0, PageState([], start, listing));
    var token :- NextTokenOf(fs, m, number, s.results, s.listing, sortedDates, direction, rule);
    var page := if direction == Backward then Reverse(s.results) else s.results;
    Ok(GetImagePromptsResult(page, token))
  }

  /** The starting entry a token names. */
  function TokenDirectory(t: Models.NextToken): Models.ImagePromptDirectory {
    Models.ImagePromptDirectory(t.prompt, t.repo, t.date, t.time)
  }

  /** `get_images(number, token, direction)`: no page at all without a token. */
  function GetImages(fs: FileSystem, m: Manager, number: int, token: Option<Models.NextToken>, direction: Direction,
                     rule: BoundsRule): (r: Result<Option<GetImagePromptsResult>>)
    ensures token.None? ==> r == Ok(None)
    ensures token.Some? ==> (r.Ok? <==> GetImagesPage(fs, m, number, TokenDirectory(token.value), direction, false, rule).Ok?)
    ensures token.Some? && r.Ok? ==>
              r.value == Some(GetImagesPage(fs, m, number, TokenDirectory(token.value), direction, false, rule).value)
  {
    match token
    case None => Ok(None)
    case Some(t) =>
      var page :- GetImagesPage(fs, m, number, TokenDirectory(t), direction, false, rule);
      Ok(Some(page))
  }

  /**
    `get_init_images(number)`: the FORWARD page that starts with the latest
    entry itself. With no latest entry, reading its fields raises
    AttributeError.
   */
  function GetInitImages(fs: FileSystem, m: Manager, number: int, rule: BoundsRule): Result<GetImagePromptsResult> {
    match GetLatestImagesInRepo(fs, m)
    case None => Err(AttributeError)
    case Some(x) => GetImagesPage(fs, m, number, LatestDirectory(m, x), Forward, true, rule)
  }

  /** The starting entry `get_init_images` builds from the latest record. */
  function LatestDirectory(m: Manager, x: ImagePromptResult): Models.ImagePromptDirectory {
    Models.ImagePromptDirectory(x.prompt, PathString(m.imageRepo), x.date, x.time)
  }

  // ---------------------------------------------------------------------
  // A well-formed repository, read as a log
  // ---------------------------------------------------------------------

  /**
    The repository of `m` read as the log `l`, newest first: the tree is
    `l` as the iterator reads it, every entry is a folder, and listings are
    taken newest first.
   */
  ghost predicate IsRepo(fs: FileSystem, m: Manager, l: seq<DateFolder>) {
    && m.listingReverse
    && DirectoryIterator.IsLog(fs, m.imageRepo, l)
    && forall j, k | IsPosition(l, j, k) :: m.imageRepo + [l[j].date, l[j].entries[k]] in fs.dirs
  }

  /** Record `d` names the entry `name` of date folder `date`. */
  predicate Names(d: Models.ImagePromptDirectory, date: string, name: string) {
    d.date == date && GenerateFileName(d.time, d.prompt) == name
  }

  /** Result `x` is the record of entry `name` of date folder `date` in the repository at `root`. */
  predicate Shows(x: ImagePromptResult, root: Path, date: string, name: string) {
    x.repo == Basename(root) && x.date == date && GenerateFileName(x.time, x.prompt) == name
  }

  /** Token `t` names entry `name` of date folder `date` in the repository at `root`. */
  predicate TokenNames(t: Models.NextToken, root: Path, date: string, name: string) {
    t.repo == PathString(root) && t.date == date && GenerateFileName(t.time, t.prompt) == name
  }

  /** The loop is on entry (j, k): its current record names it and its listing is that date's. */
  predicate NamesAt(current: Models.ImagePromptDirectory, listing: seq<string>, l: seq<DateFolder>, j: int, k: int)
    requires IsPosition(l, j, k)
  {
    Names(current, l[j].date, l[j].entries[k]) && listing == l[j].entries
  }

  /** The loop is on the entry at log index q. */
  predicate NamesAtIndex(current: Models.ImagePromptDirectory, listing: seq<string>, l: seq<DateFolder>, q: int)
    requires 0 <= q < |Flat(l)|
  {
    var pos := Locate(l, q);
    NamesAt(current, listing, l, pos.0, pos.1)
  }

  /** In a strictly ordered listing, `list.index` finds each name where it is. */
  lemma {:induction false} IndexOfOrdered(s: seq<string>, k: int)
    requires StrictlyDescending(s) && 0 <= k < |s|
    ensures IndexOf(s, s[k]) == Ok(k)
  {
    var i := IndexOf(s, s[k]).value;
    if i != k {
      StrictlyDescendingDistinct(s, i, k);
    }
  }

  /** The listings `_get_images` reads from a repository. */
  lemma {:induction false} ListingsOfRepo(fs: FileSystem, m: Manager, l: seq<DateFolder>, j: int)
    requires IsRepo(fs, m, l) && 0 <= j < |l|
    ensures Listing(fs, m, m.imageRepo) == Ok(Dates(l))
    ensures Listing(fs, m, m.imageRepo + [l[j].date]) == Ok(l[j].entries)
    ensures StrictlyDescending(l[j].entries) && |l[j].entries| > 0
    ensures forall k | 0 <= k < |l[j].entries| :: WellFormedName(l[j].entries[k])
  {
    DirectoryIterator.SnapshotOfLog(fs, m.imageRepo, l);
    DirectoryIterator.ListingOfLog(fs, m.imageRepo, l, j);
  }

  /** A step of `get_next_image_folder` that moved to entry `name` of `date`, whose listing is `listing`. */
  predicate Moved(r: Result<(Option<Models.ImagePromptDirectory>, seq<string>)>, date: string, name: string,
                  listing: seq<string>) {
    r.Ok? && r.value.0.Some? && Names(r.value.0.value, date, name) && r.value.1 == listing
  }

  /** Within the current listing the step takes the neighbour, under either bounds rule. */
  lemma {:induction false} StepWithin(fs: FileSystem, m: Manager, cur: Models.ImagePromptDirectory, listing: seq<string>,
                   dates: seq<string>, direction: Direction, rule: BoundsRule, k: int, q1: int)
    requires IndexOf(listing, GenerateFileName(cur.time, cur.prompt)) == Ok(k)
    requires 0 <= q1 < |listing| && q1 == k + StepOf(direction) && WellFormedName(listing[q1])
    ensures Moved(GetNextImageFolder(fs, m, cur, listing, dates, direction, rule), cur.date, listing[q1], listing)
  {
  }

  /** Past the end of the listing the step enters the neighbouring date, when the bounds check lets it. */
  lemma {:induction false} StepAcross(fs: FileSystem, m: Manager, cur: Models.ImagePromptDirectory, listing: seq<string>,
                   dates: seq<string>, direction: Direction, rule: BoundsRule, k: int, d: int, q0: int)
    requires IndexOf(listing, GenerateFileName(cur.time, cur.prompt)) == Ok(k)
    requires !(0 <= k + StepOf(direction) < |listing|)
    requires IndexOf(dates, cur.date) == Ok(d) && 0 <= q0 < |dates| && q0 == d + StepOf(direction)
    requires rule == Intended || direction == Backward
    ensures GetNextImageFolder(fs, m, cur, listing, dates, direction, rule) == EnterDate(fs, m, dates[q0], direction)
  {
    assert InBounds(rule, direction, q0, listing, dates);
  }

  /** Past the last date in `direction` the step yields None, when the bounds check is the intended one or BACKWARD. */
  lemma {:induction false} StepEnd(fs: FileSystem, m: Manager, cur: Models.ImagePromptDirectory, listing: seq<string>,
                dates: seq<string>, direction: Direction, rule: BoundsRule, k: int, d: int)
    requires IndexOf(listing, GenerateFileName(cur.time, cur.prompt)) == Ok(k)
    requires !(0 <= k + StepOf(direction) < |listing|)
    requires IndexOf(dates, cur.date) == Ok(d) && !(0 <= d + StepOf(direction) < |dates|)
    requires rule == Intended || direction == Backward
    ensures GetNextImageFolder(fs, m, cur, listing, dates, direction, rule) == Ok((None, listing))
  {
  }

  /**
    The date branch: a date missing from the date list raises ValueError;
    under the intended check, and BACKWARD under either, the neighbouring
    date is entered when there is one and the end of the repository is
    reported otherwise. `AsWrittenForwardDate` states the as-written
    FORWARD case.
   */
  lemma NextDateBounds(fs: FileSystem, m: Manager, current: Models.ImagePromptDirectory, listing: seq<string>,
                       dates: seq<string>, direction: Direction, rule: BoundsRule)
    ensures current.date !in dates ==>
              NextDate(fs, m, current, listing, dates, direction, rule) == Err(ValueError("is not in list"))
    ensures IndexOf(dates, current.date).Ok? && (rule == Intended || direction == Backward) ==>
              var q := IndexOf(dates, current.date).value + StepOf(direction);
              var r := NextDate(fs, m, current, listing, dates, direction, rule);
              && (0 <= q < |dates| ==> r == EnterDate(fs, m, dates[q], direction))
              && (!(0 <= q < |dates|) ==> r == Ok((None, listing)))
  {
  }

  /**
    As written, a FORWARD step past the end of the listing measures the next
    date index against the entry count of the current date: it reports the
    end of the repository when the index reaches that count, raises
    IndexError when the index is past the last date but below the count,
    and enters the next date only when the index is below both.
   */
  lemma AsWrittenForwardDate(fs: FileSystem, m: Manager, cur: Models.ImagePromptDirectory,
                             listing: seq<string>, dates: seq<string>, k: int, d: int)
    requires IndexOf(listing, GenerateFileName(cur.time, cur.prompt)) == Ok(k)
    requires k + 1 == |listing|
    requires IndexOf(dates, cur.date) == Ok(d)
    ensures var r := GetNextImageFolder(fs, m, cur, listing, dates, Forward, AsWritten);
            && (d + 1 >= |listing| ==> r == Ok((None, listing)))
            && (|dates| <= d + 1 < |listing| ==> r == Err(IndexError))
            && (d + 1 < |listing| && d + 1 < |dates| ==> r == EnterDate(fs, m, dates[d + 1], Forward))
  { }

  /** Entering a date folder whose listing is `entries` lands on its first-in-direction entry. */
  lemma {:induction false} EnterDateLands(fs: FileSystem, m: Manager, date: string, direction: Direction, entries: seq<string>)
    requires Listing(fs, m, m.imageRepo + [date]) == Ok(entries) && |entries| > 0
    requires WellFormedName(entries[if direction == Forward then 0 else |entries| - 1])
    ensures Moved(EnterDate(fs, m, date, direction), date, entries[if direction == Forward then 0 else |entries| - 1], entries)
  {
    var start := if direction == Forward then 0 else |entries| - 1;
    var r := EntryOf(m, date, entries, start);
    assert EnterDate(fs, m, date, direction) == r;
    assert r.Ok? && r.value.0.Some? && r.value.1 == entries;
  }

  /** In a repository, a step to the neighbouring entry of the same date. */
  lemma {:induction false} NextFolderWithin(fs: FileSystem, m: Manager, l: seq<DateFolder>, j: int, k: int, q1: int,
                         cur: Models.ImagePromptDirectory, direction: Direction, rule: BoundsRule)
    requires IsRepo(fs, m, l) && IsPosition(l, j, k) && Names(cur, l[j].date, l[j].entries[k])
    requires 0 <= q1 < |l[j].entries| && q1 == k + StepOf(direction)
    ensures Moved(GetNextImageFolder(fs, m, cur, l[j].entries, Dates(l), direction, rule),
                  l[j].date, l[j].entries[q1], l[j].entries)
  {
    ListingsOfRepo(fs, m, l, j);
    IndexOfOrdered(l[j].entries, k);
    StepWithin(fs, m, cur, l[j].entries, Dates(l), direction, rule, k, q1);
  }

  /** In a repository, a step off the end of a date's listing onto the neighbouring date q0. */
  lemma {:induction false} NextFolderAcross(fs: FileSystem, m: Manager, l: seq<DateFolder>, j: int, k: int, q0: int, q1: int,
                                            cur: Models.ImagePromptDirectory, direction: Direction, rule: BoundsRule)
    requires IsRepo(fs, m, l) && IsPosition(l, j, k) && Names(cur, l[j].date, l[j].entries[k])
    requires !(0 <= k + StepOf(direction) < |l[j].entries|)
    requires 0 <= q0 < |l| && q0 == j + StepOf(direction)
    requires q1 == if direction == Forward then 0 else |l[q0].entries| - 1
    requires rule == Intended || direction == Backward
    ensures IsPosition(l, q0, q1)
    ensures Moved(GetNextImageFolder(fs, m, cur, l[j].entries, Dates(l), direction, rule), l[q0].date,
                  l[q0].entries[q1], l[q0].entries)
  {
    ListingsOfRepo(fs, m, l, j);
    ListingsOfRepo(fs, m, l, q0);
    IndexOfOrdered(l[j].entries, k);
    ChainDescendingStrict(Dates(l));
    IndexOfOrdered(Dates(l), j);
    StepAcross(fs, m, cur, l[j].entries, Dates(l), direction, rule, k, j, q0);
    EnterDateLands(fs, m, l[q0].date, direction, l[q0].entries);
  }

  /** In a repository, a step past the last entry in `direction` yields None. */
  lemma {:induction false} NextFolderEnd(fs: FileSystem, m: Manager, l: seq<DateFolder>, j: int, k: int,
                      cur: Models.ImagePromptDirectory, direction: Direction, rule: BoundsRule)
    requires IsRepo(fs, m, l) && IsPosition(l, j, k) && Names(cur, l[j].date, l[j].entries[k])
    requires !(0 <= k + StepOf(direction) < |l[j].entries|)
    requires !(0 <= j + StepOf(direction) < |l|)
    requires rule == Intended || direction == Backward
    ensures GetNextImageFolder(fs, m, cur, l[j].entries, Dates(l), direction, rule) == Ok((None, l[j].entries))
  {
    ListingsOfRepo(fs, m, l, j);
    IndexOfOrdered(l[j].entries, k);
    ChainDescendingStrict(Dates(l));
    IndexOfOrdered(Dates(l), j);
    StepEnd(fs, m, cur, l[j].entries, Dates(l), direction, rule, k, j);
  }

  // ---------------------------------------------------------------------
  // One round of the paging loop, in a repository
  // ---------------------------------------------------------------------

  /** Whether the first round of a page in `direction` takes the starting entry itself. */
  function TakesStart(direction: Direction, force: bool): bool {
    direction == Backward || force
  }

  /** The log index `i` steps from `first` in `direction`. */
  function Along(first: int, direction: Direction, i: int): int {
    if direction == Forward then first + i else first - i
  }

  /** The log index round `num` moves to from log index q. */
  function Target(num: nat, q: int, self: bool, direction: Direction): int {
    if num == 0 && self then q else Along(q, direction, 1)
  }

  /** How many entries of a log of length `n` lie from `first` on in `direction`. */
  function Available(first: int, direction: Direction, n: int): int {
    if direction == Forward then Max(n - first, 0) else Max(first + 1, 0)
  }

  /** Result `x` shows the entry at log index t. */
  predicate ShowsAt(x: ImagePromptResult, root: Path, l: seq<DateFolder>, t: int)
    requires 0 <= t < |Flat(l)|
  {
    Shows(x, root, Flat(l)[t].0, Flat(l)[t].1)
  }

  /** Round outcome `o` from state `s` reached log index t, or stopped where it was when t is off the log. */
  predicate RoundGoes(o: RoundOutcome, root: Path, l: seq<DateFolder>, t: int, s: PageState) {
    if 0 <= t < |Flat(l)| then o.Advanced? && NamesAtIndex(o.next, o.listing, l, t) && ShowsAt(o.x, root, l, t)
    else o == Stopped(s.listing)
  }

  /** Move `r` reached the entry at log index t with its listing, or yielded None, keeping `listing`, off the log. */
  predicate Lands(r: Result<(Option<Models.ImagePromptDirectory>, seq<string>)>, l: seq<DateFolder>, t: int,
                  listing: seq<string>) {
    if 0 <= t < |Flat(l)| then
      var pos := Locate(l, t);
      Moved(r, l[pos.0].date, l[pos.0].entries[pos.1], l[pos.0].entries)
    else r == Ok((None, listing))
  }

  /** Entering a round's target: the move yields the entry with its listing. */
  lemma {:induction false} RoundAdvances(fs: FileSystem, m: Manager, dates: seq<string>, direction: Direction, force: bool,
                      rule: BoundsRule, num: nat, s: PageState, date: string, name: string, entries: seq<string>)
    requires Moved(RoundMove(fs, m, dates, direction, force, rule, num, s), date, name, entries)
    requires m.imageRepo + [date, name] in fs.dirs && WellFormedName(name)
    ensures var o := Round(fs, m, dates, direction, force, rule, num, s);
            o.Advanced? && Names(o.next, date, name) && o.listing == entries && Shows(o.x, m.imageRepo, date, name)
  {
  }

  /** A move that yields None stops the loop with the listing it had. */
  lemma {:induction false} RoundStops(fs: FileSystem, m: Manager, dates: seq<string>, direction: Direction, force: bool,
                   rule: BoundsRule, num: nat, s: PageState)
    requires RoundMove(fs, m, dates, direction, force, rule, num, s) == Ok((None, s.listing))
    ensures Round(fs, m, dates, direction, force, rule, num, s) == Stopped(s.listing)
  {
  }

  /** In a repository, `get_next_image_folder` FORWARD (as intended) moves to the successor entry. */
  lemma {:induction false} NextFolderForward(fs: FileSystem, m: Manager, l: seq<DateFolder>, j: int, k: int,
                          cur: Models.ImagePromptDirectory)
    requires IsRepo(fs, m, l) && IsPosition(l, j, k) && Names(cur, l[j].date, l[j].entries[k])
    ensures var r := GetNextImageFolder(fs, m, cur, l[j].entries, Dates(l), Forward, Intended);
            && (k + 1 < |l[j].entries| ==> Moved(r, l[j].date, l[j].entries[k + 1], l[j].entries))
            && (k + 1 == |l[j].entries| && j + 1 < |l| ==>
                  IsPosition(l, j + 1, 0) && Moved(r, l[j + 1].date, l[j + 1].entries[0], l[j + 1].entries))
            && (k + 1 == |l[j].entries| && j + 1 == |l| ==> r == Ok((None, l[j].entries)))
  {
    if k + 1 < |l[j].entries| {
      NextFolderWithin(fs, m, l, j, k, k + 1, cur, Forward, Intended);
    } else if j + 1 < |l| {
      NextFolderAcross(fs, m, l, j, k, j + 1, 0, cur, Forward, Intended);
    } else {
      NextFolderEnd(fs, m, l, j, k, cur, Forward, Intended);
    }
  }

  /** In a repository, `get_next_image_folder` BACKWARD moves to the predecessor entry, under either bounds rule. */
  lemma {:induction false} NextFolderBackward(fs: FileSystem, m: Manager, l: seq<DateFolder>, j: int, k: int,
                           cur: Models.ImagePromptDirectory, rule: BoundsRule)
    requires IsRepo(fs, m, l) && IsPosition(l, j, k) && Names(cur, l[j].date, l[j].entries[k])
    ensures var r := GetNextImageFolder(fs, m, cur, l[j].entries, Dates(l), Backward, rule);
            && (k > 0 ==> Moved(r, l[j].date, l[j].entries[k - 1], l[j].entries))
            && (k == 0 && j > 0 ==>
                  IsPosition(l, j - 1, |l[j - 1].entries| - 1) &&
                  Moved(r, l[j - 1].date, l[j - 1].entries[|l[j - 1].entries| - 1], l[j - 1].entries))
            && (k == 0 && j == 0 ==> r == Ok((None, l[j].entries)))
  {
    if k > 0 {
      NextFolderWithin(fs, m, l, j, k, k - 1, cur, Backward, rule);
    } else if j > 0 {
      NextFolderAcross(fs, m, l, j, k, j - 1, |l[j - 1].entries| - 1, cur, Backward, rule);
    } else {
      NextFolderEnd(fs, m, l, j, k, cur, Backward, rule);
    }
  }

  /** The position of log index t = Offset(j) + k is (j, k). */
  lemma {:induction false} LocateAt(l: seq<DateFolder>, j: int, k: int, t: int)
    requires IsPosition(l, j, k) && t == Offset(l, j) + k
    ensures 0 <= t < |Flat(l)| && Locate(l, t) == (j, k)
  {
    LocateOffset(l, j, k);
  }

  /** A step to the successor (FORWARD) or predecessor (BACKWARD) entry reaches log index t = q ± 1. */
  lemma {:induction false} MoveTarget(l: seq<DateFolder>, j: int, k: int, r: Result<(Option<Models.ImagePromptDirectory>, seq<string>)>,
                                      listing: seq<string>, direction: Direction, t: int)
    requires IsPosition(l, j, k) && listing == l[j].entries
    requires t == Along(Offset(l, j) + k, direction, 1)
    requires direction == Forward ==>
               && (k + 1 < |l[j].entries| ==> Moved(r, l[j].date, l[j].entries[k + 1], l[j].entries))
               && (k + 1 == |l[j].entries| && j + 1 < |l| ==>
                     IsPosition(l, j + 1, 0) && Moved(r, l[j + 1].date, l[j + 1].entries[0], l[j + 1].entries))
               && (k + 1 == |l[j].entries| && j + 1 == |l| ==> r == Ok((None, l[j].entries)))
    requires direction == Backward ==>
               && (k > 0 ==> Moved(r, l[j].date, l[j].entries[k - 1], l[j].entries))
               && (k == 0 && j > 0 ==>
                     IsPosition(l, j - 1, |l[j - 1].entries| - 1) &&
                     Moved(r, l[j - 1].date, l[j - 1].entries[|l[j - 1].entries| - 1], l[j - 1].entries))
               && (k == 0 && j == 0 ==> r == Ok((None, l[j].entries)))
    ensures Lands(r, l, t, listing)
  {
    if direction == Forward {
      if k + 1 < |l[j].entries| {
        LocateAt(l, j, k + 1, t);
      } else if j + 1 < |l| {
        OffsetNext(l, j);
        LocateAt(l, j + 1, 0, t);
      } else {
        OffsetNext(l, j);
        OffsetAll(l);
      }
    } else {
      if k > 0 {
        LocateAt(l, j, k - 1, t);
      } else if j > 0 {
        OffsetNext(l, j - 1);
        LocateAt(l, j - 1, |l[j - 1].entries| - 1, t);
      }
    }
  }

  /** The move of one round in a repository: the target's entry, or None off the log. */
  lemma {:induction false} MoveInRepo(fs: FileSystem, m: Manager, l: seq<DateFolder>, direction: Direction, force: bool,
                   rule: BoundsRule, num: nat, s: PageState, j: int, k: int, q: int)
    requires IsRepo(fs, m, l) && IsPosition(l, j, k) && NamesAt(s.current, s.listing, l, j, k)
    requires q == Offset(l, j) + k
    requires rule == Intended || direction == Backward
    ensures Lands(RoundMove(fs, m, Dates(l), direction, force, rule, num, s), l,
                  Target(num, q, TakesStart(direction, force), direction), s.listing)
  {
    if !(num == 0 && TakesStart(direction, force)) {
      StepInRepo(fs, m, l, j, k, q, s.current, direction, rule);
    }
    MoveFromStep(fs, m, l, direction, force, rule, num, s, j, k, q);
  }

  /** A round's move is the starting entry itself, or the step from it. */
  lemma {:induction false} MoveFromStep(fs: FileSystem, m: Manager, l: seq<DateFolder>, direction: Direction, force: bool,
                     rule: BoundsRule, num: nat, s: PageState, j: int, k: int, q: int)
    requires IsPosition(l, j, k) && NamesAt(s.current, s.listing, l, j, k) && q == Offset(l, j) + k
    requires !(num == 0 && TakesStart(direction, force)) ==>
               Lands(GetNextImageFolder(fs, m, s.current, l[j].entries, Dates(l), direction, rule), l,
                     Along(q, direction, 1), l[j].entries)
    ensures Lands(RoundMove(fs, m, Dates(l), direction, force, rule, num, s), l,
                  Target(num, q, TakesStart(direction, force), direction), s.listing)
  {
    LocateAt(l, j, k, q);
    var r := RoundMove(fs, m, Dates(l), direction, force, rule, num, s);
    if num == 0 && TakesStart(direction, force) {
      assert r == Ok((Some(s.current), s.listing));
    } else {
      assert r == GetNextImageFolder(fs, m, s.current, l[j].entries, Dates(l), direction, rule);
    }
  }

  /** In a repository, `get_next_image_folder` reaches log index q ± 1, or yields None off the log. */
  lemma {:induction false} StepInRepo(fs: FileSystem, m: Manager, l: seq<DateFolder>, j: int, k: int, q: int,
                                      cur: Models.ImagePromptDirectory, direction: Direction, rule: BoundsRule)
    requires IsRepo(fs, m, l) && IsPosition(l, j, k) && Names(cur, l[j].date, l[j].entries[k])
    requires q == Offset(l, j) + k
    requires rule == Intended || direction == Backward
    ensures Lands(GetNextImageFolder(fs, m, cur, l[j].entries, Dates(l), direction, rule), l, Along(q, direction, 1), l[j].entries)
  {
    var r := GetNextImageFolder(fs, m, cur, l[j].entries, Dates(l), direction, rule);
    if direction == Forward {
      NextFolderForward(fs, m, l, j, k, cur);
    } else {
      NextFolderBackward(fs, m, l, j, k, cur, rule);
    }
    MoveTarget(l, j, k, r, l[j].entries, direction, Along(q, direction, 1));
  }

  /** One round of the paging loop in a repository reaches its target entry and reads its record, or stops off the log. */
  lemma {:induction false} RoundInRepo(fs: FileSystem, m: Manager, l: seq<DateFolder>, direction: Direction, force: bool,
                                       rule: BoundsRule, num: nat, s: PageState, q: int)
    requires IsRepo(fs, m, l) && 0 <= q < |Flat(l)| && NamesAtIndex(s.current, s.listing, l, q)
    requires rule == Intended || direction == Backward
    ensures RoundGoes(Round(fs, m, Dates(l), direction, force, rule, num, s), m.imageRepo, l,
                      Target(num, q, TakesStart(direction, force), direction), s)
  {
    var pos := Locate(l, q);
    MoveInRepo(fs, m, l, direction, force, rule, num, s, pos.0, pos.1, q);
    var t := Target(num, q, TakesStart(direction, force), direction);
    if 0 <= t < |Flat(l)| {
      EntryOfRepo(fs, m, l, t);
    }
    RoundFromMove(fs, m, l, direction, force, rule, num, s, t);
  }

  /** The entry at log index t of a repository is a folder whose name splits. */
  lemma {:induction false} EntryOfRepo(fs: FileSystem, m: Manager, l: seq<DateFolder>, t: int)
    requires IsRepo(fs, m, l) && 0 <= t < |Flat(l)|
    ensures var to := Locate(l, t);
            m.imageRepo + [l[to.0].date, l[to.0].entries[to.1]] in fs.dirs && WellFormedName(l[to.0].entries[to.1])
  {
    var to := Locate(l, t);
    ListingsOfRepo(fs, m, l, to.0);
  }

  /** A round whose move lands on log index t advances to t and reads the record there, or stops off the log. */
  lemma {:induction false} RoundFromMove(fs: FileSystem, m: Manager, l: seq<DateFolder>, direction: Direction, force: bool,
                                         rule: BoundsRule, num: nat, s: PageState, t: int)
    requires Lands(RoundMove(fs, m, Dates(l), direction, force, rule, num, s), l, t, s.listing)
    requires 0 <= t < |Flat(l)| ==>
               var to := Locate(l, t);
               m.imageRepo + [l[to.0].date, l[to.0].entries[to.1]] in fs.dirs && WellFormedName(l[to.0].entries[to.1])
    ensures RoundGoes(Round(fs, m, Dates(l), direction, force, rule, num, s), m.imageRepo, l, t, s)
  {
    if 0 <= t < |Flat(l)| {
      var to := Locate(l, t);
      FlatAt(l, to.0, to.1);
      RoundAdvances(fs, m, Dates(l), direction, force, rule, num, s, l[to.0].date, l[to.0].entries[to.1], l[to.0].entries);
    } else {
      RoundStops(fs, m, Dates(l), direction, force, rule, num, s);
    }
  }

  // ---------------------------------------------------------------------
  // The paging loop as a walk along the log
  // ---------------------------------------------------------------------

  /** Every round of `round`, from a state on log index q, goes to its target or stops off the log. */
  ghost predicate RoundsFollow(round: (nat, PageState) -> RoundOutcome, root: Path, l: seq<DateFolder>, self: bool,
                               direction: Direction) {
    forall num: nat, s: PageState {:trigger round(num, s)} ::
      forall q: int | 0 <= q < |Flat(l)| && NamesAtIndex(s.current, s.listing, l, q) ::
        RoundGoes(round(num, s), root, l, Target(num, q, self, direction), s)
  }

  /** The rounds of a page in a repository follow the log. */
  lemma {:induction false} RoundsFollowInRepo(fs: FileSystem, m: Manager, l: seq<DateFolder>, direction: Direction,
                                              force: bool, rule: BoundsRule)
    requires IsRepo(fs, m, l)
    requires rule == Intended || direction == Backward
    ensures RoundsFollow(RoundIn(fs, m, Dates(l), direction, force, rule), m.imageRepo, l, TakesStart(direction, force), direction)
  {
    var round := RoundIn(fs, m, Dates(l), direction, force, rule);
    forall num: nat, s: PageState
      ensures forall q: int | 0 <= q < |Flat(l)| && NamesAtIndex(s.current, s.listing, l, q) ::
                RoundGoes(round(num, s), m.imageRepo, l, Target(num, q, TakesStart(direction, force), direction), s)
    {
      forall q: int | 0 <= q < |Flat(l)| && NamesAtIndex(s.current, s.listing, l, q)
        ensures RoundGoes(round(num, s), m.imageRepo, l, Target(num, q, TakesStart(direction, force), direction), s)
      {
        RoundInRepo(fs, m, l, direction, force, rule, num, s, q);
      }
    }
  }

  /**
    Final state `r` of a loop begun in state `s` on log index q: it added
    the records of the entries from log index `first` on in `direction`, as
    many as the budget and the log allow, and it ends on the last of them
    (on q when it added none).
   */
  ghost predicate Walked(r: PageState, s: PageState, root: Path, l: seq<DateFolder>, first: int, direction: Direction,
                         budget: int, q: int) {
    && WalkCount(|r.results| - |s.results|, first, direction, budget, |Flat(l)|)
    && WalkShows(r, s, root, l, first, direction)
    && WalkEnds(r, s, l, first, direction, q)
  }

  /** A walk from `first` adds as many records as the budget and the log allow. */
  predicate WalkCount(c: int, first: int, direction: Direction, budget: int, n: int) {
    c == Min(budget, Available(first, direction, n))
  }

  /** The records `r` added to `s` show the log from `first` on in `direction`. */
  predicate WalkShows(r: PageState, s: PageState, root: Path, l: seq<DateFolder>, first: int, direction: Direction) {
    forall i | 0 <= i < |r.results| - |s.results| ::
      0 <= Along(first, direction, i) < |Flat(l)| &&
      ShowsAt(r.results[|s.results| + i], root, l, Along(first, direction, i))
  }

  /** State `r` names the last entry a walk from `first` added, or q when it added none. */
  predicate WalkEnds(r: PageState, s: PageState, l: seq<DateFolder>, first: int, direction: Direction, q: int) {
    var c := |r.results| - |s.results|;
    var last := if c <= 0 then q else Along(first, direction, c - 1);
    0 <= last < |Flat(l)| && NamesAtIndex(r.current, r.listing, l, last)
  }

  /** A loop whose rounds follow the log walks along it. */
  lemma {:induction false} GatherWalks(round: (nat, PageState) -> RoundOutcome, root: Path, l: seq<DateFolder>, self: bool,
                                       direction: Direction, number: nat, num: nat, s: PageState, q: int)
    requires num <= number
    requires RoundsFollow(round, root, l, self, direction)
    requires 0 <= q < |Flat(l)| && NamesAtIndex(s.current, s.listing, l, q)
    ensures Walked(Gather(round, number, num, s), s, root, l, Target(num, q, self, direction), direction, number - num, q)
    decreases number - num, 2
  {
    var t := Target(num, q, self, direction);
    if num == number {
      WalkedNone(Gather(round, number, num, s), s, root, l, t, direction, number - num, q);
    } else {
      GatherRound(round, root, l, self, direction, number, num, s, q, t);
    }
  }

  /** One round of the loop, then the rest of it. */
  lemma {:induction false} GatherRound(round: (nat, PageState) -> RoundOutcome, root: Path, l: seq<DateFolder>, self: bool,
                                       direction: Direction, number: nat, num: nat, s: PageState, q: int, t: int)
    requires num < number && t == Target(num, q, self, direction)
    requires RoundsFollow(round, root, l, self, direction)
    requires 0 <= q < |Flat(l)| && NamesAtIndex(s.current, s.listing, l, q)
    ensures Walked(Gather(round, number, num, s), s, root, l, t, direction, number - num, q)
    decreases number - num, 1
  {
    assert RoundGoes(round(num, s), root, l, t, s);
    GatherOnce(round, number, num, s);
    if 0 <= t < |Flat(l)| {
      GatherAdvance(round, root, l, self, direction, number, num, s, q, t);
    } else {
      WalkedNone(Gather(round, number, num, s), s, root, l, t, direction, number - num, q);
    }
  }

  /** A round that reached log index t, then the rest of the loop. */
  lemma {:induction false} GatherAdvance(round: (nat, PageState) -> RoundOutcome, root: Path, l: seq<DateFolder>,
                                         self: bool, direction: Direction, number: nat, num: nat, s: PageState, q: int,
                                         t: int)
    requires num < number && 0 <= t < |Flat(l)|
    requires RoundsFollow(round, root, l, self, direction)
    requires RoundGoes(round(num, s), root, l, t, s)
    requires Gather(round, number, num, s) ==
             Gather(round, number, num + 1, PageState(s.results + [round(num, s).x], round(num, s).next, round(num, s).listing))
    ensures Walked(Gather(round, number, num, s), s, root, l, t, direction, number - num, q)
    decreases number - num, 0
  {
    var o := round(num, s);
    var s' := PageState(s.results + [o.x], o.next, o.listing);
    GatherWalks(round, root, l, self, direction, number, num + 1, s', t);
    WalkedStep(Gather(round, number, num + 1, s'), s, s', o.x, root, l, t, Target(num + 1, t, self, direction),
               direction, number - num, number - (num + 1), q);
  }

  /** The loop after its round `num`: it goes on from the advanced state, or it ends where the round stopped. */
  lemma {:induction false} GatherOnce(round: (nat, PageState) -> RoundOutcome, number: nat, num: nat, s: PageState)
    requires num < number
    ensures round(num, s).Advanced? ==>
              Gather(round, number, num, s) ==
              Gather(round, number, num + 1, PageState(s.results + [round(num, s).x], round(num, s).next, round(num, s).listing))
    ensures round(num, s).Stopped? ==> Gather(round, number, num, s) == s.(listing := round(num, s).listing)
    ensures round(num, s).Raised? ==> Gather(round, number, num, s) == s
  {
  }

  /** A loop that added nothing, because its budget or the log ran out, ends where it began. */
  lemma {:induction false} WalkedNone(r: PageState, s: PageState, root: Path, l: seq<DateFolder>, first: int,
                                      direction: Direction, budget: int, q: int)
    requires r == s && 0 <= q < |Flat(l)| && NamesAtIndex(s.current, s.listing, l, q)
    requires budget >= 0 && (budget == 0 || Available(first, direction, |Flat(l)|) == 0)
    ensures Walked(r, s, root, l, first, direction, budget, q)
  {
  }

  /** A walk after one round that reached log index t is a walk from the round before. */
  lemma {:induction false} WalkedStep(r: PageState, s: PageState, s': PageState, x: ImagePromptResult, root: Path,
                                      l: seq<DateFolder>, t: int, next: int, direction: Direction, budget: int, budget': int,
                                      q: int)
    requires 0 <= t < |Flat(l)| && ShowsAt(x, root, l, t) && budget >= 1
    requires s'.results == s.results + [x] && next == Along(t, direction, 1) && budget' == budget - 1
    requires |r.results| >= |s'.results| && r.results[..|s'.results|] == s'.results
    requires Walked(r, s', root, l, next, direction, budget', t)
    ensures Walked(r, s, root, l, t, direction, budget, q)
  {
    var c := |r.results| - |s.results|;
    assert r.results[..|s.results| + 1] == s.results + [x];
    assert |r.results| - |s'.results| == c - 1;
    CountStep(c, t, direction, budget, |Flat(l)|);
    ShowsStep(r, s, s', x, root, l, t, direction);
    EndsStep(r, s, s', l, t, direction, q);
  }

  lemma {:induction false} CountStep(c: int, t: int, direction: Direction, budget: int, n: int)
    requires 0 <= t < n && budget >= 1
    requires WalkCount(c - 1, Along(t, direction, 1), direction, budget - 1, n)
    ensures WalkCount(c, t, direction, budget, n)
  {
  }

  lemma {:induction false} ShowsStep(r: PageState, s: PageState, s': PageState, x: ImagePromptResult, root: Path,
                                     l: seq<DateFolder>, t: int, direction: Direction)
    requires 0 <= t < |Flat(l)| && ShowsAt(x, root, l, t)
    requires s'.results == s.results + [x]
    requires |r.results| >= |s.results| + 1 && r.results[..|s.results| + 1] == s.results + [x]
    requires WalkShows(r, s', root, l, Along(t, direction, 1), direction)
    ensures WalkShows(r, s, root, l, t, direction)
  {
    forall i | 0 <= i < |r.results| - |s.results|
      ensures 0 <= Along(t, direction, i) < |Flat(l)| && ShowsAt(r.results[|s.results| + i], root, l, Along(t, direction, i))
    {
      if i == 0 {
        assert r.results[|s.results|] == (s.results + [x])[|s.results|];
      } else {
        assert Along(Along(t, direction, 1), direction, i - 1) == Along(t, direction, i);
        assert |s'.results| + (i - 1) == |s.results| + i;
      }
    }
  }

  lemma {:induction false} EndsStep(r: PageState, s: PageState, s': PageState, l: seq<DateFolder>, t: int,
                                    direction: Direction, q: int)
    requires 0 <= t < |Flat(l)|
    requires |s'.results| == |s.results| + 1 && |r.results| >= |s'.results|
    requires WalkEnds(r, s', l, Along(t, direction, 1), direction, t)
    ensures WalkEnds(r, s, l, t, direction, q)
  {
    var c := |r.results| - |s.results|;
    if c > 1 {
      assert Along(Along(t, direction, 1), direction, c - 2) == Along(t, direction, c - 1);
    }
  }

  // ---------------------------------------------------------------------
  // Pages of a repository
  // ---------------------------------------------------------------------

  /** The records of `page` show the log from log index `lo` on, one entry each, in log order. */
  predicate ShowsFrom(page: seq<ImagePromptResult>, root: Path, l: seq<DateFolder>, lo: int) {
    forall i | 0 <= i < |page| :: 0 <= lo + i < |Flat(l)| && ShowsAt(page[i], root, l, lo + i)
  }

  /** Record `d` names the entry at log index p. */
  predicate NamesEntry(d: Models.ImagePromptDirectory, l: seq<DateFolder>, p: int)
    requires 0 <= p < |Flat(l)|
  {
    Names(d, Flat(l)[p].0, Flat(l)[p].1)
  }

  /** Token `t` names the entry at log index p of the repository at `root`. */
  predicate TokenAt(t: Models.NextToken, root: Path, l: seq<DateFolder>, p: int)
    requires 0 <= p < |Flat(l)|
  {
    TokenNames(t, root, Flat(l)[p].0, Flat(l)[p].1)
  }

  /**
    `r` is the FORWARD page of `number` records from log index `first`: the
    entries from `first` on, as many as asked for and left, in log order;
    a token exactly when the page is full, naming its last entry.
   */
  predicate ForwardPage(page: GetImagePromptsResult, root: Path, l: seq<DateFolder>, number: int, first: int) {
    && |page.results| == Min(Max(number, 0), |Flat(l)| - first)
    && ShowsFrom(page.results, root, l, first)
    && (page.nextToken.Some? <==> 0 < number <= |Flat(l)| - first)
    && (page.nextToken.Some? ==>
          0 <= first + number - 1 < |Flat(l)| && TokenAt(page.nextToken.value, root, l, first + number - 1))
  }

  /**
    `r` is the BACKWARD page of `number` records ending at log index `last`:
    the entries up to `last`, as many as asked for and there are, in log
    order; a token exactly when the page is full and an entry precedes it,
    naming that entry.
   */
  predicate BackwardPage(page: GetImagePromptsResult, root: Path, l: seq<DateFolder>, number: int, last: int) {
    var c := Min(Max(number, 0), last + 1);
    && |page.results| == c
    && ShowsFrom(page.results, root, l, last - c + 1)
    && (page.nextToken.Some? <==> 0 < number <= last)
    && (page.nextToken.Some? ==> 0 <= last - number < |Flat(l)| && TokenAt(page.nextToken.value, root, l, last - number))
  }

  /** Before the loop: the two listings `_get_images` reads, and the loop's start on log index p. */
  lemma {:induction false} StartOfPage(fs: FileSystem, m: Manager, l: seq<DateFolder>, p: int,
                                       start: Models.ImagePromptDirectory)
    requires IsRepo(fs, m, l) && 0 <= p < |Flat(l)| && NamesEntry(start, l, p)
    ensures Listing(fs, m, m.imageRepo) == Ok(Dates(l))
    ensures Listing(fs, m, m.imageRepo + [start.date]) == Ok(l[Locate(l, p).0].entries)
    ensures NamesAtIndex(start, l[Locate(l, p).0].entries, l, p)
  {
    var pos := Locate(l, p);
    FlatAt(l, pos.0, pos.1);
    ListingsOfRepo(fs, m, l, pos.0);
  }

  /** The loop of a page begun on log index p of a repository walks the log. */
  lemma {:induction false} LoopOfPage(fs: FileSystem, m: Manager, l: seq<DateFolder>, direction: Direction, force: bool,
                                      rule: BoundsRule, n: nat, start: Models.ImagePromptDirectory, listing: seq<string>,
                                      p: int)
    requires IsRepo(fs, m, l) && 0 <= p < |Flat(l)| && NamesAtIndex(start, listing, l, p)
    requires rule == Intended || direction == Backward
    ensures Walked(Gather(RoundIn(fs, m, Dates(l), direction, force, rule), n, 0, PageState([], start, listing)),
                   PageState([], start, listing), m.imageRepo, l, Target(0, p, TakesStart(direction, force), direction),
                   direction, n, p)
  {
    RoundsFollowInRepo(fs, m, l, direction, force, rule);
    GatherWalks(RoundIn(fs, m, Dates(l), direction, force, rule), m.imageRepo, l, TakesStart(direction, force), direction,
                n, 0, PageState([], start, listing), p);
  }

  /** The token made from a record names the record's entry. */
  lemma {:induction false} TokenOfRecord(m: Manager, x: ImagePromptResult, l: seq<DateFolder>, p: int)
    requires 0 <= p < |Flat(l)| && ShowsAt(x, m.imageRepo, l, p)
    ensures TokenAt(TokenFor(m, AsDirectory(x)), m.imageRepo, l, p)
  {
  }

  /**
    A FORWARD page from the entry at log index p of a repository: the
    entries from p on when forced, from p + 1 on otherwise, as many as asked
    for and left; a token exactly when the page is full, naming its last
    entry.
   */
  lemma {:induction false} PageForward(fs: FileSystem, m: Manager, l: seq<DateFolder>, number: int,
                                       start: Models.ImagePromptDirectory, force: bool, p: int)
    requires IsRepo(fs, m, l) && 0 <= p < |Flat(l)| && NamesEntry(start, l, p)
    ensures var first := if force then p else p + 1;
            var r := GetImagesPage(fs, m, number, start, Forward, force, Intended);
            number != 0 ==> r.Ok? && ForwardPage(r.value, m.imageRepo, l, number, first)
  {
    if number != 0 {
      StartOfPage(fs, m, l, p, start);
      var listing := l[Locate(l, p).0].entries;
      var n: nat := if number < 0 then 0 else number;
      LoopOfPage(fs, m, l, Forward, force, Intended, n, start, listing, p);
      PageForwardAt(fs, m, l, number, start, force, listing, n, p);
    }
  }

  /** The FORWARD page of a loop that walked the log from `first`, once both listings are read. */
  lemma {:induction false} PageForwardAt(fs: FileSystem, m: Manager, l: seq<DateFolder>, number: int,
                                         start: Models.ImagePromptDirectory, force: bool, listing: seq<string>, n: nat,
                                         p: int)
    requires number != 0 && n == (if number < 0 then 0 else number) && 0 <= p < |Flat(l)|
    requires Listing(fs, m, m.imageRepo) == Ok(Dates(l))
    requires Listing(fs, m, m.imageRepo + [start.date]) == Ok(listing)
    requires Walked(Gather(RoundIn(fs, m, Dates(l), Forward, force, Intended), n, 0, PageState([], start, listing)),
                    PageState([], start, listing), m.imageRepo, l, Target(0, p, TakesStart(Forward, force), Forward),
                    Forward, n, p)
    ensures var first := if force then p else p + 1;
            var r := GetImagesPage(fs, m, number, start, Forward, force, Intended);
            r.Ok? && ForwardPage(r.value, m.imageRepo, l, number, first)
  {
    var s0 := PageState([], start, listing);
    var s := Gather(RoundIn(fs, m, Dates(l), Forward, force, Intended), n, 0, s0);
    var token := NextTokenOf(fs, m, number, s.results, s.listing, Dates(l), Forward, Intended);
    var r := GetImagesPage(fs, m, number, start, Forward, force, Intended);
    PageOfLoop(fs, m, number, start, Forward, force, Intended, Dates(l), listing, n);
    assert (r.Ok? <==> token.Ok?) && (r.Ok? ==> r.value.nextToken == token.value && r.value.results == s.results);
    PageForwardFrom(m, l, number, n, s0, s, token, r, force, p);
  }

  /** `_get_images` once both listings are read: the loop, then the token, then the page. */
  lemma {:induction false} PageOfLoop(fs: FileSystem, m: Manager, number: int, start: Models.ImagePromptDirectory,
                                      direction: Direction, force: bool, rule: BoundsRule, dates: seq<string>,
                                      listing: seq<string>, n: nat)
    requires n == Max(number, 0)
    requires Listing(fs, m, m.imageRepo) == Ok(dates)
    requires Listing(fs, m, m.imageRepo + [start.date]) == Ok(listing)
    ensures var s := Gather(RoundIn(fs, m, dates, direction, force, rule), n, 0, PageState([], start, listing));
            var token := NextTokenOf(fs, m, number, s.results, s.listing, dates, direction, rule);
            var r := GetImagesPage(fs, m, number, start, direction, force, rule);
            && (r.Ok? <==> token.Ok?)
            && (r.Ok? ==> r.value.nextToken == token.value)
            && (r.Ok? && direction == Forward ==> r.value.results == s.results)
            && (r.Ok? && direction == Backward ==> r.value.results == Reverse(s.results))
  {
  }

  /** The FORWARD page of a loop that walked the log from `first`. */
  lemma {:induction false} PageForwardFrom(m: Manager, l: seq<DateFolder>, number: int, n: nat, s0: PageState, s: PageState,
                                           token: Result<Option<Models.NextToken>>, r: Result<GetImagePromptsResult>,
                                           force: bool, p: int)
    requires number != 0 && n == (if number < 0 then 0 else number) && 0 <= p < |Flat(l)| && s0.results == []
    requires Walked(s, s0, m.imageRepo, l, Target(0, p, TakesStart(Forward, force), Forward), Forward, n, p)
    requires |s.results| != number ==> token == Ok(None)
    requires |s.results| == number > 0 ==> token == Ok(Some(TokenFor(m, AsDirectory(s.results[number - 1]))))
    requires r.Ok? <==> token.Ok?
    requires r.Ok? ==> r.value.nextToken == token.value && r.value.results == s.results
    ensures var first := if force then p else p + 1;
            r.Ok? && ForwardPage(r.value, m.imageRepo, l, number, first)
  {
    var first := if force then p else p + 1;
    WalkedForward(s, s0, m.imageRepo, l, Target(0, p, TakesStart(Forward, force), Forward), n, p);
    assert Target(0, p, TakesStart(Forward, force), Forward) == first;
    if |s.results| == number {
      TokenOfRecord(m, s.results[number - 1], l, first + number - 1);
    }
  }

  /** A FORWARD walk from `first` that began with no records shows the log from `first` on. */
  lemma {:induction false} WalkedForward(s: PageState, s0: PageState, root: Path, l: seq<DateFolder>, first: int, n: nat,
                                         q: int)
    requires s0.results == [] && 0 <= first <= |Flat(l)|
    requires Walked(s, s0, root, l, first, Forward, n, q)
    ensures |s.results| == Min(n, |Flat(l)| - first)
    ensures ShowsFrom(s.results, root, l, first)
  {
    forall i | 0 <= i < |s.results|
      ensures 0 <= first + i < |Flat(l)| && ShowsAt(s.results[i], root, l, first + i)
    {
      assert Along(first, Forward, i) == first + i && |s0.results| + i == i;
    }
  }

  /** A BACKWARD walk from `first` that began with no records: put back in log order, it shows the log up to `first`. */
  lemma {:induction false} WalkedBackward(s: PageState, s0: PageState, root: Path, l: seq<DateFolder>, first: int, n: nat,
                                          q: int)
    requires s0.results == [] && 0 <= first < |Flat(l)|
    requires Walked(s, s0, root, l, first, Backward, n, q)
    ensures |s.results| == Min(n, first + 1)
    ensures ShowsFrom(Reverse(s.results), root, l, first - |s.results| + 1)
    ensures |s.results| > 0 ==>
              && 0 <= first - |s.results| + 1 < |Flat(l)|
              && ShowsAt(s.results[|s.results| - 1], root, l, first - |s.results| + 1)
              && NamesAtIndex(s.current, s.listing, l, first - |s.results| + 1)
  {
    var c := |s.results|;
    WalkedBackwardShows(s, s0, root, l, first, first - |s.results| + 1);
    if c > 0 {
      assert Along(first, Backward, c - 1) == first - c + 1 && |s0.results| + (c - 1) == c - 1;
    }
  }

  /** The records of a BACKWARD walk from `first`, put back in log order, show the log up to `first`. */
  lemma WalkedBackwardShows(s: PageState, s0: PageState, root: Path, l: seq<DateFolder>, first: int, lo: int)
    requires s0.results == [] && lo == first - |s.results| + 1
    requires WalkShows(s, s0, root, l, first, Backward)
    ensures ShowsFrom(Reverse(s.results), root, l, lo)
  {
    var c := |s.results|;
    var page := Reverse(s.results);
    forall i | 0 <= i < |page|
      ensures 0 <= lo + i < |Flat(l)| && ShowsAt(page[i], root, l, lo + i)
    {
      var j := c - 1 - i;
      assert Reverse(s.results)[i] == s.results[j];
      assert Along(first, Backward, j) == lo + i && |s0.results| + j == j;
      assert 0 <= Along(first, Backward, j) < |Flat(l)| && ShowsAt(s.results[|s0.results| + j], root, l, Along(first, Backward, j));
    }
  }

  /** In a repository, the step BACKWARD off a record on log index q goes to q - 1, or yields None at 0. */
  lemma {:induction false} BackwardLastInRepo(fs: FileSystem, m: Manager, l: seq<DateFolder>, rule: BoundsRule,
                                              x: ImagePromptResult, cur: Models.ImagePromptDirectory, listing: seq<string>,
                                              q: int, prev: int)
    requires IsRepo(fs, m, l) && 0 <= q < |Flat(l)| && prev + 1 == q
    requires NamesAtIndex(cur, listing, l, q) && ShowsAt(x, m.imageRepo, l, q)
    ensures Lands(GetNextImageFolder(fs, m, AsDirectory(x), listing, Dates(l), Backward, rule), l, prev, listing)
  {
    assert Along(q, Backward, 1) == prev;
    var pos := Locate(l, q);
    FlatAt(l, pos.0, pos.1);
    StepInRepo(fs, m, l, pos.0, pos.1, q, AsDirectory(x), Backward, rule);
  }

  /** In a repository, the token of a full BACKWARD page whose last record is on log index q names the entry before q. */
  lemma {:induction false} BackwardTokenInRepo(fs: FileSystem, m: Manager, l: seq<DateFolder>, rule: BoundsRule,
                                               number: int, results: seq<ImagePromptResult>,
                                               cur: Models.ImagePromptDirectory, listing: seq<string>, q: int,
                                               prev: int)
    requires IsRepo(fs, m, l) && number != 0
    requires |results| > 0 ==>
               && 0 <= q < |Flat(l)|
               && ShowsAt(results[|results| - 1], m.imageRepo, l, q)
               && NamesAtIndex(cur, listing, l, q)
    requires |results| == number ==> prev + 1 == q
    ensures |results| == number ==>
              var t := NextTokenOf(fs, m, number, results, listing, Dates(l), Backward, rule);
              && t.Ok?
              && (t.value.Some? <==> prev >= 0)
              && (t.value.Some? ==> TokenAt(t.value.value, m.imageRepo, l, prev))
  {
    if |results| == number {
      BackwardLastInRepo(fs, m, l, rule, results[|results| - 1], cur, listing, q, prev);
      BackwardTokenOfStep(fs, m, l, rule, number, results, listing, prev);
    }
  }

  /** The token of a full BACKWARD page whose last record steps back onto log index prev: that entry, or none when prev is -1. */
  lemma {:induction false} BackwardTokenOfStep(fs: FileSystem, m: Manager, l: seq<DateFolder>, rule: BoundsRule,
                                               number: int, results: seq<ImagePromptResult>, listing: seq<string>,
                                               prev: int)
    requires |results| == number > 0 && -1 <= prev < |Flat(l)|
    requires Lands(GetNextImageFolder(fs, m, AsDirectory(results[|results| - 1]), listing, Dates(l), Backward, rule), l,
                   prev, listing)
    ensures var t := NextTokenOf(fs, m, number, results, listing, Dates(l), Backward, rule);
            && t.Ok?
            && (t.value.Some? <==> prev >= 0)
            && (t.value.Some? ==> TokenAt(t.value.value, m.imageRepo, l, prev))
  {
    var step := GetNextImageFolder(fs, m, AsDirectory(results[|results| - 1]), listing, Dates(l), Backward, rule);
    var t := NextTokenOf(fs, m, number, results, listing, Dates(l), Backward, rule);
    if prev >= 0 {
      var to := Locate(l, prev);
      assert Moved(step, l[to.0].date, l[to.0].entries[to.1], l[to.0].entries);
      BackwardTokenOfMove(fs, m, number, results, listing, Dates(l), rule);
      FlatAt(l, to.0, to.1);
      assert t == Ok(Some(TokenFor(m, step.value.0.value)));
      assert Names(step.value.0.value, Flat(l)[prev].0, Flat(l)[prev].1);
    } else {
      assert step == Ok((None, listing));
      BackwardTokenOfMove(fs, m, number, results, listing, Dates(l), rule);
    }
  }

  /** The token of a full BACKWARD page comes from the step back off its last record. */
  lemma BackwardTokenOfMove(fs: FileSystem, m: Manager, number: int, results: seq<ImagePromptResult>,
                            listing: seq<string>, dates: seq<string>, rule: BoundsRule)
    requires |results| == number > 0
    requires GetNextImageFolder(fs, m, AsDirectory(results[|results| - 1]), listing, dates, Backward, rule).Ok?
    ensures var step := GetNextImageFolder(fs, m, AsDirectory(results[|results| - 1]), listing, dates, Backward, rule);
            NextTokenOf(fs, m, number, results, listing, dates, Backward, rule) ==
            if step.value.0.None? then Ok(None) else Ok(Some(TokenFor(m, step.value.0.value)))
  {
  }

  /**
    A BACKWARD page from the entry at log index p of a repository, under
    either bounds rule: the entry at p and those before it, as many as asked
    for and there are, in log order; a token exactly when the page is full
    and an entry precedes it, naming that entry.
   */
  lemma {:induction false} PageBackward(fs: FileSystem, m: Manager, l: seq<DateFolder>, number: int,
                                        start: Models.ImagePromptDirectory, force: bool, rule: BoundsRule, p: int)
    requires IsRepo(fs, m, l) && 0 <= p < |Flat(l)| && NamesEntry(start, l, p)
    ensures var r := GetImagesPage(fs, m, number, start, Backward, force, rule);
            number != 0 ==> r.Ok? && BackwardPage(r.value, m.imageRepo, l, number, p)
  {
    if number != 0 {
      StartOfPage(fs, m, l, p, start);
      var listing := l[Locate(l, p).0].entries;
      var n: nat := if number < 0 then 0 else number;
      var s0 := PageState([], start, listing);
      LoopOfPage(fs, m, l, Backward, force, rule, n, start, listing, p);
      BackwardTokenOfLoop(fs, m, l, number, start, force, rule, listing, n, p);
      PageBackwardRecords(fs, m, l, number, start, force, rule, listing, n, p);
      PageBackwardToken(fs, m, l, number, start, force, rule, listing, n, p);
    }
  }

  /** In a repository, a BACKWARD loop down from p that filled the page has the token of the entry before the page. */
  lemma {:induction false} BackwardTokenOfLoop(fs: FileSystem, m: Manager, l: seq<DateFolder>, number: int,
                                               start: Models.ImagePromptDirectory, force: bool, rule: BoundsRule,
                                               listing: seq<string>, n: nat, p: int)
    requires IsRepo(fs, m, l) && number != 0 && n == (if number < 0 then 0 else number) && 0 <= p < |Flat(l)|
    requires Walked(Gather(RoundIn(fs, m, Dates(l), Backward, force, rule), n, 0, PageState([], start, listing)),
                    PageState([], start, listing), m.imageRepo, l, Target(0, p, TakesStart(Backward, force), Backward),
                    Backward, n, p)
    ensures var s := Gather(RoundIn(fs, m, Dates(l), Backward, force, rule), n, 0, PageState([], start, listing));
            && |s.results| == Min(n, p + 1)
            && (|s.results| == number ==>
                  var t := NextTokenOf(fs, m, number, s.results, s.listing, Dates(l), Backward, rule);
                  && t.Ok?
                  && (t.value.Some? <==> p - number >= 0)
                  && (t.value.Some? ==> TokenAt(t.value.value, m.imageRepo, l, p - number)))
  {
    var s0 := PageState([], start, listing);
    var s := Gather(RoundIn(fs, m, Dates(l), Backward, force, rule), n, 0, s0);
    BackwardTokenOfWalk(fs, m, l, rule, number, s, s0, Target(0, p, TakesStart(Backward, force), Backward), n, p);
  }

  /** The same, for any record of a BACKWARD walk down from p. */
  lemma {:induction false} BackwardTokenOfWalk(fs: FileSystem, m: Manager, l: seq<DateFolder>, rule: BoundsRule,
                                               number: int, s: PageState, s0: PageState, first: int, n: nat, p: int)
    requires IsRepo(fs, m, l) && number != 0 && n == (if number < 0 then 0 else number) && 0 <= p < |Flat(l)|
    requires s0.results == [] && first == p
    requires Walked(s, s0, m.imageRepo, l, first, Backward, n, p)
    ensures && |s.results| == Min(n, p + 1)
            && (|s.results| == number ==>
                  var t := NextTokenOf(fs, m, number, s.results, s.listing, Dates(l), Backward, rule);
                  && t.Ok?
                  && (t.value.Some? <==> p - number >= 0)
                  && (t.value.Some? ==> TokenAt(t.value.value, m.imageRepo, l, p - number)))
  {
    var c := |s.results|;
    var q := first - c + 1;
    WalkedBackward(s, s0, m.imageRepo, l, first, n, p);
    assert c > 0 ==> 0 <= q < |Flat(l)| && ShowsAt(s.results[c - 1], m.imageRepo, l, q)
                     && NamesAtIndex(s.current, s.listing, l, q);
    assert c == number ==> p - number + 1 == q;
    BackwardTokenInRepo(fs, m, l, rule, number, s.results, s.current, s.listing, q, p - number);
  }

  /** The records of a BACKWARD page whose loop walked the log down from p, once both listings are read. */
  lemma {:induction false} PageBackwardRecords(fs: FileSystem, m: Manager, l: seq<DateFolder>, number: int,
                                               start: Models.ImagePromptDirectory, force: bool, rule: BoundsRule,
                                               listing: seq<string>, n: nat, p: int)
    requires n == (if number < 0 then 0 else number) && 0 <= p < |Flat(l)|
    requires Listing(fs, m, m.imageRepo) == Ok(Dates(l))
    requires Listing(fs, m, m.imageRepo + [start.date]) == Ok(listing)
    requires Walked(Gather(RoundIn(fs, m, Dates(l), Backward, force, rule), n, 0, PageState([], start, listing)),
                    PageState([], start, listing), m.imageRepo, l, Target(0, p, TakesStart(Backward, force), Backward),
                    Backward, n, p)
    ensures var c := Min(Max(number, 0), p + 1);
            var r := GetImagesPage(fs, m, number, start, Backward, force, rule);
            r.Ok? ==> |r.value.results| == c && ShowsFrom(r.value.results, m.imageRepo, l, p - c + 1)
  {
    var s0 := PageState([], start, listing);
    var s := Gather(RoundIn(fs, m, Dates(l), Backward, force, rule), n, 0, s0);
    PageOfLoop(fs, m, number, start, Backward, force, rule, Dates(l), listing, n);
    PageBackwardShows(m, l, number, n, s0, s, GetImagesPage(fs, m, number, start, Backward, force, rule), force, p);
  }

  /** Put back in log order, the records of a loop that walked the log down from p show the entries up to p. */
  lemma {:induction false} PageBackwardShows(m: Manager, l: seq<DateFolder>, number: int, n: nat, s0: PageState,
                                             s: PageState, r: Result<GetImagePromptsResult>, force: bool, p: int)
    requires n == (if number < 0 then 0 else number) && 0 <= p < |Flat(l)| && s0.results == []
    requires Walked(s, s0, m.imageRepo, l, Target(0, p, TakesStart(Backward, force), Backward), Backward, n, p)
    requires r.Ok? ==> r.value.results == Reverse(s.results)
    ensures var c := Min(Max(number, 0), p + 1);
            r.Ok? ==> |r.value.results| == c && ShowsFrom(r.value.results, m.imageRepo, l, p - c + 1)
  {
    var first := Target(0, p, TakesStart(Backward, force), Backward);
    assert first == p;
    WalkedBackward(s, s0, m.imageRepo, l, first, n, p);
  }

  /** The token of a BACKWARD page whose loop walked the log down from p, once both listings are read. */
  lemma {:induction false} PageBackwardToken(fs: FileSystem, m: Manager, l: seq<DateFolder>, number: int,
                                             start: Models.ImagePromptDirectory, force: bool, rule: BoundsRule,
                                             listing: seq<string>, n: nat, p: int)
    requires number != 0 && n == (if number < 0 then 0 else number) && 0 <= p < |Flat(l)|
    requires Listing(fs, m, m.imageRepo) == Ok(Dates(l))
    requires Listing(fs, m, m.imageRepo + [start.date]) == Ok(listing)
    requires var s := Gather(RoundIn(fs, m, Dates(l), Backward, force, rule), n, 0, PageState([], start, listing));
             && |s.results| == Min(n, p + 1)
             && (|s.results| == number ==>
                   var t := NextTokenOf(fs, m, number, s.results, s.listing, Dates(l), Backward, rule);
                   && t.Ok?
                   && (t.value.Some? <==> p - number >= 0)
                   && (t.value.Some? ==> TokenAt(t.value.value, m.imageRepo, l, p - number)))
    ensures var r := GetImagesPage(fs, m, number, start, Backward, force, rule);
            && r.Ok?
            && (r.value.nextToken.Some? <==> 0 < number <= p)
            && (r.value.nextToken.Some? ==> TokenAt(r.value.nextToken.value, m.imageRepo, l, p - number))
  {
    var s := Gather(RoundIn(fs, m, Dates(l), Backward, force, rule), n, 0, PageState([], start, listing));
    PageOfLoop(fs, m, number, start, Backward, force, rule, Dates(l), listing, n);
  }

  // ---------------------------------------------------------------------
  // The first page, and pages that follow one another
  // ---------------------------------------------------------------------

  /** The latest record of a non-empty repository is its first log entry. */
  lemma {:induction false} LatestOfRepo(fs: FileSystem, m: Manager, l: seq<DateFolder>)
    requires IsRepo(fs, m, l) && |l| > 0
    ensures GetLatestImagesInRepo(fs, m).Some?
    ensures 0 < |Flat(l)| && NamesEntry(LatestDirectory(m, GetLatestImagesInRepo(fs, m).value), l, 0)
  {
    ListingsOfRepo(fs, m, l, 0);
    FlatAt(l, 0, 0);
    assert IsPosition(l, 0, 0);
    assert FirstListed(fs, m, m.imageRepo) == Ok(l[0].date);
    assert FirstListed(fs, m, m.imageRepo + [l[0].date]) == Ok(l[0].entries[0]);
  }

  /** An empty repository has no latest record, so `get_init_images` raises AttributeError. */
  lemma InitPageOfEmpty(fs: FileSystem, m: Manager, l: seq<DateFolder>, number: int, rule: BoundsRule)
    requires IsRepo(fs, m, l) && |l| == 0
    ensures GetLatestImagesInRepo(fs, m).None?
    ensures GetInitImages(fs, m, number, rule) == Err(AttributeError)
  {
    assert fs.dirs[m.imageRepo] == {};
  }

  /**
    The first page of a non-empty repository: the newest entries, the
    latest one included, as many as asked for and there are; a token
    exactly when the page is full, naming its last entry.
   */
  lemma {:induction false} InitPage(fs: FileSystem, m: Manager, l: seq<DateFolder>, number: int)
    requires IsRepo(fs, m, l) && |l| > 0
    ensures var r := GetInitImages(fs, m, number, Intended);
            number != 0 ==> r.Ok? && ForwardPage(r.value, m.imageRepo, l, number, 0)
  {
    LatestOfRepo(fs, m, l);
    var start := LatestDirectory(m, GetLatestImagesInRepo(fs, m).value);
    PageForward(fs, m, l, number, start, true, 0);
    assert GetInitImages(fs, m, number, Intended) == GetImagesPage(fs, m, number, start, Forward, true, Intended);
  }

  /** A token resumes paging on the entry it names. */
  lemma TokenResumes(t: Models.NextToken, root: Path, l: seq<DateFolder>, q: int)
    requires 0 <= q < |Flat(l)| && TokenAt(t, root, l, q)
    ensures NamesEntry(TokenDirectory(t), l, q)
  {
  }

  /** Two runs of records that show the log side by side show it together. */
  lemma ShowsFromJoin(a: seq<ImagePromptResult>, b: seq<ImagePromptResult>, root: Path, l: seq<DateFolder>, lo: int)
    requires ShowsFrom(a, root, l, lo) && ShowsFrom(b, root, l, lo + |a|)
    ensures ShowsFrom(a + b, root, l, lo)
  {
    var page := a + b;
    forall i | 0 <= i < |page|
      ensures 0 <= lo + i < |Flat(l)| && ShowsAt(page[i], root, l, lo + i)
    {
      if i < |a| {
        assert page[i] == a[i];
        assert 0 <= lo + i < |Flat(l)| && ShowsAt(a[i], root, l, lo + i);
      } else {
        var k := i - |a|;
        assert page[i] == b[k];
        assert 0 <= lo + |a| + k < |Flat(l)| && ShowsAt(b[k], root, l, lo + |a| + k);
      }
    }
  }

  /** A full FORWARD page and the one after its last entry show the log together. */
  lemma ForwardPagesJoin(page: GetImagePromptsResult, next: GetImagePromptsResult, root: Path, l: seq<DateFolder>,
                         number: int, first: int, last: int)
    requires ForwardPage(page, root, l, number, first) && page.nextToken.Some? && last == first + number - 1
    requires ForwardPage(next, root, l, number, last + 1)
    ensures |next.results| == Min(number, |Flat(l)| - first - number)
    ensures ShowsFrom(page.results + next.results, root, l, first)
  {
    ShowsFromJoin(page.results, next.results, root, l, first);
  }

  /** The page before a full BACKWARD page, older entries first, and that page show the log together. */
  lemma BackwardPagesJoin(page: GetImagePromptsResult, before: GetImagePromptsResult, root: Path, l: seq<DateFolder>,
                          number: int, last: int)
    requires BackwardPage(page, root, l, number, last) && page.nextToken.Some?
    requires BackwardPage(before, root, l, number, last - number)
    ensures |before.results| == Min(number, last - number + 1)
    ensures ShowsFrom(before.results + page.results, root, l, last - number - Min(number, last - number + 1) + 1)
  {
    ShowsFromJoin(before.results, page.results, root, l, last - number - Min(number, last - number + 1) + 1);
  }

  /** The token of a full FORWARD page names the page's last entry. */
  lemma ForwardPageToken(page: GetImagePromptsResult, root: Path, l: seq<DateFolder>, number: int, first: int,
                         last: int)
    requires ForwardPage(page, root, l, number, first) && page.nextToken.Some? && last == first + number - 1
    ensures 0 <= last < |Flat(l)| && NamesEntry(TokenDirectory(page.nextToken.value), l, last)
  {
  }

  /** The token of a full FORWARD page from log index `first` fetches the FORWARD page from `first + number`. */
  lemma {:induction false} ForwardPageResumes(fs: FileSystem, m: Manager, l: seq<DateFolder>, number: int,
                                              page: GetImagePromptsResult, first: int)
    requires IsRepo(fs, m, l) && ForwardPage(page, m.imageRepo, l, number, first) && page.nextToken.Some?
    ensures GetImages(fs, m, number, page.nextToken, Forward, Intended).Ok?
    ensures GetImages(fs, m, number, page.nextToken, Forward, Intended).value.Some?
    ensures ForwardPage(GetImages(fs, m, number, page.nextToken, Forward, Intended).value.value, m.imageRepo, l, number,
                        first + number)
  {
    var last := first + number - 1;
    ForwardPageToken(page, m.imageRepo, l, number, first, last);
    var start := TokenDirectory(page.nextToken.value);
    PageForward(fs, m, l, number, start, false, last);
    assert last + 1 == first + number;
    assert GetImages(fs, m, number, page.nextToken, Forward, Intended) ==
           Ok(Some(GetImagesPage(fs, m, number, start, Forward, false, Intended).value));
  }

  /**
    A caller paging FORWARD: it hands each token to `fetch` and keeps the
    records until a page comes back without a token, at most `fuel` calls.
    The result is the records of all those pages, in order, and the last
    token seen.
   */
  function FollowTokens(fetch: Option<Models.NextToken> -> Result<Option<GetImagePromptsResult>>,
                        token: Option<Models.NextToken>, fuel: nat)
    : (r: Result<(seq<ImagePromptResult>, Option<Models.NextToken>)>)
    ensures token.None? ==> r == Ok(([], None))
    ensures fuel == 0 ==> r == Ok(([], token))
    decreases fuel
  {
    if fuel == 0 || token.None? then Ok(([], token))
    else
      match fetch(token)
      case Err(e) => Err(e)
      case Ok(None) => Ok(([], None))
      case Ok(Some(page)) =>
        var rest :- FollowTokens(fetch, page.nextToken, fuel - 1);
        Ok((page.results + rest.0, rest.1))
  }

  /** `get_images` paging FORWARD `number` records at a time, as the fetch step of a caller. */
  function ForwardFetch(fs: FileSystem, m: Manager, number: int)
    : Option<Models.NextToken> -> Result<Option<GetImagePromptsResult>>
  {
    t => GetImages(fs, m, number, t, Forward, Intended)
  }

  /** `fetch` turns the token of every full FORWARD page into the FORWARD page right after it. */
  ghost predicate Resumes(fetch: Option<Models.NextToken> -> Result<Option<GetImagePromptsResult>>, root: Path,
                          l: seq<DateFolder>, number: int)
  {
    forall page: GetImagePromptsResult, first: int
      {:trigger ForwardPage(page, root, l, number, first), fetch(page.nextToken)}
      :: ForwardPage(page, root, l, number, first) && page.nextToken.Some? ==>
           && fetch(page.nextToken).Ok? && fetch(page.nextToken).value.Some?
           && ForwardPage(fetch(page.nextToken).value.value, root, l, number, first + number)
  }

  /** In a repository, `get_images` turns every full FORWARD page's token into the page right after it. */
  lemma RepoResumes(fs: FileSystem, m: Manager, l: seq<DateFolder>, number: int)
    requires IsRepo(fs, m, l)
    ensures Resumes(ForwardFetch(fs, m, number), m.imageRepo, l, number)
  {
    forall page: GetImagePromptsResult, first: int
      | ForwardPage(page, m.imageRepo, l, number, first) && page.nextToken.Some?
      ensures && ForwardFetch(fs, m, number)(page.nextToken).Ok?
              && ForwardFetch(fs, m, number)(page.nextToken).value.Some?
              && ForwardPage(ForwardFetch(fs, m, number)(page.nextToken).value.value, m.imageRepo, l, number,
                             first + number)
    {
      ForwardPageResumes(fs, m, l, number, page, first);
    }
  }

  /**
    Following the tokens from a FORWARD page that starts at log index
    `first` shows the rest of the log: the page and everything fetched
    after it show every entry from `first` on exactly once, in log order,
    and the last page has no token.
   */
  lemma {:induction false} ChainFrom(fetch: Option<Models.NextToken> -> Result<Option<GetImagePromptsResult>>,
                                     root: Path, l: seq<DateFolder>, number: int, page: GetImagePromptsResult,
                                     first: int, fuel: nat)
    requires Resumes(fetch, root, l, number) && number > 0
    requires ForwardPage(page, root, l, number, first) && 0 <= first <= |Flat(l)|
    requires fuel >= |Flat(l)| - first
    ensures FollowTokens(fetch, page.nextToken, fuel).Ok?
    ensures FollowTokens(fetch, page.nextToken, fuel).value.1.None?
    ensures |page.results| + |FollowTokens(fetch, page.nextToken, fuel).value.0| == |Flat(l)| - first
    ensures ShowsFrom(page.results + FollowTokens(fetch, page.nextToken, fuel).value.0, root, l, first)
    decreases fuel
  {
    if page.nextToken.None? {
      assert page.results + [] == page.results;
    } else {
      var last := first + number - 1;
      var next := fetch(page.nextToken).value.value;
      ChainFrom(fetch, root, l, number, next, last + 1, fuel - 1);
      var rest := FollowTokens(fetch, next.nextToken, fuel - 1).value;
      assert FollowTokens(fetch, page.nextToken, fuel) == Ok((next.results + rest.0, rest.1));
      ChainJoin(page, next.results + rest.0, root, l, number, first, last);
    }
  }

  /** A full FORWARD page followed by records that show the rest of the log after it shows the log from its start. */
  lemma ChainJoin(page: GetImagePromptsResult, tail: seq<ImagePromptResult>, root: Path, l: seq<DateFolder>,
                  number: int, first: int, last: int)
    requires ForwardPage(page, root, l, number, first) && page.nextToken.Some? && last == first + number - 1
    requires |tail| == |Flat(l)| - (last + 1) && ShowsFrom(tail, root, l, last + 1)
    ensures |page.results| + |tail| == |Flat(l)| - first
    ensures ShowsFrom(page.results + tail, root, l, first)
  {
    ShowsFromJoin(page.results, tail, root, l, first);
  }

  /**
    Pagination is complete: the first page of a non-empty repository
    followed by every page its tokens lead to shows each entry of the log
    exactly once, newest first, and the last page has no token.
   */
  lemma {:induction false} PaginationComplete(fs: FileSystem, m: Manager, l: seq<DateFolder>, number: int, fuel: nat)
    requires IsRepo(fs, m, l) && |l| > 0 && number > 0 && fuel >= |Flat(l)|
    ensures GetInitImages(fs, m, number, Intended).Ok?
    ensures var init := GetInitImages(fs, m, number, Intended).value;
            var r := FollowTokens(ForwardFetch(fs, m, number), init.nextToken, fuel);
            && r.Ok? && r.value.1.None?
            && |init.results + r.value.0| == |Flat(l)|
            && ShowsFrom(init.results + r.value.0, m.imageRepo, l, 0)
  {
    InitPage(fs, m, l, number);
    RepoResumes(fs, m, l, number);
    var init := GetInitImages(fs, m, number, Intended).value;
    ChainFrom(ForwardFetch(fs, m, number), m.imageRepo, l, number, init, 0, fuel);
  }

  /** The token of a full BACKWARD page fetches the BACKWARD page that ends right before it. */
  lemma {:induction false} BackwardPageResumes(fs: FileSystem, m: Manager, l: seq<DateFolder>, number: int,
                                               page: GetImagePromptsResult, rule: BoundsRule, last: int)
    requires IsRepo(fs, m, l) && BackwardPage(page, m.imageRepo, l, number, last)
    requires page.nextToken.Some?
    ensures var r := GetImages(fs, m, number, page.nextToken, Backward, rule);
            r.Ok? && r.value.Some? && BackwardPage(r.value.value, m.imageRepo, l, number, last - number)
  {
    var t := page.nextToken.value;
    TokenResumes(t, m.imageRepo, l, last - number);
    PageBackward(fs, m, l, number, TokenDirectory(t), false, rule, last - number);
  }

  // ---------------------------------------------------------------------
  // The bounds check as written
  // ---------------------------------------------------------------------

  /**
    A repository `r` with two dates, 02 and 01, each holding the one entry
    `1_x`, listed newest first.
   */
  function TwoDateRepo(): FileSystem {
    FileSystem(map[["r"] := {"02", "01"}, ["r", "02"] := {"1_x"}, ["r", "01"] := {"1_x"},
                   ["r", "02", "1_x"] := {}, ["r", "01", "1_x"] := {}])
  }

  /**
    As written, the date bounds check measures the entry listing: stepping
    FORWARD from the only entry of date 02 finds that index 1 is not below
    the listing's length 1 and reports the end of the repository, although
    date 01 follows. The intended check measures the date list and enters
    date 01.
   */
  lemma AsWrittenStopsEarly()
    ensures GetNextImageFolder(TwoDateRepo(), Manager(["r"], true), Models.ImagePromptDirectory("x", "r", "02", "1"),
                               ["1_x"], ["02", "01"], Forward, AsWritten)
            == Ok((None, ["1_x"]))
    ensures GetNextImageFolder(TwoDateRepo(), Manager(["r"], true), Models.ImagePromptDirectory("x", "r", "02", "1"),
                               ["1_x"], ["02", "01"], Forward, Intended)
            == Ok((Some(Models.ImagePromptDirectory("x", "r", "01", "1")), ["1_x"]))
  {
    var fs := TwoDateRepo();
    var m := Manager(["r"], true);
    assert GenerateFileName("1", "x") == "1_x";
    assert IndexOf(["1_x"], "1_x") == Ok(0);
    assert IndexOf(["02", "01"], "02") == Ok(0);
    assert m.imageRepo + ["01"] == ["r", "01"];
    var entries := Listing(fs, m, ["r", "01"]).value;
    assert entries[0] in fs.dirs[["r", "01"]];
    assert entries == ["1_x"];
    SplitPairRoundTrip("1", "x");
    assert SplitPair("1_x") == Ok(("1", "x"));
    assert EnterDate(fs, m, "01", Forward) == Ok((Some(Models.ImagePromptDirectory("x", "r", "01", "1")), ["1_x"]));
  }

  /**
    As written, the same check raises at the end of the log: stepping
    FORWARD from the last entry of the oldest date 01, whose listing holds
    three entries, finds the next date index 2 below the entry count 3 and
    reads past the end of the two-date list. The intended check reports the
    end of the repository.
   */
  lemma AsWrittenRaisesAtEnd(fs: FileSystem)
    ensures GetNextImageFolder(fs, Manager(["r"], true), Models.ImagePromptDirectory("c", "r", "01", "1"),
                               ["3_a", "2_b", "1_c"], ["02", "01"], Forward, AsWritten)
            == Err(IndexError)
    ensures GetNextImageFolder(fs, Manager(["r"], true), Models.ImagePromptDirectory("c", "r", "01", "1"),
                               ["3_a", "2_b", "1_c"], ["02", "01"], Forward, Intended)
            == Ok((None, ["3_a", "2_b", "1_c"]))
  {
    assert GenerateFileName("1", "c") == "1_c";
    assert IndexOf(["3_a", "2_b", "1_c"], "1_c") == Ok(2);
    assert IndexOf(["02", "01"], "01") == Ok(1);
  }

  /**
    The loop of `_get_images` catches that IndexError: a FORWARD page of one
    record from the same entry stops in its first round and comes back
    empty, without a token, as the intended check's page does.
   */
  lemma AsWrittenRaiseCaught(fs: FileSystem)
    requires Listing(fs, Manager(["r"], true), ["r"]) == Ok(["02", "01"])
    requires Listing(fs, Manager(["r"], true), ["r", "01"]) == Ok(["3_a", "2_b", "1_c"])
    ensures GetImagesPage(fs, Manager(["r"], true), 1, Models.ImagePromptDirectory("c", "r", "01", "1"), Forward, false,
                          AsWritten)
            == Ok(GetImagePromptsResult([], None))
    ensures GetImagesPage(fs, Manager(["r"], true), 1, Models.ImagePromptDirectory("c", "r", "01", "1"), Forward, false,
                          Intended)
            == Ok(GetImagePromptsResult([], None))
  {
    var m := Manager(["r"], true);
    var start := Models.ImagePromptDirectory("c", "r", "01", "1");
    var listing := ["3_a", "2_b", "1_c"];
    var s0 := PageState([], start, listing);
    assert m.imageRepo + [start.date] == ["r", "01"];
    AsWrittenRaisesAtEnd(fs);
    assert Round(fs, m, ["02", "01"], Forward, false, AsWritten, 0, s0) == Raised;
    assert Gather(RoundIn(fs, m, ["02", "01"], Forward, false, AsWritten), 1, 0, s0) == s0;
    assert Round(fs, m, ["02", "01"], Forward, false, Intended, 0, s0) == Stopped(listing);
    assert Gather(RoundIn(fs, m, ["02", "01"], Forward, false, Intended), 1, 0, s0) == s0;
  }
}
