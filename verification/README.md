# DalleDisplayer repository paging, in Dafny

DalleDisplayer keeps the images it generates in a folder tree
`imageRepo/<date>/<time>_<prompt>/`. Date folders are named by ISO date and
entry folders by ISO time, an underscore and the prompt, so sorting names as
strings sorts them by age. The repository is read as one log: date folders
newest first, and inside each date the entries newest first. It is paged
through in both directions. This project models that paging engine and
proves what it returns. It covers four layers:

- **Neighbour search** (`algoUtils.py`, and its copy in `pathingUtils.py`).
  It covers the two hand-written binary searches over a descending list and
  the "index of the next name forward (smaller) or backward (greater)"
  search built on them. Module `AlgoUtils` and part of `PathingUtils`.
- **Listings** (`pathingUtils.py`). A directory listing is its set of child
  names sorted by name (`PathingUtils`). `StringOrder` supplies Python's
  string order (code-point lexicographic).
- **Entry names** (`repoManager/utils.py`). An entry name is
  `time + "_" + prompt`. It has a first-underscore split (`RepoUtils`) and
  the Python `split("_")` with its two-value unpacking (`RepoUtils.SplitPair`).
- **`DirectoryIterator`**. It is a cursor over the log with three optional
  fields and a date snapshot taken once, stepped in a direction given per
  call (`DirectoryIterator`).
- **`RepoManager` paging**. This covers `get_next_image_folder`,
  `_get_images` with its token, `get_images`, `get_init_images` and
  `get_latest_images_in_repo` (`RepoManager`). The records of `Models.py`
  are in `Models`.

The filesystem is a value, `FileSystem(dirs: map<Path, set<string>>)`. A
path is a directory exactly when it is a key, and its value is the set of its
children's names. `Layout` reads such a tree as a sequence of
`DateFolder(date, entries)` and flattens it into the log of (date, name)
pairs that the paging theorems are stated over. A Python exception is an
`Err` value of `Common.Result` naming the exception. An operation that
catches exceptions (the loop of `_get_images`, `get_latest_images_in_repo`)
turns an `Err` into a stop or a `None`, as the source does.

Two points of the source shape the model:

- `DirectoryIterator.__init__` lists the bookmark's date folder unguarded,
  so a bookmark whose date folder is missing raises FileNotFoundError, and
  the model raises it too.
- RepoManager.py calls `get_sorted_directory_by_name(path)` with one
  argument. The function in `pathingUtils.py` also requires `reverse`, so
  as written that call raises TypeError. The model leaves the order as a
  parameter, `Manager.listingReverse`. The paging theorems assume
  newest-first listings (`RepoManager.IsRepo`), the order `DirectoryIterator`
  reads with.

## Model

| member | source | states |
|---|---|---|
| AlgoUtils.BisectRightFrom | src/utils/algoUtils.py:22-27 | the search loop of `reverse_bisect_right` ends inside `[lo, hi]` and returns `lo` on an empty range |
| AlgoUtils.BisectLeftFrom | src/utils/algoUtils.py:46-51 | the search loop of `reverse_bisect_left` ends inside `[lo, hi]` and returns `lo` on an empty range |
| AlgoUtils.BisectRightPartition | src/utils/algoUtils.py:22-27 | on a descending list, every element before the result is `>= x` and every element from it up to `hi` is `< x` |
| AlgoUtils.BisectLeftPartition | src/utils/algoUtils.py:46-51 | on a descending list, every element before the result is `> x` and every element from it up to `hi` is `<= x` |
| AlgoUtils.ReverseBisectRight | src/utils/algoUtils.py:7-27 | raises ValueError exactly when `lo < 0`; `hi` defaults to the length; otherwise the loop terminates with the partition point |
| AlgoUtils.ReverseBisectLeft | src/utils/algoUtils.py:31-51 | the mirror of ReverseBisectRight: ValueError exactly when `lo < 0`, otherwise the `> x` / `<= x` partition point |
| AlgoUtils.NextStringIndex | src/utils/algoUtils.py:54-84 | None for a missing or empty list in both directions; a returned index is always inside the list |
| AlgoUtils.NextStringIndexNeighbour | src/utils/algoUtils.py:75-84 | on a descending list, FORWARD returns the first element strictly below the key (None if there is none) and BACKWARD returns the last element strictly above it |
| AlgoUtils.NextStringIndexOfPresent | src/utils/algoUtils.py:75-84 | for the key at index k of a strictly descending list, FORWARD gives k + 1 and BACKWARD gives k - 1, with None past either end; so each direction undoes the other |
| AlgoUtils.ForwardFromAboveAll | src/utils/algoUtils.py:75-79 | a key above every name moves FORWARD onto index 0 |
| AlgoUtils.BackwardFromBelowAll | src/utils/algoUtils.py:80-83 | a key below every name moves BACKWARD onto the last index |
| AlgoUtils.NextStringIndexExamples | test/utils/test_algoUtils.py:11-98 | the fixed cases: no list, a key equal to the only name, and an absent key with one neighbour, in both directions |
| AlgoUtils.NextStringIndexSentinelExamples | test/utils/test_algoUtils.py:101-132 | "9999-99-99" FORWARD lands on index 0 and "0000-00-00" BACKWARD lands on the last index |
| PathingUtils.MaxName | src/utils/pathingUtils.py:79-81 | the greatest name of a non-empty set belongs to it |
| PathingUtils.SortDescending | src/utils/pathingUtils.py:79-81 | `sorted(..., reverse=True)` over a set gives every name exactly once, strictly descending |
| PathingUtils.SortAscending | src/utils/pathingUtils.py:79-81 | `sorted(...)` over a set gives every name exactly once, strictly ascending |
| PathingUtils.SortedDirectoryByName | src/utils/pathingUtils.py:58-82 | FileNotFoundError exactly when the path is not a directory; otherwise exactly the child names, nothing added or dropped, ascending or descending as `reverse` says |
| PathingUtils.ReverseSortedDirectoryByName | src/utils/pathingUtils.py:85-89 | the `reverse=True` listing: all children, strictly descending, or FileNotFoundError |
| PathingUtils.StrictlyDescendingUnique | src/utils/pathingUtils.py:79-81 | two strictly descending sequences with the same names are equal, so a listing is determined by the directory's contents |
| PathingUtils.ReverseListingUnique | src/utils/pathingUtils.py:85-89 | the descending listing of a directory is the one strictly descending sequence of its children |
| PathingUtils.NextFileIndex | src/utils/pathingUtils.py:92-126 | agrees with `get_next_string_index_from_reverse_sorted` on every input |
| PathingUtils.NextFileIndexExamples | test/utils/test_pathingUtils.py:11-132 | no list gives None; a key equal to the only element has no neighbour either way; the rewind sentinels land on the first and last index |
| RepoUtils.GenerateFileName | src/repoManager/utils.py:2-9 | the name is `time`, then `'_'` right after it, then `prompt`, and its length is the two lengths plus one |
| RepoUtils.SplitFirst | src/repoManager/utils.py:2-9 | splitting at the first underscore fails exactly when there is none, and otherwise gives an underscore-free time that regenerates the name |
| RepoUtils.SplitPair | src/repoManager/DirectoryIterator.py:94 | `time, prompt = name.split("_")` succeeds exactly when the name holds one underscore, and then regenerates it; otherwise it raises ValueError |
| RepoUtils.SplitFirstRoundTrip | src/repoManager/utils.py:9 | an underscore-free time and any prompt, even one with underscores, are recovered by the first-underscore split |
| RepoUtils.SplitPairRoundTrip | src/repoManager/RepoManager.py:104 | the Python split of a generated name succeeds exactly when neither half holds an underscore, and then returns the two halves |
| RepoUtils.GenerateFileNameInjective | src/repoManager/utils.py:2-9 | entries with underscore-free times have the same name only if they have the same time and prompt |
| RepoUtils.GenerateFileNameOrder | src/repoManager/utils.py:3-8 | for equal-length times, names compare as their times when the times differ, whatever the prompts, so name order is time order |
| RepoUtils.SplitFirstExample | test/repoManager/test_utils.py:14-18 | "21:13:06.642930_Bees____" splits into the time and "Bees____" |
| DirectoryIterator.CurrentImagePromptDirectory | src/repoManager/DirectoryIterator.py:76-102 | None when the date or the entry is unset; otherwise ValueError exactly when the entry name does not split in two, and else the record of that entry with the root's basename as `repo` |
| DirectoryIterator.Neighbour | src/repoManager/DirectoryIterator.py:105-118 | the neighbour search on the cursor's key; with no key, a non-empty list makes the comparison with None raise TypeError |
| DirectoryIterator.IterateTimePrompt | src/repoManager/DirectoryIterator.py:105-113 | only the entry field changes, and a returned record comes with a date and an entry set |
| DirectoryIterator.IterateDate | src/repoManager/DirectoryIterator.py:116-134 | keeps the root and the date snapshot, leaves a consistent state, and returns None exactly when it exhausts the iterator |
| DirectoryIterator.GetNextTimePromptDirectories | src/repoManager/DirectoryIterator.py:137-168 | never changes the root or the snapshot; returns None exactly when it leaves the iterator exhausted; an exhausted iterator stays as it is |
| DirectoryIterator.RewindToForward | src/repoManager/DirectoryIterator.py:62-66 | the rewound state is consistent and keeps the root and the snapshot |
| DirectoryIterator.RewindToBackward | src/repoManager/DirectoryIterator.py:69-73 | the rewound state is consistent and keeps the root and the snapshot |
| DirectoryIterator.NewDirectoryIterator | src/repoManager/DirectoryIterator.py:44-59 | FileNotFoundError when the root is missing; the snapshot is the root's descending listing; a bookmark sets the date and the generated entry name without checking that the entry exists, and needs only its date folder |
| DirectoryIterator.Collect | src/repoManager/DirectoryIterator.py:137-168 | a caller harness, not source code: calling a step n times keeps at most n records; which records they are is stated by DirectoryIterator.CollectForward, DirectoryIterator.DrainForward and DirectoryIterator.DrainBackward |
| DirectoryIterator.Drain | src/repoManager/DirectoryIterator.py:137-168 | a caller harness, not source code: n calls of `get_next_time_prompt_directories` return at most n records; which records they are is stated by DirectoryIterator.DrainForward and DirectoryIterator.DrainBackward |
| DirectoryIterator.StepWithinDate | src/repoManager/DirectoryIterator.py:105-111 | when the listing has a neighbour, a step moves onto it in the same date and returns its record, or raises ValueError when its name does not split |
| DirectoryIterator.IterateDateLands | src/repoManager/DirectoryIterator.py:116-130 | entering date j loads its listing, takes the first (FORWARD) or last (BACKWARD) entry and returns that entry's record |
| DirectoryIterator.StepAcrossDate | src/repoManager/DirectoryIterator.py:105-166 | only when the listing has no neighbour does a step move to the neighbouring date, reload its listing and take its first-in-direction entry |
| DirectoryIterator.StepAcrossDateFails | src/repoManager/DirectoryIterator.py:122-125 | moving to a date whose folder is missing raises FileNotFoundError; to an empty one, IndexError |
| DirectoryIterator.StepExhausts | src/repoManager/DirectoryIterator.py:131-168 | with no neighbouring entry or date, a step sets date, listing and entry to None and returns None |
| DirectoryIterator.ExhaustionAbsorbing | src/repoManager/DirectoryIterator.py:162-168 | once exhausted, every later step in either direction returns None |
| DirectoryIterator.EmptyRepo | src/repoManager/DirectoryIterator.py:44-134 | on an empty repository the iterator is built exhausted: no current record, and steps in both directions return None |
| DirectoryIterator.SnapshotOfLog | src/repoManager/DirectoryIterator.py:46 | the snapshot of a repository is its date names, newest first |
| DirectoryIterator.RewindForwardLands | src/repoManager/DirectoryIterator.py:56-66 | unseeded FORWARD construction puts the cursor on the first entry of the newest date |
| DirectoryIterator.RewindBackwardLands | src/repoManager/DirectoryIterator.py:56-73 | unseeded BACKWARD construction puts the cursor on the last entry of the oldest date |
| DirectoryIterator.BookmarkLands | src/repoManager/DirectoryIterator.py:48-53 | a bookmark naming an existing entry puts the cursor on that entry, whatever the direction |
| DirectoryIterator.IteratorStepsForward | src/repoManager/DirectoryIterator.py:137-168 | from any entry, a FORWARD step lands on the next entry of the log and returns its record, or exhausts the iterator at the last entry |
| DirectoryIterator.IteratorStepsBackward | src/repoManager/DirectoryIterator.py:137-168 | from any entry, a BACKWARD step lands on the previous entry of the log and returns its record, or exhausts the iterator at the first entry |
| DirectoryIterator.DrainForward | src/repoManager/DirectoryIterator.py:137-168 | n FORWARD calls from log index p return the next min(n, log length - p - 1) entries, in log order |
| DirectoryIterator.DrainBackward | src/repoManager/DirectoryIterator.py:137-168 | n BACKWARD calls from log index p return the previous min(n, p) entries, nearest first |
| DirectoryIterator.ForwardTraversalComplete | src/repoManager/DirectoryIterator.py:44-168 | starting on the first entry and stepping FORWARD visits every entry of the repository once, in log order |
| DirectoryIterator.BackwardTraversalComplete | src/repoManager/DirectoryIterator.py:44-168 | starting on the last entry and stepping BACKWARD visits every entry once, from the end back to the start |
| RepoManager.SwitchRepo | src/repoManager/RepoManager.py:77-78 | the manager's repository becomes the repositories folder joined with the new name, and the listing order is kept |
| RepoManager.SwitchRepoCurrent | src/repoManager/RepoManager.py:68-78 | after switching to, or starting with, a repository, `current_repo` is its name |
| RepoManager.GenerateEntryName | src/repoManager/RepoManager.py:81-82 | the manager names entries as the module-level `generate_file_name` does |
| RepoManager.IndexOf | src/repoManager/RepoManager.py:142-151 | `list.index` raises ValueError exactly when the name is absent, and otherwise finds its first occurrence |
| RepoManager.GetFiles | src/repoManager/RepoManager.py:102-116 | ValueError when the folder name does not split; FileNotFoundError when the entry folder is missing; otherwise the entry's date, time, prompt, repository name and exactly the paths of its files |
| RepoManager.FirstListed | src/repoManager/RepoManager.py:122-125 | the first name of a listing exists exactly when the directory exists and is not empty |
| RepoManager.GetLatestImagesInRepo | src/repoManager/RepoManager.py:119-130 | a record exactly when the repository, its first listed date and that date's first listed entry all read without error, and it is that entry's record |
| RepoManager.GetNextImageFolder | src/repoManager/RepoManager.py:133-168 | a result means the current entry was in the listing; None keeps the listing; a record comes from the current date's listing or from the neighbouring date's, with that listing |
| RepoManager.EntryOf | src/repoManager/RepoManager.py:147-148 | the entry at an index is returned with its listing exactly when its name splits |
| RepoManager.NextDate | src/repoManager/RepoManager.py:149-159 | a result means the current date was in the date list; None keeps the listing; a record is a well-formed entry of the listing handed back |
| RepoManager.NextDateBounds | src/repoManager/RepoManager.py:149-159 | a date missing from the date list raises ValueError; under the intended check, and BACKWARD under either, the step enters date index ± 1 when it exists and yields None with the unchanged listing otherwise |
| RepoManager.AsWrittenForwardDate | src/repoManager/RepoManager.py:136-159 | as written, a FORWARD step off the end of the listing from date index d yields None when d + 1 reaches the entry count, raises IndexError when d + 1 is past the last date but below the entry count, and enters date d + 1 only when it is below both |
| RepoManager.EnterDate | src/repoManager/RepoManager.py:153-156 | entering a date needs its folder and yields a record of that date with the folder's listing |
| RepoManager.Round | src/repoManager/RepoManager.py:216-236 | the first round of a BACKWARD or forced page takes the starting entry without moving and cannot raise; a round that advances read the record of the entry it moved to (which outcome each case gives is RepoManager.RoundOutcomes) |
| RepoManager.RoundOutcomes | src/repoManager/RepoManager.py:216-236 | an exception in the move is Raised; no next entry, or an exception reading the entry's files, is Stopped with the listing the move returned; otherwise the round advances onto that entry with the record read |
| RepoManager.RoundMove | src/repoManager/RepoManager.py:222-226 | the first round of a BACKWARD or forced page moves nowhere |
| RepoManager.Gather | src/repoManager/RepoManager.py:215-236 | the loop only appends, at most one record per remaining round (how it stops is RepoManager.GatherOnce) |
| RepoManager.GatherOnce | src/repoManager/RepoManager.py:215-236 | after an advancing round the loop goes on from the new state; at the first None it ends with the collected records; at the first exception it breaks and keeps its state unchanged |
| RepoManager.NextTokenOf | src/repoManager/RepoManager.py:202-213 | no token unless the page holds exactly `number` records; with `number == 0` indexing the empty page raises IndexError; a full FORWARD page's token names its last record |
| RepoManager.GetImagesPage | src/repoManager/RepoManager.py:194-247 | at most `max(number, 0)` records; `number == 0` raises; a token only on a full page |
| RepoManager.GetImages | src/repoManager/RepoManager.py:183-191 | no token gives no page at all; a token gives the page that starts from the entry it names, without force-including it |
| RepoManager.IndexOfOrdered | src/repoManager/RepoManager.py:142 | in a strictly ordered listing, `list.index` finds each name where it is |
| RepoManager.ListingsOfRepo | src/repoManager/RepoManager.py:199-200 | in a repository, the listings paging reads are its dates and each date's entries, newest first |
| RepoManager.StepWithin | src/repoManager/RepoManager.py:140-148 | inside the listing, the step takes the entry at index ± 1 of the same date and hands the listing back, under either bounds rule |
| RepoManager.StepAcross | src/repoManager/RepoManager.py:149-156 | past the listing's end, the step enters date index ± 1 and its first-in-direction entry, when the bounds check measures the date list |
| RepoManager.StepEnd | src/repoManager/RepoManager.py:157-159 | under the intended check, or BACKWARD under either check, past the last date in the direction the step yields None and the unchanged listing |
| RepoManager.EnterDateLands | src/repoManager/RepoManager.py:153-156 | entering a date lands on position 0 (FORWARD) or the last position (BACKWARD) of its reloaded listing |
| RepoManager.NextFolderForward | src/repoManager/RepoManager.py:133-168 | in a repository, with the intended bounds check, a FORWARD step goes to the next entry of the log, across dates, and yields None only after the last entry |
| RepoManager.NextFolderBackward | src/repoManager/RepoManager.py:133-168 | in a repository, under either bounds check, a BACKWARD step goes to the previous entry of the log, across dates, and yields None only before the first entry |
| RepoManager.StepInRepo | src/repoManager/RepoManager.py:133-168 | in a repository, under the intended check, or BACKWARD under either check, a step from log index q reaches q ± 1 with its date's listing, or None off the log |
| RepoManager.RoundInRepo | src/repoManager/RepoManager.py:216-233 | in a repository, under the intended check, or BACKWARD under either check, each loop round reaches its target entry and reads its record, or stops off the log |
| RepoManager.GatherWalks | src/repoManager/RepoManager.py:215-236 | a loop whose rounds follow the log appends the log's entries from its first target on, as many as the budget and the log allow |
| RepoManager.WalkedForward | src/repoManager/RepoManager.py:215-236 | a FORWARD walk from index `first` collects min(budget, left) records showing the log from `first` on |
| RepoManager.WalkedBackward | src/repoManager/RepoManager.py:215-242 | a BACKWARD walk from `first`, put back in log order, shows the min(budget, first + 1) entries ending at `first` |
| RepoManager.PageForward | src/repoManager/RepoManager.py:194-247 | a FORWARD page from log index p holds the entries from p (when forced) or p + 1 on, as many as asked for and left, in log order, with a token exactly when full, naming its last entry |
| RepoManager.PageBackward | src/repoManager/RepoManager.py:194-247 | a BACKWARD page from log index p holds p and the entries before it, as many as asked for and there are, in log order, with a token exactly when full and an entry precedes it, naming that entry |
| RepoManager.LatestOfRepo | src/repoManager/RepoManager.py:119-130 | the latest record of a non-empty repository is its first log entry |
| RepoManager.InitPageOfEmpty | src/repoManager/RepoManager.py:171-178 | an empty repository has no latest record, so `get_init_images` raises AttributeError |
| RepoManager.InitPage | src/repoManager/RepoManager.py:171-180 | the first page of a non-empty repository is its newest entries, the latest included, with a token exactly when full |
| RepoManager.TokenResumes | src/repoManager/RepoManager.py:183-188 | a token resumes paging on the entry it names |
| RepoManager.ForwardPageToken | src/repoManager/RepoManager.py:204-212 | the token of a full FORWARD page names the page's last entry |
| RepoManager.ForwardPageResumes | src/repoManager/RepoManager.py:183-213 | the token of a full FORWARD page from index `first` fetches the FORWARD page from `first + number` |
| RepoManager.BackwardPageResumes | src/repoManager/RepoManager.py:183-213 | the token of a full BACKWARD page fetches the BACKWARD page that ends right before it |
| RepoManager.ForwardPagesJoin | src/repoManager/RepoManager.py:194-247 | a full FORWARD page and the page after it show the log contiguously, with no entry skipped or repeated |
| RepoManager.BackwardPagesJoin | src/repoManager/RepoManager.py:194-247 | the page before a full BACKWARD page, followed by that page, shows the log contiguously |
| RepoManager.RepoResumes | src/repoManager/RepoManager.py:183-213 | in a repository, `get_images` FORWARD turns the token of every full FORWARD page into the FORWARD page right after it |
| RepoManager.ChainFrom | src/repoManager/RepoManager.py:183-247 | handing each token of a FORWARD page back to `get_images` until a page has none shows every entry from the page's start to the end of the log exactly once, in log order, and ends without a token |
| RepoManager.PaginationComplete | src/repoManager/RepoManager.py:171-247 | `get_init_images` followed by `get_images` on each token until none is left shows every entry of a non-empty repository exactly once, newest first |
| RepoManager.AsWrittenStopsEarly | src/repoManager/RepoManager.py:136-152 | on two one-entry dates, the bounds check as written ends a FORWARD walk after the first date; the intended check enters the second |
| RepoManager.AsWrittenRaiseCaught | src/repoManager/RepoManager.py:194-236 | on the input of RepoManager.AsWrittenRaisesAtEnd, the paging loop catches that IndexError: the FORWARD page of one record comes back empty and without a token under either check |
| RepoManager.AsWrittenRaisesAtEnd | src/repoManager/RepoManager.py:136-152 | from the last entry of the oldest of two dates, whose listing holds three entries, the check as written lets FORWARD read past the date list and raise IndexError; the intended check yields None |

## Left out

- Filesystem and image I/O: `os.scandir` and `os.listdir` become lookups in the `FileSystem` value. `generate_png_path` (`mkdir` and the wall clock) and the `get_or_create_*` helpers are not modelled. `switch_repo` takes the repositories folder as a parameter.
- AlgoUtils.ReverseBisectRight, AlgoUtils.ReverseBisectLeft: require `hi <= len(a)`. Given a larger `hi`, the source can index past the end and raise IndexError. No caller passes `hi`.
- RepoManager.IndexOf: the ValueError carries the message "is not in list"; Python's message also starts with the repr of the missing value, which no caller reads.
- NotADirectoryError: listing a path that is a file is not told apart from a missing path. Both give FileNotFoundError.
- `get_images_background` (RepoManager.py:250-290) is dead code that passes an unknown keyword to `get_files`.
- Logging, `auto_str`, `dateUtils.py` (the wall clock), the UI, the speech and image-provider services, and the dependency container are not modelled.
- Object state after an exception: an operation that raises returns `Err` and no state. The half-updated Python object is not modelled.
- DirectoryIterator.CurrentImagePromptDirectory: `pathToDirectories` is never None, so its None test is not modelled.
- RepoManager.GetInitImages builds the starting record with `repo=self.imageRepo`, a Path. The model uses the path's text (`Common.PathString`), as it does for the `repo` of every token. Nothing in paging reads that field.
- Listing order in RepoManager: the one-argument `get_sorted_directory_by_name` call is modelled by the `Manager.listingReverse` order, not by the TypeError it raises as written. The page theorems assume newest-first listings (`RepoManager.IsRepo`).
- The paging theorems assume a repository in which every date folder exists, holds at least one entry, and every entry name holds exactly one underscore (`RepoManager.IsRepo`). Outside that, the functions still model the errors, but only the general contracts of `GetImagesPage` are proved.
- RepoManager.PageForward: proved for the intended bounds check only, because as written a FORWARD step off the end of date d stops when d + 1 is not below date d's entry count (first Findings row). The IndexError of the second Findings row is caught by the loop at RepoManager.py:234-236, so there the page ends as under the intended check (RepoManager.AsWrittenRaiseCaught). PageBackward holds under both checks, because BACKWARD never measures a length.
- RepoManager.InitPage, RepoManager.ForwardPageResumes, RepoManager.RepoResumes, RepoManager.ChainFrom, RepoManager.PaginationComplete: proved for the intended bounds check only, for the same reason.
- RepoManager.GetNextImageFolder: its own contract states only what any result means. Branch by branch, the step is stated by RepoManager.StepWithin, RepoManager.StepAcross, RepoManager.StepEnd, RepoManager.NextDateBounds and RepoManager.AsWrittenForwardDate.
- RepoManager.Round, RepoManager.Gather: their own contracts do not name the exception paths, so that callers that unfold them stay cheap to verify. RepoManager.RoundOutcomes states when a round is Raised or Stopped, and RepoManager.GatherOnce states that the loop breaks at the first exception with its state unchanged.
- RepoManager.NextDate: its own contract states only what any result means. The bounds rules are stated by RepoManager.NextDateBounds (intended check, and BACKWARD) and RepoManager.AsWrittenForwardDate (FORWARD as written).
- RepoManager.StepEnd, RepoManager.StepInRepo, RepoManager.RoundInRepo: stated for the intended check, and for BACKWARD under either check. FORWARD as written is stated by RepoManager.AsWrittenForwardDate instead, because there the step can end early or raise IndexError.
- RepoManager.FollowTokens: models the caller that pages with the tokens, not source code. It makes at most `fuel` calls; RepoManager.PaginationComplete gives it at least as many calls as the log has entries, which is enough for any page size.
- RepoManager.ChainFrom, RepoManager.PaginationComplete: the chain is proved FORWARD only. The BACKWARD chain is stated one page at a time, by RepoManager.BackwardPageResumes and RepoManager.BackwardPagesJoin.
- RepoManager.ForwardPagesJoin, RepoManager.BackwardPagesJoin: stated over two pages that meet the page descriptions, not over two `get_images` calls in one statement. `ForwardPageResumes` and `BackwardPageResumes` supply that link.
- A record's `num` is the literal `"1"` of `get_files`. Image bytes (the `Models.py` results) are carried as data, not read.

## Findings

| source | as written | input that shows it | evidently intended | confidence | as-written member | corrected member |
|---|---|---|---|---|---|---|
| src/repoManager/RepoManager.py:136-152 | `index_not_out_of_bounds` compares a FORWARD index with `len(currentTimePromptDirectories)` whatever list it is given, so the date index is checked against the entry count of the current date | repository `r` with dates `02` and `01`, each holding only `1_x`: stepping FORWARD from `02/1_x` finds date index 1 not below 1 and returns None, skipping date `01` | compare with `len(directory)`, the list being indexed, so the step enters date `01` | not executed | RepoManager.AsWrittenStopsEarly | RepoManager.NextFolderForward |
| src/repoManager/RepoManager.py:136-152 | the same comparison lets a date index past the last date through when the current date holds more entries than there are dates, and `sortedDatesDirectory[nextDateIndex]` then raises IndexError | dates `02` and `01`, where `01` holds `3_a`, `2_b` and `1_c`: stepping FORWARD from `01/1_c` finds date index 2 below 3 and reads index 2 of a two-date list | compare with `len(directory)`, so the step reports the end of the repository with None; the only caller inside the loop catches the exception (RepoManager.py:234-236), so pages end as intended and only `get_next_image_folder` itself misbehaves | not executed | RepoManager.AsWrittenRaisesAtEnd | RepoManager.NextFolderForward |
