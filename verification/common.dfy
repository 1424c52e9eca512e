/**
  Shared vocabulary of the pagination engine: optional values, the Python
  exceptions the core can raise (as error values), the paging direction and
  filesystem paths.
 */
module Common {

  /** Python's `None`-or-value. */
  datatype Option<+T> = None | Some(value: T) {
    function GetOr(default: T): T {
      match this
      case Some(v) => v
      case None => default
    }
  }

  /** The exceptions the modelled code can raise. */
  datatype Error =
    | FileNotFound(path: seq<string>)   // os.scandir / os.listdir on a path that is not a directory
    | ValueError(message: string)        // bad unpacking, list.index miss, negative `lo`
    | IndexError                         // indexing an empty or too short list
    | TypeError                          // comparing None with a str
    | AttributeError                     // attribute access on None

  /** A computation that either yields a value or raises. */
  datatype Result<+T> = Ok(value: T) | Err(error: Error) {
    predicate IsFailure() {
      Err?
    }

    function PropagateFailure<U>(): Result<U>
      requires Err?
    {
      Err(error)
    }

    function Extract(): T
      requires Ok?
    {
      value
    }
  }

  /** `DIRECTION` of pathingUtils.py (and its twin in RepoManager.py). */
  datatype Direction = Forward | Backward

  /** A filesystem path as its sequence of segments. */
  type Path = seq<string>

  /** `os.path.basename(os.path.normpath(p))`, and `Path.name`. */
  function Basename(p: Path): string {
    if |p| == 0 then "." else p[|p| - 1]
  }

  /** The textual form of a path, segments joined by '/'. */
  function PathString(p: Path): string
    decreases |p|
  {
    if |p| == 0 then ""
    else if |p| == 1 then p[0]
    else PathString(p[..|p| - 1]) + "/" + p[|p| - 1]
  }

  /** Python's `list.reverse()`, as a value. */
  function Reverse<T>(s: seq<T>): (r: seq<T>)
    ensures |r| == |s|
    ensures forall i | 0 <= i < |s| :: r[i] == s[|s| - 1 - i]
  {
    seq(|s|, i requires 0 <= i < |s| => s[|s| - 1 - i])
  }

  /** The set of elements of a sequence. */
  function Elements<T>(s: seq<T>): set<T> {
    set x | x in s
  }

  function Min(a: int, b: int): int {
    if a <= b then a else b
  }

  function Max(a: int, b: int): int {
    if a <= b then b else a
  }
}
