/**
  src/utils/algoUtils.py: binary searches over a list of names sorted
  newest-first (descending), and the neighbour search built on them.

  Both bisects are `bisect` module copies with the comparison flipped for
  descending order. The docstring of `reverse_bisect_right` still describes
  the ascending original; the code is what is modelled: on a descending list
  it returns the first index holding a name strictly below `x`.
 */
module AlgoUtils {
  import opened Common
  import opened StringOrder

  /** The `while lo < hi` loop of `reverse_bisect_right`, as a recursion. */
  function BisectRightFrom(a: seq<string>, x: string, lo: int, hi: int): (i: int)
    requires 0 <= lo && hi <= |a|
    ensures lo <= hi ==> lo <= i <= hi
    ensures hi <= lo ==> i == lo
    decreases hi - lo
  {
    if lo < hi then
      var mid := (lo + hi) / 2;
      if LexLt(a[mid], x) then BisectRightFrom(a, x, lo, mid)
      else BisectRightFrom(a, x, mid + 1, hi)
    else lo
  }

  /** The `while lo < hi` loop of `reverse_bisect_left`, as a recursion. */
  function BisectLeftFrom(a: seq<string>, x: string, lo: int, hi: int): (i: int)
    requires 0 <= lo && hi <= |a|
    ensures lo <= hi ==> lo <= i <= hi
    ensures hi <= lo ==> i == lo
    decreases hi - lo
  {
    if lo < hi then
      var mid := (lo + hi) / 2;
      if LexLt(x, a[mid]) then BisectLeftFrom(a, x, mid + 1, hi)
      else BisectLeftFrom(a, x, lo, mid)
    else lo
  }

  /**
    On a descending slice, `reverse_bisect_right` splits it into the names
    at least `x` (before the result) and the names strictly below `x` (from
    the result on): the insertion point after any names equal to `x`.
   */
  lemma {:induction false} BisectRightPartition(a: seq<string>, x: string, lo: int, hi: int)
    requires Descending(a) && 0 <= lo <= hi <= |a|
    ensures forall j | lo <= j < BisectRightFrom(a, x, lo, hi) :: LexLe(x, a[j])
    ensures forall j | BisectRightFrom(a, x, lo, hi) <= j < hi :: LexLt(a[j], x)
    decreases hi - lo
  {
    if lo < hi {
      var mid := (lo + hi) / 2;
      if LexLt(a[mid], x) {
        BisectRightPartition(a, x, lo, mid);
        forall j | mid <= j < hi
          ensures LexLt(a[j], x)
        {
          if j > mid {
            LexLeLtTransitive(a[j], a[mid], x);
          }
        }
      } else {
        BisectRightPartition(a, x, mid + 1, hi);
        forall j | lo <= j <= mid
          ensures LexLe(x, a[j])
        {
          if j < mid && LexLt(a[j], x) {
            LexLeLtTransitive(a[mid], a[j], x);
          }
        }
      }
    }
  }

  /**
    On a descending slice, `reverse_bisect_left` splits it into the names
    strictly above `x` (before the result) and the names at most `x` (from
    the result on): the insertion point before any names equal to `x`.
   */
  lemma {:induction false} BisectLeftPartition(a: seq<string>, x: string, lo: int, hi: int)
    requires Descending(a) && 0 <= lo <= hi <= |a|
    ensures forall j | lo <= j < BisectLeftFrom(a, x, lo, hi) :: LexLt(x, a[j])
    ensures forall j | BisectLeftFrom(a, x, lo, hi) <= j < hi :: LexLe(a[j], x)
    decreases hi - lo
  {
    if lo < hi {
      var mid := (lo + hi) / 2;
      if LexLt(x, a[mid]) {
        BisectLeftPartition(a, x, mid + 1, hi);
        forall j | lo <= j <= mid
          ensures LexLt(x, a[j])
        {
          if j < mid {
            LexLtLeTransitive(x, a[mid], a[j]);
          }
        }
      } else {
        BisectLeftPartition(a, x, lo, mid);
        forall j | mid <= j < hi
          ensures LexLe(a[j], x)
        {
          if j > mid && LexLt(x, a[j]) {
            LexLtLeTransitive(x, a[j], a[mid]);
          }
        }
      }
    }
  }

  /**
    `reverse_bisect_right(a, x, lo, hi)`: raises on a negative `lo`,
    defaults `hi` to `len(a)`, and otherwise halves `[lo, hi)` until it is
    empty.
   */
  method ReverseBisectRight(a: seq<string>, x: string, lo: int, hi: Option<int>) returns (r: Result<nat>)
    requires hi.Some? ==> hi.value <= |a|
    ensures r.Err? <==> lo < 0
    ensures r.Err? ==> r.error == ValueError("lo must be non-negative")
    ensures r.Ok? ==> r.value == BisectRightFrom(a, x, lo, hi.GetOr(|a|))
    ensures r.Ok? && Descending(a) && lo <= hi.GetOr(|a|) ==>
              (forall j | lo <= j < r.value :: LexLe(x, a[j])) &&
              (forall j | r.value <= j < hi.GetOr(|a|) :: LexLt(a[j], x))
  {
    if lo < 0 {
      return Err(ValueError("lo must be non-negative"));
    }
    var h := if hi.None? then |a| else hi.value;
    var l := lo;
    while l < h
      invariant 0 <= lo <= l && h <= hi.GetOr(|a|)
      invariant BisectRightFrom(a, x, l, h) == BisectRightFrom(a, x, lo, hi.GetOr(|a|))
      decreases h - l
    {
      var mid := (l + h) / 2;
      if LexLt(a[mid], x) {
        h := mid;
      } else {
        l := mid + 1;
      }
    }
    r := Ok(l);
    if Descending(a) && lo <= hi.GetOr(|a|) {
      BisectRightPartition(a, x, lo, hi.GetOr(|a|));
    }
  }

  /** `reverse_bisect_left(a, x, lo, hi)`, the mirror of `ReverseBisectRight`. */
  method ReverseBisectLeft(a: seq<string>, x: string, lo: int, hi: Option<int>) returns (r: Result<nat>)
    requires hi.Some? ==> hi.value <= |a|
    ensures r.Err? <==> lo < 0
    ensures r.Err? ==> r.error == ValueError("lo must be non-negative")
    ensures r.Ok? ==> r.value == BisectLeftFrom(a, x, lo, hi.GetOr(|a|))
    ensures r.Ok? && Descending(a) && lo <= hi.GetOr(|a|) ==>
              (forall j | lo <= j < r.value :: LexLt(x, a[j])) &&
              (forall j | r.value <= j < hi.GetOr(|a|) :: LexLe(a[j], x))
  {
    if lo < 0 {
      return Err(ValueError("lo must be non-negative"));
    }
    var h := if hi.None? then |a| else hi.value;
    var l := lo;
    while l < h
      invariant 0 <= lo <= l && h <= hi.GetOr(|a|)
      invariant BisectLeftFrom(a, x, l, h) == BisectLeftFrom(a, x, lo, hi.GetOr(|a|))
      decreases h - l
    {
      var mid := (l + h) / 2;
      if LexLt(x, a[mid]) {
        l := mid + 1;
      } else {
        h := mid;
      }
    }
    r := Ok(l);
    if Descending(a) && lo <= hi.GetOr(|a|) {
      BisectLeftPartition(a, x, lo, hi.GetOr(|a|));
    }
  }

  /**
    `get_next_string_index_from_reverse_sorted`: the index of the name next
    to `theString` in a descending list, moving FORWARD (towards smaller
    names) or BACKWARD (towards greater names); None when the list is None,
    empty, or has nothing further in that direction.
   */
  function NextStringIndex(theString: string, strings: Option<seq<string>>, direction: Direction): (r: Option<nat>)
    ensures (strings.None? || |strings.value| == 0) ==> r.None?
    ensures r.Some? ==> strings.Some? && r.value < |strings.value|
  {
    if strings.Some? && |strings.value| > 0 then
      var s := strings.value;
      if direction != Backward then
        var nextIndex := BisectRightFrom(s, theString, 0, |s|);
        if nextIndex < |s| then Some(nextIndex) else None
      else
        var nextIndex := BisectLeftFrom(s, theString, 0, |s|);
        if nextIndex != 0 then Some(nextIndex - 1) else None
    else None
  }

  /** What FORWARD finds: the first name strictly below the key, or None if there is none. */
  predicate IsForwardNeighbour(key: string, s: seq<string>, r: Option<nat>) {
    match r
    case Some(i) =>
      i < |s| && LexLt(s[i], key) && forall j | 0 <= j < i :: LexLe(key, s[j])
    case None =>
      forall j | 0 <= j < |s| :: LexLe(key, s[j])
  }

  /** What BACKWARD finds: the last name strictly above the key, or None if there is none. */
  predicate IsBackwardNeighbour(key: string, s: seq<string>, r: Option<nat>) {
    match r
    case Some(i) =>
      i < |s| && LexLt(key, s[i]) && forall j | i < j < |s| :: LexLe(s[j], key)
    case None =>
      forall j | 0 <= j < |s| :: LexLe(s[j], key)
  }

  /**
    On a descending list, FORWARD returns the greatest name strictly below
    the key and BACKWARD the smallest name strictly above it; None exactly
    when no such name exists. The key need not be in the list.
   */
  lemma NextStringIndexNeighbour(key: string, s: seq<string>)
    requires Descending(s)
    ensures IsForwardNeighbour(key, s, NextStringIndex(key, Some(s), Forward))
    ensures IsBackwardNeighbour(key, s, NextStringIndex(key, Some(s), Backward))
  {
    if |s| > 0 {
      BisectRightPartition(s, key, 0, |s|);
      BisectLeftPartition(s, key, 0, |s|);
    }
  }

  /**
    If the key sits at index `k` of a strictly descending list, FORWARD
    gives `k+1` and BACKWARD gives `k-1`, or None at the ends.
   */
  lemma NextStringIndexOfPresent(s: seq<string>, k: int)
    requires StrictlyDescending(s) && 0 <= k < |s|
    ensures NextStringIndex(s[k], Some(s), Forward) == if k + 1 < |s| then Some(k + 1) else None
    ensures NextStringIndex(s[k], Some(s), Backward) == if k > 0 then Some(k - 1) else None
  {
    StrictlyDescendingIsDescending(s);
    NextStringIndexNeighbour(s[k], s);
    LexLtIrreflexive(s[k]);
    forall i | 0 <= i < k
      ensures !LexLt(s[i], s[k])
    {
      assert DescendsAt(s, i, k);
      LexLtAsymmetric(s[k], s[i]);
    }
    forall i | k < i < |s|
      ensures !LexLt(s[k], s[i])
    {
      assert DescendsAt(s, k, i);
      LexLtAsymmetric(s[i], s[k]);
    }
    if k + 1 < |s| {
      assert DescendsAt(s, k, k + 1);
    }
    if k > 0 {
      assert DescendsAt(s, k - 1, k);
    }
  }

  /** A key above every name (the "9999-99-99" rewind sentinel) moves FORWARD onto index 0. */
  lemma ForwardFromAboveAll(key: string, s: seq<string>)
    requires Descending(s) && |s| > 0
    requires forall j | 0 <= j < |s| :: LexLt(s[j], key)
    ensures NextStringIndex(key, Some(s), Forward) == Some(0)
  {
    NextStringIndexNeighbour(key, s);
    assert LexLt(s[0], key);
  }

  /** A key below every name (the "0000-00-00" rewind sentinel) moves BACKWARD onto the last index. */
  lemma BackwardFromBelowAll(key: string, s: seq<string>)
    requires Descending(s) && |s| > 0
    requires forall j | 0 <= j < |s| :: LexLt(key, s[j])
    ensures NextStringIndex(key, Some(s), Backward) == Some(|s| - 1)
  {
    NextStringIndexNeighbour(key, s);
    assert LexLt(key, s[|s| - 1]);
  }

  /** The fixed cases of test/utils/test_algoUtils.py: no list, no neighbour, one neighbour. */
  lemma NextStringIndexExamples()
    ensures NextStringIndex("someFile", None, Forward) == None
    ensures NextStringIndex("someFile", None, Backward) == None
    ensures NextStringIndex("2013", Some(["2013"]), Forward) == None
    ensures NextStringIndex("2013", Some(["2013"]), Backward) == None
    ensures NextStringIndex("2013", Some(["2012"]), Forward) == Some(0)
    ensures NextStringIndex("2013", Some(["2014"]), Backward) == Some(0)
  {
    assert LexLt("2012", "2013");
    assert LexLt("2013", "2014");
  }

  /** The sentinel keys the iterator rewinds with land on the first or the last date. */
  lemma NextStringIndexSentinelExamples()
    ensures NextStringIndex("9999-99-99", Some(["2024-01-14", "2024-01-13"]), Forward) == Some(0)
    ensures NextStringIndex("9999-99-99", Some(["2024-01-14"]), Forward) == Some(0)
    ensures NextStringIndex("0000-00-00", Some(["2024-01-14", "2024-01-13"]), Backward) == Some(1)
    ensures NextStringIndex("0000-00-00", Some(["2024-01-14"]), Backward) == Some(0)
  {
    assert LexLt("2024-01-14", "9999-99-99");
    assert LexLt("2024-01-13", "9999-99-99");
    assert LexLt("0000-00-00", "2024-01-14");
    assert LexLt("0000-00-00", "2024-01-13");
    assert LexLt("2024-01-13", "2024-01-14");
  }
}
