/**
  Python's ordering of `str` values. Dafny's `<` on sequences is the
  proper-prefix relation, so the lexicographic (code point by code point)
  order that Python uses for `<`, `sorted` and the bisects is defined here,
  together with the facts about it that the rest of the model relies on:
  it is a strict total order, and appending to equal-length prefixes keeps
  the order of the prefixes.
 */
module StringOrder {

  /** Python's `a < b` on two strings. */
  predicate LexLt(a: string, b: string)
    decreases |a|
  {
    if |a| == 0 then |b| > 0
    else |b| > 0 && (a[0] < b[0] || (a[0] == b[0] && LexLt(a[1..], b[1..])))
  }

  /** Python's `a <= b` on two strings. */
  predicate LexLe(a: string, b: string) {
    !LexLt(b, a)
  }

  lemma {:induction false} LexLtIrreflexive(a: string)
    ensures !LexLt(a, a)
    decreases |a|
  {
    if |a| > 0 {
      LexLtIrreflexive(a[1..]);
    }
  }

  lemma {:induction false} LexLtTransitive(a: string, b: string, c: string)
    requires LexLt(a, b) && LexLt(b, c)
    ensures LexLt(a, c)
    decreases |a|
  {
    if |a| > 0 && a[0] == b[0] && b[0] == c[0] {
      LexLtTransitive(a[1..], b[1..], c[1..]);
    }
  }

  /** Any two strings are equal or ordered one way or the other. */
  lemma {:induction false} LexLtTotal(a: string, b: string)
    ensures a == b || LexLt(a, b) || LexLt(b, a)
    decreases |a|
  {
    if |a| > 0 && |b| > 0 && a[0] == b[0] {
      LexLtTotal(a[1..], b[1..]);
      if a[1..] == b[1..] {
        assert a == [a[0]] + a[1..];
        assert b == [b[0]] + b[1..];
      }
    }
  }

  lemma LexLtAsymmetric(a: string, b: string)
    requires LexLt(a, b)
    ensures !LexLt(b, a)
  {
    if LexLt(b, a) {
      LexLtTransitive(a, b, a);
      LexLtIrreflexive(a);
    }
  }

  /** `<=` is `<` or `==`. */
  lemma LexLeCases(a: string, b: string)
    ensures LexLe(a, b) <==> (a == b || LexLt(a, b))
  {
    LexLtTotal(a, b);
    LexLtIrreflexive(a);
    if LexLt(a, b) {
      LexLtAsymmetric(a, b);
    }
  }

  lemma LexLeLtTransitive(a: string, b: string, c: string)
    requires LexLe(a, b) && LexLt(b, c)
    ensures LexLt(a, c)
  {
    LexLeCases(a, b);
    if a != b {
      LexLtTransitive(a, b, c);
    }
  }

  lemma LexLtLeTransitive(a: string, b: string, c: string)
    requires LexLt(a, b) && LexLe(b, c)
    ensures LexLt(a, c)
  {
    LexLeCases(b, c);
    if b != c {
      LexLtTransitive(a, b, c);
    }
  }

  /** Names sorted newest-first as `sorted(..., reverse=True)` leaves them. */
  predicate Descending(s: seq<string>) {
    forall i, j | 0 <= i < j < |s| :: LexLe(s[j], s[i])
  }

  /** Descending with no repeated name, as a directory listing is. */
  predicate StrictlyDescending(s: seq<string>) {
    forall i, j | 0 <= i < j < |s| :: DescendsAt(s, i, j)
  }

  /** The later name `s[j]` sorts strictly before the earlier `s[i]`. */
  predicate DescendsAt(s: seq<string>, i: int, j: int)
    requires 0 <= i < j < |s|
  {
    LexLt(s[j], s[i])
  }

  predicate StrictlyAscending(s: seq<string>) {
    forall i, j | 0 <= i < j < |s| :: AscendsAt(s, i, j)
  }

  /** The earlier name `s[i]` sorts strictly before the later `s[j]`. */
  predicate AscendsAt(s: seq<string>, i: int, j: int)
    requires 0 <= i < j < |s|
  {
    LexLt(s[i], s[j])
  }

  lemma StrictlyDescendingIsDescending(s: seq<string>)
    requires StrictlyDescending(s)
    ensures Descending(s)
  {
    forall i, j | 0 <= i < j < |s|
      ensures LexLe(s[j], s[i])
    {
      assert DescendsAt(s, i, j);
      LexLtAsymmetric(s[j], s[i]);
    }
  }

  /** StrictlyDescending stated pair by neighbouring pair. */
  predicate ChainDescending(s: seq<string>) {
    |s| < 2 || (LexLt(s[1], s[0]) && ChainDescending(s[1..]))
  }

  /** Neighbouring pairs in order put every pair in order. */
  lemma {:induction false} ChainDescendingStrict(s: seq<string>)
    requires ChainDescending(s)
    ensures StrictlyDescending(s)
  {
    if |s| >= 2 {
      var t := s[1..];
      ChainDescendingStrict(t);
      forall i, j | 0 <= i < j < |s|
        ensures DescendsAt(s, i, j)
      {
        if i > 0 {
          assert t[j - 1] == s[j] && t[i - 1] == s[i];
          assert DescendsAt(t, i - 1, j - 1);
        } else if j > 1 {
          assert t[j - 1] == s[j] && t[0] == s[1];
          assert DescendsAt(t, 0, j - 1);
          LexLtTransitive(s[j], s[1], s[0]);
        }
      }
    }
  }

  lemma {:induction false} StrictChainDescending(s: seq<string>)
    requires StrictlyDescending(s)
    ensures ChainDescending(s)
  {
    if |s| >= 2 {
      var t := s[1..];
      forall i, j | 0 <= i < j < |t|
        ensures DescendsAt(t, i, j)
      {
        assert t[j] == s[j + 1] && t[i] == s[i + 1];
        assert DescendsAt(s, i + 1, j + 1);
      }
      assert DescendsAt(s, 0, 1);
      StrictChainDescending(t);
    }
  }

  lemma StrictlyDescendingTail(s: seq<string>)
    requires StrictlyDescending(s) && |s| > 0
    ensures StrictlyDescending(s[1..])
  {
    var t := s[1..];
    forall i, j | 0 <= i < j < |t|
      ensures DescendsAt(t, i, j)
    {
      assert DescendsAt(s, i + 1, j + 1);
    }
  }

  /** A strictly ordered sequence holds no name twice. */
  lemma StrictlyDescendingDistinct(s: seq<string>, i: int, j: int)
    requires StrictlyDescending(s)
    requires 0 <= i < |s| && 0 <= j < |s| && i != j
    ensures s[i] != s[j]
  {
    if i < j {
      assert DescendsAt(s, i, j);
      LexLtIrreflexive(s[i]);
    } else {
      assert DescendsAt(s, j, i);
      LexLtIrreflexive(s[j]);
    }
  }

  /** `m` is at least every element of `names`. */
  predicate IsMaxName(m: string, names: set<string>) {
    forall y | y in names :: LexLe(y, m)
  }

  lemma {:induction false} MaxNameExists(names: set<string>)
    requires names != {}
    ensures exists m :: m in names && IsMaxName(m, names)
    decreases names
  {
    var x :| x in names;
    if names == {x} {
      LexLtIrreflexive(x);
      assert x in names && IsMaxName(x, names);
    } else {
      var rest := names - {x};
      MaxNameExists(rest);
      var m :| m in rest && IsMaxName(m, rest);
      LexLtTotal(m, x);
      if LexLt(m, x) {
        forall y | y in names
          ensures LexLe(y, x)
        {
          if y == x {
            LexLtIrreflexive(x);
          } else {
            LexLeLtTransitive(y, m, x);
            LexLtAsymmetric(y, x);
          }
        }
        assert x in names && IsMaxName(x, names);
      } else {
        forall y | y in names
          ensures LexLe(y, m)
        {
          if y == x {
            LexLeCases(x, m);
          }
        }
        assert m in names && IsMaxName(m, names);
      }
    }
  }

  lemma MaxNameUnique(names: set<string>)
    ensures forall m1, m2 | m1 in names && IsMaxName(m1, names) && m2 in names && IsMaxName(m2, names) :: m1 == m2
  {
    forall m1, m2 | m1 in names && IsMaxName(m1, names) && m2 in names && IsMaxName(m2, names)
      ensures m1 == m2
    {
      LexLtTotal(m1, m2);
    }
  }

  /** Appending anything after two ordered strings of equal length keeps their order. */
  lemma {:induction false} LexLtAppendEqualLength(a: string, b: string, c: string, d: string)
    requires |a| == |b| && LexLt(a, b)
    ensures LexLt(a + c, b + d)
    decreases |a|
  {
    assert (a + c)[0] == a[0] && (b + d)[0] == b[0];
    if a[0] == b[0] {
      assert (a + c)[1..] == a[1..] + c;
      assert (b + d)[1..] == b[1..] + d;
      LexLtAppendEqualLength(a[1..], b[1..], c, d);
    }
  }

  /** A shared prefix does not change the order of what follows it. */
  lemma {:induction false} LexLtSharedPrefix(t: string, c: string, d: string)
    ensures LexLt(t + c, t + d) <==> LexLt(c, d)
    decreases |t|
  {
    if |t| > 0 {
      assert (t + c)[0] == t[0] && (t + d)[0] == t[0];
      assert (t + c)[1..] == t[1..] + c;
      assert (t + d)[1..] == t[1..] + d;
      LexLtSharedPrefix(t[1..], c, d);
    } else {
      assert t + c == c && t + d == d;
    }
  }
}
