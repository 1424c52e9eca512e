/**
  src/repoManager/utils.py: the on-disk name of an entry is its time, an
  underscore, then its prompt. With a fixed-width time prefix, name order is
  time order, which is what lets a directory listing double as a log sorted
  by creation time.
 */
module RepoUtils {
  import opened Common
  import opened StringOrder

  /** `generate_file_name(time, prompt)`. */
  function GenerateFileName(time: string, prompt: string): (name: string)
    ensures |name| == |time| + 1 + |prompt|
    ensures name[..|time|] == time
    ensures name[|time|] == '_'
    ensures name[|time| + 1..] == prompt
  {
    time + "_" + prompt
  }

  /** The number of occurrences of `c` in `s`. */
  function CountChar(s: string, c: char): nat {
    if |s| == 0 then 0 else (if s[0] == c then 1 else 0) + CountChar(s[1..], c)
  }

  lemma {:induction false} CountCharZero(s: string, c: char)
    ensures CountChar(s, c) == 0 <==> c !in s
  {
    if |s| > 0 {
      CountCharZero(s[1..], c);
      assert c in s <==> s[0] == c || c in s[1..];
    }
  }

  lemma {:induction false} CountCharAppend(s: string, t: string, c: char)
    ensures CountChar(s + t, c) == CountChar(s, c) + CountChar(t, c)
  {
    if |s| == 0 {
      assert s + t == t;
    } else {
      assert (s + t)[1..] == s[1..] + t;
      CountCharAppend(s[1..], t, c);
    }
  }

  /** The index of the first '_' in `s`, if any. */
  function FirstUnderscore(s: string): (r: Option<nat>)
    ensures r.None? <==> '_' !in s
    ensures r.Some? ==> r.value < |s| && s[r.value] == '_' && '_' !in s[..r.value]
  {
    if |s| == 0 then None
    else if s[0] == '_' then Some(0)
    else match FirstUnderscore(s[1..]) {
      case None => None
      case Some(i) =>
        assert s[..i + 1] == [s[0]] + s[1..][..i];
        Some(i + 1)
    }
  }

  /**
    Splitting an entry name at its first underscore into (time, prompt);
    None for a name without one. Prompts may themselves hold underscores.
   */
  function SplitFirst(name: string): (r: Option<(string, string)>)
    ensures r.None? <==> '_' !in name
    ensures r.Some? ==> '_' !in r.value.0 && GenerateFileName(r.value.0, r.value.1) == name
  {
    match FirstUnderscore(name) {
      case None => None
      case Some(i) =>
        assert name == name[..i] + "_" + name[i + 1..];
        Some((name[..i], name[i + 1..]))
    }
  }

  /**
    Python's `time, prompt = name.split("_")`: succeeds only when the name
    holds exactly one underscore, and otherwise raises the unpacking
    ValueError.
   */
  function SplitPair(name: string): (r: Result<(string, string)>)
    ensures r.Ok? <==> CountChar(name, '_') == 1
    ensures r.Err? ==> r.error.ValueError?
    ensures r.Ok? ==> '_' !in r.value.0 && '_' !in r.value.1 && GenerateFileName(r.value.0, r.value.1) == name
  {
    var count := CountChar(name, '_');
    if count == 0 then Err(ValueError("not enough values to unpack (expected 2, got 1)"))
    else if count > 1 then Err(ValueError("too many values to unpack (expected 2)"))
    else
      CountCharZero(name, '_');
      var i := FirstUnderscore(name).value;
      assert name == name[..i] + ("_" + name[i + 1..]);
      CountCharAppend(name[..i], "_" + name[i + 1..], '_');
      CountCharAppend("_", name[i + 1..], '_');
      CountCharZero(name[..i], '_');
      CountCharZero(name[i + 1..], '_');
      Ok((name[..i], name[i + 1..]))
  }

  /** A name holding exactly one underscore, the shape `split("_")` accepts. */
  predicate WellFormedName(name: string) {
    CountChar(name, '_') == 1
  }

  /**
    Splitting at the first underscore recovers the time and the prompt
    whenever the time holds no underscore, even if the prompt does.
   */
  lemma SplitFirstRoundTrip(time: string, prompt: string)
    requires '_' !in time
    ensures SplitFirst(GenerateFileName(time, prompt)) == Some((time, prompt))
  {
    var name := GenerateFileName(time, prompt);
    var i := FirstUnderscore(name).value;
    assert name[|time|] == '_';
    assert name[..|time|] == time;
  }

  /** `split("_")` recovers (time, prompt) exactly when neither holds an underscore. */
  lemma SplitPairRoundTrip(time: string, prompt: string)
    ensures SplitPair(GenerateFileName(time, prompt)).Ok? <==> '_' !in time && '_' !in prompt
    ensures '_' !in time && '_' !in prompt ==> SplitPair(GenerateFileName(time, prompt)) == Ok((time, prompt))
  {
    var name := GenerateFileName(time, prompt);
    assert name == time + ("_" + prompt);
    CountCharAppend(time, "_" + prompt, '_');
    CountCharAppend("_", prompt, '_');
    CountCharZero(time, '_');
    CountCharZero(prompt, '_');
    if '_' !in time && '_' !in prompt {
      SplitFirstRoundTrip(time, prompt);
      var i := FirstUnderscore(name).value;
      assert SplitFirst(name) == Some((name[..i], name[i + 1..]));
    }
  }

  /** Two entries with underscore-free times share a name only if they are the same entry. */
  lemma GenerateFileNameInjective(t1: string, p1: string, t2: string, p2: string)
    requires '_' !in t1 && '_' !in t2
    requires GenerateFileName(t1, p1) == GenerateFileName(t2, p2)
    ensures t1 == t2 && p1 == p2
  {
    SplitFirstRoundTrip(t1, p1);
    SplitFirstRoundTrip(t2, p2);
  }

  /**
    With equal-length times, names order as their times, and names with the
    same time order as their prompts: a fixed-width time prefix makes the
    name order the chronological order whatever the prompts are.
   */
  lemma GenerateFileNameOrder(t1: string, p1: string, t2: string, p2: string)
    requires |t1| == |t2|
    ensures LexLt(GenerateFileName(t1, p1), GenerateFileName(t2, p2)) <==>
              LexLt(t1, t2) || (t1 == t2 && LexLt(p1, p2))
  {
    var n1 := GenerateFileName(t1, p1);
    var n2 := GenerateFileName(t2, p2);
    if t1 == t2 {
      assert n1 == (t1 + "_") + p1 && n2 == (t1 + "_") + p2;
      LexLtSharedPrefix(t1 + "_", p1, p2);
      LexLtIrreflexive(t1);
    } else {
      LexLtTotal(t1, t2);
      if LexLt(t1, t2) {
        LexLtAppendEqualLength(t1, t2, "_" + p1, "_" + p2);
        assert n1 == t1 + ("_" + p1) && n2 == t2 + ("_" + p2);
      } else {
        LexLtAppendEqualLength(t2, t1, "_" + p2, "_" + p1);
        assert n1 == t1 + ("_" + p1) && n2 == t2 + ("_" + p2);
        LexLtAsymmetric(n2, n1);
        LexLtAsymmetric(t2, t1);
      }
    }
  }

  /** The case of test/repoManager/test_utils.py: only the first underscore splits. */
  lemma SplitFirstExample()
    ensures SplitFirst("21:13:06.642930_Bees____") == Some(("21:13:06.642930", "Bees____"))
  {
    assert '_' !in "21:13:06.642930";
    SplitFirstRoundTrip("21:13:06.642930", "Bees____");
    assert GenerateFileName("21:13:06.642930", "Bees____") == "21:13:06.642930_Bees____";
  }
}
