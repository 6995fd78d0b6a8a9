/**
 * Non-overlapping, left-to-right substitution of every occurrence of a
 * pattern, as Python's `bytes.replace(old, new)` performs it.
 */
module Replace {

  import opened Wrappers

  /** `pat` occurs in `s` starting at index `i`. */
  predicate OccursAt<T(==)>(s: seq<T>, pat: seq<T>, i: int) {
    0 <= i && i + |pat| <= |s| && s[i..i + |pat|] == pat
  }

  /** No occurrence of `pat` in `s` starts before index `k`. */
  predicate NoMatchBefore<T(==)>(s: seq<T>, pat: seq<T>, k: int) {
    forall i :: 0 <= i < k ==> !OccursAt(s, pat, i)
  }

  /** `pat` does not occur in `s` at all. */
  predicate NoMatch<T(==)>(s: seq<T>, pat: seq<T>) {
    NoMatchBefore(s, pat, |s|)
  }

  /** The index of the first occurrence of `pat` in `s`, as `find` gives it. */
  function FirstMatch<T(==)>(s: seq<T>, pat: seq<T>, from: nat := 0): (r: Option<nat>)
    requires from <= |s| && NoMatchBefore(s, pat, from)
    ensures r.None? ==> NoMatch(s, pat)
    ensures r.Some? ==> OccursAt(s, pat, r.value) && NoMatchBefore(s, pat, r.value)
    decreases |s| - from
  {
    if from == |s| then None
    else if OccursAt(s, pat, from) then Some(from)
    else FirstMatch(s, pat, from + 1)
  }

  /**
   * Scans `s` from the left; at each position where `pat` starts, emits
   * `rep` and resumes after the match (replaced text is never rescanned);
   * elsewhere copies one element. A replacement as long as the pattern
   * keeps the length; a shorter one never lengthens, a longer one never
   * shortens.
   */
  function ReplaceAll<T(==)>(s: seq<T>, pat: seq<T>, rep: seq<T>): (r: seq<T>)
    requires |pat| > 0
    ensures |rep| == |pat| ==> |r| == |s|
    ensures |rep| <= |pat| ==> |r| <= |s|
    ensures |rep| >= |pat| ==> |r| >= |s|
    decreases |s|
  {
    if |s| < |pat| then s
    else if s[..|pat|] == pat then rep + ReplaceAll(s[|pat|..], pat, rep)
    else [s[0]] + ReplaceAll(s[1..], pat, rep)
  }

  /** Dropping the first element shifts every occurrence one place left. */
  lemma OccursShift<T>(s: seq<T>, pat: seq<T>, i: int)
    requires |s| > 0 && 0 <= i
    ensures OccursAt(s[1..], pat, i) <==> OccursAt(s, pat, i + 1)
  {
    if i + 1 + |pat| <= |s| {
      assert s[1..][i..i + |pat|] == s[i + 1..i + 1 + |pat|];
    }
  }

  /** A sequence without any occurrence comes back unchanged. */
  lemma {:induction false} ReplaceNoMatch<T>(s: seq<T>, pat: seq<T>, rep: seq<T>)
    requires |pat| > 0 && NoMatch(s, pat)
    ensures ReplaceAll(s, pat, rep) == s
    decreases |s|
  {
    if |s| >= |pat| {
      assert !OccursAt(s, pat, 0);
      forall i | 0 <= i < |s[1..]|
        ensures !OccursAt(s[1..], pat, i)
      {
        OccursShift(s, pat, i);
      }
      ReplaceNoMatch(s[1..], pat, rep);
      assert s == [s[0]] + s[1..];
    }
  }

  /** Dropping the first element keeps "no match before k" one place earlier. */
  lemma NoMatchBeforeShift<T>(s: seq<T>, pat: seq<T>, k: nat)
    requires 0 < k <= |s| && NoMatchBefore(s, pat, k)
    ensures NoMatchBefore(s[1..], pat, k - 1)
  {
    forall i | 0 <= i < k - 1
      ensures !OccursAt(s[1..], pat, i)
    {
      OccursShift(s, pat, i);
    }
  }

  /** Where a match starts, the scan emits the replacement and skips the match. */
  lemma ReplaceAtMatch<T>(pat: seq<T>, b: seq<T>, rep: seq<T>)
    requires |pat| > 0
    ensures ReplaceAll(pat + b, pat, rep) == rep + ReplaceAll(b, pat, rep)
  {
    var s := pat + b;
    assert s[..|pat|] == pat;
    assert s[|pat|..] == b;
  }

  /** Where no match starts, the scan copies one element and moves on. */
  lemma ReplaceSkip<T>(x: T, s: seq<T>, pat: seq<T>, rep: seq<T>)
    requires |pat| > 0 && !OccursAt([x] + s, pat, 0)
    ensures ReplaceAll([x] + s, pat, rep) == [x] + ReplaceAll(s, pat, rep)
  {
    var t := [x] + s;
    assert t[1..] == s;
    if |t| < |pat| {
      assert t == [t[0]] + t[1..];
    }
  }

  /**
   * The first occurrence of the pattern is replaced, what precedes it is kept
   * and the scan resumes right after it.
   */
  lemma {:induction false} ReplaceFirstMatch<T>(a: seq<T>, pat: seq<T>, b: seq<T>, rep: seq<T>)
    requires |pat| > 0 && NoMatchBefore(a + pat, pat, |a|)
    ensures ReplaceAll(a + pat + b, pat, rep) == a + rep + ReplaceAll(b, pat, rep)
    decreases |a|
  {
    if a == [] {
      assert a + pat + b == pat + b;
      ReplaceAtMatch(pat, b, rep);
    } else {
      var a' := a[1..];
      var s := a + pat + b;
      assert s == [a[0]] + (a' + pat + b);
      assert !OccursAt(s, pat, 0) by {
        assert !OccursAt(a + pat, pat, 0);
        assert s[..|pat|] == (a + pat)[..|pat|];
      }
      assert NoMatchBefore(a' + pat, pat, |a'|) by {
        assert (a + pat)[1..] == a' + pat;
        NoMatchBeforeShift(a + pat, pat, |a|);
      }
      ReplaceSkip(a[0], a' + pat + b, pat, rep);
      ReplaceFirstMatch(a', pat, b, rep);
      assert a == [a[0]] + a';
    }
  }

  /** `parts[0] + sep + parts[1] + sep + ... + parts[n-1]`. */
  function Join<T>(parts: seq<seq<T>>, sep: seq<T>): seq<T>
    requires |parts| > 0
  {
    if |parts| == 1 then parts[0] else parts[0] + sep + Join(parts[1..], sep)
  }

  /**
   * `parts` splits a text at exactly the matches a left-to-right scan finds:
   * no occurrence starts inside a part (before the pattern that follows it),
   * and the last part holds none.
   */
  predicate SplitsAtMatches<T(==)>(parts: seq<seq<T>>, pat: seq<T>) {
    && |parts| > 0
    && (forall j :: 0 <= j < |parts| - 1 ==> NoMatchBefore(parts[j] + pat, pat, |parts[j]|))
    && NoMatch(parts[|parts| - 1], pat)
  }

  /**
   * A text made of pieces joined by the pattern, split at the matches a
   * left-to-right scan finds, is rewritten to the same pieces joined by the
   * replacement.
   */
  lemma {:induction false} ReplaceJoin<T>(parts: seq<seq<T>>, pat: seq<T>, rep: seq<T>)
    requires |pat| > 0 && SplitsAtMatches(parts, pat)
    ensures ReplaceAll(Join(parts, pat), pat, rep) == Join(parts, rep)
    decreases |parts|
  {
    if |parts| == 1 {
      ReplaceNoMatch(parts[0], pat, rep);
    } else {
      var p := parts[0];
      var rest := Join(parts[1..], pat);
      ReplaceFirstMatch(p, pat, rest, rep);
      assert SplitsAtMatches(parts[1..], pat) by {
        forall j | 0 <= j < |parts[1..]| - 1
          ensures NoMatchBefore(parts[1..][j] + pat, pat, |parts[1..][j]|)
        {
          assert parts[1..][j] == parts[j + 1];
        }
      }
      ReplaceJoin(parts[1..], pat, rep);
    }
  }

  /** Replacing a pattern by itself changes nothing. */
  lemma {:induction false} ReplaceWithItself<T>(s: seq<T>, pat: seq<T>)
    requires |pat| > 0
    ensures ReplaceAll(s, pat, pat) == s
    decreases |s|
  {
    if |s| >= |pat| {
      if s[..|pat|] == pat {
        ReplaceWithItself(s[|pat|..], pat);
        assert s == s[..|pat|] + s[|pat|..];
      } else {
        ReplaceWithItself(s[1..], pat);
        assert s == [s[0]] + s[1..];
      }
    }
  }
}
