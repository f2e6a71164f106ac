/** The Python string operations the engine relies on, over `seq<char>`:
    `str.rstrip()`, `str.find`, `str.rsplit(sep, 1)`, `str.replace` and the
    code-point order used by `sort_values`. */
module Strings {
  import opened Wrappers

  /** Python's `str.isspace` for one character: the characters `rstrip()`
      removes when called without arguments. */
  predicate IsWhitespace(c: char) {
    || ('\t' <= c <= '\r')
    || ('\U{1c}' <= c <= ' ')
    || c == '\U{85}' || c == '\U{a0}' || c == '\U{1680}'
    || ('\U{2000}' <= c <= '\U{200a}')
    || c == '\U{2028}' || c == '\U{2029}' || c == '\U{202f}'
    || c == '\U{205f}' || c == '\U{3000}'
  }

  /** `s.rstrip()`: the longest prefix of `s` that does not end in whitespace
      and leaves only whitespace behind. */
  function RStrip(s: string): (t: string)
    ensures t <= s
    ensures |t| == 0 || !IsWhitespace(t[|t| - 1])
    ensures forall i :: |t| <= i < |s| ==> IsWhitespace(s[i])
  {
    if |s| > 0 && IsWhitespace(s[|s| - 1]) then RStrip(s[..|s| - 1]) else s
  }

  /** `s.find(c)`: the index of the first `c`, or -1 when there is none. */
  function Find(s: string, c: char): (r: int)
    ensures r == -1 <==> c !in s
    ensures r != -1 ==> 0 <= r < |s| && s[r] == c && c !in s[..r]
  {
    if |s| == 0 then -1
    else if s[0] == c then 0
    else
      var r' := Find(s[1..], c);
      if r' == -1 then -1
      else
        assert s[..r' + 1] == [s[0]] + s[1..][..r'];
        r' + 1
  }

  /** `s.rsplit(sep, 1)` for a one-character separator: the text before and
      after the last `sep`, or None when `sep` does not occur (Python then
      returns a one-element list). */
  function SplitLast(s: string, sep: char): (r: Option<(string, string)>)
    ensures r.None? <==> sep !in s
    ensures r.Some? ==> s == r.value.0 + [sep] + r.value.1 && sep !in r.value.1
  {
    if |s| == 0 then None
    else if s[|s| - 1] == sep then
      assert s == s[..|s| - 1] + [sep] + [];
      Some((s[..|s| - 1], []))
    else
      match SplitLast(s[..|s| - 1], sep)
      case None =>
        assert s == s[..|s| - 1] + [s[|s| - 1]];
        None
      case Some(parts) =>
        assert s == s[..|s| - 1] + [s[|s| - 1]];
        Some((parts.0, parts.1 + [s[|s| - 1]]))
  }

  /** The split is at the LAST separator: any decomposition around a
      separator with no separator after it is the one SplitLast returns. */
  lemma {:induction false} SplitLastUnique(s: string, sep: char, before: string, after: string)
    requires s == before + [sep] + after
    requires sep !in after
    ensures SplitLast(s, sep) == Some((before, after))
    decreases |after|
  {
    if |after| == 0 {
      assert s[..|s| - 1] == before;
    } else {
      var last := after[|after| - 1];
      var after' := after[..|after| - 1];
      assert after == after' + [last];
      assert s[|s| - 1] == last;
      assert s[..|s| - 1] == before + [sep] + after';
      SplitLastUnique(s[..|s| - 1], sep, before, after');
    }
  }

  /** `pat` occurs in `s` starting at index `i`. */
  predicate OccursAt(s: string, pat: string, i: int) {
    0 <= i && i + |pat| <= |s| && s[i..i + |pat|] == pat
  }

  predicate Occurs(s: string, pat: string) {
    exists i | 0 <= i <= |s| :: OccursAt(s, pat, i)
  }

  /** `s.replace(pat, rep)`: scan left to right, replace each occurrence and
      resume after it, so occurrences never overlap. */
  function ReplaceAll(s: string, pat: string, rep: string): string
    requires |pat| > 0
    decreases |s|
  {
    if |s| < |pat| then s
    else if s[..|pat|] == pat then rep + ReplaceAll(s[|pat|..], pat, rep)
    else [s[0]] + ReplaceAll(s[1..], pat, rep)
  }

  /** How many occurrences ReplaceAll replaces (Python's `str.count`). */
  function Occurrences(s: string, pat: string): nat
    requires |pat| > 0
    decreases |s|
  {
    if |s| < |pat| then 0
    else if s[..|pat|] == pat then 1 + Occurrences(s[|pat|..], pat)
    else Occurrences(s[1..], pat)
  }

  /** Each replacement changes the length by `|rep| - |pat|`. */
  lemma {:induction false} ReplaceAllLength(s: string, pat: string, rep: string)
    requires |pat| > 0
    ensures |ReplaceAll(s, pat, rep)| == |s| + Occurrences(s, pat) * (|rep| - |pat|)
    decreases |s|
  {
    var d := |rep| - |pat|;
    if |s| < |pat| {
    } else if s[..|pat|] == pat {
      var rest := s[|pat|..];
      var n := Occurrences(rest, pat);
      ReplaceAllLength(rest, pat, rep);
      assert ReplaceAll(s, pat, rep) == rep + ReplaceAll(rest, pat, rep);
      assert Occurrences(s, pat) == 1 + n;
      assert |rest| == |s| - |pat|;
      Distribute(n, d);
    } else {
      ReplaceAllLength(s[1..], pat, rep);
    }
  }

  lemma Distribute(n: int, d: int)
    ensures (1 + n) * d == d + n * d
  {
  }

  lemma NonzeroProduct(n: int, d: int)
    requires n != 0 && d != 0
    ensures n * d != 0
  {
  }

  lemma OccursAtShift(s: string, pat: string, i: int)
    requires |s| > 0
    ensures OccursAt(s[1..], pat, i) <==> i >= 0 && OccursAt(s, pat, i + 1)
  {
    if i >= 0 && i + |pat| <= |s| - 1 {
      assert s[1..][i..i + |pat|] == s[i + 1..i + 1 + |pat|];
    }
  }

  /** Nothing is counted exactly when `pat` does not occur. */
  lemma {:induction false} OccurrencesZero(s: string, pat: string)
    requires |pat| > 0
    ensures Occurrences(s, pat) == 0 <==> !Occurs(s, pat)
    decreases |s|
  {
    if |s| < |pat| {
      assert forall i :: !OccursAt(s, pat, i);
    } else if s[..|pat|] == pat {
      assert OccursAt(s, pat, 0);
    } else {
      OccurrencesZero(s[1..], pat);
      forall i | OccursAt(s, pat, i)
        ensures Occurs(s[1..], pat)
      {
        assert i != 0;
        OccursAtShift(s, pat, i - 1);
      }
      forall i | OccursAt(s[1..], pat, i)
        ensures Occurs(s, pat)
      {
        OccursAtShift(s, pat, i);
      }
    }
  }

  /** With nothing to replace, ReplaceAll returns its input. */
  lemma {:induction false} ReplaceAllNoMatch(s: string, pat: string, rep: string)
    requires |pat| > 0
    requires Occurrences(s, pat) == 0
    ensures ReplaceAll(s, pat, rep) == s
    decreases |s|
  {
    if |s| < |pat| {
    } else {
      ReplaceAllNoMatch(s[1..], pat, rep);
    }
  }

  /** When the replacement has a different length, `s.replace(pat, rep)`
      leaves `s` unchanged exactly when `pat` does not occur in it. */
  lemma ReplaceAllUnchanged(s: string, pat: string, rep: string)
    requires |pat| > 0 && |rep| != |pat|
    ensures ReplaceAll(s, pat, rep) == s <==> !Occurs(s, pat)
  {
    ReplaceAllLength(s, pat, rep);
    OccurrencesZero(s, pat);
    if !Occurs(s, pat) {
      ReplaceAllNoMatch(s, pat, rep);
    } else {
      NonzeroProduct(Occurrences(s, pat), |rep| - |pat|);
    }
  }

  /** Strict code-point (lexicographic) order of Python string comparison. */
  predicate Below(a: string, b: string) {
    if |a| == 0 then |b| > 0
    else if |b| == 0 then false
    else if a[0] != b[0] then a[0] < b[0]
    else Below(a[1..], b[1..])
  }

  lemma {:induction false} BelowIrreflexive(a: string)
    ensures !Below(a, a)
  {
    if |a| > 0 {
      BelowIrreflexive(a[1..]);
    }
  }

  lemma {:induction false} BelowTransitive(a: string, b: string, c: string)
    requires Below(a, b) && Below(b, c)
    ensures Below(a, c)
  {
    if |a| > 0 && |b| > 0 && |c| > 0 && a[0] == b[0] == c[0] {
      BelowTransitive(a[1..], b[1..], c[1..]);
    }
  }

  lemma {:induction false} BelowTotal(a: string, b: string)
    requires a != b
    ensures Below(a, b) || Below(b, a)
  {
    if |a| > 0 && |b| > 0 && a[0] == b[0] {
      assert a == [a[0]] + a[1..] && b == [b[0]] + b[1..];
      BelowTotal(a[1..], b[1..]);
    }
  }

  lemma {:induction false} BelowAsymmetric(a: string, b: string)
    requires Below(a, b)
    ensures !Below(b, a)
  {
    if |a| > 0 && |b| > 0 && a[0] == b[0] {
      BelowAsymmetric(a[1..], b[1..]);
    }
  }
}
