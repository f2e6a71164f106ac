/** Member-name canonicalisation: every source is reduced to a key of the
    form "Last, First" (losapv13.py: swap_name_order and the inline key
    building of the three imports). */
module Names {
  import opened Wrappers
  import opened Strings

  /** The key built from separate surname and given-name fields. */
  function LastFirst(last: string, first: string): string {
    last + ", " + first
  }

  /** A right-stripped name already in "Last, First" form: its first comma is
      at an index above 0 (`fname.find(',') > 0`). */
  predicate InLastFirstForm(t: string) {
    ',' in t && t[0] != ','
  }

  /** `swap_name_order` for one name. None stands for the IndexError raised
      when a name with no comma after index 0 has no space to split at. */
  function SwapNameOrder(name: string): (r: Option<string>)
    ensures InLastFirstForm(RStrip(name)) ==> r == Some(RStrip(name))
    ensures !InLastFirstForm(RStrip(name)) ==> (r.None? <==> ' ' !in RStrip(name))
    ensures r.Some? ==> ',' in r.value
  {
    var t := RStrip(name);
    if Find(t, ',') > 0 then Some(t)
    else
      match SplitLast(t, ' ')
      case None => None
      case Some(parts) =>
        assert LastFirst(parts.1, parts.0)[|parts.1|] == ',';
        Some(LastFirst(parts.1, parts.0))
  }

  /** A name not yet in "Last, First" form is split at its last space:
      everything before is the given name, the final token the surname. */
  lemma SwapAtLastSpace(name: string, first: string, last: string)
    requires !InLastFirstForm(RStrip(name))
    requires RStrip(name) == first + " " + last
    requires ' ' !in last
    ensures SwapNameOrder(name) == Some(LastFirst(last, first))
  {
    SplitLastUnique(RStrip(name), ' ', first, last);
  }

  /** "First Last" with no comma, no whitespace in the surname and a
      non-empty surname becomes "Last, First"; a multi-word given name stays
      whole. */
  lemma SwapFirstLast(first: string, last: string)
    requires ',' !in first && ',' !in last
    requires |last| > 0
    requires forall i :: 0 <= i < |last| ==> !IsWhitespace(last[i])
    ensures SwapNameOrder(first + " " + last) == Some(LastFirst(last, first))
  {
    var name := first + " " + last;
    assert RStrip(name) == name by {
      assert !IsWhitespace(name[|name| - 1]);
    }
    assert ' ' !in last by {
      assert IsWhitespace(' ');
    }
    assert ',' !in name by {
      assert name == first + [' '] + last;
    }
    SwapAtLastSpace(name, first, last);
  }

  /** A key already in canonical form (comma after index 0, no trailing
      whitespace) is left exactly as it is. */
  lemma CanonicalKeyIsFixed(key: string)
    requires InLastFirstForm(key)
    requires |key| == 0 || !IsWhitespace(key[|key| - 1])
    ensures SwapNameOrder(key) == Some(key)
  {
  }

  /** The response-log clean-up `str.replace('  ', ' ')`: one left-to-right
      pass, so a run of three spaces leaves two. */
  function CollapseDoubleSpaces(s: string): string {
    ReplaceAll(s, "  ", " ")
  }

  /** Each replaced pair shortens the name by one, and a name without a
      double space comes back unchanged (and only such a name). */
  lemma CollapseDoubleSpacesEffect(s: string)
    ensures |CollapseDoubleSpaces(s)| == |s| - Occurrences(s, "  ")
    ensures CollapseDoubleSpaces(s) == s <==> !Occurs(s, "  ")
  {
    ReplaceAllLength(s, "  ", " ");
    ReplaceAllUnchanged(s, "  ", " ");
  }

  lemma TripleSpaceLeavesDouble()
    ensures CollapseDoubleSpaces("   ") == "  "
  {
    assert "   "[..2] == "  ";
    assert "   "[2..] == " ";
  }

  /** The response-log key: collapse double spaces, split at the last space
      and emit "Last, First". A missing name, or one with no space (no
      surname column after `rsplit`), gives no key and the row is dropped
      from the grouping. */
  function ResponseLogKey(name: Option<string>): (r: Option<string>)
    ensures r.Some? <==> name.Some? && ' ' in CollapseDoubleSpaces(name.value)
  {
    match name
    case None => None
    case Some(n) =>
      match SplitLast(CollapseDoubleSpaces(n), ' ')
      case None => None
      case Some(parts) => Some(LastFirst(parts.1, parts.0))
  }

  /** The key is "Last, First" around the last space of the collapsed name. */
  lemma ResponseLogKeySplit(name: string, first: string, last: string)
    requires CollapseDoubleSpaces(name) == first + " " + last
    requires ' ' !in last
    ensures ResponseLogKey(Some(name)) == Some(LastFirst(last, first))
  {
    SplitLastUnique(CollapseDoubleSpaces(name), ' ', first, last);
  }

  /** The attendance key `Last name + ', ' + First name`; a missing field
      makes the key missing (NaN) and the row drops out of the grouping. */
  function AttendanceKey(last: Option<string>, first: Option<string>): (r: Option<string>)
    ensures r.Some? <==> last.Some? && first.Some?
    ensures r.Some? ==> |r.value| == |last.value| + 2 + |first.value|
    ensures r.Some? ==> last.value <= r.value && first.value == r.value[|last.value| + 2..]
    ensures r.Some? ==> r.value[|last.value|..|last.value| + 2] == ", "
  {
    if last.Some? && first.Some? then Some(LastFirst(last.value, first.value)) else None
  }

  const Misspelt := "Smith, Jon"
  const Corrected := "Smith, John"

  /** The hard-coded clean-up of attendance keys: every occurrence of the
      substring "Smith, Jon" becomes "Smith, John". */
  function CorrectName(key: string): string {
    ReplaceAll(key, Misspelt, Corrected)
  }

  /** A key is changed by the correction exactly when it contains the
      misspelling. */
  lemma CorrectNameChanges(key: string)
    ensures CorrectName(key) != key <==> Occurs(key, Misspelt)
  {
    ReplaceAllUnchanged(key, Misspelt, Corrected);
  }

  /** The misspelt key is corrected and the correct key is left alone; being
      a substring replacement, it also rewrites longer given names. */
  lemma CorrectNameExamples()
    ensures CorrectName("Smith, Jon") == "Smith, John"
    ensures CorrectName("Smith, John") == "Smith, John"
    ensures CorrectName("Smith, Jonathan") == "Smith, Johnathan"
  {
    assert "Smith, Jon"[..10] == Misspelt;
    assert "Smith, Jon"[10..] == [];
    CorrectNameChanges("Smith, John");
    assert !Occurs("Smith, John", Misspelt) by {
      forall i | 0 <= i <= |"Smith, John"|
        ensures !OccursAt("Smith, John", Misspelt, i)
      {
        if i == 0 {
          assert "Smith, John"[9] != Misspelt[9];
        }
      }
    }
    var s := "Smith, Jonathan";
    assert s[..10] == Misspelt;
    assert s[10..] == "athan";
    ReplaceAllNoMatchShort("athan");
  }

  lemma ReplaceAllNoMatchShort(s: string)
    requires |s| < |Misspelt|
    ensures CorrectName(s) == s
  {
  }
}
