/** The attendance import (losapv13.py: import_iamresponding): Tour of Duty
    from the duty-roster export, joined on the left so that the ledger keeps
    exactly the members of the new file. */
module Attendance {
  import opened Wrappers
  import opened Strings
  import opened Names
  import opened Grouping
  import opened Scoring
  import opened Ledger

  /** One data row of the export: surname, given name and shift hours, each
      possibly empty. */
  datatype AttendanceRow = AttendanceRow(lastName: Option<string>, firstName: Option<string>, shiftHours: Option<real>)

  function KeyOf(row: AttendanceRow): Option<string> {
    AttendanceKey(row.lastName, row.firstName)
  }

  /** The member keys of the export, before the name correction. */
  function RawKeys(rows: seq<AttendanceRow>): set<string> {
    set i | 0 <= i < |rows| && KeyOf(rows[i]).Some? :: KeyOf(rows[i]).value
  }

  /** The reference sum: shift hours on rows keyed `key`, an empty cell
      counting 0 (pandas `sum` skips NaN). */
  function HoursFor(rows: seq<AttendanceRow>, key: string): real {
    if |rows| == 0 then 0.0
    else
      var last := rows[|rows| - 1];
      HoursFor(rows[..|rows| - 1], key) + (if KeyOf(last) == Some(key) then last.shiftHours.GetOr(0.0) else 0.0)
  }

  /** The grouping input: rows with a key, and their hours. */
  function Entries(rows: seq<AttendanceRow>): (entries: seq<Entry>)
    ensures KeysOf(entries) == RawKeys(rows)
    ensures forall k :: SumFor(entries, k) == HoursFor(rows, k)
  {
    if |rows| == 0 then []
    else
      var init := rows[..|rows| - 1];
      var last := rows[|rows| - 1];
      var entries := Entries(init);
      assert RawKeys(rows) == RawKeys(init) + (if KeyOf(last).Some? then {KeyOf(last).value} else {}) by {
        forall k | k in RawKeys(rows)
          ensures k in RawKeys(init) + (if KeyOf(last).Some? then {KeyOf(last).value} else {})
        {
          var i :| 0 <= i < |rows| && KeyOf(rows[i]).Some? && KeyOf(rows[i]).value == k;
          if i < |init| { assert init[i] == rows[i]; }
        }
        forall k | k in RawKeys(init) ensures k in RawKeys(rows) {
          var i :| 0 <= i < |init| && KeyOf(init[i]).Some? && KeyOf(init[i]).value == k;
          assert rows[i] == init[i];
        }
      }
      match KeyOf(last)
      case None => entries
      case Some(k) =>
        var entries' := entries + [Entry(k, last.shiftHours.GetOr(0.0))];
        assert entries'[..|entries'| - 1] == entries;
        assert KeysOf(entries') == KeysOf(entries) + {k} by {
          forall x | x in KeysOf(entries') ensures x in KeysOf(entries) + {k} {
            var i :| 0 <= i < |entries'| && entries'[i].key == x;
            if i < |entries| { assert entries[i].key == x; }
          }
          forall x | x in KeysOf(entries) ensures x in KeysOf(entries') {
            var i :| 0 <= i < |entries| && entries[i].key == x;
            assert entries'[i].key == x;
          }
          assert entries'[|entries|].key == k;
        }
        entries'
  }

  /** Tour of Duty per key of the export, before the name correction. */
  function RawTourOfDuty(rows: seq<AttendanceRow>): (t: map<string, real>)
    ensures t.Keys == RawKeys(rows)
    ensures forall k :: k in t ==> t[k] == TourOfDutyPoints(HoursFor(rows, k))
  {
    var hours := GroupSum(Entries(rows));
    map k | k in hours :: TourOfDutyPoints(hours[k])
  }

  /** The correction maps distinct keys to distinct keys, so the corrected
      table still has one row per member. */
  predicate CorrectionKeepsApart(keys: set<string>) {
    forall a, b :: a in keys && b in keys && CorrectName(a) == CorrectName(b) ==> a == b
  }

  predicate CorrectionKeepsKeysApart(rows: seq<AttendanceRow>) {
    CorrectionKeepsApart(RawKeys(rows))
  }

  function CorrectedKeys(keys: set<string>): set<string> {
    set k | k in keys :: CorrectName(k)
  }

  /** The member set of the import: the corrected keys of the export. */
  function ImportedKeys(rows: seq<AttendanceRow>): set<string> {
    CorrectedKeys(RawKeys(rows))
  }

  /** `df['Member Name'].str.replace('Smith, Jon', 'Smith, John')` on a
      grouped table. */
  function CorrectTable(raw: map<string, real>): (t: map<string, real>)
    requires CorrectionKeepsApart(raw.Keys)
    ensures t.Keys == CorrectedKeys(raw.Keys)
    ensures forall k :: k in raw ==> t[CorrectName(k)] == raw[k]
  {
    map k | k in raw :: CorrectName(k) := raw[k]
  }

  /** Tour of Duty per member, keyed after the "Smith, Jon" correction. */
  function TourOfDutyTable(rows: seq<AttendanceRow>): (t: map<string, real>)
    requires CorrectionKeepsKeysApart(rows)
    ensures t.Keys == ImportedKeys(rows)
    ensures forall k :: k in RawKeys(rows) ==> t[CorrectName(k)] == TourOfDutyPoints(HoursFor(rows, k))
  {
    CorrectTable(RawTourOfDuty(rows))
  }

  /** pandas reads a surname column with no text at all as floats, and
      `df_iamr['Last name'] + ', '` then raises TypeError: the handler
      reports it and the ledger is never assigned. */
  predicate SurnamesAllEmpty(rows: seq<AttendanceRow>) {
    |rows| > 0 && forall i :: 0 <= i < |rows| ==> rows[i].lastName.None?
  }

  /** The merge of a readable roster: the ledger afterwards holds exactly the
      imported members, Tour of Duty takes the new value, every other
      category is carried over (0 for members the ledger lacked), and Total
      is recomputed. */
  function Merged(l: Ledger, rows: seq<AttendanceRow>): (l': Ledger)
    requires CorrectionKeepsKeysApart(rows)
    ensures l'.Keys == ImportedKeys(rows)
    ensures forall k :: k in l' ==> l'[k].tourOfDuty == TourOfDutyTable(rows)[k]
    ensures forall k :: k in RawKeys(rows) ==> l'[CorrectName(k)].tourOfDuty == TourOfDutyPoints(HoursFor(rows, k))
    ensures forall k, d :: k in l' && d != TourOfDuty && d != Total ==> Get(l'[k], d) == Get(Prior(l, k), d)
    ensures AllConsistent(l')
  {
    var t := TourOfDutyTable(rows);
    var joined := LeftJoinColumn(l, TourOfDuty, t);
    var l' := RetotalAll(joined);
    forall k | k in RawKeys(rows)
      ensures l'[CorrectName(k)].tourOfDuty == TourOfDutyPoints(HoursFor(rows, k))
    {
      var m := CorrectName(k);
      assert Get(l'[m], TourOfDuty) == Get(joined[m], TourOfDuty) == t[m];
    }
    l'
  }

  /** The whole import: abandoned exactly when no row has a surname, and
      otherwise the merge of the roster into the ledger. */
  function Import(l: Ledger, rows: seq<AttendanceRow>): (r: Result<Ledger, ImportError>)
    requires CorrectionKeepsKeysApart(rows)
    ensures r.Failure? <==> SurnamesAllEmpty(rows)
    ensures r.Failure? ==> r.error == UnreadableSurnames
    ensures r.Success? ==> r.value.Keys == ImportedKeys(rows) && AllConsistent(r.value)
    ensures r.Success? ==> forall k :: k in r.value ==> r.value[k].tourOfDuty == TourOfDutyTable(rows)[k]
    ensures r.Success? ==> forall k, d :: k in r.value && d != TourOfDuty && d != Total ==>
      Get(r.value[k], d) == Get(Prior(l, k), d)
  {
    if SurnamesAllEmpty(rows) then Failure(UnreadableSurnames) else Success(Merged(l, rows))
  }

  /** Re-running the same import changes nothing. */
  lemma ImportIdempotent(l: Ledger, rows: seq<AttendanceRow>)
    requires CorrectionKeepsKeysApart(rows)
    ensures Import(l, rows).Success? ==> Import(Import(l, rows).value, rows) == Import(l, rows)
  {
    if !SurnamesAllEmpty(rows) {
      MergedIdempotent(l, rows);
    }
  }

  lemma MergedIdempotent(l: Ledger, rows: seq<AttendanceRow>)
    requires CorrectionKeepsKeysApart(rows)
    ensures Merged(Merged(l, rows), rows) == Merged(l, rows)
  {
    var once := Merged(l, rows);
    var twice := Merged(once, rows);
    assert twice.Keys == once.Keys;
    forall k | k in twice
      ensures twice[k] == once[k]
    {
      SameMemberAfterRerun(l, rows, k);
    }
    SameLedger(twice, once);
  }

  lemma SameMemberAfterRerun(l: Ledger, rows: seq<AttendanceRow>, k: string)
    requires CorrectionKeepsKeysApart(rows)
    requires k in ImportedKeys(rows)
    ensures Merged(Merged(l, rows), rows)[k] == Merged(l, rows)[k]
  {
    var once := Merged(l, rows);
    var twice := Merged(once, rows);
    assert Get(twice[k], TourOfDuty) == TourOfDutyTable(rows)[k] == Get(once[k], TourOfDuty);
    forall d | d != Total && d != TourOfDuty
      ensures Get(twice[k], d) == Get(once[k], d)
    {
      assert Get(twice[k], d) == Get(Prior(once, k), d);
    }
    ConsistentExt(twice[k], once[k]);
  }

  /** A worked import into the empty ledger: two roster rows for Jane Doe,
      24 and 12 hours, give the member three 12-hour shifts, hence 3 Tour of Duty
      points and a Total of 3. */
  lemma ImportExample()
    ensures var rows := [
        AttendanceRow(Some("Doe"), Some("Jane"), Some(24.0)),
        AttendanceRow(Some("Doe"), Some("Jane"), Some(12.0))];
      && CorrectionKeepsKeysApart(rows)
      && Import(Cleared(), rows).Success?
      && Import(Cleared(), rows).value.Keys == {"Doe, Jane"}
      && Import(Cleared(), rows).value["Doe, Jane"].tourOfDuty == 3.0
      && Import(Cleared(), rows).value["Doe, Jane"].total == 3.0
      && forall d :: d != TourOfDuty && d != Total ==> Get(Import(Cleared(), rows).value["Doe, Jane"], d) == 0.0
  {
    var rows := [
      AttendanceRow(Some("Doe"), Some("Jane"), Some(24.0)),
      AttendanceRow(Some("Doe"), Some("Jane"), Some(12.0))];
    var key := "Doe, Jane";
    assert LastFirst("Doe", "Jane") == key;
    assert KeyOf(rows[0]) == Some(key) && KeyOf(rows[1]) == Some(key);
    assert RawKeys(rows) == {key};
    ReplaceAllNoMatchShort(key);
    assert CorrectionKeepsKeysApart(rows);
    assert ImportedKeys(rows) == {key};
    assert rows[..1][..0] == [] && rows[..1] == [rows[0]];
    assert HoursFor(rows, key) == 36.0;
    TourOfDutyWholeShifts(3);
    assert !SurnamesAllEmpty(rows);
    MergedIntoEmpty(rows, key);
  }

  /** Into the empty ledger, a member's Total is its Tour of Duty alone. */
  lemma MergedIntoEmpty(rows: seq<AttendanceRow>, k: string)
    requires CorrectionKeepsKeysApart(rows)
    requires k in ImportedKeys(rows)
    ensures Merged(Cleared(), rows)[k].total == Merged(Cleared(), rows)[k].tourOfDuty
  {
    var l := Merged(Cleared(), rows);
    assert k in l;
    var r := l[k];
    forall d | d != TourOfDuty && d != Total ensures Get(r, d) == 0.0 {
      assert Get(r, d) == Get(Prior(Cleared(), k), d);
    }
    OnlyTourOfDuty(r);
  }

  lemma OnlyTourOfDuty(r: Record)
    requires Consistent(r)
    requires forall d :: d != TourOfDuty && d != Total ==> Get(r, d) == 0.0
    ensures r.total == r.tourOfDuty
  {
    assert Get(r, Training) == 0.0 && Get(r, Drills) == 0.0 && Get(r, Meetings) == 0.0;
    assert Get(r, MiscActivity) == 0.0 && Get(r, CallsRespondedTo) == 0.0;
    assert Get(r, PositionHeld) == 0.0 && Get(r, Disability) == 0.0;
    ConsistentMeans(r);
  }
}
