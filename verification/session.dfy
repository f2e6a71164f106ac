/** The main window's ledger over a session (losapv13.py: MainWindow): the
    empty ledger of the fixed schema, `clear_all`, and the three imports
    applied in the order the user chooses them. */
module Session {
  import opened Wrappers
  import opened Scoring
  import opened Ledger
  import Names
  import Attendance
  import ResponseLog
  import SelfReport

  /** A user action that changes the ledger. */
  datatype Action =
    | Clear
    | AttendanceImport(rows: seq<Attendance.AttendanceRow>)
    | ResponseLogImport(names: seq<Option<string>>)
    | SelfReportImport(dir: seq<SelfReport.Workbook>, cancelAfter: Option<nat>)

  /** The imports whose merges keep member keys unique. */
  predicate Admissible(a: Action) {
    match a
    case AttendanceImport(rows) => Attendance.CorrectionKeepsKeysApart(rows)
    case SelfReportImport(dir, cancelAfter) => SelfReport.DistinctNames(SelfReport.Summaries(dir, cancelAfter))
    case _ => true
  }

  predicate AllAdmissible(actions: seq<Action>) {
    forall i :: 0 <= i < |actions| ==> Admissible(actions[i])
  }

  /** What every ledger of a session satisfies: each Total is the sum of the
      eight categories, no import ever fills Position Held, and Disability
      never exceeds 5. */
  predicate Sound(l: Ledger) {
    && AllConsistent(l)
    && (forall k :: k in l ==> l[k].positionHeld == 0.0)
    && (forall k :: k in l ==> l[k].disability <= 5.0)
  }

  /** One action: a successful import's ledger replaces the current one,
      and an abandoned import leaves the ledger as it was. */
  function Apply(l: Ledger, a: Action): (l': Ledger)
    requires Admissible(a)
    ensures Sound(l) ==> Sound(l')
    ensures a.Clear? ==> l' == Cleared()
    ensures a.AttendanceImport? && Attendance.Import(l, a.rows).Failure? ==> l' == l
    ensures a.ResponseLogImport? && ResponseLog.Import(l, a.names).Failure? ==> l' == l
    ensures a.SelfReportImport? && SelfReport.Import(l, a.dir, a.cancelAfter).Failure? ==> l' == l
    ensures a.AttendanceImport? && Attendance.Import(l, a.rows).Success? ==> l' == Attendance.Import(l, a.rows).value
    ensures a.ResponseLogImport? && ResponseLog.Import(l, a.names).Success? ==> l' == ResponseLog.Import(l, a.names).value
    ensures a.SelfReportImport? && SelfReport.Import(l, a.dir, a.cancelAfter).Success? ==>
      l' == SelfReport.Import(l, a.dir, a.cancelAfter).value
  {
    match a
    case Clear => Cleared()
    case AttendanceImport(rows) =>
      (match Attendance.Import(l, rows)
       case Success(l') => (if Sound(l) then CarriedOverIsSound(l, l'); l' else l')
       case Failure(_) => l)
    case ResponseLogImport(names) =>
      (match ResponseLog.Import(l, names)
       case Success(l') => (if Sound(l) then CarriedOverIsSound(l, l'); l' else l')
       case Failure(_) => l)
    case SelfReportImport(dir, cancelAfter) =>
      match SelfReport.Import(l, dir, cancelAfter)
      case Success(l') =>
        if |SelfReport.Activities(dir, cancelAfter)| == 0 then l'
        else (SelfReportIsSound(l, l', SelfReport.Activities(dir, cancelAfter)); l')
      case Failure(_) => l
  }

  /** An import that carries Position Held and Disability over from the
      prior ledger keeps the ledger sound. */
  lemma CarriedOverIsSound(l: Ledger, l': Ledger)
    requires Sound(l) && AllConsistent(l')
    requires forall k, d :: k in l' && d != Total && d != TourOfDuty && d != CallsRespondedTo ==>
      Get(l'[k], d) == Get(Prior(l, k), d)
    ensures Sound(l')
  {
    forall k | k in l' ensures l'[k].positionHeld == 0.0 && l'[k].disability <= 5.0 {
      assert Get(l'[k], PositionHeld) == Get(Prior(l, k), PositionHeld);
      assert Get(l'[k], Disability) == Get(Prior(l, k), Disability);
    }
  }

  /** The self-report import clips Disability and carries Position Held over. */
  lemma SelfReportIsSound(l: Ledger, l': Ledger, acts: seq<SelfReport.KeyedActivity>)
    requires AllConsistent(l')
    requires forall k :: k in l' ==> SelfReport.Scored(l'[k], l, acts, k)
    ensures Sound(l) ==> Sound(l')
  {
    if Sound(l) {
      forall k | k in l' ensures l'[k].positionHeld == 0.0 && l'[k].disability <= 5.0 {
        assert SelfReport.Scored(l'[k], l, acts, k);
      }
    }
  }

  /** The ledger after a session's actions, starting from the empty ledger
      the window opens with. */
  function Replay(actions: seq<Action>): (l: Ledger)
    requires AllAdmissible(actions)
    ensures Sound(l)
  {
    if |actions| == 0 then Cleared()
    else Apply(Replay(actions[..|actions| - 1]), actions[|actions| - 1])
  }

  /** The example member's key, the member's two roster rows (24 and 12
      hours) and the member's self-report of three Meetings rows. */
  const ExampleKey := "Doe, Jane"
  const ExampleRows := [
    Attendance.AttendanceRow(Some("Doe"), Some("Jane"), Some(24.0)),
    Attendance.AttendanceRow(Some("Doe"), Some("Jane"), Some(12.0))]
  const ExampleMeeting := SelfReport.ActivityRow(Some("Meetings"), Some(1.0), None)
  const ExampleReport := SelfReport.Workbook(ExampleKey + ".xlsx", Some(ExampleKey), None, None,
    [ExampleMeeting, ExampleMeeting, ExampleMeeting])

  /** Two imports in turn, the roster then the self-report: the member ends with
      3 Meetings, 3 Tour of Duty and a Total of 6, and nothing else. */
  lemma EndToEndExample()
    ensures Admissible(AttendanceImport(ExampleRows))
    ensures Attendance.Import(Cleared(), ExampleRows).Success?
    ensures Admissible(SelfReportImport([ExampleReport], None))
    ensures SelfReport.Import(Attendance.Import(Cleared(), ExampleRows).value, [ExampleReport], None).Success?
    ensures var l := SelfReport.Import(Attendance.Import(Cleared(), ExampleRows).value, [ExampleReport], None).value;
      && l.Keys == {ExampleKey}
      && l[ExampleKey].meetings == 3.0
      && l[ExampleKey].tourOfDuty == 3.0
      && l[ExampleKey].total == 6.0
      && l[ExampleKey].training == 0.0
      && l[ExampleKey].drills == 0.0
      && l[ExampleKey].miscActivity == 0.0
      && l[ExampleKey].callsRespondedTo == 0.0
      && l[ExampleKey].positionHeld == 0.0
      && l[ExampleKey].disability == 0.0
  {
    Attendance.ImportExample();
    var l := Attendance.Import(Cleared(), ExampleRows).value;
    ExampleReportRead();
    ThreeMeetings(ExampleMeeting);
    MeetingsOnto(l, ExampleReport, ExampleKey);
  }

  /** A report whose rows tally to 3 Meetings and nothing else, imported
      onto a ledger where its member has only Tour of Duty: Meetings becomes
      3 and Total grows by 3. */
  lemma MeetingsOnto(l: Ledger, report: SelfReport.Workbook, key: string)
    requires l.Keys == {key} && Consistent(l[key])
    requires forall d :: d != TourOfDuty && d != Total ==> Get(l[key], d) == 0.0
    requires SelfReport.IsMemberReport(report.fileName) && SelfReport.ReportKey(report) == Some(key)
    requires |report.activities| > 0
    requires SelfReport.RowTally(report.activities, SelfReport.MeetingsLabel, SelfReport.RowCount) == 3.0
    requires SelfReport.RowTally(report.activities, SelfReport.DrillsLabel, SelfReport.PointsSum) == 0.0
    requires SelfReport.RowTally(report.activities, SelfReport.TrainingLabel, SelfReport.HoursSum) == 0.0
    requires SelfReport.RowTally(report.activities, SelfReport.MiscLabel, SelfReport.PointsSum) == 0.0
    requires SelfReport.RowTally(report.activities, SelfReport.DisabilityLabel, SelfReport.PointsSum) == 0.0
    ensures Admissible(SelfReportImport([report], None))
    ensures SelfReport.Import(l, [report], None).Success?
    ensures var l' := SelfReport.Import(l, [report], None).value;
      && l'.Keys == {key}
      && l'[key].meetings == 3.0
      && l'[key].tourOfDuty == l[key].tourOfDuty
      && l'[key].total == l[key].tourOfDuty + 3.0
      && l'[key].training == 0.0
      && l'[key].drills == 0.0
      && l'[key].miscActivity == 0.0
      && l'[key].callsRespondedTo == 0.0
      && l'[key].positionHeld == 0.0
      && l'[key].disability == 0.0
  {
    assert Prior(l, key) == l[key];
    assert DisabilityPoints(0.0) == 0.0;
    SelfReport.ImportSingleReport(l, report);
    var r := SelfReport.Import(l, [report], None).value[key];
    MeetingsRecord(l[key], r);
  }

  /** The example's workbook is read, under the member's key. */
  lemma ExampleReportRead()
    ensures SelfReport.IsMemberReport(ExampleReport.fileName)
    ensures SelfReport.ReportKey(ExampleReport) == Some(ExampleKey)
  {
    var key := "Doe, Jane";
    assert Names.InLastFirstForm(key) by { assert key[3] == ','; }
    Names.CanonicalKeyIsFixed(key);
    XlsxReport(key);
  }

  /** A member's own workbook, named after the member, is read. */
  lemma XlsxReport(name: string)
    ensures SelfReport.IsMemberReport(name + ".xlsx") <==> |name| == 0 || name[0] != '~'
  {
    var f := name + ".xlsx";
    assert f[|f| - 5..] == ".xlsx";
    if |name| > 0 { assert f[0] == name[0]; }
  }

  /** The record arithmetic of the example: a member with only Tour of Duty
      who gains 3 Meetings and nothing else has a Total 3 higher. */
  lemma MeetingsRecord(prev: Record, r: Record)
    requires Consistent(prev) && Consistent(r)
    requires forall d :: d != TourOfDuty && d != Total ==> Get(prev, d) == 0.0
    requires r.meetings == 3.0 && r.tourOfDuty == prev.tourOfDuty
    requires r.training == 0.0 && r.drills == 0.0 && r.miscActivity == 0.0 && r.disability == 0.0
    requires r.callsRespondedTo == prev.callsRespondedTo && r.positionHeld == prev.positionHeld
    ensures r.total == prev.tourOfDuty + 3.0
    ensures r.callsRespondedTo == 0.0 && r.positionHeld == 0.0
  {
    assert Get(prev, CallsRespondedTo) == 0.0 && Get(prev, PositionHeld) == 0.0;
    ConsistentMeans(r);
  }

  /** Three Meetings rows tally to 3 Meetings and nothing else. */
  lemma ThreeMeetings(meeting: SelfReport.ActivityRow)
    requires meeting.activity == Some(SelfReport.MeetingsLabel)
    ensures var acts := [meeting, meeting, meeting];
      && SelfReport.RowTally(acts, SelfReport.MeetingsLabel, SelfReport.RowCount) == 3.0
      && SelfReport.RowTally(acts, SelfReport.DrillsLabel, SelfReport.PointsSum) == 0.0
      && SelfReport.RowTally(acts, SelfReport.TrainingLabel, SelfReport.HoursSum) == 0.0
      && SelfReport.RowTally(acts, SelfReport.MiscLabel, SelfReport.PointsSum) == 0.0
      && SelfReport.RowTally(acts, SelfReport.DisabilityLabel, SelfReport.PointsSum) == 0.0
  {
    TallyThree(meeting, SelfReport.MeetingsLabel, SelfReport.RowCount);
    TallyThree(meeting, SelfReport.DrillsLabel, SelfReport.PointsSum);
    TallyThree(meeting, SelfReport.TrainingLabel, SelfReport.HoursSum);
    TallyThree(meeting, SelfReport.MiscLabel, SelfReport.PointsSum);
    TallyThree(meeting, SelfReport.DisabilityLabel, SelfReport.PointsSum);
  }

  lemma TallyThree(row: SelfReport.ActivityRow, bucket: string, m: SelfReport.Measure)
    ensures SelfReport.RowTally([row, row, row], bucket, m)
      == 3.0 * (if row.activity == Some(bucket) then SelfReport.Amount(row, m) else 0.0)
  {
    SelfReport.RowTallySnoc([], row, bucket, m);
    assert [] + [row] == [row];
    SelfReport.RowTallySnoc([row], row, bucket, m);
    assert [row] + [row] == [row, row];
    SelfReport.RowTallySnoc([row, row], row, bucket, m);
    assert [row, row] + [row] == [row, row, row];
  }
}
