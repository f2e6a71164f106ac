/** The member self-report import (losapv13.py: swap_name_order and
    import_other): one workbook per member, itemised activities scored into
    five categories plus the self-reported total, each merged as an outer
    join that replaces its column. */
module SelfReport {
  import opened Wrappers
  import opened Strings
  import opened Names
  import opened Grouping
  import opened Scoring
  import opened Ledger

  /** One itemised row of the tracker sheet; the Date, Description, Notes and
      Activity code columns are discarded by the import. */
  datatype ActivityRow = ActivityRow(activity: Option<string>, hours: Option<real>, points: Option<real>)

  /** One file of the chosen directory: its name, the three fixed cells
      (member name, self-reported signup hours, self-reported calls) and the
      itemised rows below the skipped header rows. */
  datatype Workbook = Workbook(
    fileName: string,
    memberName: Option<string>,
    signupHours: Option<real>,
    calls: Option<real>,
    activities: seq<ActivityRow>)

  /** The loop reads `.xlsx` files that are not lock files (`~` prefix). */
  predicate IsMemberReport(fileName: string) {
    && |fileName| >= 5
    && fileName[|fileName| - 5..] == ".xlsx"
    && fileName[0] != '~'
  }

  /** The files the loop reads, in directory order. */
  function Reports(dir: seq<Workbook>): (reports: seq<Workbook>)
    ensures forall w :: w in reports <==> w in dir && IsMemberReport(w.fileName)
    ensures |reports| <= |dir|
  {
    if |dir| == 0 then []
    else
      var init := Reports(dir[..|dir| - 1]);
      var last := dir[|dir| - 1];
      assert dir == dir[..|dir| - 1] + [last];
      if IsMemberReport(last.fileName) then init + [last] else init
  }

  /** Cancellation is seen after the report at index `cancelAfter`, once its
      summary cells were stored but before its itemised rows were appended.
      These are the reports whose summary cells reach the merge... */
  function SummaryReports(reports: seq<Workbook>, cancelAfter: Option<nat>): seq<Workbook> {
    if cancelAfter.Some? && cancelAfter.value < |reports| then reports[..cancelAfter.value + 1] else reports
  }

  /** ... and these the reports whose itemised rows do. */
  function ItemisedReports(reports: seq<Workbook>, cancelAfter: Option<nat>): seq<Workbook> {
    if cancelAfter.Some? && cancelAfter.value < |reports| then reports[..cancelAfter.value] else reports
  }

  /** The member key of a report: its name cell through `swap_name_order`.
      An empty cell becomes the text "None", which cannot be split either. */
  function ReportKey(w: Workbook): Option<string> {
    match w.memberName
    case None => None
    case Some(name) => SwapNameOrder(name)
  }

  predicate ReadableNames(reports: seq<Workbook>) {
    forall i :: 0 <= i < |reports| ==> ReportKey(reports[i]).Some?
  }

  /** No two reports name the same member (pandas would otherwise duplicate
      the member's row in the merge). */
  predicate DistinctNames(reports: seq<Workbook>) {
    forall i, j :: 0 <= i < j < |reports| && ReportKey(reports[i]).Some? ==> ReportKey(reports[i]) != ReportKey(reports[j])
  }

  function ReportKeys(reports: seq<Workbook>): set<string> {
    set i | 0 <= i < |reports| && ReportKey(reports[i]).Some? :: ReportKey(reports[i]).value
  }

  /** An itemised row together with its report's key. */
  datatype KeyedActivity = KeyedActivity(key: Option<string>, row: ActivityRow)

  function Tag(key: Option<string>, rows: seq<ActivityRow>): (tagged: seq<KeyedActivity>)
    ensures |tagged| == |rows|
    ensures forall i :: 0 <= i < |rows| ==> tagged[i] == KeyedActivity(key, rows[i])
  {
    seq(|rows|, i requires 0 <= i < |rows| => KeyedActivity(key, rows[i]))
  }

  /** `pd.concat` of the itemised tables, each row carrying its member key. */
  function KeyedActivities(reports: seq<Workbook>): (acts: seq<KeyedActivity>)
    ensures forall i :: 0 <= i < |acts| && acts[i].key.Some? ==> acts[i].key.value in ReportKeys(reports)
  {
    if |reports| == 0 then []
    else
      var init := reports[..|reports| - 1];
      var last := reports[|reports| - 1];
      var earlier := KeyedActivities(init);
      var acts := earlier + Tag(ReportKey(last), last.activities);
      forall i | 0 <= i < |acts| && acts[i].key.Some?
        ensures acts[i].key.value in ReportKeys(reports)
      {
        if i < |earlier| {
          var j :| 0 <= j < |init| && ReportKey(init[j]).Some? && ReportKey(init[j]).value == acts[i].key.value;
          assert reports[j] == init[j];
        } else {
          assert acts[i].key == ReportKey(reports[|reports| - 1]);
        }
      }
      acts
  }

  /** The files are read one by one in directory order: a lone file is kept
      exactly when it is a member report... */
  lemma ReportsSingle(w: Workbook)
    ensures Reports([w]) == if IsMemberReport(w.fileName) then [w] else []
  {
  }

  /** ... and the reports of two runs of files are those of each run, in
      order. */
  lemma {:induction false} ReportsAppend(a: seq<Workbook>, b: seq<Workbook>)
    ensures Reports(a + b) == Reports(a) + Reports(b)
    decreases |b|
  {
    if |b| == 0 {
      assert a + b == a;
    } else {
      var n := |b| - 1;
      assert (a + b)[..|a + b| - 1] == a + b[..n];
      assert (a + b)[|a + b| - 1] == b[n];
      ReportsAppend(a, b[..n]);
    }
  }

  /** `pd.concat` stacks each report's rows, tagged with that report's key... */
  lemma KeyedActivitiesSingle(w: Workbook)
    ensures KeyedActivities([w]) == Tag(ReportKey(w), w.activities)
  {
  }

  /** ... in report order. */
  lemma {:induction false} KeyedActivitiesAppend(a: seq<Workbook>, b: seq<Workbook>)
    ensures KeyedActivities(a + b) == KeyedActivities(a) + KeyedActivities(b)
    decreases |b|
  {
    if |b| == 0 {
      assert a + b == a;
    } else {
      var n := |b| - 1;
      assert (a + b)[..|a + b| - 1] == a + b[..n];
      assert (a + b)[|a + b| - 1] == b[n];
      KeyedActivitiesAppend(a, b[..n]);
    }
  }

  const MeetingsLabel := "Meetings"
  const DrillsLabel := "Drills, CMEs"
  const TrainingLabel := "Training Course"
  const MiscLabel := "Miscellaneous"
  const DisabilityLabel := "Disability"

  /** What a bucket adds up: rows (Meetings), hours with an empty cell taken
      as 1 hour (Training), or points with an empty cell skipped (Drills,
      Misc. Activity, Disability). */
  datatype Measure = RowCount | HoursSum | PointsSum

  function Amount(row: ActivityRow, m: Measure): real {
    match m
    case RowCount => 1.0
    case HoursSum => row.hours.GetOr(1.0)
    case PointsSum => row.points.GetOr(0.0)
  }

  predicate InBucket(a: KeyedActivity, bucket: string) {
    a.key.Some? && a.row.activity == Some(bucket)
  }

  /** The reference tally: the measure over `key`'s rows labelled exactly
      `bucket`. Rows with no Activity are in no bucket. */
  function Tally(acts: seq<KeyedActivity>, bucket: string, m: Measure, key: string): real {
    if |acts| == 0 then 0.0
    else
      var last := acts[|acts| - 1];
      Tally(acts[..|acts| - 1], bucket, m, key) + (if InBucket(last, bucket) && last.key.value == key then Amount(last.row, m) else 0.0)
  }

  function BucketKeys(acts: seq<KeyedActivity>, bucket: string): set<string> {
    set i | 0 <= i < |acts| && InBucket(acts[i], bucket) :: acts[i].key.value
  }

  lemma {:induction false} TallyAbsent(acts: seq<KeyedActivity>, bucket: string, m: Measure, key: string)
    requires key !in BucketKeys(acts, bucket)
    ensures Tally(acts, bucket, m, key) == 0.0
  {
    if |acts| > 0 {
      var init := acts[..|acts| - 1];
      assert BucketKeys(init, bucket) <= BucketKeys(acts, bucket) by {
        forall k | k in BucketKeys(init, bucket) ensures k in BucketKeys(acts, bucket) {
          var i :| 0 <= i < |init| && InBucket(init[i], bucket) && init[i].key.value == k;
          assert acts[i] == init[i];
        }
      }
      TallyAbsent(init, bucket, m, key);
    }
  }

  /** The bucket's rows as grouping input. */
  function BucketEntries(acts: seq<KeyedActivity>, bucket: string, m: Measure): (entries: seq<Entry>)
    ensures KeysOf(entries) == BucketKeys(acts, bucket)
    ensures forall k :: SumFor(entries, k) == Tally(acts, bucket, m, k)
  {
    if |acts| == 0 then []
    else
      var init := acts[..|acts| - 1];
      var last := acts[|acts| - 1];
      var entries := BucketEntries(init, bucket, m);
      assert BucketKeys(acts, bucket) == BucketKeys(init, bucket) + (if InBucket(last, bucket) then {last.key.value} else {}) by {
        forall k | k in BucketKeys(acts, bucket)
          ensures k in BucketKeys(init, bucket) + (if InBucket(last, bucket) then {last.key.value} else {})
        {
          var i :| 0 <= i < |acts| && InBucket(acts[i], bucket) && acts[i].key.value == k;
          if i < |init| { assert init[i] == acts[i]; }
        }
        forall k | k in BucketKeys(init, bucket) ensures k in BucketKeys(acts, bucket) {
          var i :| 0 <= i < |init| && InBucket(init[i], bucket) && init[i].key.value == k;
          assert acts[i] == init[i];
        }
      }
      if InBucket(last, bucket) then
        var entries' := entries + [Entry(last.key.value, Amount(last.row, m))];
        assert entries'[..|entries'| - 1] == entries;
        assert KeysOf(entries') == KeysOf(entries) + {last.key.value} by {
          forall x | x in KeysOf(entries') ensures x in KeysOf(entries) + {last.key.value} {
            var i :| 0 <= i < |entries'| && entries'[i].key == x;
            if i < |entries| { assert entries[i].key == x; }
          }
          forall x | x in KeysOf(entries) ensures x in KeysOf(entries') {
            var i :| 0 <= i < |entries| && entries[i].key == x;
            assert entries'[i].key == x;
          }
          assert entries'[|entries|].key == last.key.value;
        }
        entries'
      else
        entries
  }

  /** One category per member of the bucket: `groupby('Member Name')`
      followed by `count` or `sum`. */
  function BucketTable(acts: seq<KeyedActivity>, bucket: string, m: Measure): (t: map<string, real>)
    ensures t.Keys == BucketKeys(acts, bucket)
    ensures forall k :: k in t ==> t[k] == Tally(acts, bucket, m, k)
  {
    GroupSum(BucketEntries(acts, bucket, m))
  }

  /** Disability per member: the summed points, clipped at 5. */
  function DisabilityTable(acts: seq<KeyedActivity>): (t: map<string, real>)
    ensures t.Keys == BucketKeys(acts, DisabilityLabel)
    ensures forall k :: k in t ==> t[k] == DisabilityPoints(Tally(acts, DisabilityLabel, PointsSum, k))
    ensures forall k :: k in t ==> t[k] <= 5.0
  {
    var sums := BucketTable(acts, DisabilityLabel, PointsSum);
    map k | k in sums :: DisabilityPoints(sums[k])
  }

  /** The member keys of readable reports, in report order. */
  function KeyColumn(reports: seq<Workbook>): (keys: seq<string>)
    requires ReadableNames(reports)
    ensures |keys| == |reports|
    ensures forall i :: 0 <= i < |reports| ==> keys[i] == ReportKey(reports[i]).value
  {
    if |reports| == 0 then []
    else KeyColumn(reports[..|reports| - 1]) + [ReportKey(reports[|reports| - 1]).value]
  }

  function PointsColumn(reports: seq<Workbook>): (points: seq<real>)
    ensures |points| == |reports|
    ensures forall i :: 0 <= i < |reports| ==> points[i] == SelfReportedPoints(reports[i].signupHours, reports[i].calls)
  {
    if |reports| == 0 then []
    else PointsColumn(reports[..|reports| - 1]) + [SelfReportedPoints(reports[|reports| - 1].signupHours, reports[|reports| - 1].calls)]
  }

  /** SR_Total per member, from each report's two summary cells. */
  function SummaryTable(reports: seq<Workbook>): (t: map<string, real>)
    requires ReadableNames(reports) && DistinctNames(reports)
    ensures t.Keys == ReportKeys(reports)
    ensures forall i :: 0 <= i < |reports| ==>
      t[ReportKey(reports[i]).value] == SelfReportedPoints(reports[i].signupHours, reports[i].calls)
  {
    var keys := KeyColumn(reports);
    DistinctKeyColumn(reports);
    var t := Tabulate(keys, PointsColumn(reports));
    KeyColumnKeys(reports);
    t
  }

  lemma DistinctKeyColumn(reports: seq<Workbook>)
    requires ReadableNames(reports) && DistinctNames(reports)
    ensures forall i, j :: 0 <= i < j < |reports| ==> KeyColumn(reports)[i] != KeyColumn(reports)[j]
  {
    var keys := KeyColumn(reports);
    forall i, j | 0 <= i < j < |reports|
      ensures keys[i] != keys[j]
    {
      assert ReportKey(reports[i]) != ReportKey(reports[j]);
    }
  }

  lemma KeyColumnKeys(reports: seq<Workbook>)
    requires ReadableNames(reports)
    ensures (set k | k in KeyColumn(reports)) == ReportKeys(reports)
  {
    var keys := KeyColumn(reports);
    forall k | k in keys ensures k in ReportKeys(reports) {
      var i :| 0 <= i < |keys| && keys[i] == k;
    }
    forall k | k in ReportKeys(reports) ensures k in keys {
      var i :| 0 <= i < |reports| && ReportKey(reports[i]).Some? && ReportKey(reports[i]).value == k;
      assert keys[i] == k;
    }
  }

  /** The six category tables of one self-report import. */
  datatype Tables = Tables(
    meetings: map<string, real>, drills: map<string, real>, training: map<string, real>,
    misc: map<string, real>, disability: map<string, real>, summary: map<string, real>)

  function TableKeys(t: Tables): set<string> {
    t.meetings.Keys + t.drills.Keys + t.training.Keys + t.misc.Keys + t.disability.Keys + t.summary.Keys
  }

  /** The six outer joins, in the order the import performs them. */
  function Joined(l: Ledger, t: Tables): Ledger {
    var l1 := OuterJoinColumn(l, Meetings, t.meetings);
    var l2 := OuterJoinColumn(l1, Drills, t.drills);
    var l3 := OuterJoinColumn(l2, Training, t.training);
    var l4 := OuterJoinColumn(l3, MiscActivity, t.misc);
    var l5 := OuterJoinColumn(l4, Disability, t.disability);
    var l6 := OuterJoinColumn(l5, SrTotal, t.summary);
    l6
  }

  /** Member `k`'s record `r` after the six joins: each replaced category
      holds its table's value (0 when the table lacks the member), and Tour
      of Duty, Calls Responded To and Position Held are the member's prior
      values. */
  predicate JoinedFrom(r: Record, l: Ledger, t: Tables, k: string) {
    && r.meetings == Lookup(t.meetings, k)
    && r.drills == Lookup(t.drills, k)
    && r.training == Lookup(t.training, k)
    && r.miscActivity == Lookup(t.misc, k)
    && r.disability == Lookup(t.disability, k)
    && r.srTotal == Lookup(t.summary, k)
    && r.tourOfDuty == Prior(l, k).tourOfDuty
    && r.callsRespondedTo == Prior(l, k).callsRespondedTo
    && r.positionHeld == Prior(l, k).positionHeld
  }

  lemma {:induction false} JoinedMember(l: Ledger, t: Tables, k: string)
    ensures k in Joined(l, t) <==>
      k in l || k in t.meetings || k in t.drills || k in t.training || k in t.misc || k in t.disability || k in t.summary
  {
    var l1 := OuterJoinColumn(l, Meetings, t.meetings);
    var l2 := OuterJoinColumn(l1, Drills, t.drills);
    var l3 := OuterJoinColumn(l2, Training, t.training);
    var l4 := OuterJoinColumn(l3, MiscActivity, t.misc);
    var l5 := OuterJoinColumn(l4, Disability, t.disability);
    OuterJoinMember(l, Meetings, t.meetings, k);
    OuterJoinMember(l1, Drills, t.drills, k);
    OuterJoinMember(l2, Training, t.training, k);
    OuterJoinMember(l3, MiscActivity, t.misc, k);
    OuterJoinMember(l4, Disability, t.disability, k);
    OuterJoinMember(l5, SrTotal, t.summary, k);
  }

  lemma {:induction false} JoinedRecord(l: Ledger, t: Tables, k: string)
    ensures JoinedFrom(Prior(Joined(l, t), k), l, t, k)
  {
    var l1 := OuterJoinColumn(l, Meetings, t.meetings);
    var l2 := OuterJoinColumn(l1, Drills, t.drills);
    var l3 := OuterJoinColumn(l2, Training, t.training);
    var l4 := OuterJoinColumn(l3, MiscActivity, t.misc);
    var l5 := OuterJoinColumn(l4, Disability, t.disability);
    OuterJoinAt(l, Meetings, t.meetings, k);
    OuterJoinAt(l1, Drills, t.drills, k);
    OuterJoinAt(l2, Training, t.training, k);
    OuterJoinAt(l3, MiscActivity, t.misc, k);
    OuterJoinAt(l4, Disability, t.disability, k);
    OuterJoinAt(l5, SrTotal, t.summary, k);
    assert Prior(Joined(l, t), k) == Prior(l, k).(meetings := Lookup(t.meetings, k), drills := Lookup(t.drills, k),
      training := Lookup(t.training, k), miscActivity := Lookup(t.misc, k),
      disability := Lookup(t.disability, k), srTotal := Lookup(t.summary, k));
  }

  /** The joins followed by the column reorder, `fillna(0)` and the Total
      recomputation: the member set becomes the union of the ledger and the
      six tables, every member's record is as the joins leave it, and every
      Total is the sum of its categories. */
  function Merge(l: Ledger, t: Tables): (l': Ledger)
    ensures l'.Keys == l.Keys + TableKeys(t)
    ensures forall k :: k in l' ==> JoinedFrom(l'[k], l, t, k)
    ensures AllConsistent(l')
  {
    var j := Joined(l, t);
    forall k ensures k in j <==> k in l.Keys + TableKeys(t) {
      JoinedMember(l, t, k);
    }
    assert j.Keys == l.Keys + TableKeys(t);
    var l' := RetotalAll(j);
    forall k | k in l' ensures JoinedFrom(l'[k], l, t, k) {
      JoinedRecord(l, t, k);
      RetotalKeeps(j[k]);
    }
    l'
  }

  lemma RetotalKeeps(r: Record)
    ensures var r' := Retotal(r);
      && r'.meetings == r.meetings && r'.drills == r.drills && r'.training == r.training
      && r'.miscActivity == r.miscActivity && r'.disability == r.disability && r'.srTotal == r.srTotal
      && r'.tourOfDuty == r.tourOfDuty && r'.callsRespondedTo == r.callsRespondedTo
      && r'.positionHeld == r.positionHeld
  {
    var r' := Retotal(r);
    assert Get(r', Meetings) == Get(r, Meetings);
    assert Get(r', Drills) == Get(r, Drills);
    assert Get(r', Training) == Get(r, Training);
    assert Get(r', MiscActivity) == Get(r, MiscActivity);
    assert Get(r', Disability) == Get(r, Disability);
    assert Get(r', SrTotal) == Get(r, SrTotal);
    assert Get(r', TourOfDuty) == Get(r, TourOfDuty);
    assert Get(r', CallsRespondedTo) == Get(r, CallsRespondedTo);
    assert Get(r', PositionHeld) == Get(r, PositionHeld);
  }

  /** The reports whose summary cells reach the merge. */
  function Summaries(dir: seq<Workbook>, cancelAfter: Option<nat>): seq<Workbook> {
    SummaryReports(Reports(dir), cancelAfter)
  }

  /** The concatenated itemised rows, keyed by member. */
  function Activities(dir: seq<Workbook>, cancelAfter: Option<nat>): seq<KeyedActivity> {
    KeyedActivities(ItemisedReports(Reports(dir), cancelAfter))
  }

  /** The six tables the import merges. */
  function CategoryTables(acts: seq<KeyedActivity>, summaries: seq<Workbook>): Tables
    requires ReadableNames(summaries) && DistinctNames(summaries)
  {
    Tables(
      BucketTable(acts, MeetingsLabel, RowCount),
      BucketTable(acts, DrillsLabel, PointsSum),
      BucketTable(acts, TrainingLabel, HoursSum),
      BucketTable(acts, MiscLabel, PointsSum),
      DisabilityTable(acts),
      SummaryTable(summaries))
  }

  /** Member `k`'s record `r` after a self-report import over `acts`: one
      point per Meetings row, summed Drills and Misc. Activity points, summed
      Training hours, Disability points clipped at 5, and the categories the
      import does not touch carried over from `l`. */
  predicate Scored(r: Record, l: Ledger, acts: seq<KeyedActivity>, k: string) {
    && r.meetings == Tally(acts, MeetingsLabel, RowCount, k)
    && r.drills == Tally(acts, DrillsLabel, PointsSum, k)
    && r.training == Tally(acts, TrainingLabel, HoursSum, k)
    && r.miscActivity == Tally(acts, MiscLabel, PointsSum, k)
    && r.disability == DisabilityPoints(Tally(acts, DisabilityLabel, PointsSum, k))
    && r.tourOfDuty == Prior(l, k).tourOfDuty
    && r.callsRespondedTo == Prior(l, k).callsRespondedTo
    && r.positionHeld == Prior(l, k).positionHeld
  }

  /** The whole import over the files of a directory, the user cancelling
      after the file at index `cancelAfter` (if any). Without itemised rows
      nothing happens; a name that cannot be put in "Last, First" form
      abandons the import; otherwise the members of the reports join the
      ledger, each activity category is the member's tally (0 without rows),
      SR_Total is the member's self-reported points (0 without a report),
      Tour of Duty, Calls Responded To and Position Held are carried over,
      and Total is recomputed. */
  function Import(l: Ledger, dir: seq<Workbook>, cancelAfter: Option<nat>): (r: Result<Ledger, ImportError>)
    requires DistinctNames(Summaries(dir, cancelAfter))
    ensures |Activities(dir, cancelAfter)| == 0 ==> r == Success(l)
    ensures r.Failure? <==> |Activities(dir, cancelAfter)| > 0 && !ReadableNames(Summaries(dir, cancelAfter))
    ensures r.Failure? ==> r.error == UnreadableMemberName
    ensures r.Success? && |Activities(dir, cancelAfter)| > 0 ==>
      && r.value.Keys == l.Keys + ReportKeys(Summaries(dir, cancelAfter))
      && (forall k :: k in r.value ==> Scored(r.value[k], l, Activities(dir, cancelAfter), k))
      && (forall k :: k in r.value ==> r.value[k].srTotal == Lookup(SummaryTable(Summaries(dir, cancelAfter)), k))
      && AllConsistent(r.value)
  {
    var summaries := Summaries(dir, cancelAfter);
    var acts := Activities(dir, cancelAfter);
    if |acts| == 0 then Success(l)
    else if !ReadableNames(summaries) then Failure(UnreadableMemberName)
    else
      ActivityKeysReported(dir, cancelAfter);
      MergedImport(l, acts, summaries);
      Success(Merge(l, CategoryTables(acts, summaries)))
  }

  /** The success path of the import, for given rows and summaries. */
  lemma MergedImport(l: Ledger, acts: seq<KeyedActivity>, summaries: seq<Workbook>)
    requires ReadableNames(summaries) && DistinctNames(summaries)
    requires forall bucket :: BucketKeys(acts, bucket) <= ReportKeys(summaries)
    ensures var l' := Merge(l, CategoryTables(acts, summaries));
      && l'.Keys == l.Keys + ReportKeys(summaries)
      && (forall k :: k in l' ==> Scored(l'[k], l, acts, k))
      && (forall k :: k in l' ==> l'[k].srTotal == Lookup(SummaryTable(summaries), k))
      && AllConsistent(l')
  {
    MergedKeys(acts, summaries);
    var l' := Merge(l, CategoryTables(acts, summaries));
    forall k | k in l' ensures Scored(l'[k], l, acts, k) {
      ScoredAt(acts, summaries, k);
    }
  }

  lemma MergedKeys(acts: seq<KeyedActivity>, summaries: seq<Workbook>)
    requires ReadableNames(summaries) && DistinctNames(summaries)
    requires forall bucket :: BucketKeys(acts, bucket) <= ReportKeys(summaries)
    ensures TableKeys(CategoryTables(acts, summaries)) == ReportKeys(summaries)
  {
    assert BucketKeys(acts, MeetingsLabel) <= ReportKeys(summaries);
    assert BucketKeys(acts, DrillsLabel) <= ReportKeys(summaries);
    assert BucketKeys(acts, TrainingLabel) <= ReportKeys(summaries);
    assert BucketKeys(acts, MiscLabel) <= ReportKeys(summaries);
    assert BucketKeys(acts, DisabilityLabel) <= ReportKeys(summaries);
  }

  /** Every member with itemised rows has a summary report. */
  lemma ActivityKeysReported(dir: seq<Workbook>, cancelAfter: Option<nat>)
    ensures forall bucket :: BucketKeys(Activities(dir, cancelAfter), bucket) <= ReportKeys(Summaries(dir, cancelAfter))
  {
    var reports := Reports(dir);
    var itemised := ItemisedReports(reports, cancelAfter);
    var summaries := Summaries(dir, cancelAfter);
    var acts := Activities(dir, cancelAfter);
    forall bucket, k | k in BucketKeys(acts, bucket) ensures k in ReportKeys(summaries) {
      var i :| 0 <= i < |acts| && InBucket(acts[i], bucket) && acts[i].key.value == k;
      assert k in ReportKeys(itemised);
      var j :| 0 <= j < |itemised| && ReportKey(itemised[j]).Some? && ReportKey(itemised[j]).value == k;
      assert summaries[j] == itemised[j];
    }
  }

  /** A merged category is the member's tally, 0 included. */
  lemma ScoredAt(acts: seq<KeyedActivity>, summaries: seq<Workbook>, k: string)
    requires ReadableNames(summaries) && DistinctNames(summaries)
    ensures var t := CategoryTables(acts, summaries);
      && Lookup(t.meetings, k) == Tally(acts, MeetingsLabel, RowCount, k)
      && Lookup(t.drills, k) == Tally(acts, DrillsLabel, PointsSum, k)
      && Lookup(t.training, k) == Tally(acts, TrainingLabel, HoursSum, k)
      && Lookup(t.misc, k) == Tally(acts, MiscLabel, PointsSum, k)
      && Lookup(t.disability, k) == DisabilityPoints(Tally(acts, DisabilityLabel, PointsSum, k))
  {
    LookupTally(acts, MeetingsLabel, RowCount, k);
    LookupTally(acts, DrillsLabel, PointsSum, k);
    LookupTally(acts, TrainingLabel, HoursSum, k);
    LookupTally(acts, MiscLabel, PointsSum, k);
    LookupTally(acts, DisabilityLabel, PointsSum, k);
  }

  lemma LookupTally(acts: seq<KeyedActivity>, bucket: string, m: Measure, k: string)
    ensures Lookup(BucketTable(acts, bucket, m), k) == Tally(acts, bucket, m, k)
  {
    if k !in BucketKeys(acts, bucket) {
      TallyAbsent(acts, bucket, m, k);
    }
  }

  /** One report's own tally: the measure over its rows labelled `bucket`. */
  function RowTally(rows: seq<ActivityRow>, bucket: string, m: Measure): real {
    if |rows| == 0 then 0.0
    else
      var last := rows[|rows| - 1];
      RowTally(rows[..|rows| - 1], bucket, m) + (if last.activity == Some(bucket) then Amount(last, m) else 0.0)
  }

  /** One more row adds its amount when it carries the bucket's label. */
  lemma RowTallySnoc(rows: seq<ActivityRow>, row: ActivityRow, bucket: string, m: Measure)
    ensures RowTally(rows + [row], bucket, m)
      == RowTally(rows, bucket, m) + (if row.activity == Some(bucket) then Amount(row, m) else 0.0)
  {
  }

  lemma {:induction false} TallyAppend(a: seq<KeyedActivity>, b: seq<KeyedActivity>, bucket: string, m: Measure, key: string)
    ensures Tally(a + b, bucket, m, key) == Tally(a, bucket, m, key) + Tally(b, bucket, m, key)
    decreases |b|
  {
    if |b| == 0 {
      assert a + b == a;
    } else {
      var n := |b| - 1;
      assert (a + b)[..|a + b| - 1] == a + b[..n];
      TallyAppend(a, b[..n], bucket, m, key);
    }
  }

  lemma {:induction false} TallyTag(k: Option<string>, rows: seq<ActivityRow>, bucket: string, m: Measure, key: string)
    ensures Tally(Tag(k, rows), bucket, m, key) == if k == Some(key) then RowTally(rows, bucket, m) else 0.0
  {
    if |rows| > 0 {
      var n := |rows| - 1;
      assert Tag(k, rows)[..n] == Tag(k, rows[..n]);
      TallyTag(k, rows[..n], bucket, m, key);
    }
  }

  /** With distinct names, a member's tally over all the concatenated rows is
      the tally of the member's own report. */
  lemma {:induction false} TallyOwnReport(reports: seq<Workbook>, i: nat, bucket: string, m: Measure)
    requires DistinctNames(reports) && i < |reports| && ReportKey(reports[i]).Some?
    ensures Tally(KeyedActivities(reports), bucket, m, ReportKey(reports[i]).value)
      == RowTally(reports[i].activities, bucket, m)
  {
    var n := |reports| - 1;
    var init := reports[..n];
    var last := reports[n];
    var key := ReportKey(reports[i]).value;
    assert DistinctNames(init) by {
      forall a, b | 0 <= a < b < |init| && ReportKey(init[a]).Some?
        ensures ReportKey(init[a]) != ReportKey(init[b])
      {
        assert init[a] == reports[a] && init[b] == reports[b];
      }
    }
    TallyAppend(KeyedActivities(init), Tag(ReportKey(last), last.activities), bucket, m, key);
    TallyTag(ReportKey(last), last.activities, bucket, m, key);
    if i == n {
      forall j | 0 <= j < |init| && ReportKey(init[j]).Some?
        ensures ReportKey(init[j]).value != key
      {
        assert init[j] == reports[j];
      }
      assert key !in BucketKeys(KeyedActivities(init), bucket);
      TallyAbsent(KeyedActivities(init), bucket, m, key);
    } else {
      assert ReportKey(last) != ReportKey(reports[i]);
      assert init[i] == reports[i];
      TallyOwnReport(init, i, bucket, m);
    }
  }

  /** The tallies of the first `n` reports, for the member of report `i`:
      its own rows when the report is among them, nothing otherwise. */
  lemma PrefixTally(reports: seq<Workbook>, n: nat, i: nat, bucket: string, m: Measure)
    requires DistinctNames(reports) && n <= |reports| && i < |reports| && ReportKey(reports[i]).Some?
    ensures Tally(KeyedActivities(reports[..n]), bucket, m, ReportKey(reports[i]).value)
      == if i < n then RowTally(reports[i].activities, bucket, m) else 0.0
  {
    var prefix := reports[..n];
    var key := ReportKey(reports[i]).value;
    assert DistinctNames(prefix) by {
      forall a, b | 0 <= a < b < |prefix| && ReportKey(prefix[a]).Some?
        ensures ReportKey(prefix[a]) != ReportKey(prefix[b])
      {
        assert prefix[a] == reports[a] && prefix[b] == reports[b];
      }
    }
    if i < n {
      assert prefix[i] == reports[i];
      TallyOwnReport(prefix, i, bucket, m);
    } else {
      forall j | 0 <= j < |prefix| && ReportKey(prefix[j]).Some?
        ensures ReportKey(prefix[j]).value != key
      {
        assert prefix[j] == reports[j];
      }
      assert key !in BucketKeys(KeyedActivities(prefix), bucket);
      TallyAbsent(KeyedActivities(prefix), bucket, m, key);
    }
  }

  /** How many of the summary reports also had their itemised rows read:
      all of them, or all but the one the user cancelled after. */
  function ItemisedCount(dir: seq<Workbook>, cancelAfter: Option<nat>): (n: nat)
    ensures n <= |Summaries(dir, cancelAfter)| <= n + 1
    ensures ItemisedReports(Reports(dir), cancelAfter) == Summaries(dir, cancelAfter)[..n]
  {
    var reports := Reports(dir);
    if cancelAfter.Some? && cancelAfter.value < |reports| then
      assert reports[..cancelAfter.value + 1][..cancelAfter.value] == reports[..cancelAfter.value];
      cancelAfter.value
    else
      assert reports[..|reports|] == reports;
      |reports|
  }

  /** Each member with a report is scored from that report alone: the
      categories are the tallies of its own itemised rows (nothing when the
      user cancelled right after reading its summary cells), and SR_Total is
      its own self-reported points. */
  lemma MemberScoresOwnReport(l: Ledger, dir: seq<Workbook>, cancelAfter: Option<nat>, i: nat)
    requires DistinctNames(Summaries(dir, cancelAfter))
    requires Import(l, dir, cancelAfter).Success? && |Activities(dir, cancelAfter)| > 0
    requires i < |Summaries(dir, cancelAfter)|
    ensures ReportKey(Summaries(dir, cancelAfter)[i]).Some?
    ensures var w := Summaries(dir, cancelAfter)[i];
      var r := Import(l, dir, cancelAfter).value[ReportKey(w).value];
      var read := i < ItemisedCount(dir, cancelAfter);
      && r.meetings == (if read then RowTally(w.activities, MeetingsLabel, RowCount) else 0.0)
      && r.drills == (if read then RowTally(w.activities, DrillsLabel, PointsSum) else 0.0)
      && r.training == (if read then RowTally(w.activities, TrainingLabel, HoursSum) else 0.0)
      && r.miscActivity == (if read then RowTally(w.activities, MiscLabel, PointsSum) else 0.0)
      && r.disability == DisabilityPoints(if read then RowTally(w.activities, DisabilityLabel, PointsSum) else 0.0)
      && r.srTotal == SelfReportedPoints(w.signupHours, w.calls)
  {
    var summaries := Summaries(dir, cancelAfter);
    var n := ItemisedCount(dir, cancelAfter);
    var w := summaries[i];
    var key := ReportKey(w).value;
    var r := Import(l, dir, cancelAfter).value;
    assert key in ReportKeys(summaries);
    assert Scored(r[key], l, Activities(dir, cancelAfter), key);
    PrefixTally(summaries, n, i, MeetingsLabel, RowCount);
    PrefixTally(summaries, n, i, DrillsLabel, PointsSum);
    PrefixTally(summaries, n, i, TrainingLabel, HoursSum);
    PrefixTally(summaries, n, i, MiscLabel, PointsSum);
    PrefixTally(summaries, n, i, DisabilityLabel, PointsSum);
  }

  /** A directory holding one member report with itemised rows: the member
      joins the ledger, each category is the tally of the report's rows,
      SR_Total is the report's self-reported points, and the columns the
      import does not touch are carried over. */
  lemma ImportSingleReport(l: Ledger, w: Workbook)
    requires IsMemberReport(w.fileName) && ReportKey(w).Some? && |w.activities| > 0
    ensures DistinctNames(Summaries([w], None))
    ensures Import(l, [w], None).Success?
    ensures var r := Import(l, [w], None).value;
      var key := ReportKey(w).value;
      && r.Keys == l.Keys + {key}
      && r[key].meetings == RowTally(w.activities, MeetingsLabel, RowCount)
      && r[key].drills == RowTally(w.activities, DrillsLabel, PointsSum)
      && r[key].training == RowTally(w.activities, TrainingLabel, HoursSum)
      && r[key].miscActivity == RowTally(w.activities, MiscLabel, PointsSum)
      && r[key].disability == DisabilityPoints(RowTally(w.activities, DisabilityLabel, PointsSum))
      && r[key].tourOfDuty == Prior(l, key).tourOfDuty
      && r[key].callsRespondedTo == Prior(l, key).callsRespondedTo
      && r[key].positionHeld == Prior(l, key).positionHeld
      && r[key].srTotal == SelfReportedPoints(w.signupHours, w.calls)
      && Consistent(r[key])
  {
    SingleReportRead(w);
    var key := ReportKey(w).value;
    var acts := Activities([w], None);
    var r := Import(l, [w], None).value;
    assert Scored(r[key], l, acts, key);
    TallyTag(Some(key), w.activities, MeetingsLabel, RowCount, key);
    TallyTag(Some(key), w.activities, DrillsLabel, PointsSum, key);
    TallyTag(Some(key), w.activities, TrainingLabel, HoursSum, key);
    TallyTag(Some(key), w.activities, MiscLabel, PointsSum, key);
    TallyTag(Some(key), w.activities, DisabilityLabel, PointsSum, key);
  }

  /** What the import reads from a directory of one member report. */
  lemma SingleReportRead(w: Workbook)
    requires IsMemberReport(w.fileName) && ReportKey(w).Some?
    ensures Summaries([w], None) == [w]
    ensures Activities([w], None) == Tag(ReportKey(w), w.activities)
    ensures ReportKeys([w]) == {ReportKey(w).value}
    ensures ReadableNames([w]) && DistinctNames([w])
    ensures SummaryTable([w])[ReportKey(w).value] == SelfReportedPoints(w.signupHours, w.calls)
  {
    ReportsSingle(w);
    KeyedActivitiesSingle(w);
  }

  /** Merging the same tables twice is merging them once. */
  lemma MergeIdempotent(l: Ledger, t: Tables)
    ensures Merge(Merge(l, t), t) == Merge(l, t)
  {
    var once := Merge(l, t);
    var twice := Merge(once, t);
    assert twice.Keys == once.Keys;
    forall k | k in twice
      ensures twice[k] == once[k]
    {
      SameMemberAfterRemerge(l, t, k);
    }
    SameLedger(twice, once);
  }

  lemma SameMemberAfterRemerge(l: Ledger, t: Tables, k: string)
    requires k in Merge(l, t)
    ensures k in Merge(Merge(l, t), t) && Merge(Merge(l, t), t)[k] == Merge(l, t)[k]
  {
    var once := Merge(l, t);
    var twice := Merge(once, t);
    var a := once[k];
    var b := twice[k];
    assert JoinedFrom(a, l, t, k) && JoinedFrom(b, once, t, k);
    assert Get(b, Meetings) == Get(a, Meetings);
    assert Get(b, Drills) == Get(a, Drills);
    assert Get(b, Training) == Get(a, Training);
    assert Get(b, MiscActivity) == Get(a, MiscActivity);
    assert Get(b, Disability) == Get(a, Disability);
    assert Get(b, SrTotal) == Get(a, SrTotal);
    assert Get(b, TourOfDuty) == Get(a, TourOfDuty);
    assert Get(b, CallsRespondedTo) == Get(a, CallsRespondedTo);
    assert Get(b, PositionHeld) == Get(a, PositionHeld);
    ConsistentExt(b, a);
  }

  /** Re-importing the same directory with the same cancellation changes
      nothing. */
  lemma ImportIdempotent(l: Ledger, dir: seq<Workbook>, cancelAfter: Option<nat>)
    requires DistinctNames(Summaries(dir, cancelAfter))
    ensures Import(l, dir, cancelAfter).Success? ==>
      Import(Import(l, dir, cancelAfter).value, dir, cancelAfter) == Import(l, dir, cancelAfter)
  {
    var acts := Activities(dir, cancelAfter);
    var summaries := Summaries(dir, cancelAfter);
    if |acts| > 0 && ReadableNames(summaries) {
      var t := CategoryTables(acts, summaries);
      assert Import(l, dir, cancelAfter) == Success(Merge(l, t));
      assert Import(Merge(l, t), dir, cancelAfter) == Success(Merge(Merge(l, t), t));
      MergeIdempotent(l, t);
    }
  }
}
