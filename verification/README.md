# LOSAP points engine — a Dafny model

The LOSAP points calculator keeps a ledger of volunteer members. Each member has
points in eight service categories (Training, Drills, Meetings, Tour of Duty,
Misc. Activity, Calls Responded To, Position Held, Disability), a Total, and a
self-reported total (SR_Total). The user fills the ledger from three
data sources:

- the duty-roster (attendance) export, which gives Tour of Duty;
- the electronic patient-care response log, which gives Calls Responded To;
- a directory of per-member self-report workbooks, which gives Meetings,
  Drills, Training, Misc. Activity, Disability and SR_Total.

This project models the pure data steps of that engine in `losapv13.py`:

- name canonicalisation;
- per-category scoring of grouped rows;
- the join each import uses to update the ledger;
- the Total recomputation;
- the sorted exposure of the ledger.

It proves what these promise. Spreadsheet reads become row datatypes.
`Option` stands for a pandas NaN or an empty cell. The ledger is a
`map<string, Record>` keyed by member name in "Last, First" form.

Modules, one per file:

- `Wrappers`: `Option` and `Result`.
- `Strings`: Python's `rstrip`, `find`, `rsplit(" ", 1)` and `str.replace`, and
  the code-point string order `sort_values` uses.
- `Names`: `swap_name_order`, the response-log name rewrite, the attendance
  key and the "Smith, Jon" correction.
- `Rounding`: numpy's round-half-to-even to a number of decimals, over exact
  reals.
- `Scoring`: the per-category point formulas.
- `Grouping`: `groupby(...).sum()`, `groupby(...).size()` and NaN-key dropping.
- `Ledger`: the column schema, the record, Total, the left and outer joins, and
  the sorted exposure (a method with loop invariants).
- `Attendance`, `ResponseLog`, `SelfReport`: the three imports.
- `Session`: `clear_all` and a session of imports from the empty ledger.

Behaviour of the code that the model keeps, though a reader might expect otherwise:

- `swap_name_order` only right-strips the name. It keeps a name as already
  canonical only when its first comma is at an index above 0. A leading comma
  therefore sends the name to the split.
- Disability is clipped from above only (`clip(upper=5.0)`), so a negative
  sum stays negative.
- The double-space collapse is a single left-to-right pass. Three spaces
  become two (`Names.TripleSpaceLeavesDouble`).
- When the user cancels the self-report import, the summary cells of the file
  just read are already stored, but its itemised rows are not appended. That
  member gets SR_Total and nothing else from that file
  (`SelfReport.MemberScoresOwnReport`).
- The self-report import does nothing at all, SR_Total included, when the read
  files contain no itemised rows.
- An attendance roster with at least one row and no surname in any row has a
  float-typed surname column, so `df_iamr['Last name'] + ', '` raises
  TypeError. The import is abandoned and the ledger kept
  (`Attendance.SurnamesAllEmpty`).
- An import that fails to split a name is abandoned by the catch-all handler
  before the ledger is assigned. The model returns a `Failure` and the session
  keeps the ledger.

## Model

| member | source | states |
|---|---|---|
| Strings.RStrip | losapv13.py:48 | the result is a prefix of the name that ends in a non-whitespace character, and everything removed is whitespace (Python's `isspace` set) |
| Strings.Find | losapv13.py:49 | -1 exactly when the character is absent; otherwise the index of its first occurrence |
| Strings.SplitLast | losapv13.py:54 | no split exactly when the separator is absent; otherwise the string is before + separator + after, with no separator in after |
| Strings.SplitLastUnique | losapv13.py:54 | any decomposition whose tail has no separator is the one the split returns, so the split happens at the last separator |
| Strings.ReplaceAllLength | losapv13.py:436 | a left-to-right non-overlapping replace changes the length by (replacement − pattern length) per counted occurrence |
| Strings.OccurrencesZero | losapv13.py:436 | the replace counts no occurrence exactly when the pattern occurs nowhere |
| Strings.ReplaceAllUnchanged | losapv13.py:380 | with a replacement of a different length, the replace leaves the string unchanged exactly when the pattern does not occur |
| Strings.BelowTransitive | losapv13.py:402 | the name order is transitive |
| Strings.BelowTotal | losapv13.py:402 | any two distinct names are ordered one way or the other |
| Strings.BelowAsymmetric | losapv13.py:402 | no two names are ordered both ways |
| Strings.BelowIrreflexive | losapv13.py:402 | no name is below itself |
| Names.SwapNameOrder | losapv13.py:42-60 | the right-stripped name is kept when it contains a comma at an index above 0; otherwise the swap fails exactly when the stripped name has no space; every key it yields contains a comma |
| Names.SwapAtLastSpace | losapv13.py:53-55 | a name not already in "Last, First" form and split at its last space becomes last + ", " + first |
| Names.SwapFirstLast | losapv13.py:53-55 | "First Last", with no commas and a one-word surname, becomes "Last, First" |
| Names.CanonicalKeyIsFixed | losapv13.py:48-51 | a key already in "Last, First" form without trailing whitespace is left as it is |
| Names.CollapseDoubleSpacesEffect | losapv13.py:435-436 | the collapse shortens the name by one character per non-overlapping double space, and leaves it unchanged exactly when it has no double space |
| Names.TripleSpaceLeavesDouble | losapv13.py:435-436 | three spaces collapse to two, not one |
| Names.ResponseLogKey | losapv13.py:435-444 | a response-log row has a key exactly when its name is present and still contains a space after the collapse |
| Names.ResponseLogKeySplit | losapv13.py:439-444 | a collapsed name first + " " + last, with a one-word last part, has key last + ", " + first |
| Names.AttendanceKey | losapv13.py:354 | the key exists exactly when both name cells are present; it is the surname, then ", ", then the given name (length, prefix, separator and suffix) |
| Names.CorrectNameChanges | losapv13.py:380 | the correction changes a key exactly when "Smith, Jon" occurs in it |
| Names.CorrectNameExamples | losapv13.py:380 | "Smith, Jon" becomes "Smith, John"; "Smith, John" is kept; "Smith, Jonathan" becomes "Smith, Johnathan" |
| Rounding.RoundHalfEven | losapv13.py:359 | the result is within 0.5 of the value, and a tie goes to the even integer |
| Rounding.RoundHalfEvenUnique | losapv13.py:359 | those two properties determine the rounded value |
| Rounding.RoundTo | losapv13.py:367 | the result is a whole number of units of the last decimal place, within half a unit of the value |
| Rounding.RoundToWhole | losapv13.py:367 | whole numbers are unchanged by rounding to any number of decimals |
| Scoring.TourOfDutyPoints | losapv13.py:357-367 | the points are within 0.5/12 + 0.005 of hours/12 |
| Scoring.TourOfDutyWholeShifts | losapv13.py:366-367 | 12·n hours give exactly n points |
| Scoring.CallsPoints | losapv13.py:447-450 | twice the points equal the number of calls |
| Scoring.DisabilityPoints | losapv13.py:617-619 | the points are the summed points or 5, whichever is smaller, so they never exceed 5 |
| Scoring.DisabilityExamples | losapv13.py:619 | 7.5 summed points give 5; 3 give 3 |
| Scoring.SelfReportedPoints | losapv13.py:624-634 | SR_Total is within 0.0005 of signup hours/12 + calls/2, an empty cell counting 0 |
| Grouping.GroupSum | losapv13.py:357-359 | the groups are exactly the keys that occur, and each group holds the sum of its entries |
| Grouping.GroupCount | losapv13.py:447 | the groups are exactly the keys that occur, and each group holds its number of rows |
| Grouping.Dropna | losapv13.py:447 | dropping the missing keys keeps exactly the present keys, each as often as it occurs |
| Ledger.ColumnSchema | losapv13.py:136-140 | every column is in `colnames` exactly once under a distinct heading, and `colnamestoadd` is `colnames` without Total and SR_Total |
| Ledger.ConsistentMeans | losapv13.py:139-140 | a record is consistent exactly when Total is the sum of the eight categories in `colnamestoadd`, excluding SR_Total |
| Ledger.Retotal | losapv13.py:398 | the recomputed record is consistent and differs from the original in Total at most |
| Ledger.SumIgnoresTotal | losapv13.py:139-140 | the category sum does not depend on Total, so recomputing Total is stable |
| Ledger.RetotalAll | losapv13.py:473 | the same members, every record consistent, nothing but Total changed |
| Ledger.Cleared | losapv13.py:258-259 | the cleared ledger has no members |
| Ledger.LeftJoinColumn | losapv13.py:389-392 | the members become exactly the new table's; the column takes the new values; the other columns are carried over, 0 for members the ledger lacked |
| Ledger.OuterJoinColumn | losapv13.py:453-458 | the members become the union; the column takes the new value, or 0 for members the table lacks; the other columns are carried over, 0 for new members |
| Ledger.OuterJoinAt | losapv13.py:458 | for any name, listed or not, the joined record is the prior record with the column replaced |
| Ledger.Insert | losapv13.py:402 | inserting a new name into a sorted exposure keeps it sorted and adds exactly that row |
| Ledger.Expose | losapv13.py:401-403 | the exposed rows are strictly sorted by name, one per member, each showing that member's record |
| Attendance.Entries | losapv13.py:354-359 | the grouping input has exactly the keyed rows' keys, and each key's hours equal the reference sum of its rows (empty cells 0) |
| Attendance.RawTourOfDuty | losapv13.py:357-367 | one entry per key, holding the Tour of Duty points of its summed hours |
| Attendance.CorrectTable | losapv13.py:380 | the corrected table has the corrected keys, and each value moves to its corrected key |
| Attendance.TourOfDutyTable | losapv13.py:354-380 | after the correction, each member's entry holds the Tour of Duty points of the hours summed under its uncorrected key |
| Attendance.Merged | losapv13.py:389-403 | the ledger holds exactly the imported members; Tour of Duty takes the new value; the other categories are carried over (0 for new members); Total is consistent |
| Attendance.Import | losapv13.py:354-413 | the import is abandoned (ledger kept) exactly when the roster has rows and none has a surname; otherwise the members are the imported ones, each member's Tour of Duty is its entry in the corrected Tour of Duty table, the other categories are carried over, and Total is consistent |
| Attendance.ImportIdempotent | losapv13.py:389-403 | importing the same roster twice gives the same ledger as importing it once |
| Attendance.MergedIntoEmpty | losapv13.py:389-398 | after a merge into the empty ledger, each member's Total is its Tour of Duty |
| Attendance.ImportExample | losapv13.py:354-398 | rows of 24 and 12 hours for Jane Doe give key "Doe, Jane", 3 Tour of Duty points, Total 3 and every other category 0 |
| ResponseLog.LogKeysMeans | losapv13.py:435-444 | a member key comes from the log exactly when some row's name yields it through the collapse and the split |
| ResponseLog.LogKeysEmpty | losapv13.py:435-441 | the log yields no key (and the import is abandoned) exactly when no present name keeps a space after the double-space collapse |
| ResponseLog.CallsTable | losapv13.py:447-450 | one entry per member key of the log, holding half that member's row count |
| ResponseLog.Merged | losapv13.py:453-473 | the members become the union, every member's Calls Responded To is half its row count (0 without rows), the other categories are carried over, and Total is consistent |
| ResponseLog.Import | losapv13.py:439-473 | the import is abandoned exactly when no row yields a key; otherwise the members become the union, every member's Calls Responded To is half its row count (0 without rows), the other categories are carried over, and Total is consistent |
| ResponseLog.ImportIdempotent | losapv13.py:453-473 | a successful import repeated gives the same ledger |
| SelfReport.Reports | losapv13.py:513-514 | a file is read exactly when it ends in ".xlsx" and does not start with "~" |
| SelfReport.ReportsSingle | losapv13.py:513-514 | a lone file is kept exactly when it is a member report |
| SelfReport.ReportsAppend | losapv13.py:513-514 | the reports of two runs of files are each run's reports, in directory order |
| SelfReport.KeyedActivities | losapv13.py:528-542 | every keyed row carries the key of a report that was read |
| SelfReport.KeyedActivitiesSingle | losapv13.py:528-542 | one report's rows are its itemised rows, in order, each tagged with that report's key |
| SelfReport.KeyedActivitiesAppend | losapv13.py:528-542 | the rows of two runs of reports are each run's rows, in report order |
| SelfReport.TallyAbsent | losapv13.py:679 | a member with no row in a bucket tallies 0 |
| SelfReport.BucketEntries | losapv13.py:565-580 | the bucket's grouping input has exactly the members with a row of that exact label, and each member's sum equals the reference tally |
| SelfReport.BucketTable | losapv13.py:586-612 | one entry per member with rows in the bucket, holding the member's count, hour sum (empty cells 1) or point sum (empty cells skipped) |
| SelfReport.DisabilityTable | losapv13.py:614-619 | one entry per member with Disability rows, holding the clipped sum, never above 5 |
| SelfReport.SummaryTable | losapv13.py:624-634 | one entry per report's member, holding the self-reported points of that report's own summary cells |
| SelfReport.JoinedMember | losapv13.py:637-672 | after the six joins, a name is a member exactly when the ledger or one of the six tables lists it |
| SelfReport.JoinedRecord | losapv13.py:637-672 | after the six joins, each replaced category holds its table's value (0 if unlisted); Tour of Duty, Calls Responded To and Position Held are the prior values |
| SelfReport.Merge | losapv13.py:637-682 | the members become the union of ledger and tables; every record is as the joins leave it, with Total consistent |
| SelfReport.MergeIdempotent | losapv13.py:637-682 | merging the same tables twice is merging them once |
| SelfReport.Import | losapv13.py:545-682 | no itemised rows means no change; otherwise the import fails exactly when a read report's name cannot be swapped; on success the members become ledger ∪ reports, each category is the member's tally, Disability is clipped, SR_Total comes from the member's report, the untouched categories are carried over, and Total is consistent |
| SelfReport.TallyTag | losapv13.py:531-542 | rows tagged with one member key tally, for that key, exactly as the untagged rows do, and to 0 for any other key |
| SelfReport.TallyOwnReport | losapv13.py:542 | with distinct names, a member's tally over all concatenated rows equals the tally of the member's own report |
| SelfReport.ItemisedCount | losapv13.py:536-542 | the reports whose rows are appended are the reports whose summary cells are read, minus at most the last one |
| SelfReport.MemberScoresOwnReport | losapv13.py:531-542 | each report's member is scored from that report alone, with SR_Total from its summary cells; if the user cancelled right after that report, its categories are 0 |
| SelfReport.SingleReportRead | losapv13.py:513-542 | a directory of one member report yields that report as the summaries and its rows, tagged with its key, as the itemised rows |
| SelfReport.ImportSingleReport | losapv13.py:513-682 | importing one member report with itemised rows succeeds; the member joins the ledger, each category is the tally of the report's rows, SR_Total is its self-reported points, and Tour of Duty, Calls and Position Held are carried over |
| SelfReport.ImportIdempotent | losapv13.py:545-682 | a successful import repeated on the same directory and cancellation gives the same ledger |
| Session.Apply | losapv13.py:336-690 | every action keeps the ledger sound: Totals consistent, Position Held 0 (no import fills it), Disability at most 5; clearing empties the ledger; a successful import's ledger becomes the ledger; an abandoned import (attendance, response log or self-report) leaves it unchanged |
| Session.Replay | losapv13.py:141-142 | every ledger reachable from the empty ledger by clears and imports is sound |
| Session.MeetingsOnto | losapv13.py:545-682 | a report tallying to 3 Meetings and nothing else, imported onto a ledger whose member has only Tour of Duty, gives 3 Meetings and raises Total by 3, leaving the other categories 0 |
| Session.EndToEndExample | losapv13.py:354-682 | roster rows of 24 and 12 hours for Jane Doe, then the member's self-report of three Meetings rows, give "Doe, Jane" alone with Meetings 3, Tour of Duty 3, Total 6 and every other category 0 |

## Left out

- The PyQt user interface: the table model, the windows, the menus, the progress dialog and the status bar. User cancellation of the self-report import is the `cancelAfter` parameter instead.
- The device-binding agreement gate (lines 168-190). It depends on the environment and the hardware.
- The settings dialog (lines 262-322). Its row windows and cell positions are taken as already applied to the input rows.
- Spreadsheet and CSV reading: `read_excel` and its `skiprows`/`nrows` window, `read_csv`, `load_workbook`, the header renames at lines 555-557 and the dropped columns. The model starts from the rows these produce, as datatypes.
- Export to xlsx and its styling (lines 692-736): file output and formatting.
- Binary floating point. Values are exact reals. numpy's rounding of the binary double is modelled as round-half-to-even of the exact value.
- Scoring.TourOfDutyPoints: stated as a bound around hours/12 rather than as an exact value, because the exact value depends on the rounding of the binary double.
- Scoring.SelfReportedPoints: stated as a bound around hours/12 + calls/2, for the same reason.
- The catch-all exception handlers' partial states. An import that raises is modelled as abandoned before the ledger is assigned. This matches the code for the three failures the model covers: the attendance TypeError on an all-empty surname column, the response-log KeyError when no name splits, and the self-report IndexError on an unsplittable name.
- Name cells that are not strings (numbers, dates), and non-numeric hour or point cells. The one dtype case modelled is a roster whose surname cells are all empty.
- Duplicate member keys in a merge. The "Smith, Jon" correction could map two roster keys to one (`Attendance.CorrectionKeepsKeysApart`). Two self-report files could name one member (`SelfReport.DistinctNames`). Both are preconditions, because pandas would duplicate the member's row.
- The `__demo__` truncation to 15 rows (a constant that is off).
- The 20-point Tour of Duty and 25-point Calls caps. The code mentions them but does not apply them.
- The sort of the ledger inside each import. A map has no order; the order is produced when the ledger is exposed (`Ledger.Expose`).
