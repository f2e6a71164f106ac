/** The points ledger (`self.df` in losapv13.py): one record per member key,
    the fixed column schema, the two join shapes the imports use, the Total
    recomputation and the sorted exposure. */
module Ledger {
  import opened Strings

  /** The value columns of the ledger (`colnames` after "Member Name"). */
  datatype Column =
    | Training | Drills | Meetings | TourOfDuty | MiscActivity
    | CallsRespondedTo | PositionHeld | Disability | Total | SrTotal

  /** Exposed column order, after the member name. */
  const ValueColumns: seq<Column> :=
    [Training, Drills, Meetings, TourOfDuty, MiscActivity,
     CallsRespondedTo, PositionHeld, Disability, Total, SrTotal]

  /** `colnamestoadd`: the eight categories Total sums; SR_Total is not one. */
  const AddedColumns: seq<Column> :=
    [Training, Drills, Meetings, TourOfDuty, MiscActivity,
     CallsRespondedTo, PositionHeld, Disability]

  /** The column heading in the exported table. */
  function Header(c: Column): string {
    match c
    case Training => "Training"
    case Drills => "Drills"
    case Meetings => "Meetings"
    case TourOfDuty => "Tour of Duty"
    case MiscActivity => "Misc. Activity"
    case CallsRespondedTo => "Calls Responded To"
    case PositionHeld => "Position Held"
    case Disability => "Disability"
    case Total => "Total"
    case SrTotal => "SR_Total"
  }

  /** The schema: every column is exposed once under its own heading, and
      Total sums every value column except itself and SR_Total. */
  lemma ColumnSchema()
    ensures forall c: Column :: c in ValueColumns
    ensures forall i, j :: 0 <= i < j < |ValueColumns| ==> ValueColumns[i] != ValueColumns[j]
    ensures forall c :: c in AddedColumns <==> c in ValueColumns && c != Total && c != SrTotal
    ensures forall a, b :: Header(a) == Header(b) ==> a == b
  {
    forall c: Column ensures c in ValueColumns {
      var i := match c
        case Training => 0 case Drills => 1 case Meetings => 2 case TourOfDuty => 3
        case MiscActivity => 4 case CallsRespondedTo => 5 case PositionHeld => 6
        case Disability => 7 case Total => 8 case SrTotal => 9;
      assert ValueColumns[i] == c;
    }
  }

  /** One member's row. Every value is present: the imports fill missing
      values with 0 before the ledger is exposed. */
  datatype Record = Record(
    training: real, drills: real, meetings: real, tourOfDuty: real,
    miscActivity: real, callsRespondedTo: real, positionHeld: real,
    disability: real, total: real, srTotal: real)

  /** The record a join gives a member it has not seen before. */
  const Blank := Record(0.0, 0.0, 0.0, 0.0, 0.0, 0.0, 0.0, 0.0, 0.0, 0.0)

  function Get(r: Record, c: Column): real {
    match c
    case Training => r.training
    case Drills => r.drills
    case Meetings => r.meetings
    case TourOfDuty => r.tourOfDuty
    case MiscActivity => r.miscActivity
    case CallsRespondedTo => r.callsRespondedTo
    case PositionHeld => r.positionHeld
    case Disability => r.disability
    case Total => r.total
    case SrTotal => r.srTotal
  }

  /** The record with column `c` replaced by `v` and nothing else changed. */
  function With(r: Record, c: Column, v: real): (r': Record)
    ensures Get(r', c) == v
    ensures forall d :: d != c ==> Get(r', d) == Get(r, d)
  {
    match c
    case Training => r.(training := v)
    case Drills => r.(drills := v)
    case Meetings => r.(meetings := v)
    case TourOfDuty => r.(tourOfDuty := v)
    case MiscActivity => r.(miscActivity := v)
    case CallsRespondedTo => r.(callsRespondedTo := v)
    case PositionHeld => r.(positionHeld := v)
    case Disability => r.(disability := v)
    case Total => r.(total := v)
    case SrTotal => r.(srTotal := v)
  }

  /** `df[cols].sum(axis=1)` for one row. */
  function SumColumns(r: Record, cols: seq<Column>): real {
    if |cols| == 0 then 0.0 else Get(r, cols[0]) + SumColumns(r, cols[1..])
  }

  /** Total is the sum of the `colnamestoadd` columns. */
  predicate Consistent(r: Record) {
    r.total == SumColumns(r, AddedColumns)
  }

  /** Spelled out: Total is Training + Drills + Meetings + Tour of Duty +
      Misc. Activity + Calls Responded To + Position Held + Disability, and
      SR_Total plays no part. */
  lemma ConsistentMeans(r: Record)
    ensures Consistent(r) <==>
      r.total == r.training + r.drills + r.meetings + r.tourOfDuty
        + r.miscActivity + r.callsRespondedTo + r.positionHeld + r.disability
  {
    var c := AddedColumns;
    assert SumColumns(r, c) == r.training + SumColumns(r, c[1..]);
    assert SumColumns(r, c[1..]) == r.drills + SumColumns(r, c[2..]);
    assert SumColumns(r, c[2..]) == r.meetings + SumColumns(r, c[3..]);
    assert SumColumns(r, c[3..]) == r.tourOfDuty + SumColumns(r, c[4..]);
    assert SumColumns(r, c[4..]) == r.miscActivity + SumColumns(r, c[5..]);
    assert SumColumns(r, c[5..]) == r.callsRespondedTo + SumColumns(r, c[6..]);
    assert SumColumns(r, c[6..]) == r.positionHeld + SumColumns(r, c[7..]);
    assert SumColumns(r, c[7..]) == r.disability + SumColumns(r, c[8..]);
    assert c[8..] == [];
  }

  /** `df['Total'] = df[colnamestoadd].sum(axis=1)` for one row. */
  function Retotal(r: Record): (r': Record)
    ensures Consistent(r')
    ensures forall d :: d != Total ==> Get(r', d) == Get(r, d)
  {
    var r' := r.(total := SumColumns(r, AddedColumns));
    assert SumColumns(r', AddedColumns) == SumColumns(r, AddedColumns) by {
      SumIgnoresTotal(r, r', AddedColumns);
    }
    r'
  }

  lemma {:induction false} SumIgnoresTotal(r: Record, r': Record, cols: seq<Column>)
    requires Total !in cols
    requires forall d :: d != Total ==> Get(r', d) == Get(r, d)
    ensures SumColumns(r', cols) == SumColumns(r, cols)
  {
    if |cols| > 0 {
      SumIgnoresTotal(r, r', cols[1..]);
    }
  }

  /** Two consistent records that agree on every category are the same
      record: Total carries no information of its own. */
  lemma ConsistentExt(r1: Record, r2: Record)
    requires Consistent(r1) && Consistent(r2)
    requires forall d :: d != Total ==> Get(r1, d) == Get(r2, d)
    ensures r1 == r2
  {
    SumIgnoresTotal(r1, r2, AddedColumns);
    assert Get(r1, Training) == Get(r2, Training);
    assert Get(r1, Drills) == Get(r2, Drills);
    assert Get(r1, Meetings) == Get(r2, Meetings);
    assert Get(r1, TourOfDuty) == Get(r2, TourOfDuty);
    assert Get(r1, MiscActivity) == Get(r2, MiscActivity);
    assert Get(r1, CallsRespondedTo) == Get(r2, CallsRespondedTo);
    assert Get(r1, PositionHeld) == Get(r2, PositionHeld);
    assert Get(r1, Disability) == Get(r2, Disability);
    assert Get(r1, SrTotal) == Get(r2, SrTotal);
  }

  /** Why an import was abandoned; the ledger is then left as it was. */
  datatype ImportError =
    | UnreadableSurnames    // no attendance row has a surname: `+ ', '` on a float column raises TypeError
    | NoSurnameColumn       // no response-log name could be split: `new[1]` raises KeyError
    | UnreadableMemberName  // a self-report name could not be split: IndexError

  /** Member key to record; keys are unique by construction. */
  type Ledger = map<string, Record>

  /** Two ledgers with the same members and the same records are equal. */
  lemma SameLedger(a: Ledger, b: Ledger)
    requires a.Keys == b.Keys
    requires forall k :: k in a ==> a[k] == b[k]
    ensures a == b
  {
  }

  predicate AllConsistent(l: Ledger) {
    forall k :: k in l ==> Consistent(l[k])
  }

  /** The `clear_all` ledger: no members. */
  function Cleared(): (l: Ledger)
    ensures |l| == 0
  {
    map[]
  }

  /** Total recomputed for every member; nothing else changes. */
  function RetotalAll(l: Ledger): (l': Ledger)
    ensures l'.Keys == l.Keys
    ensures AllConsistent(l')
    ensures forall k, d :: k in l' && d != Total ==> Get(l'[k], d) == Get(l[k], d)
  {
    map k | k in l :: Retotal(l[k])
  }

  /** What a join finds for `k` on the ledger side: its record, or the
      all-zero record standing for the NaNs pandas fills with 0. */
  function Prior(l: Ledger, k: string): Record {
    if k in l then l[k] else Blank
  }

  /** `pd.merge(new, ledger, how="left")` on the member key, keeping the new
      value of `col`: the member set becomes exactly the new table's, and
      every other column is carried over (0 for members the ledger lacked). */
  function LeftJoinColumn(l: Ledger, col: Column, table: map<string, real>): (l': Ledger)
    ensures l'.Keys == table.Keys
    ensures forall k :: k in l' ==> Get(l'[k], col) == table[k]
    ensures forall k, d :: k in l' && d != col ==> Get(l'[k], d) == Get(Prior(l, k), d)
  {
    map k | k in table :: With(Prior(l, k), col, table[k])
  }

  /** Drop column `col`, then `pd.merge(ledger, table, how="outer")` and fill
      with 0: the member set becomes the union, `col` takes the new value or 0,
      and every other column is carried over (0 for new members). */
  function OuterJoinColumn(l: Ledger, col: Column, table: map<string, real>): (l': Ledger)
    ensures l'.Keys == l.Keys + table.Keys
    ensures forall k :: k in l' ==> Get(l'[k], col) == Lookup(table, k)
    ensures forall k, d :: k in l' && d != col ==> Get(l'[k], d) == Get(Prior(l, k), d)
  {
    map k | k in l.Keys + table.Keys :: With(Prior(l, k), col, Lookup(table, k))
  }

  /** Who an outer join lists. */
  lemma OuterJoinMember(l: Ledger, col: Column, table: map<string, real>, k: string)
    ensures k in OuterJoinColumn(l, col, table) <==> k in l || k in table
  {
  }

  /** What an outer join gives `k` in the replaced column: the table's value,
      or 0 (`fillna(0)`) when the table does not list `k`. */
  function Lookup(t: map<string, real>, k: string): real {
    if k in t then t[k] else 0.0
  }

  /** Any member after an outer join, whether or not it is listed: its prior
      record with the column replaced (for a member neither side lists, the
      blank record stays blank). */
  lemma OuterJoinAt(l: Ledger, col: Column, table: map<string, real>, k: string)
    ensures k in OuterJoinColumn(l, col, table) <==> k in l || k in table
    ensures Prior(OuterJoinColumn(l, col, table), k) == With(Prior(l, k), col, Lookup(table, k))
  {
    if k !in l && k !in table {
      assert With(Blank, col, 0.0) == Blank by {
        match col
        case Training =>
        case Drills =>
        case Meetings =>
        case TourOfDuty =>
        case MiscActivity =>
        case CallsRespondedTo =>
        case PositionHeld =>
        case Disability =>
        case Total =>
        case SrTotal =>
      }
    }
  }

  /** One exposed row: member name and values. */
  datatype Row = Row(name: string, record: Record)

  predicate SortedByName(rows: seq<Row>) {
    forall i, j :: 0 <= i < j < |rows| ==> Below(rows[i].name, rows[j].name)
  }

  function NamesOf(rows: seq<Row>): set<string> {
    set i | 0 <= i < |rows| :: rows[i].name
  }

  /** Every row shows the ledger's record for its name. */
  predicate Shows(rows: seq<Row>, l: Ledger) {
    forall i :: 0 <= i < |rows| ==> rows[i].name in l && l[rows[i].name] == rows[i].record
  }

  lemma NamesCons(row: Row, rows: seq<Row>)
    ensures NamesOf([row] + rows) == {row.name} + NamesOf(rows)
  {
    var rows' := [row] + rows;
    forall n | n in NamesOf(rows) ensures n in NamesOf(rows') {
      var i :| 0 <= i < |rows| && rows[i].name == n;
      assert rows'[i + 1].name == n;
    }
    forall n | n in NamesOf(rows') ensures n in {row.name} + NamesOf(rows) {
      var i :| 0 <= i < |rows'| && rows'[i].name == n;
      if i > 0 { assert rows[i - 1].name == n; }
    }
    assert rows'[0].name == row.name;
  }

  lemma ConsSorted(row: Row, rows: seq<Row>)
    requires SortedByName(rows)
    requires forall j :: 0 <= j < |rows| ==> Below(row.name, rows[j].name)
    ensures SortedByName([row] + rows)
  {
    var rows' := [row] + rows;
    forall i, j | 0 <= i < j < |rows'|
      ensures Below(rows'[i].name, rows'[j].name)
    {
      if i > 0 {
        assert rows'[i] == rows[i - 1] && rows'[j] == rows[j - 1];
      }
    }
  }

  /** Insertion into a name-sorted sequence. */
  function Insert(rows: seq<Row>, row: Row): (rows': seq<Row>)
    requires SortedByName(rows)
    requires row.name !in NamesOf(rows)
    ensures SortedByName(rows')
    ensures NamesOf(rows') == NamesOf(rows) + {row.name}
    ensures |rows'| == |rows| + 1
    ensures forall i :: 0 <= i < |rows'| ==> rows'[i] == row || rows'[i] in rows
  {
    if |rows| == 0 || Below(row.name, rows[0].name) then
      forall j | 0 <= j < |rows| ensures Below(row.name, rows[j].name) {
        if j > 0 { BelowTransitive(row.name, rows[0].name, rows[j].name); }
      }
      ConsSorted(row, rows);
      NamesCons(row, rows);
      [row] + rows
    else
      var first := rows[0];
      assert rows == [first] + rows[1..];
      NamesCons(first, rows[1..]);
      BelowTotal(row.name, first.name);
      var rest := Insert(rows[1..], row);
      forall j | 0 <= j < |rest|
        ensures Below(first.name, rest[j].name)
      {
        if rest[j] != row {
          var m :| 0 <= m < |rows[1..]| && rows[1..][m] == rest[j];
          assert rows[m + 1] == rest[j];
        }
      }
      ConsSorted(first, rest);
      NamesCons(first, rest);
      [first] + rest
  }

  /** The ledger as shown and exported: one row per member, sorted by name
      (`sort_values(by=['Member Name'])`). */
  method Expose(l: Ledger) returns (rows: seq<Row>)
    ensures SortedByName(rows)
    ensures NamesOf(rows) == l.Keys
    ensures Shows(rows, l)
    ensures |rows| == |l|
  {
    rows := [];
    var remaining := l.Keys;
    while remaining != {}
      invariant SortedByName(rows)
      invariant NamesOf(rows) + remaining == l.Keys
      invariant NamesOf(rows) !! remaining
      invariant Shows(rows, l)
      invariant |rows| + |remaining| == |l|
      decreases |remaining|
    {
      var k :| k in remaining;
      InsertShows(rows, Row(k, l[k]), l);
      rows := Insert(rows, Row(k, l[k]));
      remaining := remaining - {k};
    }
  }

  lemma InsertShows(rows: seq<Row>, row: Row, l: Ledger)
    requires SortedByName(rows) && row.name !in NamesOf(rows)
    requires Shows(rows, l) && row.name in l && l[row.name] == row.record
    ensures Shows(Insert(rows, row), l)
  {
    var rows' := Insert(rows, row);
    forall i | 0 <= i < |rows'|
      ensures rows'[i].name in l && l[rows'[i].name] == rows'[i].record
    {
      if rows'[i] != row {
        var m :| 0 <= m < |rows| && rows[m] == rows'[i];
      }
    }
  }
}
