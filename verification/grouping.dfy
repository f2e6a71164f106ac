/** The pandas `groupby(...).sum()` and `groupby(...).size()` steps: raw
    rows keyed by member, folded into one value per member. Rows whose key
    is missing never reach these functions (pandas drops NaN keys). */
module Grouping {
  import opened Wrappers

  /** One raw measurement attributed to a member key. */
  datatype Entry = Entry(key: string, amount: real)

  function KeysOf(entries: seq<Entry>): set<string> {
    set i | 0 <= i < |entries| :: entries[i].key
  }

  /** The reference sum: every amount recorded under `key`. */
  function SumFor(entries: seq<Entry>, key: string): real {
    if |entries| == 0 then 0.0
    else
      var last := entries[|entries| - 1];
      SumFor(entries[..|entries| - 1], key) + (if last.key == key then last.amount else 0.0)
  }

  lemma {:induction false} SumForAbsent(entries: seq<Entry>, key: string)
    requires key !in KeysOf(entries)
    ensures SumFor(entries, key) == 0.0
  {
    if |entries| > 0 {
      var init := entries[..|entries| - 1];
      assert KeysOf(init) <= KeysOf(entries) by {
        forall k | k in KeysOf(init) ensures k in KeysOf(entries) {
          var i :| 0 <= i < |init| && init[i].key == k;
          assert entries[i].key == k;
        }
      }
      SumForAbsent(init, key);
    }
  }

  /** `groupby(key).sum()`: one group per key that occurs, holding the sum of
      that key's amounts. */
  function GroupSum(entries: seq<Entry>): (groups: map<string, real>)
    ensures groups.Keys == KeysOf(entries)
    ensures forall k :: k in groups ==> groups[k] == SumFor(entries, k)
  {
    if |entries| == 0 then map[]
    else
      var init := entries[..|entries| - 1];
      var last := entries[|entries| - 1];
      var groups := GroupSum(init);
      assert KeysOf(entries) == KeysOf(init) + {last.key} by {
        forall k | k in KeysOf(entries) ensures k in KeysOf(init) + {last.key} {
          var i :| 0 <= i < |entries| && entries[i].key == k;
          if i < |init| { assert init[i].key == k; }
        }
        forall k | k in KeysOf(init) ensures k in KeysOf(entries) {
          var i :| 0 <= i < |init| && init[i].key == k;
          assert entries[i].key == k;
        }
      }
      if last.key in groups then
        groups[last.key := groups[last.key] + last.amount]
      else
        SumForAbsent(init, last.key);
        groups[last.key := last.amount]
  }

  /** `groupby(key).size()`: one group per key that occurs, holding how many
      rows carry it. */
  function GroupCount(keys: seq<string>): (counts: map<string, nat>)
    ensures counts.Keys == set k | k in keys
    ensures forall k :: k in counts ==> counts[k] == multiset(keys)[k]
  {
    if |keys| == 0 then map[]
    else
      var init := keys[..|keys| - 1];
      var last := keys[|keys| - 1];
      assert keys == init + [last];
      var counts := GroupCount(init);
      counts[last := if last in counts then counts[last] + 1 else 1]
  }

  /** The keys present in a key column (NaN keys left out). */
  function Present(column: seq<Option<string>>): set<string> {
    set i | 0 <= i < |column| && column[i].Some? :: column[i].value
  }

  /** The reference count: rows of the column holding `key`. */
  function CountKey(column: seq<Option<string>>, key: string): nat {
    if |column| == 0 then 0
    else CountKey(column[..|column| - 1], key) + (if column[|column| - 1] == Some(key) then 1 else 0)
  }

  lemma {:induction false} CountKeyAbsent(column: seq<Option<string>>, key: string)
    requires key !in Present(column)
    ensures CountKey(column, key) == 0
  {
    if |column| > 0 {
      var init := column[..|column| - 1];
      assert Present(init) <= Present(column) by {
        forall k | k in Present(init) ensures k in Present(column) {
          var i :| 0 <= i < |init| && init[i].Some? && init[i].value == k;
          assert column[i] == init[i];
        }
      }
      CountKeyAbsent(init, key);
    }
  }

  /** `dropna()` on a key column: the present keys, in row order. */
  function Dropna(column: seq<Option<string>>): (keys: seq<string>)
    ensures (set k | k in keys) == Present(column)
    ensures forall k :: multiset(keys)[k] == CountKey(column, k)
  {
    if |column| == 0 then []
    else
      var init := column[..|column| - 1];
      var last := column[|column| - 1];
      var keys := Dropna(init);
      PresentLast(column);
      match last
      case None => keys
      case Some(k) =>
        var keys' := keys + [k];
        assert multiset(keys') == multiset(keys) + multiset{k};
        assert (set x | x in keys') == (set x | x in keys) + {k};
        keys'
  }

  lemma PresentLast(column: seq<Option<string>>)
    requires |column| > 0
    ensures var init, last := column[..|column| - 1], column[|column| - 1];
      Present(column) == Present(init) + (if last.Some? then {last.value} else {})
  {
    var init, last := column[..|column| - 1], column[|column| - 1];
    forall k | k in Present(column)
      ensures k in Present(init) + (if last.Some? then {last.value} else {})
    {
      var i :| 0 <= i < |column| && column[i].Some? && column[i].value == k;
      if i < |init| { assert init[i] == column[i]; }
    }
    forall k | k in Present(init) ensures k in Present(column) {
      var i :| 0 <= i < |init| && init[i].Some? && init[i].value == k;
      assert column[i] == init[i];
    }
  }

  /** A table from a key column with no repeated key and a value column. */
  function Tabulate(keys: seq<string>, values: seq<real>): (t: map<string, real>)
    requires |keys| == |values|
    requires forall i, j :: 0 <= i < j < |keys| ==> keys[i] != keys[j]
    ensures t.Keys == set k | k in keys
    ensures forall i :: 0 <= i < |keys| ==> t[keys[i]] == values[i]
  {
    if |keys| == 0 then map[]
    else
      var n := |keys| - 1;
      assert keys == keys[..n] + [keys[n]];
      Tabulate(keys[..n], values[..n])[keys[n] := values[n]]
  }
}
