/** The response-log import (losapv13.py: import_epcr): half a point per
    incident row, merged as an outer join that replaces the Calls Responded
    To column. */
module ResponseLog {
  import opened Wrappers
  import opened Names
  import opened Grouping
  import opened Scoring
  import opened Ledger

  /** The key column built from the log's name column. */
  function KeyColumn(names: seq<Option<string>>): (column: seq<Option<string>>)
    ensures |column| == |names|
    ensures forall i :: 0 <= i < |names| ==> column[i] == ResponseLogKey(names[i])
  {
    seq(|names|, i requires 0 <= i < |names| => ResponseLogKey(names[i]))
  }

  /** The member keys the log yields (rows without a key are dropped). */
  function LogKeys(names: seq<Option<string>>): set<string> {
    Present(KeyColumn(names))
  }

  /** A member key comes from the log exactly when some row's name yields it. */
  lemma LogKeysMeans(names: seq<Option<string>>, k: string)
    ensures k in LogKeys(names) <==> exists i :: 0 <= i < |names| && ResponseLogKey(names[i]) == Some(k)
  {
  }

  /** The log yields no key, and the import is abandoned, exactly when no
      name keeps a space once double spaces are collapsed. */
  lemma LogKeysEmpty(names: seq<Option<string>>)
    ensures LogKeys(names) == {} <==>
      forall i :: 0 <= i < |names| && names[i].Some? ==> ' ' !in CollapseDoubleSpaces(names[i].value)
  {
    if LogKeys(names) != {} {
      var k :| k in LogKeys(names);
      LogKeysMeans(names, k);
    }
    if i :| 0 <= i < |names| && names[i].Some? && ' ' in CollapseDoubleSpaces(names[i].value) {
      LogKeysMeans(names, ResponseLogKey(names[i]).value);
    }
  }

  /** How many rows of the log carry `key`. */
  function RowsFor(names: seq<Option<string>>, key: string): nat {
    CountKey(KeyColumn(names), key)
  }

  /** Calls Responded To per member: half the member's row count. */
  function CallsTable(names: seq<Option<string>>): (t: map<string, real>)
    ensures t.Keys == LogKeys(names)
    ensures forall k :: k in t ==> t[k] == CallsPoints(RowsFor(names, k))
  {
    var counts := GroupCount(Dropna(KeyColumn(names)));
    map k | k in counts :: CallsPoints(counts[k])
  }

  /** The merge of a log with at least one key: the member set becomes the
      union, every member's Calls Responded To is half its row count (0 when
      it has none), the other categories are carried over (0 for new
      members) and Total is recomputed. */
  function Merged(l: Ledger, names: seq<Option<string>>): (l': Ledger)
    ensures l'.Keys == l.Keys + LogKeys(names)
    ensures forall k :: k in l' ==> l'[k].callsRespondedTo == CallsPoints(RowsFor(names, k))
    ensures forall k, d :: k in l' && d != CallsRespondedTo && d != Total ==>
      Get(l'[k], d) == Get(Prior(l, k), d)
    ensures AllConsistent(l')
  {
    var t := CallsTable(names);
    var joined := OuterJoinColumn(l, CallsRespondedTo, t);
    var l' := RetotalAll(joined);
    forall k | k in l'
      ensures l'[k].callsRespondedTo == CallsPoints(RowsFor(names, k))
    {
      assert Get(l'[k], CallsRespondedTo) == Get(joined[k], CallsRespondedTo);
      if k !in t {
        CountKeyAbsent(KeyColumn(names), k);
      }
    }
    l'
  }

  /** The whole import. With no splittable name the import is abandoned and
      the ledger is unchanged; otherwise the log is merged into the ledger. */
  function Import(l: Ledger, names: seq<Option<string>>): (r: Result<Ledger, ImportError>)
    ensures r.Failure? <==> LogKeys(names) == {}
    ensures r.Failure? ==> r.error == NoSurnameColumn
    ensures r.Success? ==> r.value.Keys == l.Keys + LogKeys(names)
    ensures r.Success? ==> forall k :: k in r.value ==> r.value[k].callsRespondedTo == CallsPoints(RowsFor(names, k))
    ensures r.Success? ==> forall k, d :: k in r.value && d != CallsRespondedTo && d != Total ==>
      Get(r.value[k], d) == Get(Prior(l, k), d)
    ensures r.Success? ==> AllConsistent(r.value)
  {
    if LogKeys(names) == {} then Failure(NoSurnameColumn) else Success(Merged(l, names))
  }

  /** Re-running the same import changes nothing. */
  lemma ImportIdempotent(l: Ledger, names: seq<Option<string>>)
    ensures Import(l, names).Success? ==> Import(Import(l, names).value, names) == Import(l, names)
  {
    if LogKeys(names) != {} {
      var once := Merged(l, names);
      var twice := Merged(once, names);
      forall k | k in twice
        ensures twice[k] == once[k]
      {
        SameMemberAfterRerun(l, names, k);
      }
      SameLedger(twice, once);
    }
  }

  lemma SameMemberAfterRerun(l: Ledger, names: seq<Option<string>>, k: string)
    requires k in Merged(l, names)
    ensures Merged(Merged(l, names), names)[k] == Merged(l, names)[k]
  {
    var once := Merged(l, names);
    var twice := Merged(once, names);
    assert Get(twice[k], CallsRespondedTo) == Get(once[k], CallsRespondedTo);
    forall d | d != Total && d != CallsRespondedTo
      ensures Get(twice[k], d) == Get(once[k], d)
    {
      assert Get(twice[k], d) == Get(Prior(once, k), d);
    }
    ConsistentExt(twice[k], once[k]);
  }
}
