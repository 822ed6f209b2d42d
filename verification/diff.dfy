/** The shallow diff engine: compare_data_and_log_changes in logger.py. */
module Diff {
  import opened Wrappers
  import opened Json

  /** One line of a changelog entry, kept structured instead of rendered with str(). */
  datatype Change =
    | Removed(key: string, was: Value)
    | Changed(key: string, was: Value, now: Value)
    | Added(key: string, value: Value)

  /** The first loop: the fields of the prior record, in order, that the current
      record drops or changes. */
  function Departures(prior: Record, current: Record): (r: seq<Change>)
    ensures |r| <= |prior|
  {
    if |prior| == 0 then []
    else
      var f := prior[0];
      var here := match Lookup(current, f.key)
        case None => [Removed(f.key, f.value)]
        case Some(v) => if f.value != v then [Changed(f.key, f.value, v)] else [];
      here + Departures(prior[1..], current)
  }

  /** The second loop: the fields of the current record, in order, that the prior
      record lacks. */
  function Arrivals(current: Record, prior: Record): (r: seq<Change>)
    ensures |r| <= |current|
  {
    if |current| == 0 then []
    else
      var f := current[0];
      var here := if Lookup(prior, f.key).None? then [Added(f.key, f.value)] else [];
      here + Arrivals(current[1..], prior)
  }

  /** compare_data_and_log_changes(prior, current). */
  function Compare(prior: Record, current: Record): (r: seq<Change>)
    ensures |r| <= |prior| + |current|
  {
    Departures(prior, current) + Arrivals(current, prior)
  }

  /** The keys only in `a`. */
  function OnlyIn(a: map<string, Value>, b: map<string, Value>): set<string> {
    a.Keys - b.Keys
  }

  /** The keys in both whose values differ. */
  function Differing(a: map<string, Value>, b: map<string, Value>): set<string> {
    set k | k in a && k in b && a[k] != b[k]
  }

  // ----- what the first loop emits -----

  lemma {:induction false} DeparturesMembers(prior: Record, current: Record)
    ensures forall c :: c in Departures(prior, current) ==> !c.Added?
    ensures forall k, v :: Removed(k, v) in Departures(prior, current) <==>
                           Field(k, v) in prior && Lookup(current, k) == None
    ensures forall k, a, b :: Changed(k, a, b) in Departures(prior, current) <==>
                              Field(k, a) in prior && Lookup(current, k) == Some(b) && a != b
  {
    if |prior| > 0 {
      DeparturesMembers(prior[1..], current);
      assert forall g :: g in prior <==> g == prior[0] || g in prior[1..];
    }
  }

  lemma {:induction false} ArrivalsMembers(current: Record, prior: Record)
    ensures forall c :: c in Arrivals(current, prior) ==> c.Added?
    ensures forall k, v :: Added(k, v) in Arrivals(current, prior) <==>
                           Field(k, v) in current && Lookup(prior, k) == None
  {
    if |current| > 0 {
      ArrivalsMembers(current[1..], prior);
      assert forall g :: g in current <==> g == current[0] || g in current[1..];
    }
  }

  /** Keys of `r` that `other` lacks. */
  function Gone(r: Record, other: Record): set<string> {
    set k | k in KeySet(r) && Lookup(other, k).None?
  }

  /** Keys of `r` that `other` holds with a different value. */
  function Altered(r: Record, other: Record): set<string> {
    set k | k in KeySet(r) && Lookup(other, k).Some? && Lookup(other, k) != Lookup(r, k)
  }

  lemma GoneStep(r: Record, other: Record)
    requires Keyed(r) && |r| > 0
    ensures |Gone(r, other)| == (if Lookup(other, r[0].key).None? then 1 else 0) + |Gone(r[1..], other)|
  {
    KeyedTail(r);
    var h: set<string> := if Lookup(other, r[0].key).None? then {r[0].key} else {};
    assert Gone(r, other) == h + Gone(r[1..], other);
    assert h !! Gone(r[1..], other);
  }

  lemma AlteredStep(r: Record, other: Record)
    requires Keyed(r) && |r| > 0
    ensures |Altered(r, other)| ==
              (if Lookup(other, r[0].key).Some? && Lookup(other, r[0].key) != Some(r[0].value) then 1 else 0)
            + |Altered(r[1..], other)|
  {
    KeyedTail(r);
    var f, t := r[0], r[1..];
    var h: set<string> := if Lookup(other, f.key).Some? && Lookup(other, f.key) != Some(f.value) then {f.key} else {};
    forall k ensures k in Altered(r, other) <==> k in h || k in Altered(t, other) {
      if k != f.key {
        assert Lookup(r, k) == Lookup(t, k);
      }
    }
    assert Altered(r, other) == h + Altered(t, other);
    assert h !! Altered(t, other);
  }

  lemma {:induction false} DeparturesCount(prior: Record, current: Record)
    requires Keyed(prior)
    ensures |Departures(prior, current)| == |Gone(prior, current)| + |Altered(prior, current)|
  {
    if |prior| == 0 {
      assert Gone(prior, current) == {};
      assert Altered(prior, current) == {};
    } else {
      KeyedTail(prior);
      DeparturesCount(prior[1..], current);
      GoneStep(prior, current);
      AlteredStep(prior, current);
    }
  }

  lemma {:induction false} ArrivalsCount(current: Record, prior: Record)
    requires Keyed(current)
    ensures |Arrivals(current, prior)| == |Gone(current, prior)|
  {
    if |current| == 0 {
      assert Gone(current, prior) == {};
    } else {
      KeyedTail(current);
      ArrivalsCount(current[1..], prior);
      GoneStep(current, prior);
    }
  }

  /** The diff has one entry per key only in the prior record, one per key only
      in the current record, and one per shared key whose value changed. */
  lemma CompareCount(prior: Record, current: Record)
    requires Keyed(prior) && Keyed(current)
    ensures |Compare(prior, current)| ==
              |OnlyIn(ToMap(prior), ToMap(current))|
            + |OnlyIn(ToMap(current), ToMap(prior))|
            + |Differing(ToMap(prior), ToMap(current))|
  {
    DeparturesCount(prior, current);
    ArrivalsCount(current, prior);
    var mp, mc := ToMap(prior), ToMap(current);
    assert Gone(prior, current) == OnlyIn(mp, mc);
    assert Gone(current, prior) == OnlyIn(mc, mp);
    assert Altered(prior, current) == Differing(mp, mc) by {
      forall k ensures k in Altered(prior, current) <==> k in Differing(mp, mc) {
        if k in mp && k in mc {
          assert Lookup(prior, k) == Some(mp[k]);
          assert Lookup(current, k) == Some(mc[k]);
        }
      }
    }
  }

  /** Every entry the diff reports is justified by the two records, and every
      difference between them is reported. */
  lemma CompareMembers(prior: Record, current: Record)
    requires Keyed(prior) && Keyed(current)
    ensures forall k, v :: Removed(k, v) in Compare(prior, current) <==>
                           Lookup(prior, k) == Some(v) && Lookup(current, k) == None
    ensures forall k, a, b :: Changed(k, a, b) in Compare(prior, current) <==>
                              Lookup(prior, k) == Some(a) && Lookup(current, k) == Some(b) && a != b
    ensures forall k, v :: Added(k, v) in Compare(prior, current) <==>
                           Lookup(prior, k) == None && Lookup(current, k) == Some(v)
  {
    DeparturesMembers(prior, current);
    ArrivalsMembers(current, prior);
    forall k, v ensures Field(k, v) in prior <==> Lookup(prior, k) == Some(v) {
      LookupField(prior, k, v);
    }
    forall k, v ensures Field(k, v) in current <==> Lookup(current, k) == Some(v) {
      LookupField(current, k, v);
    }
  }

  /** The diff is empty exactly when the two records are equal as dicts; this is
      why the store never appends an entry without lines. */
  lemma CompareEmptyIff(prior: Record, current: Record)
    requires Keyed(prior) && Keyed(current)
    ensures Compare(prior, current) == [] <==> SameDict(prior, current)
  {
    if Compare(prior, current) == [] {
      EmptyDiffSameDict(prior, current);
    }
    if SameDict(prior, current) {
      SameDictEmptyDiff(prior, current);
    }
  }

  lemma EmptyDiffSameDict(prior: Record, current: Record)
    requires Keyed(prior) && Keyed(current)
    requires Compare(prior, current) == []
    ensures SameDict(prior, current)
  {
    var d := Compare(prior, current);
    CompareMembers(prior, current);
    forall k ensures Lookup(prior, k) == Lookup(current, k) {
      var p, c := Lookup(prior, k), Lookup(current, k);
      var was, now := p.GetOr(Null), c.GetOr(Null);
      assert Removed(k, was) !in d && Changed(k, was, now) !in d && Added(k, now) !in d;
    }
    SameLookupsSameDict(prior, current);
  }

  /** Each entry names a key on which the two records disagree. */
  lemma CompareJustified(prior: Record, current: Record)
    requires Keyed(prior) && Keyed(current)
    ensures forall c :: c in Compare(prior, current) ==> Lookup(prior, c.key) != Lookup(current, c.key)
  {
    CompareMembers(prior, current);
    forall c | c in Compare(prior, current) ensures Lookup(prior, c.key) != Lookup(current, c.key) {
      match c
      case Removed(k, v) =>
      case Changed(k, a, b) =>
      case Added(k, v) =>
    }
  }

  lemma SameDictEmptyDiff(prior: Record, current: Record)
    requires Keyed(prior) && Keyed(current)
    requires SameDict(prior, current)
    ensures Compare(prior, current) == []
  {
    var d := Compare(prior, current);
    if d != [] {
      assert d[0] in d;
      CompareJustified(prior, current);
      SameDictSameLookups(prior, current);
      assert false;
    }
  }

  /** Comparing a record with itself reports nothing. */
  lemma CompareSelf(x: Record)
    requires Keyed(x)
    ensures Compare(x, x) == []
  {
    CompareEmptyIff(x, x);
  }

  lemma {:induction false} DeparturesOrder(prior: Record, current: Record)
    requires Keyed(prior)
    ensures forall c :: c in Departures(prior, current) ==> c.key in KeySet(prior)
    ensures forall i, j :: 0 <= i < j < |Departures(prior, current)| ==>
              Pos(prior, Departures(prior, current)[i].key) < Pos(prior, Departures(prior, current)[j].key)
  {
    if |prior| > 0 {
      var f := prior[0];
      KeyedTail(prior);
      DeparturesOrder(prior[1..], current);
      var here := match Lookup(current, f.key)
        case None => [Removed(f.key, f.value)]
        case Some(v) => if f.value != v then [Changed(f.key, f.value, v)] else [];
      assert Departures(prior, current) == here + Departures(prior[1..], current);
      OrderCons(prior, here, Departures(prior[1..], current));
    }
  }

  lemma {:induction false} ArrivalsOrder(current: Record, prior: Record)
    requires Keyed(current)
    ensures forall c :: c in Arrivals(current, prior) ==> c.key in KeySet(current)
    ensures forall i, j :: 0 <= i < j < |Arrivals(current, prior)| ==>
              Pos(current, Arrivals(current, prior)[i].key) < Pos(current, Arrivals(current, prior)[j].key)
  {
    if |current| > 0 {
      var f := current[0];
      KeyedTail(current);
      ArrivalsOrder(current[1..], prior);
      var here := if Lookup(prior, f.key).None? then [Added(f.key, f.value)] else [];
      assert Arrivals(current, prior) == here + Arrivals(current[1..], prior);
      OrderCons(current, here, Arrivals(current[1..], prior));
    }
  }

  /** Entries for the head's key, then entries in the tail's key order, are in
      the whole record's key order. */
  lemma OrderCons(r: Record, here: seq<Change>, rest: seq<Change>)
    requires Keyed(r) && |r| > 0 && |here| <= 1
    requires forall c :: c in here ==> c.key == r[0].key
    requires forall c :: c in rest ==> c.key in KeySet(r[1..])
    requires forall i, j :: 0 <= i < j < |rest| ==> Pos(r[1..], rest[i].key) < Pos(r[1..], rest[j].key)
    ensures forall c :: c in here + rest ==> c.key in KeySet(r)
    ensures forall i, j :: 0 <= i < j < |here + rest| ==> Pos(r, (here + rest)[i].key) < Pos(r, (here + rest)[j].key)
  {
    KeyedTail(r);
    forall c | c in rest ensures Pos(r, c.key) == 1 + Pos(r[1..], c.key) {
      assert c.key != r[0].key;
    }
    ShiftedOrder(r, rest);
    assert |here| > 0 ==> here[0] in here;
    HeadThenRest(r, here + rest, rest, |here|);
  }

  lemma ShiftedOrder(r: Record, rest: seq<Change>)
    requires |r| > 0
    requires forall c :: c in rest ==> Pos(r, c.key) == 1 + Pos(r[1..], c.key)
    requires forall i, j :: 0 <= i < j < |rest| ==> Pos(r[1..], rest[i].key) < Pos(r[1..], rest[j].key)
    ensures forall i, j :: 0 <= i < j < |rest| ==> Pos(r, rest[i].key) < Pos(r, rest[j].key)
  {
    forall i, j | 0 <= i < j < |rest| ensures Pos(r, rest[i].key) < Pos(r, rest[j].key) {
      assert rest[i] in rest && rest[j] in rest;
    }
  }

  /** At most one entry at the head's position, then entries behind it in order. */
  lemma HeadThenRest(r: Record, d: seq<Change>, rest: seq<Change>, n: nat)
    requires n <= 1 && n <= |d| && d[n..] == rest
    requires n == 1 ==> Pos(r, d[0].key) == 0
    requires forall c :: c in rest ==> Pos(r, c.key) >= 1
    requires forall i, j :: 0 <= i < j < |rest| ==> Pos(r, rest[i].key) < Pos(r, rest[j].key)
    ensures forall i, j :: 0 <= i < j < |d| ==> Pos(r, d[i].key) < Pos(r, d[j].key)
  {
    forall i, j | 0 <= i < j < |d| ensures Pos(r, d[i].key) < Pos(r, d[j].key) {
      assert d[j] == rest[j - n] && d[j] in rest;
      if i >= n {
        assert d[i] == rest[i - n];
      }
    }
  }

  /** The order of the report: Removed and Changed entries come first, in the
      prior record's key order; Added entries follow, in the current record's key
      order; no key is reported twice. */
  lemma CompareOrder(prior: Record, current: Record)
    requires Keyed(prior) && Keyed(current)
    ensures forall i, j :: 0 <= i < j < |Compare(prior, current)| && !Compare(prior, current)[j].Added? ==>
              !Compare(prior, current)[i].Added?
              && Pos(prior, Compare(prior, current)[i].key) < Pos(prior, Compare(prior, current)[j].key)
    ensures forall i, j :: 0 <= i < j < |Compare(prior, current)| && Compare(prior, current)[i].Added? ==>
              Compare(prior, current)[j].Added?
              && Pos(current, Compare(prior, current)[i].key) < Pos(current, Compare(prior, current)[j].key)
    ensures forall i, j :: 0 <= i < j < |Compare(prior, current)| ==>
              Compare(prior, current)[i].key != Compare(prior, current)[j].key
  {
    var dp, ar := Departures(prior, current), Arrivals(current, prior);
    DeparturesMembers(prior, current);
    ArrivalsMembers(current, prior);
    DeparturesOrder(prior, current);
    ArrivalsOrder(current, prior);
    forall c | c in ar ensures c.key !in KeySet(prior) {
      assert Added(c.key, c.value) in ar;
    }
    OrderConcat(prior, current, dp, ar);
  }

  /** Two runs of entries, the first in the prior record's key order and
      without Added entries, the second in the current record's key order, only
      Added entries, and on keys the prior record lacks. */
  lemma OrderConcat(prior: Record, current: Record, dp: seq<Change>, ar: seq<Change>)
    requires forall c :: c in dp ==> !c.Added? && c.key in KeySet(prior)
    requires forall c :: c in ar ==> c.Added? && c.key !in KeySet(prior)
    requires forall i, j :: 0 <= i < j < |dp| ==> Pos(prior, dp[i].key) < Pos(prior, dp[j].key)
    requires forall i, j :: 0 <= i < j < |ar| ==> Pos(current, ar[i].key) < Pos(current, ar[j].key)
    ensures forall i, j :: 0 <= i < j < |dp + ar| && !(dp + ar)[j].Added? ==>
              !(dp + ar)[i].Added? && Pos(prior, (dp + ar)[i].key) < Pos(prior, (dp + ar)[j].key)
    ensures forall i, j :: 0 <= i < j < |dp + ar| && (dp + ar)[i].Added? ==>
              (dp + ar)[j].Added? && Pos(current, (dp + ar)[i].key) < Pos(current, (dp + ar)[j].key)
    ensures forall i, j :: 0 <= i < j < |dp + ar| ==> (dp + ar)[i].key != (dp + ar)[j].key
  {
    var d := dp + ar;
    forall i | 0 <= i < |d|
      ensures i < |dp| ==> d[i] == dp[i] && d[i] in dp
      ensures i >= |dp| ==> d[i] == ar[i - |dp|] && d[i] in ar
    {
    }
  }

  /** Against an empty prior record every field of the current one is reported as
      added, in its own order. */
  lemma {:induction false} CompareFromEmpty(current: Record)
    ensures |Compare([], current)| == |current|
    ensures forall i :: 0 <= i < |current| ==>
              Compare([], current)[i] == Added(current[i].key, current[i].value)
  {
    ArrivalsFromEmpty(current);
  }

  lemma {:induction false} ArrivalsFromEmpty(current: Record)
    ensures |Arrivals(current, [])| == |current|
    ensures forall i :: 0 <= i < |current| ==>
              Arrivals(current, [])[i] == Added(current[i].key, current[i].value)
  {
    if |current| > 0 {
      ArrivalsFromEmpty(current[1..]);
    }
  }
}
