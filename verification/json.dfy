/** JSON-compatible values and the top-level documents (Python dicts) the collector persists. */
module Json {
  import opened Wrappers

  /** A JSON value as the music service hands it over and as json.load gives it back.
      Numbers are compared by numeric value, as Python compares 1 and 1.0, so they are
      reals. Nested objects are maps: Python compares dicts without regard to key order,
      and below the top level no key order is observable in this model. */
  datatype Value =
    | Null
    | Bool(b: bool)
    | Number(n: real)
    | Str(s: string)
    | Array(items: seq<Value>)
    | Object(members: map<string, Value>)

  datatype Field = Field(key: string, value: Value)

  /** A top-level document: its fields in insertion order, which is the order the
      diff reports them in. */
  type Record = seq<Field>

  /** A Python dict never holds a key twice. */
  predicate Keyed(r: Record) {
    forall i, j :: 0 <= i < j < |r| ==> r[i].key != r[j].key
  }

  function KeySet(r: Record): set<string> {
    set i | 0 <= i < |r| :: r[i].key
  }

  /** `k in d` and `d[k]` together: the value stored under `k`, if any. */
  function Lookup(r: Record, k: string): (o: Option<Value>)
    ensures o.Some? <==> k in KeySet(r)
    ensures o.Some? ==> Field(k, o.value) in r
  {
    if |r| == 0 then None
    else if r[0].key == k then Some(r[0].value)
    else
      var o := Lookup(r[1..], k);
      assert forall x :: x in KeySet(r) <==> x == r[0].key || x in KeySet(r[1..]);
      o
  }

  /** In a keyed record every field is what a lookup of its key finds. */
  lemma {:induction false} LookupField(r: Record, k: string, v: Value)
    requires Keyed(r)
    ensures Field(k, v) in r <==> Lookup(r, k) == Some(v)
  {
    if |r| > 0 && r[0].key != k {
      LookupField(r[1..], k, v);
    }
  }

  /** The tail of a keyed record is keyed and lacks the head's key. */
  lemma KeyedTail(r: Record)
    requires Keyed(r) && |r| > 0
    ensures Keyed(r[1..])
    ensures r[0].key !in KeySet(r[1..])
    ensures forall k :: k in KeySet(r) <==> k == r[0].key || k in KeySet(r[1..])
  {
    assert forall k :: k in KeySet(r) <==> k == r[0].key || k in KeySet(r[1..]);
  }

  /** Position of the first field with key `k`; |r| when there is none. */
  function Pos(r: Record, k: string): (p: nat)
    ensures p <= |r|
    ensures p < |r| <==> k in KeySet(r)
    ensures p < |r| ==> r[p].key == k && forall i :: 0 <= i < p ==> r[i].key != k
  {
    if |r| == 0 then 0
    else if r[0].key == k then 0
    else 1 + Pos(r[1..], k)
  }

  /** The dict a record stands for. */
  function ToMap(r: Record): (m: map<string, Value>)
    ensures m.Keys == KeySet(r)
    ensures forall k :: k in m ==> Lookup(r, k) == Some(m[k])
  {
    map k | k in KeySet(r) :: Lookup(r, k).value
  }

  /** Python dict equality: same keys, equal values, order ignored. */
  predicate SameDict(a: Record, b: Record) {
    ToMap(a) == ToMap(b)
  }

  /** Equal dicts answer every lookup alike. */
  lemma SameDictSameLookups(a: Record, b: Record)
    requires SameDict(a, b)
    ensures forall k :: Lookup(a, k) == Lookup(b, k)
  {
    forall k ensures Lookup(a, k) == Lookup(b, k) {
      if k in ToMap(a) {
        assert Lookup(a, k) == Some(ToMap(a)[k]);
        assert Lookup(b, k) == Some(ToMap(b)[k]);
      } else {
        assert k !in KeySet(a) && k !in KeySet(b);
      }
    }
  }

  /** Records that answer every lookup alike are equal dicts, whatever their key order. */
  lemma SameLookupsSameDict(a: Record, b: Record)
    requires forall k :: Lookup(a, k) == Lookup(b, k)
    ensures SameDict(a, b)
  {
    forall k ensures k in ToMap(a) <==> k in ToMap(b) {
      assert Lookup(a, k) == Lookup(b, k);
    }
    forall k | k in ToMap(a) ensures ToMap(a)[k] == ToMap(b)[k] {
      assert Lookup(a, k) == Lookup(b, k);
    }
  }
}
