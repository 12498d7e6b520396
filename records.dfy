/** Scraped records as JavaScript objects: fields in insertion order, looked up by key,
    and the JSON file that stores the previous run's records. */
module Records {
  import opened Js

  datatype Field = Field(key: string, value: Value)

  /** A plain JavaScript object: its own fields in insertion order. */
  type Record = seq<Field>

  /** `Object.keys(r)`. */
  function Keys(r: Record): (ks: seq<string>)
    ensures |ks| == |r|
    ensures forall i :: 0 <= i < |r| ==> ks[i] == r[i].key
  {
    if r == [] then [] else [r[0].key] + Keys(r[1..])
  }

  lemma {:induction false} KeysConcat(a: Record, b: Record)
    ensures Keys(a + b) == Keys(a) + Keys(b)
  {
    if a == [] {
      assert a + b == b;
    } else {
      assert (a + b)[1..] == a[1..] + b;
      KeysConcat(a[1..], b);
    }
  }

  /** `r[key]`: the value stored under `key`, `undefined` when there is none. */
  function Get(r: Record, key: string): (v: Value)
    ensures key !in Keys(r) ==> v == Absent
  {
    if r == [] then Absent
    else if r[0].key == key then r[0].value
    else Get(r[1..], key)
  }

  /** An object never has two fields with one key. */
  predicate DistinctKeys(ks: seq<string>) {
    forall i, j :: 0 <= i < j < |ks| ==> ks[i] != ks[j]
  }

  /** Dropping the first field keeps the keys distinct. */
  lemma DistinctTail(r: Record)
    requires r != [] && DistinctKeys(Keys(r))
    ensures DistinctKeys(Keys(r[1..]))
    ensures r[0].key !in Keys(r[1..])
  {
    assert Keys(r) == [r[0].key] + Keys(r[1..]);
  }

  /** In an object with distinct keys, `r[key]` is the value of the field named `key`. */
  lemma {:induction false} GetField(r: Record, i: nat)
    requires DistinctKeys(Keys(r)) && i < |r|
    ensures Get(r, r[i].key) == r[i].value
  {
    if i > 0 {
      DistinctTail(r);
      assert r[i] == r[1..][i - 1];
      assert r[i].key in Keys(r[1..]);
      GetField(r[1..], i - 1);
    }
  }

  /** `JSON.parse(JSON.stringify(r))`: strings and booleans survive, and fields whose
      value is `undefined` are dropped. */
  function JsonRoundTrip(r: Record): (q: Record)
    ensures |q| <= |r|
    ensures forall i :: 0 <= i < |q| ==> q[i].value != Absent
  {
    if r == [] then []
    else if r[0].value == Absent then JsonRoundTrip(r[1..])
    else [r[0]] + JsonRoundTrip(r[1..])
  }

  /** What `saveNewData` writes and `readOldData` reads back. */
  function Persisted(rs: seq<Record>): (qs: seq<Record>)
    ensures |qs| == |rs|
    ensures forall i :: 0 <= i < |rs| ==> qs[i] == JsonRoundTrip(rs[i])
  {
    if rs == [] then [] else [JsonRoundTrip(rs[0])] + Persisted(rs[1..])
  }

  /** Storing a record as JSON does not change what any key reads as. */
  lemma {:induction false} JsonRoundTripGet(r: Record, key: string)
    requires DistinctKeys(Keys(r))
    ensures Get(JsonRoundTrip(r), key) == Get(r, key)
  {
    if r != [] {
      DistinctTail(r);
      JsonRoundTripGet(r[1..], key);
      if r[0].key == key && r[0].value == Absent {
        KeysOfRoundTrip(r[1..], key);
      }
    }
  }

  /** The JSON copy of a record has no key the record did not have. */
  lemma {:induction false} KeysOfRoundTrip(r: Record, key: string)
    requires key !in Keys(r)
    ensures Get(JsonRoundTrip(r), key) == Absent
  {
    if r != [] {
      assert Keys(r) == [r[0].key] + Keys(r[1..]);
      KeysOfRoundTrip(r[1..], key);
    }
  }
}
