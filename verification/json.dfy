/** Plain JavaScript data as it crosses the service boundary: request
    bodies, `details` records and database rows. Objects keep their keys in
    insertion order and hold each key at most once. */
module Json {

  datatype Json =
    | JNull
    | JUndefined
    | JBool(b: bool)
    | JNum(n: int)
    | JStr(s: string)
    | JDate(ms: int)
    | JArray(items: seq<Json>)
    | JObject(entries: seq<(string, Json)>)

  /** The keys of an entry list, in order. */
  function Keys(entries: seq<(string, Json)>): (ks: seq<string>)
    ensures |ks| == |entries|
    ensures forall i :: 0 <= i < |entries| ==> ks[i] == entries[i].0
  {
    seq(|entries|, i requires 0 <= i < |entries| => entries[i].0)
  }

  /** No key occurs twice, as in a JS object. */
  predicate UniqueKeys(entries: seq<(string, Json)>) {
    forall i, j :: 0 <= i < j < |entries| ==> entries[i].0 != entries[j].0
  }

  /** The first position of key `k`, or -1 when it is absent. Defined on
      the prefix so that appending an entry unfolds it once. */
  function IndexOf(entries: seq<(string, Json)>, k: string): (i: int)
    ensures -1 <= i < |entries|
    ensures i >= 0 ==> entries[i].0 == k
    ensures forall j :: 0 <= j < |entries| && (i < 0 || j < i) ==> entries[j].0 != k
    decreases |entries|
  {
    if entries == [] then -1
    else if entries[|entries| - 1].0 == k && IndexOf(entries[..|entries| - 1], k) < 0 then |entries| - 1
    else IndexOf(entries[..|entries| - 1], k)
  }

  /** Property read `o[k]`: the value stored under `k`, or `undefined`. */
  function Get(entries: seq<(string, Json)>, k: string): (v: Json)
    ensures v != JUndefined ==> exists i :: 0 <= i < |entries| && entries[i] == (k, v)
    ensures (forall i :: 0 <= i < |entries| ==> entries[i].0 != k) ==> v == JUndefined
    decreases |entries|
  {
    if entries == [] then JUndefined
    else if entries[0].0 == k then entries[0].1
    else Get(entries[1..], k)
  }

  /** The read finds the first entry with the key. */
  lemma {:induction false} GetAtIndex(entries: seq<(string, Json)>, k: string)
    ensures Get(entries, k) == if IndexOf(entries, k) >= 0 then entries[IndexOf(entries, k)].1 else JUndefined
    decreases |entries|
  {
    if entries != [] && entries[0].0 != k {
      var tail := entries[1..];
      GetAtIndex(tail, k);
      assert forall j :: 0 <= j < |tail| ==> tail[j] == entries[j + 1];
      var i := IndexOf(tail, k);
      assert IndexOf(entries, k) == (if i >= 0 then i + 1 else -1) by {
        var e := IndexOf(entries, k);
        if e >= 0 { assert e > 0 && tail[e - 1].0 == k; }
        if i >= 0 { assert entries[i + 1].0 == k; }
      }
    }
  }

  /** Property write `o[k] = v`: an existing key keeps its position and
      takes the new value, a new key goes at the end. */
  function Put(entries: seq<(string, Json)>, k: string, v: Json): (r: seq<(string, Json)>)
    ensures Get(r, k) == v
    ensures Keys(r) == if k in Keys(entries) then Keys(entries) else Keys(entries) + [k]
  {
    var i := IndexOf(entries, k);
    if i >= 0 then
      var r := entries[i := (k, v)];
      assert r[i] == (k, v) && forall j :: 0 <= j < i ==> r[j] == entries[j];
      assert IndexOf(r, k) == i;
      GetAtIndex(r, k);
      assert Keys(r) == Keys(entries);
      r
    else
      var r := entries + [(k, v)];
      assert r[..|r| - 1] == entries;
      assert IndexOf(r, k) == |entries|;
      GetAtIndex(r, k);
      r
  }

  /** Writing one key leaves every other key's value alone. */
  lemma PutOther(entries: seq<(string, Json)>, k: string, v: Json, other: string)
    requires other != k
    ensures Get(Put(entries, k, v), other) == Get(entries, other)
  {
    var r := Put(entries, k, v);
    assert IndexOf(r, other) == IndexOf(entries, other);
    GetAtIndex(r, other);
    GetAtIndex(entries, other);
  }

  /** The key list of a non-empty entry list: its head's key, then the rest. */
  lemma KeysCons(entries: seq<(string, Json)>)
    requires entries != []
    ensures Keys(entries) == [entries[0].0] + Keys(entries[1..])
  {
    assert forall j :: 0 <= j < |entries[1..]| ==> entries[1..][j] == entries[j + 1];
  }

  /** After a write, a key is present exactly when it was before or is the
      key written. */
  lemma PutKeys(entries: seq<(string, Json)>, k: string, v: Json, other: string)
    ensures other in Keys(Put(entries, k, v)) <==> other in Keys(entries) || other == k
  {
    var before := Keys(entries);
    if k !in before {
      assert Keys(Put(entries, k, v)) == before + [k];
    }
  }

  /** Writing keeps the keys unique. */
  lemma PutKeepsUnique(entries: seq<(string, Json)>, k: string, v: Json)
    requires UniqueKeys(entries)
    ensures UniqueKeys(Put(entries, k, v))
  {
    var r := Put(entries, k, v);
    var ks := Keys(r);
    forall i, j | 0 <= i < j < |r|
      ensures r[i].0 != r[j].0
    {
      assert ks[i] == r[i].0 && ks[j] == r[j].0;
      if k !in Keys(entries) {
        assert ks == Keys(entries) + [k];
      }
    }
  }
}
