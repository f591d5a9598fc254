/** `hasDefinedProperties`: whether a record holds any value other than
    `undefined`. A record is the entry list of a plain object. */
module DefinedProperties {
  import opened Wrappers
  import opened Json

  /** `Object.values`, in key order. */
  function Values(entries: seq<(string, Json)>): (vs: seq<Json>)
    ensures |vs| == |entries|
    ensures forall i :: 0 <= i < |entries| ==> vs[i] == entries[i].1
  {
    seq(|entries|, i requires 0 <= i < |entries| => entries[i].1)
  }

  /** `find` with the test `typeof value !== 'undefined'`: the first value
      that is not `undefined`, if any. */
  function FindDefined(vs: seq<Json>): (r: Option<Json>)
    ensures r.None? <==> forall i :: 0 <= i < |vs| ==> vs[i] == JUndefined
    ensures r.Some? ==> exists i :: 0 <= i < |vs| && vs[i] == r.value && r.value != JUndefined
                          && forall j :: 0 <= j < i ==> vs[j] == JUndefined
    decreases |vs|
  {
    if vs == [] then None
    else if vs[0] != JUndefined then Some(vs[0])
    else
      var r := FindDefined(vs[1..]);
      assert forall i :: 1 <= i < |vs| ==> vs[i] == vs[1..][i - 1];
      if r.Some? then
        var i :| 0 <= i < |vs[1..]| && vs[1..][i] == r.value && r.value != JUndefined
                  && forall j :: 0 <= j < i ==> vs[1..][j] == JUndefined;
        assert vs[i + 1] == r.value;
        r
      else r
  }

  /** `null`, `0`, `false` and `""` all count as defined. */
  function HasDefinedProperties(entries: seq<(string, Json)>): (b: bool)
    ensures b <==> exists i :: 0 <= i < |entries| && entries[i].1 != JUndefined
  {
    var found := FindDefined(Values(entries));
    found.Some?
  }

  /** The answer depends only on the values, not on the keys or their order. */
  lemma OrderIrrelevant(a: seq<(string, Json)>, b: seq<(string, Json)>)
    requires multiset(Values(a)) == multiset(Values(b))
    ensures HasDefinedProperties(a) == HasDefinedProperties(b)
  {
    if HasDefinedProperties(a) {
      var i :| 0 <= i < |a| && a[i].1 != JUndefined;
      DefinedIn(Values(a), Values(b), i);
    }
    if HasDefinedProperties(b) {
      var i :| 0 <= i < |b| && b[i].1 != JUndefined;
      DefinedIn(Values(b), Values(a), i);
    }
  }

  lemma DefinedIn(x: seq<Json>, y: seq<Json>, i: nat)
    requires multiset(x) == multiset(y)
    requires i < |x| && x[i] != JUndefined
    ensures exists j :: 0 <= j < |y| && y[j] != JUndefined
  {
    assert x[i] in multiset(x);
    assert x[i] in y;
  }
}
