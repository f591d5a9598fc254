/** Column-name helpers shared by the query builders: camelCase and
    snake_case key conversion, the recursive key renaming applied to every
    database row, and the column lists of SELECT, INSERT and UPDATE
    statements. A record is the entry list of a plain object; its keys are
    unique, so `o[k]` for the i-th key is the i-th value. SQL fragments are
    modelled as the text or the (column, value) pairs they carry. */
module FieldOperations {
  import opened Json
  import opened DefinedProperties

  // ---------------------------------------------------------------------
  // Characters (ASCII ranges of the regular expressions)
  // ---------------------------------------------------------------------

  predicate IsSeparator(c: char) { c == '-' || c == '_' }
  predicate IsLower(c: char) { 'a' <= c <= 'z' }
  predicate IsUpper(c: char) { 'A' <= c <= 'Z' }
  predicate IsLetter(c: char) { IsLower(c) || IsUpper(c) }

  function Upper(c: char): (u: char)
    ensures IsLower(c) ==> IsUpper(u)
    ensures !IsLower(c) ==> u == c
  {
    if IsLower(c) then (c as int - 32) as char else c
  }

  function Lower(c: char): (l: char)
    ensures IsUpper(c) ==> IsLower(l) && Upper(l) == c
    ensures !IsUpper(c) ==> l == c
  {
    if IsUpper(c) then (c as int + 32) as char else c
  }

  predicate AsciiLetters(s: string) {
    forall i :: 0 <= i < |s| ==> IsLetter(s[i])
  }

  // ---------------------------------------------------------------------
  // toCamel / toSnake
  // ---------------------------------------------------------------------

  /** A match of `[-_][a-z]` with the `i` flag starts at `i`. */
  predicate CamelPairAt(s: string, i: int) {
    0 <= i && i + 1 < |s| && IsSeparator(s[i]) && IsLetter(s[i + 1])
  }

  /** A global replace scans left to right: at a match the separator is
      dropped and the letter upper-cased, and scanning resumes after it. */
  function ToCamel(s: string): string
    decreases |s|
  {
    if s == [] then []
    else if CamelPairAt(s, 0) then [Upper(s[1])] + ToCamel(s[2..])
    else [s[0]] + ToCamel(s[1..])
  }

  /** Shifting the scan by one character shifts the match positions. */
  lemma CamelPairShift(s: string)
    requires s != []
    ensures (forall i :: 0 <= i < |s| ==> !CamelPairAt(s, i)) <==>
            !CamelPairAt(s, 0) && forall i :: 0 <= i < |s[1..]| ==> !CamelPairAt(s[1..], i)
  {
    assert forall i :: 0 <= i < |s| - 1 ==> (CamelPairAt(s, i + 1) <==> CamelPairAt(s[1..], i));
    if !CamelPairAt(s, 0) && forall i :: 0 <= i < |s[1..]| ==> !CamelPairAt(s[1..], i) {
      forall i | 0 <= i < |s| ensures !CamelPairAt(s, i) {
        if i > 0 { assert !CamelPairAt(s[1..], i - 1); }
      }
    }
  }

  /** The result is never longer; it has the same length exactly when there
      is no match, and then it is the input itself. */
  lemma {:induction false} ToCamelShortens(s: string)
    ensures |ToCamel(s)| <= |s|
    ensures |ToCamel(s)| == |s| <==> forall i :: 0 <= i < |s| ==> !CamelPairAt(s, i)
    ensures (forall i :: 0 <= i < |s| ==> !CamelPairAt(s, i)) ==> ToCamel(s) == s
    decreases |s|
  {
    if s != [] {
      CamelPairShift(s);
      if CamelPairAt(s, 0) {
        ToCamelShortens(s[2..]);
      } else {
        ToCamelShortens(s[1..]);
        assert s == [s[0]] + s[1..];
      }
    }
  }

  /** A match of `([a-z])([^a-z])` (no `i` flag) starts at `i`. */
  predicate SnakePairAt(s: string, i: int) {
    0 <= i && i + 1 < |s| && IsLower(s[i]) && !IsLower(s[i + 1])
  }

  /** Each match becomes the letter, an underscore and the second character
      lower-cased; scanning resumes after the match. */
  function ToSnake(s: string): string
    decreases |s|
  {
    if s == [] then []
    else if SnakePairAt(s, 0) then [s[0], '_', Lower(s[1])] + ToSnake(s[2..])
    else [s[0]] + ToSnake(s[1..])
  }

  lemma SnakePairShift(s: string)
    requires s != []
    ensures (forall i :: 0 <= i < |s| ==> !SnakePairAt(s, i)) <==>
            !SnakePairAt(s, 0) && forall i :: 0 <= i < |s[1..]| ==> !SnakePairAt(s[1..], i)
  {
    assert forall i :: 0 <= i < |s| - 1 ==> (SnakePairAt(s, i + 1) <==> SnakePairAt(s[1..], i));
    if !SnakePairAt(s, 0) && forall i :: 0 <= i < |s[1..]| ==> !SnakePairAt(s[1..], i) {
      forall i | 0 <= i < |s| ensures !SnakePairAt(s, i) {
        if i > 0 { assert !SnakePairAt(s[1..], i - 1); }
      }
    }
  }

  /** The result is never shorter; it has the same length exactly when
      there is no match, and then it is the input itself. */
  lemma {:induction false} ToSnakeLengthens(s: string)
    ensures |ToSnake(s)| >= |s|
    ensures |ToSnake(s)| == |s| <==> forall i :: 0 <= i < |s| ==> !SnakePairAt(s, i)
    ensures (forall i :: 0 <= i < |s| ==> !SnakePairAt(s, i)) ==> ToSnake(s) == s
    decreases |s|
  {
    if s != [] {
      SnakePairShift(s);
      if SnakePairAt(s, 0) {
        ToSnakeLengthens(s[2..]);
      } else {
        ToSnakeLengthens(s[1..]);
        assert s == [s[0]] + s[1..];
      }
    }
  }

  /** A character that is not a separator starts no match. */
  lemma CamelKeepsHead(c: char, x: string)
    requires !IsSeparator(c)
    ensures ToCamel([c] + x) == [c] + ToCamel(x)
  {
    var t := [c] + x;
    assert !CamelPairAt(t, 0);
    assert t[1..] == x;
  }

  /** The underscore written by `toSnake` is consumed again by `toCamel`. */
  lemma CamelUndoesPair(a: char, b: char, x: string)
    requires IsLower(a) && IsUpper(b)
    ensures ToCamel([a, '_', Lower(b)] + x) == [a, b] + ToCamel(x)
  {
    var l := Lower(b);
    var u := ['_', l] + x;
    assert u[0] == '_' && u[1] == l && IsLetter(l);
    assert CamelPairAt(u, 0);
    assert u[2..] == x;
    assert Upper(l) == b;
    assert ToCamel(u) == [b] + ToCamel(x);
    assert [a, '_', l] + x == [a] + u;
    CamelKeepsHead(a, u);
  }

  /** A key made only of ASCII letters comes back from its column name. */
  lemma {:induction false} CamelUndoesSnake(s: string)
    requires AsciiLetters(s)
    ensures ToCamel(ToSnake(s)) == s
    decreases |s|
  {
    if s == [] {
    } else if SnakePairAt(s, 0) {
      var rest := s[2..];
      assert AsciiLetters(rest) by { assert forall i :: 0 <= i < |rest| ==> rest[i] == s[i + 2]; }
      assert IsLetter(s[1]);
      assert ToSnake(s) == [s[0], '_', Lower(s[1])] + ToSnake(rest);
      CamelUndoesSnake(rest);
      CamelUndoesPair(s[0], s[1], ToSnake(rest));
      assert s == [s[0], s[1]] + rest;
    } else {
      var rest := s[1..];
      assert AsciiLetters(rest) by { assert forall i :: 0 <= i < |rest| ==> rest[i] == s[i + 1]; }
      assert IsLetter(s[0]);
      assert ToSnake(s) == [s[0]] + ToSnake(rest);
      CamelUndoesSnake(rest);
      CamelKeepsHead(s[0], ToSnake(rest));
      assert s == [s[0]] + rest;
    }
  }

  // ---------------------------------------------------------------------
  // keysToCamel
  // ---------------------------------------------------------------------

  /** Successive property writes `n[k] = v` into `acc`. */
  function FoldPut(acc: seq<(string, Json)>, pairs: seq<(string, Json)>): seq<(string, Json)>
    decreases |pairs|
  {
    if pairs == [] then acc else FoldPut(Put(acc, pairs[0].0, pairs[0].1), pairs[1..])
  }

  /** Dates are objects without own keys and become `{}`; objects get every
      key renamed and every value converted; arrays are mapped; anything
      else is returned as it is. */
  function KeysToCamel(o: Json): (r: Json)
    ensures o.JArray? ==> r.JArray? && |r.items| == |o.items|
                          && forall i :: 0 <= i < |o.items| ==> r.items[i] == KeysToCamel(o.items[i])
    ensures o.JDate? ==> r == JObject([])
    ensures o.JObject? ==> r.JObject?
    ensures !(o.JObject? || o.JArray? || o.JDate?) ==> r == o
    decreases o
  {
    match o
    case JObject(entries) =>
      JObject(FoldPut([], seq(|entries|, i requires 0 <= i < |entries| =>
                                (ToCamel(entries[i].0), KeysToCamel(entries[i].1)))))
    case JArray(items) =>
      JArray(seq(|items|, i requires 0 <= i < |items| => KeysToCamel(items[i])))
    case JDate(_) => JObject([])
    case _ => o
  }

  /** The `forEach` that fills a fresh object, and the `map` over arrays. */
  method CamelizeKeys(o: Json) returns (r: Json)
    ensures r == KeysToCamel(o)
    decreases o, 1
  {
    match o {
      case JObject(entries) =>
        var n := CamelizeEntries(entries);
        r := JObject(n);
      case JArray(items) =>
        var mapped := CamelizeItems(items);
        r := JArray(mapped);
      case JDate(_) =>
        r := JObject([]);
      case _ =>
        r := o;
    }
  }

  /** The object branch: each key renamed and written into a fresh object. */
  method CamelizeEntries(entries: seq<(string, Json)>) returns (n: seq<(string, Json)>)
    ensures JObject(n) == KeysToCamel(JObject(entries))
    decreases JObject(entries), 0
  {
    ghost var pairs := seq(|entries|, i requires 0 <= i < |entries| =>
                             (ToCamel(entries[i].0), KeysToCamel(entries[i].1)));
    n := [];
    for i := 0 to |entries|
      invariant FoldPut([], pairs) == FoldPut(n, pairs[i..])
    {
      var v := CamelizeKeys(entries[i].1);
      assert pairs[i..][1..] == pairs[i + 1..];
      n := Put(n, ToCamel(entries[i].0), v);
    }
  }

  /** The array branch: every element converted, in order. */
  method CamelizeItems(items: seq<Json>) returns (mapped: seq<Json>)
    ensures JArray(mapped) == KeysToCamel(JArray(items))
    decreases JArray(items), 0
  {
    mapped := [];
    for i := 0 to |items|
      invariant |mapped| == i
      invariant forall j :: 0 <= j < i ==> mapped[j] == KeysToCamel(items[j])
    {
      var v := CamelizeKeys(items[i]);
      mapped := mapped + [v];
    }
  }

  /** The keys written by the fold: those already there, then the new ones. */
  lemma {:induction false} FoldPutKeys(acc: seq<(string, Json)>, pairs: seq<(string, Json)>, k: string)
    ensures k in Keys(FoldPut(acc, pairs)) <==> k in Keys(acc) || k in Keys(pairs)
    decreases |pairs|
  {
    if pairs != [] {
      var next := Put(acc, pairs[0].0, pairs[0].1);
      FoldPutKeys(next, pairs[1..], k);
      KeysCons(pairs);
      PutKeys(acc, pairs[0].0, pairs[0].1, k);
    }
  }

  /** A key the fold does not write keeps its old value. */
  lemma {:induction false} FoldPutUntouched(acc: seq<(string, Json)>, pairs: seq<(string, Json)>, k: string)
    requires forall i :: 0 <= i < |pairs| ==> pairs[i].0 != k
    ensures Get(FoldPut(acc, pairs), k) == Get(acc, k)
    decreases |pairs|
  {
    if pairs != [] {
      PutOther(acc, pairs[0].0, pairs[0].1, k);
      FoldPutUntouched(Put(acc, pairs[0].0, pairs[0].1), pairs[1..], k);
    }
  }

  /** The first write of a key no later write repeats is the one read. */
  lemma FoldPutFirstLast(acc: seq<(string, Json)>, pairs: seq<(string, Json)>)
    requires pairs != []
    requires forall j :: 0 < j < |pairs| ==> pairs[j].0 != pairs[0].0
    ensures Get(FoldPut(acc, pairs), pairs[0].0) == pairs[0].1
  {
    var tail := pairs[1..];
    forall j | 0 <= j < |tail|
      ensures tail[j].0 != pairs[0].0
    {
      assert tail[j] == pairs[j + 1];
    }
    FoldPutUntouched(Put(acc, pairs[0].0, pairs[0].1), tail, pairs[0].0);
  }

  /** Folding two lists laid end to end folds the first, then the second. */
  lemma {:induction false} FoldPutAppend(acc: seq<(string, Json)>, a: seq<(string, Json)>, b: seq<(string, Json)>)
    ensures FoldPut(acc, a + b) == FoldPut(FoldPut(acc, a), b)
    decreases |a|
  {
    if a == [] {
      assert a + b == b;
    } else {
      assert (a + b)[0] == a[0] && (a + b)[1..] == a[1..] + b;
      FoldPutAppend(Put(acc, a[0].0, a[0].1), a[1..], b);
    }
  }

  /** A written key holds the value of its last write. */
  lemma FoldPutLast(acc: seq<(string, Json)>, pairs: seq<(string, Json)>, i: nat)
    requires i < |pairs|
    requires forall j :: i < j < |pairs| ==> pairs[j].0 != pairs[i].0
    ensures Get(FoldPut(acc, pairs), pairs[i].0) == pairs[i].1
  {
    var rest := pairs[i..];
    assert pairs == pairs[..i] + rest;
    FoldPutAppend(acc, pairs[..i], rest);
    forall j | 0 < j < |rest|
      ensures rest[j].0 != rest[0].0
    {
      assert rest[j] == pairs[i + j];
    }
    FoldPutFirstLast(FoldPut(acc, pairs[..i]), rest);
  }

  lemma {:induction false} FoldPutUnique(acc: seq<(string, Json)>, pairs: seq<(string, Json)>)
    requires UniqueKeys(acc)
    ensures UniqueKeys(FoldPut(acc, pairs))
    decreases |pairs|
  {
    if pairs != [] {
      PutKeepsUnique(acc, pairs[0].0, pairs[0].1);
      FoldPutUnique(Put(acc, pairs[0].0, pairs[0].1), pairs[1..]);
    }
  }

  /** One key of a renamed object: present exactly when some old key
      has it as its camelCase form. */
  lemma CamelObjectKey(entries: seq<(string, Json)>, k: string)
    ensures k in Keys(KeysToCamel(JObject(entries)).entries) <==>
              exists i :: 0 <= i < |entries| && ToCamel(entries[i].0) == k
  {
    var pairs := seq(|entries|, i requires 0 <= i < |entries| =>
                       (ToCamel(entries[i].0), KeysToCamel(entries[i].1)));
    var names := seq(|entries|, i requires 0 <= i < |entries| => ToCamel(entries[i].0));
    assert KeysToCamel(JObject(entries)).entries == FoldPut([], pairs);
    assert Keys(pairs) == names;
    FoldPutKeys([], pairs, k);
    if exists i :: 0 <= i < |entries| && ToCamel(entries[i].0) == k {
      var i :| 0 <= i < |entries| && ToCamel(entries[i].0) == k;
      assert names[i] == k;
    }
    if k in names {
      var i :| 0 <= i < |names| && names[i] == k;
      assert ToCamel(entries[i].0) == k;
    }
  }

  /** Renaming an object: the keys are exactly the camelCase forms of the
      old keys, each at most once; the value under a new key is the
      converted value of the last old key with that camelCase form. */
  lemma CamelObject(entries: seq<(string, Json)>)
    ensures KeysToCamel(JObject(entries)).JObject?
    ensures UniqueKeys(KeysToCamel(JObject(entries)).entries)
    ensures forall k :: k in Keys(KeysToCamel(JObject(entries)).entries) <==>
              exists i :: 0 <= i < |entries| && ToCamel(entries[i].0) == k
    ensures forall i :: (0 <= i < |entries|
                         && forall j :: i < j < |entries| ==> ToCamel(entries[j].0) != ToCamel(entries[i].0)) ==>
              Get(KeysToCamel(JObject(entries)).entries, ToCamel(entries[i].0)) == KeysToCamel(entries[i].1)
  {
    var pairs := seq(|entries|, i requires 0 <= i < |entries| =>
                       (ToCamel(entries[i].0), KeysToCamel(entries[i].1)));
    var r := FoldPut([], pairs);
    assert KeysToCamel(JObject(entries)) == JObject(r);
    FoldPutUnique([], pairs);
    forall k
      ensures k in Keys(r) <==> exists i :: 0 <= i < |entries| && ToCamel(entries[i].0) == k
    {
      CamelObjectKey(entries, k);
    }
    forall i | 0 <= i < |entries|
        && (forall j :: i < j < |entries| ==> ToCamel(entries[j].0) != ToCamel(entries[i].0))
      ensures Get(r, ToCamel(entries[i].0)) == KeysToCamel(entries[i].1)
    {
      FoldPutLast([], pairs, i);
    }
  }

  // ---------------------------------------------------------------------
  // fields, values, fieldsEqualValues, fieldsAsCamel
  // ---------------------------------------------------------------------

  /** `Array.prototype.join`. */
  function Join(parts: seq<string>, sep: string): string
    decreases |parts|
  {
    if parts == [] then ""
    else if |parts| == 1 then parts[0]
    else parts[0] + sep + Join(parts[1..], sep)
  }

  /** The snake_case column of every key, in key order. */
  function Columns(entries: seq<(string, Json)>): (cs: seq<string>)
    ensures |cs| == |entries|
    ensures forall i :: 0 <= i < |entries| ==> cs[i] == ToSnake(entries[i].0)
  {
    seq(|entries|, i requires 0 <= i < |entries| => ToSnake(entries[i].0))
  }

  /** `fields`: the column list of an INSERT. */
  function Fields(entries: seq<(string, Json)>): string {
    Join(Columns(entries), ", ")
  }

  /** The column list lines up with `values` one for one, and a row read
      back under these columns gets its original keys from `keysToCamel`. */
  lemma ColumnsMatchKeys(entries: seq<(string, Json)>)
    requires forall i :: 0 <= i < |entries| ==> AsciiLetters(entries[i].0)
    ensures |Columns(entries)| == |Values(entries)|
    ensures forall i :: 0 <= i < |entries| ==> ToCamel(Columns(entries)[i]) == entries[i].0
  {
    forall i | 0 <= i < |entries|
      ensures ToCamel(Columns(entries)[i]) == entries[i].0
    {
      CamelUndoesSnake(entries[i].0);
    }
  }

  /** `fieldsEqualValues`: one `column = value` assignment per key whose
      value is not `undefined`, in key order. */
  function Assignments(entries: seq<(string, Json)>): (r: seq<(string, Json)>)
    ensures |r| <= |entries|
    ensures forall j :: 0 <= j < |r| ==>
              (r[j].1 != JUndefined
               && exists i :: 0 <= i < |entries| && r[j] == (ToSnake(entries[i].0), entries[i].1))
    ensures forall i :: 0 <= i < |entries| && entries[i].1 != JUndefined ==>
              (ToSnake(entries[i].0), entries[i].1) in r
    decreases |entries|
  {
    if entries == [] then []
    else
      var rest := Assignments(entries[1..]);
      assert forall i :: 1 <= i < |entries| ==> entries[i] == entries[1..][i - 1];
      if entries[0].1 == JUndefined then rest
      else [(ToSnake(entries[0].0), entries[0].1)] + rest
  }

  /** The assignments of two record parts are those of the first part
      followed by those of the second: the filter keeps key order. */
  lemma {:induction false} AssignmentsAppend(a: seq<(string, Json)>, b: seq<(string, Json)>)
    ensures Assignments(a + b) == Assignments(a) + Assignments(b)
    decreases |a|
  {
    if a != [] {
      assert (a + b)[0] == a[0] && (a + b)[1..] == a[1..] + b;
      AssignmentsAppend(a[1..], b);
    } else {
      assert a + b == b;
    }
  }

  /** One property gives one assignment exactly when its value is defined. */
  lemma AssignmentsOne(k: string, v: Json)
    ensures Assignments([(k, v)]) == if v == JUndefined then [] else [(ToSnake(k), v)]
  {
    assert [(k, v)][1..] == [];
  }

  /** An UPDATE has nothing to set exactly when the record has no defined
      property. */
  lemma NothingToSet(entries: seq<(string, Json)>)
    ensures Assignments(entries) == [] <==> !HasDefinedProperties(entries)
  {
    if HasDefinedProperties(entries) {
      var i :| 0 <= i < |entries| && entries[i].1 != JUndefined;
      assert (ToSnake(entries[i].0), entries[i].1) in Assignments(entries);
    }
  }

  predicate Distinct(xs: seq<string>) {
    forall i, j :: 0 <= i < j < |xs| ==> xs[i] != xs[j]
  }

  /** Map construction from `[p, snake(p)]` pairs: a repeated parameter
      keeps the position of its first occurrence. */
  function DedupFrom(seen: seq<string>, xs: seq<string>): (r: seq<string>)
    ensures forall x :: x in r <==> x in seen || x in xs
    ensures |seen| <= |r| && r[..|seen|] == seen
    ensures Distinct(seen) ==> Distinct(r)
    ensures Distinct(seen + xs) ==> r == seen + xs
    decreases |xs|
  {
    if xs == [] then
      assert seen + xs == seen;
      seen
    else if xs[0] in seen then
      assert !Distinct(seen + xs) by {
        var k :| 0 <= k < |seen| && seen[k] == xs[0];
        assert (seen + xs)[k] == (seen + xs)[|seen|];
      }
      DedupFrom(seen, xs[1..])
    else
      var r := DedupFrom(seen + [xs[0]], xs[1..]);
      assert r[..|seen|] == (seen + [xs[0]])[..|seen|];
      assert (seen + [xs[0]]) + xs[1..] == seen + xs;
      r
  }

  function Dedup(xs: seq<string>): seq<string> {
    DedupFrom([], xs)
  }

  function Alias(p: string): string {
    ToSnake(p) + " AS \"" + p + "\""
  }

  /** `fieldsAsCamel`: `snake(p) AS "p"` for every distinct parameter. */
  function FieldsAsCamel(params: seq<string>): string {
    var d := Dedup(params);
    Join(seq(|d|, i requires 0 <= i < |d| => Alias(d[i])), ", ")
  }

  lemma {:induction false} DedupFromSnoc(seen: seq<string>, xs: seq<string>, p: string)
    requires p in seen || p in xs
    ensures DedupFrom(seen, xs + [p]) == DedupFrom(seen, xs)
    decreases |xs|
  {
    if xs == [] {
      assert xs + [p] == [p];
      assert DedupFrom(seen, [p]) == DedupFrom(seen, [p][1..]);
    } else {
      assert (xs + [p])[0] == xs[0];
      assert (xs + [p])[1..] == xs[1..] + [p];
      if xs[0] in seen {
        DedupFromSnoc(seen, xs[1..], p);
      } else {
        DedupFromSnoc(seen + [xs[0]], xs[1..], p);
      }
    }
  }

  /** A parameter not listed before goes at the end: the map keeps
      first-insertion order. */
  lemma {:induction false} NewParameterAppended(seen: seq<string>, xs: seq<string>, p: string)
    requires p !in seen && p !in xs
    ensures DedupFrom(seen, xs + [p]) == DedupFrom(seen, xs) + [p]
    decreases |xs|
  {
    if xs == [] {
      assert xs + [p] == [p] && [p][1..] == [];
    } else {
      assert (xs + [p])[0] == xs[0];
      assert (xs + [p])[1..] == xs[1..] + [p];
      if xs[0] in seen {
        NewParameterAppended(seen, xs[1..], p);
      } else {
        NewParameterAppended(seen + [xs[0]], xs[1..], p);
      }
    }
  }

  /** Listing a parameter again changes nothing; the list is duplicate-free
      and names exactly the parameters. */
  lemma RepeatedParameterIgnored(params: seq<string>, p: string)
    requires p in params
    ensures FieldsAsCamel(params + [p]) == FieldsAsCamel(params)
    ensures Distinct(Dedup(params))
    ensures forall x :: x in Dedup(params) <==> x in params
  {
    DedupFromSnoc([], params, p);
  }
}
