/** Locations: single locations, combinations of locations under a parent,
    and the candidate order used to pick a location's catalog. The location
    table is a sequence of rows keyed by `locationId`; writes are upserts on
    that key. Ids and the clock reading are parameters. */
module LocationService {
  import opened Wrappers
  import opened Json
  import opened DefinedProperties

  datatype LocationType = Individual | Combination | Global

  datatype Location = Location(
    locationId: string,
    combinationId: Option<string>,
    kind: LocationType,
    vendorId: string,
    latitude: Option<real>,
    longitude: Option<real>,
    createdDate: int,
    updatedDate: int)

  datatype LocationRequest = LocationRequest(
    locationId: Option<string>,
    latitude: Option<real>,
    longitude: Option<real>)

  type Table = seq<Location>

  predicate UniqueIds(t: Table) {
    forall i, j :: 0 <= i < j < |t| ==> t[i].locationId != t[j].locationId
  }

  /** `vendorId ?? this.vendorId`: an explicit argument wins, even "". */
  function VendorOf(vendorArg: Option<string>, requestVendor: string): (v: string)
    ensures vendorArg.Some? ==> v == vendorArg.value
    ensures vendorArg.None? ==> v == requestVendor
  {
    match vendorArg
    case Some(v) => v
    case None => requestVendor
  }

  // ---------------------------------------------------------------------
  // The table: upsert and lookup
  // ---------------------------------------------------------------------

  /** The row an upsert writes over `prior` on an id conflict. `ON CONFLICT
      (location_id) DO UPDATE SET` assigns only the columns whose new value
      is defined, so a missing combination id or coordinate keeps the stored
      one; every other column, the dates included, takes the new value. */
  function Merge(prior: Location, row: Location): (m: Location)
    ensures m.locationId == row.locationId && m.kind == row.kind && m.vendorId == row.vendorId
    ensures m.createdDate == row.createdDate && m.updatedDate == row.updatedDate
    ensures m.combinationId == if row.combinationId.Some? then row.combinationId else prior.combinationId
    ensures m.latitude == if row.latitude.Some? then row.latitude else prior.latitude
    ensures m.longitude == if row.longitude.Some? then row.longitude else prior.longitude
  {
    row.(combinationId := if row.combinationId.Some? then row.combinationId else prior.combinationId,
         latitude := if row.latitude.Some? then row.latitude else prior.latitude,
         longitude := if row.longitude.Some? then row.longitude else prior.longitude)
  }

  /** The position of the first row with id `id`, or -1 when there is none. */
  function FirstWithId(t: Table, id: string): (k: int)
    ensures -1 <= k < |t|
    ensures k >= 0 ==> t[k].locationId == id
    ensures forall j :: 0 <= j < |t| && (k < 0 || j < k) ==> t[j].locationId != id
    decreases |t|
  {
    if t == [] then -1
    else if t[0].locationId == id then 0
    else
      var k := FirstWithId(t[1..], id);
      assert forall j :: 1 <= j < |t| ==> t[j] == t[1..][j - 1];
      if k < 0 then -1 else k + 1
  }

  /** The row `RETURNING *` gives back: the new row when its id is new, and
      otherwise its merge into the first row with that id. */
  function Stored(t: Table, row: Location): (s: Location)
    ensures (forall i :: 0 <= i < |t| ==> t[i].locationId != row.locationId) ==> s == row
    ensures forall i :: (0 <= i < |t| && t[i].locationId == row.locationId
                         && forall j :: 0 <= j < i ==> t[j].locationId != row.locationId) ==> s == Merge(t[i], row)
    ensures s.locationId == row.locationId && s.kind == row.kind && s.vendorId == row.vendorId
    ensures row.combinationId.Some? ==> s.combinationId == row.combinationId
  {
    var k := FirstWithId(t, row.locationId);
    if k < 0 then row else Merge(t[k], row)
  }

  /** Insert at the end, or merge into the row with the same id in place. */
  function Upsert(t: Table, row: Location): (r: Table)
    ensures Stored(t, row) in r
    ensures forall l :: l in r ==> l == Stored(t, row) || l in t
    ensures forall l :: l in t && l.locationId != row.locationId ==> l in r
  {
    var k := FirstWithId(t, row.locationId);
    if k < 0 then t + [row]
    else
      var r := t[k := Merge(t[k], row)];
      assert r[k] == Stored(t, row);
      assert forall l :: l in t && l.locationId != row.locationId ==> l in r by {
        forall l | l in t && l.locationId != row.locationId ensures l in r {
          var j :| 0 <= j < |t| && t[j] == l;
          assert r[j] == l;
        }
      }
      assert forall l :: l in r ==> l == Stored(t, row) || l in t by {
        forall l | l in r ensures l == Stored(t, row) || l in t {
          var j :| 0 <= j < |r| && r[j] == l;
          if j != k { assert t[j] == l; }
        }
      }
      r
  }

  /** On an id conflict the upsert gives back the stored row merged with
      the new one: columns the new row leaves undefined keep their values. */
  lemma ConflictKeepsUndefinedColumns(t: Table, prior: Location, row: Location)
    requires UniqueIds(t) && prior in t && prior.locationId == row.locationId
    ensures Stored(t, row) == Merge(prior, row)
    ensures Stored(t, row) in Upsert(t, row)
  {
    var k :| 0 <= k < |t| && t[k] == prior;
    assert forall j :: 0 <= j < k ==> t[j].locationId != row.locationId;
  }

  /** Upserting the row an upsert gave back writes the same table. */
  lemma UpsertStored(t: Table, row: Location)
    ensures Upsert(t, Stored(t, row)) == Upsert(t, row)
  {
  }

  /** Upserting keeps the ids unique. */
  lemma UpsertKeepsUnique(t: Table, row: Location)
    requires UniqueIds(t)
    ensures UniqueIds(Upsert(t, row))
  {
    var r := Upsert(t, row);
    var k := FirstWithId(t, row.locationId);
    forall i, j | 0 <= i < j < |r| ensures r[i].locationId != r[j].locationId {
      if k < 0 {
        if j == |t| { assert r[i] == t[i]; }
      } else {
        assert r[i].locationId == t[i].locationId && r[j].locationId == t[j].locationId;
      }
    }
  }

  /** Successive upserts, in order. */
  function UpsertAll(t: Table, rows: seq<Location>): (r: Table)
    ensures UniqueIds(t) ==> UniqueIds(r)
    decreases |rows|
  {
    if rows == [] then t
    else
      var front := UpsertAll(t, rows[..|rows| - 1]);
      assert UniqueIds(front) ==> UniqueIds(Upsert(front, rows[|rows| - 1])) by {
        if UniqueIds(front) { UpsertKeepsUnique(front, rows[|rows| - 1]); }
      }
      Upsert(front, rows[|rows| - 1])
  }

  /** The rows successive upserts give back, one per row written. */
  function StoredAll(t: Table, rows: seq<Location>): (s: seq<Location>)
    ensures |s| == |rows|
    ensures forall i :: 0 <= i < |rows| ==> s[i] == Stored(UpsertAll(t, rows[..i]), rows[i])
  {
    seq(|rows|, i requires 0 <= i < |rows| => Stored(UpsertAll(t, rows[..i]), rows[i]))
  }

  /** Writing one more row extends the successive writes by one step. */
  lemma UpsertAllSnoc(t: Table, rows: seq<Location>, row: Location)
    ensures UpsertAll(t, rows + [row]) == Upsert(UpsertAll(t, rows), row)
    ensures StoredAll(t, rows + [row]) == StoredAll(t, rows) + [Stored(UpsertAll(t, rows), row)]
  {
    var longer := rows + [row];
    assert longer[..|rows|] == rows;
    forall i | 0 <= i < |rows| ensures longer[..i] == rows[..i] && longer[i] == rows[i] { }
  }

  /** The row given back for a write survives the later writes unless one
      of them reuses its id. */
  lemma {:induction false} UpsertAllKeepsLast(t: Table, rows: seq<Location>, i: nat)
    requires i < |rows|
    requires forall j :: i < j < |rows| ==> rows[j].locationId != rows[i].locationId
    ensures Stored(UpsertAll(t, rows[..i]), rows[i]) in UpsertAll(t, rows)
    decreases |rows|
  {
    var front := rows[..|rows| - 1];
    if i < |rows| - 1 {
      assert front[i] == rows[i] && front[..i] == rows[..i];
      UpsertAllKeepsLast(t, front, i);
    } else {
      assert rows[..i] == front;
    }
  }

  /** Every row after successive writes was in the table already or has
      the id of a row written. */
  lemma {:induction false} UpsertAllIds(t: Table, rows: seq<Location>, l: Location)
    requires l in UpsertAll(t, rows)
    ensures l in t || exists j :: 0 <= j < |rows| && rows[j].locationId == l.locationId
    decreases |rows|
  {
    if rows != [] {
      var front := rows[..|rows| - 1];
      if l != Stored(UpsertAll(t, front), rows[|rows| - 1]) {
        UpsertAllIds(t, front, l);
        if l !in t {
          var j :| 0 <= j < |front| && front[j].locationId == l.locationId;
          assert rows[j] == front[j];
        }
      }
    }
  }

  /** A row written under an id that neither the table nor an earlier write
      holds comes back exactly as written. */
  lemma NewIdStoredAsWritten(t: Table, rows: seq<Location>, i: nat)
    requires i < |rows|
    requires forall l :: l in t ==> l.locationId != rows[i].locationId
    requires forall j :: 0 <= j < i ==> rows[j].locationId != rows[i].locationId
    ensures StoredAll(t, rows)[i] == rows[i]
  {
    var before := UpsertAll(t, rows[..i]);
    forall k | 0 <= k < |before| ensures before[k].locationId != rows[i].locationId {
      UpsertAllIds(t, rows[..i], before[k]);
    }
  }

  /** The filter of a location query; an empty id or vendor is no filter. */
  datatype Query = Query(locationId: Option<string>, kind: Option<LocationType>)

  predicate Matches(l: Location, q: Query, vendorId: string) {
    (q.locationId.None? || q.locationId.value == "" || l.locationId == q.locationId.value)
    && (vendorId == "" || l.vendorId == vendorId)
    && (q.kind.None? || l.kind == q.kind.value)
  }

  /** The first row that matches, or null. */
  function GetLocation(t: Table, q: Query, vendorId: string): (r: Option<Location>)
    ensures r.None? <==> forall i :: 0 <= i < |t| ==> !Matches(t[i], q, vendorId)
    ensures r.Some? ==> exists i :: 0 <= i < |t| && t[i] == r.value && Matches(r.value, q, vendorId)
                          && forall j :: 0 <= j < i ==> !Matches(t[j], q, vendorId)
    decreases |t|
  {
    if t == [] then None
    else if Matches(t[0], q, vendorId) then Some(t[0])
    else
      var r := GetLocation(t[1..], q, vendorId);
      assert forall i :: 1 <= i < |t| ==> t[i] == t[1..][i - 1];
      if r.Some? then
        var i :| 0 <= i < |t[1..]| && t[1..][i] == r.value && Matches(r.value, q, vendorId)
                  && forall j :: 0 <= j < i ==> !Matches(t[1..][j], q, vendorId);
        assert t[i + 1] == r.value;
        r
      else r
  }

  /** In a table with unique ids, a lookup by a non-empty id finds the row
      with that id whenever it passes the other filters. */
  lemma LookupById(t: Table, l: Location, kind: LocationType, vendorId: string)
    requires UniqueIds(t) && l in t && l.locationId != ""
    requires l.kind == kind && (vendorId == "" || l.vendorId == vendorId)
    ensures GetLocation(t, Query(Some(l.locationId), Some(kind)), vendorId) == Some(l)
  {
    var q := Query(Some(l.locationId), Some(kind));
    var k :| 0 <= k < |t| && t[k] == l;
    assert Matches(t[k], q, vendorId);
    var r := GetLocation(t, q, vendorId);
    var i :| 0 <= i < |t| && t[i] == r.value && Matches(r.value, q, vendorId)
              && forall j :: 0 <= j < i ==> !Matches(t[j], q, vendorId);
  }

  /** `getLocation` as written: its guard calls `hasDefinedProperties(test)`,
      and `test` is declared nowhere in the data service. `test` is the
      own enumerable entries of whatever global of that name exists: none
      makes the read throw; one without defined values drops the WHERE
      clause, so the first row of the whole table comes back; one with a
      defined value applies the filters. */
  function GetLocationAsWritten(t: Table, q: Query, vendorId: string, test: Option<seq<(string, Json)>>)
    : (r: Result<Option<Location>, string>)
    ensures test.None? ==> r.Err?
    ensures test.Some? && HasDefinedProperties(test.value) ==> r == Ok(GetLocation(t, q, vendorId))
    ensures test.Some? && !HasDefinedProperties(test.value) ==> r == Ok(if t == [] then None else Some(t[0]))
  {
    if test.None? then Err("test is not defined")
    else if HasDefinedProperties(test.value) then Ok(GetLocation(t, q, vendorId))
    else Ok(if t == [] then None else Some(t[0]))
  }

  /** The guard as written goes wrong on a table whose first row is
      another vendor's Global location: without a global `test` the lookup
      throws, and with one that has no defined values it returns the other
      vendor's row, while the filters pick the vendor's own. */
  lemma AsWrittenIgnoresFilters()
    ensures var theirs := Location("g-b", None, Global, "vendor-b", None, None, 0, 0);
            var ours := Location("g-a", None, Global, "vendor-a", None, None, 0, 0);
            var t := [theirs, ours];
            GetLocationAsWritten(t, Query(None, Some(Global)), "vendor-a", None).Err?
            && GetLocationAsWritten(t, Query(None, Some(Global)), "vendor-a", Some([])) == Ok(Some(theirs))
            && GetLocation(t, Query(None, Some(Global)), "vendor-a") == Some(ours)
  {
    var theirs := Location("g-b", None, Global, "vendor-b", None, None, 0, 0);
    var ours := Location("g-a", None, Global, "vendor-a", None, None, 0, 0);
    assert !Matches(theirs, Query(None, Some(Global)), "vendor-a");
    assert !HasDefinedProperties([]);
  }

  // ---------------------------------------------------------------------
  // postLocation
  // ---------------------------------------------------------------------

  /** `postLocation`: Individual when a location request is passed, Global
      when none is; the request's own id is not used. The row given back is
      the one the upsert stored. */
  function PostLocation(t: Table, location: Option<LocationRequest>, vendorArg: Option<string>,
                        requestVendor: string, id: string, now: int): (r: (Table, Location))
    ensures r.1.kind == Individual <==> location.Some?
    ensures r.1.kind == Global <==> location.None?
    ensures r.1.locationId == id
    ensures r.1.vendorId == VendorOf(vendorArg, requestVendor)
    ensures location.Some? && location.value.latitude.Some? ==> r.1.latitude == location.value.latitude
    ensures location.Some? && location.value.longitude.Some? ==> r.1.longitude == location.value.longitude
    ensures (forall i :: 0 <= i < |t| ==> t[i].locationId != id) ==>
              r.1.combinationId.None?
              && r.1.latitude == (if location.Some? then location.value.latitude else None)
              && r.1.longitude == (if location.Some? then location.value.longitude else None)
    ensures r.1 in r.0 && r.0 == Upsert(t, r.1)
    ensures UniqueIds(t) ==> UniqueIds(r.0)
  {
    var row := Location(
      id, None, if location.Some? then Individual else Global, VendorOf(vendorArg, requestVendor),
      if location.Some? then location.value.latitude else None,
      if location.Some? then location.value.longitude else None,
      now, now);
    UpsertStored(t, row);
    assert UniqueIds(t) ==> UniqueIds(Upsert(t, row)) by {
      if UniqueIds(t) { UpsertKeepsUnique(t, row); }
    }
    (Upsert(t, row), Stored(t, row))
  }

  // ---------------------------------------------------------------------
  // postLocationCombination
  // ---------------------------------------------------------------------

  /** The member row built for one request entry. */
  function CombinationItem(entry: LocationRequest, i: nat, parentId: string, vendorId: string,
                           newIds: nat -> string, now: int): (l: Location)
    ensures l.kind == Individual && l.combinationId == Some(parentId) && l.vendorId == vendorId
    ensures l.locationId == if entry.locationId.Some? then entry.locationId.value else newIds(i)
    ensures l.latitude == entry.latitude && l.longitude == entry.longitude
  {
    Location(
      if entry.locationId.Some? then entry.locationId.value else newIds(i),
      Some(parentId), Individual, vendorId, entry.latitude, entry.longitude, now, now)
  }

  /** The existing parent: looked up only for a non-empty combination id,
      as a Combination row of the vendor with that id. */
  function FindParent(t: Table, combinationId: Option<string>, vendorId: string): (r: Option<Location>)
    ensures r.Some? ==> r.value in t && r.value.kind == Combination
                        && combinationId.Some? && r.value.locationId == combinationId.value
  {
    if combinationId.Some? && combinationId.value != ""
    then GetLocation(t, Query(combinationId, Some(Combination)), vendorId)
    else None
  }

  /** The parent row written when none is found. */
  function NewParent(newId: string, vendorId: string, now: int): Location {
    Location(newId, None, Combination, vendorId, None, None, now, now)
  }

  /** The parent a combination uses: the one found, or the row the upsert
      of a new one gives back. */
  function CombinationParent(t: Table, combinationId: Option<string>, vendorId: string,
                             newId: string, now: int): (p: Location)
    ensures p.kind == Combination
    ensures FindParent(t, combinationId, vendorId).None? ==> p.locationId == newId && p.vendorId == vendorId
  {
    var found := FindParent(t, combinationId, vendorId);
    if found.Some? then found.value
    else Stored(t, NewParent(newId, vendorId, now))
  }

  /** The table once the parent is settled: a new parent is written. */
  function ParentTable(t: Table, combinationId: Option<string>, vendorId: string, newId: string, now: int): (r: Table)
    ensures CombinationParent(t, combinationId, vendorId, newId, now) in r
    ensures UniqueIds(t) ==> UniqueIds(r)
  {
    if FindParent(t, combinationId, vendorId).Some? then t
    else
      var parent := NewParent(newId, vendorId, now);
      assert UniqueIds(t) ==> UniqueIds(Upsert(t, parent)) by {
        if UniqueIds(t) { UpsertKeepsUnique(t, parent); }
      }
      Upsert(t, parent)
  }

  /** The first half of `postLocationCombination`: look the parent up when
      a combination id is given, and create it when none is found. */
  method ResolveParent(t: Table, combinationId: Option<string>, vendorId: string, newId: string, now: int)
    returns (base: Table, parent: Location)
    ensures parent == CombinationParent(t, combinationId, vendorId, newId, now)
    ensures base == ParentTable(t, combinationId, vendorId, newId, now)
  {
    var found: Option<Location> := None;
    if combinationId.Some? && combinationId.value != "" {
      found := GetLocation(t, Query(combinationId, Some(Combination)), vendorId);
    }
    if found.None? {
      var row := Location(newId, None, Combination, vendorId, None, None, now, now);
      parent := Stored(t, row);
      base := Upsert(t, row);
    } else {
      parent := found.value;
      base := t;
    }
  }

  /** The member rows of a combination, one per entry, in order. */
  function Members(entries: seq<LocationRequest>, parentId: string, vendorId: string,
                   newIds: nat -> string, now: int): (items: seq<Location>)
    ensures |items| == |entries|
    ensures forall i :: 0 <= i < |entries| ==>
              items[i] == CombinationItem(entries[i], i, parentId, vendorId, newIds, now)
  {
    seq(|entries|, i requires 0 <= i < |entries| => CombinationItem(entries[i], i, parentId, vendorId, newIds, now))
  }

  /** One more entry adds its member at the end. */
  lemma MembersSnoc(entries: seq<LocationRequest>, i: nat, parentId: string, vendorId: string,
                    newIds: nat -> string, now: int)
    requires i < |entries|
    ensures Members(entries[..i + 1], parentId, vendorId, newIds, now)
            == Members(entries[..i], parentId, vendorId, newIds, now)
               + [CombinationItem(entries[i], i, parentId, vendorId, newIds, now)]
  {
    assert entries[..i + 1][i] == entries[i];
    assert forall j :: 0 <= j < i ==> entries[..i + 1][j] == entries[..i][j];
  }

  /** The loop of `postLocationCombination`: one Individual member per
      entry, written in order, each pointing at the parent; the list holds
      the rows the upserts gave back. */
  method WriteMembers(base: Table, entries: seq<LocationRequest>, parentId: string, vendorId: string,
                      newIds: nat -> string, now: int)
    returns (table: Table, items: seq<Location>)
    ensures table == UpsertAll(base, Members(entries, parentId, vendorId, newIds, now))
    ensures items == StoredAll(base, Members(entries, parentId, vendorId, newIds, now))
  {
    table := base;
    items := [];
    for i := 0 to |entries|
      invariant table == UpsertAll(base, Members(entries[..i], parentId, vendorId, newIds, now))
      invariant items == StoredAll(base, Members(entries[..i], parentId, vendorId, newIds, now))
    {
      var entry := entries[i];
      var row := Location(
        if entry.locationId.Some? then entry.locationId.value else newIds(i),
        Some(parentId), Individual, vendorId, entry.latitude, entry.longitude, now, now);
      MembersSnoc(entries, i, parentId, vendorId, newIds, now);
      UpsertAllSnoc(base, Members(entries[..i], parentId, vendorId, newIds, now), row);
      var created := Stored(table, row);
      table := Upsert(table, row);
      items := items + [created];
    }
    assert entries[..|entries|] == entries;
  }

  /** Every row given back for a member is an Individual row of the vendor
      under the member's id and pointing at the parent. */
  lemma StoredMembers(base: Table, entries: seq<LocationRequest>, parentId: string, vendorId: string,
                      newIds: nat -> string, now: int, i: nat)
    requires i < |entries|
    ensures var item := StoredAll(base, Members(entries, parentId, vendorId, newIds, now))[i];
            item.kind == Individual && item.combinationId == Some(parentId) && item.vendorId == vendorId
            && item.locationId == CombinationItem(entries[i], i, parentId, vendorId, newIds, now).locationId
  {
  }

  /** `postLocationCombination`: the parent, then the members. */
  method PostLocationCombination(t: Table, entries: seq<LocationRequest>, combinationId: Option<string>,
                                 vendorArg: Option<string>, requestVendor: string,
                                 newId: string, newIds: nat -> string, now: int)
    returns (table: Table, parent: Location, items: seq<Location>)
    ensures parent == CombinationParent(t, combinationId, VendorOf(vendorArg, requestVendor), newId, now)
    ensures table == UpsertAll(ParentTable(t, combinationId, VendorOf(vendorArg, requestVendor), newId, now),
                               Members(entries, parent.locationId, VendorOf(vendorArg, requestVendor), newIds, now))
    ensures items == StoredAll(ParentTable(t, combinationId, VendorOf(vendorArg, requestVendor), newId, now),
                               Members(entries, parent.locationId, VendorOf(vendorArg, requestVendor), newIds, now))
    ensures UniqueIds(t) ==> UniqueIds(table)
  {
    var vendorId := VendorOf(vendorArg, requestVendor);
    var base;
    base, parent := ResolveParent(t, combinationId, vendorId, newId, now);
    table, items := WriteMembers(base, entries, parent.locationId, vendorId, newIds, now);
  }

  // ---------------------------------------------------------------------
  // getPrioritizedLocations
  // ---------------------------------------------------------------------

  /** The lookup of the location itself among the vendor's Individual rows. */
  function OwnQuery(locationId: string): Query {
    Query(Some(locationId), Some(Individual))
  }

  const GlobalQuery: Query := Query(None, Some(Global))

  /** The three candidates, in order: the location itself if it is one of
      the vendor's Individual locations, the combination of that same row,
      and the vendor's first Global location. */
  function PrioritizedLocations(t: Table, locationId: string, vendorId: string): (r: seq<Option<string>>)
    ensures |r| == 3
    ensures r[0].None? <==> forall i :: 0 <= i < |t| ==> !Matches(t[i], OwnQuery(locationId), vendorId)
    ensures r[0].None? ==> r[1].None?
    ensures r[0].Some? ==> exists i :: 0 <= i < |t| && Matches(t[i], OwnQuery(locationId), vendorId)
                                       && r[0] == Some(t[i].locationId) && r[1] == t[i].combinationId
                                       && forall j :: 0 <= j < i ==> !Matches(t[j], OwnQuery(locationId), vendorId)
    ensures r[2].None? <==> forall i :: 0 <= i < |t| ==> !Matches(t[i], GlobalQuery, vendorId)
    ensures r[2].Some? ==> exists i :: 0 <= i < |t| && Matches(t[i], GlobalQuery, vendorId)
                                       && r[2] == Some(t[i].locationId)
                                       && forall j :: 0 <= j < i ==> !Matches(t[j], GlobalQuery, vendorId)
  {
    var own := GetLocation(t, OwnQuery(locationId), vendorId);
    var global := GetLocation(t, GlobalQuery, vendorId);
    [ if own.Some? then Some(own.value.locationId) else None,
      if own.Some? then own.value.combinationId else None,
      if global.Some? then Some(global.value.locationId) else None ]
  }

  /** With unique ids, an Individual row of the vendor is its own first
      candidate and its combination the second. */
  lemma OwnRowCandidates(t: Table, l: Location, vendorId: string)
    requires UniqueIds(t) && l in t && l.locationId != ""
    requires l.kind == Individual && (vendorId == "" || l.vendorId == vendorId)
    ensures PrioritizedLocations(t, l.locationId, vendorId)[0] == Some(l.locationId)
    ensures PrioritizedLocations(t, l.locationId, vendorId)[1] == l.combinationId
  {
    LookupById(t, l, Individual, vendorId);
  }

  /** A member just written for the request's own vendor is found first
      as itself and then through its combination, provided no later member
      of the same request reuses its id. */
  lemma CombinationMemberCandidates(base: Table, rows: seq<Location>, i: nat, vendorId: string)
    requires UniqueIds(base)
    requires i < |rows| && rows[i].locationId != ""
    requires rows[i].kind == Individual && rows[i].vendorId == vendorId
    requires forall j :: i < j < |rows| ==> rows[j].locationId != rows[i].locationId
    ensures PrioritizedLocations(UpsertAll(base, rows), rows[i].locationId, vendorId)[0] == Some(rows[i].locationId)
    ensures PrioritizedLocations(UpsertAll(base, rows), rows[i].locationId, vendorId)[1] == StoredAll(base, rows)[i].combinationId
    ensures rows[i].combinationId.Some? ==>
              PrioritizedLocations(UpsertAll(base, rows), rows[i].locationId, vendorId)[1] == rows[i].combinationId
  {
    UpsertAllKeepsLast(base, rows, i);
    OwnRowCandidates(UpsertAll(base, rows), StoredAll(base, rows)[i], vendorId);
  }
}
