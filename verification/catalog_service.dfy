/** Catalogs: creation of a catalog with its items and the selections that
    link them, lookup by id, and lookup by location through the location
    candidates in priority order. The three tables are sequences of rows;
    ids and the clock reading are parameters. */
module CatalogService {
  import opened Wrappers
  import opened Json
  import LocationService

  /** The price units of an item; an item created here always gets USD. */
  datatype PriceUnit = USD | OtherUnit(code: string)

  datatype Catalog = Catalog(
    catalogId: string,
    vendorId: string,
    name: string,
    kind: string,
    locationId: string,
    createdDate: int,
    updatedDate: int)

  datatype CatalogItem = CatalogItem(
    catalogItemId: string,
    vendorId: string,
    kind: string,
    name: string,
    price: real,
    priceUnit: PriceUnit,
    details: Option<Json>,
    createdDate: int,
    updatedDate: int)

  datatype Selection = Selection(catalogSelectionId: string, catalogId: string, catalogItemId: string)

  datatype Store = Store(catalogs: seq<Catalog>, items: seq<CatalogItem>, selections: seq<Selection>)

  datatype ItemRequest = ItemRequest(kind: string, name: string, price: real, details: Option<Json>)

  /** `items` is optional in the request. */
  datatype CatalogRequest = CatalogRequest(name: string, kind: string, locationId: string,
                                           items: Option<seq<ItemRequest>>)

  datatype CatalogResponse = CatalogResponse(catalog: Catalog, items: seq<CatalogItem>)

  /** The message of the TypeError `items.map` throws when `items` is undefined. */
  const ItemsTypeError := "Cannot read properties of undefined (reading 'map')"

  // ---------------------------------------------------------------------
  // The catalog query: every filter is applied only when it is non-empty
  // ---------------------------------------------------------------------

  datatype CatalogFilter = CatalogFilter(catalogId: string, locationId: string)

  predicate CatalogMatches(c: Catalog, f: CatalogFilter, vendorId: string) {
    c.vendorId == vendorId
    && (f.catalogId == "" || c.catalogId == f.catalogId)
    && (f.locationId == "" || c.locationId == f.locationId)
  }

  /** The first row of the query result, or null. */
  function GetCatalog(catalogs: seq<Catalog>, f: CatalogFilter, vendorId: string): (r: Option<Catalog>)
    ensures r.None? <==> forall i :: 0 <= i < |catalogs| ==> !CatalogMatches(catalogs[i], f, vendorId)
    ensures r.Some? ==> exists i :: 0 <= i < |catalogs| && catalogs[i] == r.value
                          && CatalogMatches(r.value, f, vendorId)
                          && forall j :: 0 <= j < i ==> !CatalogMatches(catalogs[j], f, vendorId)
    decreases |catalogs|
  {
    if catalogs == [] then None
    else if CatalogMatches(catalogs[0], f, vendorId) then Some(catalogs[0])
    else
      var r := GetCatalog(catalogs[1..], f, vendorId);
      assert forall i :: 1 <= i < |catalogs| ==> catalogs[i] == catalogs[1..][i - 1];
      if r.Some? then
        var i :| 0 <= i < |catalogs[1..]| && catalogs[1..][i] == r.value && CatalogMatches(r.value, f, vendorId)
                  && forall j :: 0 <= j < i ==> !CatalogMatches(catalogs[1..][j], f, vendorId);
        assert catalogs[i + 1] == r.value;
        r
      else r
  }

  /** `getCatalogById`: the vendor's catalog with that id. An empty id
      filters nothing and yields the vendor's first catalog. */
  function GetCatalogById(store: Store, catalogId: string, vendorId: string): (r: Option<Catalog>)
    ensures r.Some? ==> r.value in store.catalogs && r.value.vendorId == vendorId
    ensures r.Some? && catalogId != "" ==> r.value.catalogId == catalogId
    ensures r.None? <==> forall c :: c in store.catalogs ==>
                           c.vendorId != vendorId || (catalogId != "" && c.catalogId != catalogId)
  {
    GetCatalog(store.catalogs, CatalogFilter(catalogId, ""), vendorId)
  }

  /** With unique catalog ids, the lookup returns exactly the row with that id. */
  lemma GetCatalogByIdFindsRow(store: Store, c: Catalog, vendorId: string)
    requires forall i, j :: 0 <= i < j < |store.catalogs| ==> store.catalogs[i].catalogId != store.catalogs[j].catalogId
    requires c in store.catalogs && c.catalogId != "" && c.vendorId == vendorId
    ensures GetCatalogById(store, c.catalogId, vendorId) == Some(c)
  {
    var r := GetCatalogById(store, c.catalogId, vendorId);
    var k :| 0 <= k < |store.catalogs| && store.catalogs[k] == c;
    assert CatalogMatches(store.catalogs[k], CatalogFilter(c.catalogId, ""), vendorId);
    var i :| 0 <= i < |store.catalogs| && store.catalogs[i] == r.value
               && CatalogMatches(r.value, CatalogFilter(c.catalogId, ""), vendorId);
  }

  // ---------------------------------------------------------------------
  // getCatalogByLocation
  // ---------------------------------------------------------------------

  /** A candidate is looked at only when it resolves to a non-empty id. */
  predicate Usable(candidate: Option<string>) {
    candidate.Some? && candidate.value != ""
  }

  /** The vendor's first catalog at the candidate location. */
  function CatalogAt(catalogs: seq<Catalog>, candidate: Option<string>, vendorId: string): (r: Option<Catalog>)
    requires Usable(candidate)
    ensures r.Some? ==> r.value in catalogs && r.value.locationId == candidate.value && r.value.vendorId == vendorId
  {
    GetCatalog(catalogs, CatalogFilter("", candidate.value), vendorId)
  }

  /** Candidate `i` yields a catalog and every usable candidate before it
      yields none. */
  predicate FoundAt(candidates: seq<Option<string>>, catalogs: seq<Catalog>, vendorId: string, i: int) {
    0 <= i < |candidates| && Usable(candidates[i]) && CatalogAt(catalogs, candidates[i], vendorId).Some?
    && forall j :: 0 <= j < i && Usable(candidates[j]) ==> CatalogAt(catalogs, candidates[j], vendorId).None?
  }

  /** The catalog of the first usable candidate that has one, or null. */
  function FirstCatalog(candidates: seq<Option<string>>, catalogs: seq<Catalog>, vendorId: string)
    : (r: Option<Catalog>)
    ensures r.None? <==> forall i :: 0 <= i < |candidates| && Usable(candidates[i]) ==>
                           CatalogAt(catalogs, candidates[i], vendorId).None?
    ensures r.Some? ==> exists i :: FoundAt(candidates, catalogs, vendorId, i)
                                    && r == CatalogAt(catalogs, candidates[i], vendorId)
    decreases |candidates|
  {
    if candidates == [] then None
    else
      var rest := FirstCatalog(candidates[1..], catalogs, vendorId);
      var tail := candidates[1..];
      assert forall i :: 0 <= i < |tail| ==> tail[i] == candidates[i + 1];
      if Usable(candidates[0]) && CatalogAt(catalogs, candidates[0], vendorId).Some? then
        assert FoundAt(candidates, catalogs, vendorId, 0);
        CatalogAt(catalogs, candidates[0], vendorId)
      else if rest.Some? then
        var i :| FoundAt(tail, catalogs, vendorId, i) && rest == CatalogAt(catalogs, tail[i], vendorId);
        assert FoundAt(candidates, catalogs, vendorId, i + 1) by {
          forall j | 0 <= j < i + 1 && Usable(candidates[j])
            ensures CatalogAt(catalogs, candidates[j], vendorId).None?
          {
            if j > 0 { assert candidates[j] == tail[j - 1]; }
          }
        }
        rest
      else rest
  }

  /** One step of the walk: the first candidate decides, or the rest do. */
  lemma FirstCatalogStep(candidates: seq<Option<string>>, catalogs: seq<Catalog>, vendorId: string)
    requires candidates != []
    ensures FirstCatalog(candidates, catalogs, vendorId)
            == if Usable(candidates[0]) && CatalogAt(catalogs, candidates[0], vendorId).Some?
               then CatalogAt(catalogs, candidates[0], vendorId)
               else FirstCatalog(candidates[1..], catalogs, vendorId)
  {
  }

  /** Once a candidate yields a catalog, the candidates after it do not
      matter. */
  lemma {:induction false} LaterCandidatesIgnored(candidates: seq<Option<string>>, later: seq<Option<string>>,
                                                  catalogs: seq<Catalog>, vendorId: string)
    requires FirstCatalog(candidates, catalogs, vendorId).Some?
    ensures FirstCatalog(candidates + later, catalogs, vendorId) == FirstCatalog(candidates, catalogs, vendorId)
    decreases |candidates|
  {
    assert (candidates + later)[0] == candidates[0];
    assert (candidates + later)[1..] == candidates[1..] + later;
    FirstCatalogStep(candidates, catalogs, vendorId);
    FirstCatalogStep(candidates + later, catalogs, vendorId);
    if !(Usable(candidates[0]) && CatalogAt(catalogs, candidates[0], vendorId).Some?) {
      LaterCandidatesIgnored(candidates[1..], later, catalogs, vendorId);
    }
  }

  /** A location of the vendor that has no catalog of its own falls back
      to the catalog of its combination. */
  lemma MemberFallsBackToCombination(store: Store, locations: LocationService.Table, l: LocationService.Location,
                                     vendorId: string)
    requires LocationService.UniqueIds(locations) && l in locations
    requires l.locationId != "" && l.kind == LocationService.Individual && l.vendorId == vendorId
    requires Usable(l.combinationId)
    requires CatalogAt(store.catalogs, Some(l.locationId), vendorId).None?
    requires CatalogAt(store.catalogs, l.combinationId, vendorId).Some?
    ensures FirstCatalog(LocationService.PrioritizedLocations(locations, l.locationId, vendorId), store.catalogs, vendorId)
            == CatalogAt(store.catalogs, l.combinationId, vendorId)
  {
    LocationService.LookupById(locations, l, LocationService.Individual, vendorId);
    var cands := LocationService.PrioritizedLocations(locations, l.locationId, vendorId);
    assert cands[0] == Some(l.locationId) && cands[1] == l.combinationId;
    assert cands[1..][1..] == cands[2..];
  }

  /** When neither the location itself nor its combination yields a
      catalog of the vendor, the vendor's first Global location decides:
      its catalog, or null when the vendor has no Global location. */
  lemma FallsBackToGlobal(store: Store, locations: LocationService.Table, locationId: string, vendorId: string)
    requires var c := LocationService.PrioritizedLocations(locations, locationId, vendorId);
             (!Usable(c[0]) || CatalogAt(store.catalogs, c[0], vendorId).None?)
             && (!Usable(c[1]) || CatalogAt(store.catalogs, c[1], vendorId).None?)
    ensures var c := LocationService.PrioritizedLocations(locations, locationId, vendorId);
            FirstCatalog(c, store.catalogs, vendorId)
            == if Usable(c[2]) then CatalogAt(store.catalogs, c[2], vendorId) else None
    ensures var c := LocationService.PrioritizedLocations(locations, locationId, vendorId);
            c[2].Some? ==> exists g :: g in locations && g.kind == LocationService.Global
                                       && (vendorId == "" || g.vendorId == vendorId) && c[2] == Some(g.locationId)
  {
    var c := LocationService.PrioritizedLocations(locations, locationId, vendorId);
    FirstCatalogStep(c, store.catalogs, vendorId);
    FirstCatalogStep(c[1..], store.catalogs, vendorId);
    FirstCatalogStep(c[2..], store.catalogs, vendorId);
    assert c[1..][0] == c[1] && c[1..][1..] == c[2..] && c[2..][0] == c[2] && c[2..][1..] == [];
    if c[2].Some? {
      var i :| 0 <= i < |locations| && LocationService.Matches(locations[i], LocationService.GlobalQuery, vendorId)
               && c[2] == Some(locations[i].locationId)
               && forall j :: 0 <= j < i ==> !LocationService.Matches(locations[j], LocationService.GlobalQuery, vendorId);
      assert locations[i] in locations;
    }
  }

  /** `getCatalogByLocation`: walks the location candidates in priority
      order, skips those without an id and returns on the first catalog. */
  method GetCatalogByLocation(store: Store, locations: LocationService.Table, locationId: string, vendorId: string)
    returns (r: Option<Catalog>)
    ensures r == FirstCatalog(LocationService.PrioritizedLocations(locations, locationId, vendorId),
                              store.catalogs, vendorId)
  {
    var checks := LocationService.PrioritizedLocations(locations, locationId, vendorId);
    for i := 0 to |checks|
      invariant FirstCatalog(checks, store.catalogs, vendorId) == FirstCatalog(checks[i..], store.catalogs, vendorId)
    {
      assert checks[i..][0] == checks[i] && checks[i..][1..] == checks[i + 1..];
      FirstCatalogStep(checks[i..], store.catalogs, vendorId);
      var candidate := checks[i];
      if candidate.None? || candidate.value == "" {
        continue;
      }
      var catalog := GetCatalog(store.catalogs, CatalogFilter("", candidate.value), vendorId);
      if catalog.Some? {
        return catalog;
      }
    }
    return None;
  }

  // ---------------------------------------------------------------------
  // createCatalog
  // ---------------------------------------------------------------------

  /** The item row for one request item; the price unit is the entity's
      default because the request's own fields are the only ones copied. */
  function NewItem(req: ItemRequest, id: string, vendorId: string, now: int): (item: CatalogItem)
    ensures item.catalogItemId == id && item.vendorId == vendorId
    ensures item.kind == req.kind && item.name == req.name && item.price == req.price && item.details == req.details
    ensures item.priceUnit == USD
  {
    CatalogItem(id, vendorId, req.kind, req.name, req.price, USD, req.details, now, now)
  }

  function NewItems(reqs: seq<ItemRequest>, itemIds: nat -> string, vendorId: string, now: int)
    : (items: seq<CatalogItem>)
    ensures |items| == |reqs|
    ensures forall i :: 0 <= i < |reqs| ==> items[i] == NewItem(reqs[i], itemIds(i), vendorId, now)
  {
    seq(|reqs|, i requires 0 <= i < |reqs| => NewItem(reqs[i], itemIds(i), vendorId, now))
  }

  function NewSelections(items: seq<CatalogItem>, catalogId: string, selectionIds: nat -> string)
    : (sels: seq<Selection>)
    ensures |sels| == |items|
    ensures forall i :: 0 <= i < |items| ==>
              sels[i] == Selection(selectionIds(i), catalogId, items[i].catalogItemId)
  {
    seq(|items|, i requires 0 <= i < |items| => Selection(selectionIds(i), catalogId, items[i].catalogItemId))
  }

  /** `createCatalog`. The catalog row is written first; a request without
      items then fails on `items.map`, leaving the catalog written.
      Otherwise one item and one selection per request item are written,
      and the response is the catalog with its items in request order. */
  function CreateCatalog(store: Store, req: CatalogRequest, vendorId: string, catalogId: string,
                         itemIds: nat -> string, selectionIds: nat -> string, now: int)
    : (r: (Store, Result<CatalogResponse, string>))
    ensures r.1.Err? <==> req.items.None?
    ensures r.1.Err? ==> r.1.error == ItemsTypeError
    ensures r.0.catalogs == store.catalogs + [Catalog(catalogId, vendorId, req.name, req.kind, req.locationId, now, now)]
    ensures r.1.Err? ==> r.0.items == store.items && r.0.selections == store.selections
    ensures r.1.Ok? ==> var resp := r.1.value;
              resp.catalog == Catalog(catalogId, vendorId, req.name, req.kind, req.locationId, now, now)
              && |resp.items| == |req.items.value|
              && r.0.items == store.items + resp.items
              && r.0.selections == store.selections + NewSelections(resp.items, catalogId, selectionIds)
              && (forall i :: 0 <= i < |resp.items| ==>
                    resp.items[i] == NewItem(req.items.value[i], itemIds(i), vendorId, now))
  {
    var catalog := Catalog(catalogId, vendorId, req.name, req.kind, req.locationId, now, now);
    var withCatalog := store.(catalogs := store.catalogs + [catalog]);
    match req.items
    case None => (withCatalog, Err(ItemsTypeError))
    case Some(reqs) =>
      var items := NewItems(reqs, itemIds, vendorId, now);
      var sels := NewSelections(items, catalogId, selectionIds);
      (withCatalog.(items := store.items + items, selections := store.selections + sels),
       Ok(CatalogResponse(catalog, items)))
  }

  /** The ids of the items a catalog selects, in selection order. */
  function SelectedItemIds(sels: seq<Selection>, catalogId: string): (ids: seq<string>)
    ensures forall id :: id in ids <==> exists s :: s in sels && s.catalogId == catalogId && s.catalogItemId == id
    ensures ids == [] <==> forall s :: s in sels ==> s.catalogId != catalogId
    decreases |sels|
  {
    if sels == [] then []
    else
      var rest := SelectedItemIds(sels[1..], catalogId);
      assert forall s :: s in sels <==> s == sels[0] || s in sels[1..];
      if sels[0].catalogId == catalogId then [sels[0].catalogItemId] + rest else rest
  }

  lemma {:induction false} SelectedItemIdsAppend(a: seq<Selection>, b: seq<Selection>, catalogId: string)
    ensures SelectedItemIds(a + b, catalogId) == SelectedItemIds(a, catalogId) + SelectedItemIds(b, catalogId)
    decreases |a|
  {
    if a == [] {
      assert a + b == b;
    } else {
      assert (a + b)[0] == a[0];
      assert (a + b)[1..] == a[1..] + b;
      SelectedItemIdsAppend(a[1..], b, catalogId);
    }
  }

  function ItemIds(items: seq<CatalogItem>): (ids: seq<string>)
    ensures |ids| == |items| && forall i :: 0 <= i < |items| ==> ids[i] == items[i].catalogItemId
  {
    seq(|items|, i requires 0 <= i < |items| => items[i].catalogItemId)
  }

  lemma {:induction false} NewSelectionsSelectAll(items: seq<CatalogItem>, catalogId: string,
                                                  selectionIds: nat -> string)
    ensures SelectedItemIds(NewSelections(items, catalogId, selectionIds), catalogId) == ItemIds(items)
    decreases |items|
  {
    var sels := NewSelections(items, catalogId, selectionIds);
    if items != [] {
      var front := items[..|items| - 1];
      var frontSels := NewSelections(front, catalogId, selectionIds);
      var last := Selection(selectionIds(|items| - 1), catalogId, items[|items| - 1].catalogItemId);
      assert sels == frontSels + [last];
      NewSelectionsSelectAll(front, catalogId, selectionIds);
      SelectedItemIdsAppend(frontSels, [last], catalogId);
      assert SelectedItemIds([last], catalogId) == [last.catalogItemId] by {
        assert [last][1..] == [];
      }
      assert ItemIds(items) == ItemIds(front) + [items[|items| - 1].catalogItemId];
    }
  }

  /** For a fresh catalog id, the catalog selects exactly the created items,
      in request order. */
  lemma CreatedCatalogSelectsItems(store: Store, req: CatalogRequest, vendorId: string, catalogId: string,
                                   itemIds: nat -> string, selectionIds: nat -> string, now: int)
    requires req.items.Some?
    requires forall s :: s in store.selections ==> s.catalogId != catalogId
    ensures var r := CreateCatalog(store, req, vendorId, catalogId, itemIds, selectionIds, now);
            r.1.Ok? && SelectedItemIds(r.0.selections, catalogId) == ItemIds(r.1.value.items)
  {
    var r := CreateCatalog(store, req, vendorId, catalogId, itemIds, selectionIds, now);
    var items := NewItems(req.items.value, itemIds, vendorId, now);
    var sels := NewSelections(items, catalogId, selectionIds);
    assert r.1.value.items == items && r.0.selections == store.selections + sels;
    SelectedItemIdsAppend(store.selections, sels, catalogId);
    NewSelectionsSelectAll(items, catalogId, selectionIds);
    assert SelectedItemIds(store.selections, catalogId) == [];
  }
}
