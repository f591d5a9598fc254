/** Promotions: the creation record and the listing of promotions whose
    window contains the current time. Dates are milliseconds since the
    epoch; the clock and the ids are parameters. */
module PromotionService {
  import opened Wrappers
  import opened Json
  import EffectTypes

  datatype Promotion = Promotion(
    promotionId: string,
    vendorId: string,
    name: string,
    description: Option<string>,
    effectId: Option<string>,
    startDate: int,
    endDate: int,
    menuItemIds: seq<string>,
    createdDate: int,
    updatedDate: int)

  /** `createPromotion`: the request body spread into a new record, then
      the fresh id, the caller's vendor and both dates written over it.
      A key the body already has keeps its place and takes the new value. */
  function CreatePromotion(data: seq<(string, Json)>, id: string, vendorId: string, now: int)
    : (r: seq<(string, Json)>)
    ensures Get(r, "promotionId") == JStr(id)
    ensures Get(r, "vendorId") == JStr(vendorId)
    ensures Get(r, "createdDate") == JDate(now) && Get(r, "updatedDate") == JDate(now)
  {
    var withId := Put(data, "promotionId", JStr(id));
    var withVendor := Put(withId, "vendorId", JStr(vendorId));
    var withCreated := Put(withVendor, "createdDate", JDate(now));
    assert "promotionId" != "vendorId" && "promotionId" != "createdDate" && "promotionId" != "updatedDate";
    assert "vendorId" != "createdDate" && "vendorId" != "updatedDate" && "createdDate" != "updatedDate";
    PutOther(withId, "vendorId", JStr(vendorId), "promotionId");
    PutOther(withVendor, "createdDate", JDate(now), "promotionId");
    PutOther(withVendor, "createdDate", JDate(now), "vendorId");
    PutOther(withCreated, "updatedDate", JDate(now), "promotionId");
    PutOther(withCreated, "updatedDate", JDate(now), "vendorId");
    PutOther(withCreated, "updatedDate", JDate(now), "createdDate");
    Put(withCreated, "updatedDate", JDate(now))
  }

  /** Every other key of the body passes through, and the record still
      holds each key once. */
  lemma CreatePromotionKeepsBody(data: seq<(string, Json)>, id: string, vendorId: string, now: int, k: string)
    requires k != "promotionId" && k != "vendorId" && k != "createdDate" && k != "updatedDate"
    ensures Get(CreatePromotion(data, id, vendorId, now), k) == Get(data, k)
    ensures UniqueKeys(data) ==> UniqueKeys(CreatePromotion(data, id, vendorId, now))
  {
    var withId := Put(data, "promotionId", JStr(id));
    var withVendor := Put(withId, "vendorId", JStr(vendorId));
    var withCreated := Put(withVendor, "createdDate", JDate(now));
    assert CreatePromotion(data, id, vendorId, now) == Put(withCreated, "updatedDate", JDate(now));
    PutOther(data, "promotionId", JStr(id), k);
    PutOther(withId, "vendorId", JStr(vendorId), k);
    PutOther(withVendor, "createdDate", JDate(now), k);
    PutOther(withCreated, "updatedDate", JDate(now), k);
    if UniqueKeys(data) {
      PutKeepsUnique(data, "promotionId", JStr(id));
      PutKeepsUnique(withId, "vendorId", JStr(vendorId));
      PutKeepsUnique(withVendor, "createdDate", JDate(now));
      PutKeepsUnique(withCreated, "updatedDate", JDate(now));
    }
  }

  /** The window test: start <= now <= end, both ends included. */
  predicate IsActive(p: Promotion, now: int) {
    p.startDate <= now && now <= p.endDate
  }

  datatype PromotionView = PromotionView(promotion: Promotion, isActive: bool, effect: Option<EffectTypes.Effect>)

  /** One promotion with its flag and effect. Only an active promotion with
      an effect id asks for its effect, and a failed lookup is swallowed
      and leaves the effect null. */
  function View(p: Promotion, now: int, lookup: EffectTypes.EffectLookup): (v: PromotionView)
    ensures v.promotion == p
    ensures v.isActive <==> p.startDate <= now <= p.endDate
    ensures v.effect.Some? ==> IsActive(p, now) && p.effectId.Some? && p.effectId.value != ""
                               && lookup(p.effectId.value) == Ok(v.effect)
    ensures IsActive(p, now) && p.effectId.Some? && p.effectId.value != "" ==>
              v.effect == (if lookup(p.effectId.value).Ok? then lookup(p.effectId.value).value else None)
  {
    var active := IsActive(p, now);
    if active && p.effectId.Some? && p.effectId.value != "" then
      match lookup(p.effectId.value)
      case Ok(effect) => PromotionView(p, active, effect)
      case Err(_) => PromotionView(p, active, None)
    else PromotionView(p, active, None)
  }

  /** `getActivePromotions`: every promotion is viewed, then only the
      active ones are kept. */
  function ActivePromotions(ps: seq<Promotion>, now: int, lookup: EffectTypes.EffectLookup)
    : (r: seq<PromotionView>)
    ensures |r| <= |ps|
    ensures forall j :: 0 <= j < |r| ==> r[j].isActive && r[j].promotion in ps
    ensures forall i :: 0 <= i < |ps| && IsActive(ps[i], now) ==> View(ps[i], now, lookup) in r
    decreases |ps|
  {
    if ps == [] then []
    else
      var rest := ActivePromotions(ps[1..], now, lookup);
      assert forall i :: 1 <= i < |ps| ==> ps[i] == ps[1..][i - 1];
      var v := View(ps[0], now, lookup);
      if v.isActive then [v] + rest else rest
  }

  /** Filtering commutes with concatenation, so the result keeps input
      order: a promotion contributes its own view, or nothing. */
  lemma {:induction false} ActivePromotionsKeepOrder(a: seq<Promotion>, b: seq<Promotion>, now: int,
                                                    lookup: EffectTypes.EffectLookup)
    ensures ActivePromotions(a + b, now, lookup) == ActivePromotions(a, now, lookup) + ActivePromotions(b, now, lookup)
    decreases |a|
  {
    if a == [] {
      assert a + b == b;
    } else {
      assert (a + b)[0] == a[0];
      assert (a + b)[1..] == a[1..] + b;
      ActivePromotionsKeepOrder(a[1..], b, now, lookup);
    }
  }

  lemma ActivePromotionsOne(p: Promotion, now: int, lookup: EffectTypes.EffectLookup)
    ensures ActivePromotions([p], now, lookup) == if IsActive(p, now) then [View(p, now, lookup)] else []
  {
    assert [p][1..] == [];
  }
}
