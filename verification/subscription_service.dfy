/** Subscription lifecycle rules: creation defaults, status changes with
    their timestamps, the billing-cycle step, renewal, the activity
    predicate, the day count to the next bill and the effect lookup of the
    active-subscription listing. Dates are milliseconds since the epoch;
    the calendar arithmetic of date-fns and the clock are parameters. */
module SubscriptionService {
  import opened Wrappers
  import opened Json
  import EffectTypes

  datatype Status = Active | PastDue | Suspended | Cancelled | Expired | Paused

  datatype SubscriptionType = VendorPlan | MonthToMonth | Term

  /** A stored cycle outside the four known ones is kept as its code. */
  datatype BillingCycle = Weekly | Monthly | Quarterly | Annual | OtherCycle(code: string)

  datatype Subscription = Subscription(
    subscriptionId: string,
    vendorId: string,
    customerId: string,
    name: string,
    description: Option<string>,
    kind: SubscriptionType,
    billingCycle: BillingCycle,
    price: int,
    currency: string,
    status: Status,
    effectId: Option<string>,
    startDate: int,
    endDate: Option<int>,
    nextBillingDate: int,
    trialEndDate: Option<int>,
    cancelledAt: Option<int>,
    pausedAt: Option<int>,
    metadata: Option<Json>,
    createdDate: int,
    updatedDate: int)

  /** A creation request with its date strings already parsed. */
  datatype CreateRequest = CreateRequest(
    customerId: string,
    name: string,
    description: Option<string>,
    kind: SubscriptionType,
    billingCycle: BillingCycle,
    price: int,
    currency: Option<string>,
    effectId: Option<string>,
    startDate: int,
    endDate: Option<int>,
    trialEndDate: Option<int>,
    metadata: Option<Json>)

  /** `addWeeks`, `addMonths`, `addQuarters` and `addYears` by one. */
  datatype Calendar = Calendar(
    addWeek: int -> int,
    addMonth: int -> int,
    addQuarter: int -> int,
    addYear: int -> int)

  /** Every step lands strictly later. */
  ghost predicate Forward(cal: Calendar) {
    forall t :: cal.addWeek(t) > t && cal.addMonth(t) > t && cal.addQuarter(t) > t && cal.addYear(t) > t
  }

  /** `calculateNextBillingDate`: one cycle on; an unknown cycle is a month. */
  function NextBillingDate(t: int, cycle: BillingCycle, cal: Calendar): (next: int)
    ensures cycle.OtherCycle? ==> next == cal.addMonth(t)
  {
    match cycle
    case Weekly => cal.addWeek(t)
    case Monthly => cal.addMonth(t)
    case Quarterly => cal.addQuarter(t)
    case Annual => cal.addYear(t)
    case OtherCycle(_) => cal.addMonth(t)
  }

  lemma NextBillingMovesForward(t: int, cycle: BillingCycle, cal: Calendar)
    requires Forward(cal)
    ensures NextBillingDate(t, cycle, cal) > t
  {
  }

  /** `currency || 'USD'`: a missing or empty currency becomes USD. */
  function CurrencyOrDefault(currency: Option<string>): (c: string)
    ensures c != ""
    ensures currency.Some? && currency.value != "" ==> c == currency.value
    ensures currency.None? || currency.value == "" ==> c == "USD"
  {
    if currency.Some? && currency.value != "" then currency.value else "USD"
  }

  /** `createSubscription`, with the fresh id, the caller's vendor and the
      clock reading passed in. */
  function CreateSubscription(req: CreateRequest, id: string, vendorId: string, now: int, cal: Calendar)
    : (s: Subscription)
    ensures s.subscriptionId == id && s.vendorId == vendorId
    ensures s.customerId == req.customerId && s.name == req.name && s.description == req.description
    ensures s.kind == req.kind && s.billingCycle == req.billingCycle && s.price == req.price
    ensures s.effectId == req.effectId && s.trialEndDate == req.trialEndDate && s.metadata == req.metadata
    ensures s.status == Active
    ensures s.currency == CurrencyOrDefault(req.currency)
    ensures s.nextBillingDate == NextBillingDate(req.startDate, req.billingCycle, cal)
    ensures s.startDate == req.startDate && s.endDate == req.endDate
    ensures s.cancelledAt.None? && s.pausedAt.None?
    ensures s.createdDate == now && s.updatedDate == now
  {
    Subscription(
      id, vendorId, req.customerId, req.name, req.description, req.kind, req.billingCycle,
      req.price, CurrencyOrDefault(req.currency), Active, req.effectId,
      req.startDate, req.endDate, NextBillingDate(req.startDate, req.billingCycle, cal),
      req.trialEndDate, None, None, req.metadata, now, now)
  }

  /** A new subscription's first bill is strictly after its start. */
  lemma FirstBillAfterStart(req: CreateRequest, id: string, vendorId: string, now: int, cal: Calendar)
    requires Forward(cal)
    ensures CreateSubscription(req, id, vendorId, now, cal).nextBillingDate > req.startDate
  {
    NextBillingMovesForward(req.startDate, req.billingCycle, cal);
  }

  // ---------------------------------------------------------------------
  // updateSubscriptionStatus
  // ---------------------------------------------------------------------

  /** The partial record a status change writes; absent stamps are not
      written. */
  datatype StatusUpdate = StatusUpdate(status: Status, cancelledAt: Option<int>, pausedAt: Option<int>)

  function UnsupportedStatus(s: Status): string {
    "Unsupported subscription status: " +
      match s
      case Active => "active"
      case PastDue => "past_due"
      case Suspended => "suspended"
      case Cancelled => "cancelled"
      case Expired => "expired"
      case Paused => "paused"
  }

  /** Builds the update object and fills in the stamp the switch adds. */
  method UpdateSubscriptionStatus(status: Status, timestamp: int) returns (r: Result<StatusUpdate, string>)
    ensures r.Err? <==> status == PastDue || status == Expired
    ensures r.Err? ==> r.error == UnsupportedStatus(status)
    ensures r.Ok? ==> r.value.status == status
    ensures r.Ok? ==> (r.value.cancelledAt.Some? <==> status == Cancelled)
    ensures r.Ok? ==> (r.value.pausedAt.Some? <==> status == Paused)
    ensures r.Ok? && r.value.cancelledAt.Some? ==> r.value.cancelledAt.value == timestamp
    ensures r.Ok? && r.value.pausedAt.Some? ==> r.value.pausedAt.value == timestamp
  {
    var update := StatusUpdate(status, None, None);
    match status {
      case Active =>
      case Cancelled =>
        update := update.(cancelledAt := Some(timestamp));
      case Paused =>
        update := update.(pausedAt := Some(timestamp));
      case Suspended =>
      case _ =>
        return Err(UnsupportedStatus(status));
    }
    r := Ok(update);
  }

  type Store = map<string, Subscription>

  /** Writing a status update: only the keys it carries change, and the
      row's `updatedDate` is the clock reading. */
  function ApplyStatusUpdate(store: Store, id: string, u: StatusUpdate, now: int): (r: Store)
    ensures r.Keys == store.Keys
    ensures forall k :: k in store && k != id ==> r[k] == store[k]
    ensures id in store ==> r[id].status == u.status && r[id].updatedDate == now
    ensures id in store ==> r[id].cancelledAt == (if u.cancelledAt.Some? then u.cancelledAt else store[id].cancelledAt)
    ensures id in store ==> r[id].pausedAt == (if u.pausedAt.Some? then u.pausedAt else store[id].pausedAt)
    ensures id in store ==> r[id].nextBillingDate == store[id].nextBillingDate
  {
    if id !in store then store
    else
      var s := store[id];
      store[id := s.(
        status := u.status,
        cancelledAt := if u.cancelledAt.Some? then u.cancelledAt else s.cancelledAt,
        pausedAt := if u.pausedAt.Some? then u.pausedAt else s.pausedAt,
        updatedDate := now)]
  }

  // ---------------------------------------------------------------------
  // renewSubscription
  // ---------------------------------------------------------------------

  /** `renewSubscription`: a missing or non-Active subscription gives null
      and changes nothing; otherwise the stored next billing date moves on
      by one cycle and the updated row is returned. */
  function Renew(store: Store, id: string, now: int, cal: Calendar): (r: (Store, Option<Subscription>))
    ensures r.1.None? <==> id !in store || store[id].status != Active
    ensures r.1.None? ==> r.0 == store
    ensures r.1.Some? ==> r.0 == store[id := r.1.value]
    ensures r.1.Some? ==> r.1.value == store[id].(
              nextBillingDate := NextBillingDate(store[id].nextBillingDate, store[id].billingCycle, cal),
              updatedDate := now)
  {
    if id !in store || store[id].status != Active then (store, None)
    else
      var s := store[id];
      var renewed := s.(nextBillingDate := NextBillingDate(s.nextBillingDate, s.billingCycle, cal), updatedDate := now);
      (store[id := renewed], Some(renewed))
  }

  /** Renewal pushes the billing date strictly later and keeps the
      subscription active. */
  lemma RenewMovesForward(store: Store, id: string, now: int, cal: Calendar)
    requires Forward(cal)
    requires id in store && store[id].status == Active
    ensures Renew(store, id, now, cal).1.Some?
    ensures Renew(store, id, now, cal).1.value.nextBillingDate > store[id].nextBillingDate
    ensures Renew(store, id, now, cal).1.value.status == Active
  {
    NextBillingMovesForward(store[id].nextBillingDate, store[id].billingCycle, cal);
  }

  // ---------------------------------------------------------------------
  // isSubscriptionActive, calculateDaysUntilNextBilling
  // ---------------------------------------------------------------------

  function IsSubscriptionActive(s: Subscription, now: int): (b: bool)
    ensures b <==> s.status == Active && (s.endDate.None? || now <= s.endDate.value) && s.startDate <= now
  {
    if s.status != Active then false
    else if s.endDate.Some? && s.endDate.value < now then false
    else s.startDate <= now
  }

  const MsPerDay: int := 1000 * 3600 * 24

  /** `Math.ceil(ms / d)` for a positive divisor, on integers. */
  function CeilDiv(ms: int, d: int): (q: int)
    requires d > 0
    ensures (q - 1) * d < ms <= q * d
  {
    -((-ms) / d)
  }

  /** The least whole number of days covering the gap to the next bill. */
  function DaysUntilNextBilling(nextBillingDate: int, now: int): (days: int)
    ensures (days - 1) * MsPerDay < nextBillingDate - now <= days * MsPerDay
  {
    CeilDiv(nextBillingDate - now, MsPerDay)
  }

  /** The count is zero or negative once the bill is due, and positive
      before. */
  lemma DaysSignMatchesDue(nextBillingDate: int, now: int)
    ensures DaysUntilNextBilling(nextBillingDate, now) > 0 <==> nextBillingDate > now
  {
  }

  // ---------------------------------------------------------------------
  // getActiveSubscriptions
  // ---------------------------------------------------------------------

  /** A listed subscription with its computed fields. */
  datatype ActiveView = ActiveView(
    subscription: Subscription,
    isActive: bool,
    daysUntilNextBilling: int,
    effect: Option<EffectTypes.Effect>)

  predicate LooksUpEffect(s: Subscription, now: int) {
    IsSubscriptionActive(s, now) && s.effectId.Some? && s.effectId.value != ""
  }

  function View(s: Subscription, now: int, lookup: EffectTypes.EffectLookup): (r: Result<ActiveView, string>)
    ensures r.Err? ==> LooksUpEffect(s, now) && lookup(s.effectId.value).Err?
                       && r.error == lookup(s.effectId.value).error
    ensures r.Ok? ==> r.value.subscription == s && r.value.isActive == IsSubscriptionActive(s, now)
    ensures r.Ok? ==> r.value.daysUntilNextBilling == DaysUntilNextBilling(s.nextBillingDate, now)
    ensures !LooksUpEffect(s, now) ==> r.Ok? && r.value.effect.None?
    ensures LooksUpEffect(s, now) ==> (r.Ok? <==> lookup(s.effectId.value).Ok?)
    ensures LooksUpEffect(s, now) && r.Ok? ==> r.value.effect == lookup(s.effectId.value).value
  {
    var isActive := IsSubscriptionActive(s, now);
    var days := DaysUntilNextBilling(s.nextBillingDate, now);
    if isActive && s.effectId.Some? && s.effectId.value != "" then
      var effect :- lookup(s.effectId.value);
      Ok(ActiveView(s, isActive, days, effect))
    else
      Ok(ActiveView(s, isActive, days, None))
  }

  /** `Promise.all` over the views, taken in order: the first failure
      fails the listing. */
  function ActiveSubscriptions(subs: seq<Subscription>, now: int, lookup: EffectTypes.EffectLookup)
    : (r: Result<seq<ActiveView>, string>)
    ensures r.Ok? <==> forall i :: 0 <= i < |subs| ==> View(subs[i], now, lookup).Ok?
    ensures r.Ok? ==> |r.value| == |subs|
    ensures r.Ok? ==> forall i :: 0 <= i < |subs| ==> r.value[i] == View(subs[i], now, lookup).value
    decreases |subs|
  {
    if subs == [] then Ok([])
    else
      var first :- View(subs[0], now, lookup);
      var rest :- ActiveSubscriptions(subs[1..], now, lookup);
      assert forall i :: 1 <= i < |subs| ==> subs[i] == subs[1..][i - 1];
      Ok([first] + rest)
  }

  /** Only active subscriptions that carry an effect id get an effect, and
      only they can make the listing fail. */
  lemma EffectOnlyWhenActive(subs: seq<Subscription>, now: int, lookup: EffectTypes.EffectLookup, i: nat)
    requires i < |subs|
    requires ActiveSubscriptions(subs, now, lookup).Ok?
    ensures ActiveSubscriptions(subs, now, lookup).value[i].effect.Some? ==> LooksUpEffect(subs[i], now)
    ensures !IsSubscriptionActive(subs[i], now) ==> ActiveSubscriptions(subs, now, lookup).value[i].effect.None?
  {
  }
}
