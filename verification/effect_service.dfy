/** Effect resolution: a plain effect is returned as stored; a conditional
    effect picks the target of its first block whose guard holds and is
    resolved again from there. Nothing stops a cycle of targets, so the
    model carries fuel: one unit per hop. */
module EffectService {
  import opened Wrappers
  import opened ConditionTypes
  import opened ConditionService
  import opened EffectTypes
  import opened Json

  /** The effect table, keyed by effectId. */
  type Store = map<string, Effect>

  /** The guard evaluates to true. */
  predicate Selects(b: Block, ctx: Context) {
    b.guard.Some? && Evaluation(Raws(b.guard.value), ctx) == Ok(true)
  }

  /** The block is passed over: a null guard, or a guard that is false. */
  predicate Passes(b: Block, ctx: Context) {
    b.guard.None? || Evaluation(Raws(b.guard.value), ctx) == Ok(false)
  }

  // ---------------------------------------------------------------------
  // chooseEffectFromConditions
  // ---------------------------------------------------------------------

  /** The target of the first selecting block, scanning in order; the
      first guard that throws ends the scan with its error. */
  function FirstMatch(blocks: seq<Block>, ctx: Context): Result<Option<string>, EvalError>
    decreases |blocks|
  {
    if blocks == [] then Ok(None)
    else if blocks[0].guard.None? then FirstMatch(blocks[1..], ctx)
    else
      var holds :- Evaluation(Raws(blocks[0].guard.value), ctx);
      if holds then Ok(Some(blocks[0].target)) else FirstMatch(blocks[1..], ctx)
  }

  function ChooseEffect(conditions: Option<seq<Block>>, ctx: Context): Result<Option<string>, EvalError> {
    if conditions.None? then Ok(None) else FirstMatch(conditions.value, ctx)
  }

  method ChooseEffectFromConditions(conditions: Option<seq<Block>>, ctx: Context)
    returns (r: Result<Option<string>, EvalError>)
    ensures r == ChooseEffect(conditions, ctx)
  {
    if conditions.None? {
      return Ok(None);
    }
    var blocks := conditions.value;
    assert blocks[0..] == blocks;
    for i := 0 to |blocks|
      invariant FirstMatch(blocks, ctx) == FirstMatch(blocks[i..], ctx)
    {
      var block := blocks[i];
      assert blocks[i..][0] == block && blocks[i..][1..] == blocks[i + 1..];
      if block.guard.None? {
        continue;
      }
      var conditionResult := EvaluateTokens(block.guard.value, ctx);
      if conditionResult.Err? {
        return Err(conditionResult.error);
      }
      if conditionResult.value {
        return Ok(Some(block.target));
      }
    }
    assert blocks[|blocks|..] == [];
    return Ok(None);
  }

  /** Block `i` selects with target `t` and every block before it is
      passed over. */
  predicate SelectedAt(blocks: seq<Block>, ctx: Context, t: string, i: int) {
    0 <= i < |blocks| && Selects(blocks[i], ctx) && blocks[i].target == t
    && forall j :: 0 <= j < i ==> Passes(blocks[j], ctx)
  }

  /** Dropping a passed-over first block shifts every position by one. */
  lemma SelectedAtShift(blocks: seq<Block>, ctx: Context, t: string, i: int)
    requires blocks != [] && Passes(blocks[0], ctx)
    ensures SelectedAt(blocks[1..], ctx, t, i) <==> SelectedAt(blocks, ctx, t, i + 1)
  {
    var tail := blocks[1..];
    assert forall j :: 0 <= j < |tail| ==> tail[j] == blocks[j + 1];
    if SelectedAt(blocks, ctx, t, i + 1) {
      assert forall j :: 0 <= j < i ==> Passes(tail[j], ctx) by {
        forall j | 0 <= j < i ensures Passes(tail[j], ctx) {
          assert Passes(blocks[j + 1], ctx);
        }
      }
    }
    if SelectedAt(tail, ctx, t, i) {
      assert forall j :: 0 <= j < i + 1 ==> Passes(blocks[j], ctx) by {
        forall j | 0 <= j < i + 1 ensures Passes(blocks[j], ctx) {
          if j > 0 { assert blocks[j] == tail[j - 1]; }
        }
      }
    }
  }

  /** The scan returns target `t` exactly when some block selects with
      target `t` and every block before it is passed over. */
  lemma {:induction false} FirstMatchFinds(blocks: seq<Block>, ctx: Context, t: string)
    ensures FirstMatch(blocks, ctx) == Ok(Some(t)) <==> exists i :: SelectedAt(blocks, ctx, t, i)
    decreases |blocks|
  {
    if blocks != [] {
      var b := blocks[0];
      var tail := blocks[1..];
      FirstMatchFinds(tail, ctx, t);
      if Passes(b, ctx) {
        assert FirstMatch(blocks, ctx) == FirstMatch(tail, ctx);
        assert !SelectedAt(blocks, ctx, t, 0);
        if exists i :: SelectedAt(tail, ctx, t, i) {
          var i :| SelectedAt(tail, ctx, t, i);
          SelectedAtShift(blocks, ctx, t, i);
        }
        if exists i :: SelectedAt(blocks, ctx, t, i) {
          var i :| SelectedAt(blocks, ctx, t, i);
          SelectedAtShift(blocks, ctx, t, i - 1);
        }
      } else if Selects(b, ctx) && b.target == t {
        assert SelectedAt(blocks, ctx, t, 0);
      } else {
        assert forall i :: !SelectedAt(blocks, ctx, t, i) by {
          forall i ensures !SelectedAt(blocks, ctx, t, i) {
            if 0 < i < |blocks| { assert !Passes(blocks[0], ctx); }
          }
        }
      }
    }
  }

  /** The scan returns null exactly when every block is passed over. */
  lemma {:induction false} FirstMatchNone(blocks: seq<Block>, ctx: Context)
    ensures FirstMatch(blocks, ctx) == Ok(None) <==> forall j :: 0 <= j < |blocks| ==> Passes(blocks[j], ctx)
    decreases |blocks|
  {
    if blocks != [] {
      var tail := blocks[1..];
      FirstMatchNone(tail, ctx);
      if Passes(blocks[0], ctx) {
        assert (forall j :: 0 <= j < |blocks| ==> Passes(blocks[j], ctx))
            <==> (forall j :: 0 <= j < |tail| ==> Passes(tail[j], ctx)) by {
          if forall j :: 0 <= j < |tail| ==> Passes(tail[j], ctx) {
            forall j | 0 <= j < |blocks| ensures Passes(blocks[j], ctx) {
              if j > 0 {
                assert blocks[j] == tail[j - 1];
              }
            }
          }
          if forall j :: 0 <= j < |blocks| ==> Passes(blocks[j], ctx) {
            forall j | 0 <= j < |tail| ensures Passes(tail[j], ctx) {
              assert tail[j] == blocks[j + 1];
            }
          }
        }
      }
    }
  }

  /** The blocks that have a guard, in order. */
  function Guarded(blocks: seq<Block>): (r: seq<Block>)
    ensures forall k :: 0 <= k < |r| ==> r[k].guard.Some?
    ensures |r| <= |blocks|
    decreases |blocks|
  {
    if blocks == [] then []
    else if blocks[0].guard.None? then Guarded(blocks[1..])
    else [blocks[0]] + Guarded(blocks[1..])
  }

  /** Blocks with a null guard play no part: dropping them changes
      nothing. */
  lemma {:induction false} NullGuardsSkipped(blocks: seq<Block>, ctx: Context)
    ensures FirstMatch(blocks, ctx) == FirstMatch(Guarded(blocks), ctx)
    decreases |blocks|
  {
    if blocks != [] {
      NullGuardsSkipped(blocks[1..], ctx);
      if blocks[0].guard.Some? {
        var g := [blocks[0]] + Guarded(blocks[1..]);
        assert g[0] == blocks[0] && g[1..] == Guarded(blocks[1..]);
      }
    }
  }

  // ---------------------------------------------------------------------
  // getEffect
  // ---------------------------------------------------------------------

  /** How a resolution ends: an effect, `null`, an error thrown by a guard,
      or a chain of targets longer than the fuel. */
  datatype Resolution = Found(effect: Effect) | NoEffect | Thrown(error: EvalError) | OutOfFuel

  predicate IsConditional(e: Effect) {
    e.kind == Condition && e.conditions.Some?
  }

  function Resolve(store: Store, id: string, ctx: Context, fuel: nat): Resolution
    decreases fuel
  {
    if id !in store then NoEffect
    else if !IsConditional(store[id]) then Found(store[id])
    else
      match ChooseEffect(store[id].conditions, ctx)
      case Err(err) => Thrown(err)
      case Ok(None) => NoEffect
      case Ok(Some(t)) =>
        if t == "" then NoEffect
        else if fuel == 0 then OutOfFuel
        else Resolve(store, t, ctx, fuel - 1)
  }

  method GetEffect(store: Store, id: string, ctx: Context, fuel: nat) returns (r: Resolution)
    ensures r == Resolve(store, id, ctx, fuel)
    decreases fuel
  {
    if id !in store {
      return NoEffect;
    }
    var effect := store[id];
    if effect.kind == Condition && effect.conditions.Some? {
      var activeEffect := ChooseEffectFromConditions(effect.conditions, ctx);
      if activeEffect.Err? {
        return Thrown(activeEffect.error);
      }
      if activeEffect.value.None? || activeEffect.value.value == "" {
        return NoEffect;
      }
      if fuel == 0 {
        return OutOfFuel;
      }
      r := GetEffect(store, activeEffect.value.value, ctx, fuel - 1);
      return;
    }
    return Found(effect);
  }

  /** A plain record, or a conditional one without conditions, comes back
      unchanged; a missing id gives null. */
  lemma PlainEffectReturned(store: Store, id: string, ctx: Context, fuel: nat)
    ensures id !in store ==> Resolve(store, id, ctx, fuel) == NoEffect
    ensures id in store && !IsConditional(store[id]) ==> Resolve(store, id, ctx, fuel) == Found(store[id])
  {
  }

  /** A conditional record resolves as the target of its first selecting
      block, one hop further; when no block selects it gives null. */
  lemma {:induction false} ConditionalFollowsFirstMatch(store: Store, id: string, ctx: Context, fuel: nat, i: int)
    requires id in store && IsConditional(store[id])
    requires var blocks := store[id].conditions.value;
             0 <= i < |blocks| && Selects(blocks[i], ctx) && blocks[i].target != ""
             && forall j :: 0 <= j < i ==> Passes(blocks[j], ctx)
    requires fuel > 0
    ensures Resolve(store, id, ctx, fuel) == Resolve(store, store[id].conditions.value[i].target, ctx, fuel - 1)
  {
    FirstMatchFinds(store[id].conditions.value, ctx, store[id].conditions.value[i].target);
    assert SelectedAt(store[id].conditions.value, ctx, store[id].conditions.value[i].target, i);
  }

  lemma {:induction false} NoMatchIsNull(store: Store, id: string, ctx: Context, fuel: nat)
    requires id in store && IsConditional(store[id])
    requires forall j :: 0 <= j < |store[id].conditions.value| ==> Passes(store[id].conditions.value[j], ctx)
    ensures Resolve(store, id, ctx, fuel) == NoEffect
  {
    FirstMatchNone(store[id].conditions.value, ctx);
  }

  /** More fuel never changes an outcome that was reached. */
  lemma {:induction false} FuelMonotone(store: Store, id: string, ctx: Context, fuel: nat, more: nat)
    requires fuel <= more
    requires Resolve(store, id, ctx, fuel) != OutOfFuel
    ensures Resolve(store, id, ctx, more) == Resolve(store, id, ctx, fuel)
    decreases fuel
  {
    if id in store && IsConditional(store[id]) {
      var c := ChooseEffect(store[id].conditions, ctx);
      if c.Ok? && c.value.Some? && c.value.value != "" {
        FuelMonotone(store, c.value.value, ctx, fuel - 1, more - 1);
      }
    }
  }

  /** Every non-empty block target of a record ranks strictly below the
      record: the chains of targets are acyclic. */
  predicate Ranked(store: Store, rank: string -> nat) {
    forall id, i :: id in store && store[id].conditions.Some?
      && 0 <= i < |store[id].conditions.value| && store[id].conditions.value[i].target != ""
      ==> rank(store[id].conditions.value[i].target) < rank(id)
  }

  /** With acyclic targets, fuel equal to the rank is enough. */
  lemma {:induction false} RankedResolves(store: Store, rank: string -> nat, id: string, ctx: Context, fuel: nat)
    requires Ranked(store, rank) && rank(id) <= fuel
    ensures Resolve(store, id, ctx, fuel) != OutOfFuel
    decreases fuel
  {
    if id in store && IsConditional(store[id]) {
      var blocks := store[id].conditions.value;
      var c := FirstMatch(blocks, ctx);
      if c.Ok? && c.value.Some? && c.value.value != "" {
        var t := c.value.value;
        FirstMatchFinds(blocks, ctx, t);
        var i :| SelectedAt(blocks, ctx, t, i);
        assert rank(t) < rank(id);
        RankedResolves(store, rank, t, ctx, fuel - 1);
      }
    }
  }

  /** A conditional record that selects itself never resolves: there is no
      visited set, so no amount of fuel is enough. */
  lemma {:induction false} SelfTargetDiverges(store: Store, id: string, ctx: Context, fuel: nat)
    requires id in store && IsConditional(store[id]) && id != ""
    requires ChooseEffect(store[id].conditions, ctx) == Ok(Some(id))
    ensures Resolve(store, id, ctx, fuel) == OutOfFuel
    decreases fuel
  {
    if fuel > 0 {
      SelfTargetDiverges(store, id, ctx, fuel - 1);
    }
  }

  // ---------------------------------------------------------------------
  // createEffect and createConditionalEffect
  // ---------------------------------------------------------------------

  /** `createEffect`: a record copying the request's kind, value, details
      and conditions, with the given fresh id and creation time, added to
      the store. */
  function CreateEffect(store: Store, req: EffectRequest, id: string, now: int): (r: (Store, Effect))
    ensures r.1.effectId == id && r.1.createdDate == now && r.1.updatedDate == now
    ensures r.1.kind == req.kind && r.1.value == req.value
    ensures r.1.details == req.details && r.1.conditions == req.conditions
    ensures r.0 == store[id := r.1]
  {
    var e := Effect(id, req.kind, req.value, req.details, req.conditions, now, now);
    (store[id := e], e)
  }

  /** `createConditionalEffect`: always a Condition record; the request's
      kind and value are ignored. */
  function CreateConditionalEffect(store: Store, req: EffectRequest, id: string, now: int): (r: (Store, Effect))
    ensures r.1.effectId == id && r.1.createdDate == now && r.1.updatedDate == now
    ensures r.1.kind == Condition && r.1.value == None
    ensures r.1.details == req.details && r.1.conditions == req.conditions
    ensures r.0 == store[id := r.1]
  {
    var e := Effect(id, Condition, None, req.details, req.conditions, now, now);
    (store[id := e], e)
  }

  /** A freshly created plain effect resolves to itself; a freshly created
      conditional effect resolves through its own blocks. */
  lemma CreatedEffectResolves(store: Store, req: EffectRequest, id: string, now: int, ctx: Context, fuel: nat)
    ensures req.kind != Condition || req.conditions.None? ==>
              Resolve(CreateEffect(store, req, id, now).0, id, ctx, fuel) == Found(CreateEffect(store, req, id, now).1)
    ensures req.conditions.Some? ==>
              var (s, e) := CreateConditionalEffect(store, req, id, now);
              Resolve(s, id, ctx, fuel) ==
                match FirstMatch(req.conditions.value, ctx)
                case Err(err) => Thrown(err)
                case Ok(None) => NoEffect
                case Ok(Some(t)) =>
                  if t == "" then NoEffect
                  else if fuel == 0 then OutOfFuel
                  else Resolve(s, t, ctx, fuel - 1)
  {
  }
}
