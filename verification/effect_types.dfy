/** Effect kinds, condition blocks and the effect record. */
module EffectTypes {
  import opened Wrappers
  import opened ConditionTypes
  import opened Json

  /** The six effect kinds. */
  datatype EffectKind = Discount | BonusItem | Subscription | Reward | Communication | Condition

  const KindCodes: set<string> :=
    {"discount", "bonus_item", "subscription", "reward", "communication", "condition"}

  function KindCode(k: EffectKind): (code: string)
    ensures code in KindCodes
  {
    match k
    case Discount => "discount"
    case BonusItem => "bonus_item"
    case Subscription => "subscription"
    case Reward => "reward"
    case Communication => "communication"
    case Condition => "condition"
  }

  /** Reads a stored kind string; strings outside the enum give `None`. */
  function DecodeKind(s: string): (k: Option<EffectKind>)
    ensures k.Some? <==> s in KindCodes
    ensures k.Some? ==> KindCode(k.value) == s
  {
    if s == "discount" then Some(Discount)
    else if s == "bonus_item" then Some(BonusItem)
    else if s == "subscription" then Some(Subscription)
    else if s == "reward" then Some(Reward)
    else if s == "communication" then Some(Communication)
    else if s == "condition" then Some(Condition)
    else None
  }

  lemma DecodeKindCode(k: EffectKind)
    ensures DecodeKind(KindCode(k)) == Some(k)
  {
  }

  /** The six codes are pairwise distinct. */
  lemma {:induction false} KindCodeInjective(a: EffectKind, b: EffectKind)
    requires KindCode(a) == KindCode(b)
    ensures a == b
  {
    DecodeKindCode(a);
    DecodeKindCode(b);
  }

  /** A condition block: a guard that is a token list or `null`, and the id
      of the effect to apply when the guard holds. */
  datatype Block = Block(guard: Option<seq<Token>>, target: string)

  /** The stored `value` of an effect: a number or a string. */
  datatype EffectValue = NumValue(n: int) | StrValue(s: string)

  /** An effect record. Dates are milliseconds since the epoch. */
  datatype Effect = Effect(
    effectId: string,
    kind: EffectKind,
    value: Option<EffectValue>,
    details: Option<Json>,
    conditions: Option<seq<Block>>,
    createdDate: int,
    updatedDate: int)

  /** The body of an effect creation request. */
  datatype EffectRequest = EffectRequest(
    kind: EffectKind,
    value: Option<EffectValue>,
    details: Option<Json>,
    conditions: Option<seq<Block>>)

  /** `getEffect` as its callers see it: an effect, `null`, or a throw. */
  type EffectLookup = string -> Result<Option<Effect>, string>
}
