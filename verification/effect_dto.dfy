/** Request-side rules for effects: the `ConditionsAllowed` validator and
    its message, the discriminator that picks a token class from the keys
    of a plain token object, and the transform that applies it to every
    element of a block's `if` array. Request bodies are plain JSON. */
module EffectDto {
  import opened Wrappers
  import opened Json

  // ---------------------------------------------------------------------
  // ConditionsAllowed
  // ---------------------------------------------------------------------

  /** JavaScript truthiness of a plain value. */
  predicate Truthy(v: Json) {
    match v
    case JNull => false
    case JUndefined => false
    case JBool(b) => b
    case JNum(n) => n != 0
    case JStr(s) => s != ""
    case _ => true
  }

  /** `conditions?.length` is truthy: a non-empty array or string, or an
      object whose own `length` property is truthy. Other values have no
      `length`, and `null`/`undefined` stop the optional chain. */
  predicate HasLength(conditions: Json) {
    match conditions
    case JArray(items) => |items| > 0
    case JStr(s) => |s| > 0
    case JObject(entries) => Truthy(Get(entries, "length"))
    case _ => false
  }

  const ConditionCode: string := "condition"
  const RequiredMessage: string := "conditions are required when type is 'condition'"
  const OnlyAllowedMessage: string := "conditions are only allowed when type is 'condition'"

  /** `validate`: a Condition effect needs conditions, any other kind must
      not carry them. */
  function ConditionsAllowed(kind: Json, conditions: Json): (ok: bool)
    ensures ok <==> (kind == JStr(ConditionCode) <==> HasLength(conditions))
  {
    if kind == JStr(ConditionCode) && !HasLength(conditions) then false
    else if kind != JStr(ConditionCode) && HasLength(conditions) then false
    else true
  }

  /** `defaultMessage`. */
  function ConditionsMessage(kind: Json, conditions: Json): (m: string)
    ensures m == RequiredMessage <==> kind == JStr(ConditionCode) && !HasLength(conditions)
    ensures m == OnlyAllowedMessage <==> !(kind == JStr(ConditionCode) && !HasLength(conditions))
  {
    if kind == JStr(ConditionCode) && !HasLength(conditions) then RequiredMessage
    else OnlyAllowedMessage
  }

  /** When validation fails, the message names the failed rule: missing
      conditions on a Condition effect, or conditions on any other kind. */
  lemma MessageMatchesRule(kind: Json, conditions: Json)
    requires !ConditionsAllowed(kind, conditions)
    ensures ConditionsMessage(kind, conditions) == RequiredMessage <==> kind == JStr(ConditionCode)
    ensures ConditionsMessage(kind, conditions) == OnlyAllowedMessage <==> HasLength(conditions)
  {
  }

  // ---------------------------------------------------------------------
  // conditionTypeDiscriminator
  // ---------------------------------------------------------------------

  /** The token classes, and `Object` for a plain fallback. */
  datatype TokenClass =
    | FieldClass | OperatorClass | ParenthesesClass | LogicalOperatorClass | ValueClass | PlainObject

  /** The keys in the order the discriminator tries them, and the class
      each one selects. */
  const PriorityKeys: seq<string> := ["field", "operator", "parentheses", "logicalOperator", "value"]
  const PriorityClasses: seq<TokenClass> :=
    [FieldClass, OperatorClass, ParenthesesClass, LogicalOperatorClass, ValueClass]

  /** Property read on any value: objects look the key up; strings, numbers,
      booleans, dates and arrays have none of the five keys. */
  function Property(plain: Json, k: string): Json
    requires plain != JNull && plain != JUndefined
  {
    if plain.JObject? then Get(plain.entries, k) else JUndefined
  }

  function ConditionTypeDiscriminator(plain: Json): (r: Result<TokenClass, string>)
    ensures r.Err? <==> plain == JNull || plain == JUndefined
    ensures r.Ok? && r.value != PlainObject ==>
              exists k :: 0 <= k < 5 && r.value == PriorityClasses[k]
                && Property(plain, PriorityKeys[k]) != JUndefined
                && forall j :: 0 <= j < k ==> Property(plain, PriorityKeys[j]) == JUndefined
    ensures r == Ok(PlainObject) <==>
              r.Ok? && forall k :: 0 <= k < 5 ==> Property(plain, PriorityKeys[k]) == JUndefined
  {
    if plain == JNull || plain == JUndefined then
      Err("Cannot read properties of " + (if plain == JNull then "null" else "undefined") + " (reading 'field')")
    else if Property(plain, "field") != JUndefined then
      assert PriorityKeys[0] == "field" && PriorityClasses[0] == FieldClass;
      Ok(FieldClass)
    else if Property(plain, "operator") != JUndefined then
      assert PriorityKeys[1] == "operator" && PriorityClasses[1] == OperatorClass;
      Ok(OperatorClass)
    else if Property(plain, "parentheses") != JUndefined then
      assert PriorityKeys[2] == "parentheses" && PriorityClasses[2] == ParenthesesClass;
      Ok(ParenthesesClass)
    else if Property(plain, "logicalOperator") != JUndefined then
      assert PriorityKeys[3] == "logicalOperator" && PriorityClasses[3] == LogicalOperatorClass;
      Ok(LogicalOperatorClass)
    else if Property(plain, "value") != JUndefined then
      assert PriorityKeys[4] == "value" && PriorityClasses[4] == ValueClass;
      Ok(ValueClass)
    else Ok(PlainObject)
  }

  // ---------------------------------------------------------------------
  // transformConditionArray
  // ---------------------------------------------------------------------

  /** An element after the transform: its class (PlainObject: returned as
      it was) and its data, which class conversion copies unchanged. */
  datatype Typed = Typed(cls: TokenClass, item: Json)

  datatype Transformed = Untouched(value: Json) | Mapped(items: seq<Typed>)

  function TypeItems(items: seq<Json>): (r: Result<seq<Typed>, string>)
    ensures r.Ok? <==> forall i :: 0 <= i < |items| ==> items[i] != JNull && items[i] != JUndefined
    ensures r.Ok? ==> |r.value| == |items|
    ensures r.Ok? ==> forall i :: 0 <= i < |items| ==>
              r.value[i].item == items[i] && Ok(r.value[i].cls) == ConditionTypeDiscriminator(items[i])
    decreases |items|
  {
    if items == [] then Ok([])
    else
      var cls :- ConditionTypeDiscriminator(items[0]);
      var rest :- TypeItems(items[1..]);
      assert forall i :: 1 <= i < |items| ==> items[i] == items[1..][i - 1];
      Ok([Typed(cls, items[0])] + rest)
  }

  /** Non-arrays pass through; arrays are mapped element by element. */
  function TransformConditionArray(value: Json): (r: Result<Transformed, string>)
    ensures !value.JArray? ==> r == Ok(Untouched(value))
    ensures value.JArray? && r.Ok? ==> r.value.Mapped? && |r.value.items| == |value.items|
    ensures value.JArray? && r.Ok? ==> forall i :: 0 <= i < |value.items| ==>
              r.value.items[i].item == value.items[i]
              && Ok(r.value.items[i].cls) == ConditionTypeDiscriminator(value.items[i])
    ensures value.JArray? ==>
              (r.Ok? <==> forall i :: 0 <= i < |value.items| ==>
                            value.items[i] != JNull && value.items[i] != JUndefined)
  {
    if !value.JArray? then Ok(Untouched(value))
    else
      var typed :- TypeItems(value.items);
      Ok(Mapped(typed))
  }
}
