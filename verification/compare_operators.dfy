/** `evaluateOperator` and `canCompareFields`: compare two operand records
    under one operator, after coercing date-like strings to Dates. */
module CompareOperators {
  import opened Wrappers
  import opened ConditionTypes

  /** The JS and date-fns behaviour the comparison depends on, injected:
      `parseDate(s)` is `new Date(s)` when `isValid` accepts it, `dateString`
      is `String(date)`, `regexTest(p, s)` is `new RegExp(p).test(s)` (None
      when the pattern does not compile), `differenceInDays` is date-fns'
      whole-day difference and `now` the instant of `new Date()`. */
  datatype DateEnv = DateEnv(
    parseDate: string -> Option<int>,
    dateString: int -> string,
    regexTest: (string, string) -> Option<bool>,
    differenceInDays: (int, int) -> int,
    now: int)

  /** Largest time value a JS Date accepts, in milliseconds. */
  const MaxTime: int := 8_640_000_000_000_000

  /** JS `typeof`: a Date and null share the tag "object". */
  function TypeOf(v: Value): (tag: string)
    ensures tag == "object" <==> v.Date? || v.Null?
    ensures tag == "string" <==> v.Str?
    ensures tag == "number" <==> v.Num?
  {
    match v
    case Str(_) => "string"
    case Num(_) => "number"
    case Bool(_) => "boolean"
    case Date(_, _) => "object"
    case Null => "object"
    case Undefined => "undefined"
  }

  /** `new Date(v)` followed by `isValid`: the time value, or None for an
      Invalid Date. */
  function ToDate(v: Value, env: DateEnv): (t: Option<int>)
    ensures v.Undefined? ==> t.None?
    ensures v.Date? ==> t == Some(v.ms)
  {
    match v
    case Str(s) => env.parseDate(s)
    case Num(n) => if -MaxTime <= n <= MaxTime then Some(n) else None
    case Bool(b) => Some(if b then 1 else 0)
    case Date(ms, _) => Some(ms)
    case Null => Some(0)
    case Undefined => None
  }

  /** The number a relational operator sees (`ToNumeric`); None is NaN.
      Strings never reach a relational operator here, because
      `canCompareFields` rejects them first. */
  function ToNumeric(v: Value): Option<int> {
    match v
    case Num(n) => Some(n)
    case Bool(b) => Some(if b then 1 else 0)
    case Date(ms, _) => Some(ms)
    case Null => Some(0)
    case Str(_) => None
    case Undefined => None
  }

  /** JS `a < b` on two numeric views: false as soon as one side is NaN. */
  predicate Less(a: Option<int>, b: Option<int>) {
    a.Some? && b.Some? && a.value < b.value
  }

  /** JS `a <= b` on two numeric views: false as soon as one side is NaN. */
  predicate LessEq(a: Option<int>, b: Option<int>) {
    a.Some? && b.Some? && a.value <= b.value
  }

  function DigitString(n: nat): (s: string)
    ensures |s| > 0
    decreases n
  {
    var d := ['0', '1', '2', '3', '4', '5', '6', '7', '8', '9'][n % 10];
    if n < 10 then [d] else DigitString(n / 10) + [d]
  }

  /** `String(v)`. Integers print in decimal. */
  function JsString(v: Value, env: DateEnv): string {
    match v
    case Str(s) => s
    case Num(n) => if n < 0 then "-" + DigitString(-n) else DigitString(n)
    case Bool(b) => if b then "true" else "false"
    case Date(ms, _) => env.dateString(ms)
    case Null => "null"
    case Undefined => "undefined"
  }

  /** `needle` occurs in `hay` starting at index `i`. */
  predicate OccursAt(hay: string, needle: string, i: int) {
    0 <= i && i + |needle| <= |hay| && hay[i..i + |needle|] == needle
  }

  /** `hay.includes(needle)`. */
  function Contains(hay: string, needle: string): (b: bool)
    ensures b <==> exists i :: OccursAt(hay, needle, i)
    decreases |hay|
  {
    if needle <= hay then
      assert OccursAt(hay, needle, 0);
      true
    else if |hay| == 0 then false
    else
      var r := Contains(hay[1..], needle);
      forall i | 1 <= i
        ensures OccursAt(hay, needle, i) <==> OccursAt(hay[1..], needle, i - 1)
      {
        if i + |needle| <= |hay| {
          assert hay[i..i + |needle|] == hay[1..][i - 1..i - 1 + |needle|];
        }
      }
      if r then
        var i :| OccursAt(hay[1..], needle, i);
        assert OccursAt(hay, needle, i + 1);
        true
      else false
  }

  function HasSuffix(s: string, suffix: string): bool {
    |suffix| <= |s| && s[|s| - |suffix|..] == suffix
  }

  /** Operators `canCompareFields` refuses on a string left operand. */
  predicate StringRejected(op: Op) {
    op in {LessThan, GreaterThan, LessThanOrEqual, GreaterThanOrEqual,
           Before, After, OnOrBefore, OnOrAfter, DaysAfter, DaysBefore}
  }

  /** Operators `canCompareFields` refuses on a numeric left operand. */
  predicate NumberRejected(op: Op) {
    op in {StartsWith, EndsWith, Matches, Includes, DoesntInclude,
           Before, After, OnOrBefore, OnOrAfter}
  }

  /** Operators `canCompareFields` refuses on a Date left operand. */
  predicate DateRejected(op: Op) {
    op in {StartsWith, EndsWith, Matches, Includes, DoesntInclude}
  }

  predicate DaysOperator(op: Op) {
    op == DaysAfter || op == DaysBefore
  }

  /** The date coercion on the two local copies: a left string that parses
      becomes a new Date; then the right operand becomes a new Date when it
      converts to a valid one and the left is still a string. */
  function Coerce(left: Operand, right: Operand, env: DateEnv): (c: (Operand, Operand))
    ensures left.value.Str? && env.parseDate(left.value.s).Some? ==>
      c.0 == Operand(Date(env.parseDate(left.value.s).value, CoercedLeft))
    ensures !(left.value.Str? && env.parseDate(left.value.s).Some?) ==> c.0 == left
    ensures c.1 != right ==> c.0.value.Str? && ToDate(right.value, env).Some?
    ensures c.0.value.Str? && ToDate(right.value, env).Some? ==>
      c.1 == Operand(Date(ToDate(right.value, env).value, CoercedRight))
  {
    var l :=
      if left.value.Str? && env.parseDate(left.value.s).Some?
      then Operand(Date(env.parseDate(left.value.s).value, CoercedLeft))
      else left;
    var r :=
      if l.value.Str? && ToDate(right.value, env).Some?
      then Operand(Date(ToDate(right.value, env).value, CoercedRight))
      else right;
    (l, r)
  }

  /** The guard chain that throws before the switch; None when it passes. */
  function CanCompareFields(left: Operand, right: Operand, op: Op): (r: Option<EvalError>)
    ensures r.Some? ==> r.value.TypeMismatch? || r.value.StringFieldOperator? || r.value.NumericFieldOperator?
                        || r.value.DateFieldOperator?
  {
    if TypeOf(left.value) != TypeOf(right.value) && !DaysOperator(op) then
      Some(TypeMismatch(TypeOf(left.value), TypeOf(right.value)))
    else if left.value.Str? && StringRejected(op) then Some(StringFieldOperator(op))
    else if left.value.Num? && NumberRejected(op) then Some(NumericFieldOperator(op))
    else if left.value.Date? && DateRejected(op) then Some(DateFieldOperator(op))
    else None
  }

  /** The switch over the operator, on the coerced values. */
  function Compare(a: Value, op: Op, b: Value, env: DateEnv): (r: Result<bool, EvalError>)
    ensures r.Err? ==> r.error.InvalidRegex? || r.error.InvalidDaysOperand? || r.error.UnsupportedOperator?
  {
    match op
    case Equals => Ok(a == b)
    case LessThan => Ok(Less(ToNumeric(a), ToNumeric(b)))
    case GreaterThan => Ok(Less(ToNumeric(b), ToNumeric(a)))
    case NotEquals => Ok(a != b)
    case LessThanOrEqual => Ok(LessEq(ToNumeric(a), ToNumeric(b)))
    case GreaterThanOrEqual => Ok(LessEq(ToNumeric(b), ToNumeric(a)))
    case Includes => Ok(if b.Str? && a.Str? then Contains(b.s, a.s) else false)
    case DoesntInclude => Ok(if b.Str? && a.Str? then !Contains(b.s, a.s) else true)
    case StartsWith => Ok(JsString(b, env) <= JsString(a, env))
    case EndsWith => Ok(HasSuffix(JsString(a, env), JsString(b, env)))
    case Matches =>
      var t := env.regexTest(JsString(b, env), JsString(a, env));
      if t.None? then Err(InvalidRegex(JsString(b, env))) else Ok(t.value)
    case Exists => Ok(a != Undefined && a != Null)
    case NotExists => Ok(a == Undefined || a == Null)
    case Before => Ok(Less(ToDate(a, env), ToDate(b, env)))
    case After => Ok(Less(ToDate(b, env), ToDate(a, env)))
    case OnOrBefore => Ok(LessEq(ToDate(a, env), ToDate(b, env)))
    case OnOrAfter => Ok(LessEq(ToDate(b, env), ToDate(a, env)))
    case DaysAfter =>
      var d := ToDate(b, env);
      if d.None? || !a.Num? then Err(InvalidDaysOperand(op))
      else Ok(env.differenceInDays(env.now, d.value) == a.n)
    case DaysBefore =>
      var d := ToDate(b, env);
      if d.None? || !a.Num? then Err(InvalidDaysOperand(op))
      else Ok(env.differenceInDays(d.value, env.now) == a.n)
    case Unlisted(_) => Err(UnsupportedOperator(op))
  }

  /** `evaluateOperator(left, op, right)`. The operands are values, so the
      caller's records cannot change. */
  function EvaluateOperator(left: Operand, op: Op, right: Operand, env: DateEnv): (r: Result<bool, EvalError>)
    ensures r.Err? ==> r.error != UnmatchedClosing && r.error != UnmatchedOpening
  {
    var c := Coerce(left, right, env);
    var guard := CanCompareFields(c.0, c.1, op);
    if guard.Some? then Err(guard.value) else Compare(c.0.value, op, c.1.value, env)
  }

  // ---------------------------------------------------------------------
  // Properties

  /** Operand types that differ after coercion fail with a type mismatch,
      unless the operator is DaysAfter or DaysBefore. */
  lemma MismatchedTypesFail(left: Operand, op: Op, right: Operand, env: DateEnv)
    requires !DaysOperator(op)
    requires TypeOf(Coerce(left, right, env).0.value) != TypeOf(Coerce(left, right, env).1.value)
    ensures EvaluateOperator(left, op, right, env).Err?
    ensures EvaluateOperator(left, op, right, env).error.TypeMismatch?
  {
  }

  /** A Date and null are both "object", so their pairing is no mismatch. */
  lemma DateAndNullShareTag(ms: int, id: DateIdent)
    ensures TypeOf(Date(ms, id)) == TypeOf(Null)
  {
  }

  /** A left operand that is still a string after coercion is refused for
      every ordering and date operator. */
  lemma StringLeftRejected(left: Operand, op: Op, right: Operand, env: DateEnv)
    requires Coerce(left, right, env).0.value.Str?
    requires StringRejected(op)
    ensures EvaluateOperator(left, op, right, env).Err?
  {
  }

  /** A numeric left operand is refused for the string operators and the four
      date-ordering operators. */
  lemma NumberLeftRejected(left: Operand, op: Op, right: Operand, env: DateEnv)
    requires left.value.Num?
    requires NumberRejected(op)
    ensures EvaluateOperator(left, op, right, env).Err?
  {
  }

  /** A Date left operand is refused for the five string operators. */
  lemma DateLeftRejected(left: Operand, op: Op, right: Operand, env: DateEnv)
    requires left.value.Date?
    requires DateRejected(op)
    ensures EvaluateOperator(left, op, right, env).Err?
  {
  }

  /** NotEquals fails exactly when Equals fails and otherwise negates it. */
  lemma NotEqualsNegatesEquals(left: Operand, right: Operand, env: DateEnv)
    ensures EvaluateOperator(left, Equals, right, env).Ok?
        <==> EvaluateOperator(left, NotEquals, right, env).Ok?
    ensures EvaluateOperator(left, Equals, right, env).Ok? ==>
      EvaluateOperator(left, NotEquals, right, env).value
        == !EvaluateOperator(left, Equals, right, env).value
  {
  }

  /** Includes holds iff both coerced sides are strings and the right
      contains the left; DoesntInclude is its negation. */
  lemma IncludesComplement(left: Operand, right: Operand, env: DateEnv)
    ensures EvaluateOperator(left, Includes, right, env).Ok?
        <==> EvaluateOperator(left, DoesntInclude, right, env).Ok?
    ensures EvaluateOperator(left, Includes, right, env).Ok? ==>
      var c := Coerce(left, right, env);
      && (EvaluateOperator(left, Includes, right, env).value
          <==> c.0.value.Str? && c.1.value.Str? && Contains(c.1.value.s, c.0.value.s))
      && EvaluateOperator(left, DoesntInclude, right, env).value
          == !EvaluateOperator(left, Includes, right, env).value
  {
  }

  /** Exists and NotExists are complementary, and their answer depends only on
      the left operand: null and undefined both count as absent. */
  lemma ExistenceLooksLeft(left: Operand, right: Operand, right': Operand, env: DateEnv)
    ensures EvaluateOperator(left, Exists, right, env).Ok?
        <==> EvaluateOperator(left, NotExists, right, env).Ok?
    ensures EvaluateOperator(left, Exists, right, env).Ok? ==>
      && EvaluateOperator(left, Exists, right, env).value
         == !(left.value == Null || left.value == Undefined)
      && EvaluateOperator(left, NotExists, right, env).value
         == !EvaluateOperator(left, Exists, right, env).value
    ensures (EvaluateOperator(left, Exists, right, env).Ok?
             && EvaluateOperator(left, Exists, right', env).Ok?) ==>
      EvaluateOperator(left, Exists, right, env) == EvaluateOperator(left, Exists, right', env)
  {
  }

  /** DaysAfter and DaysBefore succeed only for a numeric left operand and a
      right operand that converts to a valid date; the answer compares the
      whole-day difference between now and that date with the number. */
  lemma DaysOperators(left: Operand, op: Op, right: Operand, env: DateEnv)
    requires DaysOperator(op)
    ensures left.value.Num? && ToDate(right.value, env).None? ==>
      EvaluateOperator(left, op, right, env) == Err(InvalidDaysOperand(op))
    ensures !left.value.Num? ==> EvaluateOperator(left, op, right, env).Err?
    ensures left.value.Num? && ToDate(right.value, env).Some? ==>
      var d := ToDate(right.value, env).value;
      EvaluateOperator(left, op, right, env) ==
        Ok(left.value.n ==
           if op == DaysAfter then env.differenceInDays(env.now, d)
           else env.differenceInDays(d, env.now))
  {
  }

  /** An operator outside the enum never yields a boolean. */
  lemma UnlistedOperatorFails(left: Operand, code: string, right: Operand, env: DateEnv)
    ensures EvaluateOperator(left, Unlisted(code), right, env).Err?
  {
  }

  /** The right operand is coerced only while the left is still a string:
      a left string that parses as a date against any right string fails
      with a type mismatch, whatever the operator (days operators aside). */
  lemma DateStringAgainstStringFails(s: string, op: Op, t: string, env: DateEnv)
    requires env.parseDate(s).Some?
    requires !DaysOperator(op)
    ensures EvaluateOperator(Operand(Str(s)), op, Operand(Str(t)), env)
         == Err(TypeMismatch("object", "string"))
  {
  }
}
