/** Token and value types of the condition engine: the five raw token
    shapes, the processed token that adds a boolean result, the operator,
    parenthesis and connective enums with their string codes, and the
    errors the evaluator throws. */
module ConditionTypes {
  import opened Wrappers

  /** Identity of a JS Date object. Strict equality on two Dates compares
      identity, not time: a Date coming from a field accessor keeps the
      identity it was stored with, and each Date the evaluator creates while
      coercing an operand is a new object. */
  datatype DateIdent = Stored(n: nat) | CoercedLeft | CoercedRight

  /** A field or literal value. JS numbers are modelled as integers (no NaN,
      no fractions); a Date carries its time in milliseconds. */
  datatype Value =
    | Str(s: string)
    | Num(n: int)
    | Bool(b: bool)
    | Date(ms: int, ident: DateIdent)
    | Null
    | Undefined

  /** The `FieldType` enum: declared beside the tokens, unused by the engine. */
  datatype FieldType = StringType | NumberType | DateType

  function FieldTypeCode(t: FieldType): (code: string)
    ensures |code| > 0
  {
    match t
    case StringType => "string"
    case NumberType => "number"
    case DateType => "date"
  }

  /** The nineteen comparison operators. `Unlisted(code)` stands for an
      operator string outside the enum that reaches the evaluator from
      stored data; it exercises the `Unsupported operator` branch. */
  datatype Op =
    | Equals | LessThan | GreaterThan | NotEquals | GreaterThanOrEqual | LessThanOrEqual
    | Includes | DoesntInclude | StartsWith | EndsWith | Matches | Exists | NotExists
    | Before | After | OnOrBefore | OnOrAfter | DaysAfter | DaysBefore
    | Unlisted(code: string)

  const ListedCodes: set<string> :=
    {"=", "<", ">", "!=", ">=", "<=", "in", "not-in", "starts-with", "ends-with", "regex",
     "exists", "not-exists", "before", "after", "on-or-before", "on-or-after",
     "days-after", "days-before"}

  function OpCode(op: Op): string {
    match op
    case Equals => "="
    case LessThan => "<"
    case GreaterThan => ">"
    case NotEquals => "!="
    case GreaterThanOrEqual => ">="
    case LessThanOrEqual => "<="
    case Includes => "in"
    case DoesntInclude => "not-in"
    case StartsWith => "starts-with"
    case EndsWith => "ends-with"
    case Matches => "regex"
    case Exists => "exists"
    case NotExists => "not-exists"
    case Before => "before"
    case After => "after"
    case OnOrBefore => "on-or-before"
    case OnOrAfter => "on-or-after"
    case DaysAfter => "days-after"
    case DaysBefore => "days-before"
    case Unlisted(c) => c
  }

  /** Reads an operator string: one of the nineteen codes, or `Unlisted`. */
  function DecodeOp(s: string): (op: Op)
    ensures op.Unlisted? <==> s !in ListedCodes
    ensures OpCode(op) == s
  {
    if s == "=" then Equals
    else if s == "<" then LessThan
    else if s == ">" then GreaterThan
    else if s == "!=" then NotEquals
    else if s == ">=" then GreaterThanOrEqual
    else if s == "<=" then LessThanOrEqual
    else if s == "in" then Includes
    else if s == "not-in" then DoesntInclude
    else if s == "starts-with" then StartsWith
    else if s == "ends-with" then EndsWith
    else if s == "regex" then Matches
    else if s == "exists" then Exists
    else if s == "not-exists" then NotExists
    else if s == "before" then Before
    else if s == "after" then After
    else if s == "on-or-before" then OnOrBefore
    else if s == "on-or-after" then OnOrAfter
    else if s == "days-after" then DaysAfter
    else if s == "days-before" then DaysBefore
    else Unlisted(s)
  }

  /** A well-formed operator: an enum member, or an unlisted code that is
      not one of the enum's codes. */
  predicate WellFormedOp(op: Op) {
    op.Unlisted? ==> op.code !in ListedCodes
  }

  /** Decoding inverts encoding. */
  lemma DecodeOpCode(op: Op)
    requires WellFormedOp(op)
    ensures DecodeOp(OpCode(op)) == op
  {
  }

  /** The codes are pairwise distinct: encoding is injective. */
  lemma {:induction false} OpCodeInjective(a: Op, b: Op)
    requires WellFormedOp(a) && WellFormedOp(b)
    requires OpCode(a) == OpCode(b)
    ensures a == b
  {
    DecodeOpCode(a);
    DecodeOpCode(b);
  }

  datatype ParenKind = Open | Close

  function ParenCode(k: ParenKind): string {
    match k
    case Open => "("
    case Close => ")"
  }

  function DecodeParen(s: string): (k: Option<ParenKind>)
    ensures k.Some? <==> s == "(" || s == ")"
    ensures k.Some? ==> ParenCode(k.value) == s
  {
    if s == "(" then Some(Open) else if s == ")" then Some(Close) else None
  }

  datatype Connective = And | Or

  function ConnectiveCode(c: Connective): string {
    match c
    case And => "and"
    case Or => "or"
  }

  function DecodeConnective(s: string): (c: Option<Connective>)
    ensures c.Some? <==> s == "and" || s == "or"
    ensures c.Some? ==> ConnectiveCode(c.value) == s
  {
    if s == "and" then Some(And) else if s == "or" then Some(Or) else None
  }

  /** A raw condition token: one of the five shapes, or a stored token
      that carries both a `field` and a `value` key. */
  datatype Token =
    | Field(name: string)
    | Operator(op: Op)
    | Paren(kind: ParenKind)
    | Logical(conn: Connective)
    | Literal(value: Value)
    | FieldAndLiteral(name: string, value: Value)

  /** `'value' in condition`. */
  predicate HasValueKey(t: Token) {
    t.Literal? || t.FieldAndLiteral?
  }

  /** A token during evaluation: a raw token or a boolean result. */
  datatype Processed = Raw(token: Token) | BoolResult(b: bool)

  /** A comparison operand record: `{ value }`. */
  datatype Operand = Operand(value: Value)

  predicate IsOperand(p: Processed) {
    p.Raw? && (p.token.Field? || HasValueKey(p.token))
  }

  predicate IsOperatorToken(p: Processed) {
    p.Raw? && p.token.Operator?
  }

  predicate IsParen(p: Processed) {
    p.Raw? && p.token.Paren?
  }

  function Raws(ts: seq<Token>): (ps: seq<Processed>)
    ensures |ps| == |ts|
    ensures forall i :: 0 <= i < |ts| ==> ps[i] == Raw(ts[i])
  {
    seq(|ts|, i requires 0 <= i < |ts| => Raw(ts[i]))
  }

  /** Everything the evaluator can throw. */
  datatype EvalError =
    | UnmatchedClosing
    | UnmatchedOpening
    | IncompleteComparison
    | OperatorUndefined
    | ExpectedOperand
    | OperandUndefined
    | NotAFunction(field: string)
    | LookupRejected(reason: string)
    | TypeMismatch(left: string, right: string)
    | StringFieldOperator(op: Op)
    | NumericFieldOperator(op: Op)
    | DateFieldOperator(op: Op)
    | InvalidDaysOperand(op: Op)
    | UnsupportedOperator(op: Op)
    | InvalidRegex(pattern: string)

  /** The message of the Error the source throws for each case. A missing
      accessor keeps its field name in the model, but the engine's message
      quotes the call as it is written in the source. */
  function Message(e: EvalError): string {
    match e
    case UnmatchedClosing => "Unmatched closing parentheses"
    case UnmatchedOpening => "Unmatched opening parentheses"
    case IncompleteComparison => "Incomplete comparison expression"
    case OperatorUndefined => "Operator is undefined before field evaluation"
    case ExpectedOperand => "Expected field or value after operator"
    case OperandUndefined => "Field or value is undefined"
    case NotAFunction(f) => "this.fieldCacheService[field] is not a function"
    case LookupRejected(r) => r
    case TypeMismatch(l, r) => "Field types do not match: " + l + " vs " + r
    case StringFieldOperator(op) =>
      "Cannot use mathematical or date operator " + OpCode(op) + " on string fields"
    case NumericFieldOperator(op) =>
      "Cannot use string or date operator " + OpCode(op) + " on numeric fields"
    case DateFieldOperator(op) => "Cannot use operator " + OpCode(op) + " on date fields"
    case InvalidDaysOperand(op) =>
      if op == DaysAfter then "Invalid date value for BeforeByDays operator"
      else "Invalid date value for AfterByDays operator"
    case UnsupportedOperator(op) => "Unsupported operator: " + OpCode(op)
    case InvalidRegex(p) => "Invalid regular expression: /" + p + "/"
  }
}
