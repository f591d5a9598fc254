/** The condition evaluator: parenthesis validation, innermost-first group
    reduction, the comparison pass, the AND pass and the OR pass. Each pass
    is a method with the source's loop, proved equal to a recursive
    function that states what the pass computes. */
module ConditionService {
  import opened Wrappers
  import opened ConditionTypes
  import opened CompareOperators
  import opened FieldCache

  /** The accessors of the field-cache service: each field name maps to the
      settled outcome of its memoised accessor. A name with no accessor is
      absent from the map. */
  type Fields = map<string, Settled<Value>>

  /** What an evaluation can see besides its tokens. */
  datatype Context = Context(fields: Fields, env: DateEnv)

  // ---------------------------------------------------------------------
  // Field lookup
  // ---------------------------------------------------------------------

  /** `getFieldValue(field)`: calls the accessor named `field`. */
  function GetFieldValue(name: string, ctx: Context): (r: Result<Value, EvalError>)
    ensures name !in ctx.fields ==> r == Err(NotAFunction(name))
    ensures name in ctx.fields && ctx.fields[name].Rejected? ==>
              r == Err(LookupRejected(ctx.fields[name].reason))
    ensures name in ctx.fields && ctx.fields[name].Fulfilled? ==> r == Ok(ctx.fields[name].value)
  {
    if name !in ctx.fields then Err(NotAFunction(name))
    else match ctx.fields[name]
      case Rejected(reason) => Err(LookupRejected(reason))
      case Fulfilled(v) => Ok(v)
  }

  /** `createFieldOrValue`: a literal becomes an operand as it is, a field
      becomes an operand holding its accessor's value, and an undefined
      field value (or any other token) gives `null`, here `None`. */
  function CreateFieldOrValue(p: Processed, ctx: Context): (r: Result<Option<Operand>, EvalError>)
    ensures p.Raw? && HasValueKey(p.token) ==> r == Ok(Some(Operand(p.token.value)))
    ensures !IsOperand(p) ==> r == Ok(None)
    ensures p.Raw? && p.token.Field? ==>
              (r == Ok(None) <==> GetFieldValue(p.token.name, ctx) == Ok(Undefined))
    ensures p.Raw? && p.token.Field? && GetFieldValue(p.token.name, ctx).Ok?
            && GetFieldValue(p.token.name, ctx).value != Undefined ==>
              r == Ok(Some(Operand(GetFieldValue(p.token.name, ctx).value)))
    ensures r.Err? <==> p.Raw? && p.token.Field? && GetFieldValue(p.token.name, ctx).Err?
  {
    if p.Raw? && HasValueKey(p.token) then Ok(Some(Operand(p.token.value)))
    else if p.Raw? && p.token.Field? then
      var v :- GetFieldValue(p.token.name, ctx);
      if v == Undefined then Ok(None) else Ok(Some(Operand(v)))
    else Ok(None)
  }

  // ---------------------------------------------------------------------
  // validateParentheses
  // ---------------------------------------------------------------------

  /** The depth scan from position `i` with the depth reached so far. */
  function ScanDepth(ps: seq<Processed>, i: nat, depth: int): Option<EvalError>
    requires i <= |ps|
    decreases |ps| - i
  {
    if i == |ps| then (if depth > 0 then Some(UnmatchedOpening) else None)
    else if ps[i] == Raw(Paren(Open)) then ScanDepth(ps, i + 1, depth + 1)
    else if ps[i] == Raw(Paren(Close)) then
      (if depth - 1 < 0 then Some(UnmatchedClosing) else ScanDepth(ps, i + 1, depth - 1))
    else ScanDepth(ps, i + 1, depth)
  }

  /** The error `validateParentheses` throws, or `None` when it passes. */
  function ParenthesesError(ps: seq<Processed>): (r: Option<EvalError>)
    ensures r.None? || r == Some(UnmatchedClosing) || r == Some(UnmatchedOpening)
  {
    ScanErrors(ps, 0, 0);
    ScanDepth(ps, 0, 0)
  }

  lemma {:induction false} ScanErrors(ps: seq<Processed>, i: nat, depth: int)
    requires i <= |ps|
    ensures var r := ScanDepth(ps, i, depth);
            r.None? || r == Some(UnmatchedClosing) || r == Some(UnmatchedOpening)
    decreases |ps| - i
  {
    if i < |ps| {
      if ps[i] == Raw(Paren(Open)) {
        ScanErrors(ps, i + 1, depth + 1);
      } else if ps[i] == Raw(Paren(Close)) {
        if depth - 1 >= 0 {
          ScanErrors(ps, i + 1, depth - 1);
        }
      } else {
        ScanErrors(ps, i + 1, depth);
      }
    }
  }

  method ValidateParentheses(ps: seq<Processed>) returns (err: Option<EvalError>)
    ensures err == ParenthesesError(ps)
  {
    var depth := 0;
    for i := 0 to |ps|
      invariant ScanDepth(ps, 0, 0) == ScanDepth(ps, i, depth)
    {
      if ps[i] == Raw(Paren(Open)) {
        depth := depth + 1;
      } else if ps[i] == Raw(Paren(Close)) {
        depth := depth - 1;
        if depth < 0 {
          return Some(UnmatchedClosing);
        }
      }
    }
    if depth > 0 {
      return Some(UnmatchedOpening);
    }
    return None;
  }

  // ---------------------------------------------------------------------
  // findParenthesesPair
  // ---------------------------------------------------------------------

  /** The pair scan from position `i`, with the depth so far and the start
      of the current top-level group (-1 while there is none). */
  function PairFrom(ps: seq<Processed>, i: nat, depth: int, start: int): (r: Option<(int, int)>)
    requires i <= |ps|
    requires -1 <= start < i
    requires start >= 0 ==> ps[start] == Raw(Paren(Open))
    ensures r.Some? ==> 0 <= r.value.0 < r.value.1 < |ps|
    ensures r.Some? ==> ps[r.value.0] == Raw(Paren(Open)) && ps[r.value.1] == Raw(Paren(Close))
    decreases |ps| - i
  {
    if i == |ps| then None
    else if ps[i] == Raw(Paren(Open)) then
      PairFrom(ps, i + 1, depth + 1, if depth == 0 then i else start)
    else if ps[i] == Raw(Paren(Close)) then
      if depth - 1 == 0 && start != -1 then Some((start, i))
      else PairFrom(ps, i + 1, depth - 1, start)
    else PairFrom(ps, i + 1, depth, start)
  }

  /** The first top-level group `findParenthesesPair` reports: an opening
      parenthesis before the closing one that brings the depth back to 0. */
  function TopLevelPair(ps: seq<Processed>): (r: Option<(int, int)>)
    ensures r.Some? ==> 0 <= r.value.0 < r.value.1 < |ps|
    ensures r.Some? ==> ps[r.value.0] == Raw(Paren(Open)) && ps[r.value.1] == Raw(Paren(Close))
  {
    PairFrom(ps, 0, 0, -1)
  }

  method FindParenthesesPair(ps: seq<Processed>) returns (pair: Option<(int, int)>)
    ensures pair == TopLevelPair(ps)
  {
    var depth := 0;
    var start := -1;
    for i := 0 to |ps|
      invariant -1 <= start < i
      invariant start >= 0 ==> ps[start] == Raw(Paren(Open))
      invariant TopLevelPair(ps) == PairFrom(ps, i, depth, start)
    {
      if ps[i] == Raw(Paren(Open)) {
        if depth == 0 {
          start := i;
        }
        depth := depth + 1;
      } else if ps[i] == Raw(Paren(Close)) {
        depth := depth - 1;
        if depth == 0 && start != -1 {
          return Some((start, i));
        }
      }
    }
    return None;
  }

  /** The token list after one reduction round: the group `ps[s..e+1]` is
      replaced by its boolean result. */
  function Replace(ps: seq<Processed>, s: int, e: int, b: bool): (r: seq<Processed>)
    requires 0 <= s < e < |ps|
    ensures |r| == |ps| - (e - s)
    ensures r[..s] == ps[..s] && r[s] == BoolResult(b) && r[s + 1..] == ps[e + 1..]
  {
    ps[..s] + [BoolResult(b)] + ps[e + 1..]
  }

  // ---------------------------------------------------------------------
  // evaluateComparisonOperators
  // ---------------------------------------------------------------------

  /** The comparison pass: every `operand operator operand` triple becomes
      its boolean result, every other token passes through, and a malformed
      triple or a failing lookup or operator throws. */
  function ComparisonPass(ps: seq<Processed>, ctx: Context): (r: Result<seq<Processed>, EvalError>)
    ensures r.Err? ==> r.error != UnmatchedClosing && r.error != UnmatchedOpening
    decreases |ps|
  {
    if ps == [] then Ok([])
    else if !IsOperand(ps[0]) then
      var rest :- ComparisonPass(ps[1..], ctx);
      Ok([ps[0]] + rest)
    else if |ps| < 3 then Err(IncompleteComparison)
    else if !IsOperatorToken(ps[1]) then Err(OperatorUndefined)
    else if !IsOperand(ps[2]) then Err(ExpectedOperand)
    else
      var left :- CreateFieldOrValue(ps[0], ctx);
      var right :- CreateFieldOrValue(ps[2], ctx);
      if left.None? || right.None? then Err(OperandUndefined)
      else
        var b :- EvaluateOperator(left.value, ps[1].token.op, right.value, ctx.env);
        var rest :- ComparisonPass(ps[3..], ctx);
        Ok([BoolResult(b)] + rest)
  }

  /** Puts already processed tokens in front of the outcome of the rest. */
  function Prepend(done: seq<Processed>, rest: Result<seq<Processed>, EvalError>): Result<seq<Processed>, EvalError> {
    if rest.Ok? then Ok(done + rest.value) else rest
  }

  lemma PrependAssoc(a: seq<Processed>, b: seq<Processed>, rest: Result<seq<Processed>, EvalError>)
    ensures Prepend(a, Prepend(b, rest)) == Prepend(a + b, rest)
  {
    if rest.Ok? {
      assert a + (b + rest.value) == (a + b) + rest.value;
    }
  }

  method EvaluateComparisonOperators(ps: seq<Processed>, ctx: Context)
    returns (r: Result<seq<Processed>, EvalError>)
    ensures r == ComparisonPass(ps, ctx)
  {
    var processed := [];
    var i := 0;
    assert ps[0..] == ps;
    assert Prepend([], ComparisonPass(ps, ctx)) == ComparisonPass(ps, ctx) by {
      var c := ComparisonPass(ps, ctx);
      if c.Ok? {
        assert [] + c.value == c.value;
      }
    }
    while i < |ps|
      invariant 0 <= i <= |ps|
      invariant ComparisonPass(ps, ctx) == Prepend(processed, ComparisonPass(ps[i..], ctx))
    {
      var condition := ps[i];
      assert ps[i..][0] == condition && ps[i..][1..] == ps[i + 1..];
      if condition.BoolResult? || condition.token.Logical? || condition.token.Paren?
        || condition.token.Operator? {
        PrependAssoc(processed, [condition], ComparisonPass(ps[i + 1..], ctx));
        processed := processed + [condition];
        i := i + 1;
        continue;
      }
      if i + 2 >= |ps| {
        return Err(IncompleteComparison);
      }
      var operatorCondition := ps[i + 1];
      var rightCondition := ps[i + 2];
      assert ps[i..][2] == rightCondition && ps[i..][3..] == ps[i + 3..];
      if !IsOperatorToken(operatorCondition) {
        return Err(OperatorUndefined);
      }
      if !IsOperand(rightCondition) {
        return Err(ExpectedOperand);
      }
      var left := CreateFieldOrValue(condition, ctx);
      if left.Err? {
        return Err(left.error);
      }
      var right := CreateFieldOrValue(rightCondition, ctx);
      if right.Err? {
        return Err(right.error);
      }
      if left.value.None? || right.value.None? {
        return Err(OperandUndefined);
      }
      var result := EvaluateOperator(left.value.value, operatorCondition.token.op, right.value.value, ctx.env);
      if result.Err? {
        return Err(result.error);
      }
      PrependAssoc(processed, [BoolResult(result.value)], ComparisonPass(ps[i + 3..], ctx));
      processed := processed + [BoolResult(result.value)];
      i := i + 3;
    }
    assert ps[i..] == [];
    assert processed + [] == processed;
    return Ok(processed);
  }

  // ---------------------------------------------------------------------
  // evaluateAndOperators
  // ---------------------------------------------------------------------

  /** Folds the `and result` pairs that follow a result into `acc`, and
      returns the fold with the tokens after the run. */
  function AndRun(acc: bool, ps: seq<Processed>): (r: (bool, seq<Processed>))
    ensures |r.1| <= |ps|
    decreases |ps|
  {
    if |ps| >= 2 && ps[0] == Raw(Logical(And)) && ps[1].BoolResult? then
      AndRun(acc && ps[1].b, ps[2..])
    else (acc, ps)
  }

  /** The AND pass: each maximal run `result and result … and result`
      collapses into one result; everything else passes through. */
  function AndPass(ps: seq<Processed>): seq<Processed>
    decreases |ps|
  {
    if ps == [] then []
    else if ps[0].BoolResult? then
      var run := AndRun(ps[0].b, ps[1..]);
      [BoolResult(run.0)] + AndPass(run.1)
    else [ps[0]] + AndPass(ps[1..])
  }

  lemma AppendAssoc(a: seq<Processed>, b: seq<Processed>, c: seq<Processed>)
    ensures a + (b + c) == (a + b) + c
  {
  }

  /** One step of the AND pass at position `i`. */
  lemma AndPassAt(ps: seq<Processed>, i: nat)
    requires i < |ps|
    ensures AndPass(ps[i..]) ==
              if ps[i].BoolResult? then
                var run := AndRun(ps[i].b, ps[i + 1..]);
                [BoolResult(run.0)] + AndPass(run.1)
              else [ps[i]] + AndPass(ps[i + 1..])
  {
    assert ps[i..][0] == ps[i] && ps[i..][1..] == ps[i + 1..];
  }

  /** One step of an AND run at position `j`. */
  lemma AndRunAt(acc: bool, ps: seq<Processed>, j: nat)
    requires j <= |ps|
    ensures AndRun(acc, ps[j..]) ==
              if j + 1 < |ps| && ps[j] == Raw(Logical(And)) && ps[j + 1].BoolResult? then
                AndRun(acc && ps[j + 1].b, ps[j + 2..])
              else (acc, ps[j..])
  {
    if j + 1 < |ps| {
      assert ps[j..][0] == ps[j] && ps[j..][1] == ps[j + 1] && ps[j..][2..] == ps[j + 2..];
    }
  }

  /** The inner loop of `evaluateAndOperators`: starting after the result
      at `i`, consumes `and result` pairs while they last. */
  method CollapseAndRun(ps: seq<Processed>, i: nat) returns (result: bool, j: nat)
    requires i < |ps| && ps[i].BoolResult?
    ensures i + 1 <= j <= |ps|
    ensures AndRun(ps[i].b, ps[i + 1..]) == (result, ps[j..])
  {
    result := ps[i].b;
    j := i + 1;
    while j + 1 < |ps|
      invariant i + 1 <= j <= |ps|
      invariant AndRun(ps[i].b, ps[i + 1..]) == AndRun(result, ps[j..])
    {
      AndRunAt(result, ps, j);
      if ps[j] == Raw(Logical(And)) && ps[j + 1].BoolResult? {
        result := result && ps[j + 1].b;
        j := j + 2;
      } else {
        break;
      }
    }
    AndRunAt(result, ps, j);
  }

  method EvaluateAndOperators(ps: seq<Processed>) returns (processed: seq<Processed>)
    ensures processed == AndPass(ps)
  {
    processed := [];
    var i := 0;
    assert ps[0..] == ps;
    while i < |ps|
      invariant 0 <= i <= |ps|
      invariant AndPass(ps) == processed + AndPass(ps[i..])
    {
      var current := ps[i];
      AndPassAt(ps, i);
      if current.BoolResult? {
        var result, j := CollapseAndRun(ps, i);
        AppendAssoc(processed, [BoolResult(result)], AndPass(ps[j..]));
        processed := processed + [BoolResult(result)];
        i := j;
      } else {
        AppendAssoc(processed, [current], AndPass(ps[i + 1..]));
        processed := processed + [current];
        i := i + 1;
      }
    }
    assert ps[i..] == [];
    assert processed + [] == processed;
  }

  // ---------------------------------------------------------------------
  // evaluateOrOperators
  // ---------------------------------------------------------------------

  /** The OR scan from position `i` with the accumulator so far (`None` is
      the source's `null`). A result preceded by `or` is or-ed in; any other
      result overwrites the accumulator. */
  function OrScan(ps: seq<Processed>, i: nat, acc: Option<bool>): bool
    requires i <= |ps|
    decreases |ps| - i
  {
    if i == |ps| then (if acc.Some? then acc.value else false)
    else if ps[i].BoolResult? then
      var next :=
        if acc.None? then ps[i].b
        else if i > 0 && ps[i - 1] == Raw(Logical(Or)) then acc.value || ps[i].b
        else ps[i].b;
      OrScan(ps, i + 1, Some(next))
    else OrScan(ps, i + 1, acc)
  }

  /** The OR pass, with its shortcut for a lone result. */
  function OrPass(ps: seq<Processed>): bool {
    if |ps| == 1 && ps[0].BoolResult? then ps[0].b else OrScan(ps, 0, None)
  }

  method EvaluateOrOperators(ps: seq<Processed>) returns (r: bool)
    ensures r == OrPass(ps)
  {
    if |ps| == 1 && ps[0].BoolResult? {
      return ps[0].b;
    }
    var result: Option<bool> := None;
    var i := 0;
    while i < |ps|
      invariant 0 <= i <= |ps|
      invariant OrScan(ps, 0, None) == OrScan(ps, i, result)
    {
      if ps[i].BoolResult? {
        if result.None? {
          result := Some(ps[i].b);
        } else {
          var orOperatorBeforeCondition := i > 0 && ps[i - 1] == Raw(Logical(Or));
          if orOperatorBeforeCondition {
            result := Some(result.value || ps[i].b);
          } else {
            result := Some(ps[i].b);
          }
        }
      }
      i := i + 1;
    }
    r := if result.Some? then result.value else false;
  }

  // ---------------------------------------------------------------------
  // evaluateLogicalExpression and evaluateConditions
  // ---------------------------------------------------------------------

  /** A parenthesis-free list: comparisons, then AND, then OR. */
  function LogicalValue(ps: seq<Processed>, ctx: Context): (r: Result<bool, EvalError>)
    ensures r.Err? ==> r.error != UnmatchedClosing && r.error != UnmatchedOpening
  {
    var compared :- ComparisonPass(ps, ctx);
    Ok(OrPass(AndPass(compared)))
  }

  method EvaluateLogicalExpression(ps: seq<Processed>, ctx: Context) returns (r: Result<bool, EvalError>)
    ensures r == LogicalValue(ps, ctx)
  {
    var compared := EvaluateComparisonOperators(ps, ctx);
    if compared.Err? {
      return Err(compared.error);
    }
    var andProcessed := EvaluateAndOperators(compared.value);
    var b := EvaluateOrOperators(andProcessed);
    return Ok(b);
  }

  /** The full evaluation: validate, reduce every group, then combine. */
  function Evaluation(ps: seq<Processed>, ctx: Context): Result<bool, EvalError>
    decreases |ps|, 1
  {
    var check := ParenthesesError(ps);
    if check.Some? then Err(check.value)
    else
      var flat :- GroupPass(ps, ctx);
      LogicalValue(flat, ctx)
  }

  /** Repeatedly replaces the first top-level group by its evaluation, until
      no group is left. */
  function GroupPass(ps: seq<Processed>, ctx: Context): Result<seq<Processed>, EvalError>
    decreases |ps|, 0
  {
    match TopLevelPair(ps)
    case None => Ok(ps)
    case Some((s, e)) =>
      var b :- Evaluation(ps[s + 1..e], ctx);
      GroupPass(Replace(ps, s, e, b), ctx)
  }

  method EvaluateConditions(ps: seq<Processed>, ctx: Context) returns (r: Result<bool, EvalError>)
    ensures r == Evaluation(ps, ctx)
    decreases |ps|
  {
    var check := ValidateParentheses(ps);
    if check.Some? {
      return Err(check.value);
    }
    var processed := ps;
    while true
      invariant |processed| <= |ps|
      invariant GroupPass(ps, ctx) == GroupPass(processed, ctx)
      decreases |processed|
    {
      var pair := FindParenthesesPair(processed);
      if pair.None? {
        break;
      }
      var (s, e) := pair.value;
      var result := EvaluateConditions(processed[s + 1..e], ctx);
      if result.Err? {
        return Err(result.error);
      }
      processed := Replace(processed, s, e, result.value);
    }
    r := EvaluateLogicalExpression(processed, ctx);
  }

  /** `evaluateConditions` on the raw tokens of a condition block. */
  method EvaluateTokens(ts: seq<Token>, ctx: Context) returns (r: Result<bool, EvalError>)
    ensures r == Evaluation(Raws(ts), ctx)
  {
    r := EvaluateConditions(Raws(ts), ctx);
  }
}
