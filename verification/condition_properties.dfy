/** What the condition evaluator guarantees: parenthesis errors are decided
    by the nesting depth alone and before any field is read, a balanced list
    never fails on parentheses, reduction leaves no parenthesis behind, the
    comparison pass consumes exactly the operand triples, and AND binds
    tighter than OR. */
module ConditionProperties {
  import opened Wrappers
  import opened ConditionTypes
  import opened CompareOperators
  import opened ConditionService
  import FieldCache

  // ---------------------------------------------------------------------
  // Nesting depth
  // ---------------------------------------------------------------------

  function Delta(p: Processed): int {
    if p == Raw(Paren(Open)) then 1 else if p == Raw(Paren(Close)) then -1 else 0
  }

  /** Opening minus closing parentheses in `ps`. */
  function Net(ps: seq<Processed>): int
    decreases |ps|
  {
    if ps == [] then 0 else Net(ps[..|ps| - 1]) + Delta(ps[|ps| - 1])
  }

  /** The depth after the first `k` tokens. */
  function Depth(ps: seq<Processed>, k: int): int
    requires 0 <= k <= |ps|
  {
    Net(ps[..k])
  }

  /** Every prefix has depth at least 0 and the whole list has depth 0. */
  predicate Balanced(ps: seq<Processed>) {
    Net(ps) == 0 && forall k :: 0 <= k <= |ps| ==> Depth(ps, k) >= 0
  }

  /** Some prefix closes more parentheses than it opened. */
  predicate DipsBelowZero(ps: seq<Processed>) {
    exists k :: 0 <= k <= |ps| && Depth(ps, k) < 0
  }

  lemma ParenShapes(p: Processed)
    ensures IsParen(p) <==> p == Raw(Paren(Open)) || p == Raw(Paren(Close))
  {
    if p.Raw? && p.token.Paren? {
      match p.token.kind
      case Open =>
        assert p == Raw(Paren(Open));
      case Close =>
        assert p == Raw(Paren(Close));
    }
  }

  predicate NoParens(ps: seq<Processed>) {
    forall k :: 0 <= k < |ps| ==> !IsParen(ps[k])
  }

  lemma {:induction false} NetAppend(a: seq<Processed>, b: seq<Processed>)
    ensures Net(a + b) == Net(a) + Net(b)
    decreases |b|
  {
    if b == [] {
      assert a + b == a;
    } else {
      var b' := b[..|b| - 1];
      assert (a + b)[..|a + b| - 1] == a + b';
      NetAppend(a, b');
    }
  }

  lemma DepthStep(ps: seq<Processed>, k: int)
    requires 0 <= k < |ps|
    ensures Depth(ps, k + 1) == Depth(ps, k) + Delta(ps[k])
  {
    assert ps[..k + 1][..k] == ps[..k];
  }

  lemma DepthWhole(ps: seq<Processed>)
    ensures Depth(ps, |ps|) == Net(ps) && Depth(ps, 0) == 0
  {
    assert ps[..|ps|] == ps;
    assert ps[..0] == [];
  }

  lemma SplitDepth(ps: seq<Processed>, a: int, b: int)
    requires 0 <= a <= b <= |ps|
    ensures Depth(ps, b) == Depth(ps, a) + Net(ps[a..b])
  {
    assert ps[..b] == ps[..a] + ps[a..b];
    NetAppend(ps[..a], ps[a..b]);
  }

  /** Without parentheses every depth is 0, so the list is balanced. */
  lemma {:induction false} NoParensBalanced(ps: seq<Processed>)
    requires NoParens(ps)
    ensures Balanced(ps)
  {
    forall k | 0 <= k <= |ps|
      ensures Depth(ps, k) == 0
    {
      NoParensDepth(ps, k);
    }
    DepthWhole(ps);
  }

  lemma {:induction false} NoParensDepth(ps: seq<Processed>, k: int)
    requires NoParens(ps) && 0 <= k <= |ps|
    ensures Depth(ps, k) == 0
    decreases k
  {
    if k == 0 {
      DepthWhole(ps);
    } else {
      NoParensDepth(ps, k - 1);
      DepthStep(ps, k - 1);
    }
  }

  // ---------------------------------------------------------------------
  // validateParentheses decides by depth alone
  // ---------------------------------------------------------------------

  lemma {:induction false} ScanDepthSpec(ps: seq<Processed>, i: nat)
    requires i <= |ps|
    requires forall k :: 0 <= k <= i ==> Depth(ps, k) >= 0
    ensures ScanDepth(ps, i, Depth(ps, i)) ==
              if exists k :: i < k <= |ps| && Depth(ps, k) < 0 then Some(UnmatchedClosing)
              else if Net(ps) > 0 then Some(UnmatchedOpening)
              else None
    decreases |ps| - i
  {
    if i == |ps| {
      DepthWhole(ps);
    } else {
      DepthStep(ps, i);
      if ps[i] == Raw(Paren(Close)) && Depth(ps, i) - 1 < 0 {
        assert Depth(ps, i + 1) < 0;
      } else {
        ScanDepthSpec(ps, i + 1);
        if exists k :: i < k <= |ps| && Depth(ps, k) < 0 {
          var k :| i < k <= |ps| && Depth(ps, k) < 0;
          assert k != i + 1;
        }
      }
    }
  }

  /** `validateParentheses` passes exactly on balanced lists; it reports an
      unmatched closing parenthesis exactly when some prefix dips below
      depth 0, and an unmatched opening one exactly when none does but the
      final depth is positive. */
  lemma {:induction false} ValidationMatchesDepth(ps: seq<Processed>)
    ensures ParenthesesError(ps) == None <==> Balanced(ps)
    ensures ParenthesesError(ps) == Some(UnmatchedClosing) <==> DipsBelowZero(ps)
    ensures ParenthesesError(ps) == Some(UnmatchedOpening) <==> !DipsBelowZero(ps) && Net(ps) > 0
  {
    DepthWhole(ps);
    ScanDepthSpec(ps, 0);
    if !DipsBelowZero(ps) {
      assert Net(ps) >= 0;
    }
  }

  // ---------------------------------------------------------------------
  // findParenthesesPair on balanced lists
  // ---------------------------------------------------------------------

  /** `ps[s..e+1]` is a complete top-level group: it opens at depth 0,
      stays above 0 inside, and closes back to 0. */
  predicate TopLevelGroup(ps: seq<Processed>, s: int, e: int) {
    0 <= s < e < |ps| && ps[s] == Raw(Paren(Open)) && ps[e] == Raw(Paren(Close))
    && Depth(ps, s) == 0 && Depth(ps, e + 1) == 0
    && forall k :: s < k <= e ==> Depth(ps, k) > 0
  }

  lemma {:induction false} PairInside(ps: seq<Processed>, i: nat, start: int)
    requires Balanced(ps)
    requires 0 <= start < i <= |ps| && ps[start] == Raw(Paren(Open)) && Depth(ps, start) == 0
    requires forall k :: start < k <= i ==> Depth(ps, k) > 0
    ensures var r := PairFrom(ps, i, Depth(ps, i), start);
            r.Some? && r.value.0 == start && TopLevelGroup(ps, start, r.value.1)
    decreases |ps| - i
  {
    DepthWhole(ps);
    if i < |ps| {
      DepthStep(ps, i);
      if ps[i] == Raw(Paren(Close)) && Depth(ps, i) - 1 == 0 {
      } else {
        assert Depth(ps, i + 1) >= 0;
        PairInside(ps, i + 1, start);
      }
    }
  }

  lemma {:induction false} PairOutside(ps: seq<Processed>, i: nat, start: int)
    requires Balanced(ps)
    requires i <= |ps| && -1 <= start < i && (start >= 0 ==> ps[start] == Raw(Paren(Open)))
    requires Depth(ps, i) == 0
    ensures var r := PairFrom(ps, i, 0, start);
            (r.None? <==> forall k :: i <= k < |ps| ==> !IsParen(ps[k]))
            && (r.Some? ==> TopLevelGroup(ps, r.value.0, r.value.1))
    decreases |ps| - i
  {
    if i < |ps| {
      DepthStep(ps, i);
      if ps[i] == Raw(Paren(Open)) {
        PairInside(ps, i + 1, i);
      } else if ps[i] == Raw(Paren(Close)) {
        assert false;
      } else {
        PairOutside(ps, i + 1, start);
        ParenShapes(ps[i]);
        assert (forall k :: i <= k < |ps| ==> !IsParen(ps[k]))
            <==> (forall k :: i + 1 <= k < |ps| ==> !IsParen(ps[k]));
      }
    }
  }

  /** On a balanced list `findParenthesesPair` finds a group exactly when
      there is a parenthesis, and the group it finds is the first complete
      top-level group. */
  lemma TopLevelPairBalanced(ps: seq<Processed>)
    requires Balanced(ps)
    ensures TopLevelPair(ps).None? <==> NoParens(ps)
    ensures TopLevelPair(ps).Some? ==> TopLevelGroup(ps, TopLevelPair(ps).value.0, TopLevelPair(ps).value.1)
  {
    DepthWhole(ps);
    PairOutside(ps, 0, -1);
  }

  // ---------------------------------------------------------------------
  // One reduction round keeps the list balanced
  // ---------------------------------------------------------------------

  lemma ReplaceDepth(ps: seq<Processed>, s: int, e: int, b: bool, k: int)
    requires TopLevelGroup(ps, s, e)
    requires 0 <= k <= |Replace(ps, s, e, b)|
    ensures k <= s ==> Depth(Replace(ps, s, e, b), k) == Depth(ps, k)
    ensures k > s ==> Depth(Replace(ps, s, e, b), k) == Depth(ps, k + (e - s))
  {
    var r := Replace(ps, s, e, b);
    if k <= s {
      assert r[..k] == ps[..k];
    } else {
      var m := k - s - 1;
      assert r[..k] == ps[..s] + ([BoolResult(b)] + ps[e + 1..e + 1 + m]);
      NetAppend(ps[..s], [BoolResult(b)] + ps[e + 1..e + 1 + m]);
      NetAppend([BoolResult(b)], ps[e + 1..e + 1 + m]);
      assert [BoolResult(b)][..0] == [];
      SplitDepth(ps, e + 1, e + 1 + m);
    }
  }

  lemma InteriorDepth(ps: seq<Processed>, s: int, e: int, m: int)
    requires TopLevelGroup(ps, s, e)
    requires 0 <= m <= e - s - 1
    ensures Depth(ps[s + 1..e], m) == Depth(ps, s + 1 + m) - 1
  {
    assert ps[s + 1..e][..m] == ps[s + 1..s + 1 + m];
    SplitDepth(ps, s + 1, s + 1 + m);
    DepthStep(ps, s);
  }

  /** Replacing a top-level group of a balanced list by its result leaves a
      balanced, strictly shorter list, and the group's interior, evaluated
      recursively, is balanced too. */
  lemma {:induction false} ReplaceKeepsBalance(ps: seq<Processed>, s: int, e: int, b: bool)
    requires Balanced(ps) && TopLevelGroup(ps, s, e)
    ensures Balanced(Replace(ps, s, e, b)) && |Replace(ps, s, e, b)| < |ps|
    ensures Balanced(ps[s + 1..e])
  {
    var r := Replace(ps, s, e, b);
    forall k | 0 <= k <= |r|
      ensures Depth(r, k) >= 0
    {
      ReplaceDepth(ps, s, e, b, k);
    }
    ReplaceDepth(ps, s, e, b, |r|);
    DepthWhole(ps);
    DepthWhole(r);
    var inner := ps[s + 1..e];
    forall m | 0 <= m <= |inner|
      ensures Depth(inner, m) >= 0
    {
      InteriorDepth(ps, s, e, m);
    }
    InteriorDepth(ps, s, e, |inner|);
    DepthStep(ps, e);
    DepthWhole(inner);
  }

  /** After group reduction of a balanced list no parenthesis is left. */
  lemma {:induction false} NoParenSurvives(ps: seq<Processed>, ctx: Context)
    requires Balanced(ps) && GroupPass(ps, ctx).Ok?
    ensures NoParens(GroupPass(ps, ctx).value)
    decreases |ps|
  {
    TopLevelPairBalanced(ps);
    match TopLevelPair(ps)
    case None =>
    case Some((s, e)) =>
      var b := Evaluation(ps[s + 1..e], ctx).value;
      ReplaceKeepsBalance(ps, s, e, b);
      NoParenSurvives(Replace(ps, s, e, b), ctx);
  }

  lemma {:induction false} EvaluationBalanced(ps: seq<Processed>, ctx: Context)
    requires Balanced(ps)
    ensures Evaluation(ps, ctx).Err? ==>
              Evaluation(ps, ctx).error != UnmatchedClosing && Evaluation(ps, ctx).error != UnmatchedOpening
    decreases |ps|, 1
  {
    ValidationMatchesDepth(ps);
    GroupPassBalanced(ps, ctx);
  }

  lemma {:induction false} GroupPassBalanced(ps: seq<Processed>, ctx: Context)
    requires Balanced(ps)
    ensures GroupPass(ps, ctx).Err? ==>
              GroupPass(ps, ctx).error != UnmatchedClosing && GroupPass(ps, ctx).error != UnmatchedOpening
    decreases |ps|, 0
  {
    TopLevelPairBalanced(ps);
    match TopLevelPair(ps)
    case None =>
    case Some((s, e)) =>
      ReplaceKeepsBalance(ps, s, e, false);
      EvaluationBalanced(ps[s + 1..e], ctx);
      var inner := Evaluation(ps[s + 1..e], ctx);
      if inner.Ok? {
        ReplaceKeepsBalance(ps, s, e, inner.value);
        GroupPassBalanced(Replace(ps, s, e, inner.value), ctx);
      }
  }

  /** Parenthesis errors are decided by the depth alone: an unbalanced list
      fails with the validation error whatever the fields hold (no accessor
      runs), a balanced one never fails on parentheses, and the two errors
      match the two ways of being unbalanced. */
  lemma ParenthesesDecideFirst(ps: seq<Processed>, ctx: Context)
    ensures !Balanced(ps) ==>
              ParenthesesError(ps).Some? && Evaluation(ps, ctx) == Err(ParenthesesError(ps).value)
    ensures Evaluation(ps, ctx) == Err(UnmatchedClosing) <==> DipsBelowZero(ps)
    ensures Evaluation(ps, ctx) == Err(UnmatchedOpening) <==> !DipsBelowZero(ps) && Net(ps) > 0
  {
    ValidationMatchesDepth(ps);
    if Balanced(ps) {
      EvaluationBalanced(ps, ctx);
      DepthWhole(ps);
    }
  }

  /** The empty list evaluates to false. */
  lemma EmptyIsFalse(ctx: Context)
    ensures Evaluation([], ctx) == Ok(false)
  {
    NoParensBalanced([]);
    ValidationMatchesDepth([]);
    TopLevelPairBalanced([]);
  }

  // ---------------------------------------------------------------------
  // The comparison pass
  // ---------------------------------------------------------------------

  function ResultCount(ps: seq<Processed>): nat
    decreases |ps|
  {
    if ps == [] then 0 else (if ps[0].BoolResult? then 1 else 0) + ResultCount(ps[1..])
  }

  /** The connectives and parentheses of `ps`, in order. */
  function Skeleton(ps: seq<Processed>): seq<Processed>
    decreases |ps|
  {
    if ps == [] then []
    else if ps[0].Raw? && (ps[0].token.Logical? || ps[0].token.Paren?) then [ps[0]] + Skeleton(ps[1..])
    else Skeleton(ps[1..])
  }

  predicate NoOperands(ps: seq<Processed>) {
    forall k :: 0 <= k < |ps| ==> !IsOperand(ps[k])
  }

  /** An operand at the front is consumed with the next two tokens and
      replaced by one result: `evaluateOperator` applied to the two operands
      `createFieldOrValue` gives, neither of them null. */
  lemma ComparisonStep(ps: seq<Processed>, ctx: Context)
    requires ps != [] && IsOperand(ps[0]) && ComparisonPass(ps, ctx).Ok?
    ensures |ps| >= 3 && IsOperatorToken(ps[1]) && IsOperand(ps[2])
    ensures ComparisonPass(ps[3..], ctx).Ok?
    ensures CreateFieldOrValue(ps[0], ctx).Ok? && CreateFieldOrValue(ps[0], ctx).value.Some?
    ensures CreateFieldOrValue(ps[2], ctx).Ok? && CreateFieldOrValue(ps[2], ctx).value.Some?
    ensures var left := CreateFieldOrValue(ps[0], ctx).value.value;
            var right := CreateFieldOrValue(ps[2], ctx).value.value;
            EvaluateOperator(left, ps[1].token.op, right, ctx.env).Ok?
    ensures var out := ComparisonPass(ps, ctx).value;
            var left := CreateFieldOrValue(ps[0], ctx).value.value;
            var right := CreateFieldOrValue(ps[2], ctx).value.value;
            |out| >= 1 && out[0] == BoolResult(EvaluateOperator(left, ps[1].token.op, right, ctx.env).value)
            && out[1..] == ComparisonPass(ps[3..], ctx).value
  {
  }

  /** Two operands around an operator carry no connective, parenthesis or
      result. */
  lemma ComparisonTokensDropped(ps: seq<Processed>)
    requires |ps| >= 3 && IsOperand(ps[0]) && IsOperatorToken(ps[1]) && IsOperand(ps[2])
    ensures Skeleton(ps) == Skeleton(ps[3..]) && ResultCount(ps) == ResultCount(ps[3..])
  {
    assert ps[1..][1..] == ps[2..] && ps[2..][1..] == ps[3..];
    assert Skeleton(ps) == Skeleton(ps[1..]) == Skeleton(ps[2..]) == Skeleton(ps[3..]);
    assert ResultCount(ps) == ResultCount(ps[1..]) == ResultCount(ps[2..]) == ResultCount(ps[3..]);
  }

  /** The comparison pass leaves no operand behind, keeps every connective
      and parenthesis in order, and shrinks the list by two tokens per
      comparison it evaluated. */
  lemma {:induction false} ComparisonPassShape(ps: seq<Processed>, ctx: Context)
    requires ComparisonPass(ps, ctx).Ok?
    ensures NoOperands(ComparisonPass(ps, ctx).value)
    ensures Skeleton(ComparisonPass(ps, ctx).value) == Skeleton(ps)
    ensures ResultCount(ComparisonPass(ps, ctx).value) >= ResultCount(ps)
    ensures |ComparisonPass(ps, ctx).value|
              + 2 * (ResultCount(ComparisonPass(ps, ctx).value) - ResultCount(ps)) == |ps|
    decreases |ps|
  {
    var out := ComparisonPass(ps, ctx).value;
    if ps == [] {
    } else if !IsOperand(ps[0]) {
      ComparisonPassShape(ps[1..], ctx);
      var rest := ComparisonPass(ps[1..], ctx).value;
      assert out == [ps[0]] + rest;
      assert out[1..] == rest;
    } else {
      ComparisonStep(ps, ctx);
      ComparisonPassShape(ps[3..], ctx);
      ComparisonTokensDropped(ps);
      var rest := ComparisonPass(ps[3..], ctx).value;
      assert out == [out[0]] + rest;
      assert Skeleton(out) == Skeleton(rest);
      assert ResultCount(out) == 1 + ResultCount(rest);
    }
  }

  /** Tokens that are not operands pass through untouched. */
  lemma {:induction false} PassThrough(pre: seq<Processed>, q: seq<Processed>, ctx: Context)
    requires NoOperands(pre)
    ensures ComparisonPass(pre + q, ctx) == Prepend(pre, ComparisonPass(q, ctx))
    decreases |pre|
  {
    if pre == [] {
      assert pre + q == q;
      var c := ComparisonPass(q, ctx);
      if c.Ok? {
        assert pre + c.value == c.value;
      }
    } else {
      assert (pre + q)[0] == pre[0] && (pre + q)[1..] == pre[1..] + q;
      PassThrough(pre[1..], q, ctx);
      PrependAssoc([pre[0]], pre[1..], ComparisonPass(q, ctx));
      assert [pre[0]] + pre[1..] == pre;
    }
  }

  /** The three malformed shapes of a comparison, wherever the first
      operand comes after tokens that pass through. */
  lemma MalformedComparison(pre: seq<Processed>, q: seq<Processed>, ctx: Context)
    requires NoOperands(pre) && |q| > 0 && IsOperand(q[0])
    ensures |q| < 3 ==> ComparisonPass(pre + q, ctx) == Err(IncompleteComparison)
    ensures |q| >= 3 && !IsOperatorToken(q[1]) ==> ComparisonPass(pre + q, ctx) == Err(OperatorUndefined)
    ensures |q| >= 3 && IsOperatorToken(q[1]) && !IsOperand(q[2]) ==>
              ComparisonPass(pre + q, ctx) == Err(ExpectedOperand)
  {
    PassThrough(pre, q, ctx);
  }

  /** A field whose accessor yields `undefined` makes the comparison throw,
      once the other operand resolves; a missing accessor throws first. */
  lemma UndefinedOperand(pre: seq<Processed>, name: string, op: Op, right: Processed,
                         rest: seq<Processed>, ctx: Context)
    requires NoOperands(pre) && IsOperand(right)
    ensures name !in ctx.fields ==>
              ComparisonPass(pre + [Raw(Field(name)), Raw(Operator(op)), right] + rest, ctx)
                == Err(NotAFunction(name))
    ensures name in ctx.fields && ctx.fields[name] == FieldCache.Fulfilled(Undefined)
            && CreateFieldOrValue(right, ctx).Ok? ==>
              ComparisonPass(pre + [Raw(Field(name)), Raw(Operator(op)), right] + rest, ctx)
                == Err(OperandUndefined)
  {
    var q := [Raw(Field(name)), Raw(Operator(op)), right] + rest;
    assert pre + [Raw(Field(name)), Raw(Operator(op)), right] + rest == pre + q;
    PassThrough(pre, q, ctx);
    assert q[0] == Raw(Field(name)) && q[1] == Raw(Operator(op)) && q[2] == right;
  }

  /** A token with both a `value` and a `field` key is a literal: the
      comparison it starts is the one its value alone starts, and the
      field's accessor is never consulted. */
  lemma ValueKeyWins(name: string, v: Value, rest: seq<Processed>, ctx: Context)
    ensures ComparisonPass([Raw(FieldAndLiteral(name, v))] + rest, ctx)
            == ComparisonPass([Raw(Literal(v))] + rest, ctx)
  {
    var a := [Raw(FieldAndLiteral(name, v))] + rest;
    var b := [Raw(Literal(v))] + rest;
    assert a[1..] == rest && b[1..] == rest && |a| == |b|;
    if |a| >= 3 {
      assert a[1] == b[1] && a[2] == b[2] && a[3..] == b[3..];
    }
  }

  // ---------------------------------------------------------------------
  // AND binds tighter than OR
  // ---------------------------------------------------------------------

  predicate AllTrue(bs: seq<bool>) {
    forall j :: 0 <= j < |bs| ==> bs[j]
  }

  predicate NonEmptyTerms(terms: seq<seq<bool>>) {
    |terms| > 0 && forall i :: 0 <= i < |terms| ==> |terms[i]| > 0
  }

  /** `and b1 and b2 …` */
  function AndTail(cs: seq<bool>): seq<Processed>
    decreases |cs|
  {
    if cs == [] then [] else [Raw(Logical(And)), BoolResult(cs[0])] + AndTail(cs[1..])
  }

  /** A disjunction of conjunctions of results:
      `b b' … and … or c and c' … or …`. */
  function Render(terms: seq<seq<bool>>): seq<Processed>
    requires NonEmptyTerms(terms)
    decreases |terms|
  {
    [BoolResult(terms[0][0])] + AndTail(terms[0][1..])
      + (if |terms| == 1 then [] else [Raw(Logical(Or))] + Render(terms[1..]))
  }

  /** `a0 or a1 or …` */
  function Alternate(bs: seq<bool>): seq<Processed>
    requires |bs| > 0
    decreases |bs|
  {
    [BoolResult(bs[0])] + (if |bs| == 1 then [] else [Raw(Logical(Or))] + Alternate(bs[1..]))
  }

  function Conjuncts(terms: seq<seq<bool>>): (r: seq<bool>)
    ensures |r| == |terms| && forall i :: 0 <= i < |terms| ==> r[i] == AllTrue(terms[i])
  {
    seq(|terms|, i requires 0 <= i < |terms| => AllTrue(terms[i]))
  }

  lemma AllTrueCons(cs: seq<bool>)
    requires |cs| > 0
    ensures AllTrue(cs) == (cs[0] && AllTrue(cs[1..]))
  {
    if cs[0] && AllTrue(cs[1..]) {
      forall j | 0 <= j < |cs| ensures cs[j] {
        if j > 0 {
          assert cs[1..][j - 1] == cs[j];
        }
      }
    }
  }

  lemma {:induction false} AndRunTail(acc: bool, cs: seq<bool>, rest: seq<Processed>)
    requires rest == [] || rest[0] != Raw(Logical(And))
    ensures AndRun(acc, AndTail(cs) + rest) == (acc && AllTrue(cs), rest)
    decreases |cs|
  {
    if cs == [] {
      assert AndTail(cs) + rest == rest;
    } else {
      var tail := AndTail(cs[1..]) + rest;
      assert AndTail(cs) + rest == [Raw(Logical(And)), BoolResult(cs[0])] + tail;
      assert ([Raw(Logical(And)), BoolResult(cs[0])] + tail)[2..] == tail;
      AndRunTail(acc && cs[0], cs[1..], rest);
      AllTrueCons(cs);
    }
  }

  /** The AND pass turns each conjunction into its value. */
  lemma {:induction false} AndPassRender(terms: seq<seq<bool>>)
    requires NonEmptyTerms(terms)
    ensures AndPass(Render(terms)) == Alternate(Conjuncts(terms))
    decreases |terms|
  {
    var t0 := terms[0];
    var after := if |terms| == 1 then [] else [Raw(Logical(Or))] + Render(terms[1..]);
    var chain := AndTail(t0[1..]) + after;
    assert Render(terms) == [BoolResult(t0[0])] + chain;
    assert ([BoolResult(t0[0])] + chain)[1..] == chain;
    AndRunTail(t0[0], t0[1..], after);
    AllTrueCons(t0);
    if |terms| > 1 {
      assert after[0] == Raw(Logical(Or)) && after[1..] == Render(terms[1..]);
      AndPassRender(terms[1..]);
      assert Conjuncts(terms)[1..] == Conjuncts(terms[1..]);
    }
  }

  lemma {:induction false} AlternateAt(bs: seq<bool>)
    requires |bs| > 0
    ensures |Alternate(bs)| == 2 * |bs| - 1
    ensures forall k :: 0 <= k < |bs| ==> Alternate(bs)[2 * k] == BoolResult(bs[k])
    ensures forall k :: 0 <= k < |bs| - 1 ==> Alternate(bs)[2 * k + 1] == Raw(Logical(Or))
    decreases |bs|
  {
    if |bs| > 1 {
      AlternateAt(bs[1..]);
      var a := Alternate(bs);
      assert a == [BoolResult(bs[0]), Raw(Logical(Or))] + Alternate(bs[1..]);
      forall k | 1 <= k < |bs|
        ensures a[2 * k] == BoolResult(bs[k])
      {
        assert a[2 * k] == Alternate(bs[1..])[2 * (k - 1)];
      }
      forall k | 1 <= k < |bs| - 1
        ensures a[2 * k + 1] == Raw(Logical(Or))
      {
        assert a[2 * k + 1] == Alternate(bs[1..])[2 * (k - 1) + 1];
      }
    }
  }

  lemma {:induction false} OrScanAlternate(bs: seq<bool>, k: int)
    requires 1 <= k <= |bs|
    requires |Alternate(bs)| == 2 * |bs| - 1
    requires forall j :: 0 <= j < |bs| ==> Alternate(bs)[2 * j] == BoolResult(bs[j])
    requires forall j :: 0 <= j < |bs| - 1 ==> Alternate(bs)[2 * j + 1] == Raw(Logical(Or))
    ensures OrScan(Alternate(bs), 2 * k - 1, Some(exists j :: 0 <= j < k && bs[j]))
              == exists j :: 0 <= j < |bs| && bs[j]
    decreases |bs| - k
  {
    var a := Alternate(bs);
    if k < |bs| {
      assert a[2 * (k - 1) + 1] == Raw(Logical(Or));
      assert a[2 * k] == BoolResult(bs[k]);
      var acc := exists j :: 0 <= j < k && bs[j];
      assert OrScan(a, 2 * k - 1, Some(acc)) == OrScan(a, 2 * k, Some(acc));
      assert OrScan(a, 2 * k, Some(acc)) == OrScan(a, 2 * k + 1, Some(acc || bs[k]));
      assert (acc || bs[k]) == exists j :: 0 <= j < k + 1 && bs[j];
      OrScanAlternate(bs, k + 1);
    }
  }

  /** The OR pass over `a0 or a1 or …` is their disjunction. */
  lemma OrPassAlternate(bs: seq<bool>)
    requires |bs| > 0
    ensures OrPass(Alternate(bs)) == exists j :: 0 <= j < |bs| && bs[j]
  {
    var a := Alternate(bs);
    AlternateAt(bs);
    if |bs| > 1 {
      assert a[0] == BoolResult(bs[0]);
      assert OrScan(a, 0, None) == OrScan(a, 1, Some(bs[0]));
      assert bs[0] == exists j :: 0 <= j < 1 && bs[j];
      OrScanAlternate(bs, 1);
    }
  }

  lemma {:induction false} AndTailTokens(cs: seq<bool>)
    ensures forall k :: 0 <= k < |AndTail(cs)| ==>
              AndTail(cs)[k].BoolResult? || AndTail(cs)[k] == Raw(Logical(And))
    decreases |cs|
  {
    if cs != [] {
      AndTailTokens(cs[1..]);
      var t := AndTail(cs);
      assert t == [Raw(Logical(And)), BoolResult(cs[0])] + AndTail(cs[1..]);
      forall k | 2 <= k < |t|
        ensures t[k] == AndTail(cs[1..])[k - 2]
      {
      }
    }
  }

  lemma {:induction false} RenderTokens(terms: seq<seq<bool>>)
    requires NonEmptyTerms(terms)
    ensures NoOperands(Render(terms)) && NoParens(Render(terms))
    decreases |terms|
  {
    var t0 := terms[0];
    var r := Render(terms);
    var head := [BoolResult(t0[0])] + AndTail(t0[1..]);
    AndTailTokens(t0[1..]);
    forall k | 0 <= k < |head|
      ensures head[k].BoolResult? || head[k] == Raw(Logical(And))
    {
      if k > 0 {
        assert head[k] == AndTail(t0[1..])[k - 1];
      }
    }
    if |terms| == 1 {
      assert r == head;
    } else {
      RenderTokens(terms[1..]);
      var after := [Raw(Logical(Or))] + Render(terms[1..]);
      assert r == head + after;
      forall k | 0 <= k < |r|
        ensures !IsOperand(r[k]) && !IsParen(r[k])
      {
        if k < |head| {
          assert r[k] == head[k];
        } else if k > |head| {
          assert r[k] == Render(terms[1..])[k - |head| - 1];
        }
      }
    }
  }

  /** AND binds tighter than OR: a disjunction of conjunctions of results
      evaluates to true exactly when some conjunction is all true. */
  lemma AndBeforeOr(terms: seq<seq<bool>>, ctx: Context)
    requires NonEmptyTerms(terms)
    ensures Evaluation(Render(terms), ctx) ==
              Ok(exists i :: 0 <= i < |terms| && AllTrue(terms[i]))
  {
    var r := Render(terms);
    RenderTokens(terms);
    NoParensBalanced(r);
    ValidationMatchesDepth(r);
    TopLevelPairBalanced(r);
    PassThrough(r, [], ctx);
    assert r + [] == r;
    AndPassRender(terms);
    OrPassAlternate(Conjuncts(terms));
    var cs := Conjuncts(terms);
    assert (exists j :: 0 <= j < |cs| && cs[j]) == (exists i :: 0 <= i < |terms| && AllTrue(terms[i])) by {
      if exists i :: 0 <= i < |terms| && AllTrue(terms[i]) {
        var i :| 0 <= i < |terms| && AllTrue(terms[i]);
        assert cs[i];
      }
    }
  }

  // ---------------------------------------------------------------------
  // The OR pass on its own
  // ---------------------------------------------------------------------

  lemma {:induction false} OrScanNoResults(ps: seq<Processed>, i: nat)
    requires i <= |ps|
    requires forall k :: 0 <= k < |ps| ==> !ps[k].BoolResult?
    ensures !OrScan(ps, i, None)
    decreases |ps| - i
  {
    if i < |ps| {
      OrScanNoResults(ps, i + 1);
    }
  }

  /** A list with no result at all is false. */
  lemma NoResultIsFalse(ps: seq<Processed>)
    requires forall k :: 0 <= k < |ps| ==> !ps[k].BoolResult?
    ensures !OrPass(ps)
  {
    OrScanNoResults(ps, 0);
  }

  /** A lone operator token passes every stage untouched and yields false. */
  lemma LoneOperatorIsFalse(op: Op, ctx: Context)
    ensures Evaluation([Raw(Operator(op))], ctx) == Ok(false)
  {
    var ps := [Raw(Operator(op))];
    NoParensBalanced(ps);
    ValidationMatchesDepth(ps);
    TopLevelPairBalanced(ps);
    PassThrough(ps, [], ctx);
    assert ps + [] == ps;
    assert AndPass(ps) == [ps[0]] + AndPass([]);
    assert AndPass(ps) == ps;
    NoResultIsFalse(ps);
  }

  lemma {:induction false} OrScanCarries(ps: seq<Processed>, i: nat, acc: Option<bool>, n: nat)
    returns (x: bool)
    requires i <= n <= |ps|
    requires acc.Some? || exists k :: i <= k < n && ps[k].BoolResult?
    ensures OrScan(ps, i, acc) == OrScan(ps, n, Some(x))
    decreases n - i
  {
    if i == n {
      x := acc.value;
    } else {
      if ps[i].BoolResult? {
        var next :=
          if acc.None? then ps[i].b
          else if i > 0 && ps[i - 1] == Raw(Logical(Or)) then acc.value || ps[i].b
          else ps[i].b;
        x := OrScanCarries(ps, i + 1, Some(next), n);
      } else {
        x := OrScanCarries(ps, i + 1, acc, n);
      }
    }
  }

  /** A result that is not preceded by `or` does not combine with what came
      before: once some result has been seen, it overwrites the value. */
  lemma ResultWithoutOrOverwrites(ps: seq<Processed>, b: bool)
    requires |ps| > 0 && ps[|ps| - 1] != Raw(Logical(Or))
    requires exists k :: 0 <= k < |ps| && ps[k].BoolResult?
    ensures OrPass(ps + [BoolResult(b)]) == b
  {
    var l := ps + [BoolResult(b)];
    var k :| 0 <= k < |ps| && ps[k].BoolResult?;
    assert l[k] == ps[k];
    var x := OrScanCarries(l, 0, None, |ps|);
    assert l[|ps|] == BoolResult(b) && l[|ps| - 1] == ps[|ps| - 1];
  }
}
