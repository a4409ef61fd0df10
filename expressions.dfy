/**
 * Expression trees: the arithmetic a postfix stream stands for. A tree's
 * postfix stream, pushed through the calculator, leaves exactly its value on
 * the stack and exactly its tokens in the formula, and the infix fold of
 * those tokens is the tree's infix rendering.
 */
module Expressions {
  import opened Options
  import opened Rationals
  import opened Decimal
  import opened Operators
  import opened Calculator
  import opened Text

  datatype Expr = Leaf(v: Fraction) | Node(op: Operator, left: Expr, right: Expr)

  /** The push order that evaluates a tree: left operand, right operand, operator. */
  function Postfix(e: Expr): seq<Cmd>
  {
    match e
    case Leaf(v) => [Val(v)]
    case Node(op, l, r) => Postfix(l) + Postfix(r) + [Op(op)]
  }

  /** The exact value of a tree; None when it holds NOP or divides by zero. */
  function Eval(e: Expr): Option<Fraction>
  {
    match e
    case Leaf(v) => Some(v)
    case Node(op, l, r) =>
      match (Eval(l), Eval(r))
      case (Some(a), Some(b)) =>
        if op == NOP || (op == DIVIDE && b.num == 0) then None else CalcOperator(op, a, b)
      case _ => None
  }

  /** The formula tokens of a tree's postfix stream. */
  function Tokens(e: Expr): seq<string>
  {
    match e
    case Leaf(v) => [Numeral(v)]
    case Node(op, l, r) => Tokens(l) + Tokens(r) + [ViewOp(op)]
  }

  predicate NoNop(e: Expr)
  {
    match e
    case Leaf(_) => true
    case Node(op, l, r) => op != NOP && NoNop(l) && NoNop(r)
  }

  /** The infix text of a tree, as `infix_formula` writes it. */
  function Render(e: Expr): string
    requires NoNop(e)
  {
    match e
    case Leaf(v) => Numeral(v)
    case Node(op, l, r) => Combine(op, Render(l), Render(r))
  }

  lemma {:induction false} EvalNoNop(e: Expr)
    ensures Eval(e).Some? ==> NoNop(e)
  {
    match e
    case Leaf(_) =>
    case Node(op, l, r) =>
      EvalNoNop(l);
      EvalNoNop(r);
  }

  /**
   * Pushing a tree's postfix stream never pops an operand that was there
   * before and always leaves at least one more. When the tree has a value, the
   * stream adds exactly that value and exactly the tree's tokens; when it
   * divides by zero somewhere (or holds NOP), at least two operands are left,
   * so `result()` cannot succeed on it alone.
   */
  lemma {:induction false} RunPostfix(s: State, e: Expr)
    ensures Feasible(s, Postfix(e))
    ensures |Run(s, Postfix(e)).stack| > |s.stack|
    ensures Run(s, Postfix(e)).stack[..|s.stack|] == s.stack
    ensures Eval(e).Some? ==>
              Run(s, Postfix(e)) == State(s.stack + [Eval(e).value], s.formula + Tokens(e))
    ensures Eval(e).None? ==> |Run(s, Postfix(e)).stack| >= |s.stack| + 2
    decreases e
  {
    match e
    case Leaf(v) =>
      assert Postfix(e)[1..] == [];
    case Node(op, l, r) =>
      RunPostfix(s, l);
      var s1 := Run(s, Postfix(l));
      RunPostfix(s1, r);
      var s2 := Run(s1, Postfix(r));
      assert s2.stack[..|s.stack|] == s.stack by {
        assert s2.stack[..|s.stack|] == s2.stack[..|s1.stack|][..|s.stack|];
      }
      RunNodeCompose(s, op, l, r);
      StepAfterOperands(s, s2, op, l, r);
  }

  /** A node's stream is its operands' streams followed by one operator push. */
  lemma RunNodeCompose(s: State, op: Operator, l: Expr, r: Expr)
    requires Feasible(s, Postfix(l)) && Feasible(Run(s, Postfix(l)), Postfix(r))
    requires |Run(Run(s, Postfix(l)), Postfix(r)).stack| >= 2
    ensures Feasible(s, Postfix(Node(op, l, r)))
    ensures Run(s, Postfix(Node(op, l, r))) == Step(Run(Run(s, Postfix(l)), Postfix(r)), Op(op))
  {
    var pl, pr := Postfix(l), Postfix(r);
    var s2 := Run(Run(s, pl), pr);
    RunAppend(s, pl, pr);
    var c := Op(op);
    assert Feasible(s2, [c]) && Run(s2, [c]) == Step(s2, c) by {
      assert [c][0] == c && [c][1..] == [];
      assert Feasible(Step(s2, c), []);
    }
    RunAppend(s, pl + pr, [c]);
    assert Postfix(Node(op, l, r)) == pl + pr + [c];
  }

  /** The operator push that ends a node's stream, once both operands are on the stack. */
  lemma StepAfterOperands(s: State, s2: State, op: Operator, l: Expr, r: Expr)
    requires |s2.stack| >= |s.stack| + 2 && s2.stack[..|s.stack|] == s.stack
    requires Eval(l).Some? && Eval(r).Some? ==>
               s2 == State(s.stack + [Eval(l).value, Eval(r).value], s.formula + Tokens(l) + Tokens(r))
    requires Eval(l).None? || Eval(r).None? ==> |s2.stack| >= |s.stack| + 3
    ensures |Step(s2, Op(op)).stack| > |s.stack|
    ensures Step(s2, Op(op)).stack[..|s.stack|] == s.stack
    ensures Eval(Node(op, l, r)).Some? ==>
              Step(s2, Op(op)) == State(s.stack + [Eval(Node(op, l, r)).value], s.formula + Tokens(Node(op, l, r)))
    ensures Eval(Node(op, l, r)).None? ==> |Step(s2, Op(op)).stack| >= |s.stack| + 2
  {
    StepKeepsBelow(s2, op, |s.stack|);
    EvalNode(op, l, r);
    if Eval(l).Some? && Eval(r).Some? {
      var a, b := Eval(l).value, Eval(r).value;
      var tokens := Tokens(l) + Tokens(r);
      assert s2 == State(s.stack + [a, b], s.formula + tokens);
      StepOnValues(s, op, a, b, tokens);
      if op == NOP || (op == DIVIDE && b.num == 0) {
        assert Eval(Node(op, l, r)) == None;
      } else {
        assert Eval(Node(op, l, r)) == CalcOperator(op, a, b);
      }
    } else {
      assert Eval(Node(op, l, r)) == None;
    }
  }

  lemma EvalNode(op: Operator, l: Expr, r: Expr)
    ensures Eval(l).None? || Eval(r).None? ==> Eval(Node(op, l, r)).None?
    ensures Eval(l).Some? && Eval(r).Some? ==>
              var b := Eval(r).value;
              Eval(Node(op, l, r)) ==
                if op == NOP || (op == DIVIDE && b.num == 0) then None
                else CalcOperator(op, Eval(l).value, b)
    ensures Tokens(Node(op, l, r)) == Tokens(l) + Tokens(r) + [ViewOp(op)]
  {
  }

  /** An operator push only touches the top two operands. */
  lemma StepKeepsBelow(s2: State, op: Operator, m: nat)
    requires |s2.stack| >= m + 2
    ensures Step(s2, Op(op)).stack[..m] == s2.stack[..m]
    ensures |Step(s2, Op(op)).stack| >= |s2.stack| - 1
  {
    var n := |s2.stack|;
    if op != NOP {
      assert Step(s2, Op(op)).stack[..n - 2] == s2.stack[..n - 2];
    }
  }

  /** The operator push on two operand values just pushed. */
  lemma StepOnValues(s: State, op: Operator, a: Fraction, b: Fraction, tokens: seq<string>)
    ensures var t := Step(State(s.stack + [a, b], s.formula + tokens), Op(op));
            if op == NOP || (op == DIVIDE && b.num == 0) then |t.stack| == |s.stack| + 2
            else t == State(s.stack + [CalcOperator(op, a, b).value], s.formula + tokens + [ViewOp(op)])
  {
    var s2 := State(s.stack + [a, b], s.formula + tokens);
    assert s2.stack[..|s2.stack| - 2] == s.stack;
  }

  /** Folding a tree's tokens onto any fragments adds exactly its rendering. */
  lemma {:induction false} FoldRender(frags: seq<string>, e: Expr)
    requires NoNop(e)
    ensures FoldTokens(frags, Tokens(e)) == Some(frags + [Render(e)])
    decreases e
  {
    match e
    case Leaf(v) =>
      IntToStringIsNumeral(v.num);
      FoldLeaf(frags, Numeral(v));
    case Node(op, l, r) =>
      FoldRender(frags, l);
      FoldRender(frags + [Render(l)], r);
      FoldAppend(frags, Tokens(l), Tokens(r));
      FoldAppend(frags, Tokens(l) + Tokens(r), [ViewOp(op)]);
      ViewOpRoundTrip(op, "");
      var mid := frags + [Render(l)] + [Render(r)];
      assert mid[..|mid| - 2] == frags;
      assert [ViewOp(op)][1..] == [];
  }

  /**
   * Postfix/infix consistency: run from a fresh calculator, a tree with a value
   * leaves that value as the result, and its formula renders back, through
   * the infix fold, as the tree's infix text.
   */
  lemma FreshRun(e: Expr)
    requires Eval(e).Some?
    ensures Feasible(Empty, Postfix(e))
    ensures ResultOf(Run(Empty, Postfix(e))) == Eval(e)
    ensures Run(Empty, Postfix(e)).formula == Tokens(e)
    ensures NoNop(e) && InfixOf(Tokens(e)) == Some(Render(e))
  {
    RunPostfix(Empty, e);
    EvalNoNop(e);
    FoldRender([], e);
  }

  /** A tree without a value is rejected by `result()` from a fresh calculator. */
  lemma FreshRunRejected(e: Expr)
    requires Eval(e).None?
    ensures Feasible(Empty, Postfix(e)) && ResultOf(Run(Empty, Postfix(e))) == None
  {
    RunPostfix(Empty, e);
  }

  /** No formula token of a tree contains a space, and there is at least one. */
  lemma {:induction false} TokensSpaceFree(e: Expr)
    ensures Tokens(e) != []
    ensures forall i :: 0 <= i < |Tokens(e)| ==> ' ' !in Tokens(e)[i]
  {
    match e
    case Leaf(v) =>
      IntToStringIsNumeral(v.num);
    case Node(op, l, r) =>
      TokensSpaceFree(l);
      TokensSpaceFree(r);
      var t, tl, tr := Tokens(e), Tokens(l), Tokens(r);
      forall i | 0 <= i < |t|
        ensures ' ' !in t[i]
      {
        if i < |tl| {
          assert t[i] == tl[i];
        } else if i < |tl| + |tr| {
          assert t[i] == tr[i - |tl|];
        } else {
          assert t[i] == ViewOp(op);
        }
      }
  }

  /**
   * The postfix text `postfix_formula` prints for a tree's stream loses
   * nothing: cutting it at the spaces gives the tokens back.
   */
  lemma PostfixText(e: Expr)
    ensures SplitSpaces(JoinSpaces(Tokens(e))) == Tokens(e)
  {
    TokensSpaceFree(e);
    SplitJoin(Tokens(e));
  }
}
