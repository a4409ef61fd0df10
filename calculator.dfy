/**
 * The reverse-Polish calculator `RPNCalc`: an operand stack of exact fractions
 * and a formula, the list of display tokens of everything pushed so far.
 *
 * `Step` and `Run` give the meaning of one push and of a stream of pushes on
 * the pair of lists. The class `RPNCalc` updates its two fields in place: its
 * `Push` is proved to change them exactly as `Step` says, and every other method
 * states its whole new stack and formula in terms of the old ones. `FoldTokens`
 * is the meaning of `infix_formula`.
 */
module Calculator {
  import opened Options
  import opened Rationals
  import opened Decimal
  import opened Operators
  import opened Text

  /** One argument of `push`: a value or an operator. */
  datatype Cmd = Val(v: Fraction) | Op(op: Operator)

  /** The calculator's two lists: the operand stack and the formula tokens. */
  datatype State = State(stack: seq<Fraction>, formula: seq<string>)

  const Empty := State([], [])

  /** The token written for a pushed value: the text of its numerator only. */
  function Numeral(x: Fraction): (r: string)
    ensures r != [] && (if r[0] == '-' then AllDigits(r[1..]) else AllDigits(r))
    ensures ParseInt(r) == x.num
  {
    IntToStringRoundTrip(x.num);
    IntToString(x.num)
  }

  /** A push the source can perform: an operator other than NOP pops two operands. */
  predicate CanStep(s: State, c: Cmd)
  {
    c.Val? || c.op == NOP || |s.stack| >= 2
  }

  /** The push divides by a zero right operand: the dead end of `__divide`. */
  predicate DividesByZero(s: State, c: Cmd)
  {
    c == Op(DIVIDE) && |s.stack| >= 2 && s.stack[|s.stack| - 1].num == 0
  }

  /** The effect of `push(c)` on the two lists. */
  function Step(s: State, c: Cmd): State
    requires CanStep(s, c)
  {
    match c
    case Val(x) => State(s.stack + [x], s.formula + [Numeral(x)])
    case Op(op) =>
      if op == NOP then s
      else
        var n := |s.stack|;
        var left, right := s.stack[n - 2], s.stack[n - 1];
        if op == DIVIDE && right.num == 0 then
          State(s.stack[..n - 2] + [left, right], s.formula + [Numeral(left), Numeral(right)])
        else
          State(s.stack[..n - 2] + [CalcOperator(op, left, right).value], s.formula + [ViewOp(op)])
  }

  /**
   * What one push does. A value is appended with its numerator's text. NOP
   * changes nothing. A binary operator takes the top as the right operand and
   * the one beneath as the left, replaces both by `left op right`, keeps
   * everything below, and appends its symbol. Dividing by zero leaves the stack
   * as it was and appends the two operands' numerals instead of "/".
   */
  lemma StepEffect(s: State, c: Cmd)
    requires CanStep(s, c)
    ensures c.Val? ==> Step(s, c) == State(s.stack + [c.v], s.formula + [IntToString(c.v.num)])
    ensures c == Op(NOP) ==> Step(s, c) == s
    ensures c.Op? && c.op != NOP && !DividesByZero(s, c) ==>
              var n := |s.stack|;
              var t := Step(s, c);
              |t.stack| == n - 1 &&
              t.stack[..n - 2] == s.stack[..n - 2] &&
              Value(t.stack[n - 2]) == RealOp(c.op, Value(s.stack[n - 2]), Value(s.stack[n - 1])) &&
              t.formula == s.formula + [ViewOp(c.op)]
    ensures DividesByZero(s, c) ==>
              var n := |s.stack|;
              Step(s, c).stack == s.stack &&
              Step(s, c).formula == s.formula + [IntToString(s.stack[n - 2].num), "0"]
  {
    if DividesByZero(s, c) {
      var n := |s.stack|;
      assert s.stack[..n - 2] + [s.stack[n - 2], s.stack[n - 1]] == s.stack;
    }
  }

  /** The stream can be pushed from `s` without popping an empty stack. */
  predicate Feasible(s: State, cmds: seq<Cmd>)
    decreases |cmds|
  {
    cmds == [] || (CanStep(s, cmds[0]) && Feasible(Step(s, cmds[0]), cmds[1..]))
  }

  /** The state after pushing every command of the stream, in order. */
  function Run(s: State, cmds: seq<Cmd>): State
    requires Feasible(s, cmds)
    decreases |cmds|
  {
    if cmds == [] then s else Run(Step(s, cmds[0]), cmds[1..])
  }

  /** What `result()` returns: the sole operand, or None unless exactly one is left. */
  function ResultOf(s: State): Option<Fraction>
  {
    if |s.stack| == 1 then Some(s.stack[0]) else None
  }

  /** Running two streams one after the other is running their concatenation. */
  lemma {:induction false} RunAppend(s: State, a: seq<Cmd>, b: seq<Cmd>)
    requires Feasible(s, a) && Feasible(Run(s, a), b)
    ensures Feasible(s, a + b) && Run(s, a + b) == Run(Run(s, a), b)
    decreases |a|
  {
    if a == [] {
      assert a + b == b;
    } else {
      assert (a + b)[0] == a[0] && (a + b)[1..] == a[1..] + b;
      RunAppend(Step(s, a[0]), a[1..], b);
    }
  }

  // ---------------------------------------------------------------------------
  // Counting the pushes of a stream.

  /** The values a stream pushes, in order. */
  function ValuesOf(cmds: seq<Cmd>): seq<Fraction>
    decreases |cmds|
  {
    if cmds == [] then []
    else (if cmds[0].Val? then [cmds[0].v] else []) + ValuesOf(cmds[1..])
  }

  /** The operators a stream pushes, in order. */
  function OpsOf(cmds: seq<Cmd>): seq<Operator>
    decreases |cmds|
  {
    if cmds == [] then []
    else (if cmds[0].Op? then [cmds[0].op] else []) + OpsOf(cmds[1..])
  }

  /** How many pushes of the stream, run from `s`, hit the zero-divisor dead end. */
  function ZeroDivisions(s: State, cmds: seq<Cmd>): nat
    requires Feasible(s, cmds)
    decreases |cmds|
  {
    if cmds == [] then 0
    else (if DividesByZero(s, cmds[0]) then 1 else 0) + ZeroDivisions(Step(s, cmds[0]), cmds[1..])
  }

  /**
   * Stack discipline: every value push adds one operand, every operator push
   * removes one, except the zero-divisor dead ends, which remove none.
   */
  lemma {:induction false} RunStackSize(s: State, cmds: seq<Cmd>)
    requires Feasible(s, cmds) && NOP !in OpsOf(cmds)
    ensures |Run(s, cmds).stack| == |s.stack| + |ValuesOf(cmds)| - |OpsOf(cmds)| + ZeroDivisions(s, cmds)
    decreases |cmds|
  {
    if cmds != [] {
      RunStackSize(Step(s, cmds[0]), cmds[1..]);
      StepEffect(s, cmds[0]);
    }
  }

  // ---------------------------------------------------------------------------
  // The infix formula: folding the tokens into fragments.

  /** The fragment `infix_formula` builds for `f1 op f2`: + and - in parentheses. */
  function Combine(op: Operator, f1: string, f2: string): string
    requires op != NOP
  {
    match op
    case PLUS => "(" + f1 + " + " + f2 + ")"
    case MINUS => "(" + f1 + " - " + f2 + ")"
    case TIMES => f1 + " * " + f2
    case DIVIDE => f1 + " / " + f2
  }

  /**
   * One token of the fold: an operator symbol replaces the top two fragments by
   * their combination (None where the source pops an empty list); any other
   * token is pushed as a fragment of its own.
   */
  function FoldToken(frags: seq<string>, token: string): Option<seq<string>>
  {
    match SymbolOperator(token)
    case None => Some(frags + [token])
    case Some(op) =>
      if |frags| < 2 then None
      else Some(frags[..|frags| - 2] + [Combine(op, frags[|frags| - 2], frags[|frags| - 1])])
  }

  /** The fragments after folding every token, left to right. */
  function FoldTokens(frags: seq<string>, tokens: seq<string>): Option<seq<string>>
    decreases |tokens|
  {
    if tokens == [] then Some(frags)
    else
      match FoldToken(frags, tokens[0])
      case None => None
      case Some(next) => FoldTokens(next, tokens[1..])
  }

  /** `infix_formula`: the bottom fragment, or None where the source raises IndexError. */
  function InfixOf(tokens: seq<string>): Option<string>
  {
    match FoldTokens([], tokens)
    case None => None
    case Some(frags) => if frags == [] then None else Some(frags[0])
  }

  /** Folding a concatenation is folding the second part from where the first ended. */
  lemma {:induction false} FoldAppend(frags: seq<string>, a: seq<string>, b: seq<string>)
    ensures FoldTokens(frags, a + b) ==
              match FoldTokens(frags, a)
              case None => None
              case Some(mid) => FoldTokens(mid, b)
    decreases |a|
  {
    if a == [] {
      assert a + b == b;
    } else {
      assert (a + b)[0] == a[0] && (a + b)[1..] == a[1..] + b;
      match FoldToken(frags, a[0])
      case None =>
      case Some(next) => FoldAppend(next, a[1..], b);
    }
  }

  /** A token that is not an operator symbol is pushed as a fragment of its own. */
  lemma FoldLeaf(frags: seq<string>, token: string)
    requires token !in {"+", "-", "*", "/"}
    ensures FoldTokens(frags, [token]) == Some(frags + [token])
  {
    ViewOpRoundTrip(NOP, token);
    assert [token][1..] == [];
  }

  /** One push keeps the fragment count equal to the operand count plus twice the dead ends. */
  lemma StepFragments(s: State, c: Cmd, frags: seq<string>, k: nat) returns (frags': seq<string>)
    requires CanStep(s, c) && c != Op(NOP)
    requires FoldTokens([], s.formula) == Some(frags) && |frags| == |s.stack| + 2 * k
    ensures FoldTokens([], Step(s, c).formula) == Some(frags')
    ensures |frags'| == |Step(s, c).stack| + 2 * (k + if DividesByZero(s, c) then 1 else 0)
  {
    var t := Step(s, c);
    var n := |s.stack|;
    var extra := t.formula[|s.formula|..];
    assert t.formula == s.formula + extra;
    if c.Val? {
      IntToStringIsNumeral(c.v.num);
      assert extra == [Numeral(c.v)];
      FoldLeaf(frags, Numeral(c.v));
      frags' := frags + [Numeral(c.v)];
    } else if DividesByZero(s, c) {
      var left, right := Numeral(s.stack[n - 2]), Numeral(s.stack[n - 1]);
      IntToStringIsNumeral(s.stack[n - 2].num);
      IntToStringIsNumeral(s.stack[n - 1].num);
      assert extra == [left] + [right];
      FoldLeaf(frags, left);
      FoldLeaf(frags + [left], right);
      FoldAppend(frags, [left], [right]);
      frags' := frags + [left] + [right];
      StepEffect(s, c);
    } else {
      ViewOpRoundTrip(c.op, "");
      assert extra == [ViewOp(c.op)];
      var m := |frags|;
      frags' := frags[..m - 2] + [Combine(c.op, frags[m - 2], frags[m - 1])];
      assert [ViewOp(c.op)][1..] == [];
    }
    FoldAppend([], s.formula, extra);
  }

  /**
   * The formula folds to exactly as many fragments as there are operands, plus
   * two for every zero-divisor dead end: each dead end appends two numerals but
   * leaves the operand count unchanged. Without dead ends the two stay in lockstep.
   */
  lemma {:induction false} RunFragments(s: State, cmds: seq<Cmd>, frags: seq<string>, k: nat)
    requires Feasible(s, cmds) && NOP !in OpsOf(cmds)
    requires FoldTokens([], s.formula) == Some(frags) && |frags| == |s.stack| + 2 * k
    ensures FoldTokens([], Run(s, cmds).formula).Some?
    ensures |FoldTokens([], Run(s, cmds).formula).value| ==
              |Run(s, cmds).stack| + 2 * (k + ZeroDivisions(s, cmds))
    decreases |cmds|
  {
    if cmds != [] {
      var c := cmds[0];
      assert OpsOf(cmds) == (if c.Op? then [c.op] else []) + OpsOf(cmds[1..]);
      var next := StepFragments(s, c, frags, k);
      RunFragments(Step(s, c), cmds[1..], next, k + if DividesByZero(s, c) then 1 else 0);
    }
  }

  // ---------------------------------------------------------------------------
  // The calculator object.

  class RPNCalc {
    /** The operand stack (`__stack`). */
    var stack: seq<Fraction>
    /** The display tokens of everything pushed so far (`__formula`). */
    var formula: seq<string>

    function Snapshot(): State
      reads this
    {
      State(stack, formula)
    }

    constructor ()
      ensures stack == [] && formula == []
    {
      stack := [];
      formula := [];
    }

    /** `reset`: both lists cleared. */
    method Reset()
      modifies this
      ensures stack == [] && formula == []
    {
      stack := [];
      formula := [];
    }

    /** `__push_num`: the value, and the text of its numerator. */
    method PushNum(num: Fraction)
      modifies this
      ensures stack == old(stack) + [num]
      ensures formula == old(formula) + [IntToString(num.num)]
    {
      stack := stack + [num];
      formula := formula + [IntToString(num.num)];
    }

    /** `__pre_calc`: pops the right operand, then the left one. */
    method PreCalc() returns (num1: Fraction, num2: Fraction)
      requires |stack| >= 2
      modifies this
      ensures old(stack) == stack + [num1, num2]
      ensures formula == old(formula)
    {
      num2 := stack[|stack| - 1];
      stack := stack[..|stack| - 1];
      num1 := stack[|stack| - 1];
      stack := stack[..|stack| - 1];
    }

    /** `__plus`: the top two operands replaced by their sum. */
    method Plus()
      requires |stack| >= 2
      modifies this
      ensures var n := |old(stack)|;
              stack == old(stack)[..n - 2] + [Add(old(stack)[n - 2], old(stack)[n - 1])]
      ensures formula == old(formula) + ["+"]
    {
      var num1, num2 := PreCalc();
      stack := stack + [Add(num1, num2)];
      formula := formula + ["+"];
    }

    /** `__minus`: left minus right. */
    method Minus()
      requires |stack| >= 2
      modifies this
      ensures var n := |old(stack)|;
              stack == old(stack)[..n - 2] + [Sub(old(stack)[n - 2], old(stack)[n - 1])]
      ensures formula == old(formula) + ["-"]
    {
      var num1, num2 := PreCalc();
      stack := stack + [Sub(num1, num2)];
      formula := formula + ["-"];
    }

    /** `__times`: the product of the top two operands. */
    method Times()
      requires |stack| >= 2
      modifies this
      ensures var n := |old(stack)|;
              stack == old(stack)[..n - 2] + [Mul(old(stack)[n - 2], old(stack)[n - 1])]
      ensures formula == old(formula) + ["*"]
    {
      var num1, num2 := PreCalc();
      stack := stack + [Mul(num1, num2)];
      formula := formula + ["*"];
    }

    /**
     * `__divide`: left divided by right. A zero divisor raises no error: both
     * operands are pushed back, so the stack is as before, and their numerals
     * are written to the formula instead of "/".
     */
    method Divide()
      requires |stack| >= 2
      modifies this
      ensures var n := |old(stack)|;
              var num1, num2 := old(stack)[n - 2], old(stack)[n - 1];
              if num2.num == 0 then
                stack == old(stack) &&
                formula == old(formula) + [IntToString(num1.num), IntToString(num2.num)]
              else
                stack == old(stack)[..n - 2] + [Div(num1, num2)] &&
                formula == old(formula) + ["/"]
    {
      var num1, num2 := PreCalc();
      if num2.num != 0 {
        stack := stack + [Div(num1, num2)];
        formula := formula + ["/"];
      } else {
        PushNum(num1);
        PushNum(num2);
      }
    }

    /** `result`: pops and returns the sole operand; None unless exactly one is left. */
    method Result() returns (r: Option<Fraction>)
      modifies this
      ensures r == ResultOf(old(Snapshot()))
      ensures |old(stack)| == 1 ==> stack == []
      ensures |old(stack)| != 1 ==> stack == old(stack)
      ensures formula == old(formula)
    {
      if |stack| != 1 {
        return None;
      }
      r := Some(stack[0]);
      stack := [];
    }

    /** `postfix_formula`: the tokens joined by single spaces. */
    function PostfixFormula(): (r: string)
      reads this
      ensures formula != [] && (forall i :: 0 <= i < |formula| ==> ' ' !in formula[i]) ==>
                SplitSpaces(r) == formula
    {
      if formula != [] && (forall i :: 0 <= i < |formula| ==> ' ' !in formula[i]) then
        SplitJoin(formula);
        JoinSpaces(formula)
      else
        JoinSpaces(formula)
    }

    /** `infix_formula`: folds the tokens with a local stack of fragments. */
    method InfixFormula() returns (r: Option<string>)
      ensures r == InfixOf(formula)
    {
      var tmp: seq<string> := [];
      for i := 0 to |formula|
        invariant FoldTokens([], formula) == FoldTokens(tmp, formula[i..])
      {
        var op := formula[i];
        ghost var before := tmp;
        assert formula[i..][0] == op && formula[i..][1..] == formula[i + 1..];
        if op == "+" || op == "-" || op == "*" || op == "/" {
          if tmp == [] {
            return None;
          }
          var f2 := tmp[|tmp| - 1];
          tmp := tmp[..|tmp| - 1];
          if tmp == [] {
            return None;
          }
          var f1 := tmp[|tmp| - 1];
          tmp := tmp[..|tmp| - 1];
          assert tmp == before[..|before| - 2];
          if op == "+" {
            tmp := tmp + ["(" + f1 + " + " + f2 + ")"];
          } else if op == "-" {
            tmp := tmp + ["(" + f1 + " - " + f2 + ")"];
          } else if op == "*" {
            tmp := tmp + [f1 + " * " + f2];
          } else {
            tmp := tmp + [f1 + " / " + f2];
          }
        } else {
          tmp := tmp + [op];
        }
        assert FoldToken(before, op) == Some(tmp);
      }
      if tmp == [] {
        return None;
      }
      return Some(tmp[0]);
    }

    /**
     * `push`: a value goes through `__push_num`; NOP does nothing; any other
     * operator dispatches to its arithmetic method.
     */
    method Push(c: Cmd)
      requires CanStep(Snapshot(), c)
      modifies this
      ensures Snapshot() == Step(old(Snapshot()), c)
    {
      match c
      case Val(x) =>
        PushNum(x);
      case Op(op) =>
        if op == NOP {
          return;
        } else if op == PLUS {
          Plus();
        } else if op == MINUS {
          Minus();
        } else if op == TIMES {
          Times();
        } else if op == DIVIDE {
          Divide();
        }
    }
  }
}
