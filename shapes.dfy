/**
 * The four postfix command streams the search builds from a value ordering
 * `num` and an operator tuple `op` of length |num| - 1, exactly in the order
 * the source pushes them, and the expression trees they evaluate.
 */
module Shapes {
  import opened Options
  import opened Rationals
  import opened Decimal
  import opened Operators
  import opened Calculator
  import opened Expressions

  /** The bracketing shapes, in the order the search tries them. */
  datatype Shape = Type1 | Type2Even | Type2Odd | Type3

  /** The tag the source reports with a solution of each shape. */
  function Tag(shape: Shape): string
  {
    match shape
    case Type1 => "TYPE1"
    case Type2Even => "TYPE2-1"
    case Type2Odd => "TYPE2-2"
    case Type3 => "TYPE3"
  }

  /**
   * The inputs for which the source builds the shape without an IndexError:
   * Type 1 and Type 2 read num[1], Type 3 reads num[2]; Type 2 has one variant
   * per parity of |num|.
   */
  predicate Fits(shape: Shape, num: seq<Fraction>, op: seq<Operator>)
  {
    |op| == |num| - 1 &&
    match shape
    case Type1 => |num| >= 2
    case Type2Even => |num| >= 2 && |num| % 2 == 0
    case Type2Odd => |num| >= 3 && |num| % 2 == 1
    case Type3 => |num| >= 3
  }

  /** Pushes each value from index `from` on, each followed by the operator before it. */
  function ChainFrom(num: seq<Fraction>, op: seq<Operator>, from: nat): seq<Cmd>
    requires 1 <= from <= |num| && |op| == |num| - 1
    decreases |num| - from
  {
    if from == |num| then []
    else [Val(num[from]), Op(op[from - 1])] + ChainFrom(num, op, from + 1)
  }

  /**
   * Pushes the values from index `from` up to `end` two at a time: both values
   * of a pair, then the operator before the pair, then the operator after its
   * first value.
   */
  function PairsFrom(num: seq<Fraction>, op: seq<Operator>, from: nat, end: nat): seq<Cmd>
    requires 2 <= from <= end <= |num| && (end - from) % 2 == 0 && |op| == |num| - 1
    decreases end - from
  {
    if from == end then []
    else [Val(num[from]), Val(num[from + 1]), Op(op[from - 1]), Op(op[from])] + PairsFrom(num, op, from + 2, end)
  }

  /** The pushes of one candidate of the given shape. */
  function Stream(shape: Shape, num: seq<Fraction>, op: seq<Operator>): seq<Cmd>
    requires Fits(shape, num, op)
  {
    var n := |num|;
    match shape
    case Type1 =>
      [Val(num[0]), Val(num[1]), Op(op[0])] + ChainFrom(num, op, 2)
    case Type2Even =>
      [Val(num[0]), Val(num[1]), Op(op[0])] + PairsFrom(num, op, 2, n)
    case Type2Odd =>
      [Val(num[0]), Val(num[1]), Op(op[0])] + PairsFrom(num, op, 2, n - 1) + [Val(num[n - 1]), Op(op[n - 2])]
    case Type3 =>
      [Val(num[0]), Val(num[1]), Val(num[2]), Op(op[0]), Op(op[1])] + ChainFrom(num, op, 3)
  }

  // ---------------------------------------------------------------------------
  // The groupings the streams encode.

  /** Folds num[from..] into `acc` one value at a time: `(acc op[from-1] num[from]) ...`. */
  function ChainTree(acc: Expr, num: seq<Fraction>, op: seq<Operator>, from: nat): Expr
    requires 1 <= from <= |num| && |op| == |num| - 1
    decreases |num| - from
  {
    if from == |num| then acc
    else ChainTree(Node(op[from - 1], acc, Leaf(num[from])), num, op, from + 1)
  }

  /** Folds pairs into `acc`: `acc op[i] (num[i] op[i-1] num[i+1])`, the pair grouped first. */
  function PairsTree(acc: Expr, num: seq<Fraction>, op: seq<Operator>, from: nat, end: nat): Expr
    requires 2 <= from <= end <= |num| && (end - from) % 2 == 0 && |op| == |num| - 1
    decreases end - from
  {
    if from == end then acc
    else
      var pair := Node(op[from - 1], Leaf(num[from]), Leaf(num[from + 1]));
      PairsTree(Node(op[from], acc, pair), num, op, from + 2, end)
  }

  /**
   * The expression each shape computes:
   * Type 1 `((num0 op0 num1) op1 num2) ...`;
   * Type 2 `(((num0 op0 num1) op2 (num2 op1 num3)) op4 (num4 op3 num5)) ...`, and for
   * an odd count the last value folded in with the last operator;
   * Type 3 `(num0 op1 (num1 op0 num2)) op2 num3 ...`.
   */
  function ShapeTree(shape: Shape, num: seq<Fraction>, op: seq<Operator>): Expr
    requires Fits(shape, num, op)
  {
    var n := |num|;
    var first := Node(op[0], Leaf(num[0]), Leaf(num[1]));
    match shape
    case Type1 => ChainTree(first, num, op, 2)
    case Type2Even => PairsTree(first, num, op, 2, n)
    case Type2Odd => Node(op[n - 2], PairsTree(first, num, op, 2, n - 1), Leaf(num[n - 1]))
    case Type3 => ChainTree(Node(op[1], Leaf(num[0]), Node(op[0], Leaf(num[1]), Leaf(num[2]))), num, op, 3)
  }

  lemma {:induction false} ChainPostfix(acc: Expr, num: seq<Fraction>, op: seq<Operator>, from: nat)
    requires 1 <= from <= |num| && |op| == |num| - 1
    ensures Postfix(ChainTree(acc, num, op, from)) == Postfix(acc) + ChainFrom(num, op, from)
    decreases |num| - from
  {
    if from < |num| {
      ChainPostfix(Node(op[from - 1], acc, Leaf(num[from])), num, op, from + 1);
    }
  }

  lemma {:induction false} PairsPostfix(acc: Expr, num: seq<Fraction>, op: seq<Operator>, from: nat, end: nat)
    requires 2 <= from <= end <= |num| && (end - from) % 2 == 0 && |op| == |num| - 1
    ensures Postfix(PairsTree(acc, num, op, from, end)) == Postfix(acc) + PairsFrom(num, op, from, end)
    decreases end - from
  {
    if from < end {
      var pair := Node(op[from - 1], Leaf(num[from]), Leaf(num[from + 1]));
      PairsPostfix(Node(op[from], acc, pair), num, op, from + 2, end);
      assert Postfix(pair) == [Val(num[from]), Val(num[from + 1]), Op(op[from - 1])];
    }
  }

  /** The opening of Type 3 pushes the first three values, then the first two operators. */
  lemma Type3Head(num: seq<Fraction>, op: seq<Operator>)
    requires Fits(Type3, num, op)
    ensures Postfix(Node(op[1], Leaf(num[0]), Node(op[0], Leaf(num[1]), Leaf(num[2]))))
         == [Val(num[0]), Val(num[1]), Val(num[2]), Op(op[0]), Op(op[1])]
  {
    assert Postfix(Node(op[0], Leaf(num[1]), Leaf(num[2]))) == [Val(num[1]), Val(num[2]), Op(op[0])];
  }

  /** Type 2-2 ends with the last value and the last operator, pushed after the pairs. */
  lemma Type2OddGrouping(num: seq<Fraction>, op: seq<Operator>)
    requires Fits(Type2Odd, num, op)
    ensures Stream(Type2Odd, num, op) == Postfix(ShapeTree(Type2Odd, num, op))
  {
    var n := |num|;
    var first := Node(op[0], Leaf(num[0]), Leaf(num[1]));
    var pairs := PairsTree(first, num, op, 2, n - 1);
    PairsPostfix(first, num, op, 2, n - 1);
    assert Postfix(first) == [Val(num[0]), Val(num[1]), Op(op[0])];
    assert Postfix(Node(op[n - 2], pairs, Leaf(num[n - 1]))) == Postfix(pairs) + [Val(num[n - 1])] + [Op(op[n - 2])];
  }

  /** Each stream is the postfix form of its shape's expression. */
  lemma ShapeGrouping(shape: Shape, num: seq<Fraction>, op: seq<Operator>)
    requires Fits(shape, num, op)
    ensures Stream(shape, num, op) == Postfix(ShapeTree(shape, num, op))
  {
    var n := |num|;
    var first := Node(op[0], Leaf(num[0]), Leaf(num[1]));
    assert Postfix(first) == [Val(num[0]), Val(num[1]), Op(op[0])];
    match shape
    case Type1 => ChainPostfix(first, num, op, 2);
    case Type2Even => PairsPostfix(first, num, op, 2, n);
    case Type2Odd => Type2OddGrouping(num, op);
    case Type3 =>
      ChainPostfix(Node(op[1], Leaf(num[0]), Node(op[0], Leaf(num[1]), Leaf(num[2]))), num, op, 3);
      Type3Head(num, op);
  }

  // ---------------------------------------------------------------------------
  // Every value and every operator slot is used exactly once, in order.

  lemma {:induction false} ValuesAppend(a: seq<Cmd>, b: seq<Cmd>)
    ensures ValuesOf(a + b) == ValuesOf(a) + ValuesOf(b)
    decreases |a|
  {
    if a == [] {
      assert a + b == b;
    } else {
      assert (a + b)[0] == a[0] && (a + b)[1..] == a[1..] + b;
      ValuesAppend(a[1..], b);
    }
  }

  lemma {:induction false} OpsAppend(a: seq<Cmd>, b: seq<Cmd>)
    ensures OpsOf(a + b) == OpsOf(a) + OpsOf(b)
    decreases |a|
  {
    if a == [] {
      assert a + b == b;
    } else {
      assert (a + b)[0] == a[0] && (a + b)[1..] == a[1..] + b;
      OpsAppend(a[1..], b);
    }
  }

  lemma ValuesOpsAppend(a: seq<Cmd>, b: seq<Cmd>)
    ensures ValuesOf(a + b) == ValuesOf(a) + ValuesOf(b)
    ensures OpsOf(a + b) == OpsOf(a) + OpsOf(b)
  {
    ValuesAppend(a, b);
    OpsAppend(a, b);
  }

  /** The values and operators of a literal prefix, one command at a time. */
  lemma ValuesOpsCons(c: Cmd, rest: seq<Cmd>)
    ensures ValuesOf([c] + rest) == (if c.Val? then [c.v] else []) + ValuesOf(rest)
    ensures OpsOf([c] + rest) == (if c.Op? then [c.op] else []) + OpsOf(rest)
  {
    assert ([c] + rest)[1..] == rest;
  }

  lemma {:induction false} ChainUses(num: seq<Fraction>, op: seq<Operator>, from: nat)
    requires 1 <= from <= |num| && |op| == |num| - 1
    ensures ValuesOf(ChainFrom(num, op, from)) == num[from..]
    ensures OpsOf(ChainFrom(num, op, from)) == op[from - 1..]
    decreases |num| - from
  {
    if from < |num| {
      ChainUses(num, op, from + 1);
      var rest := ChainFrom(num, op, from + 1);
      assert ChainFrom(num, op, from) == [Val(num[from])] + ([Op(op[from - 1])] + rest);
      ValuesOpsCons(Val(num[from]), [Op(op[from - 1])] + rest);
      ValuesOpsCons(Op(op[from - 1]), rest);
      assert num[from..] == [num[from]] + num[from + 1..];
      assert op[from - 1..] == [op[from - 1]] + op[from..];
    }
  }

  /** One pair step of `PairsFrom`: two values, then two operators. */
  lemma PairsStep(num: seq<Fraction>, op: seq<Operator>, from: nat, end: nat)
    requires 2 <= from < end <= |num| && (end - from) % 2 == 0 && |op| == |num| - 1
    ensures ValuesOf(PairsFrom(num, op, from, end)) == [num[from], num[from + 1]] + ValuesOf(PairsFrom(num, op, from + 2, end))
    ensures OpsOf(PairsFrom(num, op, from, end)) == [op[from - 1], op[from]] + OpsOf(PairsFrom(num, op, from + 2, end))
  {
    var rest := PairsFrom(num, op, from + 2, end);
    var r3 := [Op(op[from])] + rest;
    var r2 := [Op(op[from - 1])] + r3;
    var r1 := [Val(num[from + 1])] + r2;
    assert PairsFrom(num, op, from, end) == [Val(num[from])] + r1;
    ValuesOpsCons(Val(num[from]), r1);
    ValuesOpsCons(Val(num[from + 1]), r2);
    ValuesOpsCons(Op(op[from - 1]), r3);
    ValuesOpsCons(Op(op[from]), rest);
  }

  lemma {:induction false} PairsUses(num: seq<Fraction>, op: seq<Operator>, from: nat, end: nat)
    requires 2 <= from <= end <= |num| && (end - from) % 2 == 0 && |op| == |num| - 1
    ensures ValuesOf(PairsFrom(num, op, from, end)) == num[from..end]
    ensures OpsOf(PairsFrom(num, op, from, end)) == op[from - 1..end - 1]
    decreases end - from
  {
    if from < end {
      PairsUses(num, op, from + 2, end);
      PairsStep(num, op, from, end);
      assert num[from..end] == [num[from], num[from + 1]] + num[from + 2..end];
      assert op[from - 1..end - 1] == [op[from - 1], op[from]] + op[from + 1..end - 1];
    }
  }

  /** The opening shared by Types 1 and 2: the first two values, then the first operator. */
  lemma OpeningUses(num: seq<Fraction>, op: seq<Operator>, rest: seq<Cmd>)
    requires |num| >= 2 && |op| >= 1
    ensures ValuesOf([Val(num[0]), Val(num[1]), Op(op[0])] + rest) == [num[0], num[1]] + ValuesOf(rest)
    ensures OpsOf([Val(num[0]), Val(num[1]), Op(op[0])] + rest) == [op[0]] + OpsOf(rest)
  {
    var r2 := [Op(op[0])] + rest;
    var r1 := [Val(num[1])] + r2;
    assert [Val(num[0]), Val(num[1]), Op(op[0])] + rest == [Val(num[0])] + r1;
    ValuesOpsCons(Val(num[0]), r1);
    ValuesOpsCons(Val(num[1]), r2);
    ValuesOpsCons(Op(op[0]), rest);
  }

  lemma Type1Uses(num: seq<Fraction>, op: seq<Operator>)
    requires Fits(Type1, num, op)
    ensures ValuesOf(Stream(Type1, num, op)) == num && OpsOf(Stream(Type1, num, op)) == op
  {
    ChainUses(num, op, 2);
    OpeningUses(num, op, ChainFrom(num, op, 2));
    assert num == [num[0], num[1]] + num[2..];
    assert op == [op[0]] + op[1..];
  }

  lemma Type2EvenUses(num: seq<Fraction>, op: seq<Operator>)
    requires Fits(Type2Even, num, op)
    ensures ValuesOf(Stream(Type2Even, num, op)) == num && OpsOf(Stream(Type2Even, num, op)) == op
  {
    var n := |num|;
    PairsUses(num, op, 2, n);
    OpeningUses(num, op, PairsFrom(num, op, 2, n));
    assert num == [num[0], num[1]] + num[2..n];
    assert op == [op[0]] + op[1..n - 1];
  }

  lemma Type2OddUses(num: seq<Fraction>, op: seq<Operator>)
    requires Fits(Type2Odd, num, op)
    ensures ValuesOf(Stream(Type2Odd, num, op)) == num && OpsOf(Stream(Type2Odd, num, op)) == op
  {
    var n := |num|;
    var pairs := PairsFrom(num, op, 2, n - 1);
    var tail := [Val(num[n - 1]), Op(op[n - 2])];
    PairsUses(num, op, 2, n - 1);
    OpeningUses(num, op, pairs + tail);
    assert Stream(Type2Odd, num, op) == [Val(num[0]), Val(num[1]), Op(op[0])] + (pairs + tail);
    ValuesOpsAppend(pairs, tail);
    ValuesOpsCons(Val(num[n - 1]), [Op(op[n - 2])]);
    ValuesOpsCons(Op(op[n - 2]), []);
    assert [Op(op[n - 2])] + [] == [Op(op[n - 2])];
    assert [Val(num[n - 1])] + [Op(op[n - 2])] == tail;
    assert num == [num[0], num[1]] + (num[2..n - 1] + [num[n - 1]]);
    assert op == [op[0]] + (op[1..n - 2] + [op[n - 2]]);
  }

  lemma Type3Uses(num: seq<Fraction>, op: seq<Operator>)
    requires Fits(Type3, num, op)
    ensures ValuesOf(Stream(Type3, num, op)) == num && OpsOf(Stream(Type3, num, op)) == op
  {
    var rest := ChainFrom(num, op, 3);
    ChainUses(num, op, 3);
    var r4 := [Op(op[1])] + rest;
    var r3 := [Op(op[0])] + r4;
    var r2 := [Val(num[2])] + r3;
    assert Stream(Type3, num, op) == [Val(num[0]), Val(num[1])] + r2;
    OpeningUses(num, [op[0]], r2);
    ValuesOpsCons(Val(num[2]), r3);
    ValuesOpsCons(Op(op[0]), r4);
    ValuesOpsCons(Op(op[1]), rest);
    assert num == [num[0], num[1]] + ([num[2]] + num[3..]);
    assert op == [op[0]] + ([op[1]] + op[2..]);
  }

  /**
   * Each stream pushes exactly the values of `num` and exactly the operators
   * of `op`, each once and in their own order.
   */
  lemma ShapeUsesAll(shape: Shape, num: seq<Fraction>, op: seq<Operator>)
    requires Fits(shape, num, op)
    ensures ValuesOf(Stream(shape, num, op)) == num
    ensures OpsOf(Stream(shape, num, op)) == op
  {
    match shape
    case Type1 => Type1Uses(num, op);
    case Type2Even => Type2EvenUses(num, op);
    case Type2Odd => Type2OddUses(num, op);
    case Type3 => Type3Uses(num, op);
  }

  // ---------------------------------------------------------------------------
  // Running a shape's stream through a fresh calculator.

  /**
   * A shape's stream never pops an empty stack; its result is the value of the
   * shape's expression, and when it has one the formula is that expression's
   * tokens and renders as its infix text.
   */
  lemma ShapeRun(shape: Shape, num: seq<Fraction>, op: seq<Operator>)
    requires Fits(shape, num, op)
    ensures Feasible(Empty, Stream(shape, num, op))
    ensures ResultOf(Run(Empty, Stream(shape, num, op))) == Eval(ShapeTree(shape, num, op))
    ensures Eval(ShapeTree(shape, num, op)).Some? ==>
              var e := ShapeTree(shape, num, op);
              NoNop(e) &&
              Run(Empty, Stream(shape, num, op)).formula == Tokens(e) &&
              InfixOf(Tokens(e)) == Some(Render(e))
  {
    ShapeGrouping(shape, num, op);
    var e := ShapeTree(shape, num, op);
    if Eval(e).Some? {
      FreshRun(e);
    } else {
      FreshRunRejected(e);
    }
  }

  /**
   * With n values and n - 1 arithmetic operators, the final stack holds one
   * operand plus one per zero-divisor dead end, so `result()` rejects exactly
   * the candidates that divided by zero.
   */
  lemma ShapeStackSize(shape: Shape, num: seq<Fraction>, op: seq<Operator>)
    requires Fits(shape, num, op) && NOP !in op
    ensures Feasible(Empty, Stream(shape, num, op))
    ensures |Run(Empty, Stream(shape, num, op)).stack| == 1 + ZeroDivisions(Empty, Stream(shape, num, op))
    ensures ResultOf(Run(Empty, Stream(shape, num, op))).Some? <==> ZeroDivisions(Empty, Stream(shape, num, op)) == 0
  {
    ShapeRun(shape, num, op);
    ShapeUsesAll(shape, num, op);
    RunStackSize(Empty, Stream(shape, num, op));
  }

  // ---------------------------------------------------------------------------
  // The first solver's left fold, as a point of comparison for Type 1.

  /**
   * The loop of the first solver `solve`: it applies the first operator to the
   * first two values, then folds each later value into the running result with
   * the operator before that value. None
   * stands for a NOP (the candidate is skipped) and for a zero divisor (where
   * `solve` raises ZeroDivisionError).
   */
  function LeftFold(num: seq<Fraction>, op: seq<Operator>): Option<Fraction>
    requires |num| >= 2 && |op| == |num| - 1
  {
    FoldRest(Apply(op[0], num[0], num[1]), num, op, 2)
  }

  function Apply(op: Operator, a: Fraction, b: Fraction): Option<Fraction>
  {
    if op == DIVIDE && b.num == 0 then None else CalcOperator(op, a, b)
  }

  function FoldRest(res: Option<Fraction>, num: seq<Fraction>, op: seq<Operator>, from: nat): Option<Fraction>
    requires 1 <= from <= |num| && |op| == |num| - 1
    decreases |num| - from
  {
    if from == |num| || res.None? then res
    else FoldRest(Apply(op[from - 1], res.value, num[from]), num, op, from + 1)
  }

  lemma {:induction false} ChainEval(acc: Expr, num: seq<Fraction>, op: seq<Operator>, from: nat)
    requires 1 <= from <= |num| && |op| == |num| - 1
    ensures Eval(ChainTree(acc, num, op, from)) == FoldRest(Eval(acc), num, op, from)
    decreases |num| - from
  {
    if from < |num| {
      var next := Node(op[from - 1], acc, Leaf(num[from]));
      ChainEval(next, num, op, from + 1);
      if Eval(acc).None? {
        assert Eval(next).None?;
        NoneStaysNone(num, op, from + 1);
      }
    }
  }

  lemma {:induction false} NoneStaysNone(num: seq<Fraction>, op: seq<Operator>, from: nat)
    requires 1 <= from <= |num| && |op| == |num| - 1
    ensures FoldRest(None, num, op, from) == None
  {
  }

  /** A Type 1 candidate computes exactly what the first solver's left fold computes. */
  lemma Type1IsLeftFold(num: seq<Fraction>, op: seq<Operator>)
    requires Fits(Type1, num, op)
    ensures Feasible(Empty, Stream(Type1, num, op))
    ensures ResultOf(Run(Empty, Stream(Type1, num, op))) == LeftFold(num, op)
  {
    ShapeRun(Type1, num, op);
    ChainEval(Node(op[0], Leaf(num[0]), Leaf(num[1])), num, op, 2);
  }

  /** The Type 3 tree `8 / (2 * 2)` of the example below. */
  function DivOfProduct(): Expr
  {
    Node(DIVIDE, Leaf(FromInt(8)), Node(TIMES, Leaf(FromInt(2)), Leaf(FromInt(2))))
  }

  /** The Type 1 tree `(8 / 2) * 2` of the example below. */
  function ProductOfQuotient(): Expr
  {
    Node(TIMES, Node(DIVIDE, Leaf(FromInt(8)), Leaf(FromInt(2))), Leaf(FromInt(2)))
  }

  lemma ExampleTrees()
    ensures var num := [FromInt(8), FromInt(2), FromInt(2)];
            ShapeTree(Type3, num, [TIMES, DIVIDE]) == DivOfProduct() &&
            ShapeTree(Type1, num, [DIVIDE, TIMES]) == ProductOfQuotient()
  {
    var num := [FromInt(8), FromInt(2), FromInt(2)];
    assert ChainTree(DivOfProduct(), num, [TIMES, DIVIDE], 3) == DivOfProduct();
    assert ChainTree(ProductOfQuotient(), num, [DIVIDE, TIMES], 3) == ProductOfQuotient();
  }

  lemma ExampleTexts()
    ensures NoNop(DivOfProduct()) && Render(DivOfProduct()) == "8 / 2 * 2"
    ensures NoNop(ProductOfQuotient()) && Render(ProductOfQuotient()) == "8 / 2 * 2"
  {
    assert IntToString(8) == "8" && IntToString(2) == "2";
    assert Render(DivOfProduct()) == "8" + " / " + ("2" + " * " + "2");
    assert Render(ProductOfQuotient()) == ("8" + " / " + "2") + " * " + "2";
  }

  lemma ExampleValues()
    ensures Eval(DivOfProduct()).Some? && Value(Eval(DivOfProduct()).value) == 2.0
    ensures Eval(ProductOfQuotient()).Some? && Value(Eval(ProductOfQuotient()).value) == 8.0
  {
    var eight, two := FromInt(8), FromInt(2);
    var four := Mul(two, two);
    assert Value(four) == 4.0;
    assert Eval(Node(TIMES, Leaf(two), Leaf(two))) == Some(four);
    assert Eval(DivOfProduct()) == Some(Div(eight, four));
    var quot := Div(eight, two);
    assert Value(quot) == 4.0;
    assert Eval(Node(DIVIDE, Leaf(eight), Leaf(two))) == Some(quot);
    assert Eval(ProductOfQuotient()) == Some(Mul(quot, two));
  }

  /**
   * The infix text does not always show the grouping: `*` and `/` get no
   * parentheses, so the Type 3 candidate 8 / (2 * 2) and the Type 1 candidate
   * (8 / 2) * 2 print the same text "8 / 2 * 2" although their values differ.
   */
  lemma InfixHidesGrouping()
    ensures var num := [FromInt(8), FromInt(2), FromInt(2)];
            var t3 := ShapeTree(Type3, num, [TIMES, DIVIDE]);
            var t1 := ShapeTree(Type1, num, [DIVIDE, TIMES]);
            NoNop(t3) && NoNop(t1) &&
            Render(t3) == Render(t1) == "8 / 2 * 2" &&
            Eval(t3).Some? && Value(Eval(t3).value) == 2.0 &&
            Eval(t1).Some? && Value(Eval(t1).value) == 8.0
  {
    ExampleTrees();
    ExampleTexts();
    ExampleValues();
  }
}
