/** The operator enumeration with `calc_operator` and `view_op`. */
module Operators {
  import opened Options
  import opened Rationals

  /** NOP is the inert member; the other four are the arithmetic operators. */
  datatype Operator = NOP | PLUS | MINUS | TIMES | DIVIDE

  /** The operator list `opl` the search draws from, in its order. */
  const ArithmeticOperators: seq<Operator> := [PLUS, MINUS, TIMES, DIVIDE]

  /** What a binary operator means on exact numbers. */
  function RealOp(op: Operator, x: real, y: real): real
    requires op != NOP && (op == DIVIDE ==> y != 0.0)
  {
    match op
    case PLUS => x + y
    case MINUS => x - y
    case TIMES => x * y
    case DIVIDE => x / y
  }

  /**
   * `calc_operator`: None for NOP, otherwise the exact result of `num1 op num2`.
   * A zero divisor makes the source raise ZeroDivisionError, so it is excluded.
   */
  function CalcOperator(op: Operator, num1: Fraction, num2: Fraction): (r: Option<Fraction>)
    requires op == DIVIDE ==> num2.num != 0
    ensures r.None? <==> op == NOP
    ensures r.Some? ==> (op == DIVIDE ==> Value(num2) != 0.0) && op != NOP &&
                        Value(r.value) == RealOp(op, Value(num1), Value(num2))
  {
    match op
    case NOP => None
    case PLUS => Some(Add(num1, num2))
    case MINUS => Some(Sub(num1, num2))
    case TIMES => Some(Mul(num1, num2))
    case DIVIDE => Some(Div(num1, num2))
  }

  /** `view_op`: the display symbol of an operator; NOP shows as the empty string. */
  function ViewOp(op: Operator): string
  {
    match op
    case NOP => ""
    case PLUS => "+"
    case MINUS => "-"
    case TIMES => "*"
    case DIVIDE => "/"
  }

  /**
   * The reading of a token that `infix_formula` performs by comparing it with
   * "+", "-", "*" and "/": the operator it names, or None for any other token.
   */
  function SymbolOperator(token: string): Option<Operator>
  {
    if token == "+" then Some(PLUS)
    else if token == "-" then Some(MINUS)
    else if token == "*" then Some(TIMES)
    else if token == "/" then Some(DIVIDE)
    else None
  }

  /**
   * `view_op` and the symbol reading are inverse: every arithmetic operator's
   * symbol reads back as that operator, and every token read as an operator is
   * that operator's symbol. NOP's empty symbol reads as no operator.
   */
  lemma ViewOpRoundTrip(op: Operator, token: string)
    ensures op != NOP ==> SymbolOperator(ViewOp(op)) == Some(op)
    ensures SymbolOperator(ViewOp(NOP)) == None
    ensures SymbolOperator(token).Some? ==>
              SymbolOperator(token).value != NOP && ViewOp(SymbolOperator(token).value) == token
    ensures SymbolOperator(token).Some? <==> token in {"+", "-", "*", "/"}
  {
  }
}
