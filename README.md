# make_number in Dafny

A model of the solver in `main.py` of make_number. Given a list of exact
fractions and a target, the solver looks for a way to combine the values with
`+`, `-`, `*` and `/` so that the result equals the target. It prints the
formula it finds in postfix and in infix form.

The model has three layers, one per part of the program.

- **The calculator `RPNCalc`.** It is a reverse-Polish evaluator with an operand
  stack and a formula, the list of display tokens of everything pushed so far.
  - `Calculator.Step` and `Calculator.Run` give the meaning of one push and of a
    stream of pushes.
  - The class `Calculator.RPNCalc` updates its two fields in place. `push` is
    proved to change the state exactly as `Step` says. Every other method
    states its whole new stack and formula in terms of the old ones.
  - A value push writes the text of the fraction's numerator only.
  - A division by zero raises no error. It puts both operands back and writes
    their two numerals instead of `/`.
  - `result()` pops the sole operand, or gives nothing unless exactly one is
    left.
  - `infix_formula` folds the tokens into fragments. `+` and `-` are
    parenthesised; `*` and `/` are not.
- **The four command streams of `solve2nd`.** They are Type 1, Type 2-1, Type
  2-2 and Type 3. Each is built exactly as the code pushes it. Each is proved to
  be the postfix form of an expression tree (`Shapes.ShapeTree`) and to use
  every value and every operator slot once, in order.
  - Running a stream from a fresh calculator yields the tree's value.
  - The formula it leaves renders, through the infix fold, as the tree's infix
    text.
  - A stream that divides by zero ends with more than one operand, so it is
    always rejected.
- **The search.** It tries candidates in a fixed order:
  - the orderings of the values, in `itertools.permutations` order;
  - for each ordering, Type 1, then the Type 2 variant that the parity of the
    count selects, then Type 3;
  - for each shape, every operator tuple, in `itertools.product` order.

  `Search.Solve2nd` runs these loops with a fresh calculator per candidate. It
  returns the report of the first candidate whose result equals the target,
  where the source prints that report and exits. The returned value is proved
  equal to `Search.Answer`, which walks the orderings in turn as the outer loop
  does. Each ordering's operator tuples are drawn from the product whose size
  is that ordering's length less one; every ordering holds all the values, so
  this is the source's `size_number - 1`. `Search.AnswerFirst` proves that this is the report of the first
  accepted candidate of the whole list `Search.Candidates`. Further lemmas
  prove what such a report means and when nothing is reported.

Python's `Fraction` is modelled as `Rationals.Fraction`: a numerator and a
positive denominator in lowest terms. `Rationals.Value` gives its meaning as
an exact `real`. The lowest-terms form is needed because the formula shows
`str(numerator)`.

Two of the streams group their values in a way the loop structure alone does
not make obvious:

- **Type 2 grouping.** Each pair is grouped first. The pushes `v[i] v[i+1]
  op[i-1] op[i]` compute `running op[i] (v[i] op[i-1] v[i+1])`.
- **Type 3 grouping.** The opening pushes `v0 v1 v2 op0 op1` compute
  `v0 op1 (v1 op0 v2)`, the second and third values grouped first.

Because `*` and `/` get no parentheses, the infix text does not always show how
a candidate was grouped. `Shapes.InfixHidesGrouping` gives two candidates with
different values and the same text `8 / 2 * 2`. This is how the program
behaves, and the model keeps it.

## Model

| member | source | states |
|---|---|---|
| Rationals.Add | main.py:49 | the sum of two fractions, exact: its value is the sum of their values |
| Rationals.Sub | main.py:54 | the difference `num1 - num2`, exact |
| Rationals.Mul | main.py:59 | the product, exact |
| Rationals.Div | main.py:65 | for a nonzero divisor, the exact quotient `num1 / num2` |
| Rationals.Normalize | main.py:47-72 | the fraction the arithmetic builds from p and q ≠ 0 is in lowest terms with a positive denominator, and its value is p / q |
| Rationals.ValueInjective | main.py:260 | two fractions in lowest terms with the same value are the same fraction, so `targetnum == res`, which compares numerator and denominator, compares values |
| Decimal.IntToString | main.py:40 | `str(numerator)`: a non-empty text that starts with `-` exactly for a negative number, followed by decimal digits with no leading zero (the digits of zero are `0` alone, and a negative number's first digit is never `0`) |
| Decimal.NoLeadingZero | main.py:40 | the decimal digits of a natural number start with `0` only for zero, which is written `0` |
| Decimal.IntToStringRoundTrip | main.py:40 | the numerator's text `str(numerator)` reads back as the numerator, so the token loses nothing |
| Decimal.IntToStringIsNumeral | main.py:40 | a numerator's text is never one of the symbols `+ - * /` and holds no space |
| Operators.CalcOperator | main.py:148-161 | `calc_operator` gives None exactly for NOP; otherwise the exact `num1 op num2` (a zero divisor raises in the source, so it is required away) |
| Operators.ViewOp | main.py:164-177 | `view_op`: the one-character symbol of each arithmetic operator, and the empty text exactly for NOP |
| Operators.ViewOpRoundTrip | main.py:164-177 | `view_op` gives each arithmetic operator a distinct symbol that `infix_formula` reads back as that operator; NOP's empty text reads as none |
| Text.SplitJoin | main.py:95 | joining space-free tokens with `" "` and cutting at the spaces gives the tokens back |
| Calculator.Numeral | main.py:38-40 | the token `__push_num` writes for a value is its numerator's text alone, and it reads back as the numerator |
| Calculator.Step | main.py:120-142 | the meaning of one `push`: a value goes through `__push_num`, NOP changes nothing, an operator goes to its `__plus`, `__minus`, `__times` or `__divide` |
| Calculator.StepEffect | main.py:38-72 | per push: a value and its numeral are appended; the top is the right operand and the one beneath the left; `left op right` replaces them, the rest of the stack is kept and one symbol is appended; a zero divisor leaves the stack as it was and appends two numerals |
| Calculator.RunStackSize | main.py:42-72 | after any stream without NOP, the stack size is the start size plus the values minus the operators plus the zero-divisor dead ends |
| Calculator.FoldLeaf | main.py:116-117 | a token that is not an operator symbol is pushed as a fragment of its own |
| Calculator.RunFragments | main.py:97-118 | the formula folds to as many fragments as there are operands, plus two per zero-divisor dead end |
| Calculator.RPNCalc.constructor | main.py:28-30 | a new calculator has an empty stack and an empty formula |
| Calculator.RPNCalc.Reset | main.py:32-36 | both lists are emptied |
| Calculator.RPNCalc.PushNum | main.py:38-40 | the value is appended to the stack and its numerator's text to the formula |
| Calculator.RPNCalc.PreCalc | main.py:42-45 | the top two operands are removed and returned as (left, right); the formula is unchanged |
| Calculator.RPNCalc.Plus | main.py:47-50 | the top two operands are replaced by their sum and `+` is appended |
| Calculator.RPNCalc.Minus | main.py:52-55 | the top two operands are replaced by left minus right and `-` is appended |
| Calculator.RPNCalc.Times | main.py:57-60 | the top two operands are replaced by their product and `*` is appended |
| Calculator.RPNCalc.Divide | main.py:62-72 | for a nonzero right operand, the quotient replaces the two and `/` is appended; for a zero one, the stack ends as it began and the two numerals are appended |
| Calculator.RPNCalc.Result | main.py:74-85 | the sole operand is returned and popped when exactly one is left; otherwise None and the stack is unchanged; the formula never changes |
| Calculator.RPNCalc.PostfixFormula | main.py:87-95 | `postfix_formula` joins the tokens with single spaces; when no token holds a space, cutting the text at the spaces gives the tokens back |
| Calculator.RPNCalc.InfixFormula | main.py:97-118 | the loop computes the left-to-right fold of the formula and returns its bottom fragment, or None where the source raises IndexError |
| Calculator.RPNCalc.Push | main.py:120-142 | the new state is one `Step` from the old one: value, NOP or operator dispatch |
| Expressions.RunPostfix | main.py:120-142 | pushing a tree's postfix stream never pops an empty stack and keeps everything below; with a value, it adds exactly that value and the tree's tokens; without one, it leaves at least two operands |
| Expressions.FoldRender | main.py:97-118 | folding a tree's tokens pushes exactly the tree's infix text as one fragment |
| Expressions.FreshRun | main.py:74-118 | from a fresh calculator, a tree with a value gives that value from `result()`; its formula is the tree's tokens and its infix formula is the tree's infix text |
| Expressions.FreshRunRejected | main.py:74-85 | from a fresh calculator, a tree without a value (NOP or a zero divisor) gives None from `result()` |
| Expressions.PostfixText | main.py:87-95 | cutting the postfix text of a tree at the spaces gives back its tokens |
| Shapes.Tag | main.py:261-324 | the tag printed with a solution of each shape: `TYPE1`, `TYPE2-1`, `TYPE2-2` or `TYPE3` |
| Shapes.Stream | main.py:248-318 | the pushes of one candidate of each shape, in the order the four loops of `solve2nd` make them |
| Shapes.ChainPostfix | main.py:253-255 | the loop that pushes one value and then one operator folds each value into the running expression from the left |
| Shapes.PairsPostfix | main.py:272-276 | the pair loop computes `running op[i] (v[i] op[i-1] v[i+1])`, grouping the pair first |
| Shapes.Type3Head | main.py:311-315 | the Type 3 opening `v0 v1 v2 op0 op1` computes `v0 op1 (v1 op0 v2)` |
| Shapes.ShapeGrouping | main.py:247-318 | each of the four streams is the postfix form of its shape's expression tree |
| Shapes.ChainUses | main.py:253-255 | the chain loop pushes `num[from..]` and `op[from-1..]`, in order |
| Shapes.PairsUses | main.py:272-276 | the pair loop pushes `num[from..end]` and `op[from-1..end-1]`, in order |
| Shapes.Type1Uses | main.py:250-255 | Type 1 pushes every value and every operator slot exactly once, in order |
| Shapes.Type2EvenUses | main.py:269-276 | Type 2-1 pushes every value and every operator slot exactly once, in order |
| Shapes.Type2OddUses | main.py:289-298 | Type 2-2 pushes every value and every operator slot exactly once, in order, the last value with `op[-1]` |
| Shapes.Type3Uses | main.py:311-318 | Type 3 pushes every value and every operator slot exactly once, in order |
| Shapes.ShapeUsesAll | main.py:247-318 | each stream pushes exactly the values of the ordering and the operators of the tuple |
| Shapes.ShapeRun | main.py:247-262 | each stream is feasible; its result is the value of the shape's expression; with a value, the formula is the expression's tokens and the infix formula its infix text |
| Shapes.ShapeStackSize | main.py:257-259 | with n values and n - 1 arithmetic operators, the final stack holds one operand plus one per zero-divisor dead end, so `result()` succeeds exactly when no division by zero happened |
| Shapes.ChainEval | main.py:203-209 | folding the rest of the values into an expression computes what the first solver's left-fold loop computes |
| Shapes.Type1IsLeftFold | main.py:196-209 | a Type 1 candidate's result equals the first solver's left fold of the same values and operators |
| Shapes.InfixHidesGrouping | main.py:108-115 | `8 / (2 * 2)` (Type 3) and `(8 / 2) * 2` (Type 1) print the same infix text with values 2 and 8 |
| Enumeration.Permutations | main.py:243 | `permutations(numlist)`: the orderings starting with the first value, then with the second, and so on, each followed by the orderings of the rest |
| Enumeration.Product | main.py:247 | `product(opl, repeat=k)`: every k-tuple over the choices, the last position varying fastest |
| Enumeration.PermutationsSound | main.py:243 | every ordering produced holds exactly the given values, each as often as the input, duplicates kept |
| Enumeration.PermutationsCount | main.py:243 | n values give n! orderings |
| Enumeration.ProductSound | main.py:247 | every operator tuple has n - 1 slots, each from `opl`, and there are 4^(n-1) of them |
| Search.FirstTrue | main.py:245-263 | the first index that holds, with none holding before it, or None when none holds |
| Search.FirstTrueUnique | main.py:245-263 | an index that holds, with none before it, is the first |
| Search.FoundAfter | main.py:245-326 | when nothing earlier is accepted, the first accepted candidate of the whole is the first of the next part |
| Search.ReportAfter | main.py:245-326 | when nothing earlier is accepted, the report for the whole list is the first report of the next part; if that part has none, nothing up to its end is accepted |
| Search.AllCandidatesOrdering | main.py:245 | every candidate of the search order belongs to one of the orderings and is one of that ordering's candidates |
| Search.OrderingCandidatesMember | main.py:245-247 | a candidate of one ordering uses that ordering, an operator tuple of `product(opl, repeat=size_number - 1)` and one of the three shapes |
| Search.CandidatesWellFormed | main.py:243-247 | every candidate uses an ordering of exactly the given values and n - 1 arithmetic operators, with Type 1, the parity's Type 2 or Type 3 |
| Search.CandidateBuildable | main.py:245-318 | every candidate's stream can be built without an index error |
| Search.ZeroDivisionRejected | main.py:257-259 | a candidate that divides by zero is never accepted |
| Search.Matches | main.py:257-260 | the acceptance test: the candidate's result exists and equals the target |
| Search.MatchesMeaning | main.py:257-260 | a candidate is accepted exactly when its expression has a value equal to the target |
| Search.SearchOrderingsFirst | main.py:245-326 | taking the orderings in turn and stopping at the first one with an accepted candidate gives the report of the first accepted candidate of all orderings together |
| Search.AnswerFirst | main.py:243-326 | what `solve2nd` reports is the report of the first accepted candidate in the whole search order |
| Search.AnswerSound | main.py:260-263 | a report comes from a candidate over exactly the given values, without NOP, whose expression equals the target; it carries that shape's tag, postfix text and infix text |
| Search.AnswerNone | main.py:245-326 | nothing is reported exactly when no candidate is accepted |
| Search.PushAll | main.py:250-255 | pushing the stream command by command leaves the calculator in the state `Run` gives |
| Search.TryShape | main.py:247-263 | the tuple loop for one shape returns the report of its first accepted candidate, or None |
| Search.TryOrdering | main.py:245-326 | one ordering: Type 1, then Type 2-1 or 2-2 by parity, then Type 3, stopping at the first accepted candidate |
| Search.TryOrderings | main.py:245-247 | the orderings in turn, each over the operator tuples of `product(opl, repeat=size_number - 1)`, stopping at the first ordering with an accepted candidate: the result is that ordering's report, or None when no ordering has one |
| Search.Solve2nd | main.py:222-326 | with three or more values, the result is the report of the first accepted candidate in search order, or None when every candidate is rejected |

## Left out

- The `__main__` block (main.py:329-341) is not modelled. It reads argv or stdin, parses the tokens into fractions and prints the question; all of that is I/O.
- The `print` and `exit(0)` calls of `solve2nd` are not modelled. The search returns the report as a value instead.
- `solve` (main.py:180-219), the first solver, is not modelled as a search. Only its left fold is modelled (`Shapes.LeftFold`), as a point of comparison for Type 1. A zero divisor there raises ZeroDivisionError; the model shows it as None.
- Search.Solve2nd: is modelled only for three or more values. With one value the source raises IndexError at `num[1]`. With two values it raises IndexError at `num[2]` when Type 3 is tried, but a Type 1 or Type 2-1 match found earlier is printed before that; the model does not cover these runs.
- `itertools.permutations` and `itertools.product` are written as recursive functions in their documented order. Only soundness and counts are proved, not that every ordering or tuple appears.
- Python's `Fraction` internals are not modelled beyond exact arithmetic in lowest terms. Its `==` compares numerator and denominator, which for lowest terms is comparison by value. Parsing the input text into fractions belongs to the `__main__` block and is left out with it.
- Operators.CalcOperator: requires a nonzero divisor for DIVIDE, where the source raises ZeroDivisionError. Nothing in the modelled core calls it with a zero divisor.
- Calculator.RPNCalc.Push: requires that an operator push finds at least two operands (`CanStep`), and `PreCalc`, `Plus`, `Minus`, `Times` and `Divide` require `|stack| >= 2`. On a shorter stack the source raises IndexError in `__pre_calc` (main.py:43-44), after the first `pop()` has already removed the only operand. That error path is not modelled. Every stream of `solve2nd` avoids it (`Shapes.ShapeRun` proves each one feasible).
- `push` with an argument that is neither a Fraction nor an Operator (main.py:141-142) cannot be expressed: `Cmd` holds only those two.
- Calculator.RPNCalc.InfixFormula: None stands for the IndexError the source raises on a formula that does not fold. The source's `str(op)` for a non-string token cannot occur, since tokens are strings.
