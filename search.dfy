/**
 * The search of `solve2nd`: for each ordering of the values, in
 * `itertools.permutations` order, it tries the Type 1 shape over every
 * operator tuple, then the Type 2 variant the parity of the count selects,
 * then Type 3, and stops at the first candidate whose result equals the
 * target. Instead of printing and exiting, it returns what it would print.
 */
module Search {
  import opened Options
  import opened Rationals
  import opened Operators
  import opened Text
  import opened Calculator
  import opened Expressions
  import opened Shapes
  import opened Enumeration

  /** One candidate: a shape, an ordering of the values and an operator tuple. */
  datatype Candidate = Candidate(shape: Shape, num: seq<Fraction>, op: seq<Operator>)

  /** What a solution prints: the shape's tag, `postfix_formula()` and `infix_formula()`. */
  datatype Report = Report(tag: string, postfix: string, infix: string)

  /** The Type 2 variant for n values: 2-1 when n is even, 2-2 when it is odd. */
  function PairShape(n: nat): Shape
  {
    if n % 2 == 0 then Type2Even else Type2Odd
  }

  predicate Buildable(c: Candidate)
  {
    Fits(c.shape, c.num, c.op)
  }

  /**
   * The value of the candidate's expression tree, which is what `rpn.result()`
   * returns after the candidate's pushes into a fresh calculator (ShapeRun).
   */
  function Outcome(c: Candidate): Option<Fraction>
    requires Buildable(c)
  {
    Eval(ShapeTree(c.shape, c.num, c.op))
  }

  /**
   * The acceptance test: the candidate's result exists and equals the target.
   * Fraction's `==` compares numerator and denominator.
   */
  predicate Matches(target: Fraction, c: Candidate)
  {
    Buildable(c) && Outcome(c) == Some(target)
  }

  /** The report of an accepted candidate, read off its expression tree. */
  function ReportOf(c: Candidate): Report
    requires Buildable(c) && Outcome(c).Some?
  {
    var e := ShapeTree(c.shape, c.num, c.op);
    ShapeRun(c.shape, c.num, c.op);
    Report(Tag(c.shape), JoinSpaces(Tokens(e)), Render(e))
  }

  // ---------------------------------------------------------------------------
  // The candidate order.

  /** One shape over every operator tuple, in order. */
  function ShapeCandidates(shape: Shape, num: seq<Fraction>, ops: seq<seq<Operator>>): (r: seq<Candidate>)
    ensures |r| == |ops|
    ensures forall j :: 0 <= j < |r| ==> r[j] == Candidate(shape, num, ops[j])
  {
    seq(|ops|, j requires 0 <= j < |ops| => Candidate(shape, num, ops[j]))
  }

  /** The candidates of one ordering: Type 1, then Type 2-1 or 2-2, then Type 3. */
  function PermCandidates(num: seq<Fraction>, ops: seq<seq<Operator>>): seq<Candidate>
  {
    ShapeCandidates(Type1, num, ops) + ShapeCandidates(PairShape(|num|), num, ops) + ShapeCandidates(Type3, num, ops)
  }

  /**
   * The candidates of one ordering, over `product(opl, repeat=size_number - 1)`;
   * `size_number` is the number of values, which every ordering holds. An
   * empty ordering has none.
   */
  function OrderingCandidates(num: seq<Fraction>): seq<Candidate>
  {
    if num == [] then [] else PermCandidates(num, Product(ArithmeticOperators, |num| - 1))
  }

  /** The candidates of each ordering in turn. */
  function AllCandidates(perms: seq<seq<Fraction>>): seq<Candidate>
    decreases |perms|
  {
    if perms == [] then [] else OrderingCandidates(perms[0]) + AllCandidates(perms[1..])
  }

  /** Every candidate `solve2nd` tries, in the order it tries them. */
  function Candidates(numlist: seq<Fraction>): seq<Candidate>
    requires |numlist| >= 3
  {
    AllCandidates(Permutations(numlist))
  }

  /** Whether each candidate is accepted, in order. */
  function Verdicts(target: Fraction, cs: seq<Candidate>): (r: seq<bool>)
    ensures |r| == |cs|
  {
    seq(|cs|, i requires 0 <= i < |cs| => Matches(target, cs[i]))
  }

  /** The index of the first `true`. */
  function FirstTrue(bs: seq<bool>): (r: Option<nat>)
    ensures r.Some? ==> r.value < |bs| && bs[r.value]
    ensures r.Some? ==> forall j :: 0 <= j < r.value ==> !bs[j]
    ensures r.None? ==> forall j :: 0 <= j < |bs| ==> !bs[j]
    decreases |bs|
  {
    if bs == [] then None
    else if bs[0] then Some(0)
    else match FirstTrue(bs[1..])
      case None => None
      case Some(i) => Some(i + 1)
  }

  /** The index of the first accepted candidate. */
  function FirstMatch(target: Fraction, cs: seq<Candidate>): Option<nat>
  {
    FirstTrue(Verdicts(target, cs))
  }

  /** The report of the first accepted candidate of a list, if any. */
  function ReportFirst(target: Fraction, cs: seq<Candidate>): Option<Report>
  {
    match FirstMatch(target, cs)
    case None => None
    case Some(i) => Some(ReportOf(cs[i]))
  }

  /** The orderings in turn: the report of the first ordering that has an accepted candidate. */
  function SearchOrderings(target: Fraction, perms: seq<seq<Fraction>>): Option<Report>
    decreases |perms|
  {
    if perms == [] then None
    else match ReportFirst(target, OrderingCandidates(perms[0]))
      case Some(rep) => Some(rep)
      case None => SearchOrderings(target, perms[1..])
  }

  /** What `solve2nd` prints, or None when it falls off the end without a solution. */
  function Answer(target: Fraction, numlist: seq<Fraction>): Option<Report>
    requires |numlist| >= 3
  {
    SearchOrderings(target, Permutations(numlist))
  }

  /**
   * Searching ordering by ordering finds the first accepted candidate of the
   * whole list: the first ordering with a report contributes the first
   * accepted candidate overall.
   */
  lemma {:induction false} SearchOrderingsFirst(target: Fraction, perms: seq<seq<Fraction>>)
    ensures SearchOrderings(target, perms) == ReportFirst(target, AllCandidates(perms))
    decreases |perms|
  {
    if perms != [] {
      var mid, rest := OrderingCandidates(perms[0]), AllCandidates(perms[1..]);
      assert AllCandidates(perms) == mid + rest;
      if ReportFirst(target, mid).Some? {
        ReportFirstHead(target, mid, rest);
      } else {
        SearchOrderingsFirst(target, perms[1..]);
        ReportFirstTail(target, mid, rest);
      }
    }
  }

  /** A report in the first part is the report of the whole. */
  lemma ReportFirstHead(target: Fraction, mid: seq<Candidate>, rest: seq<Candidate>)
    requires ReportFirst(target, mid).Some?
    ensures ReportFirst(target, mid + rest) == ReportFirst(target, mid)
  {
    assert FirstMatch(target, []) == None;
    ReportAfter(target, [], mid, rest);
    assert [] + mid + rest == mid + rest;
  }

  /** With no report in the first part, the report of the whole is that of the second. */
  lemma ReportFirstTail(target: Fraction, mid: seq<Candidate>, rest: seq<Candidate>)
    requires ReportFirst(target, mid).None?
    ensures ReportFirst(target, mid + rest) == ReportFirst(target, rest)
  {
    assert FirstMatch(target, []) == None;
    ReportAfter(target, [], mid, rest);
    assert [] + mid == mid;
    ReportAfter(target, mid, rest, []);
    assert mid + rest + [] == mid + rest;
  }

  /** The answer is the report of the first accepted candidate in the whole search order. */
  lemma AnswerFirst(target: Fraction, numlist: seq<Fraction>)
    requires |numlist| >= 3
    ensures Answer(target, numlist) == ReportFirst(target, Candidates(numlist))
  {
    SearchOrderingsFirst(target, Permutations(numlist));
  }

  // ---------------------------------------------------------------------------
  // Properties of the order and of the accepted candidate.

  /** The first `true` is the only `true` with no `true` before it. */
  lemma FirstTrueUnique(bs: seq<bool>, i: nat)
    requires i < |bs| && bs[i]
    requires forall j :: 0 <= j < i ==> !bs[j]
    ensures FirstTrue(bs) == Some(i)
  {
    assert FirstTrue(bs).Some?;
  }

  lemma VerdictsAppend(target: Fraction, a: seq<Candidate>, b: seq<Candidate>)
    ensures Verdicts(target, a + b) == Verdicts(target, a) + Verdicts(target, b)
  {
    var l := Verdicts(target, a + b);
    var va, vb := Verdicts(target, a), Verdicts(target, b);
    assert |l| == |va + vb|;
    forall k | 0 <= k < |l|
      ensures l[k] == (va + vb)[k]
    {
      if k < |a| {
        assert (a + b)[k] == a[k];
        assert (va + vb)[k] == va[k];
      } else {
        assert (a + b)[k] == b[k - |a|];
        assert (va + vb)[k] == vb[k - |a|];
      }
    }
  }

  /**
   * When `pre` holds no accepted candidate, the first accepted candidate of
   * `pre + mid + rest` is `mid`'s first, and nothing is accepted in
   * `pre + mid` when nothing is accepted in `mid` either.
   */
  lemma FoundAfter(target: Fraction, pre: seq<Candidate>, mid: seq<Candidate>, rest: seq<Candidate>)
    requires FirstMatch(target, pre) == None
    ensures FirstMatch(target, mid).Some? ==>
              FirstMatch(target, pre + mid + rest) == Some(|pre| + FirstMatch(target, mid).value)
    ensures FirstMatch(target, mid).None? ==> FirstMatch(target, pre + mid) == None
  {
    VerdictsAppend(target, pre, mid);
    VerdictsAppend(target, pre + mid, rest);
    var bs := Verdicts(target, pre + mid + rest);
    var vp := Verdicts(target, pre);
    var vm := Verdicts(target, mid);
    assert bs == vp + vm + Verdicts(target, rest);
    if FirstTrue(vm).Some? {
      var j := FirstTrue(vm).value;
      assert bs[|pre| + j] == vm[j];
      forall k | 0 <= k < |pre| + j
        ensures !bs[k]
      {
        if k < |pre| {
          assert bs[k] == vp[k];
        } else {
          assert bs[k] == vm[k - |pre|];
        }
      }
      FirstTrueUnique(bs, |pre| + j);
    } else {
      assert Verdicts(target, pre + mid) == vp + vm;
    }
  }

  /** A candidate comes from one of the orderings of `perms`. */
  lemma {:induction false} AllCandidatesOrdering(perms: seq<seq<Fraction>>, c: Candidate)
    requires c in AllCandidates(perms)
    ensures c.num in perms && c in OrderingCandidates(c.num)
    decreases |perms|
  {
    if perms != [] {
      if c in OrderingCandidates(perms[0]) {
        OrderingCandidatesMember(perms[0], c);
      } else {
        AllCandidatesOrdering(perms[1..], c);
      }
    }
  }

  /**
   * A candidate of one ordering uses that ordering, a tuple of the product for
   * its size and one of the three shapes.
   */
  lemma OrderingCandidatesMember(num: seq<Fraction>, c: Candidate)
    requires c in OrderingCandidates(num)
    ensures c.num == num && |num| >= 1
    ensures c.op in Product(ArithmeticOperators, |num| - 1)
    ensures c.shape == Type1 || c.shape == PairShape(|num|) || c.shape == Type3
  {
    PermCandidatesMember(num, Product(ArithmeticOperators, |num| - 1), c);
  }

  /** A candidate of one ordering uses that ordering, a tuple of `ops` and one of the three shapes. */
  lemma PermCandidatesMember(num: seq<Fraction>, ops: seq<seq<Operator>>, c: Candidate)
    requires c in PermCandidates(num, ops)
    ensures c.num == num && c.op in ops
    ensures c.shape == Type1 || c.shape == PairShape(|num|) || c.shape == Type3
  {
    var c1, c2, c3 := ShapeCandidates(Type1, num, ops), ShapeCandidates(PairShape(|num|), num, ops), ShapeCandidates(Type3, num, ops);
    assert c in c1 || c in c2 || c in c3;
    var cs := if c in c1 then c1 else if c in c2 then c2 else c3;
    var j :| 0 <= j < |cs| && cs[j] == c;
    assert c.op == ops[j];
  }

  lemma PermutationOf(numlist: seq<Fraction>, p: seq<Fraction>)
    requires p in Permutations(numlist)
    ensures multiset(p) == multiset(numlist) && |p| == |numlist|
  {
    PermutationsSound(numlist);
  }

  /** Every sequence in `xs` has length n. */
  ghost predicate AllOfLength<T>(xs: seq<seq<T>>, n: int)
  {
    forall i :: 0 <= i < |xs| ==> |xs[i]| == n
  }

  /** Every ordering of `numlist` holds as many values as `numlist`. */
  lemma OrderingSizes(numlist: seq<Fraction>, perms: seq<seq<Fraction>>)
    requires perms == Permutations(numlist)
    ensures AllOfLength(perms, |numlist|)
  {
    PermutationsSound(numlist);
  }

  /** Every operator tuple of `product(opl, repeat=k)` has k slots. */
  lemma TupleSizes(k: nat, ops: seq<seq<Operator>>)
    requires ops == Product(ArithmeticOperators, k)
    ensures AllOfLength(ops, k)
  {
    ProductSound(ArithmeticOperators, k);
  }

  lemma ArithmeticTuple(k: nat, t: seq<Operator>)
    requires t in Product(ArithmeticOperators, k)
    ensures |t| == k && NOP !in t
  {
    ProductSound(ArithmeticOperators, k);
  }

  /**
   * Every candidate uses an ordering of exactly the given values and a tuple
   * of n - 1 arithmetic operators, with one of the three shapes tried.
   */
  lemma CandidatesWellFormed(numlist: seq<Fraction>, c: Candidate)
    requires |numlist| >= 3 && c in Candidates(numlist)
    ensures multiset(c.num) == multiset(numlist) && |c.num| == |numlist|
    ensures |c.op| == |numlist| - 1 && NOP !in c.op
    ensures c.shape == Type1 || c.shape == PairShape(|numlist|) || c.shape == Type3
  {
    CandidateOrdering(numlist, c);
    CandidateTuple(numlist, c);
  }

  lemma CandidateOrdering(numlist: seq<Fraction>, c: Candidate)
    requires |numlist| >= 3 && c in Candidates(numlist)
    ensures multiset(c.num) == multiset(numlist) && |c.num| == |numlist|
    ensures c.shape == Type1 || c.shape == PairShape(|numlist|) || c.shape == Type3
  {
    AllCandidatesOrdering(Permutations(numlist), c);
    OrderingCandidatesMember(c.num, c);
    PermutationOf(numlist, c.num);
  }

  lemma CandidateTuple(numlist: seq<Fraction>, c: Candidate)
    requires |numlist| >= 3 && c in Candidates(numlist)
    ensures |c.op| == |numlist| - 1 && NOP !in c.op
  {
    AllCandidatesOrdering(Permutations(numlist), c);
    OrderingCandidatesMember(c.num, c);
    PermutationOf(numlist, c.num);
    ArithmeticTuple(|c.num| - 1, c.op);
  }

  lemma CandidateBuildable(numlist: seq<Fraction>, c: Candidate)
    requires |numlist| >= 3 && c in Candidates(numlist)
    ensures Buildable(c)
  {
    CandidatesWellFormed(numlist, c);
    assert Buildable(c);
  }

  /** A candidate that divided by zero on the way leaves two or more operands and is never accepted. */
  lemma ZeroDivisionRejected(target: Fraction, c: Candidate)
    requires Buildable(c) && NOP !in c.op
    requires Feasible(Empty, Stream(c.shape, c.num, c.op))
    requires ZeroDivisions(Empty, Stream(c.shape, c.num, c.op)) > 0
    ensures !Matches(target, c)
  {
    ShapeStackSize(c.shape, c.num, c.op);
    ShapeRun(c.shape, c.num, c.op);
  }

  /**
   * A candidate is accepted exactly when its shape's expression evaluates,
   * without a zero divisor, to the target's value.
   */
  lemma MatchesMeaning(target: Fraction, c: Candidate)
    requires Buildable(c)
    ensures Matches(target, c) <==>
              var v := Eval(ShapeTree(c.shape, c.num, c.op));
              v.Some? && Value(v.value) == Value(target)
  {
    var v := Eval(ShapeTree(c.shape, c.num, c.op));
    if v.Some? && Value(v.value) == Value(target) {
      ValueInjective(v.value, target);
    }
  }

  /**
   * Soundness: a reported solution comes from a candidate over exactly the
   * given values, whose expression evaluates to the target and whose infix
   * text and tag are the ones reported.
   */
  lemma AnswerSound(target: Fraction, numlist: seq<Fraction>)
    requires |numlist| >= 3 && Answer(target, numlist).Some?
    ensures exists c :: c in Candidates(numlist) && Buildable(c) &&
              var e := ShapeTree(c.shape, c.num, c.op);
              multiset(c.num) == multiset(numlist) && NOP !in c.op &&
              Eval(e).Some? && Value(Eval(e).value) == Value(target) && NoNop(e) &&
              Answer(target, numlist) == Some(Report(Tag(c.shape), JoinSpaces(Tokens(e)), Render(e)))
  {
    AnswerFirst(target, numlist);
    var cs := Candidates(numlist);
    var i := FirstMatch(target, cs).value;
    var c := cs[i];
    assert Verdicts(target, cs)[i] && c in cs;
    CandidatesWellFormed(numlist, c);
    CandidateBuildable(numlist, c);
    MatchesMeaning(target, c);
    ShapeRun(c.shape, c.num, c.op);
    assert Answer(target, numlist) == Some(ReportOf(c));
  }

  /** Nothing is reported exactly when no candidate in the order is accepted. */
  lemma AnswerNone(target: Fraction, numlist: seq<Fraction>)
    requires |numlist| >= 3
    ensures Answer(target, numlist).None? <==> forall c :: c in Candidates(numlist) ==> !Matches(target, c)
  {
    AnswerFirst(target, numlist);
    var cs := Candidates(numlist);
    var vs := Verdicts(target, cs);
    if Answer(target, numlist).Some? {
      var i := FirstMatch(target, cs).value;
      assert vs[i] && cs[i] in cs;
    } else {
      forall c | c in cs
        ensures !Matches(target, c)
      {
        var k :| 0 <= k < |cs| && cs[k] == c;
        assert !vs[k];
      }
    }
  }

  // ---------------------------------------------------------------------------
  // The search loops.

  /** Pushes each command of the stream into the calculator, in order. */
  method PushAll(rpn: RPNCalc, cmds: seq<Cmd>)
    requires Feasible(rpn.Snapshot(), cmds)
    modifies rpn
    ensures rpn.Snapshot() == Run(old(rpn.Snapshot()), cmds)
  {
    for i := 0 to |cmds|
      invariant Feasible(rpn.Snapshot(), cmds[i..])
      invariant Run(rpn.Snapshot(), cmds[i..]) == Run(old(rpn.Snapshot()), cmds)
    {
      assert cmds[i..][0] == cmds[i] && cmds[i..][1..] == cmds[i + 1..];
      rpn.Push(cmds[i]);
    }
    assert cmds[|cmds|..] == [];
  }

  /**
   * The loop over operator tuples of `solve2nd` for a fixed ordering and
   * shape: a fresh calculator per tuple, the shape's pushes, the calculator's
   * result, and the report of the first tuple whose result equals the target.
   */
  method TryShape(target: Fraction, shape: Shape, num: seq<Fraction>, ops: seq<seq<Operator>>)
    returns (r: Option<Report>)
    requires forall j :: 0 <= j < |ops| ==> Fits(shape, num, ops[j])
    ensures r == ReportFirst(target, ShapeCandidates(shape, num, ops))
  {
    ghost var cs := ShapeCandidates(shape, num, ops);
    ghost var vs := Verdicts(target, cs);
    for j := 0 to |ops|
      invariant forall k :: 0 <= k < j ==> !vs[k]
    {
      var rpn := new RPNCalc();
      ShapeRun(shape, num, ops[j]);
      PushAll(rpn, Stream(shape, num, ops[j]));
      var res := rpn.Result();
      assert res == Outcome(cs[j]);
      if res.Some? && target == res.value {
        var postfix := rpn.PostfixFormula();
        var infix := rpn.InfixFormula();
        r := Some(Report(Tag(shape), postfix, infix.value));
        FirstTrueUnique(vs, j);
        return;
      }
    }
    r := None;
  }

  /**
   * The search for one ordering of the values: the Type 1 loop, the
   * Type 2 loop the parity selects, the Type 3 loop, stopping at the first
   * accepted candidate.
   */
  method TryOrdering(target: Fraction, num: seq<Fraction>, ops: seq<seq<Operator>>) returns (r: Option<Report>)
    requires |num| >= 3 && forall j :: 0 <= j < |ops| ==> |ops[j]| == |num| - 1
    ensures r == ReportFirst(target, PermCandidates(num, ops))
  {
    ghost var c1 := ShapeCandidates(Type1, num, ops);
    ghost var c2 := ShapeCandidates(PairShape(|num|), num, ops);
    ghost var c3 := ShapeCandidates(Type3, num, ops);
    ghost var cs := PermCandidates(num, ops);
    r := TryShape(target, Type1, num, ops);
    assert cs == [] + c1 + (c2 + c3);
    ReportAfter(target, [], c1, c2 + c3);
    if r.Some? {
      return;
    }
    r := TryShape(target, if |num| % 2 == 0 then Type2Even else Type2Odd, num, ops);
    assert cs == c1 + c2 + c3;
    ReportAfter(target, c1, c2, c3);
    if r.Some? {
      return;
    }
    r := TryShape(target, Type3, num, ops);
    assert cs == c1 + c2 + c3 + [];
    ReportAfter(target, c1 + c2, c3, []);
  }

  /**
   * When `pre` holds no accepted candidate, the report of `pre + mid + rest`
   * is `mid`'s report, and `pre + mid` still holds none when `mid` reports none.
   */
  lemma ReportAfter(target: Fraction, pre: seq<Candidate>, mid: seq<Candidate>, rest: seq<Candidate>)
    requires FirstMatch(target, pre) == None
    ensures ReportFirst(target, mid).Some? ==> ReportFirst(target, pre + mid + rest) == ReportFirst(target, mid)
    ensures ReportFirst(target, mid).None? ==> FirstMatch(target, pre + mid) == None
  {
    FoundAfter(target, pre, mid, rest);
    var m := FirstMatch(target, mid);
    if m.Some? {
      ReportAt(target, pre, mid, rest, m.value);
    } else {
      assert ReportFirst(target, mid) == None;
    }
  }

  /** The report of a match found at index j of the middle part. */
  lemma ReportAt(target: Fraction, pre: seq<Candidate>, mid: seq<Candidate>, rest: seq<Candidate>, j: nat)
    requires FirstMatch(target, mid) == Some(j)
    requires FirstMatch(target, pre + mid + rest) == Some(|pre| + j)
    ensures j < |mid| && ReportFirst(target, mid) == Some(ReportOf(mid[j]))
    ensures ReportFirst(target, pre + mid + rest) == ReportFirst(target, mid)
  {
    assert j < |mid|;
    assert (pre + mid + rest)[|pre| + j] == mid[j];
  }

  /** The outer loop of the search: the orderings in turn, stopping at the first accepted candidate. */
  method TryOrderings(target: Fraction, perms: seq<seq<Fraction>>, ghost n: nat)
    returns (r: Option<Report>)
    requires n >= 3 && AllOfLength(perms, n)
    ensures r == SearchOrderings(target, perms)
  {
    for p := 0 to |perms|
      invariant SearchOrderings(target, perms[p..]) == SearchOrderings(target, perms)
    {
      var ops := Product(ArithmeticOperators, |perms[p]| - 1);
      TupleSizes(|perms[p]| - 1, ops);
      r := TryOrdering(target, perms[p], ops);
      assert perms[p..][0] == perms[p] && perms[p..][1..] == perms[p + 1..];
      if r.Some? {
        return;
      }
    }
    r := None;
  }

  /**
   * `solve2nd(targetnum, numlist)` for three or more values: the report of
   * the first accepted candidate in the search order, or None when every
   * candidate is rejected.
   */
  method Solve2nd(target: Fraction, numlist: seq<Fraction>) returns (r: Option<Report>)
    requires |numlist| >= 3
    ensures r == Answer(target, numlist)
  {
    var perms := Permutations(numlist);
    OrderingSizes(numlist, perms);
    r := TryOrderings(target, perms, |numlist|);
  }
}
