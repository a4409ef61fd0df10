/**
 * The two enumerations the search draws its candidates from, in the order
 * `itertools` produces them: `permutations(xs)` (index tuples in
 * lexicographic order) and `product(choices, repeat=k)` (the last position
 * varies fastest).
 */
module Enumeration {

  /** Each sequence of `tails` with `x` put in front, in order. */
  function Prepend<T>(x: T, tails: seq<seq<T>>): (r: seq<seq<T>>)
    ensures |r| == |tails|
    ensures forall j :: 0 <= j < |r| ==> r[j] == [x] + tails[j]
  {
    seq(|tails|, j requires 0 <= j < |tails| => [x] + tails[j])
  }

  /** `xs` without its element at index `i`. */
  function Without<T>(xs: seq<T>, i: nat): (r: seq<T>)
    requires i < |xs|
    ensures |r| == |xs| - 1
    ensures multiset(r) + multiset{xs[i]} == multiset(xs)
  {
    assert xs == xs[..i] + [xs[i]] + xs[i + 1..];
    xs[..i] + xs[i + 1..]
  }

  // ---------------------------------------------------------------------------
  // permutations

  /** `itertools.permutations(xs)`: first element xs[0], xs[1], ... in turn, the rest recursively. */
  function Permutations<T>(xs: seq<T>): seq<seq<T>>
    decreases |xs|, |xs| + 1
  {
    if xs == [] then [[]] else PermutationsFrom(xs, 0)
  }

  /** The orderings of `xs` that start with xs[i], then those that start with xs[i + 1], and so on. */
  function PermutationsFrom<T>(xs: seq<T>, i: nat): seq<seq<T>>
    requires i <= |xs|
    decreases |xs|, |xs| - i
  {
    if i == |xs| then []
    else Prepend(xs[i], Permutations(Without(xs, i))) + PermutationsFrom(xs, i + 1)
  }

  /** Every ordering produced holds the elements of `xs`, each as often as `xs` does. */
  lemma {:induction false} PermutationsSound<T>(xs: seq<T>)
    ensures forall p :: p in Permutations(xs) ==> multiset(p) == multiset(xs) && |p| == |xs|
    decreases |xs|, |xs| + 1
  {
    if xs != [] {
      PermutationsFromSound(xs, 0);
    }
  }

  lemma {:induction false} PermutationsFromSound<T>(xs: seq<T>, i: nat)
    requires i <= |xs|
    ensures forall p :: p in PermutationsFrom(xs, i) ==> multiset(p) == multiset(xs) && |p| == |xs|
    decreases |xs|, |xs| - i
  {
    if i < |xs| {
      var rest := Without(xs, i);
      var front := Prepend(xs[i], Permutations(rest));
      PermutationsSound(rest);
      PermutationsFromSound(xs, i + 1);
      forall p | p in front
        ensures multiset(p) == multiset(xs) && |p| == |xs|
      {
        var j :| 0 <= j < |front| && front[j] == p;
        assert Permutations(rest)[j] in Permutations(rest);
      }
    }
  }

  function Factorial(n: nat): nat
  {
    if n == 0 then 1 else n * Factorial(n - 1)
  }

  /** There are n! orderings of n elements, duplicates among the elements included. */
  lemma {:induction false} PermutationsCount<T>(xs: seq<T>)
    ensures |Permutations(xs)| == Factorial(|xs|)
    decreases |xs|, |xs| + 1
  {
    if xs != [] {
      PermutationsFromCount(xs, 0);
    }
  }

  lemma {:induction false} PermutationsFromCount<T>(xs: seq<T>, i: nat)
    requires i <= |xs|
    ensures |xs| > 0 ==> |PermutationsFrom(xs, i)| == (|xs| - i) * Factorial(|xs| - 1)
    decreases |xs|, |xs| - i
  {
    if i < |xs| {
      PermutationsCount(Without(xs, i));
      PermutationsFromCount(xs, i + 1);
      var f := Factorial(|xs| - 1);
      assert (|xs| - i) * f == f + (|xs| - i - 1) * f;
    }
  }

  // ---------------------------------------------------------------------------
  // product

  /** `itertools.product(choices, repeat=k)`: every k-tuple over `choices`, the last position fastest. */
  function Product<T>(choices: seq<T>, k: nat): seq<seq<T>>
  {
    if k == 0 then [[]] else PrependEach(choices, Product(choices, k - 1))
  }

  /** The tuples of `tails` behind choices[0], then behind choices[1], and so on. */
  function PrependEach<T>(choices: seq<T>, tails: seq<seq<T>>): seq<seq<T>>
    decreases |choices|
  {
    if choices == [] then [] else Prepend(choices[0], tails) + PrependEach(choices[1..], tails)
  }

  lemma {:induction false} PrependEachSound<T>(choices: seq<T>, tails: seq<seq<T>>, k: nat)
    requires forall t :: t in tails ==> |t| == k
    ensures forall t :: t in PrependEach(choices, tails) ==>
              |t| == k + 1 && t[0] in choices && t[1..] in tails
    decreases |choices|
  {
    if choices != [] {
      var front := Prepend(choices[0], tails);
      var back := PrependEach(choices[1..], tails);
      PrependEachSound(choices[1..], tails, k);
      assert PrependEach(choices, tails) == front + back;
      forall t | t in front + back
        ensures |t| == k + 1 && t[0] in choices && t[1..] in tails
      {
        if t in front {
          var j :| 0 <= j < |front| && front[j] == t;
          assert t[1..] == tails[j];
        } else {
          assert t in back;
          assert t[0] in choices[1..];
        }
      }
    }
  }

  function Power(b: nat, k: nat): nat
  {
    if k == 0 then 1 else b * Power(b, k - 1)
  }

  /** Each tuple has length k and draws every position from `choices`; there are |choices|^k of them. */
  lemma ProductSound<T>(choices: seq<T>, k: nat)
    ensures forall t :: t in Product(choices, k) ==> |t| == k && forall j :: 0 <= j < k ==> t[j] in choices
    ensures |Product(choices, k)| == Power(|choices|, k)
  {
    ProductTuples(choices, k);
    ProductCount(choices, k);
  }

  /** Every tuple of `ts` has length k and draws every position from `choices`. */
  ghost predicate TuplesOver<T>(choices: seq<T>, ts: seq<seq<T>>, k: nat)
  {
    forall t :: t in ts ==> |t| == k && forall j :: 0 <= j < k ==> t[j] in choices
  }

  lemma {:induction false} ProductTuples<T>(choices: seq<T>, k: nat)
    ensures TuplesOver(choices, Product(choices, k), k)
  {
    if k > 0 {
      ProductTuples(choices, k - 1);
      var tails := Product(choices, k - 1);
      PrependEachSound(choices, tails, k - 1);
      assert Product(choices, k) == PrependEach(choices, tails);
      forall t | t in Product(choices, k)
        ensures |t| == k && forall j :: 0 <= j < k ==> t[j] in choices
      {
        assert t in PrependEach(choices, tails);
        TupleFromParts(choices, tails, t, k - 1);
      }
    }
  }

  lemma {:induction false} ProductCount<T>(choices: seq<T>, k: nat)
    ensures |Product(choices, k)| == Power(|choices|, k)
  {
    if k > 0 {
      ProductCount(choices, k - 1);
      PrependEachCount(choices, Product(choices, k - 1));
    }
  }

  lemma {:induction false} PrependEachCount<T>(choices: seq<T>, tails: seq<seq<T>>)
    ensures |PrependEach(choices, tails)| == |choices| * |tails|
    decreases |choices|
  {
    if choices != [] {
      PrependEachCount(choices[1..], tails);
      assert |choices| * |tails| == |tails| + (|choices| - 1) * |tails|;
    }
  }

  /** A tuple whose head is in `choices` and whose tail is one of `tails` draws every entry from `choices`. */
  lemma TupleFromParts<T>(choices: seq<T>, tails: seq<seq<T>>, t: seq<T>, k: nat)
    requires TuplesOver(choices, tails, k)
    requires |t| == k + 1 && t[0] in choices && t[1..] in tails
    ensures forall j :: 0 <= j < k + 1 ==> t[j] in choices
  {
    var u := t[1..];
    assert forall j :: 0 <= j < k ==> u[j] in choices;
    forall j | 0 < j < k + 1
      ensures t[j] in choices
    {
      assert t[j] == u[j - 1];
    }
  }
}
