/**
 * Exact rationals in lowest terms, the values the calculator works on.
 * A `Fraction` keeps the invariant of Python's `fractions.Fraction`: a positive
 * denominator and a numerator and denominator without a common factor. Its
 * meaning is the `real` it denotes; every operation is proved against that meaning.
 */
module Rationals {

  datatype Frac = Frac(num: int, den: int)

  function Abs(x: int): nat { if x < 0 then -x else x }

  /** Euclid's algorithm. */
  function Gcd(a: nat, b: nat): nat
    decreases b
  {
    if b == 0 then a else Gcd(b, a % b)
  }

  predicate Reduced(f: Frac) {
    f.den > 0 && Gcd(Abs(f.num), f.den) == 1
  }

  type Fraction = f: Frac | Reduced(f) witness Frac(0, 1)

  /** The number a fraction stands for. */
  function Value(f: Frac): real
    requires f.den != 0
  {
    f.num as real / f.den as real
  }

  /** An integer as a fraction with denominator 1. */
  function FromInt(n: int): (f: Fraction)
    ensures Value(f) == n as real
  {
    assert Gcd(Abs(n), 1) == 1 by { assert Gcd(Abs(n), 1) == Gcd(1, 0); }
    Frac(n, 1)
  }

  // ---------------------------------------------------------------------------
  // Arithmetic, as Fraction's operators compute it: the exact result in lowest terms.

  function Add(a: Fraction, b: Fraction): (r: Fraction)
    ensures Value(r) == Value(a) + Value(b)
  {
    CrossFacts(a, b);
    Normalize(a.num * b.den + b.num * a.den, a.den * b.den)
  }

  function Sub(a: Fraction, b: Fraction): (r: Fraction)
    ensures Value(r) == Value(a) - Value(b)
  {
    CrossFacts(a, b);
    Normalize(a.num * b.den - b.num * a.den, a.den * b.den)
  }

  function Mul(a: Fraction, b: Fraction): (r: Fraction)
    ensures Value(r) == Value(a) * Value(b)
  {
    CrossFacts(a, b);
    Normalize(a.num * b.num, a.den * b.den)
  }

  /** Fraction division; `b.num == 0` is the case where Fraction raises ZeroDivisionError. */
  function Div(a: Fraction, b: Fraction): (r: Fraction)
    requires b.num != 0
    ensures Value(b) != 0.0 && Value(r) == Value(a) / Value(b)
  {
    QuotientFacts(a, b);
    Normalize(a.num * b.den, a.den * b.num)
  }

  lemma CrossFacts(a: Fraction, b: Fraction)
    ensures a.den * b.den > 0
    ensures (a.num * b.den + b.num * a.den) as real / (a.den * b.den) as real == Value(a) + Value(b)
    ensures (a.num * b.den - b.num * a.den) as real / (a.den * b.den) as real == Value(a) - Value(b)
    ensures (a.num * b.num) as real / (a.den * b.den) as real == Value(a) * Value(b)
  {
    CrossInts(a.num, a.den, b.num, b.den);
  }

  lemma CrossInts(an: int, ad: int, bn: int, bd: int)
    requires ad > 0 && bd > 0
    ensures ad * bd > 0
    ensures (an * bd + bn * ad) as real / (ad * bd) as real == an as real / ad as real + bn as real / bd as real
    ensures (an * bd - bn * ad) as real / (ad * bd) as real == an as real / ad as real - bn as real / bd as real
    ensures (an * bn) as real / (ad * bd) as real == (an as real / ad as real) * (bn as real / bd as real)
  {
    MulNonneg(ad - 1, bd);
    IntProd(ad, bd);
    IntProd(an, bd);
    IntProd(bn, ad);
    IntProd(an, bn);
    SumOfRatios(an as real, ad as real, bn as real, bd as real);
    DiffOfRatios(an as real, ad as real, bn as real, bd as real);
    ProdOfRatios(an as real, ad as real, bn as real, bd as real);
  }

  lemma QuotientFacts(a: Fraction, b: Fraction)
    requires b.num != 0
    ensures Value(b) != 0.0 && a.den * b.num != 0
    ensures (a.num * b.den) as real / (a.den * b.num) as real == Value(a) / Value(b)
  {
    QuotientInts(a.num, a.den, b.num, b.den);
  }

  lemma QuotientInts(an: int, ad: int, bn: int, bd: int)
    requires ad > 0 && bd > 0 && bn != 0
    ensures bn as real / bd as real != 0.0 && ad * bn != 0
    ensures (an * bd) as real / (ad * bn) as real == (an as real / ad as real) / (bn as real / bd as real)
  {
    IntProd(ad, bn);
    IntProd(an, bd);
    QuotOfRatios(an as real, ad as real, bn as real, bd as real);
  }

  lemma IntProd(a: int, b: int)
    ensures (a * b) as real == (a as real) * (b as real)
  {
  }

  lemma SumOfRatios(na: real, da: real, nb: real, db: real)
    requires da != 0.0 && db != 0.0
    ensures (na * db + nb * da) / (da * db) == na / da + nb / db
  {
    var x, y := na / da, nb / db;
    assert na == x * da && nb == y * db;
    assert na * db + nb * da == (x + y) * (da * db);
  }

  lemma DiffOfRatios(na: real, da: real, nb: real, db: real)
    requires da != 0.0 && db != 0.0
    ensures (na * db - nb * da) / (da * db) == na / da - nb / db
  {
    var x, y := na / da, nb / db;
    assert na == x * da && nb == y * db;
    assert na * db - nb * da == (x - y) * (da * db);
  }

  lemma ProdOfRatios(na: real, da: real, nb: real, db: real)
    requires da != 0.0 && db != 0.0
    ensures (na * nb) / (da * db) == (na / da) * (nb / db)
  {
    var x, y := na / da, nb / db;
    assert na == x * da && nb == y * db;
    assert na * nb == (x * y) * (da * db);
  }

  lemma QuotOfRatios(na: real, da: real, nb: real, db: real)
    requires da != 0.0 && db != 0.0 && nb != 0.0
    ensures (na * db) / (da * nb) == (na / da) / (nb / db)
  {
    var x, y := na / da, nb / db;
    assert na == x * da && nb == y * db;
    assert y != 0.0;
    assert na * db == (x / y) * (da * nb);
  }

  // ---------------------------------------------------------------------------
  // Divisibility facts about Gcd, with explicit cofactors.

  lemma {:induction false} GcdPositive(a: nat, b: nat)
    requires a > 0 || b > 0
    ensures Gcd(a, b) > 0
    decreases b
  {
    if b > 0 {
      GcdPositive(b, a % b);
    }
  }

  /** Gcd(a, b) divides both arguments. */
  lemma {:induction false} GcdDivides(a: nat, b: nat) returns (ka: int, kb: int)
    ensures Gcd(a, b) * ka == a && Gcd(a, b) * kb == b
    decreases b
  {
    if b == 0 {
      ka, kb := 1, 0;
    } else {
      var g := Gcd(a, b);
      var k1, k2 := GcdDivides(b, a % b);
      assert g * k1 == b && g * k2 == a % b;
      var q := a / b;
      assert a == q * b + a % b;
      LinearCombination(g, q, k1, k2);
      ka := q * k1 + k2;
      kb := k1;
    }
  }

  lemma LinearCombination(g: int, q: int, k1: int, k2: int)
    ensures g * (q * k1 + k2) == q * (g * k1) + g * k2
  {
    assert g * (q * k1) == q * (g * k1);
  }

  /** Every common divisor of a and b divides Gcd(a, b). */
  lemma {:induction false} CommonDivisorDividesGcd(d: int, a: nat, b: nat, ka: int, kb: int) returns (k: int)
    requires d * ka == a && d * kb == b
    ensures d * k == Gcd(a, b)
    decreases b
  {
    if b == 0 {
      k := ka;
    } else {
      var q := a / b;
      var km := ka - q * kb;
      calc {
        d * km;
        d * ka - q * (d * kb);
        a - q * b;
        a % b;
      }
      k := CommonDivisorDividesGcd(d, b, a % b, kb, km);
    }
  }

  // Small nonlinear facts used below.

  lemma MulNonneg(a: int, b: int)
    requires a >= 0 && b >= 0
    ensures a * b >= 0
  {
  }

  lemma OnlyZeroInRange(g: int, m: int)
    requires g > 0 && 0 <= g * m < g
    ensures m == 0
  {
    if m >= 1 {
      MulNonneg(g, m - 1);
    } else if m <= -1 {
      MulNonneg(g, -m);
      assert g * m == -(g * (-m));
    }
  }

  /** Division by an exact divisor gives back the cofactor. */
  lemma ExactQuotient(x: int, g: int, k: int)
    requires g > 0 && x == g * k
    ensures x / g == k
  {
    var q, r := x / g, x % g;
    assert x == g * q + r;
    assert g * (k - q) == g * k - g * q;
    OnlyZeroInRange(g, k - q);
  }

  lemma SignOfCofactor(g: int, k: int)
    requires g > 0
    ensures g * k > 0 ==> k > 0
    ensures g * k >= 0 ==> k >= 0
  {
    if k < 0 {
      MulNonneg(g, -k);
      assert g * k == -(g * (-k));
    }
  }

  lemma UnitFactor(h: int, t: int)
    requires h > 0 && h * t == 1
    ensures h == 1
  {
  }

  lemma CancelLeft(g: int, x: int, y: int)
    requires g > 0 && g * x == g * y
    ensures x == y
  {
    assert g * (x - y) == 0;
  }

  // ---------------------------------------------------------------------------
  // Normalisation, as the Fraction constructor does it.

  /**
   * The fraction p/q in lowest terms with a positive denominator: both parts are
   * divided by their gcd, and the signs are flipped when q is negative.
   */
  function Normalize(p: int, q: int): (f: Fraction)
    requires q != 0
    ensures Value(f) == p as real / q as real
  {
    GcdPositive(Abs(p), Abs(q));
    var g := Gcd(Abs(p), Abs(q));
    var s := if q < 0 then -1 else 1;
    NormalizeFacts(p, q, g, s);
    Frac(s * p / g, s * q / g)
  }

  lemma NormalizeFacts(p: int, q: int, g: int, s: int)
    requires q != 0 && g == Gcd(Abs(p), Abs(q)) && g > 0
    requires s == (if q < 0 then -1 else 1)
    ensures s * q / g > 0
    ensures Reduced(Frac(s * p / g, s * q / g))
    ensures (s * p / g) as real / (s * q / g) as real == p as real / q as real
  {
    var ka, kb := GcdDivides(Abs(p), Abs(q));
    var n, d := s * p / g, s * q / g;
    QuotientsAreCofactors(p, q, g, s, ka, kb);
    assert Abs(n) == ka && d == kb;
    CofactorsCoprime(Abs(p), Abs(q), g, Abs(n), d);
    SameRatio(s * p, s * q, g, n, d);
    SignFlip(p, q, s);
  }

  lemma SignFlip(p: int, q: int, s: int)
    requires q != 0 && (s == 1 || s == -1)
    ensures (s * p) as real / (s * q) as real == p as real / q as real
  {
    if s == -1 {
      assert (s * p) as real == -(p as real) && (s * q) as real == -(q as real);
    }
  }

  lemma QuotientsAreCofactors(p: int, q: int, g: int, s: int, ka: int, kb: int)
    requires q != 0 && g > 0 && s == (if q < 0 then -1 else 1)
    requires g * ka == Abs(p) && g * kb == Abs(q)
    ensures g * (s * p / g) == s * p && g * (s * q / g) == s * q
    ensures s * q / g == kb > 0 && Abs(s * p / g) == ka
  {
    assert s * q == Abs(q);
    SignOfCofactor(g, ka);
    SignOfCofactor(g, kb);
    var kp := if s * p < 0 then -ka else ka;
    assert g * kp == s * p;
    ExactQuotient(s * p, g, kp);
    ExactQuotient(s * q, g, kb);
  }

  /** Dividing a and b by their gcd leaves coprime cofactors. */
  lemma CofactorsCoprime(a: nat, b: nat, g: int, ka: nat, kb: nat)
    requires g == Gcd(a, b) && g > 0 && kb > 0
    requires g * ka == a && g * kb == b
    ensures Gcd(ka, kb) == 1
  {
    GcdPositive(ka, kb);
    var h := Gcd(ka, kb);
    var ma, mb := GcdDivides(ka, kb);
    Assoc(g, h, ma);
    Assoc(g, h, mb);
    var t := CommonDivisorDividesGcd(g * h, a, b, ma, mb);
    Assoc(g, h, t);
    CancelLeft(g, h * t, 1);
    UnitFactor(h, t);
  }

  lemma Assoc(a: int, b: int, c: int)
    ensures (a * b) * c == a * (b * c)
  {
  }

  lemma SameRatio(x: int, y: int, g: int, n: int, d: int)
    requires g > 0 && d > 0 && g * n == x && g * d == y
    ensures n as real / d as real == x as real / y as real
  {
    assert x as real == (g as real) * (n as real);
    assert y as real == (g as real) * (d as real);
  }

  // ---------------------------------------------------------------------------
  // Lowest terms are unique, so comparing two fractions part by part, as
  // Fraction's `==` does, compares their values.

  /** Two fractions in lowest terms with the same value are the same fraction. */
  lemma ValueInjective(a: Fraction, b: Fraction)
    requires Value(a) == Value(b)
    ensures a == b
  {
    CrossEqual(a, b);
    var t := DenominatorDivides(a, b);
    var u := DenominatorDivides(b, a);
    Assoc(b.den, u, t);
    CancelLeft(b.den, u * t, 1);
    SignOfCofactor(a.den, t);
    UnitFactor(t, u);
    assert b.num * a.den == b.num * b.den;
    CancelLeft(b.den, a.num, b.num);
  }

  /** Equal values have equal cross products. */
  lemma CrossEqual(a: Fraction, b: Fraction)
    requires Value(a) == Value(b)
    ensures a.num * b.den == b.num * a.den
  {
    var x := Value(a);
    assert a.num as real == x * a.den as real;
    assert b.num as real == x * b.den as real;
    IntProd(a.num, b.den);
    IntProd(b.num, a.den);
  }

  /** With equal cross products, a's denominator divides b's. */
  lemma DenominatorDivides(a: Fraction, b: Fraction) returns (t: int)
    requires a.num * b.den == b.num * a.den
    ensures b.den == a.den * t
  {
    var s := if a.num < 0 then -1 else 1;
    assert Abs(a.num) == s * a.num;
    assert Abs(a.num) * b.den == a.den * (s * b.num) by {
      assert (s * a.num) * b.den == s * (a.num * b.den);
      assert a.den * (s * b.num) == s * (b.num * a.den);
    }
    t := Euclid(Abs(a.num), a.den, b.den, s * b.num);
  }

  /** Euclid's lemma: a number coprime to n that divides n * m divides m. */
  lemma Euclid(n: nat, d: nat, m: int, k: int) returns (t: int)
    requires Gcd(n, d) == 1 && n * m == d * k
    ensures m == d * t
  {
    var x, y := Bezout(n, d);
    t := k * x + m * y;
    calc {
      m;
      m * (n * x + d * y);
      (n * m) * x + d * (m * y);
      (d * k) * x + d * (m * y);
      d * t;
    }
  }

  /** Bezout's identity, read off Euclid's algorithm. */
  lemma {:induction false} Bezout(a: nat, b: nat) returns (x: int, y: int)
    ensures a * x + b * y == Gcd(a, b)
    decreases b
  {
    if b == 0 {
      x, y := 1, 0;
    } else {
      var x1, y1 := Bezout(b, a % b);
      var q := a / b;
      assert a % b == a - q * b;
      BezoutStep(a, b, q, x1, y1);
      x, y := y1, x1 - q * y1;
    }
  }

  lemma BezoutStep(a: int, b: int, q: int, x1: int, y1: int)
    ensures b * x1 + (a - q * b) * y1 == a * y1 + b * (x1 - q * y1)
  {
    assert (a - q * b) * y1 == a * y1 - q * b * y1;
    assert b * (x1 - q * y1) == b * x1 - q * b * y1;
  }
}
