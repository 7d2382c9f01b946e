/** Numbers as digit strings, least significant digit first; what shifting and masking a packed word does. */
module Digits {

  function Pow(b: nat, n: nat): nat
    decreases n
  {
    if n == 0 then 1 else b * Pow(b, n - 1)
  }

  /** The value of a digit string. */
  function FromDigits(ds: seq<int>, b: nat): int
    decreases |ds|
  {
    if ds == [] then 0 else ds[0] + b * FromDigits(ds[1..], b)
  }

  /** The n lowest digits of v. */
  function ToDigits(v: nat, b: nat, n: nat): (ds: seq<nat>)
    requires b > 0
    ensures |ds| == n
    decreases n
  {
    if n == 0 then [] else [v % b] + ToDigits(v / b, b, n - 1)
  }

  predicate AllBelow(ds: seq<int>, b: nat) {
    forall i :: 0 <= i < |ds| ==> 0 <= ds[i] < b
  }

  lemma {:induction false} PowPositive(b: nat, n: nat)
    requires b > 0
    ensures Pow(b, n) > 0
  {
    if n > 0 {
      PowPositive(b, n - 1);
      ProductPositive(b, Pow(b, n - 1));
    }
  }

  lemma ProductPositive(a: nat, b: nat)
    requires a > 0 && b > 0
    ensures a * b > 0
  {
  }

  lemma {:induction false} PowSum(b: nat, m: nat, n: nat)
    ensures Pow(b, m + n) == Pow(b, m) * Pow(b, n)
    decreases m
  {
    if m > 0 {
      PowSum(b, m - 1, n);
      Associate(b, Pow(b, m - 1), Pow(b, n));
    }
  }

  lemma Associate(a: int, b: int, c: int)
    ensures (a * b) * c == a * (b * c)
  {
  }

  lemma {:induction false} PowPow(b: nat, m: nat, n: nat)
    ensures Pow(Pow(b, m), n) == Pow(b, m * n)
    decreases n
  {
    if n > 0 {
      PowPow(b, m, n - 1);
      PowSum(b, m, m * (n - 1));
      assert m * n == m + m * (n - 1);
    }
  }

  lemma {:induction false} PowMonotone(b: nat, m: nat, n: nat)
    requires b > 0 && m <= n
    ensures Pow(b, m) <= Pow(b, n)
    decreases n
  {
    if m < n {
      PowMonotone(b, m, n - 1);
      PowPositive(b, n - 1);
      AtLeast(b, Pow(b, n - 1));
    }
  }

  lemma AtLeast(b: nat, x: nat)
    requires b > 0
    ensures b * x >= x
  {
  }

  // ---------- Value and digits are inverse ----------

  lemma {:induction false} FromDigitsBound(ds: seq<int>, b: nat)
    requires b > 0 && AllBelow(ds, b)
    ensures 0 <= FromDigits(ds, b) < Pow(b, |ds|)
    decreases |ds|
  {
    if ds != [] {
      FromDigitsBound(ds[1..], b);
      DigitBound(ds[0], FromDigits(ds[1..], b), b, Pow(b, |ds| - 1));
    }
  }

  lemma DigitBound(d: int, v: int, b: nat, p: nat)
    requires 0 <= d < b && 0 <= v < p
    ensures 0 <= d + b * v < b * p
  {
    assert b * v + b == b * (v + 1);
    assert b * (v + 1) <= b * p;
  }

  lemma {:induction false} FromToDigits(v: nat, b: nat, n: nat)
    requires b > 0 && v < Pow(b, n)
    ensures FromDigits(ToDigits(v, b, n), b) == v
    decreases n
  {
    if n > 0 {
      QuotientBound(v, b, Pow(b, n - 1));
      FromToDigits(v / b, b, n - 1);
    }
  }

  lemma QuotientBound(v: nat, b: nat, p: nat)
    requires b > 0 && v < b * p
    ensures v / b < p
  {
    if v / b >= p {
      TimesMonotone(b, p, v / b);
    }
  }

  lemma TimesMonotone(b: nat, x: int, y: int)
    requires x <= y
    ensures b * x <= b * y
  {
  }

  lemma {:induction false} ToFromDigits(ds: seq<int>, b: nat)
    requires b > 0 && AllBelow(ds, b)
    ensures FromDigits(ds, b) >= 0 && ToDigits(FromDigits(ds, b), b, |ds|) == ds
    decreases |ds|
  {
    FromDigitsBound(ds, b);
    if ds != [] {
      var rest := ds[1..];
      assert ds == [ds[0]] + rest;
      FromDigitsBound(rest, b);
      ToFromDigits(rest, b);
      DivMod(ds[0], FromDigits(rest, b), b);
    }
  }

  lemma DivMod(d: nat, v: nat, b: nat)
    requires d < b
    ensures (d + b * v) % b == d && (d + b * v) / b == v
  {
    var x := d + b * v;
    QuotientIsUnique(x / b, x % b, v, d, b);
  }

  lemma QuotientIsUnique(q: int, r: int, v: int, d: int, b: nat)
    requires 0 <= r < b && 0 <= d < b && b * q + r == b * v + d
    ensures q == v && r == d
  {
    TimesSuccessor(b, q);
    TimesSuccessor(b, v);
    if q < v {
      TimesMonotone(b, q + 1, v);
    } else if v < q {
      TimesMonotone(b, v + 1, q);
    }
  }

  lemma TimesSuccessor(b: nat, x: int)
    ensures b * (x + 1) == b * x + b
  {
  }

  lemma {:induction false} ToDigitsBelow(v: nat, b: nat, n: nat)
    requires b > 0
    ensures AllBelow(ToDigits(v, b, n), b)
    decreases n
  {
    if n > 0 {
      ToDigitsBelow(v / b, b, n - 1);
    }
  }

  lemma DigitsStep(v: nat, b: nat, n: nat, i: nat)
    requires b > 0 && i < n
    ensures ToDigits(v, b, n)[i] == if i == 0 then v % b else ToDigits(v / b, b, n - 1)[i - 1]
    ensures Pow(b, 0) == 1 && (i > 0 ==> Pow(b, i) == b * Pow(b, i - 1))
  {
  }

  /** Digit i is what a shift by i digits and a mask leave. */
  lemma {:induction false} DigitAt(v: nat, b: nat, n: nat, i: nat)
    requires b > 0 && i < n
    ensures Pow(b, i) > 0 && ToDigits(v, b, n)[i] == (v / Pow(b, i)) % b
    decreases n
  {
    hide *;
    PowPositive(b, i);
    DigitsStep(v, b, n, i);
    if i > 0 {
      PowPositive(b, i - 1);
      DigitAt(v / b, b, n - 1, i - 1);
      ShiftTwice(v, b, Pow(b, i - 1), Pow(b, i));
    }
  }

  lemma ShiftTwice(v: nat, a: nat, b: nat, p: nat)
    requires a > 0 && b > 0 && p == a * b
    ensures p > 0 && (v / a) / b == v / p
  {
    DivDiv(v, a, b);
  }

  lemma DivDiv(v: nat, a: nat, b: nat)
    requires a > 0 && b > 0
    ensures a * b > 0 && (v / a) / b == v / (a * b)
  {
    ProductPositive(a, b);
    var q, r := v / a, v % a;
    var s, t := q / b, q % b;
    TwoStepDivision(q, r, s, t, a, b);
    DivMod(a * t + r, s, a * b);
    assert v == a * t + r + (a * b) * s;
  }

  lemma TwoStepDivision(q: nat, r: nat, s: nat, t: nat, a: nat, b: nat)
    requires r < a && t < b && q == b * s + t
    ensures a * q + r == a * t + r + (a * b) * s
    ensures a * t + r < a * b
  {
    assert a * q == a * (b * s) + a * t;
    Associate(a, b, s);
    TimesMonotone(a, t + 1, b);
    assert a * (t + 1) == a * t + a;
  }

  /** Adding the next digit, shifted into place. */
  lemma {:induction false} FromDigitsSnoc(ds: seq<int>, d: int, b: nat)
    ensures FromDigits(ds + [d], b) == FromDigits(ds, b) + d * Pow(b, |ds|)
    decreases |ds|
  {
    if ds == [] {
      assert [] + [d] == [d];
      assert FromDigits([d][1..], b) == 0;
    } else {
      assert (ds + [d])[1..] == ds[1..] + [d];
      FromDigitsSnoc(ds[1..], d, b);
      ShiftTerm(b, FromDigits(ds[1..], b), d, Pow(b, |ds| - 1));
    }
  }

  lemma ShiftTerm(b: int, v: int, d: int, p: int)
    ensures b * (v + d * p) == b * v + d * (b * p)
  {
    assert b * (v + d * p) == b * v + b * (d * p);
    assert b * (d * p) == (b * d) * p == (d * b) * p == d * (b * p);
  }
}
