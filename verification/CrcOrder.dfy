/**
 The order of x modulo the generator x^16 + x^12 + x^5 + 1 is 32767: x^n is 1 exactly
 when 32767 divides n.  Two bits of a packet can hide each other's error only at such
 a distance.
 */
module CrcOrder {
  import opened Crc

  const ORDER: nat := 32767

  /** x^n, reduced. */
  function Power(n: nat): bv16 {
    ShiftBy(1, n)
  }

  // ---------- Products of remainders ----------

  predicate Odd(a: bv16) {
    a & 1 != 0
  }

  function Half(a: bv16): bv16 {
    a >> 1
  }

  /** v times the k lowest coefficients of a. */
  function Product(v: bv16, a: bv16, k: nat): bv16
    decreases k
  {
    if k == 0 then 0 else Xor(if Odd(a) then v else 0, Product(Shift(v), Half(a), k - 1))
  }

  function HalfBy(a: bv16, k: nat): bv16
    decreases k
  {
    if k == 0 then a else HalfBy(Half(a), k - 1)
  }

  lemma OddBit(a: bv16)
    requires a & 1 != 0
    ensures a == 1 ^ Shift(a >> 1)
  {
  }

  lemma EvenBit(a: bv16)
    requires a & 1 == 0
    ensures a == 0 ^ Shift(a >> 1)
  {
  }

  lemma LowAndHalf(a: bv16)
    ensures a == Xor(if Odd(a) then 1 else 0, Shift(Half(a)))
  {
    hide Shift;
    if Odd(a) {
      OddBit(a);
    } else {
      EvenBit(a);
    }
  }

  /** Multiplying by x^m is multiplying by the remainder of x^m. */
  lemma {:induction false} ProductIsShiftBy(m: nat, a: bv16, k: nat)
    requires HalfBy(a, k) == 0
    ensures Product(Power(m), a, k) == ShiftBy(a, m)
    decreases k
  {
    hide Shift, Xor, Odd, Half;
    ShiftByZero(m);
    if k > 0 {
      var low := if Odd(a) then 1 else 0;
      PowerNext(m);
      ProductIsShiftBy(m + 1, Half(a), k - 1);
      LowAndHalf(a);
      ShiftByAdditive(low, Shift(Half(a)), m);
    }
  }

  lemma PowerNext(m: nat)
    ensures Power(m + 1) == Shift(Power(m))
  {
    hide Shift;
    ShiftByCompose(1, m, 1);
    assert ShiftBy(ShiftBy(1, m), 1) == ShiftBy(Shift(ShiftBy(1, m)), 0);
  }

  lemma HalfSixteenTimes(a: bv16)
    ensures a >> 1 >> 1 >> 1 >> 1 >> 1 >> 1 >> 1 >> 1 >> 1 >> 1 >> 1 >> 1 >> 1 >> 1 >> 1 >> 1 == 0
  {
  }

  lemma HalfByFour(a: bv16, k: nat)
    ensures HalfBy(a, k + 4) == HalfBy(Half(Half(Half(Half(a)))), k)
  {
    hide Half;
    assert HalfBy(a, k + 4) == HalfBy(Half(Half(a)), k + 2);
  }

  lemma HalfByNone(a: bv16)
    ensures HalfBy(a, 0) == a
  {
  }

  lemma HalfBySixteen(a: bv16)
    ensures HalfBy(a, 16) == 0
  {
    HalfSixteenTimes(a);
    var b := Half(Half(Half(Half(a))));
    var c := Half(Half(Half(Half(b))));
    var d := Half(Half(Half(Half(c))));
    hide HalfBy;
    HalfByFour(a, 12);
    HalfByFour(b, 8);
    HalfByFour(c, 4);
    HalfByFour(d, 0);
    HalfByNone(Half(Half(Half(Half(d)))));
  }

  lemma PowerDouble(n: nat, v: bv16)
    requires Power(n) == v
    ensures Power(2 * n) == Product(v, v, 16)
    ensures Power(2 * n + 1) == Shift(Product(v, v, 16))
  {
    hide Shift, Xor, Product, HalfBy;
    HalfBySixteen(v);
    ProductIsShiftBy(n, v, 16);
    ShiftByCompose(1, n, n);
    PowerNext(2 * n);
  }

  // ---------- Evaluating products ----------

  function Term(v: bv16, a: bv16): bv16 {
    if Odd(a) then v else 0
  }

  function ShiftFour(v: bv16): bv16 {
    Shift(Shift(Shift(Shift(v))))
  }

  function HalfFour(a: bv16): bv16 {
    Half(Half(Half(Half(a))))
  }

  function FourTerms(v: bv16, a: bv16): bv16 {
    Xor(Xor(Term(v, a), Term(Shift(v), Half(a))),
        Xor(Term(Shift(Shift(v)), Half(Half(a))), Term(Shift(Shift(Shift(v))), Half(Half(Half(a))))))
  }

  lemma ProductOne(v: bv16, a: bv16, k: nat)
    ensures Product(v, a, k + 1) == Xor(Term(v, a), Product(Shift(v), Half(a), k))
  {
    hide Shift, Xor, Odd, Half;
  }

  lemma ProductFour(v: bv16, a: bv16, k: nat)
    ensures Product(v, a, k + 4) == Xor(FourTerms(v, a), Product(ShiftFour(v), HalfFour(a), k))
  {
    hide Shift, Xor, Half, Term, Product;
    ProductOne(v, a, k + 3);
    ProductOne(Shift(v), Half(a), k + 2);
    ProductOne(Shift(Shift(v)), Half(Half(a)), k + 1);
    ProductOne(Shift(Shift(Shift(v))), Half(Half(Half(a))), k);
    var t0, t1 := Term(v, a), Term(Shift(v), Half(a));
    var t2, t3 := Term(Shift(Shift(v)), Half(Half(a))), Term(Shift(Shift(Shift(v))), Half(Half(Half(a))));
    var rest := Product(ShiftFour(v), HalfFour(a), k);
    XorLaws(t2, t3, rest);
    XorLaws(t1, Xor(t2, t3), rest);
    XorLaws(t0, t1, Xor(t2, t3));
    XorLaws(t0, Xor(t1, Xor(t2, t3)), rest);
  }

  /** v times itself, written out. */
  function Square(v: bv16): bv16 {
    var v4, a4 := ShiftFour(v), HalfFour(v);
    var v8, a8 := ShiftFour(v4), HalfFour(a4);
    var v12, a12 := ShiftFour(v8), HalfFour(a8);
    Xor(FourTerms(v, v), Xor(FourTerms(v4, a4), Xor(FourTerms(v8, a8), FourTerms(v12, a12))))
  }

  lemma ProductNone(v: bv16, a: bv16)
    ensures Product(v, a, 0) == 0
  {
  }

  lemma SquareIsProduct(v: bv16)
    ensures Product(v, v, 16) == Square(v)
  {
    hide Product, FourTerms, ShiftFour, HalfFour, Xor;
    var v4, a4 := ShiftFour(v), HalfFour(v);
    var v8, a8 := ShiftFour(v4), HalfFour(a4);
    var v12, a12 := ShiftFour(v8), HalfFour(a8);
    ProductFour(v, v, 12);
    ProductFour(v4, a4, 8);
    ProductFour(v8, a8, 4);
    ProductFour(v12, a12, 0);
    ProductNone(ShiftFour(v12), HalfFour(a12));
    XorLaws(FourTerms(v12, a12), 0, 0);
  }

  lemma PowerSquare(n: nat, v: bv16)
    requires Power(n) == v
    ensures Power(2 * n) == Square(v) && Power(2 * n + 1) == Shift(Square(v))
  {
    hide Shift, Square, Product;
    PowerDouble(n, v);
    SquareIsProduct(v);
  }

  // ---------- Six powers of x ----------

  lemma PowerOne()
    ensures Power(1) == 2
  {
    assert ShiftBy(1, 1) == ShiftBy(Shift(1), 0);
  }

  lemma Power127()
    ensures Power(127) == 0x577E
  {
    PowerOne();
    PowerSquare(1, 0x2);
    PowerSquare(3, 0x8);
    PowerSquare(7, 0x80);
    PowerSquare(15, 0x8000);
    PowerSquare(31, 0x1B98);
    PowerSquare(63, 0xD420);
  }

  lemma Power2047()
    ensures Power(2047) == 0x7EA8
  {
    Power127();
    PowerSquare(127, 0x577E);
    PowerSquare(255, 0xCF04);
    PowerSquare(511, 0x9FE);
    PowerSquare(1023, 0x1B62);
  }

  /** x^32767 = 1. */
  lemma PowerOrder()
    ensures Power(32767) == 1
  {
    Power2047();
    PowerSquare(2047, 0x7EA8);
    PowerSquare(4095, 0x554F);
    PowerSquare(8191, 0x440E);
    PowerSquare(16383, 0x222C);
  }

  lemma Power73()
    ensures Power(73) == 0x8FA6
  {
    PowerOne();
    PowerSquare(1, 0x2);
    PowerSquare(2, 0x4);
    PowerSquare(4, 0x10);
    PowerSquare(9, 0x200);
    PowerSquare(18, 0x4084);
    PowerSquare(36, 0x4363);
  }

  lemma Power1170()
    ensures Power(1170) == 0x163
  {
    Power73();
    PowerSquare(73, 0x8FA6);
    PowerSquare(146, 0x4388);
    PowerSquare(292, 0x1396);
    PowerSquare(585, 0x4500);
  }

  lemma Power4681()
    ensures Power(4681) == 0x2C42
  {
    Power1170();
    PowerSquare(1170, 0x163);
    PowerSquare(2340, 0x424);
  }

  lemma Power66()
    ensures Power(66) == 0xC1C6
  {
    PowerOne();
    PowerSquare(1, 0x2);
    PowerSquare(2, 0x4);
    PowerSquare(4, 0x10);
    PowerSquare(8, 0x100);
    PowerSquare(16, 0x1021);
    PowerSquare(33, 0x6E60);
  }

  lemma Power1057()
    ensures Power(1057) == 0xF2AF
  {
    Power66();
    PowerSquare(66, 0xC1C6);
    PowerSquare(132, 0x4E8A);
    PowerSquare(264, 0x5946);
    PowerSquare(528, 0x78B3);
  }

  lemma Power217()
    ensures Power(217) == 0x48E3
  {
    PowerOne();
    PowerSquare(1, 0x2);
    PowerSquare(3, 0x8);
    PowerSquare(6, 0x40);
    PowerSquare(13, 0x2000);
    PowerSquare(27, 0x89A9);
    PowerSquare(54, 0x1168);
    PowerSquare(108, 0x3750);
  }

  /** x^(32767 / 7), x^(32767 / 31) and x^(32767 / 151) are not 1. */
  lemma PowerCofactors()
    ensures Power(4681) != 1 && Power(1057) != 1 && Power(217) != 1
  {
    hide Power;
    Power4681();
    Power1057();
    Power217();
  }

  // ---------- The least period ----------

  ghost predicate Period(m: nat) {
    m > 0 && Power(m) == 1
  }

  lemma PowerSum(m: nat, n: nat)
    requires Power(m) == 1
    ensures Power(m + n) == Power(n)
  {
    hide Shift;
    ShiftByCompose(1, m, n);
  }

  lemma {:induction false} PowerMultiple(m: nat, k: nat)
    requires Power(m) == 1
    ensures Power(k * m) == 1
  {
    hide ShiftBy, Power;
    if k == 0 {
      assert Power(0) == 1 by { PowerNone(); }
    } else {
      PowerMultiple(m, k - 1);
      PowerSum(m, (k - 1) * m);
      assert k * m == m + (k - 1) * m;
    }
  }

  lemma PowerNone()
    ensures Power(0) == 1
  {
  }

  ghost predicate Least(m: nat) {
    Period(m) && forall i :: 0 < i < m ==> !Period(i)
  }

  lemma {:induction false} LeastPeriodBelow(n: nat) returns (m: nat)
    requires Period(n)
    ensures Least(m) && m <= n
    decreases n
  {
    if i :| 0 < i < n && Period(i) {
      m := LeastPeriodBelow(i);
    } else {
      m := n;
    }
  }

  /** Every period is a multiple of the least. */
  lemma LeastDivides(m: nat, n: nat)
    requires Least(m) && Power(n) == 1
    ensures n % m == 0
  {
    hide ShiftBy, Power;
    var k, r := n / m, n % m;
    assert n == k * m + r;
    PowerMultiple(m, k);
    PowerSum(k * m, r);
    assert !Period(r);
  }

  predicate KnownDivisor(d: nat) {
    d == 1 || d == 7 || d == 31 || d == 151
  }

  lemma SmallDivisor(m: nat, k: nat)
    requires m * k == 32767 && m <= 181
    ensures KnownDivisor(m)
  {
  }

  lemma ProductBound(m: nat, k: nat)
    requires m >= 182 && k >= 182
    ensures m * k >= 33124
  {
    assert m * k >= 182 * k;
  }

  /** The least period is 32767. */
  lemma OrderIsLeast()
    ensures Least(ORDER)
  {
    PowerOrder();
    var m := LeastPeriodBelow(ORDER);
    hide ShiftBy, Power;
    LeastDivides(m, ORDER);
    var k := ORDER / m;
    assert m * k == ORDER;
    PowerCofactors();
    PowerOne();
    if m <= 181 {
      SmallDivisor(m, k);
      PowerMultiple(m, if m == 151 then 7 else 217 / m);
      assert false;
    } else {
      if k >= 182 {
        ProductBound(m, k);
        assert false;
      }
      SmallDivisor(k, m);
      assert k == 1;
    }
  }

  /** Main result: x^n is 1 exactly when 32767 divides n. */
  lemma PowerIsOneIff(n: nat)
    ensures Power(n) == 1 <==> n % ORDER == 0
  {
    hide ShiftBy, Power;
    OrderIsLeast();
    if Power(n) == 1 {
      LeastDivides(ORDER, n);
    }
    if n % ORDER == 0 {
      PowerMultiple(ORDER, n / ORDER);
    }
  }

  /** Two powers of x coincide exactly when their exponents differ by a multiple of 32767. */
  lemma PowersEqualIff(m: nat, n: nat)
    requires m <= n
    ensures Power(m) == Power(n) <==> (n - m) % ORDER == 0
  {
    PowerIsOneIff(n - m);
    ShiftByCompose(1, n - m, m);
    if Power(m) == Power(n) {
      ShiftByInjective(1, Power(n - m), m);
    }
  }
}
