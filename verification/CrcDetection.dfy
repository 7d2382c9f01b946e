/**
 Which transmission errors crc16_check catches.

 Distances count differing bits of the transmitted packets, payload and check bytes
 alike.  Because accepted packets are the multiples of the generator (CrcDivision),
 the question whether an altered packet is still accepted depends on the difference
 alone: its remainder must be zero.
 */
module CrcDetection {
  import opened Crc
  import opened CrcDivision
  import opened CrcOrder
  import opened Limits

  /** The number of bits set. */
  function Weight(bits: seq<bool>): nat {
    if bits == [] then 0 else Weight(bits[..|bits| - 1]) + if bits[|bits| - 1] then 1 else 0
  }

  /** In how many bits two packets of equal length differ. */
  function Distance(p: seq<bv8>, q: seq<bv8>): nat
    requires |p| == |q|
  {
    Weight(Diff(BitsOf(p), BitsOf(q)))
  }

  // ---------- Errors are judged by their difference ----------

  /** An altered copy of an accepted packet is accepted exactly when the difference has remainder zero. */
  lemma AlteredAcceptedIff(p: seq<bv8>, q: seq<bv8>)
    requires |p| == |q| >= 2 && Accepted(p)
    ensures Accepted(q) <==> Value(Diff(Codeword(p), Codeword(q))) == 0
  {
    hide Xor, Value, Codeword, Accepted;
    AcceptedIffNoRemainder(p);
    AcceptedIffNoRemainder(q);
    var mask := Ones(16) + Zeros(8 * |p| - 16);
    ValueAdditive(Codeword(p), mask);
    ValueAdditive(Codeword(q), mask);
    ValueAdditive(Codeword(p), Codeword(q));
    XorLaws(Value(Codeword(p)), Value(mask), 0);
    XorLaws(Value(Codeword(q)), Value(mask), 0);
    XorLaws(Value(Codeword(p)), Value(Codeword(q)), 0);
  }

  // ---------- Distance does not see the order of the check bytes ----------

  lemma {:induction false} WeightAppend(a: seq<bool>, b: seq<bool>)
    ensures Weight(a + b) == Weight(a) + Weight(b)
    decreases |b|
  {
    if b == [] {
      assert a + b == a;
    } else {
      var n := |b| - 1;
      assert (a + b)[..|a| + n] == a + b[..n];
      WeightAppend(a, b[..n]);
    }
  }

  lemma WeightDiffAppend(a: seq<bool>, b: seq<bool>, c: seq<bool>, d: seq<bool>)
    requires |a| == |c| && |b| == |d|
    ensures Weight(Diff(a + b, c + d)) == Weight(Diff(a, c)) + Weight(Diff(b, d))
  {
    hide Weight;
    assert Diff(a + b, c + d) == Diff(a, c) + Diff(b, d);
    WeightAppend(Diff(a, c), Diff(b, d));
  }

  lemma BitsOfSnoc(bytes: seq<bv8>, b: bv8)
    ensures BitsOf(bytes + [b]) == BitsOf(bytes) + ByteBits(b)
  {
    hide ByteBits;
    assert (bytes + [b])[..|bytes|] == bytes;
  }

  lemma DistanceOfCodewords(p: seq<bv8>, q: seq<bv8>)
    requires |p| == |q| >= 2
    ensures Distance(p, q) == Weight(Diff(Codeword(p), Codeword(q)))
  {
    hide Weight, ByteBits, BitsOf;
    var n := |p| - 2;
    assert p == p[..n] + [p[n]] + [p[n + 1]] && q == q[..n] + [q[n]] + [q[n + 1]];
    BitsOfSnoc(p[..n] + [p[n]], p[n + 1]);
    BitsOfSnoc(q[..n] + [q[n]], q[n + 1]);
    BitsOfSnoc(p[..n], p[n]);
    BitsOfSnoc(q[..n], q[n]);
    var a, b, c := BitsOf(p[..n]), ByteBits(p[n]), ByteBits(p[n + 1]);
    var d, e, f := BitsOf(q[..n]), ByteBits(q[n]), ByteBits(q[n + 1]);
    WeightDiffAppend(a + b, c, d + e, f);
    WeightDiffAppend(a, b, d, e);
    WeightDiffAppend(a, c + b, d, f + e);
    WeightDiffAppend(c, b, f, e);
  }

  // ---------- An odd number of flipped bits ----------

  function FoldEight(w: bv16): bv16 {
    w ^ (w >> 8)
  }

  function FoldFour(w: bv16): bv16 {
    w ^ (w >> 4)
  }

  function FoldTwo(w: bv16): bv16 {
    w ^ (w >> 2)
  }

  function FoldOne(w: bv16): bv16 {
    w ^ (w >> 1)
  }

  /** 1 when an odd number of the word's bits are set. */
  function Parity(w: bv16): bv16 {
    FoldOne(FoldTwo(FoldFour(FoldEight(w)))) & 1
  }

  lemma ParityXorOne(w: bv16)
    ensures Parity(w ^ 1) == Parity(w) ^ 1
  {
  }

  lemma ParityOfSum(w: bv16, bit: bool)
    ensures Parity(Xor(w, Unit(bit))) == Xor(Parity(w), Unit(bit))
  {
    hide Parity;
    if bit {
      ParityXorOne(w);
    } else {
      XorLaws(w, 0, 0);
      XorLaws(Parity(w), 0, 0);
    }
  }

  /** The generator has an even number of terms, so reduction keeps parity. */
  lemma ParityOfShift(w: bv16)
    ensures Parity(Shift(w)) == Parity(w)
  {
  }

  lemma ParityOfZero()
    ensures Parity(0) == 0
  {
  }

  /** The remainder of a polynomial has the parity of its number of terms. */
  lemma {:induction false} ParityOfValue(bits: seq<bool>)
    ensures Parity(Value(bits)) == Unit(Weight(bits) % 2 == 1)
    decreases |bits|
  {
    hide Shift, Xor, Unit, Parity;
    if bits == [] {
      ParityOfZero();
      UnitFalse();
    } else {
      var front, bit := bits[..|bits| - 1], bits[|bits| - 1];
      ParityOfValue(front);
      ParityOfSum(Shift(Value(front)), bit);
      ParityOfShift(Value(front));
      UnitAdditive(Weight(front) % 2 == 1, bit);
      assert (Weight(bits) % 2 == 1) == ((Weight(front) % 2 == 1) != bit);
    }
  }

  lemma UnitTrue()
    ensures Unit(true) == 1
  {
  }

  /** Changing an odd number of bits of an accepted packet, of any length, makes it rejected. */
  lemma OddDistanceRejected(p: seq<bv8>, q: seq<bv8>)
    requires |p| == |q| && Accepted(p) && Distance(p, q) % 2 == 1
    ensures !Accepted(q)
  {
    hide Distance, Value, Weight, Codeword, Parity, Unit;
    DistanceOfCodewords(p, q);
    AlteredAcceptedIff(p, q);
    var d := Diff(Codeword(p), Codeword(q));
    ParityOfValue(d);
    UnitTrue();
    ParityOfZero();
  }

  // ---------- Two flipped bits ----------

  /** The polynomial with one term, at position i of n. */
  function Single(i: nat, n: nat): (bits: seq<bool>)
    requires i < n
    ensures |bits| == n
  {
    seq(n, j => j == i)
  }

  lemma ValueOfSingle(i: nat, n: nat)
    requires i < n
    ensures Value(Single(i, n)) == Power(n - 1 - i)
  {
    hide Shift, Xor, Unit, Value, ShiftBy;
    assert Single(i, n) == (Zeros(i) + [true]) + Zeros(n - 1 - i);
    ValueAppend(Zeros(i) + [true], Zeros(n - 1 - i));
    ValueZeros(n - 1 - i);
    ValueSnoc(Zeros(i), true);
    ValueZeros(i);
    ShiftZero();
    UnitTrue();
    XorLaws(1, 0, 0);
    XorLaws(Power(n - 1 - i), 0, 0);
  }

  lemma {:induction false} WeightZeroIff(bits: seq<bool>)
    ensures Weight(bits) == 0 <==> bits == Zeros(|bits|)
    decreases |bits|
  {
    if bits != [] {
      var n := |bits| - 1;
      WeightZeroIff(bits[..n]);
      if bits == Zeros(|bits|) {
        assert bits[..n] == Zeros(n);
      }
      if Weight(bits) == 0 {
        assert bits == bits[..n] + [bits[n]];
        forall j | 0 <= j <= n ensures !bits[j] {
          assert j < n ==> bits[j] == bits[..n][j] == Zeros(n)[j];
        }
      }
    }
  }

  lemma {:induction false} OneBit(bits: seq<bool>) returns (i: nat)
    requires Weight(bits) == 1
    ensures i < |bits| && bits == Single(i, |bits|)
    decreases |bits|
  {
    var n := |bits| - 1;
    assert bits == bits[..n] + [bits[n]];
    if bits[n] {
      WeightZeroIff(bits[..n]);
      i := n;
    } else {
      i := OneBit(bits[..n]);
    }
  }

  lemma {:induction false} TwoBits(bits: seq<bool>) returns (i: nat, j: nat)
    requires Weight(bits) == 2
    ensures i < j < |bits| && bits == Diff(Single(i, |bits|), Single(j, |bits|))
    decreases |bits|
  {
    var n := |bits| - 1;
    assert bits == bits[..n] + [bits[n]];
    if bits[n] {
      i := OneBit(bits[..n]);
      j := n;
    } else {
      i, j := TwoBits(bits[..n]);
    }
  }

  /** Exactly when two flips go unnoticed: their places in the codeword differ by a multiple of 32767. */
  lemma TwoFlipsAcceptedIff(p: seq<bv8>, q: seq<bv8>, i: nat, j: nat)
    requires |p| == |q| >= 2 && Accepted(p)
    requires i < j < 8 * |p|
    requires Diff(Codeword(p), Codeword(q)) == Diff(Single(i, 8 * |p|), Single(j, 8 * |p|))
    ensures Accepted(q) <==> (j - i) % ORDER == 0
  {
    hide Xor, Value, Codeword, Accepted, Power, Single;
    var n := 8 * |p|;
    AlteredAcceptedIff(p, q);
    ValueAdditive(Single(i, n), Single(j, n));
    ValueOfSingle(i, n);
    ValueOfSingle(j, n);
    XorLaws(Power(n - 1 - i), Power(n - 1 - j), 0);
    PowersEqualIff(n - 1 - j, n - 1 - i);
  }

  /** Two accepted packets of at most 32767 bits are equal or differ in at least four bits. */
  lemma MinimumDistance(p: seq<bv8>, q: seq<bv8>)
    requires |p| == |q| && 8 * |p| <= ORDER
    requires Accepted(p) && Accepted(q) && p != q
    ensures Distance(p, q) >= 4
  {
    hide Weight, Value, Codeword, Accepted, Single;
    assert |p| >= 2 by { AcceptedLength(p); }
    DistanceOfCodewords(p, q);
    var d := Diff(Codeword(p), Codeword(q));
    if Distance(p, q) % 2 == 1 {
      OddDistanceRejected(p, q);
    } else if Distance(p, q) == 0 {
      WeightZeroIff(d);
      SameCodeword(p, q);
    } else if Distance(p, q) == 2 {
      var i, j := TwoBits(d);
      TwoFlipsAcceptedIff(p, q, i, j);
    }
  }

  lemma AcceptedLength(p: seq<bv8>)
    requires Accepted(p)
    ensures |p| >= 2
  {
    hide CrcOf, Word;
  }

  lemma SameByte(a: bv8, b: bv8)
    requires ByteBits(a) == ByteBits(b)
    ensures a == b
  {
  }

  lemma {:induction false} SameBits(p: seq<bv8>, q: seq<bv8>)
    requires |p| == |q| && BitsOf(p) == BitsOf(q)
    ensures p == q
    decreases |p|
  {
    hide ByteBits;
    if p != [] {
      var n := |p| - 1;
      assert p == p[..n] + [p[n]] && q == q[..n] + [q[n]];
      BitsOfSnoc(p[..n], p[n]);
      BitsOfSnoc(q[..n], q[n]);
      assert BitsOf(p)[..8 * n] == BitsOf(p[..n]) && BitsOf(p)[8 * n..] == ByteBits(p[n]);
      assert BitsOf(q)[..8 * n] == BitsOf(q[..n]) && BitsOf(q)[8 * n..] == ByteBits(q[n]);
      SameBits(p[..n], q[..n]);
      SameByte(p[n], q[n]);
    }
  }

  lemma SameCodeword(p: seq<bv8>, q: seq<bv8>)
    requires |p| == |q| >= 2
    requires Diff(Codeword(p), Codeword(q)) == Zeros(8 * |p|)
    ensures p == q
  {
    hide ByteBits, BitsOf;
    var n := |p| - 2;
    var c, d := Codeword(p), Codeword(q);
    forall i | 0 <= i < 8 * |p| ensures c[i] == d[i] {
      assert !Diff(c, d)[i];
    }
    assert c == d;
    assert c[..8 * n] == BitsOf(p[..n]) && d[..8 * n] == BitsOf(q[..n]);
    assert c[8 * n..8 * n + 8] == ByteBits(p[n + 1]) && d[8 * n..8 * n + 8] == ByteBits(q[n + 1]);
    assert c[8 * n + 8..] == ByteBits(p[n]) && d[8 * n + 8..] == ByteBits(q[n]);
    SameBits(p[..n], q[..n]);
    SameByte(p[n], q[n]);
    SameByte(p[n + 1], q[n + 1]);
    assert p == p[..n] + [p[n], p[n + 1]] && q == q[..n] + [q[n], q[n + 1]];
  }

  /** Every packet the radio can carry is within that length: one to three flipped bits are always caught. */
  lemma RadioPacketsAreFourApart(p: seq<bv8>, q: seq<bv8>)
    requires |p| == |q| <= RADIO_MTU + CRC16_LEN
    requires Accepted(p) && 1 <= Distance(p, q) <= 3
    ensures !Accepted(q)
  {
    hide Weight, Accepted, BitsOf;
    if Accepted(q) {
      if p == q {
        assert Diff(BitsOf(p), BitsOf(p)) == Zeros(8 * |p|);
        WeightZeroIff(Zeros(8 * |p|));
        assert false;
      } else {
        MinimumDistance(p, q);
      }
    }
  }

  // ---------- Four is exact ----------

  /** The packet with the generator's four terms added at its end. */
  function Disguised(p: seq<bv8>): (q: seq<bv8>)
    requires |p| >= 3
    ensures |q| == |p|
  {
    var m := |p| - 3;
    p[..m] + [p[m] ^ 0x01, p[m + 1] ^ 0x21, p[m + 2] ^ 0x10]
  }

  lemma MaskedBits(b: bv8, mask: bv8)
    ensures ((b ^ mask) & 0x80 != 0) <==> ((b & 0x80 != 0) != (mask & 0x80 != 0))
    ensures ((b ^ mask) & 0x40 != 0) <==> ((b & 0x40 != 0) != (mask & 0x40 != 0))
    ensures ((b ^ mask) & 0x20 != 0) <==> ((b & 0x20 != 0) != (mask & 0x20 != 0))
    ensures ((b ^ mask) & 0x10 != 0) <==> ((b & 0x10 != 0) != (mask & 0x10 != 0))
    ensures ((b ^ mask) & 0x08 != 0) <==> ((b & 0x08 != 0) != (mask & 0x08 != 0))
    ensures ((b ^ mask) & 0x04 != 0) <==> ((b & 0x04 != 0) != (mask & 0x04 != 0))
    ensures ((b ^ mask) & 0x02 != 0) <==> ((b & 0x02 != 0) != (mask & 0x02 != 0))
    ensures ((b ^ mask) & 0x01 != 0) <==> ((b & 0x01 != 0) != (mask & 0x01 != 0))
  {
  }

  lemma MaskedBitOf(b: bv8, mask: bv8, place: bv8)
    requires place == 0x80
             || place == 0x40
             || place == 0x20
             || place == 0x10
             || place == 0x08
             || place == 0x04
             || place == 0x02
             || place == 0x01
    ensures BitOf(b ^ mask, place) == (BitOf(b, place) != BitOf(mask, place))
  {
    MaskedBits(b, mask);
  }

  function Place(i: nat): bv8
    requires i < 8
  {
    [0x80, 0x40, 0x20, 0x10, 0x08, 0x04, 0x02, 0x01][i]
  }

  lemma ByteBitsAt(b: bv8, i: nat)
    requires i < 8
    ensures ByteBits(b)[i] == BitOf(b, Place(i))
  {
    hide BitOf;
  }

  lemma ByteDiff(b: bv8, mask: bv8)
    ensures Diff(ByteBits(b), ByteBits(b ^ mask)) == ByteBits(mask)
  {
    hide ByteBits;
    var d := Diff(ByteBits(b), ByteBits(b ^ mask));
    forall i | 0 <= i < 8 ensures d[i] == ByteBits(mask)[i] {
      MaskedPlace(b, mask, i);
    }
  }

  lemma MaskedPlace(b: bv8, mask: bv8, i: nat)
    requires i < 8
    ensures (ByteBits(b)[i] != ByteBits(b ^ mask)[i]) == ByteBits(mask)[i]
  {
    hide ByteBits, BitOf;
    ByteBitsAt(b, i);
    ByteBitsAt(b ^ mask, i);
    ByteBitsAt(mask, i);
    MaskedBitOf(b, mask, Place(i));
  }

  lemma GeneratorInBytes()
    ensures ByteBits(0x01) + (ByteBits(0x10) + ByteBits(0x21)) == Zeros(7) + Generator()
  {
  }

  lemma DisguisedDifference(p: seq<bv8>)
    requires |p| >= 3
    ensures Diff(Codeword(p), Codeword(Disguised(p))) == Zeros(8 * |p| - 17) + Generator()
  {
    hide ByteBits, Generator, Codeword;
    var m := |p| - 3;
    ByteDiff(p[m], 0x01);
    ByteDiff(p[m + 1], 0x21);
    ByteDiff(p[m + 2], 0x10);
    LastThreeDiffer(p[..m], p[m], p[m + 1], p[m + 2], p[m] ^ 0x01, p[m + 1] ^ 0x21, p[m + 2] ^ 0x10);
    assert p == p[..m] + [p[m], p[m + 1], p[m + 2]];
  }

  lemma LastThreeDiffer(front: seq<bv8>, a: bv8, b: bv8, c: bv8, d: bv8, e: bv8, f: bv8)
    requires Diff(ByteBits(a), ByteBits(d)) == ByteBits(0x01)
    requires Diff(ByteBits(b), ByteBits(e)) == ByteBits(0x21)
    requires Diff(ByteBits(c), ByteBits(f)) == ByteBits(0x10)
    ensures Diff(Codeword(front + [a, b, c]), Codeword(front + [d, e, f])) == Zeros(8 * |front| + 7) + Generator()
  {
    hide ByteBits, BitsOf, Generator, Codeword;
    CodewordOfLastThree(front, a, b, c);
    CodewordOfLastThree(front, d, e, f);
    GeneratorInBytes();
    DiffOfFour(BitsOf(front), ByteBits(a), ByteBits(c), ByteBits(b), ByteBits(d), ByteBits(f), ByteBits(e));
    assert Zeros(8 * |front|) + (Zeros(7) + Generator()) == Zeros(8 * |front| + 7) + Generator();
  }

  lemma CodewordOfLastThree(front: seq<bv8>, a: bv8, b: bv8, c: bv8)
    ensures Codeword(front + [a, b, c]) == (BitsOf(front) + ByteBits(a)) + (ByteBits(c) + ByteBits(b))
  {
    hide ByteBits, BitsOf;
    assert (front + [a, b, c])[..|front| + 1] == front + [a];
    BitsOfSnoc(front, a);
  }

  lemma DiffOfFour(s: seq<bool>, a: seq<bool>, b: seq<bool>, c: seq<bool>, d: seq<bool>, e: seq<bool>, f: seq<bool>)
    requires |a| == |d| && |b| == |e| && |c| == |f|
    ensures Diff((s + a) + (b + c), (s + d) + (e + f)) == Zeros(|s|) + (Diff(a, d) + (Diff(b, e) + Diff(c, f)))
  {
  }

  lemma WeightOfGenerator()
    ensures Weight(Generator()) == 4
  {
    hide Weight;
    assert Generator() == Single(0, 1) + Single(3, 4) + Single(6, 7) + Single(4, 5);
    WeightOfSingle(0, 1);
    WeightOfSingle(3, 4);
    WeightOfSingle(6, 7);
    WeightOfSingle(4, 5);
    WeightAppend(Single(0, 1), Single(3, 4));
    WeightAppend(Single(0, 1) + Single(3, 4), Single(6, 7));
    WeightAppend(Single(0, 1) + Single(3, 4) + Single(6, 7), Single(4, 5));
  }

  lemma WeightOfSingle(i: nat, n: nat)
    requires n == i + 1
    ensures Weight(Single(i, n)) == 1
  {
    assert Single(i, n)[..i] == Zeros(i);
    WeightZeroIff(Zeros(i));
  }

  /** Every accepted packet with a payload has another accepted packet at distance exactly four. */
  lemma DistanceFourOccurs(p: seq<bv8>)
    requires |p| >= 3 && Accepted(p)
    ensures Accepted(Disguised(p)) && Distance(p, Disguised(p)) == 4
  {
    hide Value, Codeword, Accepted, Weight, Generator, Disguised, Distance, Shift, Xor;
    var q, n := Disguised(p), 8 * |p| - 17;
    DisguisedDifference(p);
    AlteredAcceptedIff(p, q);
    ValueAppend(Zeros(n), Generator());
    ValueZeros(n);
    ValueOfGenerator();
    ShiftByZero(17);
    XorLaws(0, 0, 0);
    DistanceOfCodewords(p, q);
    WeightAppend(Zeros(n), Generator());
    WeightZeroIff(Zeros(n));
    WeightOfGenerator();
  }

  // ---------- Bursts ----------

  /** A burst of at most sixteen coefficients, not all zero, is never a multiple of the generator. */
  lemma BurstHasRemainder(i: nat, burst: seq<bool>, k: nat)
    requires |burst| <= 16 && true in burst
    ensures Value(Zeros(i) + burst + Zeros(k)) != 0
  {
    hide Shift, Xor, Unit, Value, ShiftBy, WordBits;
    ValueAppend(Zeros(i) + burst, Zeros(k));
    ValueAppend(Zeros(i), burst);
    ValueZeros(i);
    ValueZeros(k);
    ShiftByZero(|burst|);
    var v := Value(burst);
    XorLaws(v, 0, 0);
    XorLaws(ShiftBy(v, k), 0, 0);
    var padded := Zeros(16 - |burst|) + burst;
    ValueAppend(Zeros(16 - |burst|), burst);
    ValueZeros(16 - |burst|);
    ShortIsItsRemainder(padded);
    WordBitsZero();
    var j :| 0 <= j < |burst| && burst[j];
    assert padded[16 - |burst| + j];
    ShiftByZero(k);
    if ShiftBy(v, k) == 0 {
      ShiftByInjective(v, 0, k);
      assert false;
    }
  }

  /** Altered payload bits that span at most sixteen places, first bit of a byte first, are always caught. */
  lemma PayloadBurstRejected(p: seq<bv8>, q: seq<bv8>, i: nat)
    requires |p| == |q| >= 2 && Accepted(p) && p != q
    requires p[|p| - 2..] == q[|p| - 2..]
    requires forall j :: 0 <= j < 8 * |p| && !(i <= j < i + 16) ==> BitsOf(p)[j] == BitsOf(q)[j]
    ensures !Accepted(q)
  {
    hide ByteBits, BitsOf, Accepted, Value, Codeword;
    var n := |p| - 2;
    BitsOfPrefix(p, n);
    BitsOfPrefix(q, n);
    PayloadDifference(p, q);
    var a, b := BitsOf(p[..n]), BitsOf(q[..n]);
    assert p == p[..n] + p[n..] && q == q[..n] + q[n..];
    if a == b {
      SameBits(p[..n], q[..n]);
      assert false;
    }
    forall j | 0 <= j < 8 * n && !(i <= j < i + 16) ensures a[j] == b[j] {
      assert a[j] == BitsOf(p)[j] && b[j] == BitsOf(q)[j];
    }
    LocalDifferenceHasRemainder(a, b, i);
    AlteredAcceptedIff(p, q);
  }

  lemma LocalDifferenceHasRemainder(a: seq<bool>, b: seq<bool>, i: nat)
    requires |a| == |b| && a != b
    requires forall j :: 0 <= j < |a| && !(i <= j < i + 16) ==> a[j] == b[j]
    ensures Value(Diff(a, b) + Zeros(16)) != 0
  {
    hide Value;
    var j :| 0 <= j < |a| && a[j] != b[j];
    var end := if i + 16 <= |a| then i + 16 else |a|;
    var burst := Diff(a, b)[i..end];
    assert burst[j - i];
    BurstWithin(a, b, i, end);
    BurstHasRemainder(i, burst, |a| + 16 - end);
  }

  lemma PayloadDifference(p: seq<bv8>, q: seq<bv8>)
    requires |p| == |q| >= 2
    requires p[|p| - 2..] == q[|p| - 2..]
    ensures var n := |p| - 2;
            Diff(Codeword(p), Codeword(q)) == Diff(BitsOf(p[..n]), BitsOf(q[..n])) + Zeros(16)
  {
    hide ByteBits, BitsOf;
    var n := |p| - 2;
    assert p[n] == p[n..][0] == q[n] && p[n + 1] == p[n..][1] == q[n + 1];
  }

  lemma BurstWithin(a: seq<bool>, b: seq<bool>, i: nat, end: nat)
    requires |a| == |b| && i <= end <= |a|
    requires forall j :: 0 <= j < |a| && !(i <= j < end) ==> a[j] == b[j]
    ensures Diff(a, b) + Zeros(16) == Zeros(i) + Diff(a, b)[i..end] + Zeros(|a| + 16 - end)
  {
  }

  lemma {:induction false} BitsOfPrefix(bytes: seq<bv8>, n: nat)
    requires n <= |bytes|
    ensures BitsOf(bytes)[..8 * n] == BitsOf(bytes[..n])
    decreases |bytes|
  {
    hide ByteBits;
    if n == |bytes| {
      assert bytes[..n] == bytes;
    } else {
      var m := |bytes| - 1;
      BitsOfPrefix(bytes[..m], n);
      assert bytes[..m][..n] == bytes[..n];
      assert BitsOf(bytes)[..8 * n] == BitsOf(bytes[..m])[..8 * n];
    }
  }
}
