/**
 What the CRC means: polynomial division over GF(2).

 A sequence of bits is a polynomial, highest power first.  Times is multiplication by
 the generator, done the school way on coefficients; Value is the remainder of a
 polynomial, computed bit by bit.  The main results are that Value is the remainder of
 division by the generator, and that a packet is accepted exactly when, with its first
 sixteen bits inverted and its two check bytes exchanged, it is a multiple of the
 generator.
 */
module CrcDivision {
  import opened Crc

  // ---------- Polynomials as bits ----------

  function Zeros(n: nat): (bits: seq<bool>)
    ensures |bits| == n
  {
    seq(n, _ => false)
  }

  /** The sum of two polynomials of equal length: where they differ. */
  function Diff(a: seq<bool>, b: seq<bool>): (d: seq<bool>)
    requires |a| == |b|
    ensures |d| == |a|
    ensures forall i :: 0 <= i < |a| ==> d[i] == (a[i] != b[i])
  {
    seq(|a|, i requires 0 <= i < |a| => a[i] != b[i])
  }

  function Unit(bit: bool): bv16 {
    if bit then 1 else 0
  }

  /** The remainder of a polynomial, one coefficient at a time. */
  function Value(bits: seq<bool>): bv16 {
    if bits == [] then 0 else Xor(Shift(Value(bits[..|bits| - 1])), Unit(bits[|bits| - 1]))
  }

  /** x^16 + x^12 + x^5 + 1. */
  function Generator(): (bits: seq<bool>)
    ensures |bits| == 17
  {
    [true, false, false, false, true, false, false, false, false, false, false, true, false, false, false, false, true]
  }

  /** The product of q and the generator: sixteen more coefficients than q. */
  function Times(q: seq<bool>): (p: seq<bool>)
    ensures |p| == |q| + 16
  {
    if q == [] then Zeros(16) else TimesStep(Times(q[..|q| - 1]), q[|q| - 1])
  }

  /** One more coefficient of the multiplier: move the product up and add the generator or nothing. */
  function TimesStep(t: seq<bool>, bit: bool): (p: seq<bool>)
    requires |t| >= 16
    ensures |p| == |t| + 1
  {
    Diff(t + [false], Zeros(|t| - 16) + if bit then Generator() else Zeros(17))
  }

  function WordBits(w: bv16): (bits: seq<bool>)
    ensures |bits| == 16
  {
    ByteBits(HighByte(w)) + ByteBits(LowByte(w))
  }

  // ---------- Value respects sum and concatenation ----------

  lemma ValueOfOne(bit: bool)
    ensures Value([bit]) == Unit(bit)
  {
    ShiftZero();
    XorLaws(Unit(bit), 0, 0);
    hide Shift, Xor, Unit;
    assert [bit][..0] == [];
  }

  lemma ValueSnoc(front: seq<bool>, bit: bool)
    ensures Value(front + [bit]) == Xor(Shift(Value(front)), Unit(bit))
  {
    hide Shift, Xor, Unit;
    assert (front + [bit])[..|front|] == front;
  }

  lemma UnitAdditive(a: bool, b: bool)
    ensures Unit(a != b) == Xor(Unit(a), Unit(b))
  {
  }

  lemma XorExchange(a: bv16, b: bv16, c: bv16, d: bv16)
    ensures Xor(Xor(a, b), Xor(c, d)) == Xor(Xor(a, c), Xor(b, d))
  {
    hide Xor;
    XorLaws(a, b, Xor(c, d));
    XorLaws(b, c, d);
    XorLaws(c, b, d);
    XorLaws(a, c, Xor(b, d));
  }

  lemma {:induction false} ValueAdditive(a: seq<bool>, b: seq<bool>)
    requires |a| == |b|
    ensures Value(Diff(a, b)) == Xor(Value(a), Value(b))
    decreases |a|
  {
    hide Shift, Xor, Unit;
    if a == [] {
      XorLaws(0, 0, 0);
    } else {
      var n := |a| - 1;
      assert Diff(a, b)[..n] == Diff(a[..n], b[..n]);
      ValueAdditive(a[..n], b[..n]);
      ShiftAdditive(Value(a[..n]), Value(b[..n]));
      UnitAdditive(a[n], b[n]);
      XorExchange(Shift(Value(a[..n])), Shift(Value(b[..n])), Unit(a[n]), Unit(b[n]));
    }
  }

  lemma ShiftByLast(r: bv16, n: nat)
    ensures ShiftBy(r, n + 1) == Shift(ShiftBy(r, n))
  {
    hide Shift;
    ShiftByCompose(r, n, 1);
    assert ShiftBy(ShiftBy(r, n), 1) == ShiftBy(Shift(ShiftBy(r, n)), 0);
  }

  lemma {:induction false} ValueAppend(a: seq<bool>, b: seq<bool>)
    ensures Value(a + b) == Xor(ShiftBy(Value(a), |b|), Value(b))
    decreases |b|
  {
    hide Shift, Xor, Unit;
    if b == [] {
      assert a + b == a;
      XorLaws(Value(a), 0, 0);
    } else {
      var n := |b| - 1;
      assert a + b == (a + b[..n]) + [b[n]];
      assert b == b[..n] + [b[n]];
      ValueSnoc(a + b[..n], b[n]);
      ValueSnoc(b[..n], b[n]);
      ValueAppend(a, b[..n]);
      ShiftAdditive(ShiftBy(Value(a), n), Value(b[..n]));
      ShiftByLast(Value(a), n);
      XorLaws(ShiftBy(Value(a), n + 1), Shift(Value(b[..n])), Unit(b[n]));
    }
  }

  lemma {:induction false} ValueZeros(n: nat)
    ensures Value(Zeros(n)) == 0
  {
    hide Shift, Xor, Unit;
    if n > 0 {
      assert Zeros(n)[..n - 1] == Zeros(n - 1);
      ValueZeros(n - 1);
      ShiftZero();
      assert Unit(false) == 0 by { UnitFalse(); }
      XorLaws(0, 0, 0);
    }
  }

  lemma UnitFalse()
    ensures Unit(false) == 0
  {
  }

  // ---------- Value and the bit-serial register ----------

  lemma TopBitIsUnitBySixteen(bit: bool)
    ensures Shift(TopBit(bit)) == ShiftBy(Unit(bit), 16)
  {
    if bit {
      assert Shift(0x8000) == 0x1021;
      UnitBySixteen();
    } else {
      assert Shift(0) == 0;
      ShiftByZero(16);
    }
  }

  lemma UnitBySixteen()
    ensures ShiftBy(1, 16) == 0x1021
  {
    assert ShiftBy(1, 16) == ShiftBy(0x100, 8) by {
      ShiftByCompose(1, 8, 8);
      LowByteByEight(1);
    }
    assert ShiftBy(0x100, 8) == 0x1021 by {
      TableEntry(1);
    }
  }

  /** The register after any bits: the preset moves up, the message comes in times x^16. */
  lemma {:induction false} RegisterIsValue(r: bv16, bits: seq<bool>)
    ensures FeedAll(r, bits) == Xor(ShiftBy(r, |bits|), ShiftBy(Value(bits), 16))
    decreases |bits|
  {
    hide Shift, Xor, Unit, TopBit;
    if bits == [] {
      ShiftByZero(16);
      XorLaws(r, 0, 0);
    } else {
      var n := |bits| - 1;
      var front, last := bits[..n], bits[n];
      var a, b := ShiftBy(r, n), ShiftBy(Value(front), 16);
      assert bits == front + [last];
      FeedAllAppend(r, front, [last]);
      FeedOne(FeedAll(r, front), last);
      RegisterIsValue(r, front);
      ShiftAdditive(Xor(a, b), TopBit(last));
      ShiftAdditive(a, b);
      TopBitIsUnitBySixteen(last);
      ShiftByLast(r, n);
      ShiftByLast(Value(front), 16);
      ShiftByAdditive(Shift(Value(front)), Unit(last), 16);
      XorLaws(Shift(a), Shift(b), Shift(TopBit(last)));
    }
  }

  lemma FeedOne(r: bv16, bit: bool)
    ensures FeedAll(r, [bit]) == Shift(Xor(r, TopBit(bit)))
  {
    hide Shift, Xor, TopBit;
    assert FeedAll(Feed(r, bit), [bit][1..]) == Feed(r, bit);
  }

  lemma ByteAsWord(b: bv8)
    ensures (b as bv16) & 0xFF == b as bv16
    ensures AtTop(b) == (b as bv16) << 8
  {
  }

  lemma ValueOfByte(b: bv8)
    ensures Value(ByteBits(b)) == b as bv16
  {
    hide Shift, Xor, ByteBits, AtTop;
    var w := b as bv16;
    FeedByte(0, b);
    XorLaws(AtTop(b), 0, 0);
    RegisterIsValue(0, ByteBits(b));
    ShiftByZero(8);
    XorLaws(ShiftBy(Value(ByteBits(b)), 16), 0, 0);
    LowByteByEight(w);
    ByteAsWord(b);
    ShiftByCompose(w, 8, 8);
    ShiftByInjective(Value(ByteBits(b)), w, 16);
  }

  lemma WordIsXor(low: bv8, high: bv8)
    ensures Word(low, high) == Xor((high as bv16) << 8, low as bv16)
  {
  }

  lemma ValueOfTwoBytes(high: bv8, low: bv8)
    ensures Value(ByteBits(high) + ByteBits(low)) == Word(low, high)
  {
    hide Shift, Xor, ByteBits, AtTop, Word;
    ValueAppend(ByteBits(high), ByteBits(low));
    ValueOfByte(high);
    ValueOfByte(low);
    ByteAsWord(high);
    LowByteByEight(high as bv16);
    WordIsXor(low, high);
  }

  lemma ValueOfWord(w: bv16)
    ensures Value(WordBits(w)) == w
  {
    hide Shift, Xor, Word, HighByte, LowByte, ByteBits;
    ValueOfTwoBytes(HighByte(w), LowByte(w));
    WordOfBytes(w);
  }

  // ---------- Value is the remainder ----------

  lemma ValueOfGenerator()
    ensures Value(Generator()) == 0
  {
    assert ByteBits(0x88) == Generator()[..8] && ByteBits(0x10) == Generator()[8..16];
    assert Generator() == (Generator()[..8] + Generator()[8..16]) + [true];
    ValueOfTwoBytes(0x88, 0x10);
    assert Word(0x10, 0x88) == 0x8810;
    ValueSnoc(Generator()[..8] + Generator()[8..16], true);
    assert Shift(0x8810) == 1;
  }

  lemma {:induction false} ValueOfMultiple(q: seq<bool>)
    ensures Value(Times(q)) == 0
    decreases |q|
  {
    hide Shift, Xor, Unit, Generator;
    ValueZeros(16);
    if q != [] {
      var n := |q| - 1;
      var tail := if q[n] then Generator() else Zeros(17);
      ValueOfMultiple(q[..n]);
      ValueZeros(17);
      ValueOfGenerator();
      ValueAppend(Zeros(n), tail);
      ValueZeros(n);
      ShiftByZero(17);
      ValueSnoc(Times(q[..n]), false);
      ShiftZero();
      UnitFalse();
      XorLaws(0, 0, 0);
      ValueAdditive(Times(q[..n]) + [false], Zeros(n) + tail);
    }
  }

  function BitIn(bit: bool, mask: bv8): bv8 {
    if bit then mask else 0
  }

  function ByteOf(bits: seq<bool>): bv8
    requires |bits| == 8
  {
    BitIn(bits[0], 0x80) | BitIn(bits[1], 0x40) | BitIn(bits[2], 0x20) | BitIn(bits[3], 0x10)
    | BitIn(bits[4], 0x08) | BitIn(bits[5], 0x04) | BitIn(bits[6], 0x02) | BitIn(bits[7], 0x01)
  }

  lemma ByteBitsOfByte(bits: seq<bool>)
    requires |bits| == 8
    ensures ByteBits(ByteOf(bits)) == bits
  {
  }

  /** Sixteen coefficients are below the generator's degree: they are their own remainder. */
  lemma ShortIsItsRemainder(bits: seq<bool>)
    requires |bits| == 16
    ensures WordBits(Value(bits)) == bits
  {
    hide Word, HighByte, LowByte, ByteBits, ByteOf;
    var high, low := ByteOf(bits[..8]), ByteOf(bits[8..]);
    ByteBitsOfByte(bits[..8]);
    ByteBitsOfByte(bits[8..]);
    assert bits == bits[..8] + bits[8..];
    ValueOfTwoBytes(high, low);
    BytesOfWord(low, high);
  }

  function Reduced(w: bv16, bit: bool): (bits: seq<bool>)
    ensures |bits| == 17
  {
    Diff(Diff(WordBits(w) + [false], Zeros(16) + [bit]), if WordBits(w)[0] then Generator() else Zeros(17))
  }

  lemma ReducedValue(w: bv16, bit: bool)
    ensures Value(Reduced(w, bit)) == Xor(Shift(w), Unit(bit))
  {
    hide Shift, Xor, Unit, WordBits, Generator, Value;
    ValueAdditive(WordBits(w) + [false], Zeros(16) + [bit]);
    ValueAdditive(Diff(WordBits(w) + [false], Zeros(16) + [bit]), if WordBits(w)[0] then Generator() else Zeros(17));
    ValueSnoc(WordBits(w), false);
    ValueSnoc(Zeros(16), bit);
    ValueOfWord(w);
    ValueZeros(16);
    ValueZeros(17);
    ValueOfGenerator();
    ShiftZero();
    UnitFalse();
    XorLaws(Shift(w), 0, 0);
    XorLaws(Unit(bit), 0, 0);
    XorLaws(Xor(Shift(w), Unit(bit)), 0, 0);
  }

  lemma ReducedTop(w: bv16, bit: bool)
    ensures !Reduced(w, bit)[0]
  {
    hide WordBits;
  }

  /** A word moved up by one coefficient loses its top bit to the quotient. */
  lemma DivideStep(w: bv16, bit: bool)
    ensures Reduced(w, bit) == [false] + WordBits(Xor(Shift(w), Unit(bit)))
  {
    hide Shift, Xor, Unit, WordBits, Reduced, Value, ShiftBy;
    var a := Reduced(w, bit);
    ReducedTop(w, bit);
    ReducedValue(w, bit);
    assert a == [false] + a[1..];
    ShortIsItsRemainder(a[1..]);
    ValueAppend([false], a[1..]);
    ValueOfOne(false);
    UnitFalse();
    ShiftByZero(16);
    XorLaws(Value(a[1..]), 0, 0);
  }

  lemma TimesSnoc(p: seq<bool>, bit: bool)
    ensures Times(p + [bit]) == TimesStep(Times(p), bit)
  {
    hide TimesStep;
    assert (p + [bit])[..|p|] == p;
  }

  lemma DivideShort(bits: seq<bool>)
    requires |bits| == 16
    ensures bits == Diff(Times([]), Zeros(0) + WordBits(Value(bits)))
  {
    hide WordBits, Value;
    ShortIsItsRemainder(bits);
  }

  /** Division with remainder: every polynomial is a multiple of the generator plus its Value. */
  lemma {:induction false} Divide(bits: seq<bool>) returns (q: seq<bool>)
    requires |bits| >= 16
    ensures |q| == |bits| - 16
    ensures bits == Diff(Times(q), Zeros(|q|) + WordBits(Value(bits)))
    decreases |bits|
  {
    hide Shift, Xor, Unit, WordBits, Generator, Times, Value;
    if |bits| == 16 {
      q := [];
      DivideShort(bits);
    } else {
      var front, bit := bits[..|bits| - 1], bits[|bits| - 1];
      var v := Value(front);
      var p := Divide(front);
      q := p + [WordBits(v)[0]];
      assert bits == front + [bit];
      ValueSnoc(front, bit);
      TimesSnoc(p, WordBits(v)[0]);
      DivideStep(v, bit);
      DivideSnoc(front, bit, Times(p), WordBits(v), if WordBits(v)[0] then Generator() else Zeros(17), WordBits(Value(bits)));
    }
  }

  /** The step of Divide on coefficients: a product t, a remainder v, and what v and the next bit reduce to. */
  lemma DivideSnoc(front: seq<bool>, bit: bool, t: seq<bool>, v: seq<bool>, tail: seq<bool>, w: seq<bool>)
    requires |front| == |t| >= 16 && |v| == |w| == 16 && |tail| == 17
    requires front == Diff(t, Zeros(|front| - 16) + v)
    requires Diff(Diff(v + [false], Zeros(16) + [bit]), tail) == [false] + w
    ensures var n := |front| - 16;
            front + [bit] == Diff(Diff(t + [false], Zeros(n) + tail), Zeros(n + 1) + w)
  {
    var n := |front| - 16;
    var left, right := Diff(Diff(v + [false], Zeros(16) + [bit]), tail), [false] + w;
    var result := Diff(Diff(t + [false], Zeros(n) + tail), Zeros(n + 1) + w);
    forall i | 0 <= i <= |front| ensures (front + [bit])[i] == result[i] {
      if i >= n {
        assert left[i - n] == right[i - n];
      }
    }
  }

  /** ... and that remainder is the only one of degree below sixteen. */
  lemma RemainderIsUnique(bits: seq<bool>, q: seq<bool>, w: bv16)
    requires |bits| == |q| + 16
    requires bits == Diff(Times(q), Zeros(|q|) + WordBits(w))
    ensures w == Value(bits)
  {
    hide Shift, Xor, Unit, WordBits, Generator;
    ValueAdditive(Times(q), Zeros(|q|) + WordBits(w));
    ValueOfMultiple(q);
    ValueAppend(Zeros(|q|), WordBits(w));
    ValueZeros(|q|);
    ShiftByZero(16);
    ValueOfWord(w);
    XorLaws(w, 0, 0);
  }

  ghost predicate Multiple(bits: seq<bool>)
    requires |bits| >= 16
  {
    exists q :: |q| == |bits| - 16 && bits == Times(q)
  }

  lemma MultipleIffNoRemainder(bits: seq<bool>)
    requires |bits| >= 16
    ensures Multiple(bits) <==> Value(bits) == 0
  {
    hide Shift, Xor, Unit, Generator;
    if Multiple(bits) {
      var q :| |q| == |bits| - 16 && bits == Times(q);
      ValueOfMultiple(q);
    }
    if Value(bits) == 0 {
      hide Times, WordBits, Value;
      var q := Divide(bits);
      WordBitsZero();
      DiffZeros(Times(q), |q|);
    }
  }

  lemma WordBitsZero()
    ensures WordBits(0) == Zeros(16)
  {
  }

  lemma DiffZeros(bits: seq<bool>, n: nat)
    requires |bits| == n + 16
    ensures Diff(bits, Zeros(n) + Zeros(16)) == bits
  {
  }

  // ---------- Acceptance is divisibility ----------

  /** The packet as a polynomial: its check bytes travel low byte first, so they change places. */
  function Codeword(packet: seq<bv8>): (bits: seq<bool>)
    requires |packet| >= 2
    ensures |bits| == 8 * |packet|
  {
    var n := |packet| - 2;
    BitsOf(packet[..n]) + (ByteBits(packet[n + 1]) + ByteBits(packet[n]))
  }

  function Ones(n: nat): (bits: seq<bool>)
    ensures |bits| == n
  {
    seq(n, _ => true)
  }

  /** The preset register inverts the first sixteen coefficients. */
  function Inverted(bits: seq<bool>): (r: seq<bool>)
    requires |bits| >= 16
    ensures |r| == |bits|
  {
    Diff(bits, Ones(16) + Zeros(|bits| - 16))
  }

  lemma PresetIsOnes(n: nat)
    ensures Value(Ones(16) + Zeros(n)) == ShiftBy(PRESET, n)
  {
    assert WordBits(PRESET) == Ones(16);
    hide Shift, Xor, WordBits;
    ValueOfWord(PRESET);
    ValueAppend(Ones(16), Zeros(n));
    ValueZeros(n);
    XorLaws(ShiftBy(PRESET, n), 0, 0);
  }

  lemma ValueOfCodeword(packet: seq<bv8>)
    requires |packet| >= 2
    ensures var n := |packet| - 2;
            Value(Codeword(packet)) == Xor(ShiftBy(Value(BitsOf(packet[..n])), 16), Word(packet[n], packet[n + 1]))
  {
    hide Shift, Xor, ByteBits, BitsOf, Word;
    var n := |packet| - 2;
    ValueOfTwoBytes(packet[n + 1], packet[n]);
    ValueAppend(BitsOf(packet[..n]), ByteBits(packet[n + 1]) + ByteBits(packet[n]));
  }

  lemma XorCancel(a: bv16, b: bv16, c: bv16)
    ensures Xor(Xor(b, c), a) == 0 <==> Xor(a, b) == c
  {
    hide Xor;
    XorLaws(a, b, c);
    XorLaws(Xor(b, c), a, 0);
    XorLaws(Xor(a, b), c, 0);
  }

  lemma AcceptedIffNoRemainder(packet: seq<bv8>)
    requires |packet| >= 2
    ensures Accepted(packet) <==> Value(Inverted(Codeword(packet))) == 0
  {
    hide Shift, Xor, ByteBits, BitsOf, Word, Value, ShiftBy, FeedAll, CrcFrom, Codeword;
    var n := |packet| - 2;
    var payload := packet[..n];
    var preset, message := ShiftBy(PRESET, 8 * n), ShiftBy(Value(BitsOf(payload)), 16);
    TableLoopIsBitSerial(PRESET, payload);
    RegisterIsValue(PRESET, BitsOf(payload));
    assert CrcOf(payload) == Xor(preset, message);
    ValueOfCodeword(packet);
    PresetIsOnes(8 * n);
    ValueAdditive(Codeword(packet), Ones(16) + Zeros(8 * n));
    XorCancel(preset, message, Word(packet[n], packet[n + 1]));
  }

  /** Main result: acceptance is divisibility by the generator. */
  lemma AcceptedIffMultiple(packet: seq<bv8>)
    ensures Accepted(packet) <==> |packet| >= 2 && Multiple(Inverted(Codeword(packet)))
  {
    hide Value, Codeword, Inverted, CrcOf, Word;
    if |packet| >= 2 {
      AcceptedIffNoRemainder(packet);
      MultipleIffNoRemainder(Inverted(Codeword(packet)));
    }
  }
}
