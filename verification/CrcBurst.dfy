/**
 Bursts that reach the check bytes.

 Places are counted in the packet buffer, byte by byte and from the highest bit of each;
 the symbols on the line regroup them.  The check bytes are stored low byte first, so the
 packet in its buffer is not a codeword of the polynomial code, and the usual guarantee
 for bursts of sixteen bits does not hold: exactly twelve differences of the last four
 bytes escape, and twelve places is what is guaranteed.
 */
module CrcBurst {
  import opened Crc
  import opened CrcDivision
  import opened CrcDetection

  // ---------- The CRC of a difference ----------

  function Change(p: seq<bv8>, q: seq<bv8>): (d: seq<bv8>)
    requires |p| == |q|
    ensures |d| == |p| && forall i :: 0 <= i < |p| ==> d[i] == p[i] ^ q[i]
  {
    seq(|p|, i requires 0 <= i < |p| => p[i] ^ q[i])
  }

  lemma AtTopAdditive(a: bv8, b: bv8)
    ensures AtTop(a ^ b) == Xor(AtTop(a), AtTop(b))
  {
  }

  /** One byte of the loop: add it at the top, multiply by x^8. */
  lemma CrcByteIsShift(r: bv16, b: bv8)
    ensures CrcByte(r, b) == ShiftBy(Xor(r, AtTop(b)), 8)
  {
    hide *;
    CrcByteFeeds(r, b);
    FeedByte(r, b);
  }

  lemma CrcByteAdditive(r: bv16, s: bv16, a: bv8, b: bv8)
    ensures CrcByte(Xor(r, s), a ^ b) == Xor(CrcByte(r, a), CrcByte(s, b))
  {
    CrcByteIsShift(Xor(r, s), a ^ b);
    CrcByteIsShift(r, a);
    CrcByteIsShift(s, b);
    AtTopAdditive(a, b);
    XorExchange(r, s, AtTop(a), AtTop(b));
    hide *;
    ShiftByAdditive(Xor(r, AtTop(a)), Xor(s, AtTop(b)), 8);
  }

  lemma {:induction false} CrcAdditive(r: bv16, s: bv16, p: seq<bv8>, q: seq<bv8>)
    requires |p| == |q|
    ensures CrcFrom(Xor(r, s), Change(p, q)) == Xor(CrcFrom(r, p), CrcFrom(s, q))
    decreases |p|
  {
    hide CrcByte, Xor;
    if p != [] {
      var n := |p| - 1;
      CrcAdditive(r, s, p[..n], q[..n]);
      assert Change(p, q)[..n] == Change(p[..n], q[..n]);
      CrcByteAdditive(CrcFrom(r, p[..n]), CrcFrom(s, q[..n]), p[n], q[n]);
    }
  }

  lemma WordAdditive(a: bv8, b: bv8, c: bv8, d: bv8)
    ensures Word(a ^ c, b ^ d) == Xor(Word(a, b), Word(c, d))
  {
  }

  lemma EqualSums(a: bv16, b: bv16, c: bv16)
    ensures Xor(a, b) == Xor(a, c) <==> b == c
  {
  }

  lemma AcceptedIs(p: seq<bv8>)
    requires |p| >= 2
    ensures Accepted(p) <==> CrcOf(p[..|p| - 2]) == Word(p[|p| - 2], p[|p| - 1])
  {
  }

  lemma ChangeOfPayload(p: seq<bv8>, q: seq<bv8>, n: nat)
    requires |p| == |q| == n + 2
    ensures CrcFrom(0, Change(p, q)[..n]) == Xor(CrcOf(p[..n]), CrcOf(q[..n]))
  {
    hide *;
    ChangeParts(p, q, n);
    XorLaws(PRESET, PRESET, PRESET);
    CrcOfIs(p[..n]);
    CrcOfIs(q[..n]);
    CrcAdditive(PRESET, PRESET, p[..n], q[..n]);
  }

  lemma ChangeOfCheck(p: seq<bv8>, q: seq<bv8>, n: nat)
    requires |p| == |q| == n + 2
    ensures Word(Change(p, q)[n], Change(p, q)[n + 1]) == Xor(Word(p[n], p[n + 1]), Word(q[n], q[n + 1]))
  {
    hide *;
    ChangeParts(p, q, n);
    WordAdditive(p[n], p[n + 1], q[n], q[n + 1]);
  }

  /** For any alteration: it escapes exactly when it changes the check bytes by the CRC of its change of the payload, without preset. */
  lemma AlteredAcceptedIffCrc(p: seq<bv8>, q: seq<bv8>)
    requires |p| == |q| >= 2 && Accepted(p)
    ensures var d, n := Change(p, q), |p| - 2;
      Accepted(q) <==> CrcFrom(0, d[..n]) == Word(d[n], d[n + 1])
  {
    hide *;
    var n := |p| - 2;
    ChangeOfPayload(p, q, n);
    ChangeOfCheck(p, q, n);
    AcceptedIs(p);
    AcceptedIs(q);
    EqualSums(CrcOf(p[..n]), CrcOf(q[..n]), Word(q[n], q[n + 1]));
  }

  lemma CrcOfIs(bytes: seq<bv8>)
    ensures CrcOf(bytes) == CrcFrom(PRESET, bytes)
  {
    hide CrcFrom;
  }

  lemma ChangeParts(p: seq<bv8>, q: seq<bv8>, n: nat)
    requires |p| == |q| == n + 2
    ensures Change(p, q)[..n] == Change(p[..n], q[..n])
    ensures Change(p, q)[n] == p[n] ^ q[n] && Change(p, q)[n + 1] == p[n + 1] ^ q[n + 1]
  {
  }

  // ---------- The last two payload bytes ----------

  function Four(r: bv16): bv16 {
    Shift(Shift(Shift(Shift(r))))
  }

  /** Multiplication by x^16. */
  function Times16(r: bv16): bv16 {
    Four(Four(Four(Four(r))))
  }

  lemma ShiftByFour(r: bv16, n: nat)
    ensures ShiftBy(r, n + 4) == ShiftBy(Four(r), n)
  {
    hide Shift;
    assert ShiftBy(r, n + 4) == ShiftBy(Shift(Shift(r)), n + 2);
  }

  lemma Times16Is(r: bv16)
    ensures Times16(r) == ShiftBy(ShiftBy(r, 8), 8)
  {
    hide Four;
    ShiftByFour(r, 4);
    ShiftByFour(Four(r), 0);
    ShiftByFour(Four(Four(r)), 4);
    ShiftByFour(Four(Four(Four(r))), 0);
  }

  lemma ByteByEight(b: bv8)
    ensures ShiftBy(b as bv16, 8) == AtTop(b)
  {
    ByteAsWord(b);
    LowByteByEight(b as bv16);
  }

  lemma TwoBytes(d1: bv8, d2: bv8)
    ensures CrcByte(CrcByte(0, d1), d2) == Times16(Word(d2, d1))
  {
    CrcByteIsShift(0, d1);
    CrcByteIsShift(CrcByte(0, d1), d2);
    XorLaws(AtTop(d1), 0, 0);
    ByteByEight(d2);
    WordIsXor(d2, d1);
    ByteAsWord(d1);
    Times16Is(Word(d2, d1));
    hide *;
    ShiftByAdditive(AtTop(d1), d2 as bv16, 8);
  }

  lemma ZeroByte()
    ensures CrcByte(0, 0) == 0
  {
  }

  lemma {:induction false} NoDifference(d: seq<bv8>)
    requires forall i :: 0 <= i < |d| ==> d[i] == 0
    ensures CrcFrom(0, d) == 0
    decreases |d|
  {
    hide CrcByte;
    if d != [] {
      NoDifference(d[..|d| - 1]);
      ZeroByte();
    }
  }

  /** The byte j places before the end, as if zeros went before. */
  function FromEnd(d: seq<bv8>, j: nat): bv8
    requires j > 0
  {
    if j <= |d| then d[|d| - j] else 0
  }

  lemma TailDecides(d: seq<bv8>)
    requires forall i :: 0 <= i < |d| - 2 ==> d[i] == 0
    ensures CrcFrom(0, d) == Times16(Word(FromEnd(d, 1), FromEnd(d, 2)))
  {
    hide CrcByte, Word, Times16;
    var n := |d|;
    TwoBytes(FromEnd(d, 2), FromEnd(d, 1));
    ZeroByte();
    if n >= 2 {
      assert d[..n - 1][..n - 2] == d[..n - 2];
      NoDifference(d[..n - 2]);
    } else if n == 1 {
      assert d[..0] == [];
    }
  }

  // ---------- The twelve that escape ----------

  /** A word with its bytes exchanged. */
  function Swapped(t: bv16): bv16 {
    (t << 8) | (t >> 8)
  }

  /** v is the change of the last two payload bytes, t that of the check bytes, both in the order of the buffer. */
  predicate Escapes(v: bv16, t: bv16) {
    || (v == 0x0001 && t == 0x2110) || (v == 0x0002 && t == 0x4220) || (v == 0x0003 && t == 0x6330)
    || (v == 0x0004 && t == 0x8440) || (v == 0x0005 && t == 0xA550) || (v == 0x0006 && t == 0xC660)
    || (v == 0x0007 && t == 0xE770) || (v == 0x0089 && t == 0xA100) || (v == 0x0235 && t == 0x9400)
    || (v == 0x08C5 && t == 0x4000) || (v == 0x118A && t == 0x8000) || (v == 0x194F && t == 0xC000)
  }

  predicate UpperMask(m: bv16) {
    || m == 0x8000 || m == 0xC000 || m == 0xE000 || m == 0xF000 || m == 0xF800 || m == 0xFC00 || m == 0xFE00 || m == 0xFF00
    || m == 0xFF80 || m == 0xFFC0 || m == 0xFFE0 || m == 0xFFF0 || m == 0xFFF8 || m == 0xFFFC || m == 0xFFFE || m == 0xFFFF
  }

  /** All bursts of sixteen bits at once: v keeps its lowest places, t as many of its highest as make up sixteen. */
  lemma BurstEscapesIff(v: bv16, t: bv16, m: bv16)
    requires UpperMask(m) && v & m == 0 && t & !m == 0 && (v != 0 || t != 0)
    ensures Times16(v) == Swapped(t) <==> Escapes(v, t)
  {
  }

  // ---------- From places in the packet to masks ----------

  lemma {:induction false} BitAt(bytes: seq<bv8>, k: nat, b: nat)
    requires k < |bytes| && b < 8
    ensures BitsOf(bytes)[8 * k + b] == ByteBits(bytes[k])[b]
    decreases |bytes|
  {
    hide ByteBits;
    if k < |bytes| - 1 {
      BitAt(bytes[..|bytes| - 1], k, b);
    }
  }

  lemma BitOfChange(x: bv8, y: bv8, b: nat)
    requires b < 8
    ensures ByteBits(x ^ y)[b] <==> ByteBits(x)[b] != ByteBits(y)[b]
  {
    hide *;
    MaskedPlace(x, x ^ y, b);
    XorBack(x, y);
  }

  lemma XorBack(x: bv8, y: bv8)
    ensures x ^ (x ^ y) == y
  {
  }

  lemma NoBits(x: bv8)
    requires forall b :: 0 <= b < 8 ==> !ByteBits(x)[b]
    ensures x == 0
  {
    assert !ByteBits(x)[0] && !ByteBits(x)[1] && !ByteBits(x)[2] && !ByteBits(x)[3];
    assert !ByteBits(x)[4] && !ByteBits(x)[5] && !ByteBits(x)[6] && !ByteBits(x)[7];
  }

  /** The packets agree in all their bits but those at the places from i up to end. */
  ghost predicate Burst(p: seq<bv8>, q: seq<bv8>, i: nat, end: nat) {
    |p| == |q| && forall j :: 0 <= j < 8 * |p| && !(i <= j < end) ==> BitsOf(p)[j] == BitsOf(q)[j]
  }

  lemma ChangedPlace(p: seq<bv8>, q: seq<bv8>, i: nat, end: nat, k: nat, b: nat)
    requires |p| == |q| && Burst(p, q, i, end) && k < |p| && b < 8 && !(i <= 8 * k + b < end)
    ensures !ByteBits(Change(p, q)[k])[b]
  {
    hide BitsOf, ByteBits;
    BitAt(p, k, b);
    BitAt(q, k, b);
    BitOfChange(p[k], q[k], b);
  }

  /** Place b of a word, from the highest. */
  function WordPlace(b: nat): bv16
    requires b < 16
  {
    match b
    case 0 => 0x8000 case 1 => 0x4000 case 2 => 0x2000 case 3 => 0x1000
    case 4 => 0x0800 case 5 => 0x0400 case 6 => 0x0200 case 7 => 0x0100
    case 8 => 0x0080 case 9 => 0x0040 case 10 => 0x0020 case 11 => 0x0010
    case 12 => 0x0008 case 13 => 0x0004 case 14 => 0x0002 case 15 => 0x0001
  }

  predicate Clear(x: bv16, b: nat)
    requires b < 16
  {
    x & WordPlace(b) == 0
  }

  /** The w highest places. */
  function Upper(w: nat): bv16
    requires w <= 16
  {
    if w == 0 then 0 else Upper(w - 1) | WordPlace(w - 1)
  }

  lemma WordBitHigh(x: bv16, b: nat)
    requires b < 8
    ensures ByteBits(HighByte(x))[b] <==> !Clear(x, b)
  {
  }

  lemma WordBitLow(x: bv16, b: nat)
    requires b < 8
    ensures ByteBits(LowByte(x))[b] <==> !Clear(x, 8 + b)
  {
  }

  lemma MaskJoin(x: bv16, a: bv16, b: bv16)
    requires x & a == 0 && x & b == 0
    ensures x & (a | b) == 0
  {
  }

  lemma {:induction false} UpperZero(x: bv16, w: nat)
    requires w <= 16 && forall b :: 0 <= b < w ==> Clear(x, b)
    ensures x & Upper(w) == 0
    decreases w
  {
    hide WordPlace;
    if w > 0 {
      UpperZero(x, w - 1);
      assert Clear(x, w - 1);
      MaskJoin(x, Upper(w - 1), WordPlace(w - 1));
    } else {
      NothingMasked(x);
    }
  }

  lemma NothingMasked(x: bv16)
    ensures x & 0 == 0
  {
  }

  lemma UppersAre()
    ensures Upper(16) == 0xFFFF && forall w :: 1 <= w <= 16 ==> UpperMask(Upper(w))
    ensures forall w :: 5 <= w <= 16 ==> Upper(w - 4) == Upper(w) << 4
  {
    assert Upper(1) == 0x8000 && Upper(2) == 0xC000 && Upper(3) == 0xE000 && Upper(4) == 0xF000;
    assert Upper(5) == 0xF800 && Upper(6) == 0xFC00 && Upper(7) == 0xFE00 && Upper(8) == 0xFF00;
    assert Upper(9) == 0xFF80 && Upper(10) == 0xFFC0 && Upper(11) == 0xFFE0 && Upper(12) == 0xFFF0;
    assert Upper(13) == 0xFFF8 && Upper(14) == 0xFFFC && Upper(15) == 0xFFFE && Upper(16) == 0xFFFF;
  }

  lemma SplitMask(x: bv16, m: bv16, place: bv16)
    requires x & !(m | place) == 0 && x & place == 0
    ensures x & !m == 0
  {
  }

  lemma FullMask(x: bv16)
    ensures x & !0xFFFF == 0
  {
  }

  lemma {:induction false} LowerZero(x: bv16, w: nat)
    requires w <= 16 && forall b :: w <= b < 16 ==> Clear(x, b)
    ensures x & !Upper(w) == 0
    decreases 16 - w
  {
    UppersAre();
    FullMask(x);
    hide WordPlace, UpperMask;
    if w < 16 {
      LowerZero(x, w + 1);
      assert Clear(x, w);
      SplitMask(x, Upper(w), WordPlace(w));
    }
  }

  // ---------- The theorem ----------

  /** The change of the last two payload bytes, as if zeros went before a shorter payload. */
  function PayloadTail(p: seq<bv8>, q: seq<bv8>): bv16
    requires |p| == |q| >= 2
  {
    var d := Change(p, q)[..|p| - 2];
    Word(FromEnd(d, 1), FromEnd(d, 2))
  }

  /** The change of the check bytes, in the order of the buffer. */
  function CheckTail(p: seq<bv8>, q: seq<bv8>): bv16
    requires |p| == |q| >= 2
  {
    Word(Change(p, q)[|p| - 1], Change(p, q)[|p| - 2])
  }

  lemma SwappedWord(a: bv8, b: bv8)
    ensures Swapped(Word(b, a)) == Word(a, b)
  {
  }

  lemma ZeroBits(b: nat)
    requires b < 8
    ensures !ByteBits(0)[b]
  {
  }

  lemma TailBytes(p: seq<bv8>, q: seq<bv8>)
    requires |p| == |q| >= 2
    ensures var d, n := Change(p, q), |p| - 2;
      && HighByte(PayloadTail(p, q)) == (if n >= 2 then d[n - 2] else 0)
      && LowByte(PayloadTail(p, q)) == (if n >= 1 then d[n - 1] else 0)
      && HighByte(CheckTail(p, q)) == d[n] && LowByte(CheckTail(p, q)) == d[n + 1]
  {
    hide HighByte, LowByte, Word, Change;
    var d, n := Change(p, q), |p| - 2;
    BytesOfWord(FromEnd(d[..n], 1), FromEnd(d[..n], 2));
    BytesOfWord(d[n + 1], d[n]);
  }

  lemma FirstByte(p: seq<bv8>, q: seq<bv8>, i: nat, end: nat, b: nat)
    requires |p| == |q| >= 2 && Burst(p, q, i, end) && b < 8 && 8 * (|p| - 2) + b < i + 16
    ensures !ByteBits(HighByte(PayloadTail(p, q)))[b]
  {
    hide *;
    TailBytes(p, q);
    if |p| >= 4 {
      ChangedPlace(p, q, i, end, |p| - 4, b);
    } else {
      ZeroBits(b);
    }
  }

  lemma SecondByte(p: seq<bv8>, q: seq<bv8>, i: nat, end: nat, b: nat)
    requires |p| == |q| >= 2 && Burst(p, q, i, end) && b < 8 && 8 * (|p| - 2) + 8 + b < i + 16
    ensures !ByteBits(LowByte(PayloadTail(p, q)))[b]
  {
    hide *;
    TailBytes(p, q);
    if |p| >= 3 {
      ChangedPlace(p, q, i, end, |p| - 3, b);
    } else {
      ZeroBits(b);
    }
  }

  lemma PayloadPlace(p: seq<bv8>, q: seq<bv8>, i: nat, end: nat, b: nat)
    requires |p| == |q| >= 2 && Burst(p, q, i, end) && b < 16 && 8 * (|p| - 2) + b < i + 16
    ensures Clear(PayloadTail(p, q), b)
  {
    hide *;
    if b < 8 {
      FirstByte(p, q, i, end, b);
      WordBitHigh(PayloadTail(p, q), b);
    } else {
      SecondByte(p, q, i, end, b - 8);
      WordBitLow(PayloadTail(p, q), b - 8);
    }
  }

  /** Where a burst reaches the check bytes, its first place cuts the last two payload bytes. */
  lemma PayloadPlaces(p: seq<bv8>, q: seq<bv8>, i: nat, end: nat, w: nat)
    requires |p| == |q| >= 2 && Burst(p, q, i, end) && w <= 16 && 8 * (|p| - 2) + w <= i + 16
    ensures PayloadTail(p, q) & Upper(w) == 0
  {
    hide *;
    var v := PayloadTail(p, q);
    forall b | 0 <= b < w ensures Clear(v, b) {
      PayloadPlace(p, q, i, end, b);
    }
    UpperZero(v, w);
  }

  lemma CheckPlaces(p: seq<bv8>, q: seq<bv8>, i: nat, end: nat, w: nat)
    requires |p| == |q| >= 2 && Burst(p, q, i, end) && w <= 16 && (w < 16 ==> 8 * (|p| - 2) + w >= end)
    ensures CheckTail(p, q) & !Upper(w) == 0
  {
    hide *;
    var t, n := CheckTail(p, q), |p| - 2;
    TailBytes(p, q);
    forall b | w <= b < 16 ensures Clear(t, b) {
      if b < 8 {
        WordBitHigh(t, b);
        ChangedPlace(p, q, i, end, n, b);
      } else {
        WordBitLow(t, b - 8);
        ChangedPlace(p, q, i, end, n + 1, b - 8);
      }
    }
    LowerZero(t, w);
  }

  lemma FrontUnchanged(p: seq<bv8>, q: seq<bv8>, i: nat, end: nat, k: nat)
    requires |p| == |q| && Burst(p, q, i, end) && k < |p| && 8 * k + 8 <= i
    ensures Change(p, q)[k] == 0
  {
    hide *;
    forall b | 0 <= b < 8 ensures !ByteBits(Change(p, q)[k])[b] {
      ChangedPlace(p, q, i, end, k, b);
    }
    NoBits(Change(p, q)[k]);
  }

  lemma EndUnchanged(p: seq<bv8>, q: seq<bv8>, i: nat, end: nat, k: nat)
    requires |p| == |q| && Burst(p, q, i, end) && k < |p| && 8 * k >= end
    ensures Change(p, q)[k] == 0
  {
    hide *;
    forall b | 0 <= b < 8 ensures !ByteBits(Change(p, q)[k])[b] {
      ChangedPlace(p, q, i, end, k, b);
    }
    NoBits(Change(p, q)[k]);
  }

  lemma SameIffUnchanged(x: bv8, y: bv8)
    ensures x ^ y == 0 <==> x == y
  {
  }

  lemma ZeroWord(w: bv16)
    ensures w == 0 <==> HighByte(w) == 0 && LowByte(w) == 0
  {
  }

  /** Changes of the last four bytes only. */
  lemma TailAcceptedIff(p: seq<bv8>, q: seq<bv8>)
    requires |p| == |q| >= 2 && Accepted(p)
    requires forall k :: 0 <= k < |p| - 4 ==> Change(p, q)[k] == 0
    ensures Accepted(q) <==> Times16(PayloadTail(p, q)) == Swapped(CheckTail(p, q))
  {
    hide Times16, Swapped, Word, Accepted, CrcFrom;
    var d, n := Change(p, q), |p| - 2;
    AlteredAcceptedIffCrc(p, q);
    TailDecides(d[..n]);
    SwappedWord(d[n], d[n + 1]);
  }

  lemma SomeChange(p: seq<bv8>, q: seq<bv8>)
    requires |p| == |q| >= 2 && p != q
    requires forall k :: 0 <= k < |p| - 4 ==> Change(p, q)[k] == 0
    ensures PayloadTail(p, q) != 0 || CheckTail(p, q) != 0
  {
    TailBytes(p, q);
    ZeroWord(PayloadTail(p, q));
    ZeroWord(CheckTail(p, q));
    hide HighByte, LowByte, PayloadTail, CheckTail;
    var k :| 0 <= k < |p| && p[k] != q[k];
    SameIffUnchanged(p[k], q[k]);
  }

  lemma BurstInPayload(p: seq<bv8>, q: seq<bv8>, i: nat)
    requires |p| == |q| >= 2 && Accepted(p) && p != q && Burst(p, q, i, i + 16) && i + 16 <= 8 * (|p| - 2)
    ensures !Accepted(q) && CheckTail(p, q) == 0
  {
    hide Accepted, CheckTail, PayloadTail, Change, HighByte, LowByte;
    var n := |p| - 2;
    TailBytes(p, q);
    EndUnchanged(p, q, i, i + 16, n);
    EndUnchanged(p, q, i, i + 16, n + 1);
    SameIffUnchanged(p[n], q[n]);
    SameIffUnchanged(p[n + 1], q[n + 1]);
    assert p[n..] == [p[n], p[n + 1]] && q[n..] == [q[n], q[n + 1]];
    PayloadBurstRejected(p, q, i);
    ZeroWord(CheckTail(p, q));
  }

  lemma BurstAtEnd(p: seq<bv8>, q: seq<bv8>, i: nat, w: nat)
    requires |p| == |q| >= 2 && Accepted(p) && p != q && Burst(p, q, i, i + 16)
    requires 8 * (|p| - 2) < i + 16 && 1 <= w <= 16
    requires w == if i + 16 - 8 * (|p| - 2) < 16 then i + 16 - 8 * (|p| - 2) else 16
    ensures Accepted(q) <==> Escapes(PayloadTail(p, q), CheckTail(p, q))
  {
    hide *;
    forall k | 0 <= k < |p| - 4 ensures Change(p, q)[k] == 0 {
      FrontUnchanged(p, q, i, i + 16, k);
    }
    PayloadPlaces(p, q, i, i + 16, w);
    CheckPlaces(p, q, i, i + 16, w);
    SomeChange(p, q);
    UppersAre();
    BurstEscapesIff(PayloadTail(p, q), CheckTail(p, q), Upper(w));
    TailAcceptedIff(p, q);
  }

  /**
   Main result: an alteration within sixteen consecutive places of the packet, wherever
   it lies, goes unnoticed in exactly twelve cases.
   */
  lemma BurstAcceptedIff(p: seq<bv8>, q: seq<bv8>, i: nat)
    requires |p| == |q| >= 2 && Accepted(p) && p != q && Burst(p, q, i, i + 16)
    ensures Accepted(q) <==> Escapes(PayloadTail(p, q), CheckTail(p, q))
  {
    hide Accepted, Escapes, PayloadTail, CheckTail, Burst;
    var n := |p| - 2;
    if i + 16 <= 8 * n {
      BurstInPayload(p, q, i);
      ZeroDoesNotEscape(PayloadTail(p, q), 0);
    } else {
      BurstAtEnd(p, q, i, if i + 16 - 8 * n < 16 then i + 16 - 8 * n else 16);
    }
  }

  /** None of the twelve fits into twelve places. */
  lemma EscapesAreLong(v: bv16, t: bv16, m: bv16)
    requires UpperMask(m) && v & m == 0 && t & !(m << 4) == 0
    ensures !Escapes(v, t)
  {
  }

  lemma NothingOutside(v: bv16, t: bv16)
    requires t & !Upper(0) == 0
    ensures !Escapes(v, t)
  {
  }

  lemma NothingInside(v: bv16, t: bv16)
    requires v & Upper(16) == 0
    ensures !Escapes(v, t)
  {
    UppersAre();
    hide WordPlace, Upper;
  }

  lemma NothingAcross(v: bv16, t: bv16, w: nat)
    requires 5 <= w <= 16 && v & Upper(w) == 0 && t & !Upper(w - 4) == 0
    ensures !Escapes(v, t)
  {
    hide *;
    UppersAre();
    EscapesAreLong(v, t, Upper(w));
  }

  lemma WiderBurst(p: seq<bv8>, q: seq<bv8>, i: nat, end: nat, wider: nat)
    requires Burst(p, q, i, end) && end <= wider
    ensures Burst(p, q, i, wider)
  {
    hide BitsOf;
  }

  lemma TwelveInPayload(p: seq<bv8>, q: seq<bv8>, i: nat)
    requires |p| == |q| >= 2 && Burst(p, q, i, i + 12) && 8 * (|p| - 2) >= i + 12
    ensures !Escapes(PayloadTail(p, q), CheckTail(p, q))
  {
    hide *;
    CheckPlaces(p, q, i, i + 12, 0);
    NothingOutside(PayloadTail(p, q), CheckTail(p, q));
  }

  lemma TwelveInCheck(p: seq<bv8>, q: seq<bv8>, i: nat)
    requires |p| == |q| >= 2 && Burst(p, q, i, i + 12) && 8 * (|p| - 2) <= i
    ensures !Escapes(PayloadTail(p, q), CheckTail(p, q))
  {
    hide *;
    PayloadPlaces(p, q, i, i + 12, 16);
    NothingInside(PayloadTail(p, q), CheckTail(p, q));
  }

  lemma TwelveAcross(p: seq<bv8>, q: seq<bv8>, i: nat, w: nat)
    requires |p| == |q| >= 2 && Burst(p, q, i, i + 12) && 5 <= w <= 16 && 8 * (|p| - 2) + w == i + 16
    ensures !Escapes(PayloadTail(p, q), CheckTail(p, q))
  {
    hide *;
    PayloadPlaces(p, q, i, i + 12, w);
    CheckPlaces(p, q, i, i + 12, w - 4);
    NothingAcross(PayloadTail(p, q), CheckTail(p, q), w);
  }

  lemma TwelveDoNotEscape(p: seq<bv8>, q: seq<bv8>, i: nat)
    requires |p| == |q| >= 2 && Burst(p, q, i, i + 12)
    ensures !Escapes(PayloadTail(p, q), CheckTail(p, q))
  {
    hide *;
    if 8 * (|p| - 2) >= i + 12 {
      TwelveInPayload(p, q, i);
    } else if 8 * (|p| - 2) <= i {
      TwelveInCheck(p, q, i);
    } else {
      TwelveAcross(p, q, i, i + 16 - 8 * (|p| - 2));
    }
  }

  lemma ZeroDoesNotEscape(v: bv16, t: bv16)
    requires v == 0 || t == 0
    ensures !Escapes(v, t)
  {
  }

  /** Main result: an alteration within twelve consecutive places never goes unnoticed, check bytes included. */
  lemma TwelvePlacesRejected(p: seq<bv8>, q: seq<bv8>, i: nat)
    requires |p| == |q| >= 2 && Accepted(p) && p != q && Burst(p, q, i, i + 12)
    ensures !Accepted(q)
  {
    hide *;
    WiderBurst(p, q, i, i + 12, i + 16);
    BurstAcceptedIff(p, q, i);
    TwelveDoNotEscape(p, q, i);
  }

  // ---------- Alterations that escape ----------

  /** The packet with changes of its last payload byte and of its check bytes. */
  function Altered(p: seq<bv8>, a: bv8, b: bv8, c: bv8): (q: seq<bv8>)
    requires |p| >= 3
    ensures |q| == |p| && Change(p, q) == Change(p, q)[..|p| - 3] + [a, b, c]
    ensures forall k :: 0 <= k < |p| - 3 ==> q[k] == p[k]
  {
    var n := |p| - 2;
    XorBack(p[n - 1], a);
    XorBack(p[n], b);
    XorBack(p[n + 1], c);
    p[..n - 1] + [p[n - 1] ^ a, p[n] ^ b, p[n + 1] ^ c]
  }

  lemma NoChange(x: bv8)
    ensures x ^ x == 0
  {
  }

  lemma AlteredAccepted(p: seq<bv8>, a: bv8, b: bv8, c: bv8)
    requires |p| >= 3 && Accepted(p) && Times16(Word(a, 0)) == Swapped(Word(c, b))
    ensures Accepted(Altered(p, a, b, c))
  {
    hide Accepted, Times16, Swapped, Word;
    var q, n := Altered(p, a, b, c), |p| - 2;
    forall k | 0 <= k < n - 1 ensures Change(p, q)[k] == 0 {
      NoChange(p[k]);
    }
    assert Change(p, q)[n - 1] == a && Change(p, q)[n] == b && Change(p, q)[n + 1] == c;
    TailAcceptedIff(p, q);
  }

  /** Such an alteration lies within any places that hold the bits set in its three bytes. */
  lemma AlteredBurst(p: seq<bv8>, a: bv8, b: bv8, c: bv8, from: nat, end: nat)
    requires |p| >= 3
    requires forall m :: 0 <= m < 8 && !(from <= m < end) ==> !ByteBits(a)[m]
    requires forall m :: 0 <= m < 8 && !(from <= 8 + m < end) ==> !ByteBits(b)[m]
    requires forall m :: 0 <= m < 8 && !(from <= 16 + m < end) ==> !ByteBits(c)[m]
    ensures Burst(p, Altered(p, a, b, c), 8 * (|p| - 3) + from, 8 * (|p| - 3) + end)
  {
    hide BitsOf, ByteBits, Altered, Change;
    var q, n := Altered(p, a, b, c), |p| - 3;
    forall j | 0 <= j < 8 * |p| && !(8 * n + from <= j < 8 * n + end) ensures BitsOf(p)[j] == BitsOf(q)[j] {
      var k, m := j / 8, j % 8;
      if k < n {
        BitAt(p, k, m);
        BitAt(q, k, m);
      } else {
        AlteredBytes(p, a, b, c);
        SamePlace(p, q, k, m);
      }
    }
  }

  lemma AlteredBytes(p: seq<bv8>, a: bv8, b: bv8, c: bv8)
    requires |p| >= 3
    ensures var d, n := Change(p, Altered(p, a, b, c)), |p| - 3; d[n] == a && d[n + 1] == b && d[n + 2] == c
  {
    hide Altered, Change;
  }

  lemma SamePlace(p: seq<bv8>, q: seq<bv8>, k: nat, m: nat)
    requires |p| == |q| && k < |p| && m < 8 && !ByteBits(Change(p, q)[k])[m]
    ensures BitsOf(p)[8 * k + m] == BitsOf(q)[8 * k + m]
  {
    hide BitsOf, ByteBits;
    BitAt(p, k, m);
    BitAt(q, k, m);
    BitOfChange(p[k], q[k], m);
  }

  lemma SixteenBits()
    ensures Times16(Word(0x89, 0)) == Swapped(Word(0, 0xA1))
    ensures forall m :: 0 <= m < 8 ==> !ByteBits(0)[m]
  {
    assert ByteBits(0) == [false, false, false, false, false, false, false, false];
  }

  /** So bursts of sixteen places are not safe: every accepted packet with a payload has such a double. */
  lemma SixteenPlacesCanEscape(p: seq<bv8>)
    requires |p| >= 3 && Accepted(p)
    ensures var q := Altered(p, 0x89, 0xA1, 0);
      |q| == |p| && q != p && Accepted(q) && Burst(p, q, 8 * (|p| - 3), 8 * (|p| - 3) + 16)
  {
    hide *;
    SixteenBits();
    AlteredAccepted(p, 0x89, 0xA1, 0);
    AlteredBurst(p, 0x89, 0xA1, 0, 0, 16);
    AlteredDiffers(p, 0x89, 0xA1, 0);
  }

  lemma AlteredDiffers(p: seq<bv8>, a: bv8, b: bv8, c: bv8)
    requires |p| >= 3 && a != 0
    ensures Altered(p, a, b, c) != p
  {
    hide Altered;
    var q := Altered(p, a, b, c);
    assert Change(p, q)[|p| - 3] == a;
    NoChange(p[|p| - 3]);
  }

  lemma ThirteenBits()
    ensures Times16(Word(0x01, 0)) == Swapped(Word(0x10, 0x21))
    ensures forall m :: 0 <= m < 8 && !(7 <= m) ==> !ByteBits(0x01)[m]
    ensures forall m :: 0 <= m < 8 && !(16 + m < 20) ==> !ByteBits(0x10)[m]
  {
    assert ByteBits(0x01) == [false, false, false, false, false, false, false, true];
    assert ByteBits(0x10) == [false, false, false, true, false, false, false, false];
  }

  /** Twelve is exact: every accepted packet with a payload has a double that differs only within thirteen places. */
  lemma ThirteenPlacesCanEscape(p: seq<bv8>)
    requires |p| >= 3 && Accepted(p)
    ensures var q := Altered(p, 0x01, 0x21, 0x10);
      |q| == |p| && q != p && Accepted(q) && Burst(p, q, 8 * (|p| - 3) + 7, 8 * (|p| - 3) + 20)
  {
    hide *;
    ThirteenBits();
    AlteredAccepted(p, 0x01, 0x21, 0x10);
    AlteredBurst(p, 0x01, 0x21, 0x10, 7, 20);
    AlteredDiffers(p, 0x01, 0x21, 0x10);
  }
}
