/**
 The codec bit by bit: a chunk's bits keep their order, the lowest first, from the bytes
 into the symbols, and the bits left over are zero.
 */
module CodecBits {
  import opened Digits
  import opened SymbolCodec

  /** Bit k of a number, counted from the lowest. */
  function Bit(v: nat, k: nat): nat {
    PowPositive(2, k);
    (v / Pow(2, k)) % 2
  }

  lemma DropHigh(h: nat, d: nat, q: nat, p: nat)
    requires q > 0 && p == q * 2
    ensures ((p * h + d) / q) % 2 == (d / q) % 2
  {
    assert p * h + d == q * (2 * h) + d by {
      Associate(q, 2, h);
    }
    DivOfSum(d, 2 * h, q);
  }

  lemma DivOfSum(d: nat, m: nat, q: nat)
    requires q > 0
    ensures (q * m + d) / q == m + d / q
  {
    var t, r := d / q, d % q;
    assert q * (m + t) == q * m + q * t;
    QuotientIs(q * m + d, q, m + t, r);
  }

  lemma QuotientIs(v: nat, q: nat, t: nat, r: nat)
    requires q > 0 && r < q && v == q * t + r
    ensures v / q == t
  {
    DivMod(r, t, q);
    assert v == r + q * t;
  }

  lemma Division(u: nat, p: nat)
    requires p > 0
    ensures u == p * (u / p) + u % p
  {
  }

  lemma ThreeFactors(p: nat, a: nat, e: nat, h: nat)
    requires p == a * e
    ensures p * h == a * (e * h)
  {
    Associate(a, e, h);
  }

  lemma DropThese(u: nat, m: nat, h: nat, d: nat, q: nat)
    requires q > 0 && m == (2 * q) * h && u == m + d
    ensures (d / q) % 2 == (u / q) % 2
  {
    DropHigh(h, d, q, 2 * q);
  }

  lemma DropAt(u: nat, p: nat, q: nat, e: nat, h: nat, d: nat)
    requires q > 0 && p == (2 * q) * e && u == p * h + d
    ensures (d / q) % 2 == (u / q) % 2
  {
    ThreeFactors(p, 2 * q, e, h);
    DropThese(u, p * h, e * h, d, q);
  }

  lemma DropMultiples(u: nat, p: nat, q: nat, e: nat)
    requires p > 0 && q > 0 && p == (2 * q) * e
    ensures ((u % p) / q) % 2 == (u / q) % 2
  {
    Division(u, p);
    DropAt(u, p, q, e, u / p, u % p);
  }

  /** The lower c bits of a number are its lower c bits. */
  lemma LowBits(u: nat, c: nat, r: nat)
    requires r < c
    ensures Pow(2, c) > 0 && Bit(u % Pow(2, c), r) == Bit(u, r)
  {
    assert Pow(2, r + 1) == 2 * Pow(2, r);
    hide Pow;
    PowPositive(2, c);
    PowPositive(2, r);
    PowSum(2, r + 1, c - r - 1);
    DropMultiples(u, Pow(2, c), Pow(2, r), Pow(2, c - r - 1));
  }

  /** A digit of c bits holds the bits from c * i on. */
  lemma BitOfDigit(v: nat, c: nat, i: nat, r: nat)
    requires r < c
    ensures Pow(Pow(2, c), i) > 0 && Pow(2, c) > 0
    ensures Bit((v / Pow(Pow(2, c), i)) % Pow(2, c), r) == Bit(v, c * i + r)
  {
    hide Pow;
    PowPositive(2, c);
    PowPositive(Pow(2, c), i);
    PowPow(2, c, i);
    PowPositive(2, r);
    var u := v / Pow(Pow(2, c), i);
    LowBits(u, c, r);
    PowSum(2, c * i, r);
    DivDiv(v, Pow(2, c * i), Pow(2, r));
  }

  lemma HighBitsAreZero(v: nat, n: nat, p: nat)
    requires v < Pow(256, n) && p >= 8 * n
    ensures Bit(v, p) == 0
  {
    ByteIsPow();
    PowPow(2, 8, n);
    PowMonotone(2, 8 * n, p);
    PowPositive(2, p);
    hide Pow;
    QuotientIs(v, Pow(2, p), 0, v);
  }

  lemma SymbolDigit(c: Codec, bytes: seq<nat>, i: nat)
    requires Valid(c) && IsBytes(bytes) && bytes != [] && i <= |bytes|
    ensures 0 <= FromDigits(bytes, 256) < Pow(256, |bytes|)
    ensures |B2s(c, bytes)| == |bytes| + 1 && B2s(c, bytes)[i] < 256
    ensures Pow(Pow(2, c.bits), i) > 0 && Pow(2, c.bits) > 0
    ensures c.decode[B2s(c, bytes)[i]] == (FromDigits(bytes, 256) / Pow(Pow(2, c.bits), i)) % Pow(2, c.bits)
  {
    PackedIs(c, bytes);
    PowPositive(2, c.bits);
    BaseIsPow(c);
    hide ToDigits, FromDigits, Pow, B2s, Base;
    DigitAt(FromDigits(bytes, 256), Base(c), |bytes| + 1, i);
    assert Decoded(c, B2s(c, bytes))[i] == c.decode[B2s(c, bytes)[i]];
  }

  lemma ByteDigit(bytes: seq<nat>, k: nat)
    requires IsBytes(bytes) && k < |bytes|
    ensures FromDigits(bytes, 256) >= 0 && Pow(Pow(2, 8), k) > 0 && Pow(2, 8) == 256
    ensures bytes[k] == (FromDigits(bytes, 256) / Pow(Pow(2, 8), k)) % 256
  {
    ByteIsPow();
    AreDigits(bytes);
    FromDigitsBound(bytes, 256);
    ToFromDigits(bytes, 256);
    hide ToDigits, FromDigits, Pow, IsBytes;
    DigitAt(FromDigits(bytes, 256), 256, |bytes|, k);
  }

  lemma ByteBit(bytes: seq<nat>, k: nat, q: nat)
    requires IsBytes(bytes) && k < |bytes| && q < 8
    ensures FromDigits(bytes, 256) >= 0 && Bit(bytes[k], q) == Bit(FromDigits(bytes, 256), 8 * k + q)
  {
    ByteDigit(bytes, k);
    hide Bit, IsBytes, FromDigits, Pow;
    BitOfDigit(FromDigits(bytes, 256), 8, k, q);
  }

  /**
   Main result: bit r of symbol i of a chunk is bit q of byte k where both are the same
   number of bits from the start, and zero where the bytes have ended.
   */
  lemma BitsKeepOrder(c: Codec, bytes: seq<nat>, i: nat, r: nat, k: nat, q: nat)
    requires Valid(c) && IsBytes(bytes) && bytes != [] && i <= |bytes|
    requires r < c.bits && q < 8 && c.bits * i + r == 8 * k + q
    ensures |B2s(c, bytes)| == |bytes| + 1 && B2s(c, bytes)[i] < 256 && c.decode[B2s(c, bytes)[i]] >= 0
    ensures Bit(c.decode[B2s(c, bytes)[i]], r) == if k < |bytes| then Bit(bytes[k], q) else 0
  {
    hide *;
    SymbolDigit(c, bytes, i);
    BitOfDigit(FromDigits(bytes, 256), c.bits, i, r);
    if k < |bytes| {
      ByteBit(bytes, k, q);
    } else {
      HighBitsAreZero(FromDigits(bytes, 256), |bytes|, 8 * k + q);
    }
  }

  lemma UnpackedDigit(c: Codec, s: seq<nat>, k: nat)
    requires Valid(c) && CodeString(c, s) && 2 <= |s| <= ChunkBytes(c) + 1 && k < |s| - 1
    ensures FromDigits(Decoded(c, s), Base(c)) >= 0 && Pow(Pow(2, 8), k) > 0 && Pow(2, 8) == 256
    ensures |S2b(c, s)| == |s| - 1 && S2b(c, s)[k] == (FromDigits(Decoded(c, s), Base(c)) / Pow(Pow(2, 8), k)) % 256
  {
    ByteIsPow();
    CodeDigits(c, s);
    SmallBits(c);
    ChunkBelowWord(c, |s|);
    FromDigitsBound(Decoded(c, s), Base(c));
    hide ToDigits, FromDigits, Pow, Base, S2b, Valid, IsBytes, Decoded;
    UnpackedIs(c, s, FromDigits(Decoded(c, s), Base(c)));
    DigitAt(FromDigits(Decoded(c, s), Base(c)), 256, |s| - 1, k);
  }

  lemma ValueDigit(c: Codec, s: seq<nat>, i: nat)
    requires Valid(c) && CodeString(c, s) && i < |s|
    ensures FromDigits(Decoded(c, s), Base(c)) >= 0 && Pow(Pow(2, c.bits), i) > 0 && Pow(2, c.bits) > 0 && s[i] < 256
    ensures c.decode[s[i]] == (FromDigits(Decoded(c, s), Base(c)) / Pow(Pow(2, c.bits), i)) % Pow(2, c.bits)
  {
    PowPositive(2, c.bits);
    BaseIsPow(c);
    CodeDigits(c, s);
    FromDigitsBound(Decoded(c, s), Base(c));
    ToFromDigits(Decoded(c, s), Base(c));
    hide ToDigits, FromDigits, Pow, Base;
    DigitAt(FromDigits(Decoded(c, s), Base(c)), Base(c), |s|, i);
  }

  /** Main result: unpacking any chunk of code symbols takes the same bits back, whatever the bits left over are. */
  lemma BitsComeBack(c: Codec, s: seq<nat>, i: nat, r: nat, k: nat, q: nat)
    requires Valid(c) && CodeString(c, s) && 2 <= |s| <= ChunkBytes(c) + 1 && k < |s| - 1 && i < |s|
    requires r < c.bits && q < 8 && c.bits * i + r == 8 * k + q
    ensures |S2b(c, s)| == |s| - 1 && s[i] < 256 && c.decode[s[i]] >= 0
    ensures Bit(S2b(c, s)[k], q) == Bit(c.decode[s[i]], r)
  {
    UnpackedDigit(c, s, k);
    ValueDigit(c, s, i);
    var v := FromDigits(Decoded(c, s), Base(c));
    BitOfDigit(v, 8, k, q);
    BitOfDigit(v, c.bits, i, r);
    hide Bit, S2b, Valid, IsBytes, FromDigits, Pow, Base, Decoded;
  }
}
