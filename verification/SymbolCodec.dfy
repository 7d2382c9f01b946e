/**
 The codec of both versions (radio2/src/symbols.c, radio/serial/symbols.c): chunks of
 bytes are repacked into symbols of 6 or 7 bits and looked up in a table.

 Bytes and symbols are numbers below 256.  Everything is proved for both symbol sizes
 at once and for any pair of tables that invert each other.
 */
module SymbolCodec {
  import opened Digits

  /** Bits per symbol, symbol values to line symbols, and back; negative entries mark invalid symbols. */
  datatype Codec = Codec(bits: nat, encode: seq<nat>, decode: seq<int>)

  ghost predicate Valid(c: Codec) {
    && (c.bits == 6 || c.bits == 7)
    && |c.encode| >= Base(c) && |c.decode| == 256
    && (forall v :: 0 <= v < Base(c) ==> c.encode[v] < 256 && c.decode[c.encode[v]] == v)
    && (forall x :: 0 <= x < 256 && 0 <= c.decode[x] < Base(c) ==> c.encode[c.decode[x]] == x)
  }

  /** How many values a symbol has. */
  function Base(c: Codec): (b: nat)
    ensures b > 0
  {
    PowPositive(2, c.bits);
    Pow(2, c.bits)
  }

  /** Bytes in a full chunk: 3 in 4 symbols of 6 bits, 7 in 8 symbols of 7 bits. */
  function ChunkBytes(c: Codec): nat {
    if c.bits == 6 then 3 else 7
  }

  predicate IsBytes(s: seq<nat>) {
    forall i :: 0 <= i < |s| ==> s[i] < 256
  }

  // ---------- One chunk ----------

  function Encoded(c: Codec, ds: seq<nat>): (s: seq<nat>)
    requires Valid(c) && AllBelow(ds, Base(c))
    ensures |s| == |ds|
    ensures forall i :: 0 <= i < |ds| ==> s[i] == c.encode[ds[i]]
  {
    seq(|ds|, i requires 0 <= i < |ds| => c.encode[ds[i]])
  }

  function Decoded(c: Codec, s: seq<nat>): (ds: seq<int>)
    requires |c.decode| == 256 && IsBytes(s)
    ensures |ds| == |s|
    ensures forall i :: 0 <= i < |s| ==> ds[i] == c.decode[s[i]]
  {
    seq(|s|, i requires 0 <= i < |s| => c.decode[s[i]])
  }

  /** _b2s: the bytes as one number, cut into one symbol more than there are bytes. */
  function B2s(c: Codec, bytes: seq<nat>): (s: seq<nat>)
    requires Valid(c) && IsBytes(bytes)
  {
    if bytes == [] then []
    else
      FromDigitsBound(bytes, 256);
      ToDigitsBelow(FromDigits(bytes, 256), Base(c), |bytes| + 1);
      Encoded(c, ToDigits(FromDigits(bytes, 256), Base(c), |bytes| + 1))
  }

  const WORD: nat := 0x1_0000_0000_0000_0000

  /** _s2b: the symbols' values as one 64-bit number, cut into one byte less; table entries below zero wrap around. */
  function S2b(c: Codec, s: seq<nat>): (bytes: seq<nat>)
    requires Valid(c) && IsBytes(s)
    ensures |bytes| == if |s| < 2 then 0 else |s| - 1
  {
    if |s| < 2 then [] else ToDigits(FromDigits(Decoded(c, s), Base(c)) % WORD, 256, |s| - 1)
  }

  // ---------- Whole strings ----------

  function BytesToSymbols(c: Codec, bytes: seq<nat>): (s: seq<nat>)
    requires Valid(c) && IsBytes(bytes)
    decreases |bytes|
  {
    var n := ChunkBytes(c);
    if |bytes| <= n then B2s(c, bytes)
    else B2s(c, bytes[..n]) + BytesToSymbols(c, bytes[n..])
  }

  /** Stops after the first chunk that is not full. */
  function SymbolsToBytes(c: Codec, s: seq<nat>): (bytes: seq<nat>)
    requires Valid(c) && IsBytes(s)
    decreases |s|
  {
    var n := ChunkBytes(c) + 1;
    if |s| <= n then S2b(c, s)
    else S2b(c, s[..n]) + SymbolsToBytes(c, s[n..])
  }

  // ---------- Sizes ----------

  lemma BaseIs(c: Codec)
    requires c.bits == 6 || c.bits == 7
    ensures Base(c) == if c.bits == 6 then 64 else 128
  {
    assert Pow(2, 3) == 8;
    PowSum(2, 3, 3);
    assert Pow(2, 7) == 2 * Pow(2, 6);
  }

  /** n bytes fit in n + 1 symbols while they fill at most a chunk. */
  lemma ChunkFits(c: Codec, n: nat)
    requires (c.bits == 6 || c.bits == 7) && n <= ChunkBytes(c)
    ensures Pow(256, n) <= Pow(Base(c), n + 1)
  {
    ByteIsPow();
    PowPow(2, 8, n);
    PowPow(2, c.bits, n + 1);
    PowMonotone(2, 8 * n, c.bits * (n + 1));
  }

  lemma ByteIsPow()
    ensures Pow(2, 8) == 256
  {
    assert Pow(2, 4) == 16;
    PowSum(2, 4, 4);
  }

  lemma Squared(x: nat, n: nat)
    ensures Pow(x, 2 * n) == Pow(x, n) * Pow(x, n)
  {
    PowSum(x, n, n);
  }

  lemma WordIsPow()
    ensures Pow(2, 64) == WORD
  {
    hide Pow;
    ByteIsPow();
    Squared(2, 8);
    Squared(2, 16);
    Squared(2, 32);
  }

  /** A chunk of symbol values stays below 2^56. */
  lemma ChunkBelowWord(c: Codec, n: nat)
    requires (c.bits == 6 || c.bits == 7) && n <= ChunkBytes(c) + 1
    ensures Pow(Base(c), n) <= WORD
  {
    hide Pow;
    PowPow(2, c.bits, n);
    PowMonotone(2, c.bits * n, 64);
    WordIsPow();
  }

  // ---------- Decoding what was encoded ----------

  lemma DecodedEncoded(c: Codec, ds: seq<nat>)
    requires Valid(c) && AllBelow(ds, Base(c))
    ensures IsBytes(Encoded(c, ds)) && Decoded(c, Encoded(c, ds)) == ds
  {
    hide Base;
  }

  /** What packing gives, symbol values first. */
  lemma PackedIs(c: Codec, bytes: seq<nat>)
    requires Valid(c) && IsBytes(bytes) && bytes != []
    ensures 0 <= FromDigits(bytes, 256) < Pow(256, |bytes|)
    ensures IsBytes(B2s(c, bytes)) && |B2s(c, bytes)| == |bytes| + 1
    ensures Decoded(c, B2s(c, bytes)) == ToDigits(FromDigits(bytes, 256), Base(c), |bytes| + 1)
  {
    hide Base, ToDigits, FromDigits, Encoded, Decoded, Pow;
    FromDigitsBound(bytes, 256);
    ToDigitsBelow(FromDigits(bytes, 256), Base(c), |bytes| + 1);
    DecodedEncoded(c, ToDigits(FromDigits(bytes, 256), Base(c), |bytes| + 1));
  }

  lemma UnpackedIs(c: Codec, s: seq<nat>, v: nat)
    requires Valid(c) && IsBytes(s) && |s| >= 2
    requires FromDigits(Decoded(c, s), Base(c)) == v < WORD
    ensures S2b(c, s) == ToDigits(v, 256, |s| - 1)
  {
    hide Base, ToDigits, FromDigits, Encoded, Decoded, Valid, IsBytes;
  }

  lemma SmallBits(c: Codec)
    requires Valid(c)
    ensures (c.bits == 6 || c.bits == 7) && |c.decode| == 256
  {
  }

  lemma ChunkRoundTrip(c: Codec, bytes: seq<nat>)
    requires Valid(c) && IsBytes(bytes) && |bytes| <= ChunkBytes(c)
    ensures IsBytes(B2s(c, bytes)) && |B2s(c, bytes)| == (if bytes == [] then 0 else |bytes| + 1)
    ensures S2b(c, B2s(c, bytes)) == bytes
  {
    if bytes != [] {
      hide *;
      var n := |bytes|;
      var v := FromDigits(bytes, 256);
      SmallBits(c);
      PackedIs(c, bytes);
      AreDigits(bytes);
      ChunkFits(c, n);
      ChunkBelowWord(c, n + 1);
      FromToDigits(v, Base(c), n + 1);
      UnpackedIs(c, B2s(c, bytes), v);
      ToFromDigits(bytes, 256);
    }
  }

  lemma AreDigits(bytes: seq<nat>)
    requires IsBytes(bytes)
    ensures AllBelow(bytes, 256)
  {
  }

  /** How many symbols n bytes take: one more per started chunk. */
  function EncodedLength(c: Codec, n: nat): nat {
    n + (n + ChunkBytes(c) - 1) / ChunkBytes(c)
  }

  lemma LengthStep(c: Codec, n: nat)
    ensures EncodedLength(c, n + ChunkBytes(c)) == EncodedLength(c, n) + ChunkBytes(c) + 1
    ensures n <= ChunkBytes(c) ==> EncodedLength(c, n) == if n == 0 then 0 else n + 1
  {
  }

  lemma EncodeAppend(c: Codec, a: seq<nat>, b: seq<nat>)
    requires Valid(c) && IsBytes(a) && IsBytes(b) && |a| == ChunkBytes(c)
    ensures IsBytes(a + b) && BytesToSymbols(c, a + b) == B2s(c, a) + BytesToSymbols(c, b)
  {
    hide B2s, Valid;
    if b == [] {
      assert a + b == a && B2s(c, a) + [] == B2s(c, a);
      NothingPacked(c);
    } else {
      assert (a + b)[..ChunkBytes(c)] == a && (a + b)[ChunkBytes(c)..] == b;
    }
  }

  lemma NothingPacked(c: Codec)
    requires Valid(c)
    ensures B2s(c, []) == []
  {
  }

  lemma DecodeAppend(c: Codec, s: seq<nat>, t: seq<nat>)
    requires Valid(c) && IsBytes(s) && IsBytes(t) && |s| == ChunkBytes(c) + 1
    ensures IsBytes(s + t) && SymbolsToBytes(c, s + t) == S2b(c, s) + SymbolsToBytes(c, t)
  {
    hide S2b, Valid;
    if t == [] {
      assert s + t == s && S2b(c, s) + [] == S2b(c, s);
    } else {
      assert (s + t)[..ChunkBytes(c) + 1] == s && (s + t)[ChunkBytes(c) + 1..] == t;
    }
  }

  /** Main result: decoding undoes encoding, for every byte string. */
  lemma {:induction false} RoundTrip(c: Codec, bytes: seq<nat>)
    requires Valid(c) && IsBytes(bytes)
    ensures IsBytes(BytesToSymbols(c, bytes)) && |BytesToSymbols(c, bytes)| == EncodedLength(c, |bytes|)
    ensures SymbolsToBytes(c, BytesToSymbols(c, bytes)) == bytes
    decreases |bytes|
  {
    hide B2s, S2b, Valid, EncodedLength;
    var n := ChunkBytes(c);
    if |bytes| <= n {
      ChunkRoundTrip(c, bytes);
      LengthStep(c, |bytes|);
    } else {
      hide BytesToSymbols, SymbolsToBytes;
      var first, rest := bytes[..n], bytes[n..];
      ChunkRoundTrip(c, first);
      RoundTrip(c, rest);
      EncodeAppend(c, first, rest);
      DecodeAppend(c, B2s(c, first), BytesToSymbols(c, rest));
      LengthStep(c, |rest|);
      assert bytes == first + rest;
    }
  }

  // ---------- Encoding what was decoded ----------

  predicate CodeSymbol(c: Codec, x: nat)
    requires |c.decode| == 256
  {
    x < 256 && 0 <= c.decode[x] < Base(c)
  }

  predicate CodeString(c: Codec, s: seq<nat>)
    requires |c.decode| == 256
  {
    forall i :: 0 <= i < |s| ==> CodeSymbol(c, s[i])
  }

  /** How many bits n bytes have beyond what n symbols hold. */
  function SpareBits(c: Codec, n: nat): (k: nat)
    requires c.bits <= 8
    ensures 8 * n == k + c.bits * n
  {
    8 * n - c.bits * n
  }

  /**
   What makes a string of symbols an encoding: every symbol stands for a value, the last
   chunk is not one symbol alone, and if it is not full, the bits of its last symbol that
   no byte takes up are zero.
   */
  predicate Canonical(c: Codec, s: seq<nat>)
    requires |c.decode| == 256 && c.bits <= 8
  {
    var r := |s| % (ChunkBytes(c) + 1);
    CodeString(c, s) && r != 1 && (r != 0 ==> c.decode[s[|s| - 1]] < Pow(2, SpareBits(c, r - 1)))
  }

  lemma {:induction false} LowDigits(v: nat, b: nat, n: nat)
    requires b > 0
    ensures Pow(b, n) > 0 && FromDigits(ToDigits(v, b, n), b) == v % Pow(b, n)
    decreases n
  {
    PowPositive(b, n);
    if n > 0 {
      LowDigits(v / b, b, n - 1);
      SplitRemainder(v, b, Pow(b, n - 1));
    }
  }

  lemma SplitRemainder(v: nat, b: nat, p: nat)
    requires b > 0 && p > 0
    ensures b * p > 0 && v % (b * p) == v % b + b * ((v / b) % p)
  {
    ProductPositive(b, p);
    var q, x := v / b, v % b;
    var t, r := q / p, q % p;
    DigitBound(x, r, b, p);
    Recombine(v, b, q, x, p, t, r);
    DivMod(x + b * r, t, b * p);
  }

  lemma Recombine(v: nat, b: nat, q: nat, x: nat, p: nat, t: nat, r: nat)
    requires v == b * q + x && q == p * t + r
    ensures v == (x + b * r) + (b * p) * t
  {
    assert b * q == b * (p * t) + b * r;
    Associate(b, p, t);
  }

  /** A number of n symbols is below 256^(n-1) exactly when its top symbol is small enough. */
  lemma TopSymbolDecides(c: Codec, ds: seq<int>)
    requires (c.bits == 6 || c.bits == 7) && |ds| >= 2 && AllBelow(ds, Base(c))
    ensures FromDigits(ds, Base(c)) >= 0
    ensures FromDigits(ds, Base(c)) < Pow(256, |ds| - 1) <==> ds[|ds| - 1] < Pow(2, SpareBits(c, |ds| - 1))
  {
    hide *;
    var m: nat := |ds| - 1;
    var low, d := ds[..m], ds[m];
    BaseIsPow(c);
    PrefixBelow(ds, Base(c));
    FromDigitsBound(ds, Base(c));
    FromDigitsBound(low, Base(c));
    assert ds == low + [d];
    FromDigitsSnoc(low, d, Base(c));
    PowPow(2, 8, m);
    PowPow(2, c.bits, m);
    var k := Pow(2, SpareBits(c, m));
    PowSum(2, SpareBits(c, m), c.bits * m);
    ByteIsPow();
    TopDigit(FromDigits(low, Base(c)), d, Pow(Base(c), m), k);
  }

  lemma BaseIsPow(c: Codec)
    ensures Base(c) == Pow(2, c.bits)
  {
  }

  lemma PrefixBelow(ds: seq<int>, b: nat)
    requires AllBelow(ds, b) && ds != []
    ensures AllBelow(ds[..|ds| - 1], b) && 0 <= ds[|ds| - 1] < b
  {
  }

  lemma TopDigit(low: nat, d: int, p: nat, k: nat)
    requires low < p
    ensures low + d * p < k * p <==> d < k
  {
    if d < k {
      assert (d + 1) * p <= k * p;
    } else {
      assert k * p <= d * p;
    }
  }

  lemma CodeDigits(c: Codec, s: seq<nat>)
    requires Valid(c) && CodeString(c, s)
    ensures IsBytes(s) && AllBelow(Decoded(c, s), Base(c))
  {
    hide Base;
  }

  lemma DecodedInjective(c: Codec, s: seq<nat>, t: seq<nat>)
    requires Valid(c) && CodeString(c, s) && CodeString(c, t)
    requires IsBytes(s) && IsBytes(t) && Decoded(c, s) == Decoded(c, t)
    ensures s == t
  {
    hide Base;
    forall i | 0 <= i < |s| ensures s[i] == t[i] {
      assert Decoded(c, s)[i] == c.decode[s[i]] && Decoded(c, t)[i] == c.decode[t[i]];
      assert CodeSymbol(c, s[i]) && CodeSymbol(c, t[i]);
    }
  }

  lemma DigitsAreCode(c: Codec, s: seq<nat>)
    requires Valid(c) && IsBytes(s) && AllBelow(Decoded(c, s), Base(c))
    ensures CodeString(c, s)
  {
    hide Base;
    forall i | 0 <= i < |s| ensures CodeSymbol(c, s[i]) {
      assert Decoded(c, s)[i] == c.decode[s[i]];
    }
  }

  /** Only strings of code symbols are ever packed. */
  lemma PackedIsCode(c: Codec, bytes: seq<nat>)
    requires Valid(c) && IsBytes(bytes)
    ensures CodeString(c, B2s(c, bytes))
  {
    if bytes != [] {
      hide *;
      PackedIs(c, bytes);
      ToDigitsBelow(FromDigits(bytes, 256), Base(c), |bytes| + 1);
      DigitsAreCode(c, B2s(c, bytes));
    }
  }

  lemma ChunkCanonical(c: Codec, s: seq<nat>)
    requires Valid(c) && CodeString(c, s) && IsBytes(s) && 2 <= |s| <= ChunkBytes(c) + 1
    ensures IsBytes(S2b(c, s))
    ensures B2s(c, S2b(c, s)) == s <==> c.decode[s[|s| - 1]] < Pow(2, SpareBits(c, |s| - 1))
  {
    hide *;
    SmallBits(c);
    var n, b, ds := |s|, Base(c), Decoded(c, s);
    CodeDigits(c, s);
    FromDigitsBound(ds, b);
    ChunkBelowWord(c, n);
    var v := FromDigits(ds, b);
    UnpackedIs(c, s, v);
    var bytes := S2b(c, s);
    ToDigitsBelow(v, 256, n - 1);
    AreBytes(bytes);
    var p := Pow(256, n - 1);
    LowDigits(v, 256, n - 1);
    PackedIs(c, bytes);
    PackedIsCode(c, bytes);
    var t := B2s(c, bytes);
    TopSymbolDecides(c, ds);
    ToFromDigits(ds, b);
    if v < p {
      SmallRemainder(v, p);
      DecodedInjective(c, s, t);
    } else {
      ChunkFits(c, n - 1);
      RemainderBelow(v, p);
      FromToDigits(v % p, b, n);
    }
  }

  lemma SmallRemainder(v: nat, p: nat)
    requires v < p
    ensures v % p == v
  {
  }

  lemma RemainderBelow(v: nat, p: nat)
    requires 0 < p <= v
    ensures v % p < p && v % p != v
  {
  }

  lemma AreBytes(bytes: seq<nat>)
    requires AllBelow(bytes, 256)
    ensures IsBytes(bytes)
  {
  }

  /** A full chunk of code symbols has no spare bits. */
  lemma FullChunk(c: Codec, s: seq<nat>)
    requires Valid(c) && CodeString(c, s) && IsBytes(s) && |s| == ChunkBytes(c) + 1
    ensures IsBytes(S2b(c, s)) && B2s(c, S2b(c, s)) == s
  {
    hide *;
    SmallBits(c);
    FullPow(c);
    ChunkCanonical(c, s);
    LastIsCode(c, s);
  }

  lemma LastIsCode(c: Codec, s: seq<nat>)
    requires |c.decode| == 256 && CodeString(c, s) && s != []
    ensures s[|s| - 1] < 256 && c.decode[s[|s| - 1]] < Base(c)
  {
    assert CodeSymbol(c, s[|s| - 1]);
  }

  lemma FullPow(c: Codec)
    requires c.bits == 6 || c.bits == 7
    ensures Base(c) == Pow(2, SpareBits(c, ChunkBytes(c))) && (ChunkBytes(c) == 3 || ChunkBytes(c) == 7)
  {
    hide Pow;
    assert SpareBits(c, ChunkBytes(c)) == c.bits;
  }

  lemma OneChunkCanonical(c: Codec, s: seq<nat>)
    requires Valid(c) && CodeString(c, s) && IsBytes(s) && |s| <= ChunkBytes(c) + 1
    ensures IsBytes(S2b(c, s)) && (B2s(c, S2b(c, s)) == s <==> Canonical(c, s))
  {
    hide Base, B2s, Pow, CodeString, Valid;
    SmallBits(c);
    if |s| < 2 {
      NothingPacked(c);
      assert S2b(c, s) == [];
    } else if |s| == ChunkBytes(c) + 1 {
      FullChunk(c, s);
    } else {
      ChunkCanonical(c, s);
    }
  }

  lemma CanonicalTail(c: Codec, first: seq<nat>, rest: seq<nat>)
    requires Valid(c) && |first| == ChunkBytes(c) + 1 && rest != [] && CodeString(c, first)
    ensures Canonical(c, first + rest) <==> Canonical(c, rest)
  {
    hide Base, Pow, CodeSymbol, SpareBits, ChunkBytes;
    var s := first + rest;
    var n := ChunkBytes(c) + 1;
    DropMultiple(|rest|, n);
    assert forall i :: 0 <= i < |rest| ==> s[n + i] == rest[i];
    assert s[|s| - 1] == rest[|rest| - 1];
  }

  lemma DropMultiple(x: nat, n: nat)
    requires n > 0
    ensures (n + x) % n == x % n
  {
    TimesSuccessor(n, x / n);
    DivMod(x % n, x / n + 1, n);
  }

  lemma BytesOut(c: Codec, s: seq<nat>)
    requires Valid(c) && IsBytes(s)
    ensures IsBytes(S2b(c, s))
  {
    if |s| >= 2 {
      var v := FromDigits(Decoded(c, s), Base(c)) % WORD;
      ToDigitsBelow(v, 256, |s| - 1);
    }
  }

  lemma {:induction false} AllBytesOut(c: Codec, s: seq<nat>)
    requires Valid(c) && IsBytes(s)
    ensures IsBytes(SymbolsToBytes(c, s))
    decreases |s|
  {
    hide S2b, Valid;
    var n := ChunkBytes(c) + 1;
    if |s| <= n {
      BytesOut(c, s);
    } else {
      BytesOut(c, s[..n]);
      AllBytesOut(c, s[n..]);
    }
  }

  lemma {:induction false} EncodedIsCode(c: Codec, bytes: seq<nat>)
    requires Valid(c) && IsBytes(bytes)
    ensures CodeString(c, BytesToSymbols(c, bytes))
    decreases |bytes|
  {
    hide B2s, CodeSymbol, Valid;
    SmallBits(c);
    var n := ChunkBytes(c);
    if |bytes| <= n {
      PackedIsCode(c, bytes);
    } else {
      PackedIsCode(c, bytes[..n]);
      EncodedIsCode(c, bytes[n..]);
    }
  }

  lemma {:induction false} CodeCanonical(c: Codec, s: seq<nat>)
    requires Valid(c) && IsBytes(s) && CodeString(c, s) && IsBytes(SymbolsToBytes(c, s))
    ensures BytesToSymbols(c, SymbolsToBytes(c, s)) == s <==> Canonical(c, s)
    decreases |s|
  {
    hide B2s, S2b, CodeSymbol, Valid, Canonical;
    SmallBits(c);
    var n := ChunkBytes(c) + 1;
    if |s| <= n {
      OneChunkCanonical(c, s);
      assert |S2b(c, s)| <= ChunkBytes(c);
    } else {
      hide BytesToSymbols, SymbolsToBytes;
      var first, rest := s[..n], s[n..];
      assert s == first + rest;
      FullChunk(c, first);
      AllBytesOut(c, rest);
      CodeCanonical(c, rest);
      DecodeAppend(c, first, rest);
      EncodeAppend(c, S2b(c, first), SymbolsToBytes(c, rest));
      CanonicalTail(c, first, rest);
      var t := BytesToSymbols(c, SymbolsToBytes(c, rest));
      assert (first + t)[n..] == t;
    }
  }

  /** Main result: encoding undoes decoding exactly on the canonical strings of symbols. */
  lemma CanonicalIffRoundTrip(c: Codec, s: seq<nat>)
    requires Valid(c) && IsBytes(s)
    ensures IsBytes(SymbolsToBytes(c, s))
    ensures BytesToSymbols(c, SymbolsToBytes(c, s)) == s <==> Canonical(c, s)
  {
    hide B2s, S2b, BytesToSymbols, SymbolsToBytes, Valid;
    SmallBits(c);
    AllBytesOut(c, s);
    EncodedIsCode(c, SymbolsToBytes(c, s));
    if CodeString(c, s) {
      CodeCanonical(c, s);
    }
  }

  lemma LoneSymbol(c: Codec, x: nat)
    requires Valid(c) && x < 256
    ensures SymbolsToBytes(c, [x]) == [] && BytesToSymbols(c, SymbolsToBytes(c, [x])) == []
  {
    NothingPacked(c);
  }

  // ---------- The loops ----------

  /** Shifting a byte into place adds it as the next digit, and the sum still fits the word. */
  lemma PackStep(data: seq<nat>, i: nat)
    requires IsBytes(data) && i < |data| <= 7
    ensures 0 <= FromDigits(data[..i], 256)
    ensures FromDigits(data[..i + 1], 256) == FromDigits(data[..i], 256) + data[i] * Pow(2, 8 * i) < WORD
  {
    hide FromDigits, Pow;
    assert data[..i + 1] == data[..i] + [data[i]];
    FromDigitsSnoc(data[..i], data[i], 256);
    FromDigitsBound(data[..i], 256);
    FromDigitsBound(data[..i + 1], 256);
    ByteIsPow();
    PowPow(2, 8, i);
    PowPow(2, 8, i + 1);
    PowMonotone(2, 8 * (i + 1), 64);
    WordIsPow();
  }

  /** Shifting and masking finds a digit. */
  lemma MaskedIs(v: nat, bits: nat, n: nat, i: nat)
    requires i < n
    ensures Pow(2, bits) > 0 && Pow(2, bits * i) > 0
    ensures ToDigits(v, Pow(2, bits), n)[i] == v / Pow(2, bits * i) % Pow(2, bits)
  {
    PowPositive(2, bits);
    PowPositive(2, bits * i);
    PowPow(2, bits, i);
    DigitAt(v, Pow(2, bits), n, i);
  }

  lemma PackedAt(c: Codec, data: seq<nat>, i: nat)
    requires Valid(c) && IsBytes(data) && data != [] && i <= |data|
    ensures FromDigits(data, 256) >= 0 && Pow(2, c.bits * i) > 0
    ensures FromDigits(data, 256) / Pow(2, c.bits * i) % Base(c) < Base(c)
    ensures |B2s(c, data)| == |data| + 1
    ensures B2s(c, data)[i] == c.encode[FromDigits(data, 256) / Pow(2, c.bits * i) % Base(c)]
  {
    hide FromDigits, ToDigits, Pow, IsBytes;
    AreDigits(data);
    FromDigitsBound(data, 256);
    MaskedIs(FromDigits(data, 256), c.bits, |data| + 1, i);
    BaseIsPow(c);
    ToDigitsBelow(FromDigits(data, 256), Base(c), |data| + 1);
  }

  /** A buffer after writing `out` into it from index `to` on. */
  function Splice(was: seq<nat>, to: nat, out: seq<nat>): seq<nat>
    requires to + |out| <= |was|
  {
    was[..to] + out + was[to + |out|..]
  }

  /** _b2s: pack up to a chunk of bytes. */
  method PackChunk(c: Codec, bytes: array<nat>, from: nat, n: nat, symbols: array<nat>, to: nat) returns (k: nat)
    requires Valid(c) && n <= ChunkBytes(c)
    requires from + n <= bytes.Length && to + (if n == 0 then 0 else n + 1) <= symbols.Length
    requires bytes != symbols && IsBytes(bytes[from..from + n])
    modifies symbols
    ensures k == |B2s(c, bytes[from..from + n])|
    ensures symbols[..] == Splice(old(symbols[..]), to, B2s(c, bytes[from..from + n]))
  {
    hide B2s, FromDigits, ToDigits, Pow, Base, Splice;
    ghost var data, was := bytes[from..from + n], symbols[..];
    if n == 0 {
      Untouched(was, to);
      NothingPacked(c);
      return 0;
    }
    var temp: nat := 0;
    assert data[..0] == [];
    NoDigits();
    for i := 0 to n
      invariant temp == FromDigits(data[..i], 256) && symbols[..] == was
    {
      PackStep(data, i);
      temp := (temp + bytes[from + i] * Pow(2, 8 * i)) % WORD;
    }
    assert data[..n] == data;
    PackedAt(c, data, 0);
    ghost var packed := B2s(c, data);
    Untouched(was, to);
    assert packed[..0] == [];
    for i := 0 to n + 1
      invariant symbols[..] == Splice(was, to, packed[..i])
    {
      PackedAt(c, data, i);
      ghost var mid := symbols[..];
      symbols[to + i] := c.encode[temp / Pow(2, c.bits * i) % Base(c)];
      assert symbols[..] == mid[to + i := packed[i]];
      Put(was, mid, to, packed, i);
    }
    k := n + 1;
    assert packed[..k] == packed;
  }

  lemma Untouched(was: seq<nat>, to: nat)
    requires to <= |was|
    ensures was == Splice(was, to, [])
  {
  }

  lemma Put(was: seq<nat>, mid: seq<nat>, to: nat, out: seq<nat>, i: nat)
    requires i < |out| && to + |out| <= |was| && mid == Splice(was, to, out[..i])
    ensures |mid| == |was| && mid[to + i := out[i]] == Splice(was, to, out[..i + 1])
  {
  }

  lemma NothingUnpacked(c: Codec, s: seq<nat>)
    requires Valid(c) && IsBytes(s) && |s| < 2
    ensures S2b(c, s) == []
  {
  }

  lemma NoDigits()
    ensures FromDigits([], 256) == 0
  {
  }

  lemma EncodeHead(c: Codec, head: seq<nat>, rest: seq<nat>)
    requires Valid(c) && IsBytes(head) && IsBytes(rest)
    requires |head| == ChunkBytes(c) || (|head| < ChunkBytes(c) && rest == [])
    ensures BytesToSymbols(c, head + rest) == B2s(c, head) + BytesToSymbols(c, rest)
  {
    hide B2s, Valid;
    if |head| == ChunkBytes(c) {
      EncodeAppend(c, head, rest);
    } else {
      assert head + rest == head;
      NothingPacked(c);
    }
  }

  lemma NothingEncoded(c: Codec)
    requires Valid(c)
    ensures BytesToSymbols(c, []) == [] && SymbolsToBytes(c, []) == []
  {
    NothingPacked(c);
  }

  /** Part of `all` has been written to the buffer from index `to` on; `rest` is still to come. */
  ghost predicate Written(all: seq<nat>, out: seq<nat>, rest: seq<nat>, was: seq<nat>, now: seq<nat>, to: nat) {
    all == out + rest && to + |all| <= |was| && now == Splice(was, to, out)
  }

  lemma NothingWritten(all: seq<nat>, was: seq<nat>, to: nat)
    requires to + |all| <= |was|
    ensures Written(all, [], all, was, was, to)
  {
    assert [] + all == all;
  }

  lemma WriteStep(all: seq<nat>, out: seq<nat>, chunk: seq<nat>, rest: seq<nat>, was: seq<nat>, mid: seq<nat>, to: nat)
    requires Written(all, out, chunk + rest, was, mid, to)
    ensures to + |out| + |chunk| <= |mid|
    ensures Written(all, out + chunk, rest, was, Splice(mid, to + |out|, chunk), to)
  {
    assert |mid| == |was|;
    assert mid[..to + |out|] == was[..to] + out;
    assert mid[to + |out| + |chunk|..] == was[to + |out + chunk|..];
  }

  lemma AllWritten(all: seq<nat>, out: seq<nat>, was: seq<nat>, now: seq<nat>, to: nat)
    requires Written(all, out, [], was, now, to)
    ensures all == out && to + |all| <= |was| && now == Splice(was, to, all)
  {
    assert out + [] == out;
  }

  /** What is left to read from index i on. */
  ghost function Rest(data: seq<nat>, i: nat): seq<nat> {
    if i < |data| then data[i..] else []
  }

  lemma NextChunk(data: seq<nat>, i: nat, full: nat, head: seq<nat>)
    requires IsBytes(data) && i < |data| && full > 0
    requires head == data[i..i + (if |data| - i < full then |data| - i else full)]
    ensures |head| == if |data| - i < full then |data| - i else full
    ensures IsBytes(head) && IsBytes(Rest(data, i + full)) && Rest(data, i) == head + Rest(data, i + full)
    ensures |head| < full ==> Rest(data, i + full) == []
  {
  }

  lemma AllRead(data: seq<nat>, i: nat)
    requires IsBytes(data)
    ensures i >= |data| ==> Rest(data, i) == []
    ensures Rest(data, 0) == data && IsBytes(Rest(data, i))
  {
  }

  lemma ArraySlice(a: array<nat>, from: nat, n: nat, i: nat, k: nat)
    requires from + n <= a.Length && i + k <= n
    ensures a[from..from + n][i..i + k] == a[from + i..from + i + k]
  {
    var s, t := a[from..from + n][i..i + k], a[from + i..from + i + k];
    assert forall j :: 0 <= j < k ==> s[j] == t[j];
  }

  /** bytes_to_symbols: pack a whole string of bytes, from symbols[to] on. */
  method Pack(c: Codec, bytes: array<nat>, nbytes: nat, symbols: array<nat>, to: nat) returns (nsym: nat)
    requires Valid(c) && nbytes <= bytes.Length && to + EncodedLength(c, nbytes) <= symbols.Length
    requires bytes != symbols && IsBytes(bytes[..nbytes])
    modifies symbols
    ensures nsym == |BytesToSymbols(c, bytes[..nbytes])| == EncodedLength(c, nbytes)
    ensures symbols[..] == Splice(old(symbols[..]), to, BytesToSymbols(c, bytes[..nbytes]))
  {
    hide *;
    ghost var data, was := bytes[0..nbytes], symbols[..];
    assert data == bytes[..nbytes];
    ghost var all, out: seq<nat> := BytesToSymbols(c, data), [];
    RoundTrip(c, data);
    SomeChunk(c);
    NothingWritten(all, was, to);
    AllRead(data, 0);
    nsym := 0;
    var i: nat := 0;
    while i < nbytes
      invariant nsym == |out| && bytes[0..nbytes] == data && IsBytes(Rest(data, i))
      invariant Written(all, out, BytesToSymbols(c, Rest(data, i)), was, symbols[..], to)
    {
      var k := if nbytes - i < ChunkBytes(c) then nbytes - i else ChunkBytes(c);
      ghost var head, mid := bytes[i..i + k], symbols[..];
      ArraySlice(bytes, 0, nbytes, i, k);
      NextChunk(data, i, ChunkBytes(c), head);
      ghost var rest := Rest(data, i + ChunkBytes(c));
      EncodeHead(c, head, rest);
      ChunkRoundTrip(c, head);
      WriteStep(all, out, B2s(c, head), BytesToSymbols(c, rest), was, mid, to);
      var x := PackChunk(c, bytes, i, k, symbols, to + nsym);
      out := out + B2s(c, head);
      nsym := nsym + x;
      i := i + ChunkBytes(c);
    }
    NothingEncoded(c);
    AllRead(data, i);
    AllWritten(all, out, was, symbols[..], to);
  }

  lemma SomeChunk(c: Codec)
    ensures ChunkBytes(c) == 3 || ChunkBytes(c) == 7
  {
  }

  /** Adding the next symbol's value, wrapping at 64 bits. */
  lemma UnpackStep(c: Codec, data: seq<nat>, i: nat)
    requires Valid(c) && IsBytes(data) && i < |data|
    ensures (FromDigits(Decoded(c, data[..i]), Base(c)) % WORD + c.decode[data[i]] * Pow(2, c.bits * i)) % WORD
         == FromDigits(Decoded(c, data[..i + 1]), Base(c)) % WORD
  {
    hide FromDigits, Pow;
    var ds, d := Decoded(c, data[..i]), c.decode[data[i]];
    assert Decoded(c, data[..i + 1]) == ds + [d];
    FromDigitsSnoc(ds, d, Base(c));
    BaseIsPow(c);
    PowPow(2, c.bits, i);
    WrapSum(FromDigits(ds, Base(c)), d * Pow(2, c.bits * i));
  }

  lemma WrapSum(a: int, b: int)
    ensures (a % WORD + b) % WORD == (a + b) % WORD
  {
  }

  lemma UnpackedAt(c: Codec, data: seq<nat>, i: nat)
    requires Valid(c) && IsBytes(data) && i + 1 < |data|
    ensures Pow(2, 8 * i) > 0
    ensures S2b(c, data)[i] == FromDigits(Decoded(c, data), Base(c)) % WORD / Pow(2, 8 * i) % 256
  {
    hide FromDigits, ToDigits, Pow, IsBytes, Decoded;
    ByteIsPow();
    MaskedIs(FromDigits(Decoded(c, data), Base(c)) % WORD, 8, |data| - 1, i);
  }

  lemma NothingDecoded(c: Codec)
    requires Valid(c)
    ensures FromDigits(Decoded(c, []), Base(c)) == 0
  {
  }

  /** _s2b: unpack up to a chunk of symbols. */
  method UnpackChunk(c: Codec, symbols: array<nat>, from: nat, n: nat, bytes: array<nat>, to: nat) returns (k: nat)
    requires Valid(c) && n <= ChunkBytes(c) + 1
    requires from + n <= symbols.Length && to + (if n < 2 then 0 else n - 1) <= bytes.Length
    requires bytes != symbols && IsBytes(symbols[from..from + n])
    modifies bytes
    ensures k == |S2b(c, symbols[from..from + n])|
    ensures bytes[..] == Splice(old(bytes[..]), to, S2b(c, symbols[from..from + n]))
  {
    hide S2b, FromDigits, ToDigits, Pow, Base, Decoded, Splice;
    ghost var data, was := symbols[from..from + n], bytes[..];
    if n < 2 {
      Untouched(was, to);
      NothingUnpacked(c, data);
      return 0;
    }
    var temp := 0;
    assert data[..0] == [];
    NothingDecoded(c);
    for i := 0 to n
      invariant temp == FromDigits(Decoded(c, data[..i]), Base(c)) % WORD && bytes[..] == was
    {
      UnpackStep(c, data, i);
      assert symbols[from + i] == data[i] < 256;
      temp := (temp + c.decode[symbols[from + i]] * Pow(2, c.bits * i)) % WORD;
    }
    assert data[..n] == data;
    ghost var unpacked := S2b(c, data);
    Untouched(was, to);
    assert unpacked[..0] == [];
    for i := 0 to n - 1
      invariant bytes[..] == Splice(was, to, unpacked[..i])
    {
      UnpackedAt(c, data, i);
      ghost var mid := bytes[..];
      bytes[to + i] := temp / Pow(2, 8 * i) % 256;
      assert bytes[..] == mid[to + i := unpacked[i]];
      Put(was, mid, to, unpacked, i);
    }
    k := n - 1;
    assert unpacked[..k] == unpacked;
  }

  lemma DecodeHead(c: Codec, head: seq<nat>, rest: seq<nat>)
    requires Valid(c) && IsBytes(head) && IsBytes(rest)
    requires |head| == ChunkBytes(c) + 1 || (|head| <= ChunkBytes(c) && rest == [])
    ensures IsBytes(head + rest) && SymbolsToBytes(c, head + rest) == S2b(c, head) + SymbolsToBytes(c, rest)
    ensures |S2b(c, head)| == if |head| < 2 then 0 else |head| - 1
  {
    hide Valid;
    if |head| == ChunkBytes(c) + 1 {
      DecodeAppend(c, head, rest);
    } else {
      assert head + rest == head;
    }
  }

  /** symbols_to_bytes: unpack a whole string of symbols, stopping at a chunk that is not full. */
  method Unpack(c: Codec, symbols: array<nat>, from: nat, nsym: nat, bytes: array<nat>) returns (nbyt: nat)
    requires Valid(c) && from + nsym <= symbols.Length && IsBytes(symbols[from..from + nsym])
    requires bytes != symbols && |SymbolsToBytes(c, symbols[from..from + nsym])| <= bytes.Length
    modifies bytes
    ensures nbyt == |SymbolsToBytes(c, symbols[from..from + nsym])|
    ensures bytes[..] == Splice(old(bytes[..]), 0, SymbolsToBytes(c, symbols[from..from + nsym]))
  {
    hide *;
    ghost var data, was := symbols[from..from + nsym], bytes[..];
    ghost var all, out: seq<nat> := SymbolsToBytes(c, data), [];
    SomeChunk(c);
    NothingWritten(all, was, 0);
    AllRead(data, 0);
    NothingEncoded(c);
    nbyt := 0;
    var i: nat := 0;
    while i < nsym
      invariant nbyt == |out| && symbols[from..from + nsym] == data && IsBytes(Rest(data, i))
      invariant Written(all, out, SymbolsToBytes(c, Rest(data, i)), was, bytes[..], 0)
    {
      var full := ChunkBytes(c) + 1;
      var k := if nsym - i < full then nsym - i else full;
      ghost var head, rest, mid := symbols[from + i..from + i + k], Rest(data, i + full), bytes[..];
      ArraySlice(symbols, from, nsym, i, k);
      NextChunk(data, i, full, head);
      DecodeHead(c, head, rest);
      WriteStep(all, out, S2b(c, head), SymbolsToBytes(c, rest), was, mid, 0);
      var x := UnpackChunk(c, symbols, from + i, k, bytes, nbyt);
      out, nbyt, i := out + S2b(c, head), nbyt + x, i + full;
      if x < ChunkBytes(c) {
        break;
      }
    }
    AllRead(data, i);
    AllWritten(all, out, was, bytes[..], 0);
  }
}
