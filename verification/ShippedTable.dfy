/**
 The tables the repository ships (radio2/src/symbols.i), made by `symbols.py 128 3 5 4 8 55 AA FF`.

 The two literal tables are lists of bytes; their facts are checked for all 256 bytes at
 once by the solver's bit-vector theory and then carried over to numbers, where the
 generator works.
 */
module ShippedTable {
  import Crc
  import opened Bytes
  import opened Digits
  import opened SymbolCodec
  import opened SymbolTable
  import Radio

  const START: nat := 0x55
  const END: nat := 0xAA
  const SYNC: nat := 0xFF

  // ---------- The literal tables ----------

  /** symbol_encode; there are 128 entries. */
  function EncodeWord(v: bv8): bv16 {
    if v < 8 then Crc.Row(v, 0xF7, 0xF6, 0xF5, 0xF4, 0xF3, 0xF2, 0xF1, 0xEF)
    else if v < 16 then Crc.Row(v, 0xEE, 0xED, 0xEC, 0xEB, 0xEA, 0xE9, 0xE7, 0xE6)
    else if v < 24 then Crc.Row(v, 0xE5, 0xE4, 0xE3, 0xE2, 0xDF, 0xDE, 0xDD, 0xDC)
    else if v < 32 then Crc.Row(v, 0xDB, 0xDA, 0xD9, 0xD7, 0xD6, 0xD5, 0xD4, 0xD3)
    else if v < 40 then Crc.Row(v, 0xD2, 0xD1, 0xCF, 0xCE, 0xCD, 0xCC, 0xCB, 0xCA)
    else if v < 48 then Crc.Row(v, 0xC9, 0xC7, 0xC6, 0xC5, 0xBE, 0xBD, 0xBC, 0xBB)
    else if v < 56 then Crc.Row(v, 0xBA, 0xB9, 0xB7, 0xB6, 0xB5, 0xB4, 0xB3, 0xB2)
    else if v < 64 then Crc.Row(v, 0xB1, 0xAF, 0xAE, 0xAD, 0xAC, 0xAB, 0xA9, 0xA7)
    else if v < 72 then Crc.Row(v, 0xA6, 0xA5, 0xA3, 0x9F, 0x9E, 0x9D, 0x9C, 0x9B)
    else if v < 80 then Crc.Row(v, 0x9A, 0x99, 0x97, 0x96, 0x95, 0x93, 0x8F, 0x8E)
    else if v < 88 then Crc.Row(v, 0x8D, 0x8B, 0x7D, 0x7C, 0x7B, 0x7A, 0x79, 0x77)
    else if v < 96 then Crc.Row(v, 0x76, 0x75, 0x74, 0x73, 0x72, 0x71, 0x6F, 0x6E)
    else if v < 104 then Crc.Row(v, 0x6D, 0x6C, 0x6B, 0x6A, 0x69, 0x67, 0x66, 0x65)
    else if v < 112 then Crc.Row(v, 0x63, 0x5F, 0x5E, 0x5D, 0x5C, 0x5B, 0x5A, 0x59)
    else if v < 120 then Crc.Row(v, 0x57, 0x56, 0x53, 0x4F, 0x4E, 0x4D, 0x4B, 0x47)
    else Crc.Row(v, 0x3E, 0x3D, 0x3C, 0x3B, 0x3A, 0x39, 0x37, 0x36)
  }

  /** symbol_decode, its negative entries in two's complement. */
  function DecodeWord(x: bv8): bv16 {
    if x < 0x08 then Crc.Row(x, 0xFF, 0xFF, 0xFF, 0xFF, 0xFF, 0xFF, 0xFF, 0xFF)
    else if x < 0x10 then Crc.Row(x, 0xFF, 0xFF, 0xFF, 0xFF, 0xFF, 0xFF, 0xFF, 0xFF)
    else if x < 0x18 then Crc.Row(x, 0xFF, 0xFF, 0xFF, 0xFF, 0xFF, 0xFF, 0xFF, 0xFF)
    else if x < 0x20 then Crc.Row(x, 0xFF, 0xFF, 0xFF, 0xFF, 0xFF, 0xFF, 0xFF, 0xFF)
    else if x < 0x28 then Crc.Row(x, 0xFF, 0xFF, 0xFF, 0xFF, 0xFF, 0xFF, 0xFF, 0xFF)
    else if x < 0x30 then Crc.Row(x, 0xFF, 0xFF, 0xFF, 0xFF, 0xFF, 0xFF, 0xFF, 0xFF)
    else if x < 0x38 then Crc.Row(x, 0xFF, 0xFF, 0xFF, 0xFF, 0xFF, 0xFF, 127, 126)
    else if x < 0x40 then Crc.Row(x, 0xFF, 125, 124, 123, 122, 121, 120, 0xFF)
    else if x < 0x48 then Crc.Row(x, 0xFF, 0xFF, 0xFF, 0xFF, 0xFF, 0xFF, 0xFF, 119)
    else if x < 0x50 then Crc.Row(x, 0xFF, 0xFF, 0xFF, 118, 0xFF, 117, 116, 115)
    else if x < 0x58 then Crc.Row(x, 0xFF, 0xFF, 0xFF, 114, 0xFF, 0xFE, 113, 112)
    else if x < 0x60 then Crc.Row(x, 0xFF, 111, 110, 109, 108, 107, 106, 105)
    else if x < 0x68 then Crc.Row(x, 0xFF, 0xFF, 0xFF, 104, 0xFF, 103, 102, 101)
    else if x < 0x70 then Crc.Row(x, 0xFF, 100, 99, 98, 97, 96, 95, 94)
    else if x < 0x78 then Crc.Row(x, 0xFF, 93, 92, 91, 90, 89, 88, 87)
    else if x < 0x80 then Crc.Row(x, 0xFF, 86, 85, 84, 83, 82, 0xFF, 0xFF)
    else if x < 0x88 then Crc.Row(x, 0xFF, 0xFF, 0xFF, 0xFF, 0xFF, 0xFF, 0xFF, 0xFF)
    else if x < 0x90 then Crc.Row(x, 0xFF, 0xFF, 0xFF, 81, 0xFF, 80, 79, 78)
    else if x < 0x98 then Crc.Row(x, 0xFF, 0xFF, 0xFF, 77, 0xFF, 76, 75, 74)
    else if x < 0xA0 then Crc.Row(x, 0xFF, 73, 72, 71, 70, 69, 68, 67)
    else if x < 0xA8 then Crc.Row(x, 0xFF, 0xFF, 0xFF, 66, 0xFF, 65, 64, 63)
    else if x < 0xB0 then Crc.Row(x, 0xFF, 62, 0xFD, 61, 60, 59, 58, 57)
    else if x < 0xB8 then Crc.Row(x, 0xFF, 56, 55, 54, 53, 52, 51, 50)
    else if x < 0xC0 then Crc.Row(x, 0xFF, 49, 48, 47, 46, 45, 44, 0xFF)
    else if x < 0xC8 then Crc.Row(x, 0xFF, 0xFF, 0xFF, 0xFF, 0xFF, 43, 42, 41)
    else if x < 0xD0 then Crc.Row(x, 0xFF, 40, 39, 38, 37, 36, 35, 34)
    else if x < 0xD8 then Crc.Row(x, 0xFF, 33, 32, 31, 30, 29, 28, 27)
    else if x < 0xE0 then Crc.Row(x, 0xFF, 26, 25, 24, 23, 22, 21, 20)
    else if x < 0xE8 then Crc.Row(x, 0xFF, 0xFF, 19, 18, 17, 16, 15, 14)
    else if x < 0xF0 then Crc.Row(x, 0xFF, 13, 12, 11, 10, 9, 8, 7)
    else if x < 0xF8 then Crc.Row(x, 0xFF, 6, 5, 4, 3, 2, 1, 0)
    else Crc.Row(x, 0xFF, 0xFF, 0xFF, 0xFF, 0xFF, 0xFF, 0xFF, 0xFC)
  }

  function EncodeEntry(v: bv8): bv8 {
    Crc.LowByte(EncodeWord(v))
  }

  function DecodeEntry(x: bv8): bv8 {
    Crc.LowByte(DecodeWord(x))
  }

  function Signed(d: bv8): int {
    if d < 0x80 then d as int else d as int - 256
  }

  function ShippedEncode(): (t: seq<nat>)
    ensures |t| == 128
  {
    seq(128, v requires 0 <= v < 128 => EncodeEntry(ByteOf(v)) as nat)
  }

  function ShippedDecode(): (t: seq<int>)
    ensures |t| == 256
  {
    seq(256, x requires 0 <= x < 256 => Signed(DecodeEntry(ByteOf(x))))
  }

  function Shipped(): Codec {
    Codec(7, ShippedEncode(), ShippedDecode())
  }

  /** The arguments in the header of the shipped file. */
  function Arguments(): Params {
    Params(128, 3, 5, 4, 8, [START, END, SYNC])
  }

  // ---------- All 256 bytes at once ----------

  lemma EncodeDecode(v: bv8)
    requires v < 128
    ensures DecodeEntry(EncodeEntry(v)) == v
  {
  }

  lemma DecodeEncode(x: bv8)
    requires DecodeEntry(x) < 128
    ensures EncodeEntry(DecodeEntry(x)) == x
  {
  }

  lemma EntriesDescend(v: bv8)
    requires v < 127
    ensures EncodeEntry(v) > EncodeEntry(v + 1) >= 0x36
  {
  }

  predicate BitOf(x: bv8, place: bv8) {
    x & place != 0
  }

  function B(b: bool): nat {
    if b then 1 else 0
  }

  /** No four ones in a row on the line, start bit included; the data bits appear inverted. */
  predicate FewOnes(b0: bool, b1: bool, b2: bool, b3: bool, b4: bool, b5: bool, b6: bool, b7: bool) {
    (b0 || b1 || b2) && (b1 || b2 || b3 || b4) && (b2 || b3 || b4 || b5) && (b3 || b4 || b5 || b6) && (b4 || b5 || b6 || b7)
  }

  /** No six zeros in a row on the line, stop bit included. */
  predicate FewZeros(b0: bool, b1: bool, b2: bool, b3: bool, b4: bool, b5: bool, b6: bool, b7: bool) {
    !(b0 && b1 && b2 && b3 && b4 && b5) && !(b1 && b2 && b3 && b4 && b5 && b6) && !(b3 && b4 && b5 && b6 && b7)
  }

  predicate GoodBits(b0: bool, b1: bool, b2: bool, b3: bool, b4: bool, b5: bool, b6: bool, b7: bool) {
    && B(b0) + B(b1) + B(b2) + B(b3) + B(b4) + B(b5) + B(b6) + B(b7) >= 4
    && FewOnes(b0, b1, b2, b3, b4, b5, b6, b7) && FewZeros(b0, b1, b2, b3, b4, b5, b6, b7)
  }

  predicate GoodByte(x: bv8) {
    && x != 0x55 && x != 0xAA && x != 0xFF
    && GoodBits(BitOf(x, 0x01), BitOf(x, 0x02), BitOf(x, 0x04), BitOf(x, 0x08),
                BitOf(x, 0x10), BitOf(x, 0x20), BitOf(x, 0x40), BitOf(x, 0x80))
  }

  lemma EntriesAreGood(x: bv8)
    requires DecodeEntry(x) < 128
    ensures x >= 0x36 && GoodByte(x)
  {
  }

  lemma GoodHasEntry(x: bv8)
    requires x >= 0x36 && GoodByte(x)
    ensures DecodeEntry(x) < 128
  {
  }

  lemma OtherEntries(x: bv8)
    requires DecodeEntry(x) >= 128
    ensures DecodeEntry(x) == if x == 0x55 then 0xFE else if x == 0xAA then 0xFD else if x == 0xFF then 0xFC else 0xFF
  {
  }

  lemma ByteValue(x: bv8)
    ensures x as nat == B(BitOf(x, 0x01)) + 2 * B(BitOf(x, 0x02)) + 4 * B(BitOf(x, 0x04)) + 8 * B(BitOf(x, 0x08))
                      + 16 * B(BitOf(x, 0x10)) + 32 * B(BitOf(x, 0x20)) + 64 * B(BitOf(x, 0x40)) + 128 * B(BitOf(x, 0x80))
  {
  }

  // ---------- From bits to the generator's numbers ----------

  function ValueOf(bs: seq<bool>): nat {
    if bs == [] then 0 else B(bs[0]) + 2 * ValueOf(bs[1..])
  }

  function Count(bs: seq<bool>): nat {
    if bs == [] then 0 else B(bs[0]) + Count(bs[1..])
  }

  lemma {:induction false} AndBit(bs: seq<bool>, k: nat)
    ensures And(ValueOf(bs), Pow(2, k)) == 0 <==> k >= |bs| || !bs[k]
    decreases k
  {
    if bs != [] {
      hide And;
      var h := ValueOf(bs[1..]);
      AndStep(ValueOf(bs), Pow(2, k));
      if k == 0 {
        AndZero(h);
      } else {
        AndBit(bs[1..], k - 1);
        assert Pow(2, k) == 2 * Pow(2, k - 1);
      }
    }
  }

  lemma AndZero(h: nat)
    ensures And(h, 0) == 0
  {
  }

  lemma {:induction false} OnesCount(bs: seq<bool>)
    ensures Ones(ValueOf(bs)) == Count(bs)
    decreases |bs|
  {
    if bs != [] {
      hide Ones;
      OnesCount(bs[1..]);
      OnesStep(ValueOf(bs), ValueOf(bs[1..]));
    } else {
      NoOnes();
    }
  }

  lemma NoOnes()
    ensures Ones(0) == 0
  {
  }

  lemma LineIs(bs: seq<bool>)
    requires |bs| == 8
    ensures Line(ValueOf(bs))[0] && !Line(ValueOf(bs))[9]
    ensures var x := Line(ValueOf(bs));
      && x[1] == !bs[0] && x[2] == !bs[1] && x[3] == !bs[2] && x[4] == !bs[3]
      && x[5] == !bs[4] && x[6] == !bs[5] && x[7] == !bs[6] && x[8] == !bs[7]
  {
    hide And, Pow, ValueOf;
    forall k: nat | k < 8 ensures And(ValueOf(bs), Pow(2, k)) == 0 <==> !bs[k] {
      AndBit(bs, k);
    }
  }

  lemma Unfold(b: bool, rest: seq<bool>)
    ensures ValueOf([b] + rest) == B(b) + 2 * ValueOf(rest) && Count([b] + rest) == B(b) + Count(rest)
  {
    assert ([b] + rest)[1..] == rest;
  }

  lemma FourUnfold(b0: bool, b1: bool, b2: bool, b3: bool, bs: seq<bool>)
    ensures ValueOf([b0, b1, b2, b3] + bs) == B(b0) + 2 * B(b1) + 4 * B(b2) + 8 * B(b3) + 16 * ValueOf(bs)
    ensures Count([b0, b1, b2, b3] + bs) == B(b0) + B(b1) + B(b2) + B(b3) + Count(bs)
  {
    hide *;
    Unfold(b3, bs);
    Unfold(b2, [b3] + bs);
    Unfold(b1, [b2] + ([b3] + bs));
    Unfold(b0, [b1] + ([b2] + ([b3] + bs)));
    assert [b0, b1, b2, b3] + bs == [b0] + ([b1] + ([b2] + ([b3] + bs)));
  }

  lemma EightUnfold(b0: bool, b1: bool, b2: bool, b3: bool, b4: bool, b5: bool, b6: bool, b7: bool)
    ensures var bs := [b0, b1, b2, b3, b4, b5, b6, b7];
      && ValueOf(bs) == B(b0) + 2 * B(b1) + 4 * B(b2) + 8 * B(b3) + 16 * B(b4) + 32 * B(b5) + 64 * B(b6) + 128 * B(b7)
      && Count(bs) == B(b0) + B(b1) + B(b2) + B(b3) + B(b4) + B(b5) + B(b6) + B(b7)
  {
    hide *;
    FourUnfold(b0, b1, b2, b3, [b4, b5, b6, b7]);
    FourUnfold(b4, b5, b6, b7, []);
    assert [b0, b1, b2, b3] + [b4, b5, b6, b7] == [b0, b1, b2, b3, b4, b5, b6, b7];
    assert [b4, b5, b6, b7] + [] == [b4, b5, b6, b7];
    NothingUnfolds();
  }

  lemma NothingUnfolds()
    ensures ValueOf([]) == 0 && Count([]) == 0
  {
  }

  lemma BreaksRun(x: seq<bool>, b: bool, i: nat, n: nat, k: nat)
    requires i <= k <= i + n && k < |x| && x[k] != b
    ensures !LongRun(x, b, i, n)
  {
  }

  lemma OnesRuns(x: seq<bool>)
    requires |x| == 10 && x[0] && !x[9]
    ensures RunsUpTo(x, true, 3) <==> FewOnes(!x[1], !x[2], !x[3], !x[4], !x[5], !x[6], !x[7], !x[8])
  {
    if RunsUpTo(x, true, 3) {
      assert !LongRun(x, true, 0, 3) && !LongRun(x, true, 2, 3) && !LongRun(x, true, 3, 3);
      assert !LongRun(x, true, 4, 3) && !LongRun(x, true, 5, 3);
    }
    if FewOnes(!x[1], !x[2], !x[3], !x[4], !x[5], !x[6], !x[7], !x[8]) {
      forall i: nat ensures !LongRun(x, true, i, 3) {
        if i + 3 < 10 {
          BreaksRun(x, true, i, 3, if !x[i] then i else if !x[i + 1] then i + 1 else if !x[i + 2] then i + 2 else i + 3);
        }
      }
    }
  }

  lemma ZerosRuns(x: seq<bool>)
    requires |x| == 10 && x[0] && !x[9]
    ensures RunsUpTo(x, false, 5) <==> FewZeros(!x[1], !x[2], !x[3], !x[4], !x[5], !x[6], !x[7], !x[8])
  {
    if RunsUpTo(x, false, 5) {
      assert !LongRun(x, false, 1, 5) && !LongRun(x, false, 2, 5) && !LongRun(x, false, 4, 5);
    }
    if FewZeros(!x[1], !x[2], !x[3], !x[4], !x[5], !x[6], !x[7], !x[8]) {
      forall i: nat ensures !LongRun(x, false, i, 5) {
        if i + 5 < 10 {
          BreaksRun(x, false, i, 5, if x[i] then i else if x[i + 1] then i + 1 else if x[i + 2] then i + 2
                                    else if x[i + 3] then i + 3 else if x[i + 4] then i + 4 else i + 5);
        }
      }
    }
  }

  /** The bits decide what the generator asks of a number. */
  lemma GoodBitsIff(s: nat, b0: bool, b1: bool, b2: bool, b3: bool, b4: bool, b5: bool, b6: bool, b7: bool)
    requires s == B(b0) + 2 * B(b1) + 4 * B(b2) + 8 * B(b3) + 16 * B(b4) + 32 * B(b5) + 64 * B(b6) + 128 * B(b7)
    ensures 4 <= Ones(s) <= 8 && Match(Line(s), 3, 5) <==> GoodBits(b0, b1, b2, b3, b4, b5, b6, b7)
  {
    var bs := [b0, b1, b2, b3, b4, b5, b6, b7];
    EightUnfold(b0, b1, b2, b3, b4, b5, b6, b7);
    hide Ones, Match, Line, ValueOf, Count, FewOnes, FewZeros, RunsUpTo;
    OnesCount(bs);
    LineIs(bs);
    MatchIffRuns(Line(s), 3, 5);
    OnesRuns(Line(s));
    ZerosRuns(Line(s));
  }

  lemma GoodByteIs(x: bv8)
    ensures GoodByte(x) <==>
      && x != 0x55 && x != 0xAA && x != 0xFF
      && GoodBits(BitOf(x, 0x01), BitOf(x, 0x02), BitOf(x, 0x04), BitOf(x, 0x08),
                  BitOf(x, 0x10), BitOf(x, 0x20), BitOf(x, 0x40), BitOf(x, 0x80))
  {
  }

  lemma GoodIs(s: nat)
    ensures Good(Arguments(), s) <==> s !in [START, END, SYNC] && 4 <= Ones(s) <= 8 && Match(Line(s), 3, 5)
  {
    hide Ones, Match, Line;
  }

  lemma GoodIffGoodByte(x: bv8)
    ensures Good(Arguments(), x as nat) <==> GoodByte(x)
  {
    hide *;
    ByteValue(x);
    GoodIs(x as nat);
    GoodByteIs(x);
    GoodBitsIff(x as nat, BitOf(x, 0x01), BitOf(x, 0x02), BitOf(x, 0x04), BitOf(x, 0x08),
                BitOf(x, 0x10), BitOf(x, 0x20), BitOf(x, 0x40), BitOf(x, 0x80));
    NotReservedIff(x);
  }

  lemma NotReservedIff(x: bv8)
    ensures x as nat !in [START, END, SYNC] <==> x != 0x55 && x != 0xAA && x != 0xFF
  {
    SameOrder(x, 0x55);
    SameOrder(x, 0xAA);
    SameOrder(x, 0xFF);
  }

  // ---------- The shipped table is the generated one ----------

  predicate Descending(s: seq<nat>) {
    forall i, j :: 0 <= i < j < |s| ==> s[i] > s[j]
  }

  /** A descending list is a prefix of another if it holds all the entries down to its own last. */
  lemma {:induction false} SamePrefix(d: seq<nat>, s: seq<nat>, n: nat)
    requires Descending(d) && Descending(s) && s != [] && n <= |s|
    requires forall x :: x in s ==> x in d
    requires forall x :: x in d && x >= s[|s| - 1] ==> x in s
    ensures n <= |d| && d[..n] == s[..n]
  {
    if n > 0 {
      SamePrefix(d, s, n - 1);
      assert s[n - 1] in d;
      var j :| 0 <= j < |d| && d[j] == s[n - 1];
      AtOrAfter(d, s, n - 1, j);
      assert d[n - 1] in s;
      var m :| 0 <= m < |s| && s[m] == d[n - 1];
      AtOrAfter(s, d, n - 1, m);
    }
  }

  lemma AtOrAfter(d: seq<nat>, s: seq<nat>, k: nat, j: nat)
    requires Descending(d) && Descending(s) && k < |s| && k <= |d| && d[..k] == s[..k]
    requires j < |d| && d[j] == s[k]
    ensures j >= k
  {
    assert forall i :: 0 <= i < k ==> d[..k][i] == s[..k][i];
  }

  lemma SmallByte(v: nat)
    requires v < 256
    ensures v < 128 <==> ByteOf(v) < 128
    ensures v < 127 <==> ByteOf(v) < 127
    ensures v < 127 ==> ByteOf(v + 1) == ByteOf(v) + 1
  {
    SameOrder(ByteOf(v), 128);
    SameOrder(ByteOf(v), 127);
  }

  lemma LastEntry()
    ensures EncodeEntry(ByteOf(127)) == 0x36
  {
    hide ByteOf;
    SameOrder(ByteOf(127), 127);
  }

  /** One entry of the encoding table. */
  lemma EntryAt(v: nat)
    requires v < 128
    ensures var x := ShippedEncode()[v]; 0x36 <= x < 256 && Good(Arguments(), x) && ShippedDecode()[x] == v
    ensures v < 127 ==> ShippedEncode()[v] > ShippedEncode()[v + 1]
    ensures v == 127 ==> ShippedEncode()[v] == 0x36
  {
    hide EncodeEntry, DecodeEntry, Good, GoodByte, ByteOf, Signed;
    var b := ByteOf(v);
    var e := EncodeEntry(b);
    SmallByte(v);
    EncodeDecode(b);
    EntriesAreGood(e);
    GoodIffGoodByte(e);
    ByteAndBack(e);
    SameOrder(0x36, e);
    SignedSmall(b, v);
    if v < 127 {
      EntriesDescend(b);
      SameOrder(EncodeEntry(b + 1), e);
    } else {
      LastEntry();
    }
  }

  lemma SignedSmall(d: bv8, v: nat)
    requires d < 0x80 && d as nat == v
    ensures Signed(d) == v
  {
  }

  /** One entry of the decoding table. */
  lemma DecodeAt(x: nat)
    requires x < 256
    ensures var d := ShippedDecode()[x];
      && (d >= 0 ==> d < 128 && ShippedEncode()[d] == x && x != START && x != END && x != SYNC)
      && (d < 0 ==> d == if x == START then -2 else if x == END then -3 else if x == SYNC then -4 else -1)
      && (x >= 0x36 && Good(Arguments(), x) ==> d >= 0)
  {
    hide EncodeEntry, DecodeEntry, Good, GoodByte, ByteOf;
    var b := ByteOf(x);
    GoodIffGoodByte(b);
    SameOrder(b, 0x36);
    var d := DecodeEntry(b);
    ByteAndBack(d);
    SameOrder(d, 0x80);
    if d < 128 {
      DecodeEncode(b);
      EntriesAreGood(b);
      GoodIs(x);
    } else {
      OtherEntries(b);
      SameOrder(b, 0x55);
      SameOrder(b, 0xAA);
      SameOrder(b, 0xFF);
      if b >= 0x36 && GoodByte(b) {
        GoodHasEntry(b);
      }
    }
  }

  lemma {:induction false} ShippedDescends(i: nat, j: nat)
    requires i < j < 128
    ensures ShippedEncode()[i] > ShippedEncode()[j]
    decreases j
  {
    hide ShippedEncode;
    EntryAt(j - 1);
    if i < j - 1 {
      ShippedDescends(i, j - 1);
    }
  }

  /** Main result: the shipped tables are the generated ones, and undo each other. */
  lemma ShippedIsGenerated()
    ensures ShippedEncode() == Chosen(Arguments())
    ensures Inverse(ShippedEncode(), ShippedDecode(), Arguments().reserved)
    ensures ShippedDecode()[START] == -2 && ShippedDecode()[END] == -3 && ShippedDecode()[SYNC] == -4
  {
    hide ShippedEncode, ShippedDecode, Good, Found, Reversed;
    var s, d := ShippedEncode(), Ordered(Arguments());
    forall i, j | 0 <= i < j < 128 ensures s[i] > s[j] {
      ShippedDescends(i, j);
    }
    forall v | 0 <= v < 128 ensures 0x36 <= s[v] < 256 && Good(Arguments(), s[v]) && ShippedDecode()[s[v]] == v {
      EntryAt(v);
    }
    forall x | 0 <= x < 256 && Good(Arguments(), x) && x >= 0x36 ensures x in s {
      DecodeAt(x);
    }
    EntryAt(127);
    DecodeAt(START);
    DecodeAt(END);
    DecodeAt(SYNC);
    OrderedIs(Arguments());
    SamePrefix(d, s, 128);
    assert s[..128] == s;
    assert |d| == 128 ==> d[..128] == d;
    forall x | 0 <= x < 256
      ensures ShippedDecode()[x] >= 0 ==> ShippedDecode()[x] < 128 && s[ShippedDecode()[x]] == x
      ensures ShippedDecode()[x] <= -2 <==> x == START || x == END || x == SYNC
    {
      DecodeAt(x);
    }
  }

  lemma OrderedIs(p: Params)
    requires 8 - p.maxbits < p.minbits
    ensures Descending(Ordered(p))
    ensures forall x :: x in Ordered(p) <==> x < 256 && Good(p, x)
  {
    hide Good, Found;
    FoundIs(p, 0, 256);
    ReversedMembers(Found(p, 0, 256));
  }

  /** The shipped codec is valid, and the three framing symbols stand for no value. */
  lemma ShippedIsValid()
    ensures Valid(Shipped())
    ensures ShippedDecode()[START] < 0 && ShippedDecode()[END] < 0 && ShippedDecode()[SYNC] < 0
  {
    hide ShippedEncode, ShippedDecode;
    ShippedIsGenerated();
    InverseMakesCodec(ShippedEncode(), ShippedDecode(), Arguments().reserved, 7);
  }

  lemma ReservedBits()
    ensures GoodBits(true, false, true, false, true, false, true, false)
    ensures GoodBits(false, true, false, true, false, true, false, true)
  {
  }

  lemma LongZeros(x: seq<bool>)
    requires |x| == 10 && !x[1] && !x[2] && !x[3] && !x[4] && !x[5] && !x[6] && !x[7] && !x[8] && !x[9]
    ensures LongRun(x, false, 1, 8) && !RunsUpTo(x, false, 5)
  {
    assert LongRun(x, false, 1, 5);
  }

  lemma SyncOnTheLine()
    ensures !Match(Line(SYNC), 3, 5) && LongRun(Line(SYNC), false, 1, 8)
  {
    hide Match, Line, Ones, ValueOf, LongRun, RunsUpTo, Count;
    var bs := [true, true, true, true, true, true, true, true];
    EightUnfold(true, true, true, true, true, true, true, true);
    LineIs(bs);
    MatchIffRuns(Line(SYNC), 3, 5);
    LongZeros(Line(SYNC));
  }

  /** The start and end symbols keep the line's runs short too; the sync symbol is one long run and cannot be data. */
  lemma ReservedOnTheLine()
    ensures Match(Line(START), 3, 5) && Match(Line(END), 3, 5)
    ensures !Match(Line(SYNC), 3, 5) && LongRun(Line(SYNC), false, 1, 8)
  {
    hide Match, Line, Ones, GoodBits, LongRun;
    ReservedBits();
    GoodBitsIff(START, true, false, true, false, true, false, true, false);
    GoodBitsIff(END, false, true, false, true, false, true, false, true);
    SyncOnTheLine();
  }

  /** Everything on the line but the sync symbols keeps the limits of three ones and five zeros. */
  lemma ShippedLineHasNoLongRuns(symbols: seq<nat>)
    requires symbols != []
    requires forall i :: 0 <= i < |symbols| ==> symbols[i] in ShippedEncode() || symbols[i] == START || symbols[i] == END
    ensures Runs(LineOf(symbols), 3, 5)
  {
    hide Line, LineOf, Match, Runs, Chosen, ShippedEncode, ShippedDecode, LongRun, Inverse;
    ShippedIsGenerated();
    ReservedOnTheLine();
    ChosenIs(Arguments());
    forall i | 0 <= i < |symbols| ensures Match(Line(symbols[i]), 3, 5) {
      if symbols[i] in ShippedEncode() {
        var k :| 0 <= k < |ShippedEncode()| && ShippedEncode()[k] == symbols[i];
        GoodIs(ShippedEncode()[k]);
      }
    }
    LineHasNoLongRuns(symbols, 3, 5);
  }

  /** So everything proved about framing holds for the shipped symbols. */
  lemma ShippedLink()
    ensures Radio.ValidLink(Radio.Link(Shipped(), START, END, SYNC))
  {
    hide ShippedEncode, ShippedDecode, Valid;
    ShippedIsValid();
  }

  /** A string of valid symbols that decoding and encoding does not give back: the symbol 0xF7 alone. */
  lemma LoneSymbolIsLost()
    ensures Valid(Shipped()) && ShippedDecode()[0xF7] == 0
    ensures BytesToSymbols(Shipped(), SymbolsToBytes(Shipped(), [0xF7])) == []
  {
    hide ShippedEncode, ShippedDecode, EncodeEntry, Valid, BytesToSymbols, SymbolsToBytes;
    ShippedIsValid();
    FirstEntry();
    EntryAt(0);
    LoneSymbol(Shipped(), 0xF7);
  }

  lemma FirstEntry()
    ensures ShippedEncode()[0] == 0xF7
  {
    hide EncodeEntry;
    assert ByteOf(0) == 0;
    FirstByte();
    SameOrder(EncodeEntry(0), 0xF7);
  }

  lemma FirstByte()
    ensures EncodeEntry(0) == 0xF7
  {
  }
}
