/**
 The CRC-16 of the radio link (radio2/src/crc.c): generator x^16 + x^12 + x^5 + 1,
 register preset to all ones, most significant bit first, no reflection.

 A byte is a `bv8`, the register a `bv16`.  The table-driven loop of the source is
 tied to the bit-serial register that its table abbreviates; the modules
 CrcDivision and CrcDetection reason about the bit-serial form only.

 Bit-level facts are proved once, by the solver's bit-vector theory, and then used
 with Shift and Xor hidden, as an algebra of remainders.
 */
module Crc {

  // ---------- The lookup table ----------

  function Row(i: bv8, c0: bv16, c1: bv16, c2: bv16, c3: bv16, c4: bv16, c5: bv16, c6: bv16, c7: bv16): bv16 {
    var k := i & 7;
    if k < 4 then
      if k < 2 then (if k == 0 then c0 else c1) else (if k == 2 then c2 else c3)
    else
      if k < 6 then (if k == 4 then c4 else c5) else (if k == 6 then c6 else c7)
  }

  /** The 256-entry table, in the 32 rows of eight in which the source lists it. */
  function CrcTable(i: bv8): bv16 {
    if i < 0x08 then Row(i, 0x0000, 0x1021, 0x2042, 0x3063, 0x4084, 0x50a5, 0x60c6, 0x70e7)
    else if i < 0x10 then Row(i, 0x8108, 0x9129, 0xa14a, 0xb16b, 0xc18c, 0xd1ad, 0xe1ce, 0xf1ef)
    else if i < 0x18 then Row(i, 0x1231, 0x0210, 0x3273, 0x2252, 0x52b5, 0x4294, 0x72f7, 0x62d6)
    else if i < 0x20 then Row(i, 0x9339, 0x8318, 0xb37b, 0xa35a, 0xd3bd, 0xc39c, 0xf3ff, 0xe3de)
    else if i < 0x28 then Row(i, 0x2462, 0x3443, 0x0420, 0x1401, 0x64e6, 0x74c7, 0x44a4, 0x5485)
    else if i < 0x30 then Row(i, 0xa56a, 0xb54b, 0x8528, 0x9509, 0xe5ee, 0xf5cf, 0xc5ac, 0xd58d)
    else if i < 0x38 then Row(i, 0x3653, 0x2672, 0x1611, 0x0630, 0x76d7, 0x66f6, 0x5695, 0x46b4)
    else if i < 0x40 then Row(i, 0xb75b, 0xa77a, 0x9719, 0x8738, 0xf7df, 0xe7fe, 0xd79d, 0xc7bc)
    else if i < 0x48 then Row(i, 0x48c4, 0x58e5, 0x6886, 0x78a7, 0x0840, 0x1861, 0x2802, 0x3823)
    else if i < 0x50 then Row(i, 0xc9cc, 0xd9ed, 0xe98e, 0xf9af, 0x8948, 0x9969, 0xa90a, 0xb92b)
    else if i < 0x58 then Row(i, 0x5af5, 0x4ad4, 0x7ab7, 0x6a96, 0x1a71, 0x0a50, 0x3a33, 0x2a12)
    else if i < 0x60 then Row(i, 0xdbfd, 0xcbdc, 0xfbbf, 0xeb9e, 0x9b79, 0x8b58, 0xbb3b, 0xab1a)
    else if i < 0x68 then Row(i, 0x6ca6, 0x7c87, 0x4ce4, 0x5cc5, 0x2c22, 0x3c03, 0x0c60, 0x1c41)
    else if i < 0x70 then Row(i, 0xedae, 0xfd8f, 0xcdec, 0xddcd, 0xad2a, 0xbd0b, 0x8d68, 0x9d49)
    else if i < 0x78 then Row(i, 0x7e97, 0x6eb6, 0x5ed5, 0x4ef4, 0x3e13, 0x2e32, 0x1e51, 0x0e70)
    else if i < 0x80 then Row(i, 0xff9f, 0xefbe, 0xdfdd, 0xcffc, 0xbf1b, 0xaf3a, 0x9f59, 0x8f78)
    else if i < 0x88 then Row(i, 0x9188, 0x81a9, 0xb1ca, 0xa1eb, 0xd10c, 0xc12d, 0xf14e, 0xe16f)
    else if i < 0x90 then Row(i, 0x1080, 0x00a1, 0x30c2, 0x20e3, 0x5004, 0x4025, 0x7046, 0x6067)
    else if i < 0x98 then Row(i, 0x83b9, 0x9398, 0xa3fb, 0xb3da, 0xc33d, 0xd31c, 0xe37f, 0xf35e)
    else if i < 0xA0 then Row(i, 0x02b1, 0x1290, 0x22f3, 0x32d2, 0x4235, 0x5214, 0x6277, 0x7256)
    else if i < 0xA8 then Row(i, 0xb5ea, 0xa5cb, 0x95a8, 0x8589, 0xf56e, 0xe54f, 0xd52c, 0xc50d)
    else if i < 0xB0 then Row(i, 0x34e2, 0x24c3, 0x14a0, 0x0481, 0x7466, 0x6447, 0x5424, 0x4405)
    else if i < 0xB8 then Row(i, 0xa7db, 0xb7fa, 0x8799, 0x97b8, 0xe75f, 0xf77e, 0xc71d, 0xd73c)
    else if i < 0xC0 then Row(i, 0x26d3, 0x36f2, 0x0691, 0x16b0, 0x6657, 0x7676, 0x4615, 0x5634)
    else if i < 0xC8 then Row(i, 0xd94c, 0xc96d, 0xf90e, 0xe92f, 0x99c8, 0x89e9, 0xb98a, 0xa9ab)
    else if i < 0xD0 then Row(i, 0x5844, 0x4865, 0x7806, 0x6827, 0x18c0, 0x08e1, 0x3882, 0x28a3)
    else if i < 0xD8 then Row(i, 0xcb7d, 0xdb5c, 0xeb3f, 0xfb1e, 0x8bf9, 0x9bd8, 0xabbb, 0xbb9a)
    else if i < 0xE0 then Row(i, 0x4a75, 0x5a54, 0x6a37, 0x7a16, 0x0af1, 0x1ad0, 0x2ab3, 0x3a92)
    else if i < 0xE8 then Row(i, 0xfd2e, 0xed0f, 0xdd6c, 0xcd4d, 0xbdaa, 0xad8b, 0x9de8, 0x8dc9)
    else if i < 0xF0 then Row(i, 0x7c26, 0x6c07, 0x5c64, 0x4c45, 0x3ca2, 0x2c83, 0x1ce0, 0x0cc1)
    else if i < 0xF8 then Row(i, 0xef1f, 0xff3e, 0xcf5d, 0xdf7c, 0xaf9b, 0xbfba, 0x8fd9, 0x9ff8)
    else Row(i, 0x6e17, 0x7e36, 0x4e55, 0x5e74, 0x2e93, 0x3eb2, 0x0ed1, 0x1ef0)
  }

  // ---------- Remainders modulo the generator ----------

  const PRESET: bv16 := 0xFFFF

  /** Addition of remainders. */
  function Xor(r: bv16, s: bv16): bv16 {
    r ^ s
  }

  /** Multiplication by x: the bit leaving at the top comes back as x^12 + x^5 + 1. */
  function Shift(r: bv16): bv16 {
    (r << 1) ^ (r >> 15) ^ ((r >> 15) << 5) ^ ((r >> 15) << 12)
  }

  /** Multiplication by x^n. */
  function ShiftBy(r: bv16, n: nat): bv16
    decreases n
  {
    if n == 0 then r else ShiftBy(Shift(r), n - 1)
  }

  // ---------- The bit-serial register ----------

  function TopBit(bit: bool): bv16 {
    if bit then 0x8000 else 0
  }

  /** One message bit enters at the top of the register. */
  function Feed(r: bv16, bit: bool): bv16 {
    Shift(Xor(r, TopBit(bit)))
  }

  function FeedAll(r: bv16, bits: seq<bool>): bv16
    decreases |bits|
  {
    if bits == [] then r else FeedAll(Feed(r, bits[0]), bits[1..])
  }

  predicate BitOf(b: bv8, place: bv8) {
    b & place != 0
  }

  /** The bits of a byte, most significant first. */
  function ByteBits(b: bv8): (bits: seq<bool>)
    ensures |bits| == 8
  {
    [BitOf(b, 0x80), BitOf(b, 0x40), BitOf(b, 0x20), BitOf(b, 0x10),
     BitOf(b, 0x08), BitOf(b, 0x04), BitOf(b, 0x02), BitOf(b, 0x01)]
  }

  function BitsOf(bytes: seq<bv8>): (bits: seq<bool>)
    ensures |bits| == 8 * |bytes|
  {
    if bytes == [] then [] else BitsOf(bytes[..|bytes| - 1]) + ByteBits(bytes[|bytes| - 1])
  }

  // ---------- The table-driven step ----------

  function HighByte(r: bv16): bv8 {
    (r >> 8) as bv8
  }

  function LowByte(r: bv16): bv8 {
    (r & 0xFF) as bv8
  }

  function AtTop(b: bv8): bv16 {
    (b as bv16) << 8
  }

  /** The two stored check bytes, low byte first, as a number. */
  function Word(low: bv8, high: bv8): bv16 {
    (low as bv16) + ((high as bv16) << 8)
  }

  function CrcByte(r: bv16, b: bv8): bv16 {
    CrcTable(HighByte(r) ^ b) ^ (r << 8)
  }

  function CrcFrom(r: bv16, bytes: seq<bv8>): bv16
    decreases |bytes|
  {
    if bytes == [] then r else CrcByte(CrcFrom(r, bytes[..|bytes| - 1]), bytes[|bytes| - 1])
  }

  function CrcOf(bytes: seq<bv8>): bv16 {
    CrcFrom(PRESET, bytes)
  }

  // ---------- Bit-level facts ----------

  lemma XorLaws(a: bv16, b: bv16, c: bv16)
    ensures Xor(Xor(a, b), c) == Xor(a, Xor(b, c))
    ensures Xor(a, b) == Xor(b, a)
    ensures Xor(a, a) == 0 && Xor(a, 0) == a && Xor(0, a) == a
    ensures Xor(a, b) == 0 <==> a == b
  {
  }

  lemma ShiftXorBits(r: bv16, s: bv16)
    ensures Shift(r ^ s) == Shift(r) ^ Shift(s)
  {
  }

  lemma ShiftAdditive(r: bv16, s: bv16)
    ensures Shift(Xor(r, s)) == Xor(Shift(r), Shift(s))
  {
    hide Shift;
    ShiftXorBits(r, s);
  }

  lemma ShiftInjective(r: bv16, s: bv16)
    requires Shift(r) == Shift(s)
    ensures r == s
  {
  }

  lemma ShiftZero()
    ensures Shift(0) == 0
  {
  }

  lemma ShiftDropsTopBit(v: bv16)
    requires v & 0x8000 != 0
    ensures Shift(v ^ 0x8000) == v << 1
  {
  }

  lemma ShiftWithoutTopBit(v: bv16)
    requires v & 0x8000 == 0
    ensures Shift(v) == v << 1
  {
  }

  /** Adding a word and then shifting: its top bit is fed, the rest moves up unreduced. */
  lemma ShiftTakesTopBit(r: bv16, v: bv16)
    ensures Shift(Xor(r, v)) == Xor(Feed(r, v & 0x8000 != 0), v << 1)
  {
    var t := TopBit(v & 0x8000 != 0);
    var rest := Xor(v, t);
    assert Shift(rest) == v << 1 by {
      hide Shift;
      if v & 0x8000 != 0 {
        ShiftDropsTopBit(v);
      } else {
        ShiftWithoutTopBit(v);
      }
    }
    hide Shift, Xor, TopBit;
    XorLaws(r, t, rest);
    XorLaws(t, v, t);
    XorLaws(v, t, t);
    ShiftAdditive(Xor(r, t), rest);
  }

  lemma {:induction false} ShiftByAdditive(r: bv16, s: bv16, n: nat)
    ensures ShiftBy(Xor(r, s), n) == Xor(ShiftBy(r, n), ShiftBy(s, n))
    decreases n
  {
    hide Shift, Xor;
    if n > 0 {
      ShiftAdditive(r, s);
      ShiftByAdditive(Shift(r), Shift(s), n - 1);
    }
  }

  lemma {:induction false} ShiftByInjective(r: bv16, s: bv16, n: nat)
    requires ShiftBy(r, n) == ShiftBy(s, n)
    ensures r == s
    decreases n
  {
    hide Shift;
    if n > 0 {
      ShiftByInjective(Shift(r), Shift(s), n - 1);
      ShiftInjective(r, s);
    }
  }

  lemma {:induction false} ShiftByZero(n: nat)
    ensures ShiftBy(0, n) == 0
  {
    hide Shift;
    if n > 0 {
      ShiftZero();
      ShiftByZero(n - 1);
    }
  }

  lemma {:induction false} ShiftByCompose(r: bv16, m: nat, n: nat)
    ensures ShiftBy(r, m + n) == ShiftBy(ShiftBy(r, m), n)
    decreases m
  {
    hide Shift;
    if m > 0 {
      ShiftByCompose(Shift(r), m - 1, n);
    }
  }

  // ---------- Feeding bits ----------

  lemma {:induction false} FeedAllAppend(r: bv16, a: seq<bool>, b: seq<bool>)
    ensures FeedAll(r, a + b) == FeedAll(FeedAll(r, a), b)
    decreases |a|
  {
    hide Feed;
    if a == [] {
      assert a + b == b;
    } else {
      assert (a + b)[1..] == a[1..] + b;
      FeedAllAppend(Feed(r, a[0]), a[1..], b);
    }
  }

  predicate Top(v: bv16) {
    v & 0x8000 != 0
  }

  function Up(v: bv16): bv16 {
    v << 1
  }

  function Left(v: bv16, k: nat): bv16
    decreases k
  {
    if k == 0 then v else Left(Up(v), k - 1)
  }

  function TopBits(v: bv16, k: nat): seq<bool>
    decreases k
  {
    if k == 0 then [] else [Top(v)] + TopBits(Up(v), k - 1)
  }

  /** Feeding the top k bits of a word is adding the word and multiplying by x^k. */
  lemma {:induction false} FeedWord(r: bv16, v: bv16, k: nat)
    ensures ShiftBy(Xor(r, v), k) == Xor(FeedAll(r, TopBits(v, k)), Left(v, k))
    decreases k
  {
    if k > 0 {
      var bit, rest := Top(v), Up(v);
      assert TopBits(v, k) == [bit] + TopBits(rest, k - 1);
      assert FeedAll(r, [bit] + TopBits(rest, k - 1)) == FeedAll(Feed(r, bit), TopBits(rest, k - 1)) by {
        hide Feed;
        assert ([bit] + TopBits(rest, k - 1))[1..] == TopBits(rest, k - 1);
      }
      ShiftTakesTopBit(r, v);
      hide Shift, Xor, Feed;
      FeedWord(Feed(r, bit), rest, k - 1);
    }
  }

  lemma TopBitsTwo(v: bv16, k: nat)
    ensures TopBits(v, k + 2) == [Top(v), Top(Up(v))] + TopBits(Up(Up(v)), k)
    ensures Left(v, k + 2) == Left(Up(Up(v)), k)
  {
    hide Top, Up;
  }

  lemma TopBitsFour(v: bv16, k: nat)
    ensures TopBits(v, k + 4) == [Top(v), Top(Up(v)), Top(Up(Up(v))), Top(Up(Up(Up(v))))] + TopBits(Up(Up(Up(Up(v)))), k)
    ensures Left(v, k + 4) == Left(Up(Up(Up(Up(v)))), k)
  {
    hide Top, Up, TopBits, Left;
    TopBitsTwo(v, k + 2);
    TopBitsTwo(Up(Up(v)), k);
  }

  lemma HighNibbleAtTop(b: bv8)
    ensures var v := AtTop(b);
            ByteBits(b)[..4] == [Top(v), Top(Up(v)), Top(Up(Up(v))), Top(Up(Up(Up(v))))]
  {
  }

  lemma LowNibbleAtTop(b: bv8)
    ensures var v := Up(Up(Up(Up(AtTop(b)))));
            && ByteBits(b)[4..] == [Top(v), Top(Up(v)), Top(Up(Up(v))), Top(Up(Up(Up(v))))]
            && Up(Up(Up(Up(v)))) == 0
  {
  }

  lemma TopBitsNone(v: bv16)
    ensures TopBits(v, 0) == [] && Left(v, 0) == v
  {
  }

  lemma TopBitsOfByte(b: bv8)
    ensures TopBits(AtTop(b), 8) == ByteBits(b)
    ensures Left(AtTop(b), 8) == 0
  {
    hide Top, Up, AtTop, ByteBits, TopBits, Left;
    HighNibbleAtTop(b);
    LowNibbleAtTop(b);
    var v, w := AtTop(b), Up(Up(Up(Up(AtTop(b)))));
    TopBitsFour(v, 4);
    TopBitsFour(w, 0);
    TopBitsNone(Up(Up(Up(Up(w)))));
    assert ByteBits(b) == ByteBits(b)[..4] + ByteBits(b)[4..];
  }

  /** Feeding a byte's bits: add the byte at the top, multiply by x^8. */
  lemma FeedByte(r: bv16, b: bv8)
    ensures FeedAll(r, ByteBits(b)) == ShiftBy(Xor(r, AtTop(b)), 8)
  {
    TopBitsOfByte(b);
    hide Shift, Feed, TopBits, Left, ByteBits, AtTop;
    FeedWord(r, AtTop(b), 8);
    XorLaws(FeedAll(r, ByteBits(b)), 0, 0);
  }

  // ---------- The table loop is the bit-serial register ----------

  lemma ShiftByEight(r: bv16)
    ensures ShiftBy(r, 8) == Shift(Shift(Shift(Shift(Shift(Shift(Shift(Shift(r))))))))
  {
    hide Shift;
    assert ShiftBy(r, 8) == ShiftBy(Shift(Shift(r)), 6);
    assert ShiftBy(Shift(Shift(r)), 6) == ShiftBy(Shift(Shift(Shift(Shift(r)))), 4);
  }

  lemma TableIsEightShifts(i: bv8)
    ensures CrcTable(i) == Shift(Shift(Shift(Shift(Shift(Shift(Shift(Shift(AtTop(i)))))))))
  {
  }

  /** Each entry of the 256-entry table is its index, at the top of a word, times x^8. */
  lemma TableEntry(i: bv8)
    ensures CrcTable(i) == ShiftBy(AtTop(i), 8)
  {
    hide Shift, CrcTable, AtTop;
    ShiftByEight(AtTop(i));
    TableIsEightShifts(i);
  }

  lemma LowByteEightShifts(r: bv16)
    ensures Shift(Shift(Shift(Shift(Shift(Shift(Shift(Shift(r & 0xFF)))))))) == r << 8
  {
  }

  lemma SplitWord(r: bv16, b: bv8)
    ensures r ^ AtTop(b) == (AtTop(HighByte(r) ^ b)) ^ (r & 0xFF)
  {
  }

  lemma LowByteByEight(r: bv16)
    ensures ShiftBy(r & 0xFF, 8) == r << 8
  {
    hide Shift;
    ShiftByEight(r & 0xFF);
    LowByteEightShifts(r);
  }

  lemma XorSplit(r: bv16, b: bv8)
    ensures Xor(r, AtTop(b)) == Xor(AtTop(HighByte(r) ^ b), r & 0xFF)
  {
    hide HighByte, AtTop;
    SplitWord(r, b);
  }

  lemma CrcByteParts(r: bv16, b: bv8)
    ensures CrcByte(r, b) == Xor(CrcTable(HighByte(r) ^ b), r << 8)
  {
    hide CrcTable, HighByte;
  }

  lemma CrcByteFeeds(r: bv16, b: bv8)
    ensures CrcByte(r, b) == FeedAll(r, ByteBits(b))
  {
    hide Shift, Xor, CrcTable, HighByte, CrcByte, ByteBits, AtTop;
    var i := HighByte(r) ^ b;
    LowByteByEight(r);
    XorSplit(r, b);
    CrcByteParts(r, b);
    TableEntry(i);
    ShiftByAdditive(AtTop(i), r & 0xFF, 8);
    FeedByte(r, b);
  }

  /** For every message, the table-driven loop is the bit-serial register. */
  lemma {:induction false} TableLoopIsBitSerial(r: bv16, bytes: seq<bv8>)
    ensures CrcFrom(r, bytes) == FeedAll(r, BitsOf(bytes))
    decreases |bytes|
  {
    hide Feed, CrcByte, ByteBits;
    if bytes != [] {
      var front, last := bytes[..|bytes| - 1], bytes[|bytes| - 1];
      TableLoopIsBitSerial(r, front);
      FeedAllAppend(r, BitsOf(front), ByteBits(last));
      CrcByteFeeds(CrcFrom(r, front), last);
    }
  }

  // ---------- The three entry points ----------

  lemma WordOfBytes(r: bv16)
    ensures Word(LowByte(r), HighByte(r)) == r
  {
  }

  /** What crc16_check decides: at least two bytes, and the last two, low byte first, are the CRC of the rest. */
  predicate Accepted(packet: seq<bv8>) {
    |packet| >= 2 && CrcOf(packet[..|packet| - 2]) == Word(packet[|packet| - 2], packet[|packet| - 1])
  }

  /** A payload followed by its check bytes. */
  function Sealed(payload: seq<bv8>): (packet: seq<bv8>)
    ensures |packet| == |payload| + 2
  {
    payload + [LowByte(CrcOf(payload)), HighByte(CrcOf(payload))]
  }

  /** crc16_check accepts exactly what crc16_set produces. */
  lemma AcceptedIffSealed(packet: seq<bv8>)
    ensures Accepted(packet) <==> |packet| >= 2 && packet == Sealed(packet[..|packet| - 2])
  {
    hide CrcOf, LowByte, HighByte, Word;
    if |packet| >= 2 {
      var payload, low, high := packet[..|packet| - 2], packet[|packet| - 2], packet[|packet| - 1];
      assert packet == payload + [low, high];
      WordOfBytes(CrcOf(payload));
      BytesOfWord(low, high);
      if packet == Sealed(payload) {
        assert low == Sealed(payload)[|payload|] && high == Sealed(payload)[|payload| + 1];
      }
    }
  }

  lemma BytesOfWord(low: bv8, high: bv8)
    ensures LowByte(Word(low, high)) == low && HighByte(Word(low, high)) == high
  {
  }

  method Crc16(bytes: array<bv8>, nbyt: nat) returns (crc: bv16)
    requires nbyt <= bytes.Length
    ensures crc == CrcOf(bytes[..nbyt])
  {
    hide CrcByte;
    crc := PRESET;
    var p := 0;
    while p < nbyt
      invariant p <= nbyt
      invariant crc == CrcFrom(PRESET, bytes[..p])
    {
      crc := CrcByte(crc, bytes[p]);
      p := p + 1;
      assert bytes[..p][..p - 1] == bytes[..p - 1];
    }
  }

  /** Overwrites the last two of the first nbyt bytes; the source asserts that there are two. */
  method Crc16Set(bytes: array<bv8>, nbyt: nat)
    requires 2 <= nbyt <= bytes.Length
    modifies bytes
    ensures bytes[..] == Sealed(old(bytes[..nbyt - 2])) + old(bytes[nbyt..])
  {
    var crc := Crc16(bytes, nbyt - 2);
    bytes[nbyt - 2] := LowByte(crc);
    bytes[nbyt - 1] := HighByte(crc);
  }

  method Crc16Check(bytes: array<bv8>, nbyt: nat) returns (ok: bool)
    requires nbyt <= bytes.Length
    ensures ok == Accepted(bytes[..nbyt])
  {
    if nbyt < 2 {
      return false;
    }
    var crc1 := Crc16(bytes, nbyt - 2);
    var crc2 := Word(bytes[nbyt - 2], bytes[nbyt - 1]);
    assert bytes[..nbyt][..nbyt - 2] == bytes[..nbyt - 2];
    hide Word;
    ok := crc1 == crc2;
  }
}
