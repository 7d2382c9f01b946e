/**
 The generator of the symbol tables (radio2/tools/symbols.py) and the table it made
 (radio2/src/symbols.i): which bytes may be sent as symbols, what they look like on the
 line, and why the encoding and decoding tables undo each other.
 */
module SymbolTable {
  import opened Digits
  import opened SymbolCodec

  // ---------- Counting bits ----------

  /** Bitwise and. */
  function And(a: nat, b: nat): nat {
    if a == 0 || b == 0 then 0 else (if a % 2 == 1 && b % 2 == 1 then 1 else 0) + 2 * And(a / 2, b / 2)
  }

  function Ones(s: nat): nat {
    if s == 0 then 0 else s % 2 + Ones(s / 2)
  }

  lemma {:induction false} AndSelf(s: nat)
    ensures And(s, s) == s
  {
    if s != 0 {
      AndSelf(s / 2);
    }
  }

  /** Masking with one less clears the lowest bit that is set. */
  lemma {:induction false} ClearLowest(s: nat)
    requires s > 0
    ensures And(s, s - 1) < s && Ones(And(s, s - 1)) == Ones(s) - 1
  {
    var h := s / 2;
    hide And, Ones;
    if s % 2 == 1 {
      AndSelf(h);
      Double(s, s - 1, h, h);
    } else {
      ClearLowest(h);
      Double(s, s - 1, h, h - 1);
    }
  }

  lemma Double(a: nat, b: nat, h: nat, k: nat)
    requires h == a / 2 && k == b / 2 && b + 1 == a
    ensures And(a, b) == 2 * And(h, k)
    ensures Ones(a) == a % 2 + Ones(h) && Ones(2 * And(h, k)) == Ones(And(h, k))
  {
    hide And, Ones;
    AndStep(a, b);
    OnesStep(a, h);
    OnesStep(2 * And(h, k), And(h, k));
  }

  lemma AndStep(a: nat, b: nat)
    ensures And(a, b) == (if a % 2 == 1 && b % 2 == 1 then 1 else 0) + 2 * And(a / 2, b / 2)
  {
  }

  lemma OnesStep(s: nat, h: nat)
    requires s / 2 == h
    ensures Ones(s) == s % 2 + Ones(h)
  {
  }

  method Bits(s: nat) returns (b: nat)
    ensures b == Ones(s)
  {
    b := 0;
    var rest := s;
    while rest != 0
      invariant b + Ones(rest) == Ones(s)
    {
      ClearLowest(rest);
      rest := And(rest, rest - 1);
      b := b + 1;
    }
  }

  // ---------- The line ----------

  /** A symbol on the line, true for a space: start bit, the eight data bits inverted with the lowest first, stop bit. */
  function Line(s: nat): (x: seq<bool>)
    ensures |x| == 10
  {
    [true] + seq(8, k requires 0 <= k < 8 => And(s, Pow(2, k)) == 0) + [false]
  }

  function LineOf(symbols: seq<nat>): seq<bool> {
    if symbols == [] then [] else Line(symbols[0]) + LineOf(symbols[1..])
  }

  predicate AllAre(x: seq<bool>, b: bool) {
    forall i :: 0 <= i < |x| ==> x[i] == b
  }

  predicate Block(x: seq<bool>, i: nat, j: nat)
    requires i + j <= |x|
  {
    AllAre(x[..i], true) && AllAre(x[i..i + j], false)
  }

  /** The pattern of the generator: one or more blocks of 1..maxones ones and then 1..maxzeros zeros. */
  predicate Match(x: seq<bool>, maxones: nat, maxzeros: nat)
    decreases |x|
  {
    exists i: nat, j: nat ::
      && 1 <= i <= maxones && 1 <= j <= maxzeros && i + j <= |x|
      && Block(x, i, j) && (i + j == |x| || Match(x[i + j..], maxones, maxzeros))
  }

  /** More than n entries b in a row, from index i on. */
  predicate LongRun(x: seq<bool>, b: bool, i: nat, n: nat) {
    i + n < |x| && forall k :: i <= k <= i + n ==> x[k] == b
  }

  /** No run of b is longer than n. */
  ghost predicate RunsUpTo(x: seq<bool>, b: bool, n: nat) {
    forall i: nat :: !LongRun(x, b, i, n)
  }

  ghost predicate Runs(x: seq<bool>, maxones: nat, maxzeros: nat) {
    x != [] && x[0] && !x[|x| - 1] && RunsUpTo(x, true, maxones) && RunsUpTo(x, false, maxzeros)
  }

  lemma {:induction false} MatchHasRuns(x: seq<bool>, a: nat, z: nat)
    requires Match(x, a, z)
    ensures Runs(x, a, z)
    decreases |x|
  {
    var i: nat, j: nat :| 1 <= i <= a && 1 <= j <= z && i + j <= |x| && Block(x, i, j)
                       && (i + j == |x| || Match(x[i + j..], a, z));
    var rest := x[i + j..];
    assert x[0] == x[..i][0] && x[i] == x[i..i + j][0];
    if rest != [] {
      MatchHasRuns(rest, a, z);
      assert rest[0] == x[i + j] && rest[|rest| - 1] == x[|x| - 1];
    } else {
      assert x[|x| - 1] == x[i..i + j][j - 1];
    }
    forall p: nat ensures !LongRun(x, true, p, a) {
      if p >= i + j {
        RunInRest(x, rest, true, p, i + j, a);
      } else if p >= i {
        assert x[p] == x[i..i + j][p - i];
      }
    }
    forall p: nat ensures !LongRun(x, false, p, z) {
      if p >= i + j {
        RunInRest(x, rest, false, p, i + j, z);
      } else if p < i {
        assert x[p] == x[..i][p];
      }
    }
  }

  lemma RunInRest(x: seq<bool>, rest: seq<bool>, b: bool, p: nat, d: nat, n: nat)
    requires d <= p && d <= |x| && rest == x[d..] && RunsUpTo(rest, b, n)
    ensures !LongRun(x, b, p, n)
  {
    assert !LongRun(rest, b, p - d, n);
  }

  /** How many leading entries are b. */
  function Leading(x: seq<bool>, b: bool): (n: nat)
    ensures n <= |x| && AllAre(x[..n], b) && (n < |x| ==> x[n] != b)
  {
    if x == [] || x[0] != b then 0 else
      assert x[..1 + Leading(x[1..], b)] == [x[0]] + x[1..][..Leading(x[1..], b)];
      1 + Leading(x[1..], b)
  }

  lemma {:induction false} RunsMatch(x: seq<bool>, a: nat, z: nat)
    requires Runs(x, a, z)
    ensures Match(x, a, z)
    decreases |x|
  {
    var i := Leading(x, true);
    LeadingIsShort(x, x, 0, true, i, a);
    NotAll(x, i);
    var tail := x[i..];
    var j := Leading(tail, false);
    LeadingIsShort(x, tail, i, false, j, z);
    assert tail[..j] == x[i..i + j];
    assert Block(x, i, j);
    if i + j < |x| {
      var rest := x[i + j..];
      assert rest[0] == tail[j] && rest[|rest| - 1] == x[|x| - 1];
      RestHasRuns(x, rest, i + j, true, a);
      RestHasRuns(x, rest, i + j, false, z);
      RunsMatch(rest, a, z);
    }
  }

  lemma NotAll(x: seq<bool>, i: nat)
    requires x != [] && !x[|x| - 1] && i <= |x| && AllAre(x[..i], true)
    ensures i < |x|
  {
    TakeAll(x);
  }

  lemma TakeAll(x: seq<bool>)
    ensures x[..|x|] == x
  {
  }

  lemma LeadingIsShort(x: seq<bool>, tail: seq<bool>, d: nat, b: bool, n: nat, most: nat)
    requires d <= |x| && tail == x[d..] && n <= |tail| && AllAre(tail[..n], b) && RunsUpTo(x, b, most)
    ensures n <= most
  {
    if n > most {
      assert forall k :: d <= k < d + n ==> x[k] == tail[..n][k - d];
      assert LongRun(x, b, d, most);
    }
  }

  lemma RestHasRuns(x: seq<bool>, rest: seq<bool>, d: nat, b: bool, n: nat)
    requires d <= |x| && rest == x[d..] && RunsUpTo(x, b, n)
    ensures RunsUpTo(rest, b, n)
  {
    forall i: nat ensures !LongRun(rest, b, i, n) {
      assert !LongRun(x, b, d + i, n);
      if i + n < |rest| {
        var k :| d + i <= k <= d + i + n && x[k] != b;
        assert rest[k - d] != b;
      }
    }
  }

  /** The pattern says exactly: starts with a one, ends with a zero, no run too long. */
  lemma MatchIffRuns(x: seq<bool>, maxones: nat, maxzeros: nat)
    ensures Match(x, maxones, maxzeros) <==> Runs(x, maxones, maxzeros)
  {
    if Match(x, maxones, maxzeros) {
      MatchHasRuns(x, maxones, maxzeros);
    }
    if Runs(x, maxones, maxzeros) {
      RunsMatch(x, maxones, maxzeros);
    }
  }

  lemma {:induction false} MatchAppend(x: seq<bool>, y: seq<bool>, a: nat, z: nat)
    requires Match(x, a, z) && Match(y, a, z)
    ensures Match(x + y, a, z)
    decreases |x|
  {
    var i: nat, j: nat :| 1 <= i <= a && 1 <= j <= z && i + j <= |x| && Block(x, i, j)
                       && (i + j == |x| || Match(x[i + j..], a, z));
    assert (x + y)[..i] == x[..i] && (x + y)[i..i + j] == x[i..i + j];
    assert (x + y)[i + j..] == x[i + j..] + y;
    assert Block(x + y, i, j);
    if i + j == |x| {
      assert x[i + j..] + y == y;
    } else {
      MatchAppend(x[i + j..], y, a, z);
    }
  }

  /** Main result: no run grows too long across symbol boundaries either. */
  lemma {:induction false} LineHasNoLongRuns(symbols: seq<nat>, maxones: nat, maxzeros: nat)
    requires symbols != [] && forall i :: 0 <= i < |symbols| ==> Match(Line(symbols[i]), maxones, maxzeros)
    ensures Match(LineOf(symbols), maxones, maxzeros) && Runs(LineOf(symbols), maxones, maxzeros)
    decreases |symbols|
  {
    hide Line, Match, Runs;
    var first, rest := symbols[0], symbols[1..];
    if rest == [] {
      assert Line(first) + [] == Line(first);
    } else {
      LineHasNoLongRuns(rest, maxones, maxzeros);
      MatchAppend(Line(first), LineOf(rest), maxones, maxzeros);
    }
    MatchIffRuns(LineOf(symbols), maxones, maxzeros);
  }

  // ---------- Choosing the symbols ----------

  /** The arguments of the generator. */
  datatype Params = Params(maxsym: nat, maxones: nat, maxzeros: nat, minbits: int, maxbits: int, reserved: seq<nat>)

  predicate Good(p: Params, s: nat) {
    s !in p.reserved && p.minbits <= Ones(s) <= p.maxbits && Match(Line(s), p.maxones, p.maxzeros)
  }

  /** The good symbols from lo up to hi, in order. */
  function Found(p: Params, lo: nat, hi: nat): seq<nat>
    decreases hi
  {
    if hi <= lo then [] else Found(p, lo, hi - 1) + (if Good(p, hi - 1) then [hi - 1] else [])
  }

  method FindSymbols(p: Params) returns (symbols: seq<nat>)
    ensures symbols == Found(p, 0, 256)
  {
    symbols := [];
    for symbol := 0 to 256
      invariant symbols == Found(p, 0, symbol)
    {
      if symbol !in p.reserved {
        var b := Bits(symbol);
        if p.minbits <= b <= p.maxbits && Match(Line(symbol), p.maxones, p.maxzeros) {
          symbols := symbols + [symbol];
        }
      }
    }
  }

  predicate Ascending(s: seq<nat>) {
    forall i, j :: 0 <= i < j < |s| ==> s[i] < s[j]
  }

  // ---------- Which symbols are good ----------

  /** The eight bits, lowest first. */
  function EightBits(s: nat): (bits: seq<nat>)
    ensures |bits| == 8
  {
    [s % 2, s / 2 % 2, s / 4 % 2, s / 8 % 2, s / 16 % 2, s / 32 % 2, s / 64 % 2, s / 128 % 2]
  }

  lemma NoOnes()
    ensures Ones(0) == 0
  {
  }

  lemma OnesTwo(s: nat)
    ensures Ones(s) == s % 2 + s / 2 % 2 + Ones(s / 4)
  {
    hide Ones;
    OnesStep(s, s / 2);
    OnesStep(s / 2, s / 4);
  }

  lemma OnesAre(s: nat)
    requires s < 256
    ensures var b := EightBits(s); Ones(s) == b[0] + b[1] + b[2] + b[3] + b[4] + b[5] + b[6] + b[7]
  {
    hide Ones;
    OnesTwo(s);
    Quarters(s, 4);
    OnesTwo(s / 4);
    Quarters(s, 16);
    OnesTwo(s / 16);
    Quarters(s, 64);
    OnesTwo(s / 64);
    NoOnes();
  }

  lemma Quarters(s: nat, n: nat)
    requires n == 4 || n == 16 || n == 64
    ensures s / n / 2 == s / (2 * n) && s / n / 4 == s / (4 * n)
  {
  }

  lemma {:induction false} AndPow(s: nat, k: nat)
    ensures Pow(2, k) > 0 && (And(s, Pow(2, k)) == 0 <==> (s / Pow(2, k)) % 2 == 0)
    decreases k
  {
    PowPositive(2, k);
    AndStep(s, Pow(2, k));
    hide And;
    if k == 0 {
      AndNothing(s / 2);
    } else {
      AndPow(s / 2, k - 1);
      DivDiv(s, 2, Pow(2, k - 1));
      assert Pow(2, k) == 2 * Pow(2, k - 1);
    }
  }

  lemma AndNothing(s: nat)
    ensures And(s, 0) == 0
  {
  }

  lemma SmallPowers()
    ensures Pow(2, 0) == 1 && Pow(2, 1) == 2 && Pow(2, 2) == 4 && Pow(2, 3) == 8
    ensures Pow(2, 4) == 16 && Pow(2, 5) == 32 && Pow(2, 6) == 64 && Pow(2, 7) == 128
  {
    assert Pow(2, 3) == 8 && Pow(2, 5) == 32;
  }

  lemma BitIs(s: nat, k: nat)
    requires k < 8
    ensures And(s, Pow(2, k)) == 0 <==> EightBits(s)[k] == 0
  {
    AndPow(s, k);
    SmallPowers();
    hide And, Pow;
  }

  /** The line carries a start bit, the data bits inverted and lowest first, and a stop bit. */
  lemma LineIs(s: nat)
    ensures Line(s)[0] && !Line(s)[9] && forall k :: 0 <= k < 8 ==> Line(s)[k + 1] == (EightBits(s)[k] == 0)
  {
    hide And, Pow, EightBits;
    forall k | 0 <= k < 8 ensures Line(s)[k + 1] == (EightBits(s)[k] == 0) {
      BitIs(s, k);
    }
  }

  /** Main result: what the generator takes for a symbol, in bits. */
  lemma GoodMeans(p: Params, s: nat, line: seq<bool>)
    requires s < 256 && |line| == 10 && line[0] && !line[9] && forall k :: 0 <= k < 8 ==> line[k + 1] == (EightBits(s)[k] == 0)
    ensures var b := EightBits(s);
      Good(p, s) <==> s !in p.reserved && p.minbits <= b[0] + b[1] + b[2] + b[3] + b[4] + b[5] + b[6] + b[7] <= p.maxbits
                      && RunsUpTo(line, true, p.maxones) && RunsUpTo(line, false, p.maxzeros)
  {
    OnesAre(s);
    LineIs(s);
    assert line == Line(s) by {
      forall i | 0 <= i < 10 ensures line[i] == Line(s)[i] {
        assert i == 0 || i == 9 || line[i - 1 + 1] == Line(s)[i - 1 + 1];
      }
    }
    MatchIffRuns(Line(s), p.maxones, p.maxzeros);
    hide Match, Line, RunsUpTo, EightBits, Ones;
  }

  /** Every good symbol is found, once, and nothing else. */
  lemma {:induction false} FoundIs(p: Params, lo: nat, hi: nat)
    ensures Ascending(Found(p, lo, hi))
    ensures forall s :: s in Found(p, lo, hi) <==> lo <= s < hi && Good(p, s)
    decreases hi
  {
    hide Good;
    if hi > lo {
      FoundIs(p, lo, hi - 1);
      var before := Found(p, lo, hi - 1);
      assert forall i :: 0 <= i < |before| ==> before[i] in before;
    }
  }

  function Reversed(s: seq<nat>): (r: seq<nat>)
    ensures |r| == |s| && forall i :: 0 <= i < |s| ==> r[i] == s[|s| - 1 - i]
  {
    if s == [] then [] else [s[|s| - 1]] + Reversed(s[..|s| - 1])
  }

  lemma {:induction false} ReversedMembers(s: seq<nat>)
    ensures forall x :: x in Reversed(s) <==> x in s
    decreases |s|
  {
    if s != [] {
      ReversedMembers(s[..|s| - 1]);
      assert s == s[..|s| - 1] + [s[|s| - 1]];
    }
  }

  function Ordered(p: Params): seq<nat> {
    if 8 - p.maxbits < p.minbits then Reversed(Found(p, 0, 256)) else Found(p, 0, 256)
  }

  function Truncated(s: seq<nat>, maxsym: nat): seq<nat> {
    if maxsym < 256 && maxsym < |s| then s[..maxsym] else s
  }

  /** The encoding table. */
  function Chosen(p: Params): seq<nat> {
    Truncated(Ordered(p), p.maxsym)
  }

  predicate Distinct(s: seq<nat>) {
    forall i, j :: 0 <= i < j < |s| ==> s[i] != s[j]
  }

  /** Whether the generator turns its list round: when more than half of the bits may be set. */
  predicate Downwards(p: Params) {
    p.minbits + p.maxbits > 8
  }

  /** Main result: which good symbols the table keeps and in which order: the highest or the lowest ones. */
  lemma ChosenAre(p: Params)
    ensures var c := Chosen(p);
      && (forall i, j :: 0 <= i < j < |c| ==> if Downwards(p) then c[i] > c[j] else c[i] < c[j])
      && (forall s: nat :: s < 256 && Good(p, s) && s !in c ==>
            |c| == p.maxsym < 256 && forall x :: x in c ==> if Downwards(p) then s < x else x < s)
      && (p.maxsym < 256 ==> |c| <= p.maxsym)
  {
    hide Good, Found;
    FoundIs(p, 0, 256);
    ReversedMembers(Found(p, 0, 256));
    var o, c := Ordered(p), Chosen(p);
    forall s: nat | s < 256 && Good(p, s) && s !in c
      ensures |c| == p.maxsym < 256 && forall x :: x in c ==> if Downwards(p) then s < x else x < s
    {
      assert s in o;
      var i :| 0 <= i < |o| && o[i] == s;
      assert forall k :: 0 <= k < |c| ==> c[k] == o[k] && o[k] in c;
      assert i >= |c|;
      forall x | x in c ensures if Downwards(p) then s < x else x < s {
        var j :| 0 <= j < |c| && c[j] == x;
        assert o[j] == x && j < i;
      }
    }
  }

  lemma ChosenIs(p: Params)
    ensures Distinct(Chosen(p)) && |Chosen(p)| <= |Found(p, 0, 256)|
    ensures forall i :: 0 <= i < |Chosen(p)| ==> Chosen(p)[i] < 256 && Good(p, Chosen(p)[i])
    ensures p.maxsym >= 256 ==> forall s :: s < 256 && Good(p, s) ==> s in Chosen(p)
  {
    hide Good, Found;
    FoundIs(p, 0, 256);
    var f, o := Found(p, 0, 256), Ordered(p);
    assert forall i :: 0 <= i < |o| ==> o[i] in f;
    forall s | s in f ensures s in o {
      var i :| 0 <= i < |f| && f[i] == s;
      assert s == if 8 - p.maxbits < p.minbits then o[|f| - 1 - i] else o[i];
    }
  }

  /** Main result: for any arguments, strings of generated symbols keep both limits on the line. */
  lemma ChosenLineHasNoLongRuns(p: Params, symbols: seq<nat>)
    requires symbols != [] && forall i :: 0 <= i < |symbols| ==> symbols[i] in Chosen(p)
    ensures Runs(LineOf(symbols), p.maxones, p.maxzeros)
  {
    hide Line, LineOf, Match, Runs, Chosen;
    ChosenIs(p);
    forall i | 0 <= i < |symbols| ensures Match(Line(symbols[i]), p.maxones, p.maxzeros) {
      var k :| 0 <= k < |Chosen(p)| && Chosen(p)[k] == symbols[i];
      assert Good(p, Chosen(p)[k]);
    }
    LineHasNoLongRuns(symbols, p.maxones, p.maxzeros);
  }

  // ---------- The decoding table ----------

  /** The two tables undo each other; exactly the reserved symbols are marked as such. */
  predicate Inverse(encode: seq<nat>, decode: seq<int>, reserved: seq<nat>) {
    && |decode| == 256
    && (forall v :: 0 <= v < |encode| ==> encode[v] < 256 && decode[encode[v]] == v)
    && (forall x :: 0 <= x < 256 && decode[x] >= 0 ==> decode[x] < |encode| && encode[decode[x]] == x)
    && (forall x :: 0 <= x < 256 ==> (decode[x] <= -2 <==> x in reserved))
  }

  /** The last of the reserved symbols that is x gives the mark. */
  predicate MarkOf(d: int, x: nat, reserved: seq<nat>) {
    0 <= -2 - d < |reserved| && reserved[-2 - d] == x && forall m :: -2 - d < m < |reserved| ==> reserved[m] != x
  }

  method BuildDecode(symbols: seq<nat>, reserved: seq<nat>) returns (decode: array<int>)
    requires Distinct(symbols) && IsBytes(symbols) && IsBytes(reserved)
    requires forall i :: 0 <= i < |symbols| ==> symbols[i] !in reserved
    ensures decode.Length == 256
    ensures forall v :: 0 <= v < |symbols| ==> decode[symbols[v]] == v
    ensures forall x :: 0 <= x < 256 && x !in symbols && x !in reserved ==> decode[x] == -1
    ensures forall x :: 0 <= x < 256 && x in reserved ==> MarkOf(decode[x], x, reserved)
  {
    decode := new int[256](_ => -1);
    for n := 0 to |symbols|
      invariant forall v :: 0 <= v < n ==> decode[symbols[v]] == v
      invariant forall x :: 0 <= x < 256 && x !in symbols[..n] ==> decode[x] == -1
    {
      decode[symbols[n]] := n;
    }
    assert symbols[..|symbols|] == symbols;
    for n := 0 to |reserved|
      invariant forall v :: 0 <= v < |symbols| ==> decode[symbols[v]] == v
      invariant forall x :: 0 <= x < 256 && x !in symbols && x !in reserved[..n] ==> decode[x] == -1
      invariant forall x :: 0 <= x < 256 && x in reserved[..n] ==> MarkOf(decode[x], x, reserved[..n])
    {
      decode[reserved[n]] := -2 - n;
    }
    assert reserved[..|reserved|] == reserved;
  }

  /** Main result: for any arguments, the two generated tables undo each other off the reserved symbols. */
  method Generate(p: Params) returns (encode: seq<nat>, decode: array<int>)
    requires IsBytes(p.reserved)
    ensures encode == Chosen(p) && decode.Length == 256
    ensures Inverse(encode, decode[..], p.reserved)
    ensures forall x :: 0 <= x < 256 && x in p.reserved ==> MarkOf(decode[x], x, p.reserved)
  {
    hide Good, Found, Reversed;
    encode := FindSymbols(p);
    if 8 - p.maxbits < p.minbits {
      encode := Reversed(encode);
    }
    if p.maxsym < 256 && p.maxsym < |encode| {
      encode := encode[..p.maxsym];
    }
    ChosenIs(p);
    NotReserved(p);
    decode := BuildDecode(encode, p.reserved);
    hide Chosen;
    DecodeInverts(encode, decode[..], p.reserved);
  }

  lemma NotReserved(p: Params)
    requires forall i :: 0 <= i < |Chosen(p)| ==> Good(p, Chosen(p)[i])
    ensures forall i :: 0 <= i < |Chosen(p)| ==> Chosen(p)[i] !in p.reserved
  {
    hide Chosen;
  }

  lemma DecodeInverts(encode: seq<nat>, decode: seq<int>, reserved: seq<nat>)
    requires |decode| == 256 && IsBytes(encode) && forall i :: 0 <= i < |encode| ==> encode[i] !in reserved
    requires forall v :: 0 <= v < |encode| ==> decode[encode[v]] == v
    requires forall x :: 0 <= x < 256 && x !in encode && x !in reserved ==> decode[x] == -1
    requires forall x :: 0 <= x < 256 && x in reserved ==> MarkOf(decode[x], x, reserved)
    ensures Inverse(encode, decode, reserved)
  {
    forall x | 0 <= x < 256 && x in encode ensures 0 <= decode[x] < |encode| && encode[decode[x]] == x {
      var v :| 0 <= v < |encode| && encode[v] == x;
    }
    forall x | 0 <= x < 256 && x in reserved ensures decode[x] <= -2 {
      assert MarkOf(decode[x], x, reserved);
    }
  }

  /** Tables large enough make a codec. */
  lemma InverseMakesCodec(encode: seq<nat>, decode: seq<int>, reserved: seq<nat>, bits: nat)
    requires Inverse(encode, decode, reserved)
    requires (bits == 6 && |encode| >= 64) || (bits == 7 && |encode| >= 128)
    ensures Valid(Codec(bits, encode, decode))
    ensures forall x :: x in reserved && x < 256 ==> !CodeSymbol(Codec(bits, encode, decode), x)
  {
    BaseIs(Codec(bits, encode, decode));
    hide Base;
  }
}
