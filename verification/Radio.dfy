/**
 Framing on the serial line (radio2/src/radio.c): what is sent for a packet, and what a
 receiver makes of the line when its reads split the bytes in any way.

 The line is the sequence of bytes still to be read.  Polling succeeds while there are
 any and the deadline has not come; a deadline is the number of polls that succeed before
 it.  The device's errors on reading are left out.
 */
module Radio {
  import opened Bytes
  import opened SymbolCodec
  import opened Crc
  import opened Limits

  const PREAMBLE_LEN: nat := 3
  const UARTSYNC_LEN: nat := 2
  const EPILOGUE_LEN: nat := 3
  const MAX_FRAME: nat := (RADIO_MTU + 6) * 8 / 7 + PREAMBLE_LEN + UARTSYNC_LEN + EPILOGUE_LEN

  /** A table of symbols and the three symbols reserved for framing. */
  datatype Link = Link(codec: Codec, start: nat, end: nat, sync: nat)

  ghost predicate ValidLink(l: Link) {
    && Valid(l.codec) && l.codec.bits == 7
    && l.start < 256 && l.end < 256 && l.sync < 256
    && l.start != l.end && l.start != l.sync && l.end != l.sync
    && l.codec.decode[l.start] < 0 && l.codec.decode[l.end] < 0 && l.codec.decode[l.sync] < 0
  }

  // ---------- What is sent ----------

  function Fill(x: nat, n: nat): (s: seq<nat>)
    ensures |s| == n && forall i :: 0 <= i < n ==> s[i] == x
  {
    seq(n, _ => x)
  }

  /** The payload and its CRC as symbols. */
  function Symbols(l: Link, payload: seq<bv8>): seq<nat>
    requires ValidLink(l)
  {
    BytesToSymbols(l.codec, Numbers(Sealed(payload)))
  }

  /** A frame without its preamble. */
  function Body(l: Link, payload: seq<bv8>): seq<nat>
    requires ValidLink(l)
  {
    Fill(l.sync, UARTSYNC_LEN) + Symbols(l, payload) + Fill(l.end, EPILOGUE_LEN)
  }

  function Frame(l: Link, payload: seq<bv8>): seq<nat>
    requires ValidLink(l)
  {
    Fill(l.start, PREAMBLE_LEN) + Body(l, payload)
  }

  /** Frames sent back to back. */
  function Stream(l: Link, packets: seq<seq<bv8>>): seq<nat>
    requires ValidLink(l)
  {
    if packets == [] then [] else Frame(l, packets[0]) + Stream(l, packets[1..])
  }

  predicate Sendable(packets: seq<seq<bv8>>) {
    forall i :: 0 <= i < |packets| ==> 1 <= |packets[i]| <= RADIO_MTU
  }

  // ---------- What is received ----------

  /** The index of the first x, or the length if there is none. */
  function Find(s: seq<nat>, x: nat): (i: nat)
    ensures i <= |s| && (i < |s| ==> s[i] == x)
    ensures forall k :: 0 <= k < i ==> s[k] != x
  {
    if s == [] || s[0] == x then 0 else 1 + Find(s[1..], x)
  }

  /** symbol_valid. */
  predicate SymbolValid(l: Link, x: nat)
    requires ValidLink(l) && x < 256
  {
    l.codec.decode[x] >= 0
  }

  /** The index of the first valid symbol, or the length if there is none. */
  function FirstValid(l: Link, s: seq<nat>): (i: nat)
    requires ValidLink(l) && IsBytes(s)
    ensures i <= |s| && (i < |s| ==> SymbolValid(l, s[i]))
    ensures forall k :: 0 <= k < i ==> !SymbolValid(l, s[k])
  {
    if s == [] || SymbolValid(l, s[0]) then 0 else 1 + FirstValid(l, s[1..])
  }

  /**
   A packet; none; the failed assertion of packet_new on an empty packet; or a frame that
   decodes to more than the packet buffer holds, which the source does not check.
   */
  datatype Reception = Got(payload: seq<bv8>) | Rejected | Aborted | Overflow

  /** The bytes of a buffer, from its first valid symbol on. */
  function BufferBytes(l: Link, buffer: seq<nat>): (bytes: seq<nat>)
    requires ValidLink(l) && IsBytes(buffer)
    ensures IsBytes(bytes)
  {
    var symbols := buffer[FirstValid(l, buffer)..];
    AllBytesOut(l.codec, symbols);
    SymbolsToBytes(l.codec, symbols)
  }

  /** What decoded bytes are worth. */
  function Checked(bytes: seq<bv8>): Reception {
    if !Accepted(bytes) then Rejected
    else if |bytes| == CRC16_LEN then Aborted
    else Got(bytes[..|bytes| - CRC16_LEN])
  }

  /** The outcome for the bytes read before the first end symbol. */
  function Decode(l: Link, buffer: seq<nat>): Reception
    requires ValidLink(l) && IsBytes(buffer)
  {
    var bytes := BufferBytes(l, buffer);
    if |bytes| > RADIO_MTU + CRC16_LEN then Overflow else Checked(MachineBytes(bytes))
  }

  function Min(a: nat, b: nat): nat {
    if a < b then a else b
  }

  /**
   How many bytes a call of radio_recv takes from the line, when the read that holds the
   first end symbol brings `over` bytes from that symbol on.
   */
  function Taken(l: Link, line: seq<nat>, over: nat): (m: nat)
    ensures m <= |line|
  {
    var i := Find(line, l.end);
    if i < Min(|line|, MAX_FRAME) then Min(i + (if over == 0 then 1 else over), Min(|line|, MAX_FRAME))
    else Min(|line|, MAX_FRAME)
  }

  /** What a call of radio_recv makes of the line. */
  function Outcome(l: Link, line: seq<nat>): Reception
    requires ValidLink(l) && IsBytes(line)
  {
    var i := Find(line, l.end);
    if i < Min(|line|, MAX_FRAME) then Decode(l, line[..i]) else Rejected
  }

  /** The two outcomes after which the program does not go on. */
  predicate Fatal(r: Reception) {
    r.Aborted? || r.Overflow?
  }

  /** What one turn adds. */
  function Added(r: Reception): seq<seq<bv8>> {
    if r.Got? then [r.payload] else []
  }

  /**
   The packets received by waiting and receiving in turn, until no start symbol comes or
   an outcome is fatal; `overs` says how far each call reads.
   */
  function Packets(l: Link, line: seq<nat>, overs: seq<nat>): seq<seq<bv8>>
    requires ValidLink(l) && IsBytes(line)
    decreases |overs|
  {
    var i := Find(line, l.start);
    if i == |line| || overs == [] then []
    else
      var rest := line[i + 1..];
      if Fatal(Outcome(l, rest)) then []
      else Added(Outcome(l, rest)) + Packets(l, rest[Taken(l, rest, overs[0])..], overs[1..])
  }

  // ---------- One frame ----------

  /** The symbols of a packet are data, never framing, and decode to the packet and its CRC. */
  lemma SymbolsAre(l: Link, payload: seq<bv8>)
    requires ValidLink(l)
    ensures var s := Symbols(l, payload);
      && IsBytes(s) && |s| == EncodedLength(l.codec, |payload| + 2) && s != []
      && (forall i :: 0 <= i < |s| ==> SymbolValid(l, s[i]))
      && SymbolsToBytes(l.codec, s) == Numbers(Sealed(payload))
  {
    hide BytesToSymbols, SymbolsToBytes, Sealed, Numbers;
    var bytes := Numbers(Sealed(payload));
    RoundTrip(l.codec, bytes);
    EncodedIsCode(l.codec, bytes);
    var s := BytesToSymbols(l.codec, bytes);
    forall i | 0 <= i < |s| ensures SymbolValid(l, s[i]) {
      assert CodeSymbol(l.codec, s[i]);
    }
  }

  lemma FramingIsInvalid(l: Link, n: nat, symbols: seq<nat>)
    requires ValidLink(l) && IsBytes(symbols) && symbols != [] && SymbolValid(l, symbols[0])
    ensures var buffer := Fill(l.start, n) + Fill(l.sync, UARTSYNC_LEN) + symbols;
      IsBytes(buffer) && FirstValid(l, buffer) == n + UARTSYNC_LEN && buffer[n + UARTSYNC_LEN..] == symbols
  {
    hide FirstValid;
    var buffer := Fill(l.start, n) + Fill(l.sync, UARTSYNC_LEN) + symbols;
    assert forall k :: 0 <= k < n ==> buffer[k] == l.start;
    assert forall k :: n <= k < n + UARTSYNC_LEN ==> buffer[k] == l.sync;
    assert buffer[n + UARTSYNC_LEN] == symbols[0];
    assert forall k :: 0 <= k < |symbols| ==> buffer[n + UARTSYNC_LEN + k] == symbols[k];
  }

  lemma SealedIsAccepted(payload: seq<bv8>)
    ensures Accepted(Sealed(payload)) && Sealed(payload)[..|Sealed(payload)| - CRC16_LEN] == payload
  {
    hide Accepted, CrcOf, LowByte, HighByte;
    assert Sealed(payload)[..|Sealed(payload)| - 2] == payload;
    AcceptedIffSealed(Sealed(payload));
  }

  lemma DecodesFrame(l: Link, n: nat, payload: seq<bv8>)
    requires ValidLink(l) && 1 <= |payload| <= RADIO_MTU
    ensures var buffer := Fill(l.start, n) + Fill(l.sync, UARTSYNC_LEN) + Symbols(l, payload);
      IsBytes(buffer) && Decode(l, buffer) == Got(payload)
  {
    hide Symbols, Accepted, Sealed, Fill, FirstValid, Numbers, SymbolsToBytes;
    SymbolsAre(l, payload);
    FramingIsInvalid(l, n, Symbols(l, payload));
    NumbersAndBack(Sealed(payload));
    SealedIsAccepted(payload);
  }

  lemma FrameLength(l: Link, payload: seq<bv8>)
    requires ValidLink(l)
    ensures |Symbols(l, payload)| == EncodedLength(l.codec, |payload| + 2)
    ensures |Body(l, payload)| == |Symbols(l, payload)| + 5 && |Frame(l, payload)| == |Symbols(l, payload)| + 8
  {
    hide Symbols;
    SymbolsAre(l, payload);
  }

  lemma LongestSymbols(l: Link, payload: seq<bv8>)
    requires ValidLink(l) && |payload| <= RADIO_MTU
    ensures EncodedLength(l.codec, |payload| + 2) <= 1831
  {
  }

  /** Every frame fits the buffers: at most 1839 of MAX_FRAME == 1843 bytes. */
  lemma FramesFit(l: Link, payload: seq<bv8>)
    requires ValidLink(l) && |payload| <= RADIO_MTU
    ensures |Frame(l, payload)| <= 1839 < MAX_FRAME
    ensures |payload| == RADIO_MTU ==> |Frame(l, payload)| == 1839
  {
    hide Frame, Body, Symbols;
    FrameLength(l, payload);
    LongestSymbols(l, payload);
  }

  lemma FindIs(s: seq<nat>, x: nat, i: nat)
    requires i < |s| && s[i] == x && forall k :: 0 <= k < i ==> s[k] != x
    ensures Find(s, x) == i
  {
  }

  lemma FindNone(s: seq<nat>, x: nat)
    requires x !in s
    ensures Find(s, x) == |s|
  {
  }

  /** A line on which n bytes of a preamble are left. */
  function Rest(l: Link, n: nat, payload: seq<bv8>, tail: seq<nat>): seq<nat>
    requires ValidLink(l)
  {
    Fill(l.start, n) + Body(l, payload) + tail
  }

  lemma NoFraming(l: Link, payload: seq<bv8>)
    requires ValidLink(l)
    ensures l.start !in Symbols(l, payload) && l.end !in Symbols(l, payload) && l.sync !in Symbols(l, payload)
  {
    hide Symbols;
    SymbolsAre(l, payload);
  }

  lemma FirstEnd(l: Link, n: nat, payload: seq<bv8>, tail: seq<nat>)
    requires ValidLink(l)
    ensures var line, i := Rest(l, n, payload, tail), n + UARTSYNC_LEN + |Symbols(l, payload)|;
      && Find(line, l.end) == i
      && line[..i] == Fill(l.start, n) + Fill(l.sync, UARTSYNC_LEN) + Symbols(l, payload)
      && line[i..] == Fill(l.end, EPILOGUE_LEN) + tail
  {
    hide Symbols, Find;
    var line, s := Rest(l, n, payload, tail), Symbols(l, payload);
    var i := n + UARTSYNC_LEN + |s|;
    NoFraming(l, payload);
    var head := Fill(l.start, n) + Fill(l.sync, UARTSYNC_LEN) + s;
    assert line == head + (Fill(l.end, EPILOGUE_LEN) + tail);
    forall k | 0 <= k < i ensures line[k] != l.end {
      assert line[k] == head[k];
      if k >= n + UARTSYNC_LEN {
        assert head[k] == s[k - n - UARTSYNC_LEN];
      }
    }
    FindIs(line, l.end, i);
  }

  /** How far a call reads past the first end symbol, at most. */
  function Over(over: nat): nat {
    if over == 0 then 1 else over
  }

  lemma TakenIs(l: Link, line: seq<nat>, i: nat, over: nat) returns (o: nat)
    requires Find(line, l.end) == i && i <= 1835 && i + 3 <= |line|
    ensures Taken(l, line, over) == i + o && 1 <= o && i + o <= |line|
    ensures o == Over(over) || (o < Over(over) && (o >= 8 || i + o == |line|))
  {
    hide Find;
    o := Taken(l, line, over) - i;
  }

  lemma OutcomeIs(l: Link, line: seq<nat>, i: nat)
    requires ValidLink(l) && IsBytes(line) && Find(line, l.end) == i && i <= 1835 && i < |line|
    ensures Outcome(l, line) == Decode(l, line[..i])
  {
    hide Find, Decode;
  }

  /** One call of radio_recv, from inside a preamble: the packet comes out, and o bytes after its symbols are gone. */
  lemma OneFrame(l: Link, n: nat, payload: seq<bv8>, tail: seq<nat>, over: nat) returns (o: nat)
    requires ValidLink(l) && n <= 2 && 1 <= |payload| <= RADIO_MTU && IsBytes(tail)
    ensures IsBytes(Rest(l, n, payload, tail)) && Outcome(l, Rest(l, n, payload, tail)) == Got(payload)
    ensures 1 <= o <= 3 + |tail| && (o == Over(over) || (o < Over(over) && (o >= 8 || o == 3 + |tail|)))
    ensures var line := Rest(l, n, payload, tail);
      line[Taken(l, line, over)..] == (Fill(l.end, EPILOGUE_LEN) + tail)[o..]
  {
    hide Symbols, Find, Decode, Fill, EncodedLength, Rest, Taken, Outcome, Over, ValidLink, IsBytes, Body;
    var line, s := Rest(l, n, payload, tail), Symbols(l, payload);
    var i := n + UARTSYNC_LEN + |s|;
    FrameLength(l, payload);
    LongestSymbols(l, payload);
    FirstEnd(l, n, payload, tail);
    DecodesFrame(l, n, payload);
    RestIsBytes(l, n, payload, tail);
    RestLength(l, n, payload, tail);
    OutcomeIs(l, line, i);
    o := TakenIs(l, line, i, over);
    DropTwice(line, i, o);
  }

  lemma RestLength(l: Link, n: nat, payload: seq<bv8>, tail: seq<nat>)
    requires ValidLink(l)
    ensures |Rest(l, n, payload, tail)| == n + 2 + |Symbols(l, payload)| + 3 + |tail|
  {
    hide Symbols, Fill;
  }

  lemma JoinIsBytes(s: seq<nat>, t: seq<nat>)
    requires IsBytes(s) && IsBytes(t)
    ensures IsBytes(s + t)
  {
  }

  lemma FillIsBytes(x: nat, n: nat)
    requires x < 256
    ensures IsBytes(Fill(x, n))
  {
  }

  lemma LinkIsBytes(l: Link)
    requires ValidLink(l)
    ensures l.start < 256 && l.end < 256 && l.sync < 256
  {
  }

  lemma BodyIsBytes(l: Link, payload: seq<bv8>)
    requires ValidLink(l)
    ensures IsBytes(Body(l, payload))
  {
    LinkIsBytes(l);
    SymbolsAre(l, payload);
    hide Symbols, IsBytes, Fill, ValidLink, SymbolValid;
    var a, s, b := Fill(l.sync, UARTSYNC_LEN), Symbols(l, payload), Fill(l.end, EPILOGUE_LEN);
    FillIsBytes(l.sync, UARTSYNC_LEN);
    FillIsBytes(l.end, EPILOGUE_LEN);
    JoinIsBytes(a, s);
    JoinIsBytes(a + s, b);
  }

  lemma RestIsBytes(l: Link, n: nat, payload: seq<bv8>, tail: seq<nat>)
    requires ValidLink(l) && IsBytes(tail)
    ensures IsBytes(Rest(l, n, payload, tail))
  {
    LinkIsBytes(l);
    hide Body, IsBytes, Fill, ValidLink;
    var a, b := Fill(l.start, n), Body(l, payload);
    BodyIsBytes(l, payload);
    FillIsBytes(l.start, n);
    JoinIsBytes(a, b);
    JoinIsBytes(a + b, tail);
  }

  // ---------- Any number of frames ----------

  /** Where the line can stand between two calls: j end symbols are left over, n bytes of the next preamble are left. */
  function Between(l: Link, j: nat, n: nat, packets: seq<seq<bv8>>): seq<nat>
    requires ValidLink(l)
  {
    Fill(l.end, j) + (if packets == [] then [] else Rest(l, n, packets[0], Stream(l, packets[1..])))
  }

  lemma {:induction false} StreamIsBytes(l: Link, packets: seq<seq<bv8>>)
    requires ValidLink(l)
    ensures IsBytes(Stream(l, packets))
    decreases |packets|
  {
    hide Body;
    if packets != [] {
      var tail := Stream(l, packets[1..]);
      StreamIsBytes(l, packets[1..]);
      RestIsBytes(l, PREAMBLE_LEN, packets[0], tail);
      assert Stream(l, packets) == Rest(l, PREAMBLE_LEN, packets[0], tail);
    }
  }

  lemma BetweenIsBytes(l: Link, j: nat, n: nat, packets: seq<seq<bv8>>)
    requires ValidLink(l)
    ensures IsBytes(Between(l, j, n, packets))
  {
    hide Rest, Stream;
    if packets != [] {
      StreamIsBytes(l, packets[1..]);
      RestIsBytes(l, n, packets[0], Stream(l, packets[1..]));
    }
  }

  lemma NothingPending(l: Link, packets: seq<seq<bv8>>)
    requires ValidLink(l)
    ensures Stream(l, packets) == Between(l, 0, PREAMBLE_LEN, packets)
  {
    hide Body;
    if packets != [] {
      assert Fill(l.end, 0) == [];
    }
  }

  /** radio_wait skips the leftovers and takes one byte of the preamble. */
  lemma Waits(l: Link, j: nat, n: nat, packets: seq<seq<bv8>>)
    requires ValidLink(l) && n > 0 && packets != []
    ensures var line := Between(l, j, n, packets);
      && Find(line, l.start) == j < |line|
      && line[j + 1..] == Rest(l, n - 1, packets[0], Stream(l, packets[1..]))
  {
    hide Body, Find, Stream;
    FindIs(Between(l, j, n, packets), l.start, j);
  }

  lemma DropFill(x: nat, n: nat, s: seq<nat>, d: nat)
    requires d <= n
    ensures (Fill(x, n) + s)[d..] == Fill(x, n - d) + s
  {
  }

  lemma EmptyBetween(l: Link, j: nat, n: nat)
    requires ValidLink(l)
    ensures Between(l, j, n, []) == Fill(l.end, j) + []
    ensures Stream(l, []) == []
  {
  }

  lemma FullBetween(l: Link, j: nat, n: nat, packets: seq<seq<bv8>>)
    requires ValidLink(l) && packets != []
    ensures Between(l, j, n, packets) == Fill(l.end, j) + (Fill(l.start, n) + (Body(l, packets[0]) + Stream(l, packets[1..])))
    ensures Stream(l, packets) == Fill(l.start, 3) + (Body(l, packets[0]) + Stream(l, packets[1..]))
  {
    hide Body, Fill;
  }

  /** After a call that left a byte of the next preamble. */
  lemma LeavesPreamble(l: Link, o: nat, packets: seq<seq<bv8>>)
    requires ValidLink(l) && o <= 3 + |Stream(l, packets)| && (packets == [] || o <= 5)
    ensures (Fill(l.end, EPILOGUE_LEN) + Stream(l, packets))[o..]
         == Between(l, if o <= 3 then 3 - o else 0, if o <= 3 then 3 else 3 - Min(o - 3, 2), packets)
  {
    hide Body, Between, Stream, Fill, ValidLink;
    var j: nat, n: nat := if o <= 3 then 3 - o else 0, if o <= 3 then 3 else 3 - Min(o - 3, 2);
    if packets == [] {
      EmptyBetween(l, j, n);
    } else {
      FullBetween(l, j, n, packets);
    }
    var s := Stream(l, packets);
    if o <= 3 {
      DropFill(l.end, 3, s, o);
    } else {
      var t := Body(l, packets[0]) + Stream(l, packets[1..]);
      DropFill(l.end, 3, s, 3);
      NoFill(l.end, s);
      DropTwice(Fill(l.end, 3) + s, 3, o - 3);
      DropFill(l.start, 3, t, o - 3);
      NoFill(l.end, Fill(l.start, n) + t);
    }
  }

  lemma NoFill(x: nat, s: seq<nat>)
    ensures Fill(x, 0) + s == s
  {
  }

  /** One turn of waiting and receiving. */
  lemma OneTurn(l: Link, j: nat, n: nat, packets: seq<seq<bv8>>, overs: seq<nat>) returns (o: nat)
    requires ValidLink(l) && 1 <= n <= 3 && packets != [] && Sendable(packets) && overs != []
    ensures IsBytes(Between(l, j, n, packets))
    ensures var tail := Stream(l, packets[1..]);
      && 1 <= o <= 3 + |tail| && (o == Over(overs[0]) || (o < Over(overs[0]) && (o >= 8 || o == 3 + |tail|)))
      && IsBytes((Fill(l.end, EPILOGUE_LEN) + tail)[o..])
      && Packets(l, Between(l, j, n, packets), overs)
         == [packets[0]] + Packets(l, (Fill(l.end, EPILOGUE_LEN) + tail)[o..], overs[1..])
  {
    hide Body, Find, Stream, Rest, Outcome, Taken, Between, Packets, Fill, Over, ValidLink, IsBytes;
    var line, tail := Between(l, j, n, packets), Stream(l, packets[1..]);
    BetweenIsBytes(l, j, n, packets);
    Waits(l, j, n, packets);
    StreamIsBytes(l, packets[1..]);
    o := OneFrame(l, n - 1, packets[0], tail, overs[0]);
    var rest := Rest(l, n - 1, packets[0], tail);
    DropIsBytes(rest, Taken(l, rest, overs[0]));
    PacketsStep(l, line, rest, overs[0], (Fill(l.end, EPILOGUE_LEN) + tail)[o..], overs[1..]);
    assert overs == [overs[0]] + overs[1..];
  }

  lemma DropIsBytes(s: seq<nat>, m: nat)
    requires IsBytes(s) && m <= |s|
    ensures IsBytes(s[m..])
  {
  }

  /** No call reads more than two bytes of the next preamble, so that one is left to wait for. */
  predicate LeavesStart(packets: seq<seq<bv8>>, overs: seq<nat>) {
    |packets| <= |overs| && forall i :: 0 <= i < |packets| - 1 ==> overs[i] <= EPILOGUE_LEN + PREAMBLE_LEN - 1
  }

  lemma NothingReceived(l: Link, j: nat, n: nat, overs: seq<nat>)
    requires ValidLink(l)
    ensures IsBytes(Between(l, j, n, [])) && Packets(l, Between(l, j, n, []), overs) == []
  {
    BetweenIsBytes(l, j, n, []);
    FindNone(Between(l, j, n, []), l.start);
  }

  lemma {:induction false} ReceivedFrom(l: Link, j: nat, n: nat, packets: seq<seq<bv8>>, overs: seq<nat>)
    requires ValidLink(l) && 1 <= n <= 3 && Sendable(packets) && LeavesStart(packets, overs)
    ensures IsBytes(Between(l, j, n, packets)) && Packets(l, Between(l, j, n, packets), overs) == packets
    decreases |packets|
  {
    hide Packets, Between, Stream, Fill;
    if packets == [] {
      NothingReceived(l, j, n, overs);
    } else {
      var o := OneTurn(l, j, n, packets, overs);
      var rest := packets[1..];
      assert rest == [] ==> Stream(l, rest) == [] by { NoStream(l); }
      LeavesPreamble(l, o, rest);
      ReceivedFrom(l, if o <= 3 then 3 - o else 0, if o <= 3 then 3 else 3 - Min(o - 3, 2), rest, overs[1..]);
      assert packets == [packets[0]] + rest;
    }
  }

  lemma NoStream(l: Link)
    requires ValidLink(l)
    ensures Stream(l, []) == []
  {
  }

  // ---------- Reading too far loses a packet ----------

  /** How many runs of start symbols there are; each is worth at most one packet. */
  function Preambles(l: Link, s: seq<nat>): nat {
    if s == [] then 0
    else (if s[0] == l.start && (|s| == 1 || s[1] != l.start) then 1 else 0) + Preambles(l, s[1..])
  }

  lemma {:induction false} PreamblesDrop(l: Link, s: seq<nat>, m: nat)
    requires m <= |s|
    ensures Preambles(l, s[m..]) <= Preambles(l, s)
    decreases m
  {
    if m > 0 {
      assert s[m..] == s[1..][m - 1..];
      PreamblesDrop(l, s[1..], m - 1);
    } else {
      assert s[0..] == s;
    }
  }

  /** Skipping past the end of a run of start symbols skips the run. */
  lemma {:induction false} RunEnds(l: Link, s: seq<nat>, f: nat)
    requires 0 < f < |s| && s[0] == l.start && s[f] != l.start
    ensures Preambles(l, s[f..]) + 1 <= Preambles(l, s)
    decreases f
  {
    var t := s[1..];
    assert s[f..] == t[f - 1..];
    if s[1] != l.start {
      PreamblesDrop(l, t, f - 1);
    } else {
      RunEnds(l, t, f - 1);
    }
  }

  lemma DropTwice(s: seq<nat>, a: nat, b: nat)
    requires a + b <= |s|
    ensures s[a..][b..] == s[a + b..]
  {
  }

  /** Past the end symbol after a start symbol, one run is gone. */
  lemma PastFrame(l: Link, line: seq<nat>, i: nat, f: nat, m: nat)
    requires i + 1 + f < i + 1 + m <= |line| && line[i] == l.start && line[i + 1 + f] != l.start
    ensures Preambles(l, line[i + 1 + m..]) + 1 <= Preambles(l, line)
  {
    hide Preambles;
    PreamblesDrop(l, line, i);
    RunEnds(l, line[i..], f + 1);
    DropTwice(line, i, f + 1);
    PreamblesDrop(l, line[i + 1 + f..], m - f);
    DropTwice(line, i + 1 + f, m - f);
  }

  lemma OneTurnDrops(l: Link, line: seq<nat>, i: nat, over: nat)
    requires ValidLink(l) && IsBytes(line) && i < |line| && line[i] == l.start
    ensures var rest := line[i + 1..];
      Preambles(l, rest[Taken(l, rest, over)..]) + (if Outcome(l, rest).Got? then 1 else 0) <= Preambles(l, line)
  {
    hide Preambles, Decode, Find;
    var rest := line[i + 1..];
    var m, f := Taken(l, rest, over), Find(rest, l.end);
    DropTwice(line, i + 1, m);
    PreamblesDrop(l, line, i + 1 + m);
    if Outcome(l, rest).Got? {
      assert line[i + 1 + f] == rest[f];
      PastFrame(l, line, i, f, m);
    }
  }

  /** No reading of a line brings more packets than the line has runs of start symbols. */
  lemma {:induction false} AtMostPreambles(l: Link, line: seq<nat>, overs: seq<nat>)
    requires ValidLink(l) && IsBytes(line)
    ensures |Packets(l, line, overs)| <= Preambles(l, line)
    decreases |overs|
  {
    hide Preambles, Outcome, Find, Taken, ValidLink;
    var i := Find(line, l.start);
    if i < |line| && overs != [] {
      var rest := line[i + 1..];
      AtMostPreambles(l, rest[Taken(l, rest, overs[0])..], overs[1..]);
      OneTurnDrops(l, line, i, overs[0]);
    }
  }

  lemma {:induction false} PreamblesSkip(l: Link, x: seq<nat>, s: seq<nat>)
    requires l.start !in x
    ensures Preambles(l, x + s) == Preambles(l, s)
    decreases |x|
  {
    if x == [] {
      assert x + s == s;
    } else {
      assert (x + s)[1..] == x[1..] + s;
      PreamblesSkip(l, x[1..], s);
    }
  }

  lemma NoStartInBody(l: Link, payload: seq<bv8>)
    requires ValidLink(l)
    ensures l.start !in Body(l, payload) && Body(l, payload) != []
  {
    hide Symbols;
    NoFraming(l, payload);
  }

  lemma OneStart(l: Link, s: seq<nat>)
    requires s != []
    ensures Preambles(l, [l.start] + s) == (if s[0] == l.start then 0 else 1) + Preambles(l, s)
  {
    assert ([l.start] + s)[1..] == s;
  }

  lemma OnePreamble(l: Link, s: seq<nat>)
    requires s != [] && s[0] != l.start
    ensures Preambles(l, Fill(l.start, 3) + s) == 1 + Preambles(l, s)
  {
    hide Preambles;
    OneStart(l, s);
    OneStart(l, [l.start] + s);
    OneStart(l, [l.start] + ([l.start] + s));
    assert Fill(l.start, 3) + s == [l.start] + ([l.start] + ([l.start] + s));
  }

  lemma {:induction false} PreamblesOfStream(l: Link, packets: seq<seq<bv8>>)
    requires ValidLink(l)
    ensures Preambles(l, Stream(l, packets)) == |packets|
    decreases |packets|
  {
    hide Body, Preambles, Fill;
    if packets == [] {
      NoPreamble(l);
    } else {
      var tail := Stream(l, packets[1..]);
      var s := Body(l, packets[0]) + tail;
      NoStartInBody(l, packets[0]);
      assert s[0] == Body(l, packets[0])[0];
      PreamblesOfStream(l, packets[1..]);
      PreamblesSkip(l, Body(l, packets[0]), tail);
      OnePreamble(l, s);
      assert Stream(l, packets) == Fill(l.start, 3) + s;
    }
  }

  lemma NoPreamble(l: Link)
    ensures Preambles(l, []) == 0
  {
  }

  /** Once a whole preamble has been read away, its packet is lost. */
  lemma LostPreamble(l: Link, packets: seq<seq<bv8>>, o: nat, overs: seq<nat>)
    requires ValidLink(l) && packets != [] && 6 <= o <= 3 + |Stream(l, packets)|
    ensures var line := (Fill(l.end, EPILOGUE_LEN) + Stream(l, packets))[o..];
      IsBytes(line) && |Packets(l, line, overs)| < |packets|
  {
    hide Body, Preambles, Packets, Fill;
    StreamIsBytes(l, packets);
    var tail := Stream(l, packets[1..]);
    var s := Body(l, packets[0]) + tail;
    assert Stream(l, packets) == Fill(l.start, 3) + s;
    var line := (Fill(l.end, EPILOGUE_LEN) + Stream(l, packets))[o..];
    assert line == s[o - 6..];
    PreamblesDrop(l, s, o - 6);
    NoStartInBody(l, packets[0]);
    PreamblesSkip(l, Body(l, packets[0]), tail);
    PreamblesOfStream(l, packets[1..]);
    AtMostPreambles(l, line, overs);
  }

  lemma LongStream(l: Link, packets: seq<seq<bv8>>)
    requires ValidLink(l) && packets != []
    ensures |Stream(l, packets)| >= 8
  {
    hide Symbols;
    FrameLength(l, packets[0]);
  }

  lemma {:induction false} LosesSome(l: Link, j: nat, n: nat, packets: seq<seq<bv8>>, overs: seq<nat>)
    requires ValidLink(l) && 1 <= n <= 3 && Sendable(packets)
    requires |packets| <= |overs| && !LeavesStart(packets, overs)
    ensures IsBytes(Between(l, j, n, packets)) && |Packets(l, Between(l, j, n, packets), overs)| < |packets|
    decreases |packets|
  {
    hide Packets, Between, Stream, Fill;
    var rest := packets[1..];
    assert rest != [];
    var o := OneTurn(l, j, n, packets, overs);
    LongStream(l, rest);
    if overs[0] > 5 {
      LostPreamble(l, rest, o, overs[1..]);
    } else {
      LeavesPreamble(l, o, rest);
      LosesSome(l, if o <= 3 then 3 - o else 0, if o <= 3 then 3 else 3 - Min(o - 3, 2), rest, overs[1..]);
    }
  }

  /**
   Main result: frames sent back to back come out as exactly the packets, in order, for
   every way of splitting the line into reads, if and only if no read that holds a
   frame's first end symbol takes the whole preamble of the next frame with it.
   */
  lemma AllReceivedIff(l: Link, packets: seq<seq<bv8>>, overs: seq<nat>)
    requires ValidLink(l) && Sendable(packets)
    ensures IsBytes(Stream(l, packets))
    ensures Packets(l, Stream(l, packets), overs) == packets <==> LeavesStart(packets, overs)
  {
    hide Packets, Between, Stream;
    NothingPending(l, packets);
    BetweenIsBytes(l, 0, 3, packets);
    if LeavesStart(packets, overs) {
      ReceivedFrom(l, 0, 3, packets, overs);
    } else if |packets| <= |overs| {
      LosesSome(l, 0, 3, packets, overs);
    } else {
      OnePerTurn(l, Stream(l, packets), overs);
    }
  }

  /** Each turn brings at most one packet. */
  lemma {:induction false} OnePerTurn(l: Link, line: seq<nat>, overs: seq<nat>)
    requires ValidLink(l) && IsBytes(line)
    ensures |Packets(l, line, overs)| <= |overs|
    decreases |overs|
  {
    hide Find, Taken, Outcome, ValidLink;
    var i := Find(line, l.start);
    if i != |line| && overs != [] {
      OnePerTurn(l, line[i + 1..][Taken(l, line[i + 1..], overs[0])..], overs[1..]);
    }
  }

  // ---------- Room for what is decoded ----------

  /** The next frame decodes into the packet buffer. */
  ghost predicate Fits(l: Link, line: seq<nat>)
    requires ValidLink(l) && IsBytes(line)
  {
    !Outcome(l, line).Overflow?
  }

  /** How many bytes n symbols decode to. */
  function DecodedSize(n: nat): nat {
    n / 8 * 7 + (if n % 8 == 0 then 0 else n % 8 - 1)
  }

  lemma {:induction false} DecodedLength(c: Codec, s: seq<nat>)
    requires Valid(c) && c.bits == 7 && IsBytes(s)
    ensures |SymbolsToBytes(c, s)| == DecodedSize(|s|)
    decreases |s|
  {
    hide S2b, Valid;
    if |s| > 8 {
      DecodedLength(c, s[8..]);
      DecodeHead(c, s[..8], s[8..]);
      assert s == s[..8] + s[8..];
    }
  }

  lemma Pieces(a: seq<nat>, b: seq<nat>, s: seq<nat>, c: seq<nat>)
    requires |a| == 3 && |b| == 2 && |c| == 3
    ensures var f := a + (b + s + c);
      && |f| == |s| + 8 && (forall k :: 0 <= k < 3 ==> f[k] == a[k]) && (forall k :: 3 <= k < 5 ==> f[k] == b[k - 3])
      && (forall k :: |f| - 3 <= k < |f| ==> f[k] == c[k - |s| - 5])
  {
  }

  lemma FrameBytes(l: Link, payload: seq<bv8>)
    requires ValidLink(l)
    ensures var f := Frame(l, payload);
      && IsBytes(f) && |f| == |Symbols(l, payload)| + 8
      && (forall k :: 0 <= k < 5 ==> !SymbolValid(l, f[k]))
      && (forall k :: |f| - 3 <= k < |f| ==> f[k] == l.end)
  {
    LinkIsBytes(l);
    BodyIsBytes(l, payload);
    FillIsBytes(l.start, PREAMBLE_LEN);
    JoinIsBytes(Fill(l.start, PREAMBLE_LEN), Body(l, payload));
    hide Symbols, SymbolValid, IsBytes, ValidLink;
    Pieces(Fill(l.start, 3), Fill(l.sync, 2), Symbols(l, payload), Fill(l.end, 3));
    FramingSymbols(l);
    var f := Frame(l, payload);
    assert forall k :: 0 <= k < 5 ==> f[k] == (if k < 3 then l.start else l.sync);
  }

  lemma FramingSymbols(l: Link)
    requires ValidLink(l)
    ensures !SymbolValid(l, l.start) && !SymbolValid(l, l.sync)
  {
  }

  /** Wherever in a frame the reading starts, what comes before its end symbols fits. */
  lemma FrameFits(l: Link, payload: seq<bv8>, k: nat, tail: seq<nat>)
    requires ValidLink(l) && IsBytes(tail) && |payload| <= RADIO_MTU && k < |Frame(l, payload)|
    ensures IsBytes(Frame(l, payload)[k..] + tail) && Fits(l, Frame(l, payload)[k..] + tail)
  {
    hide Frame, Symbols, Body, SymbolsToBytes, EncodedLength;
    FrameBytes(l, payload);
    FrameLength(l, payload);
    LongestSymbols(l, payload);
    var f := Frame(l, payload);
    var line := f[k..] + tail;
    assert forall j :: 0 <= j < |f| - k ==> line[j] == f[k + j];
    var i := Find(line, l.end);
    assert line[if k <= |f| - 3 then |f| - 3 - k else 0] == l.end;
    var buffer := line[..i];
    var symbols := buffer[FirstValid(l, buffer)..];
    assert FirstValid(l, buffer) < |buffer| ==> k + FirstValid(l, buffer) >= 5;
    DecodedLength(l.codec, symbols);
    ShortEnough(|symbols|);
  }

  lemma ShortEnough(n: nat)
    requires n <= 1831
    ensures DecodedSize(n) <= RADIO_MTU + CRC16_LEN
  {
  }

  /** Frames sent back to back fit, wherever the reading starts. */
  lemma {:induction false} StreamFits(l: Link, packets: seq<seq<bv8>>, k: nat)
    requires ValidLink(l) && Sendable(packets) && k <= |Stream(l, packets)|
    ensures IsBytes(Stream(l, packets)[k..]) && Fits(l, Stream(l, packets)[k..])
    decreases |packets|
  {
    hide Frame, Fits;
    StreamIsBytes(l, packets);
    if packets == [] {
      NothingFits(l);
    } else {
      var f, tail := Frame(l, packets[0]), Stream(l, packets[1..]);
      StreamIsBytes(l, packets[1..]);
      if k < |f| {
        FrameFits(l, packets[0], k, tail);
        assert (f + tail)[k..] == f[k..] + tail;
      } else {
        StreamFits(l, packets[1..], k - |f|);
        assert (f + tail)[k..] == tail[k - |f|..];
      }
    }
  }

  lemma NothingFits(l: Link)
    requires ValidLink(l)
    ensures Fits(l, [])
  {
  }

  // ---------- The device ----------

  /** What `write` answers, call by call: an error if negative, else how many bytes it would take. */
  function Accepts(results: seq<int>, room: nat): (n: nat)
    ensures n <= room
  {
    if results == [] then 0
    else if results[0] < 0 then Accepts(results[1..], room)
    else Min(results[0], room) + Accepts(results[1..], room - Min(results[0], room))
  }

  lemma {:induction false} AcceptsAll(results: seq<int>, room: nat, k: nat, n: nat)
    requires k <= |results| && n == Accepts(results[..k], room)
    ensures n == room ==> Accepts(results, room) == room
    ensures k < |results| && results[k] < 0 ==> Accepts(results[..k + 1], room) == n
    ensures k < |results| && results[k] >= 0 ==> Accepts(results[..k + 1], room) == n + Min(results[k], room - n)
    decreases |results|
  {
    if k == 0 {
      if results != [] {
        assert results[..1][1..] == [] && results[..1][0] == results[0];
      }
      if room == 0 {
        NoRoom(results);
      }
    } else {
      var m: nat := if results[0] < 0 then 0 else Min(results[0], room);
      assert results[..k][1..] == results[1..][..k - 1];
      assert k < |results| ==> results[..k + 1][1..] == results[1..][..k];
      AcceptsAll(results[1..], room - m, k - 1, n - m);
    }
  }

  /** What the driver would take in all. */
  function Total(results: seq<int>): nat {
    if results == [] then 0 else (if results[0] < 0 then 0 else results[0]) + Total(results[1..])
  }

  /** The whole frame goes out as soon as the driver has been willing to take that many bytes. */
  lemma {:induction false} AcceptsIsMin(results: seq<int>, room: nat)
    ensures Accepts(results, room) == Min(Total(results), room)
    decreases |results|
  {
    if results != [] {
      AcceptsIsMin(results[1..], if results[0] < 0 then room else room - Min(results[0], room));
    }
  }

  lemma {:induction false} NoRoom(results: seq<int>)
    ensures Accepts(results, 0) == 0
    decreases |results|
  {
    if results != [] {
      NoRoom(results[1..]);
    }
  }

  method Memset(a: array<nat>, from: nat, x: nat, n: nat)
    requires from + n <= a.Length
    modifies a
    ensures a[..] == Splice(old(a[..]), from, Fill(x, n))
  {
    for k := 0 to n
      invariant forall i :: 0 <= i < a.Length ==> a[i] == if from <= i < from + k then x else old(a[i])
    {
      a[from + k] := x;
    }
  }

  lemma FrameInBuffer(l: Link, payload: seq<bv8>, b0: seq<nat>, b1: seq<nat>, b2: seq<nat>, b3: seq<nat>, b4: seq<nat>)
    requires ValidLink(l) && |Frame(l, payload)| <= |b0| && |Symbols(l, payload)| + 8 <= |b0|
    requires b1 == Splice(b0, 0, Fill(l.start, 3))
    requires |b1| >= 5 && b2 == Splice(b1, 3, Fill(l.sync, 2))
    requires |b2| >= 5 + |Symbols(l, payload)| && b3 == Splice(b2, 5, Symbols(l, payload))
    requires |b3| >= 8 + |Symbols(l, payload)| && b4 == Splice(b3, 5 + |Symbols(l, payload)|, Fill(l.end, 3))
    ensures |b4| == |b0| && |Frame(l, payload)| == |Symbols(l, payload)| + 8 && b4[..|Frame(l, payload)|] == Frame(l, payload)
  {
    hide Symbols, Fill;
    var s := Symbols(l, payload);
    var a, b, c := Fill(l.start, 3), Fill(l.sync, 2), Fill(l.end, 3);
    assert b1[..3] == a;
    assert b2[..5] == a + b;
    assert b3[..5 + |s|] == a + b + s;
    assert b4[..8 + |s|] == a + b + s + c;
    assert a + b + s + c == a + (b + s + c);
  }

  /** The CRC decides, and the packet is what comes before it. */
  method CheckPacket(packet: seq<bv8>) returns (r: Reception)
    ensures r == Checked(packet)
  {
    hide Accepted;
    var nbytes := |packet|;
    var bytes := new bv8[nbytes](k requires 0 <= k < nbytes => packet[k]);
    assert bytes[..nbytes] == packet;
    var ok := Crc16Check(bytes, nbytes);
    if !ok {
      return Rejected;
    }
    AtLeastCrc(packet);
    return if nbytes == CRC16_LEN then Aborted else Got(packet[..nbytes - CRC16_LEN]);
  }

  lemma DecodeIs(l: Link, buffer: seq<nat>)
    requires ValidLink(l) && IsBytes(buffer)
    ensures IsBytes(BufferBytes(l, buffer))
    ensures Decode(l, buffer) ==
      if |BufferBytes(l, buffer)| > RADIO_MTU + CRC16_LEN then Overflow else Checked(BytesOf(BufferBytes(l, buffer)))
  {
  }

  function BytesOf(s: seq<nat>): seq<bv8>
    requires IsBytes(s)
  {
    MachineBytes(s)
  }

  lemma LinkParts(l: Link)
    requires ValidLink(l)
    ensures Valid(l.codec) && |l.codec.decode| == 256
  {
  }

  lemma SuffixIsBytes(a: array<nat>, i: nat, n: nat)
    requires i <= n <= a.Length && IsBytes(a[..n])
    ensures IsBytes(a[..n][i..]) && a[i..i + (n - i)] == a[..n][i..]
  {
  }

  class Device {
    const link: Link
    /** The bytes still to be read. */
    var line: seq<nat>
    /** The bytes written so far. */
    var sent: seq<nat>

    ghost predicate Ready()
      reads this
    {
      ValidLink(link) && IsBytes(line)
    }

    constructor (link: Link, line: seq<nat>)
      requires ValidLink(link) && IsBytes(line)
      ensures Ready() && this.link == link && this.line == line && sent == []
    {
      this.link, this.line, this.sent := link, line, [];
    }

    /** The first half of radio_send: preamble, sync, data and epilogue. */
    method BuildFrame(packet: seq<bv8>, send_buffer: array<nat>) returns (frame_length: nat)
      requires Ready() && |packet| <= RADIO_MTU && send_buffer.Length == MAX_FRAME
      modifies send_buffer
      ensures frame_length == |Frame(link, packet)| <= MAX_FRAME
      ensures send_buffer[..frame_length] == Frame(link, packet)
    {
      hide Frame, Symbols, Sealed, Splice, Fill, EncodedLength, Numbers, BytesToSymbols;
      var nbytes := |packet| + CRC16_LEN;
      var packet_buffer := new bv8[nbytes](i requires 0 <= i < nbytes => if i < |packet| then packet[i] else 0);
      assert packet_buffer[..|packet|] == packet;
      Crc16Set(packet_buffer, nbytes);
      var bytes := Numbers(packet_buffer[..]);
      assert packet_buffer[..] == Sealed(packet) by { assert packet_buffer[..] == Sealed(packet) + []; }
      var numbers := new nat[|bytes|](i requires 0 <= i < |bytes| => bytes[i]);
      assert numbers[..nbytes] == bytes;
      LongestSymbols(link, packet);
      SymbolsOf(link, packet, bytes);
      FramesFit(link, packet);
      ghost var b0 := send_buffer[..];
      Memset(send_buffer, 0, link.start, PREAMBLE_LEN);
      ghost var b1 := send_buffer[..];
      Memset(send_buffer, PREAMBLE_LEN, link.sync, UARTSYNC_LEN);
      ghost var b2 := send_buffer[..];
      var nsym := Pack(link.codec, numbers, nbytes, send_buffer, PREAMBLE_LEN + UARTSYNC_LEN);
      ghost var b3 := send_buffer[..];
      Memset(send_buffer, PREAMBLE_LEN + UARTSYNC_LEN + nsym, link.end, EPILOGUE_LEN);
      FrameInBuffer(link, packet, b0, b1, b2, b3, send_buffer[..]);
      frame_length := PREAMBLE_LEN + UARTSYNC_LEN + nsym + EPILOGUE_LEN;
      assert send_buffer[..][..frame_length] == send_buffer[..frame_length];
    }

    /** radio_send: the frame goes out once and in order, as far as the driver takes it. */
    method Send(packet: seq<bv8>, results: seq<int>)
      requires Ready() && |packet| <= RADIO_MTU
      modifies this`sent
      ensures |Frame(link, packet)| <= MAX_FRAME
      ensures sent == old(sent) + Frame(link, packet)[..Accepts(results, |Frame(link, packet)|)]
    {
      hide Frame, Accepts, ValidLink;
      ghost var was := sent;
      var send_buffer := new nat[MAX_FRAME];
      var frame_length := BuildFrame(packet, send_buffer);
      ghost var frame := Frame(link, packet);
      var n: nat, k := 0, 0;
      assert results[..0] == [];
      NothingAccepted(frame_length);
      while n < frame_length && k < |results|
        invariant k <= |results| && n == Accepts(results[..k], frame_length) <= frame_length
        invariant send_buffer[..frame_length] == frame && sent == was + frame[..n]
        decreases |results| - k
      {
        AcceptsAll(results, frame_length, k, n);
        if results[k] >= 0 {
          var e := Min(results[k], frame_length - n);
          SliceOfFrame(send_buffer, frame, n, e);
          sent := sent + send_buffer[n..n + e];
          assert frame[..n + e] == frame[..n] + frame[n..n + e];
          n := n + e;
        }
        k := k + 1;
      }
      AcceptsAll(results, frame_length, k, n);
      assert results[..|results|] == results;
    }

    /** Any `read`: at least one byte, at most `room`, and how many is not up to us. */
    method Read(buffer: array<nat>, from: nat, room: nat) returns (e: nat)
      requires Ready() && line != [] && room > 0 && from + room <= buffer.Length
      modifies this`line, buffer
      ensures 1 <= e <= Min(room, |old(line)|) && line == old(line)[e..]
      ensures buffer[..] == Splice(old(buffer[..]), from, old(line)[..e])
    {
      e :| 1 <= e <= Min(room, |line|);
      for k := 0 to e
        invariant line == old(line) && 1 <= e <= Min(room, |line|)
        invariant forall i :: 0 <= i < buffer.Length ==> buffer[i] == if from <= i < from + k then line[i - from] else old(buffer[i])
      {
        buffer[from + k] := line[k];
      }
      line := line[e..];
    }

    /**
     radio_wait: read single bytes up to and with the first start symbol, or until the line
     runs dry or the deadline comes; polls says how often polling succeeds before it does.
     */
    method Wait(polls: nat) returns (found: bool, left: nat)
      requires Ready()
      modifies this`line
      ensures Ready() && (found <==> Find(old(line), link.start) < Min(|old(line)|, polls))
      ensures var used := if found then Find(old(line), link.start) + 1 else Min(|old(line)|, polls);
        used <= |old(line)| && line == old(line)[used..] && left == polls - used
    {
      hide Find, ValidLink;
      ghost var was := line;
      ghost var n: nat := 0;
      left := polls;
      var c := new nat[1];
      while line != [] && left > 0
        invariant n <= |was| && line == was[n..] && IsBytes(line) && left == polls - n
        invariant forall k :: 0 <= k < n ==> was[k] != link.start
        decreases |line|
      {
        var e := Read(c, 0, 1);
        assert c[..][0] == was[n];
        n, left := n + 1, left - 1;
        if c[0] == link.start {
          FindIs(was, link.start, n - 1);
          return true, left;
        }
      }
      NotYet(was, link.start, n);
      return false, left;
    }

    /** Look for an end symbol in the e bytes just read. */
    method ScanChunk(recv_buffer: array<nat>, n: nat, e: nat) returns (i: nat, stopped: bool)
      requires n + e <= recv_buffer.Length
      ensures n <= i <= n + e && (stopped <==> i < n + e) && (stopped ==> recv_buffer[i] == link.end)
      ensures forall k :: n <= k < i ==> recv_buffer[k] != link.end
    {
      i, stopped := n, false;
      while i < n + e && !stopped
        invariant n <= i <= n + e && (stopped ==> i < n + e && recv_buffer[i] == link.end)
        invariant forall k :: n <= k < i ==> recv_buffer[k] != link.end
        decreases n + e - i, !stopped
      {
        if recv_buffer[i] == link.end {
          stopped := true;
        } else {
          i := i + 1;
        }
      }
    }

    /**
     The first half of radio_recv: read until a chunk holds an end symbol; what follows it
     in that chunk is gone.  When the deadline comes first, what was read is gone.
     */
    method ReadFrame(recv_buffer: array<nat>, polls: nat) returns (n: nat, stopped: bool, late: bool, left: nat, ghost taken: nat)
      requires Ready() && recv_buffer.Length == MAX_FRAME
      modifies this`line, recv_buffer
      ensures Ready() && taken <= |old(line)| && line == old(line)[taken..] && polls - taken <= left <= polls
      ensures var i, all := Find(old(line), link.end), Min(|old(line)|, MAX_FRAME);
        && (late ==> !stopped && left == 0 && taken <= i && taken < all)
        && (!late ==> (stopped <==> i < all))
        && (stopped ==> n == i < taken <= MAX_FRAME && recv_buffer[..n] == old(line)[..n])
        && (!late && !stopped ==> taken == all)
    {
      hide Find, ValidLink, Splice;
      ghost var was := line;
      n, stopped, late, left, taken := 0, false, false, polls, 0;
      while !stopped && n < MAX_FRAME
        invariant n <= taken <= |was| && n <= MAX_FRAME && taken <= MAX_FRAME && line == was[taken..] && IsBytes(line)
        invariant recv_buffer[..n] == was[..n] && forall k :: 0 <= k < n ==> was[k] != link.end
        invariant !stopped ==> n == taken
        invariant stopped ==> n < taken && was[n] == link.end
        invariant !late && polls - taken <= left <= polls
        decreases |line|, !stopped
      {
        if line == [] {
          break;
        }
        if left == 0 {
          late := true;
          NotYet(was, link.end, n);
          return;
        }
        ghost var before, unread := recv_buffer[..], line;
        var e := Read(recv_buffer, n, MAX_FRAME - n);
        left, taken := left - 1, n + e;
        Appended(was, before, recv_buffer[..], n, e);
        assert line == was[taken..];
        var i;
        i, stopped := ScanChunk(recv_buffer, n, e);
        Scanned(was, recv_buffer[..], n, e, i, link.end);
        assert recv_buffer[..][..i] == recv_buffer[..i];
        n := i;
      }
      if stopped {
        FindIs(was, link.end, n);
      } else {
        NotYet(was, link.end, n);
      }
    }

    /** The offset of the first valid symbol. */
    method SkipInvalid(recv_buffer: array<nat>, n: nat) returns (i: nat)
      requires Ready() && n <= recv_buffer.Length && IsBytes(recv_buffer[..n])
      ensures i == FirstValid(link, recv_buffer[..n])
    {
      LinkParts(link);
      hide ValidLink, FirstValid, Valid;
      ghost var buffer := recv_buffer[..n];
      i := 0;
      while i < n && link.codec.decode[recv_buffer[i]] < 0
        invariant i <= n && forall k :: 0 <= k < i ==> !SymbolValid(link, buffer[k])
      {
        assert buffer[i] == recv_buffer[i];
        i := i + 1;
        assert i < n ==> buffer[i] == recv_buffer[i];
      }
      FirstValidIs(link, buffer, i);
    }

    /** The second half of radio_recv: skip to the first valid symbol, decode, check. */
    method DecodeBuffer(recv_buffer: array<nat>, n: nat) returns (r: Reception)
      requires Ready() && n <= recv_buffer.Length && IsBytes(recv_buffer[..n])
      ensures r == Decode(link, recv_buffer[..n])
    {
      LinkParts(link);
      hide ValidLink, FirstValid, SymbolsToBytes, MachineBytes, Valid, Checked, IsBytes, DecodedSize;
      var i := SkipInvalid(recv_buffer, n);
      SuffixIsBytes(recv_buffer, i, n);
      DecodedLength(link.codec, recv_buffer[..n][i..]);
      DecodeIs(link, recv_buffer[..n]);
      hide Decode;
      if DecodedSize(n - i) > RADIO_MTU + CRC16_LEN {
        return Overflow;
      }
      r := DecodeFrom(recv_buffer, i, n, recv_buffer[..n][i..], BufferBytes(link, recv_buffer[..n]));
    }

    /** symbols_to_bytes into the packet buffer, and the check. */
    method DecodeFrom(recv_buffer: array<nat>, i: nat, n: nat, ghost symbols: seq<nat>, ghost bytes: seq<nat>) returns (r: Reception)
      requires i <= n <= recv_buffer.Length && symbols == recv_buffer[i..i + (n - i)]
      requires |bytes| <= RADIO_MTU + CRC16_LEN && IsBytes(symbols) && IsBytes(bytes)
      requires Valid(link.codec) && bytes == SymbolsToBytes(link.codec, symbols)
      ensures r == Checked(BytesOf(bytes))
    {
      hide *;
      var packet_buffer := new nat[RADIO_MTU + CRC16_LEN];
      ghost var before := packet_buffer[..];
      var nbytes := Unpack(link.codec, recv_buffer, i, n - i, packet_buffer);
      SpliceStart(before, bytes);
      assert packet_buffer[..nbytes] == packet_buffer[..][..nbytes];
      r := CheckPacket(BytesOf(packet_buffer[..nbytes]));
    }

    /** radio_recv; over is how much the read with the first end symbol brought from that symbol on. */
    method Recv(polls: nat) returns (r: Reception, late: bool, left: nat, ghost over: nat)
      requires Ready()
      modifies this`line
      ensures Ready() && |line| <= |old(line)| && polls - (|old(line)| - |line|) <= left <= polls
      ensures late ==> r == Rejected && left == 0 && line != []
      ensures late ==> exists t: nat :: t <= Find(old(line), link.end) && t < MAX_FRAME && line == old(line)[t..]
      ensures !late ==> r == Outcome(link, old(line)) && Reads(link, old(line), over, line)
    {
      hide Find, ValidLink, Decode, BufferBytes;
      ghost var was := line;
      var recv_buffer := new nat[MAX_FRAME];
      var n, stopped;
      ghost var taken;
      n, stopped, late, left, taken := ReadFrame(recv_buffer, polls);
      if !stopped {
        return Rejected, late, left, 0;
      }
      over := taken - n;
      r := DecodeBuffer(recv_buffer, n);
    }

    /** One turn of waiting and receiving; over as for Recv. */
    method Turn(polls: nat) returns (found: bool, late: bool, r: Reception, left: nat, ghost over: nat)
      requires Ready()
      modifies this`line
      ensures Ready() && |line| <= |old(line)| && line == old(line)[|old(line)| - |line|..]
      ensures polls - (|old(line)| - |line|) <= left <= polls && (late ==> left == 0 && line != [])
      ensures var was, i := old(line), Find(old(line), link.start);
        && (found ==> i < |was| && |line| < |was| && IsBytes(was[i + 1..]))
        && (!found ==> r == Rejected && (!late ==> line == [] && i == |was|))
        && (late ==> CutShort(link, was, 0, |was| - |line|))
        && (found && !late ==> r == Outcome(link, was[i + 1..]) && Reads(link, was[i + 1..], over, line))
    {
      hide Find, Outcome, ValidLink, Reads, CutShort, Taken, IsBytes;
      ghost var was := line;
      assert was[0..] == was;
      found, left := Wait(polls);
      if !found {
        late := line != [];
        r, over := Rejected, 0;
        if late {
          CutWaiting(link, was, 0, |was| - |line|);
        } else {
          DryLine(link, was);
        }
        return;
      }
      r, late, left, over := RecvAfter(left, was, Find(was, link.start));
    }

    /** radio_recv after a start symbol at place i of the line. */
    method RecvAfter(polls: nat, ghost was: seq<nat>, ghost i: nat) returns (r: Reception, late: bool, left: nat, ghost over: nat)
      requires Ready() && IsBytes(was) && Find(was, link.start) == i < |was| && line == was[i + 1..]
      modifies this`line
      ensures Ready() && |line| < |was| && line == was[|was| - |line|..] && IsBytes(was[i + 1..])
      ensures polls - (|old(line)| - |line|) <= left <= polls && (late ==> left == 0 && line != [])
      ensures late ==> CutShort(link, was, 0, |was| - |line|)
      ensures !late ==> r == Outcome(link, was[i + 1..]) && Reads(link, was[i + 1..], over, line)
    {
      hide Find, Outcome, ValidLink, Reads, CutShort, Taken, IsBytes;
      ghost var rest := line;
      assert was[0..] == was;
      r, late, left, over := Recv(polls);
      if late {
        CutReceiving(link, was, 0, i, rest, line);
      } else {
        ReadsNext(link, rest, over, line);
        AfterDrop(was, i + 1, Taken(link, rest, over), line);
      }
    }

    /**
     The reading side of the main loop (radio2/src/serial.c): wait and receive in turn until
     the deadline, a fatal outcome, or the end of the line.  The places where each call of
     radio_recv began and ended to read are recorded, so overs is what the reads were.
     */
    method ReceiveAll(polls: nat)
      returns (packets: seq<seq<bv8>>, fatal: bool, late: bool, ghost overs: seq<nat>, ghost begins: seq<nat>, ghost ends: seq<nat>)
      requires Ready()
      modifies this`line
      ensures IsBytes(old(line)) && packets == Packets(link, old(line), overs)
      ensures Turns(link, old(line), overs, begins, ends) && FatalLast(link, old(line), begins, fatal)
      ensures !fatal && !late ==> line == [] && forall more: seq<nat> :: Packets(link, old(line), overs + more) == packets
      ensures polls >= |old(line)| ==> !late
      ensures fatal ==> !late && line == old(line)[LastEnd(ends)..]
      ensures late ==> var read := |old(line)| - |line|;
        polls <= read && line == old(line)[read..] && CutShort(link, old(line), LastEnd(ends), read)
    {
      hide Find, Outcome, Taken, ValidLink, Packets, IsBytes, Added, Reads, Turns, Fatal, FatalLast, CutShort, Session, Done;
      ghost var was := line;
      packets, fatal, late, overs, begins, ends := [], false, false, [], [], [];
      SessionStarts(link, was);
      var left := polls;
      while true
        invariant ValidLink(link) && IsBytes(was) && IsBytes(line)
        invariant |line| <= |was| && polls - (|was| - |line|) <= left
        invariant Session(link, was, overs, begins, ends, packets, line)
        decreases |line|
      {
        ghost var before := line;
        var found, r;
        ghost var over;
        found, late, r, left, over := Turn(left);
        if late {
          SessionLate(link, was, overs, begins, ends, packets, before, line);
          return;
        }
        if !found {
          SessionDry(link, was, overs, begins, ends, packets, before);
          return;
        }
        ghost var begin, end := |was| - |before| + Find(before, link.start) + 1, |was| - |line|;
        SessionGoesOn(link, was, overs, begins, ends, packets, before, over, line, r);
        overs, begins, ends := overs + [over], begins + [begin], ends + [end];
        if Fatal(r) {
          fatal := true;
          SessionFatal(link, was, overs, begins, ends, packets, line);
          return;
        }
        packets := packets + Added(r);
      }
    }

    /**
     Main result: on the line that sending packets back to back makes, the loop of waiting
     and receiving, given time, reads everything and returns some of the packets, in order;
     all of them if and only if no read took the whole preamble of the next frame with a
     frame's first end symbol.
     */
    method ReceiveSent(ghost packets: seq<seq<bv8>>, polls: nat)
      returns (received: seq<seq<bv8>>, ghost overs: seq<nat>, ghost begins: seq<nat>, ghost ends: seq<nat>)
      requires Ready() && Sendable(packets) && line == Stream(link, packets) && polls >= |line|
      modifies this`line
      ensures line == [] && Turns(link, old(line), overs, begins, ends) && FatalLast(link, old(line), begins, false)
      ensures Some(received, packets)
      ensures received == packets <==> ReadsLeaveStart(|packets|, overs)
    {
      hide Stream, Packets, Turns, FatalLast, CutShort, ReadsLeaveStart, Some;
      var fatal, late;
      received, fatal, late, overs, begins, ends := ReceiveAll(polls);
      NothingFatal(link, packets, overs, begins, ends, fatal);
      ghost var was := Stream(link, packets);
      OnlySent(link, packets, 0, overs);
      assert was[0..] == was;
      DryIsAllIff(link, packets, overs);
    }
  }

  // ---------- From end to end ----------

  /** After any start symbol of frames sent back to back, the next packet is received. */
  lemma {:induction false} StartBringsPacket(l: Link, packets: seq<seq<bv8>>, begin: nat)
    requires ValidLink(l) && Sendable(packets) && 1 <= begin <= |Stream(l, packets)| && Stream(l, packets)[begin - 1] == l.start
    ensures IsBytes(Stream(l, packets)) && OutcomeFrom(l, Stream(l, packets), begin).Got?
    decreases |packets|
  {
    hide Body, Outcome, Fill, ValidLink, IsBytes;
    StreamIsBytes(l, packets);
    var body, tail := Body(l, packets[0]), Stream(l, packets[1..]);
    StreamIsBytes(l, packets[1..]);
    var line := Stream(l, packets);
    assert line == Fill(l.start, 3) + (body + tail);
    if begin <= 3 {
      var _ := OneFrame(l, 3 - begin, packets[0], tail, 0);
      DropFill(l.start, 3, body + tail, begin);
      assert line[begin..] == Rest(l, 3 - begin, packets[0], tail);
    } else {
      NoStartInBody(l, packets[0]);
      var k: nat := StartIsLater(l.start, body, tail, line, begin);
      hide Stream;
      StartBringsPacket(l, packets[1..], k);
    }
  }

  lemma StartIsLater(x: nat, body: seq<nat>, tail: seq<nat>, line: seq<nat>, begin: nat) returns (k: nat)
    requires line == Fill(x, 3) + (body + tail) && 3 < begin <= |line| && line[begin - 1] == x && x !in body
    ensures 1 <= k <= |tail| && tail[k - 1] == x && line[begin..] == tail[k..]
  {
    assert forall m :: 0 <= m < |body| ==> line[m + 3] == body[m];
    k := begin - 3 - |body|;
  }

  /** The reads that hold a frame's first end symbol leave a start symbol of the next frame, if there is one. */
  predicate ReadsLeaveStart(count: nat, overs: seq<nat>) {
    forall i :: 0 <= i < |overs| && i < count - 1 ==> overs[i] <= EPILOGUE_LEN + PREAMBLE_LEN - 1
  }

  /** When the line has run dry, what was read decides whether all has been received. */
  lemma DryIsAllIff(l: Link, packets: seq<seq<bv8>>, overs: seq<nat>)
    requires ValidLink(l) && Sendable(packets) && IsBytes(Stream(l, packets))
    requires forall more: seq<nat> :: Packets(l, Stream(l, packets), overs + more) == Packets(l, Stream(l, packets), overs)
    ensures Packets(l, Stream(l, packets), overs) == packets <==> ReadsLeaveStart(|packets|, overs)
  {
    hide Packets, Stream;
    AllReceivedIff(l, packets, overs);
    if ReadsLeaveStart(|packets|, overs) {
      AllReceivedIff(l, packets, overs + Fill(0, |packets|));
    }
  }

  lemma NothingFatal(l: Link, packets: seq<seq<bv8>>, overs: seq<nat>, begins: seq<nat>, ends: seq<nat>, fatal: bool)
    requires ValidLink(l) && Sendable(packets) && IsBytes(Stream(l, packets))
    requires Turns(l, Stream(l, packets), overs, begins, ends) && FatalLast(l, Stream(l, packets), begins, fatal)
    ensures !fatal
  {
    hide Stream, Outcome, Find, Reads, IsBytes, ValidLink;
    if fatal {
      var i := |begins| - 1;
      assert TurnIs(l, Stream(l, packets), LastEnd(ends[..i]), begins[i], overs[i], ends[i]);
      StartBringsPacket(l, packets, begins[i]);
    }
  }

  /** Some of b, in order. */
  predicate Some(a: seq<seq<bv8>>, b: seq<seq<bv8>>)
    decreases |b|
  {
    if a == [] then true
    else if b == [] then false
    else (a[0] == b[0] && Some(a[1..], b[1..])) || Some(a, b[1..])
  }

  lemma {:induction false} SomeOfMore(a: seq<seq<bv8>>, b: seq<seq<bv8>>)
    requires b != [] && Some(a, b[1..])
    ensures Some(a, b) && Some([b[0]] + a, b)
  {
    assert ([b[0]] + a)[1..] == a;
  }

  /** What holds no start symbol is skipped. */
  lemma PacketsSkip(l: Link, x: seq<nat>, s: seq<nat>, overs: seq<nat>)
    requires ValidLink(l) && IsBytes(x + s) && IsBytes(s) && l.start !in x
    ensures Packets(l, x + s, overs) == Packets(l, s, overs)
  {
    hide Outcome, Taken, Find, ValidLink, IsBytes;
    var i := Find(s, l.start);
    if i == |s| {
      NotYet(x + s, l.start, |x + s|);
    } else {
      FindIs(x + s, l.start, |x| + i);
      assert (x + s)[|x| + i + 1..] == s[i + 1..];
    }
  }

  /**
   Main result: however the line is read, and from wherever in frames sent back to back,
   the packets received are some of those sent, each at most once and in order.
   */
  lemma {:induction false} OnlySent(l: Link, packets: seq<seq<bv8>>, k: nat, overs: seq<nat>)
    requires ValidLink(l) && Sendable(packets) && k <= |Stream(l, packets)|
    ensures IsBytes(Stream(l, packets)[k..]) && Some(Packets(l, Stream(l, packets)[k..], overs), packets)
    decreases |packets|, 0
  {
    hide Packets, Body, Fill, Find, ValidLink, IsBytes, Some;
    StreamIsBytes(l, packets);
    var line := Stream(l, packets);
    DropIsBytes(line, k);
    if packets == [] || overs == [] {
      NothingComes(l, line[k..], overs, packets);
      return;
    }
    var body, tail := Body(l, packets[0]), Stream(l, packets[1..]);
    StreamIsBytes(l, packets[1..]);
    assert line == Fill(l.start, 3) + (body + tail);
    if k < 3 {
      DropFill(l.start, 3, body + tail, k);
      NoFill(l.end, line[k..]);
      assert line[k..] == Between(l, 0, 3 - k, packets);
      var o := OneTurn(l, 0, 3 - k, packets, overs);
      OnlySentAfter(l, packets[1..], o, overs[1..]);
      SomeOfMore(Packets(l, (Fill(l.end, EPILOGUE_LEN) + tail)[o..], overs[1..]), packets);
    } else if k < 3 + |body| {
      NoStartInBody(l, packets[0]);
      assert line[k..] == body[k - 3..] + tail;
      PacketsSkip(l, body[k - 3..], tail, overs);
      OnlySent(l, packets[1..], 0, overs);
      assert tail[0..] == tail;
      SomeOfMore(Packets(l, tail, overs), packets);
    } else {
      assert line[k..] == tail[k - 3 - |body|..];
      OnlySent(l, packets[1..], k - 3 - |body|, overs);
      SomeOfMore(Packets(l, line[k..], overs), packets);
    }
  }

  /** The same from inside the epilogue of the frame before. */
  lemma {:induction false} OnlySentAfter(l: Link, packets: seq<seq<bv8>>, o: nat, overs: seq<nat>)
    requires ValidLink(l) && Sendable(packets) && o <= 3 + |Stream(l, packets)|
    ensures var line := (Fill(l.end, EPILOGUE_LEN) + Stream(l, packets))[o..];
      IsBytes(line) && Some(Packets(l, line, overs), packets)
    decreases |packets|, 1
  {
    hide Packets, Stream, Fill, Find, ValidLink, IsBytes, Some;
    var tail := Stream(l, packets);
    StreamIsBytes(l, packets);
    if o <= 3 {
      DropFill(l.end, 3, tail, o);
      LinkIsBytes(l);
      FillIsBytes(l.end, 3 - o);
      JoinIsBytes(Fill(l.end, 3 - o), tail);
      NoStartInFill(l, 3 - o);
      PacketsSkip(l, Fill(l.end, 3 - o), tail, overs);
      OnlySent(l, packets, 0, overs);
      assert tail[0..] == tail;
    } else {
      assert (Fill(l.end, EPILOGUE_LEN) + tail)[o..] == tail[o - 3..];
      OnlySent(l, packets, o - 3, overs);
    }
  }

  lemma NoStartInFill(l: Link, n: nat)
    requires ValidLink(l)
    ensures l.start !in Fill(l.end, n)
  {
  }

  lemma NothingComes(l: Link, line: seq<nat>, overs: seq<nat>, packets: seq<seq<bv8>>)
    requires ValidLink(l) && IsBytes(line) && (line == [] || overs == [])
    ensures Packets(l, line, overs) == [] && Some([], packets)
  {
  }

  /** One call of radio_recv reads up to its first end symbol and over bytes from there on, or all it can. */
  ghost predicate Reads(l: Link, line: seq<nat>, over: nat, next: seq<nat>) {
    var i := Find(line, l.end);
    && next == line[Taken(l, line, over)..]
    && (i < Min(|line|, MAX_FRAME) ==> over >= 1 && Taken(l, line, over) == i + over)
  }

  function LastEnd(ends: seq<nat>): nat {
    if ends == [] then 0 else ends[|ends| - 1]
  }

  /** A turn that starts at offset from of the line: the first start symbol is just before begin, the reading ends at end. */
  ghost predicate TurnIs(l: Link, was: seq<nat>, from: nat, begin: nat, over: nat, end: nat) {
    && from < begin <= end <= |was| && Find(was[from..], l.start) == begin - 1 - from
    && was[begin - 1] == l.start && Reads(l, was[begin..], over, was[end..])
  }

  /** The turns of a session, one after the other. */
  ghost predicate Turns(l: Link, was: seq<nat>, overs: seq<nat>, begins: seq<nat>, ends: seq<nat>) {
    && |overs| == |begins| == |ends|
    && forall i :: 0 <= i < |overs| ==> TurnIs(l, was, LastEnd(ends[..i]), begins[i], overs[i], ends[i])
  }

  /** Of the recorded turns only the last can have been fatal, and it was if and only if fatal is set. */
  ghost predicate FatalLast(l: Link, was: seq<nat>, begins: seq<nat>, fatal: bool)
    requires ValidLink(l) && IsBytes(was)
  {
    && (fatal ==> begins != [])
    && forall i :: 0 <= i < |begins| ==>
         begins[i] <= |was| && (Fatal(OutcomeFrom(l, was, begins[i])) <==> fatal && i == |begins| - 1)
  }

  function OutcomeFrom(l: Link, was: seq<nat>, begin: nat): Reception
    requires ValidLink(l) && IsBytes(was) && begin <= |was|
  {
    DropIsBytes(was, begin);
    Outcome(l, was[begin..])
  }

  /** Between the offsets from and to, either no start symbol has come, or one and no end symbol after it. */
  ghost predicate CutShort(l: Link, was: seq<nat>, from: nat, to: nat) {
    && from <= to <= |was|
    && var i := Find(was[from..], l.start);
    to <= from + i || (from + i < |was| && to <= from + i + 1 + Find(was[from + i + 1..], l.end))
  }

  lemma NoneFatal(l: Link, was: seq<nat>)
    requires ValidLink(l) && IsBytes(was)
    ensures FatalLast(l, was, [], false)
  {
  }

  lemma OneMoreTurnEnds(l: Link, was: seq<nat>, begins: seq<nat>, begin: nat, r: Reception)
    requires ValidLink(l) && IsBytes(was) && begin <= |was| && FatalLast(l, was, begins, false)
    requires IsBytes(was[begin..]) && r == Outcome(l, was[begin..])
    ensures FatalLast(l, was, begins + [begin], Fatal(r))
  {
    hide ValidLink, IsBytes, Outcome, Fatal;
  }

  lemma CutWaiting(l: Link, was: seq<nat>, from: nat, to: nat)
    requires from <= to <= |was| && to <= from + Find(was[from..], l.start)
    ensures CutShort(l, was, from, to)
  {
    hide Find;
  }

  lemma CutReceiving(l: Link, was: seq<nat>, from: nat, i: nat, rest: seq<nat>, line: seq<nat>)
    requires from <= |was| && Find(was[from..], l.start) == i < |was| - from && rest == was[from + i + 1..]
    requires exists t: nat :: t <= Find(rest, l.end) && line == rest[t..]
    ensures |line| <= |was| && line == was[|was| - |line|..] && CutShort(l, was, from, |was| - |line|)
  {
    hide Find, CutShort;
    var t: nat :| t <= Find(rest, l.end) && line == rest[t..];
    AfterDrop(was, from + i + 1, t, line);
    CutAt(l, was, from, i, t);
  }

  lemma CutAt(l: Link, was: seq<nat>, from: nat, i: nat, t: nat)
    requires from <= |was| && Find(was[from..], l.start) == i < |was| - from && t <= Find(was[from + i + 1..], l.end)
    ensures CutShort(l, was, from, from + i + 1 + t)
  {
    hide Find;
  }

  lemma CutLater(l: Link, was: seq<nat>, from: nat, read: nat)
    requires from <= |was| && CutShort(l, was[from..], 0, read)
    ensures CutShort(l, was, from, from + read)
  {
    hide Find;
    var rest := was[from..];
    assert rest[0..] == rest;
    var i := Find(rest, l.start);
    if i < |rest| {
      DropTwice(was, from, i + 1);
    }
  }

  lemma AfterDrop(was: seq<nat>, from: nat, t: nat, line: seq<nat>)
    requires from + t <= |was| && line == was[from..][t..]
    ensures |was| - |line| == from + t && line == was[|was| - |line|..]
  {
    DropTwice(was, from, t);
  }

  lemma NoTurns(l: Link, was: seq<nat>)
    ensures Turns(l, was, [], [], [])
  {
  }

  lemma ReadsNext(l: Link, line: seq<nat>, over: nat, next: seq<nat>)
    requires Reads(l, line, over, next)
    ensures next == line[Taken(l, line, over)..]
  {
    hide Find, Taken;
  }

  lemma NewTurn(l: Link, was: seq<nat>, pos: nat, i: nat, over: nat, next: seq<nat>)
    requires pos <= |was| && i == Find(was[pos..], l.start) < |was| - pos
    requires Reads(l, was[pos + i + 1..], over, next)
    ensures |next| <= |was| && next == was[|was| - |next|..]
    ensures TurnIs(l, was, pos, pos + i + 1, over, |was| - |next|)
  {
    hide Taken;
    ReadsNext(l, was[pos + i + 1..], over, next);
    hide Reads, Find;
    DropTwice(was, pos + i + 1, Taken(l, was[pos + i + 1..], over));
    assert was[pos..][i] == was[pos + i];
  }

  lemma OneTurnMore(l: Link, was: seq<nat>, overs: seq<nat>, begins: seq<nat>, ends: seq<nat>, over: nat, begin: nat, end: nat)
    requires Turns(l, was, overs, begins, ends) && TurnIs(l, was, LastEnd(ends), begin, over, end)
    ensures Turns(l, was, overs + [over], begins + [begin], ends + [end])
  {
    hide TurnIs, LastEnd;
    var longer := ends + [end];
    forall k | 0 <= k <= |overs|
      ensures TurnIs(l, was, LastEnd(longer[..k]), (begins + [begin])[k], (overs + [over])[k], longer[k])
    {
      assert longer[..k] == ends[..k];
      if k == |overs| {
        assert ends[..k] == ends;
      }
    }
  }

  /** The record of the turns so far, with the line as they have left it. */
  ghost predicate Session(l: Link, was: seq<nat>, overs: seq<nat>, begins: seq<nat>, ends: seq<nat>,
                          packets: seq<seq<bv8>>, line: seq<nat>)
    requires ValidLink(l) && IsBytes(was) && IsBytes(line)
  {
    && LastEnd(ends) <= |was| && line == was[LastEnd(ends)..]
    && SoFar(l, was, overs, packets, line) && Turns(l, was, overs, begins, ends) && FatalLast(l, was, begins, false)
  }

  /** The record when the last turn was fatal. */
  ghost predicate Done(l: Link, was: seq<nat>, overs: seq<nat>, begins: seq<nat>, ends: seq<nat>,
                       packets: seq<seq<bv8>>, line: seq<nat>)
    requires ValidLink(l) && IsBytes(was)
  {
    && LastEnd(ends) <= |was| && line == was[LastEnd(ends)..]
    && Packets(l, was, overs) == packets && Turns(l, was, overs, begins, ends) && FatalLast(l, was, begins, true)
  }

  lemma SessionStarts(l: Link, was: seq<nat>)
    requires ValidLink(l) && IsBytes(was)
    ensures Session(l, was, [], [], [], [], was)
  {
    NothingSoFar(l, was);
    NoTurns(l, was);
    NoneFatal(l, was);
    hide SoFar, Turns, FatalLast, ValidLink, IsBytes;
    assert was[0..] == was;
  }

  lemma SessionLate(l: Link, was: seq<nat>, overs: seq<nat>, begins: seq<nat>, ends: seq<nat>,
                    packets: seq<seq<bv8>>, before: seq<nat>, line: seq<nat>)
    requires ValidLink(l) && IsBytes(was) && IsBytes(before) && Session(l, was, overs, begins, ends, packets, before)
    requires |line| <= |before| && line == before[|before| - |line|..] && CutShort(l, before, 0, |before| - |line|)
    ensures Packets(l, was, overs) == packets && Turns(l, was, overs, begins, ends) && FatalLast(l, was, begins, false)
    ensures |line| <= |was| && line == was[|was| - |line|..] && CutShort(l, was, LastEnd(ends), |was| - |line|)
  {
    hide Packets, SoFar, Turns, FatalLast, CutShort, ValidLink, IsBytes, LastEnd;
    SoFarNow(l, was, overs, packets, before);
    DropTwice(was, LastEnd(ends), |before| - |line|);
    CutLater(l, was, LastEnd(ends), |before| - |line|);
  }

  lemma SessionDry(l: Link, was: seq<nat>, overs: seq<nat>, begins: seq<nat>, ends: seq<nat>,
                   packets: seq<seq<bv8>>, line: seq<nat>)
    requires ValidLink(l) && IsBytes(was) && IsBytes(line) && Session(l, was, overs, begins, ends, packets, line)
    requires Find(line, l.start) == |line|
    ensures Packets(l, was, overs) == packets && Turns(l, was, overs, begins, ends) && FatalLast(l, was, begins, false)
    ensures forall more: seq<nat> :: Packets(l, was, overs + more) == packets
  {
    hide Packets, SoFar, Turns, FatalLast, ValidLink, IsBytes, LastEnd, Find;
    NothingMore(l, was, overs, packets, line);
  }

  lemma SessionFatal(l: Link, was: seq<nat>, overs: seq<nat>, begins: seq<nat>, ends: seq<nat>,
                     packets: seq<seq<bv8>>, line: seq<nat>)
    requires ValidLink(l) && IsBytes(was) && Done(l, was, overs, begins, ends, packets, line)
    ensures Packets(l, was, overs) == packets && Turns(l, was, overs, begins, ends) && FatalLast(l, was, begins, true)
    ensures LastEnd(ends) <= |was| && line == was[LastEnd(ends)..]
  {
    hide Packets, Turns, FatalLast, ValidLink, IsBytes, LastEnd;
  }

  /** One turn more. */
  lemma SessionGoesOn(l: Link, was: seq<nat>, overs: seq<nat>, begins: seq<nat>, ends: seq<nat>,
                      packets: seq<seq<bv8>>, before: seq<nat>, over: nat, line: seq<nat>, r: Reception)
    requires ValidLink(l) && IsBytes(was) && IsBytes(before) && IsBytes(line)
    requires Session(l, was, overs, begins, ends, packets, before) && Find(before, l.start) < |before|
    requires IsBytes(before[Find(before, l.start) + 1..]) && r == Outcome(l, before[Find(before, l.start) + 1..])
    requires Reads(l, before[Find(before, l.start) + 1..], over, line)
    ensures |line| <= |before| <= |was|
    ensures var begin, end := |was| - |before| + Find(before, l.start) + 1, |was| - |line|;
      if Fatal(r) then Done(l, was, overs + [over], begins + [begin], ends + [end], packets, line)
      else Session(l, was, overs + [over], begins + [begin], ends + [end], packets + Added(r), line)
  {
    hide *;
    SessionParts(l, was, overs, begins, ends, packets, before);
    var pos, i := LastEnd(ends), Find(before, l.start);
    var rest, o, b, e := before[i + 1..], overs + [over], begins + [pos + i + 1], ends + [|was| - |line|];
    DropTwice(was, pos, i + 1);
    ReadsNext(l, rest, over, line);
    assert |was| - |before| == pos && |line| <= |before|;
    TurnRecorded(l, was, overs, begins, ends, i, over, rest, line, r);
    NewEnd(ends, |was| - |line|);
    SoFarGoesOn(l, was, overs, packets, before, rest, over, line, r);
    if Fatal(r) {
      IsDone(l, was, o, b, e, packets, line);
    } else {
      IsSession(l, was, o, b, e, packets + Added(r), line);
    }
  }

  lemma SoFarGoesOn(l: Link, was: seq<nat>, overs: seq<nat>, packets: seq<seq<bv8>>,
                    before: seq<nat>, rest: seq<nat>, over: nat, line: seq<nat>, r: Reception)
    requires ValidLink(l) && IsBytes(was) && IsBytes(before) && IsBytes(rest) && IsBytes(line)
    requires SoFar(l, was, overs, packets, before) && Find(before, l.start) < |before|
    requires rest == before[Find(before, l.start) + 1..] && r == Outcome(l, rest) && Reads(l, rest, over, line)
    ensures if Fatal(r) then Packets(l, was, overs + [over]) == packets else SoFar(l, was, overs + [over], packets + Added(r), line)
  {
    hide *;
    ReadsNext(l, rest, over, line);
    OneMore(l, was, overs, packets, before, rest, over, line);
  }

  lemma SessionParts(l: Link, was: seq<nat>, overs: seq<nat>, begins: seq<nat>, ends: seq<nat>,
                     packets: seq<seq<bv8>>, line: seq<nat>)
    requires ValidLink(l) && IsBytes(was) && IsBytes(line) && Session(l, was, overs, begins, ends, packets, line)
    ensures LastEnd(ends) <= |was| && line == was[LastEnd(ends)..]
    ensures SoFar(l, was, overs, packets, line) && Turns(l, was, overs, begins, ends) && FatalLast(l, was, begins, false)
  {
    hide SoFar, Turns, FatalLast, LastEnd, ValidLink, IsBytes;
  }

  lemma IsSession(l: Link, was: seq<nat>, overs: seq<nat>, begins: seq<nat>, ends: seq<nat>,
                  packets: seq<seq<bv8>>, line: seq<nat>)
    requires ValidLink(l) && IsBytes(was) && IsBytes(line) && LastEnd(ends) <= |was| && line == was[LastEnd(ends)..]
    requires SoFar(l, was, overs, packets, line) && Turns(l, was, overs, begins, ends) && FatalLast(l, was, begins, false)
    ensures Session(l, was, overs, begins, ends, packets, line)
  {
    hide SoFar, Turns, FatalLast, LastEnd, ValidLink, IsBytes;
  }

  lemma IsDone(l: Link, was: seq<nat>, overs: seq<nat>, begins: seq<nat>, ends: seq<nat>,
               packets: seq<seq<bv8>>, line: seq<nat>)
    requires ValidLink(l) && IsBytes(was) && LastEnd(ends) <= |was| && line == was[LastEnd(ends)..]
    requires Packets(l, was, overs) == packets && Turns(l, was, overs, begins, ends) && FatalLast(l, was, begins, true)
    ensures Done(l, was, overs, begins, ends, packets, line)
  {
    hide Packets, Turns, FatalLast, LastEnd, ValidLink, IsBytes;
  }

  lemma TurnRecorded(l: Link, was: seq<nat>, overs: seq<nat>, begins: seq<nat>, ends: seq<nat>,
                     i: nat, over: nat, rest: seq<nat>, line: seq<nat>, r: Reception)
    requires LastEnd(ends) <= |was| && i == Find(was[LastEnd(ends)..], l.start) < |was| - LastEnd(ends)
    requires rest == was[LastEnd(ends) + i + 1..]
    requires ValidLink(l) && IsBytes(was) && IsBytes(rest) && r == Outcome(l, rest) && Reads(l, rest, over, line)
    requires Turns(l, was, overs, begins, ends) && FatalLast(l, was, begins, false)
    ensures |line| <= |was| && line == was[|was| - |line|..]
    ensures Turns(l, was, overs + [over], begins + [LastEnd(ends) + i + 1], ends + [|was| - |line|])
    ensures FatalLast(l, was, begins + [LastEnd(ends) + i + 1], Fatal(r))
  {
    hide *;
    NewTurn(l, was, LastEnd(ends), i, over, line);
    OneTurnMore(l, was, overs, begins, ends, over, LastEnd(ends) + i + 1, |was| - |line|);
    OneMoreTurnEnds(l, was, begins, LastEnd(ends) + i + 1, r);
  }

  lemma NewEnd(ends: seq<nat>, end: nat)
    ensures LastEnd(ends + [end]) == end
  {
  }

  /** Where nothing is left to wait for. */
  lemma DryLine(l: Link, line: seq<nat>)
    requires Find(line, l.start) >= |line|
    ensures Find(line, l.start) == |line|
  {
  }

  lemma SoFarNow(l: Link, was: seq<nat>, overs: seq<nat>, packets: seq<seq<bv8>>, line: seq<nat>)
    requires ValidLink(l) && IsBytes(was) && IsBytes(line) && SoFar(l, was, overs, packets, line)
    ensures Packets(l, was, overs) == packets
  {
    SoFarAt(l, was, overs, packets, line, []);
    assert overs + [] == overs && Packets(l, line, []) == [];
  }

  /** What has been received, and what any further reading adds to it. */
  ghost predicate SoFar(l: Link, was: seq<nat>, overs: seq<nat>, packets: seq<seq<bv8>>, line: seq<nat>)
    requires ValidLink(l) && IsBytes(was) && IsBytes(line)
  {
    forall more: seq<nat> :: Packets(l, was, overs + more) == packets + Packets(l, line, more)
  }

  lemma NothingSoFar(l: Link, was: seq<nat>)
    requires ValidLink(l) && IsBytes(was)
    ensures SoFar(l, was, [], [], was)
  {
    hide Packets;
    forall more: seq<nat> ensures Packets(l, was, [] + more) == [] + Packets(l, was, more) {
      assert [] + more == more;
    }
  }

  lemma NothingMore(l: Link, was: seq<nat>, overs: seq<nat>, packets: seq<seq<bv8>>, line: seq<nat>)
    requires ValidLink(l) && IsBytes(was) && IsBytes(line) && SoFar(l, was, overs, packets, line)
    requires Find(line, l.start) == |line|
    ensures Packets(l, was, overs) == packets
    ensures forall more: seq<nat> :: Packets(l, was, overs + more) == packets
  {
    hide Packets;
    forall more: seq<nat> ensures Packets(l, was, overs + more) == packets {
      assert Packets(l, was, overs + more) == packets + Packets(l, line, more);
      NothingAdded(l, line, more);
    }
    assert overs + [] == overs;
  }

  lemma NothingAdded(l: Link, line: seq<nat>, overs: seq<nat>)
    requires ValidLink(l) && IsBytes(line) && Find(line, l.start) == |line|
    ensures Packets(l, line, overs) == []
  {
  }

  /** One turn of radio_wait and radio_recv on a line that has a start symbol. */
  lemma PacketsStep(l: Link, line: seq<nat>, rest: seq<nat>, over: nat, next: seq<nat>, more: seq<nat>)
    requires ValidLink(l) && IsBytes(line) && Find(line, l.start) < |line|
    requires rest == line[Find(line, l.start) + 1..] && next == rest[Taken(l, rest, over)..]
    ensures Packets(l, line, [over] + more) ==
      if Fatal(Outcome(l, rest)) then [] else Added(Outcome(l, rest)) + Packets(l, next, more)
  {
    hide Find, Outcome, Taken, ValidLink, Added;
    assert ([over] + more)[1..] == more && ([over] + more)[0] == over;
  }

  lemma SoFarAt(l: Link, was: seq<nat>, overs: seq<nat>, packets: seq<seq<bv8>>, line: seq<nat>, more: seq<nat>)
    requires ValidLink(l) && IsBytes(was) && IsBytes(line) && SoFar(l, was, overs, packets, line)
    ensures Packets(l, was, overs + more) == packets + Packets(l, line, more)
  {
    hide Packets;
  }

  lemma OneMoreAt(l: Link, was: seq<nat>, overs: seq<nat>, packets: seq<seq<bv8>>,
                  line: seq<nat>, rest: seq<nat>, over: nat, next: seq<nat>, more: seq<nat>)
    requires ValidLink(l) && IsBytes(was) && IsBytes(line) && SoFar(l, was, overs, packets, line)
    requires Find(line, l.start) < |line| && rest == line[Find(line, l.start) + 1..]
    requires next == rest[Taken(l, rest, over)..] && IsBytes(rest) && IsBytes(next)
    ensures Packets(l, was, (overs + [over]) + more) ==
      if Fatal(Outcome(l, rest)) then packets else (packets + Added(Outcome(l, rest))) + Packets(l, next, more)
  {
    hide *;
    SoFarAt(l, was, overs, packets, line, [over] + more);
    PacketsStep(l, line, rest, over, next, more);
    assert (overs + [over]) + more == overs + ([over] + more);
    if Fatal(Outcome(l, rest)) {
      assert packets + [] == packets;
    } else {
      assert packets + (Added(Outcome(l, rest)) + Packets(l, next, more))
          == (packets + Added(Outcome(l, rest))) + Packets(l, next, more);
    }
  }

  lemma OneMore(l: Link, was: seq<nat>, overs: seq<nat>, packets: seq<seq<bv8>>,
                line: seq<nat>, rest: seq<nat>, over: nat, next: seq<nat>)
    requires ValidLink(l) && IsBytes(was) && IsBytes(line) && SoFar(l, was, overs, packets, line)
    requires Find(line, l.start) < |line| && rest == line[Find(line, l.start) + 1..]
    requires next == rest[Taken(l, rest, over)..] && IsBytes(rest) && IsBytes(next)
    ensures if Fatal(Outcome(l, rest)) then Packets(l, was, overs + [over]) == packets
            else SoFar(l, was, overs + [over], packets + Added(Outcome(l, rest)), next)
  {
    if Fatal(Outcome(l, rest)) {
      hide *;
      OneMoreAt(l, was, overs, packets, line, rest, over, next, []);
      assert (overs + [over]) + [] == overs + [over];
    } else {
      hide Find, Outcome, Taken, ValidLink, Packets, Added, IsBytes;
      forall more: seq<nat>
        ensures Packets(l, was, (overs + [over]) + more) == (packets + Added(Outcome(l, rest))) + Packets(l, next, more)
      {
        OneMoreAt(l, was, overs, packets, line, rest, over, next, more);
      }
    }
  }

  lemma FirstValidIs(l: Link, s: seq<nat>, i: nat)
    requires ValidLink(l) && IsBytes(s) && i <= |s| && (i < |s| ==> SymbolValid(l, s[i]))
    requires forall k :: 0 <= k < i ==> !SymbolValid(l, s[k])
    ensures FirstValid(l, s) == i
  {
    hide SymbolValid;
  }

  lemma SpliceStart(was: seq<nat>, out: seq<nat>)
    requires |out| <= |was|
    ensures |Splice(was, 0, out)| == |was| && Splice(was, 0, out)[..|out|] == out
  {
  }

  lemma AtLeastCrc(packet: seq<bv8>)
    requires Accepted(packet)
    ensures |packet| >= CRC16_LEN
  {
  }

  lemma Appended(was: seq<nat>, before: seq<nat>, after: seq<nat>, n: nat, e: nat)
    requires n + e <= |was| && n + e <= |before| && before[..n] == was[..n]
    requires after == Splice(before, n, was[n..][..e])
    ensures |after| == |before| && after[..n + e] == was[..n + e]
  {
    assert after[..n] == before[..n];
  }

  lemma Scanned(was: seq<nat>, buffer: seq<nat>, n: nat, e: nat, i: nat, x: nat)
    requires n <= i <= n + e <= |was| && n + e <= |buffer| && buffer[..n + e] == was[..n + e]
    requires forall k :: n <= k < i ==> buffer[k] != x
    ensures forall k :: n <= k < i ==> was[k] != x
    ensures buffer[..i] == was[..i] && (i < n + e ==> was[i] == buffer[i])
  {
    var a, b := buffer[..n + e], was[..n + e];
    assert forall k :: 0 <= k < n + e ==> buffer[k] == a[k] && was[k] == b[k];
    assert buffer[..n + e][..i] == buffer[..i] && was[..n + e][..i] == was[..i];
  }

  lemma NotYet(s: seq<nat>, x: nat, n: nat)
    requires n <= |s| && forall k :: 0 <= k < n ==> s[k] != x
    ensures Find(s, x) >= n
  {
  }

  lemma SliceOfFrame(a: array<nat>, frame: seq<nat>, n: nat, e: nat)
    requires n + e <= |frame| <= a.Length && a[..|frame|] == frame
    ensures a[n..n + e] == frame[n..n + e]
  {
    assert a[..|frame|][n..n + e] == a[n..n + e];
  }

  lemma NothingAccepted(room: nat)
    ensures Accepts([], room) == 0
  {
  }

  lemma SymbolsOf(l: Link, payload: seq<bv8>, bytes: seq<nat>)
    requires ValidLink(l) && bytes == Numbers(Sealed(payload))
    ensures IsBytes(bytes) && Symbols(l, payload) == BytesToSymbols(l.codec, bytes)
  {
  }
}
