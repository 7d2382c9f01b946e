/**
 What radio_recv makes of a frame that has suffered on the way: this joins the framing
 (Radio) with what the CRC catches (CrcDetection, CrcBurst).
 */
module Damage {
  import opened Bytes
  import opened Crc
  import opened CrcDetection
  import opened CrcBurst
  import opened SymbolCodec
  import opened Limits
  import opened Radio

  lemma SealedShape(p: seq<bv8>, q: seq<bv8>)
    ensures |Sealed(p)| == |p| + 2 && Sealed(p)[..|p|] == p && Accepted(Sealed(p))
    ensures Sealed(p) == Sealed(q) ==> p == q
  {
    hide Accepted, CrcOf, LowByte, HighByte;
    SealedIsAccepted(p);
    assert Sealed(q)[..|q|] == q;
  }

  lemma NumberOfByte(n: nat)
    requires n < 256
    ensures ByteOf(n) as nat == n
  {
  }

  lemma BytesAndBack(s: seq<nat>)
    requires IsBytes(s)
    ensures Numbers(MachineBytes(s)) == s
  {
    forall i | 0 <= i < |s| ensures Numbers(MachineBytes(s))[i] == s[i] {
      NumberOfByte(s[i]);
    }
  }

  /** Decoded bytes are accepted exactly if they are some payload with its CRC. */
  lemma AcceptedBytes(bytes: seq<nat>)
    requires IsBytes(bytes)
    ensures Accepted(MachineBytes(bytes)) <==> |bytes| >= 2 && bytes == Numbers(Sealed(MachineBytes(bytes)[..|bytes| - 2]))
  {
    hide Accepted, Sealed, MachineBytes, Numbers, IsBytes;
    BytesAndBack(bytes);
    AcceptedIffSealed(MachineBytes(bytes));
    if |bytes| >= 2 && bytes == Numbers(Sealed(MachineBytes(bytes)[..|bytes| - 2])) {
      NumbersAndBack(Sealed(MachineBytes(bytes)[..|bytes| - 2]));
    }
  }

  /**
   Main result: for any buffer, radio_recv returns the payload p exactly if p is neither
   empty nor too long and the buffer decodes to p followed by the CRC of p.
   */
  lemma GotIff(l: Link, buffer: seq<nat>, p: seq<bv8>)
    requires ValidLink(l) && IsBytes(buffer)
    ensures Decode(l, buffer) == Got(p) <==> 1 <= |p| <= 1600 && BufferBytes(l, buffer) == Numbers(Sealed(p))
  {
    hide Accepted, Sealed, MachineBytes, Numbers, IsBytes, BufferBytes, ValidLink;
    var bytes := BufferBytes(l, buffer);
    AcceptedBytes(bytes);
    MachineLength(bytes);
    if bytes == Numbers(Sealed(p)) {
      NumbersAndBack(Sealed(p));
      SealedShape(p, p);
    }
  }

  lemma MachineLength(bytes: seq<nat>)
    requires IsBytes(bytes)
    ensures |MachineBytes(bytes)| == |bytes|
  {
  }

  /** The other outcomes: nothing for what no sender seals, the failed assertion for an empty payload, or no room. */
  lemma NotGotIff(l: Link, buffer: seq<nat>)
    requires ValidLink(l) && IsBytes(buffer)
    ensures Decode(l, buffer).Overflow? <==> |BufferBytes(l, buffer)| > 1602
    ensures Decode(l, buffer).Aborted? <==> BufferBytes(l, buffer) == Numbers(Sealed([]))
    ensures Decode(l, buffer).Rejected? <==>
      |BufferBytes(l, buffer)| <= 1602 && forall p: seq<bv8> :: BufferBytes(l, buffer) != Numbers(Sealed(p))
  {
    hide Accepted, Sealed, MachineBytes, Numbers, BufferBytes, ValidLink;
    var bytes := BufferBytes(l, buffer);
    AcceptedBytes(bytes);
    MachineLength(bytes);
    forall p: seq<bv8> | bytes == Numbers(Sealed(p)) ensures |bytes| == |p| + 2 && MachineBytes(bytes)[..|bytes| - 2] == p {
      NumbersAndBack(Sealed(p));
      SealedShape(p, p);
    }
    if |bytes| == 2 && Accepted(MachineBytes(bytes)) {
      assert MachineBytes(bytes)[..0] == [];
    }
  }

  ghost predicate ShortBurst(p: seq<bv8>, q: seq<bv8>, i: nat) {
    Burst(p, q, i, i + 12)
  }

  /** The damage that is always noticed: one to three bits, or any bits within twelve consecutive places. */
  ghost predicate Slight(p: seq<bv8>, q: seq<bv8>) {
    |p| == |q| && p != q && (1 <= Distance(p, q) <= 3 || exists i: nat :: ShortBurst(p, q, i))
  }

  lemma SlightIsNoticed(p: seq<bv8>, q: seq<bv8>)
    requires |p| <= RADIO_MTU && Slight(Sealed(p), q)
    ensures !Accepted(q)
  {
    SealedShape(p, p);
    hide Accepted, Sealed, Burst, Distance;
    if 1 <= Distance(Sealed(p), q) <= 3 {
      RadioPacketsAreFourApart(Sealed(p), q);
    } else {
      var i: nat :| ShortBurst(Sealed(p), q, i);
      TwelvePlacesRejected(Sealed(p), q, i);
    }
  }

  /** Main result: a frame whose decoded bytes are slightly damaged is rejected; no wrong packet is received for it. */
  lemma DamagedIsRejected(l: Link, buffer: seq<nat>, p: seq<bv8>)
    requires ValidLink(l) && IsBytes(buffer) && |p| <= RADIO_MTU
    requires Slight(Sealed(p), MachineBytes(BufferBytes(l, buffer)))
    ensures Decode(l, buffer) == Rejected
  {
    hide Accepted, Sealed, MachineBytes, BufferBytes, ValidLink, Slight;
    SlightLength(p, MachineBytes(BufferBytes(l, buffer)));
    MachineLength(BufferBytes(l, buffer));
    SlightIsNoticed(p, MachineBytes(BufferBytes(l, buffer)));
  }

  lemma SlightLength(p: seq<bv8>, q: seq<bv8>)
    requires Slight(Sealed(p), q)
    ensures |q| == |p| + 2
  {
    SealedShape(p, p);
  }

  /** The same for radio_recv on a line: what comes before the first end symbol decides. */
  lemma DamagedOnTheLine(l: Link, line: seq<nat>, p: seq<bv8>)
    requires ValidLink(l) && IsBytes(line) && |p| <= RADIO_MTU
    requires Find(line, l.end) < Min(|line|, MAX_FRAME)
    requires IsBytes(line[..Find(line, l.end)]) && Slight(Sealed(p), MachineBytes(BufferBytes(l, line[..Find(line, l.end)])))
    ensures Outcome(l, line) == Rejected
  {
    hide Decode, Slight, Find, BufferBytes, Sealed;
    DamagedIsRejected(l, line[..Find(line, l.end)], p);
  }

  /** radio_recv returns a packet exactly if an end symbol comes in time and the bytes before it decode to the packet and its CRC. */
  lemma ReceivedIff(l: Link, line: seq<nat>, p: seq<bv8>)
    requires ValidLink(l) && IsBytes(line)
    ensures Outcome(l, line) == Got(p) <==>
      exists i: nat :: i < |line| && i < 1843 && line[i] == l.end && l.end !in line[..i] && IsBytes(line[..i])
        && 1 <= |p| <= 1600 && BufferBytes(l, line[..i]) == Numbers(Sealed(p))
  {
    hide Decode, BufferBytes, Sealed, Numbers, ValidLink, IsBytes;
    var i := Find(line, l.end);
    Prefixes(line);
    if i < Min(|line|, MAX_FRAME) {
      GotIff(l, line[..i], p);
    }
    forall k: nat | k < |line| && line[k] == l.end && l.end !in line[..k] ensures k == i {
      FindIs(line, l.end, k);
    }
  }

  lemma Prefixes(line: seq<nat>)
    requires IsBytes(line)
    ensures forall i :: 0 <= i <= |line| ==> IsBytes(line[..i])
  {
  }
}
