/** Numbers below 256 as machine bytes, for the modules that look at bits. */
module Bytes {

  lemma NextByte(x: bv8)
    requires x < 255
    ensures (x + 1) as nat == x as nat + 1
  {
  }

  /** The byte of a number; counting up keeps the two arithmetics apart. */
  function ByteOf(n: nat): (b: bv8)
    requires n < 256
    ensures b as nat == n
  {
    if n == 0 then 0
    else
      SameOrder(ByteOf(n - 1), 255);
      NextByte(ByteOf(n - 1));
      ByteOf(n - 1) + 1
  }

  lemma SameOrder(x: bv8, y: bv8)
    ensures x as nat < y as nat <==> x < y
    ensures x as nat == y as nat <==> x == y
  {
  }

  lemma ByteBound(x: bv8)
    ensures x as nat < 256
  {
  }

  lemma ByteAndBack(x: bv8)
    ensures x as nat < 256 && ByteOf(x as nat) == x
  {
    ByteBound(x);
    SameOrder(ByteOf(x as nat), x);
  }

  function Numbers(bytes: seq<bv8>): (s: seq<nat>)
    ensures |s| == |bytes| && forall i :: 0 <= i < |s| ==> s[i] < 256 && s[i] == bytes[i] as nat
  {
    seq(|bytes|, i requires 0 <= i < |bytes| => ByteBound(bytes[i]); bytes[i] as nat)
  }

  function MachineBytes(s: seq<nat>): (bytes: seq<bv8>)
    requires forall i :: 0 <= i < |s| ==> s[i] < 256
    ensures |bytes| == |s|
  {
    seq(|s|, i requires 0 <= i < |s| => ByteOf(s[i]))
  }

  lemma NumbersAndBack(bytes: seq<bv8>)
    ensures MachineBytes(Numbers(bytes)) == bytes
  {
    forall i | 0 <= i < |bytes| ensures ByteOf(Numbers(bytes)[i]) == bytes[i] {
      ByteAndBack(bytes[i]);
    }
  }
}
