// Bytes as eight bits.
module ByteBits {
  import opened PhysMemory

  function ToBits(a: Byte): bv8 { a as bv8 }
  function ToByte(x: bv8): Byte { x as nat }
  function XorBits(x: bv8, y: bv8): bv8 { x ^ y }
  function XorByte(a: Byte, b: Byte): Byte { ToByte(XorBits(ToBits(a), ToBits(b))) }

  lemma There(a: nat)
    requires a < 0x100
    ensures (a as bv8) as nat == a
  {
  }

  lemma ByteThere(a: Byte)
    ensures ToByte(ToBits(a)) == a
  {
    There(a);
  }

  lemma BitsThere(x: bv8)
    ensures ToBits(ToByte(x)) == x
  {
  }

  lemma XorBitsTwice(x: bv8, y: bv8)
    ensures XorBits(XorBits(x, y), y) == x
  {
  }

  // Exclusive or with the same byte twice changes nothing.
  lemma XorTwice(a: Byte, b: Byte)
    ensures XorByte(XorByte(a, b), b) == a
  {
    hide ToBits, ToByte, XorBits;
    ByteThere(a);
    BitsThere(XorBits(ToBits(a), ToBits(b)));
    XorBitsTwice(ToBits(a), ToBits(b));
  }
}
