/** Unsigned chars as bit vectors and as numbers. */
module Bytes {

  type Byte = bv8

  function Value(b: Byte): (n: nat)
    ensures n < 0x100
  {
    b as nat
  }

  /** C's conversion of a non-negative int to unsigned char: it wraps at 256. */
  function ToByte(n: nat): Byte { if n == 0 then 0 else ToByte(n - 1) + 1 }

  lemma SameByte(a: Byte, b: Byte)
    requires Value(a) == Value(b)
    ensures a == b
  {
    assert a == (a as int) as bv8;
  }

  lemma FullByte(b: Byte)
    ensures b == 0xFF <==> Value(b) == 0xFF
  {
    assert b == (b as int) as bv8;
  }

  lemma ByteSuccessor(b: Byte)
    ensures Value(b + 1) == if Value(b) == 0xFF then 0 else Value(b) + 1
  {
    assert b == (b as int) as bv8;
    if b as int != 0xFF { assert b < 0xFF; }
  }

  lemma {:induction false} ByteValue(n: nat)
    ensures Value(ToByte(n)) == n % 0x100
  {
    hide Value;
    if n == 0 {
      ZeroByte();
    } else {
      ByteValue(n - 1);
      ByteSuccessor(ToByte(n - 1));
    }
  }

  lemma ZeroByte()
    ensures Value(0) == 0
  {
  }
}
