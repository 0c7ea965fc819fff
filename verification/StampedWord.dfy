/** The 64-bit `top` word of LockFreeStack: a node address in the low 48 bits and a 16-bit
    stamp in the high 16.  The expressions are the C ones, on bit vectors; what they do to
    the two halves of the word, and when two stamps can coincide, is proved below. */
module StampedWord {
  import opened Bytes

  datatype Address = Address(bits: bv64)

  /** The largest address Windows hands to user code; the constructor insists on it. */
  const MAX_ADDRESS: bv64 := 0x7fff_fffe_ffff
  const LOW_MASK: bv64 := 0x0000_FFFF_FFFF_FFFF
  const HIGH_MASK: bv64 := 0xFFFF_0000_0000_0000
  const STAMP_LIMIT: nat := 0x1_0000

  /** `(Node*)(tempTop & 0x0000FFFFFFFFFFFF)` */
  function AddressOf(top: bv64): Address { Address(top & LOW_MASK) }

  /** `(short)((tempTop & 0xFFFF000000000000) >> 48)` */
  function StampOf(top: bv64): bv16 { (((top & HIGH_MASK) >> 48) & 0xFFFF) as bv16 }

  /** `(INT64)(stamp)`: two's-complement sign extension of a short. */
  function SignExtend(stamp: bv16): bv64 { ((stamp as bv64) ^ 0x8000) - 0x8000 }

  /** The word a push tries to install over `top`. */
  function PushedOver(top: bv64, node: Address): bv64 { node.bits | (top & HIGH_MASK) }

  /** The word a pop tries to install over `top`: the stamp is a wrapping short. */
  function PoppedOver(top: bv64, next: Address): bv64 {
    var stamp := StampOf(top) + 1;
    next.bits | (SignExtend(stamp) << 48)
  }

  /** The stamp after `pops` successful pops on a fresh stack. */
  function StampAfter(pops: nat): bv16 { if pops == 0 then 0 else StampAfter(pops - 1) + 1 }

  /** A push installs its node and leaves the stamp alone. */
  lemma PushedOverParts(top: bv64, node: Address)
    requires node.bits <= MAX_ADDRESS
    ensures AddressOf(PushedOver(top, node)) == node
    ensures StampOf(PushedOver(top, node)) == StampOf(top)
  {
    PushedBits(top, node);
    SameStamp(PushedOver(top, node), top);
  }

  lemma PushedBits(top: bv64, node: Address)
    requires node.bits <= MAX_ADDRESS
    ensures AddressOf(PushedOver(top, node)) == node
    ensures PushedOver(top, node) >> 48 == top >> 48
  {
  }

  lemma SameStamp(a: bv64, b: bv64)
    requires a >> 48 == b >> 48
    ensures StampOf(a) == StampOf(b)
  {
  }

  lemma HighBitsAreShiftedOut(a: bv64, b: bv64)
    requires a & 0xFFFF == b & 0xFFFF
    ensures a << 48 == b << 48
  {
  }

  /** Sign extension is invisible once the stamp is shifted into the high bits. */
  lemma SignIsShiftedOut(stamp: bv16)
    ensures SignExtend(stamp) << 48 == (stamp as bv64) << 48
  {
    HighBitsAreShiftedOut(SignExtend(stamp), stamp as bv64);
  }

  lemma JoinedParts(stamp: bv16, next: Address)
    requires next.bits <= MAX_ADDRESS
    ensures AddressOf(next.bits | ((stamp as bv64) << 48)) == next
    ensures StampOf(next.bits | ((stamp as bv64) << 48)) == stamp
  {
  }

  lemma PoppedOverForm(top: bv64, next: Address)
    ensures PoppedOver(top, next) == next.bits | (((StampOf(top) + 1) as bv64) << 48)
  {
    SignIsShiftedOut(StampOf(top) + 1);
  }

  /** A pop installs the successor and bumps the stamp by one, wrapping. */
  lemma PoppedOverParts(top: bv64, next: Address)
    requires next.bits <= MAX_ADDRESS
    ensures AddressOf(PoppedOver(top, next)) == next
    ensures StampOf(PoppedOver(top, next)) == StampOf(top) + 1
  {
    PoppedOverForm(top, next);
    JoinedParts(StampOf(top) + 1, next);
  }

  function LowByte(stamp: bv16): bv8 { (stamp & 0xFF) as bv8 }
  function HighByte(stamp: bv16): bv8 { (stamp >> 8) as bv8 }

  /** A stamp as a number. */
  function Number(stamp: bv16): nat { Value(LowByte(stamp)) + 0x100 * Value(HighByte(stamp)) }

  lemma StampBytes(stamp: bv16)
    ensures LowByte(stamp + 1) == LowByte(stamp) + 1
    ensures HighByte(stamp + 1) == if LowByte(stamp) == 0xFF then HighByte(stamp) + 1 else HighByte(stamp)
  {
  }

  lemma NumberSuccessor(stamp: bv16)
    ensures Number(stamp + 1) == (Number(stamp) + 1) % STAMP_LIMIT
  {
    hide LowByte, HighByte, Value;
    var low, high := LowByte(stamp), HighByte(stamp);
    StampBytes(stamp);
    ByteSuccessor(low);
    ByteSuccessor(high);
    FullByte(low);
    Carry(Value(low), Value(high), Value(LowByte(stamp + 1)), Value(HighByte(stamp + 1)));
  }

  lemma Carry(low: nat, high: nat, low': nat, high': nat)
    requires low < 0x100 && high < 0x100
    requires low' == if low == 0xFF then 0 else low + 1
    requires high' == if low != 0xFF then high else if high == 0xFF then 0 else high + 1
    ensures low' + 0x100 * high' == (low + 0x100 * high + 1) % STAMP_LIMIT
  {
  }

  lemma {:induction false} StampAfterIsModular(pops: nat)
    ensures Number(StampAfter(pops)) == pops % STAMP_LIMIT
  {
    hide Value, LowByte, HighByte;
    if pops == 0 { ZeroStamp(); }
    if pops != 0 {
      StampAfterIsModular(pops - 1);
      NextNumber(pops, StampAfter(pops - 1), Number(StampAfter(pops - 1)));
    }
  }

  lemma ZeroStamp()
    ensures Number(0) == 0
  {
  }

  lemma NextNumber(pops: nat, stamp: bv16, number: nat)
    requires pops > 0 && number == Number(stamp) == (pops - 1) % STAMP_LIMIT
    ensures Number(stamp + 1) == pops % STAMP_LIMIT
  {
    hide Number;
    NumberSuccessor(stamp);
  }

  lemma JoinedBytes(a: bv16, b: bv16)
    requires LowByte(a) == LowByte(b) && HighByte(a) == HighByte(b)
    ensures a == b
  {
  }

  lemma DigitsAreUnique(low: nat, high: nat, low': nat, high': nat)
    requires low < 0x100 && low' < 0x100 && low + 0x100 * high == low' + 0x100 * high'
    ensures low == low' && high == high'
  {
  }

  lemma SameNumber(a: bv16, b: bv16)
    requires Number(a) == Number(b)
    ensures a == b
  {
    hide LowByte, HighByte, Value;
    var low, high, low', high' := LowByte(a), HighByte(a), LowByte(b), HighByte(b);
    DigitsAreUnique(Value(low), Value(high), Value(low'), Value(high'));
    SameByte(low, low');
    SameByte(high, high');
    JoinedBytes(a, b);
  }

  /** Two stamps coincide exactly when the pops between them are a multiple of 65536; so
      fewer than 65536 pops apart, only when there was none. */
  lemma StampsCoincide(earlier: nat, later: nat)
    requires earlier <= later
    ensures StampAfter(earlier) == StampAfter(later) <==> (later - earlier) % STAMP_LIMIT == 0
  {
    hide Number, StampAfter;
    StampAfterIsModular(earlier);
    StampAfterIsModular(later);
    SameResidue(earlier, later);
    if earlier % STAMP_LIMIT == later % STAMP_LIMIT {
      SameNumber(StampAfter(earlier), StampAfter(later));
    }
  }

  lemma SameResidue(a: nat, b: nat)
    requires a <= b
    ensures a % STAMP_LIMIT == b % STAMP_LIMIT <==> (b - a) % STAMP_LIMIT == 0
  {
  }

  lemma WordFromParts(a: bv64, b: bv64)
    requires AddressOf(a) == AddressOf(b) && StampOf(a) == StampOf(b)
    ensures a == b
  {
  }
}
