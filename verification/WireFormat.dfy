/** The bytes on the wire, said independently of the model's own arithmetic: the two loops in C's
    int arithmetic, the header field by field, the memory images byte by byte, and one frame
    written out. */
module WireFormat {
  import opened Bytes
  import opened PacketCodec
  import PacketFields

  // ---------- The position in the key ----------

  lemma NextResidue(n: nat)
    ensures (n + 1) % 0x100 == if n % 0x100 == 0xFF then 0 else n % 0x100 + 1
  {
  }

  /** `n` more, on an unsigned char. */
  function Plus(base: bv8, n: nat): bv8 { base + ToByte(n) }

  predicate Residue(b: bv8, n: nat) { Value(b) == n % 0x100 }

  lemma ByteAfter(base: bv8, n: nat)
    ensures Plus(base, 0) == base
    ensures Plus(base, n + 1) == Plus(base, n) + 1
  {
    var previous := ToByte(n);
    assert ToByte(n + 1) == previous + 1;
    hide ToByte;
  }

  lemma OwnResidue(b: bv8)
    ensures Residue(b, Value(b))
  {
  }

  lemma OneMore(b: bv8, n: nat)
    requires Residue(b, n)
    ensures Residue(b + 1, n + 1)
  {
    hide Value;
    ByteSuccessor(b);
    NextResidue(n);
  }

  lemma {:induction false} AddedByte(base: bv8, n: nat)
    ensures Residue(Plus(base, n), Value(base) + n)
  {
    hide Value, Plus, Residue;
    ByteAfter(base, if n > 0 then n - 1 else 0);
    if n == 0 {
      OwnResidue(base);
    } else {
      AddedByte(base, n - 1);
      OneMore(Plus(base, n - 1), Value(base) + (n - 1));
    }
  }

  /** The key byte at position `i` is the base plus i plus 1, modulo 256. */
  lemma KeyValue(base: bv8, i: nat)
    ensures Value(KeyAt(base, i)) == (Value(base) + i + 1) % 0x100
  {
    AddedByte(base, i + 1);
  }

  // ---------- The loops in int arithmetic ----------

  /** `x ^ (last + key + i + 1)`, computed on ints and truncated to an unsigned char. */
  function CMix(x: bv8, last: bv8, key: bv8, i: bv32): bv8 {
    (((x as bv32) ^ ((last as bv32) + (key as bv32) + i + 1)) & 0xFF) as bv8
  }

  /** The encoding loop as written, with its int counter. */
  function CEncode(data: seq<bv8>, randkey: bv8, i: bv32, lastP: bv8, lastE: bv8): seq<bv8>
    decreases |data|
  {
    if data == [] then [] else
      var p := CMix(data[0], lastP, randkey, i);
      var e := CMix(p, lastE, 0x32, i);
      [e] + CEncode(data[1..], randkey, i + 1, p, e)
  }

  /** The decoding loop as written. */
  function CDecode(data: seq<bv8>, randkey: bv8, i: bv32, lastP: bv8, lastE: bv8): seq<bv8>
    decreases |data|
  {
    if data == [] then [] else
      var nowP := CMix(data[0], lastE, 0x32, i);
      [CMix(nowP, lastP, randkey, i)] + CDecode(data[1..], randkey, i + 1, nowP, data[0])
  }

  function Low(i: bv32): bv8 { (i & 0xFF) as bv8 }

  lemma LowSuccessor(i: bv32)
    ensures Low(i + 1) == Low(i) + 1
  {
  }

  lemma CMixIsMix(x: bv8, last: bv8, key: bv8, i: bv32)
    ensures CMix(x, last, key, i) == Mix(x, last, key + Low(i + 1))
  {
    hide Mix;
    MixingTruncates(x, last, key, i);
    Truncated(((x as bv32) ^ ((last as bv32) + (key as bv32) + i + 1)), Mix(x, last, key + Low(i + 1)));
  }

  lemma Truncated(a: bv32, b: bv8)
    requires a & 0xFF == b as bv32
    ensures (a & 0xFF) as bv8 == b
  {
  }

  lemma OneCMix(x: bv8, last: bv8, key: bv8, i: bv32, n: nat)
    requires Low(i) == ToByte(n)
    ensures CMix(x, last, key, i) == Mix(x, last, KeyAt(key, n)) && Low(i + 1) == ToByte(n + 1)
  {
    hide CMix, Mix, Low;
    CMixIsMix(x, last, key, i);
    LowSuccessor(i);
  }

  lemma {:induction false} EncodesAsWritten(data: seq<bv8>, key: bv8, i: bv32, n: nat, lastP: bv8, lastE: bv8)
    requires Low(i) == ToByte(n)
    ensures CEncode(data, key, i, lastP, lastE) == EncodeFrom(data, key, n, lastP, lastE)
    decreases |data|
  {
    hide CMix, Mix, KeyAt, Low, ToByte;
    if data != [] {
      var p := CMix(data[0], lastP, key, i);
      OneCMix(data[0], lastP, key, i, n);
      OneCMix(p, lastE, NETWORK_KEY, i, n);
      EncodesAsWritten(data[1..], key, i + 1, n + 1, p, CMix(p, lastE, NETWORK_KEY, i));
    }
  }

  lemma {:induction false} DecodesAsWritten(data: seq<bv8>, key: bv8, i: bv32, n: nat, lastP: bv8, lastE: bv8)
    requires Low(i) == ToByte(n)
    ensures CDecode(data, key, i, lastP, lastE) == DecodeFrom(data, key, n, lastP, lastE)
    decreases |data|
  {
    hide CMix, Mix, KeyAt, Low, ToByte;
    if data != [] {
      var p := CMix(data[0], lastE, NETWORK_KEY, i);
      OneCMix(data[0], lastE, NETWORK_KEY, i, n);
      OneCMix(p, lastP, key, i, n);
      DecodesAsWritten(data[1..], key, i + 1, n + 1, p, data[0]);
    }
  }

  // ---------- Checksum and frame ----------

  /** The sum is the sum. */
  lemma {:induction false} SumAddsUp(a: seq<bv8>, b: seq<bv8>)
    ensures Sum(a + b) == Sum(a) + Sum(b) && Sum([]) == 0
    decreases |b|
  {
    hide Value;
    if b == [] {
      assert a + b == a;
    } else {
      assert (a + b)[..|a + b| - 1] == a + b[..|b| - 1];
      SumAddsUp(a, b[..|b| - 1]);
    }
  }

  lemma SumOfOne(b: bv8)
    ensures Sum([b]) == Value(b)
  {
    hide Value;
    assert [b][..0] == [];
    assert Sum([]) == 0;
  }

  /** What Encode sends: code, length with the low byte first, random key, and behind them checksum
      and payload through the loop as written. */
  lemma FrameAsWritten(payload: seq<bv8>, key: bv8)
    requires |payload| < 0x1_0000
    ensures var frame := EncodedFrame(payload, key);
            && |frame| == 5 + |payload| && frame[0] == 0x77 && frame[3] == key
            && Value(frame[1]) == |payload| % 0x100 && Value(frame[2]) == |payload| / 0x100
            && frame[4..] == CEncode([Checksum(payload)] + payload, key, 0, 0, 0)
            && Value(Checksum(payload)) == Sum(payload) % 0x100
  {
    hide Value, ToByte, EncodeFrom, CEncode, Low;
    ByteValue(|payload|);
    ByteValue(|payload| / 0x100);
    ByteValue(Sum(payload));
    assert Low(0) == ToByte(0) by { FirstLow(); }
    EncodesAsWritten([Checksum(payload)] + payload, key, 0, 0, 0, 0);
    assert EncodedFrame(payload, key)[4..] == EncodeFrom([Checksum(payload)] + payload, key, 0, 0, 0);
  }

  lemma FirstLow()
    ensures Low(0) == ToByte(0)
  {
  }

  /** What Decode leaves: the header, and behind it the loop as written over what came. */
  lemma DecodedAsWritten(frame: seq<bv8>)
    requires |frame| >= 5
    ensures DecodedFrame(frame) == frame[..4] + CDecode(frame[4..], frame[3], 0, 0, 0)
    ensures Accepts(frame) <==> Value(DecodedFrame(frame)[4]) == Sum(DecodedFrame(frame)[5..]) % 0x100
  {
    hide Value, ToByte, DecodeFrom, CDecode, Low;
    assert Low(0) == ToByte(0) by { FirstLow(); }
    DecodesAsWritten(frame[4..], frame[3], 0, 0, 0, 0);
    var sum := Sum(DecodedFrame(frame)[5..]);
    ByteValue(sum);
    if Value(DecodedFrame(frame)[4]) == sum % 0x100 { SameByte(ToByte(sum), DecodedFrame(frame)[4]); }
  }

  /** One frame, written out. */
  lemma OneFrame()
    ensures EncodedFrame([0], 0) == [0x77, 0x01, 0x00, 0x00, 0x32, 0x65]
  {
    var payload: seq<bv8> := [0];
    FrameAsWritten(payload, 0);
    var frame := EncodedFrame(payload, 0);
    assert frame[..4] == [0x77, ToByte(1), ToByte(0), 0] && ToByte(1) == 1 && ToByte(0) == 0;
    SumOfOne(0);
    ZeroByte();
    assert Checksum(payload) == 0;
    assert [0] + payload == [0, 0];
    TwoZeros();
    assert frame == frame[..4] + frame[4..];
  }

  lemma TwoZeros()
    ensures CEncode([0, 0], 0, 0, 0, 0) == [0x32, 0x65]
  {
    assert [0, 0][1..] == [0] && [0][1..] == [];
    assert CMix(0, 0, 0, 0) == 1 && CMix(1, 0, 0x32, 0) == 0x32;
    assert CMix(0, 1, 0, 1) == 3 && CMix(3, 0x32, 0x32, 1) == 0x65;
  }

  // ---------- Memory images ----------

  /** The `i`th digit in base 256, the lowest first. */
  function Digit(n: nat, i: nat): nat { if i == 0 then n % 0x100 else Digit(n / 0x100, i - 1) }

  /** Byte `i` of a value's image is its `i`th digit. */
  lemma {:induction false} ImageByte(n: nat, width: nat, i: nat)
    requires i < width
    ensures Value(PacketFields.LittleEndian(n, width)[i]) == Digit(n, i)
  {
    hide Value, ToByte;
    if i == 0 { ByteValue(n); } else { ImageByte(n / 0x100, width - 1, i - 1); }
  }

  /** A scalar's image: its digits if it is not negative, else those of its two's complement. */
  lemma ScalarImage(kind: PacketFields.Kind, value: int, i: nat)
    requires PacketFields.Fits(kind, value) && i < kind.width
    ensures Value(PacketFields.Image(kind, value)[i]) ==
            Digit(if value < 0 then value + PacketFields.Span(kind.width) else value, i)
  {
    ImageByte(if value < 0 then value + PacketFields.Span(kind.width) else value, kind.width, i);
  }

  lemma Spans()
    ensures PacketFields.Span(1) == 0x100 && PacketFields.Span(2) == 0x1_0000
    ensures PacketFields.Span(4) == 0x1_0000_0000 && PacketFields.Span(8) == 0x1_0000_0000_0000_0000
  {
  }
}
