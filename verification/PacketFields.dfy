/** Typed fields in a packet: what is written, encoded, carried over the wire, decoded and
    read back. */
module PacketFields {
  import opened Bytes
  import opened PacketCodec
  import opened Packet

  /** The operand types of `operator <<` and `operator >>`: a width of 1, 2, 4 or 8 bytes,
      signed or not; floats and doubles travel as their bit patterns. */
  datatype Kind = Kind(width: nat, signed: bool)

  datatype Field = Scalar(kind: Kind, value: int) | Block(data: seq<bv8>)
  datatype Shape = OfScalar(kind: Kind) | OfBlock(length: nat)

  function Span(width: nat): nat { if width == 0 then 1 else 0x100 * Span(width - 1) }

  predicate Fits(kind: Kind, value: int) {
    kind.width > 0
    && if kind.signed then -(Span(kind.width) / 2) <= value < Span(kind.width) / 2 else 0 <= value < Span(kind.width)
  }

  predicate WellTyped(f: Field) { f.Scalar? ==> Fits(f.kind, f.value) }

  // ---------- Memory images ----------

  function LittleEndian(n: nat, width: nat): (r: seq<bv8>)
    ensures |r| == width
  {
    if width == 0 then [] else [ToByte(n)] + LittleEndian(n / 0x100, width - 1)
  }

  function FromLittleEndian(image: seq<bv8>): nat {
    if image == [] then 0 else Value(image[0]) + 0x100 * FromLittleEndian(image[1..])
  }

  lemma {:induction false} LittleEndianRoundTrip(n: nat, width: nat)
    requires n < Span(width)
    ensures FromLittleEndian(LittleEndian(n, width)) == n
  {
    hide Value, ToByte;
    if width > 0 {
      ByteValue(n);
      LittleEndianRoundTrip(n / 0x100, width - 1);
    }
  }

  /** A value as it lies in memory: two's complement, least significant byte first. */
  function Image(kind: Kind, value: int): (r: seq<bv8>)
    requires Fits(kind, value)
    ensures |r| == kind.width
  {
    LittleEndian(if value < 0 then value + Span(kind.width) else value, kind.width)
  }

  function Reading(kind: Kind, image: seq<bv8>): int {
    var n := FromLittleEndian(image);
    if kind.signed && n >= Span(kind.width) / 2 then n - Span(kind.width) else n
  }

  lemma SpanIsEven(width: nat)
    requires width > 0
    ensures Span(width) % 2 == 0 && Span(width) >= 0x100
  {
    if width > 1 { SpanIsEven(width - 1); }
  }

  lemma ReadingUndoesImage(kind: Kind, value: int)
    requires Fits(kind, value)
    ensures Reading(kind, Image(kind, value)) == value
  {
    SpanIsEven(kind.width);
    LittleEndianRoundTrip(if value < 0 then value + Span(kind.width) else value, kind.width);
  }

  // ---------- Fields ----------

  function Serialize(f: Field): seq<bv8>
    requires WellTyped(f)
  {
    match f
    case Scalar(kind, value) => Image(kind, value)
    case Block(data) => data
  }

  function ShapeOf(f: Field): Shape {
    match f
    case Scalar(kind, _) => OfScalar(kind)
    case Block(data) => OfBlock(|data|)
  }

  predicate AllTyped(fields: seq<Field>) { forall i | 0 <= i < |fields| :: WellTyped(fields[i]) }

  function SerializeAll(fields: seq<Field>): seq<bv8>
    requires AllTyped(fields)
  {
    if fields == [] then [] else Serialize(fields[0]) + SerializeAll(fields[1..])
  }

  function ShapesOf(fields: seq<Field>): seq<Shape> {
    if fields == [] then [] else [ShapeOf(fields[0])] + ShapesOf(fields[1..])
  }

  /** A sequence of `<<` and PutData calls. */
  function WriteAll(b: Buffer, fields: seq<Field>): (r: Buffer)
    requires Ok(b) && AllTyped(fields)
    ensures Ok(r)
    decreases |fields|
  {
    if fields == [] then b else WriteAll(Appended(b, Serialize(fields[0])), fields[1..])
  }

  /** One `>>` or GetData call; a failed one leaves a zero or an empty block. */
  function ReadField(b: Buffer, shape: Shape): (r: (Buffer, Field))
    requires Ok(b)
    ensures Ok(r.0)
  {
    match shape
    case OfScalar(kind) =>
      (ReadMoved(b, kind.width).0,
       Scalar(kind, if |Contents(b)| >= kind.width then Reading(kind, Contents(b)[..kind.width]) else 0))
    case OfBlock(length) =>
      (ReadMoved(b, length).0, Block(if |Contents(b)| >= length then Contents(b)[..length] else []))
  }

  function ReadAll(b: Buffer, shapes: seq<Shape>): (r: (Buffer, seq<Field>))
    requires Ok(b)
    ensures Ok(r.0)
    decreases |shapes|
  {
    if shapes == [] then (b, [])
    else
      var (b', f) := ReadField(b, shapes[0]);
      var (b'', rest) := ReadAll(b', shapes[1..]);
      (b'', [f] + rest)
  }

  lemma AppendedContents(b: Buffer, data: seq<bv8>)
    requires Ok(b) && |data| <= CAPACITY - b.write
    ensures Contents(Appended(b, data)) == Contents(b) + data
    ensures Appended(b, data).bytes[..b.write] == b.bytes[..b.write]
    ensures Appended(b, data).bytes[b.write..b.write + |data|] == data
  {
  }

  lemma {:induction false} WriteAllContents(b: Buffer, fields: seq<Field>)
    requires Ok(b) && AllTyped(fields) && |SerializeAll(fields)| <= CAPACITY - b.write
    ensures var w := WriteAll(b, fields);
            w.read == b.read && w.write == b.write + |SerializeAll(fields)|
            && w.bytes[..b.write] == b.bytes[..b.write]
            && w.bytes[b.write..w.write] == SerializeAll(fields)
    decreases |fields|
  {
    hide Image, Contents;
    if fields != [] {
      var data := Serialize(fields[0]);
      var b' := Appended(b, data);
      AppendedContents(b, data);
      WriteAllContents(b', fields[1..]);
      var w := WriteAll(b, fields);
      assert w.bytes[..b.write] == w.bytes[..b'.write][..b.write];
      assert w.bytes[b.write..w.write] == w.bytes[..b'.write][b.write..] + w.bytes[b'.write..w.write];
    }
  }

  lemma ReadMovedContents(b: Buffer, n: nat)
    requires Ok(b) && n <= |Contents(b)|
    ensures Contents(ReadMoved(b, n).0) == Contents(b)[n..]
  {
  }

  /** Reading with the shapes that were written returns what was written and nothing else. */
  lemma {:induction false} ReadAllSerialized(b: Buffer, fields: seq<Field>)
    requires Ok(b) && AllTyped(fields) && Contents(b) == SerializeAll(fields)
    ensures ReadAll(b, ShapesOf(fields)).1 == fields
    ensures Contents(ReadAll(b, ShapesOf(fields)).0) == []
    decreases |fields|
  {
    hide Image, Contents, Reading, ReadMoved;
    if fields != [] {
      var data := Serialize(fields[0]);
      ReadMovedContents(b, |data|);
      assert Contents(b)[..|data|] == data && Contents(b)[|data|..] == SerializeAll(fields[1..]);
      if fields[0].Scalar? { ReadingUndoesImage(fields[0].kind, fields[0].value); }
      ReadAllSerialized(ReadField(b, ShapeOf(fields[0])).0, fields[1..]);
    }
  }

  // ---------- Across the wire ----------

  /** What sendPost puts on the wire for a packet: the bytes between the cursors. */
  function OnTheWire(b: Buffer, fields: seq<Field>, key: bv8): seq<bv8>
    requires Ok(b) && AllTyped(fields)
  {
    Contents(Encoded(WriteAll(Cleared(b), fields), key).0)
  }

  lemma WireIsFrame(b: Buffer, fields: seq<Field>, key: bv8)
    requires Ok(b) && AllTyped(fields) && 1 <= |SerializeAll(fields)| <= CAPACITY - HEADER_SIZE
    ensures Encoded(WriteAll(Cleared(b), fields), key).1
    ensures OnTheWire(b, fields, key) == EncodedFrame(SerializeAll(fields), key)
  {
    hide EncodedFrame;
    WriteAllContents(Cleared(b), fields);
  }

  lemma DecodeReceived(b: Buffer, payload: seq<bv8>, key: bv8)
    requires Ok(b) && 1 <= |payload| <= CAPACITY - HEADER_SIZE
    ensures var r := Received(b, EncodedFrame(payload, key));
            FrameEnd(r) == HEADER_SIZE + |payload| && Decoded(r).1
            && Contents(ReadMoved(Decoded(r).0, HEADER_SIZE).0) == payload
  {
    hide EncodedFrame, DecodedFrame, Accepts, Value;
    var wire := EncodedFrame(payload, key);
    var r := Received(b, wire);
    DecodeAfterEncode(payload, key);
    assert r.bytes[..|wire|] == wire && r.write == |wire| && r.read == 0;
    assert LengthField(r.bytes) == LengthField(wire);
    var d := Decoded(r).0;
    assert d.bytes[..|wire|] == DecodedFrame(wire);
    ReadMovedContents(d, HEADER_SIZE);
    assert Contents(d) == d.bytes[..|wire|];
  }

  /** Any typed fields and raw blocks that fit, written after Clear, encoded under any key,
      received into any packet, decoded and read back with the same types after skipping the
      header, come back unchanged and leave no data. */
  lemma FieldsRoundTrip(sender: Buffer, receiver: Buffer, fields: seq<Field>, key: bv8)
    requires Ok(sender) && Ok(receiver) && AllTyped(fields)
    requires 1 <= |SerializeAll(fields)| <= CAPACITY - HEADER_SIZE
    ensures var wire := OnTheWire(sender, fields, key);
            var r := Received(receiver, wire);
            FrameEnd(r) <= BUFFER_DEFAULT && Decoded(r).1 &&
            var (rest, got) := ReadAll(ReadMoved(Decoded(r).0, HEADER_SIZE).0, ShapesOf(fields));
            got == fields && Contents(rest) == []
  {
    hide EncodedFrame, Decoded, Received, FrameEnd, OnTheWire, ReadMoved, Contents;
    WireIsFrame(sender, fields, key);
    DecodeReceived(receiver, SerializeAll(fields), key);
    var r := Received(receiver, OnTheWire(sender, fields, key));
    ReadAllSerialized(ReadMoved(Decoded(r).0, HEADER_SIZE).0, fields);
  }
}
