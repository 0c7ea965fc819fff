/** The wire codec of CPacket, with Encode_option in force: a five-byte header (code, length,
    random key, checksum) and a payload, checksum and payload passed through a two-stage
    chained exclusive-or. */
module PacketCodec {
  import opened Bytes

  const HEADER_SIZE: nat := 5
  const NETWORK_CODE: bv8 := 0x77
  const NETWORK_KEY: bv8 := 0x32

  /** `base + i + 1` in unsigned char arithmetic. */
  function KeyAt(base: bv8, i: nat): bv8 { base + ToByte(i + 1) }

  /** One stage of the cipher: a byte mixed with the previous output of its stage. */
  function Mix(x: bv8, last: bv8, key: bv8): bv8 { x ^ (last + key) }

  lemma MixCancels(x: bv8, last: bv8, key: bv8)
    ensures Mix(Mix(x, last, key), last, key) == x
  {
  }

  lemma MixIsInjective(x: bv8, y: bv8, last: bv8, key: bv8)
    requires x != y
    ensures Mix(x, last, key) != Mix(y, last, key)
  {
  }

  /** The C expressions mix into an int and truncate on assignment; that is the same as
      mixing in unsigned char arithmetic throughout. */
  lemma MixingTruncates(x: bv8, last: bv8, key: bv8, i: bv32)
    ensures ((x as bv32) ^ ((last as bv32) + (key as bv32) + i + 1)) & 0xFF
            == Mix(x, last, key + (((i + 1) & 0xFF) as bv8)) as bv32
  {
  }

  // ---------- The chain ----------

  /** The encoding loop from position `i` on, after plain-stage byte `lastP` and cipher byte `lastE`. */
  function EncodeFrom(data: seq<bv8>, key: bv8, i: nat, lastP: bv8, lastE: bv8): (r: seq<bv8>)
    ensures |r| == |data|
    decreases |data|
  {
    if data == [] then [] else
      var p := Mix(data[0], lastP, KeyAt(key, i));
      var e := Mix(p, lastE, KeyAt(NETWORK_KEY, i));
      [e] + EncodeFrom(data[1..], key, i + 1, p, e)
  }

  /** The decoding loop. */
  function DecodeFrom(data: seq<bv8>, key: bv8, i: nat, lastP: bv8, lastE: bv8): (r: seq<bv8>)
    ensures |r| == |data|
    decreases |data|
  {
    if data == [] then [] else
      var p := Mix(data[0], lastE, KeyAt(NETWORK_KEY, i));
      [Mix(p, lastP, KeyAt(key, i))] + DecodeFrom(data[1..], key, i + 1, p, data[0])
  }

  lemma {:induction false} DecodeUndoesEncode(data: seq<bv8>, key: bv8, i: nat, lastP: bv8, lastE: bv8)
    ensures DecodeFrom(EncodeFrom(data, key, i, lastP, lastE), key, i, lastP, lastE) == data
    decreases |data|
  {
    hide Mix, KeyAt;
    if data != [] {
      var p := Mix(data[0], lastP, KeyAt(key, i));
      var e := Mix(p, lastE, KeyAt(NETWORK_KEY, i));
      MixCancels(data[0], lastP, KeyAt(key, i));
      MixCancels(p, lastE, KeyAt(NETWORK_KEY, i));
      DecodeUndoesEncode(data[1..], key, i + 1, p, e);
    }
  }

  lemma {:induction false} EncodeUndoesDecode(data: seq<bv8>, key: bv8, i: nat, lastP: bv8, lastE: bv8)
    ensures EncodeFrom(DecodeFrom(data, key, i, lastP, lastE), key, i, lastP, lastE) == data
    decreases |data|
  {
    hide Mix, KeyAt;
    if data != [] {
      var p := Mix(data[0], lastE, KeyAt(NETWORK_KEY, i));
      MixCancels(data[0], lastE, KeyAt(NETWORK_KEY, i));
      MixCancels(p, lastP, KeyAt(key, i));
      EncodeUndoesDecode(data[1..], key, i + 1, p, data[0]);
    }
  }

  // ---------- Self-synchronisation ----------

  /** Cipher byte `i`, and 0 before the start. */
  function CipherAt(data: seq<bv8>, i: int): bv8 { if 0 <= i < |data| then data[i] else 0 }

  /** The intermediate byte at `i`: it depends on two cipher bytes only. */
  function PlainStageAt(data: seq<bv8>, i: int): bv8 {
    if i < 0 then 0 else Mix(CipherAt(data, i), CipherAt(data, i - 1), KeyAt(NETWORK_KEY, i))
  }

  /** Decoded byte `i` in closed form: a function of cipher bytes i - 2, i - 1 and i. */
  function DecodedAt(data: seq<bv8>, key: bv8, i: nat): bv8 {
    Mix(PlainStageAt(data, i), PlainStageAt(data, i - 1), KeyAt(key, i))
  }

  lemma {:induction false} DecodeFromClosed(data: seq<bv8>, key: bv8, done: nat, j: nat)
    requires done <= j < |data|
    ensures DecodeFrom(data[done..], key, done, PlainStageAt(data, done - 1), CipherAt(data, done - 1))[j - done]
            == DecodedAt(data, key, j)
    decreases |data| - done
  {
    hide Mix, KeyAt;
    if done < j {
      assert data[done..][1..] == data[done + 1..];
      DecodeFromClosed(data, key, done + 1, j);
    }
  }

  lemma DecodeClosed(data: seq<bv8>, key: bv8, j: nat)
    requires j < |data|
    ensures DecodeFrom(data, key, 0, 0, 0)[j] == DecodedAt(data, key, j)
  {
    assert data[0..] == data;
    DecodeFromClosed(data, key, 0, j);
  }

  /** Changing one cipher byte changes no decoded byte but that one and the next two. */
  lemma CorruptionIsLocal(data: seq<bv8>, key: bv8, at: nat, byte: bv8, j: nat)
    requires at < |data| && j < |data| && (j < at || j > at + 2)
    ensures DecodeFrom(data[at := byte], key, 0, 0, 0)[j] == DecodeFrom(data, key, 0, 0, 0)[j]
  {
    hide Mix, KeyAt, DecodeFrom;
    DecodeClosed(data, key, j);
    DecodeClosed(data[at := byte], key, j);
  }

  /** And the changed byte itself always decodes differently. */
  lemma CorruptionShows(data: seq<bv8>, key: bv8, at: nat, byte: bv8)
    requires at < |data| && byte != data[at]
    ensures DecodeFrom(data[at := byte], key, 0, 0, 0)[at] != DecodeFrom(data, key, 0, 0, 0)[at]
  {
    hide Mix, KeyAt, DecodeFrom;
    DecodeClosed(data, key, at);
    DecodeClosed(data[at := byte], key, at);
    MixIsInjective(byte, data[at], CipherAt(data, at - 1), KeyAt(NETWORK_KEY, at));
    MixIsInjective(PlainStageAt(data[at := byte], at), PlainStageAt(data, at), PlainStageAt(data, at - 1),
        KeyAt(key, at));
  }

  // ---------- Checksum ----------

  function Sum(bytes: seq<bv8>): nat {
    if bytes == [] then 0 else Sum(bytes[..|bytes| - 1]) + Value(bytes[|bytes| - 1])
  }

  /** `Sum % 256` as an unsigned char */
  function Checksum(bytes: seq<bv8>): bv8 { ToByte(Sum(bytes)) }

  lemma ShiftedSum(s: nat, a: nat, b: nat)
    requires a < 0x100 && b < 0x100 && (s + a) % 0x100 == (s + b) % 0x100
    ensures a == b
  {
  }

  /** Two payloads that differ in their last byte only have different checksums. */
  lemma LastByteChangesChecksum(payload: seq<bv8>, byte: bv8)
    requires payload != [] && byte != payload[|payload| - 1]
    ensures Checksum(payload[|payload| - 1 := byte]) != Checksum(payload)
  {
    hide Value, ToByte;
    var last := |payload| - 1;
    var other := payload[last := byte];
    assert other[..last] == payload[..last];
    if Checksum(other) == Checksum(payload) {
      ByteValue(Sum(other));
      ByteValue(Sum(payload));
      ShiftedSum(Sum(payload[..last]), Value(byte), Value(payload[last]));
      SameByte(byte, payload[last]);
    }
  }

  // ---------- Frames ----------

  /** The two bytes of an unsigned short, least significant first. */
  function LowByte(n: nat): bv8 { ToByte(n) }
  function HighByte(n: nat): bv8 { ToByte(n / 0x100) }

  /** The length field as Decode and the receive loop read it. */
  function LengthField(frame: seq<bv8>): nat
    requires |frame| >= HEADER_SIZE
  {
    Value(frame[1]) + 0x100 * Value(frame[2])
  }

  /** What Encode leaves in the buffer for a payload. */
  function EncodedFrame(payload: seq<bv8>, key: bv8): (r: seq<bv8>)
    ensures |r| == HEADER_SIZE + |payload|
  {
    [NETWORK_CODE, LowByte(|payload|), HighByte(|payload|), key]
    + EncodeFrom([Checksum(payload)] + payload, key, 0, 0, 0)
  }

  /** What Decode leaves in the place of a frame; only checksum and payload change. */
  function DecodedFrame(frame: seq<bv8>): (r: seq<bv8>)
    requires |frame| >= HEADER_SIZE
    ensures |r| == |frame|
  {
    frame[..4] + DecodeFrom(frame[4..], frame[3], 0, 0, 0)
  }

  /** What Decode answers. */
  predicate Accepts(frame: seq<bv8>)
    requires |frame| >= HEADER_SIZE
  {
    Checksum(DecodedFrame(frame)[HEADER_SIZE..]) == DecodedFrame(frame)[4]
  }

  /** The receive loop only hands Decode frames of this shape. */
  predicate WellFramed(frame: seq<bv8>) {
    |frame| > HEADER_SIZE && frame[0] == NETWORK_CODE && LengthField(frame) == |frame| - HEADER_SIZE
  }

  lemma LengthRoundTrip(n: nat)
    requires n < 0x1_0000
    ensures Value(LowByte(n)) + 0x100 * Value(HighByte(n)) == n
  {
    hide Value, ToByte;
    ByteValue(n);
    ByteValue(n / 0x100);
  }

  /** An encoded frame is well framed, is accepted, and decodes to its payload. */
  lemma DecodeAfterEncode(payload: seq<bv8>, key: bv8)
    requires 1 <= |payload| < 0x1_0000
    ensures WellFramed(EncodedFrame(payload, key)) && Accepts(EncodedFrame(payload, key))
    ensures DecodedFrame(EncodedFrame(payload, key))
            == [NETWORK_CODE, LowByte(|payload|), HighByte(|payload|), key, Checksum(payload)] + payload
  {
    hide Checksum, LowByte, HighByte, EncodeFrom, DecodeFrom, Value;
    var frame := EncodedFrame(payload, key);
    LengthRoundTrip(|payload|);
    DecodeUndoesEncode([Checksum(payload)] + payload, key, 0, 0, 0);
    assert frame[4..] == EncodeFrom([Checksum(payload)] + payload, key, 0, 0, 0);
    assert DecodedFrame(frame)[HEADER_SIZE..] == payload;
  }

  lemma LengthIsUnique(low: bv8, high: bv8, n: nat)
    requires Value(low) + 0x100 * Value(high) == n
    ensures low == LowByte(n) && high == HighByte(n)
  {
    hide Value, ToByte;
    ByteValue(n);
    ByteValue(n / 0x100);
    SameByte(low, LowByte(n));
    SameByte(high, HighByte(n));
  }

  lemma HeaderIsKept(frame: seq<bv8>, n: nat)
    requires WellFramed(frame) && n == |frame| - HEADER_SIZE
    ensures frame[..4] == [NETWORK_CODE, LowByte(n), HighByte(n), frame[3]]
  {
    hide LowByte, HighByte, Value;
    LengthIsUnique(frame[1], frame[2], n);
  }

  /** Whatever well-framed bytes Decode accepts, re-encoding the payload it found, with the
      key found in the header, gives back those bytes; and only those are accepted. */
  lemma EncodeAfterDecode(frame: seq<bv8>)
    requires WellFramed(frame)
    ensures Accepts(frame) <==> EncodedFrame(DecodedFrame(frame)[HEADER_SIZE..], frame[3]) == frame
  {
    hide Checksum, LowByte, HighByte, EncodeFrom, DecodeFrom, Value;
    var key, chain := frame[3], frame[4..];
    var plain := DecodeFrom(chain, key, 0, 0, 0);
    var payload := plain[1..];
    assert DecodedFrame(frame)[HEADER_SIZE..] == payload && DecodedFrame(frame)[4] == plain[0];
    HeaderIsKept(frame, |payload|);
    var again := EncodeFrom([Checksum(payload)] + payload, key, 0, 0, 0);
    assert frame == frame[..4] + chain && EncodedFrame(payload, key) == frame[..4] + again;
    EncodeUndoesDecode(chain, key, 0, 0, 0);
    DecodeUndoesEncode([Checksum(payload)] + payload, key, 0, 0, 0);
    assert plain == [plain[0]] + payload;
    assert again == chain <==> EncodedFrame(payload, key) == frame by {
      assert EncodedFrame(payload, key)[4..] == again;
    }
    assert again == chain ==> [Checksum(payload)] + payload == plain;
  }

  /** A frame corrupted in its last payload byte only is never accepted. */
  lemma LastByteIsGuarded(payload: seq<bv8>, key: bv8, byte: bv8)
    requires 1 <= |payload| < 0x1_0000
    requires byte != EncodedFrame(payload, key)[HEADER_SIZE + |payload| - 1]
    ensures !Accepts(EncodedFrame(payload, key)[HEADER_SIZE + |payload| - 1 := byte])
  {
    hide Checksum, LowByte, HighByte, EncodeFrom, DecodeFrom, WellFramed, Value;
    var frame := EncodedFrame(payload, key);
    var last := HEADER_SIZE + |payload| - 1;
    var bad := frame[last := byte];
    var chain := frame[4..];
    assert bad[4..] == chain[last - 4 := byte];
    DecodeAfterEncode(payload, key);
    var good', bad' := DecodeFrom(chain, key, 0, 0, 0), DecodeFrom(bad[4..], key, 0, 0, 0);
    assert DecodedFrame(frame)[4..] == good' && DecodedFrame(bad)[4..] == bad';
    assert good' == [Checksum(payload)] + payload;
    CorruptionShows(chain, key, last - 4, byte);
    forall j | 0 <= j < last - 4 ensures bad'[j] == good'[j] { CorruptionIsLocal(chain, key, last - 4, byte, j); }
    assert bad'[1..] == payload[|payload| - 1 := bad'[last - 4]];
    LastByteChangesChecksum(payload, bad'[last - 4]);
    assert DecodedFrame(bad)[HEADER_SIZE..] == bad'[1..];
  }
}
