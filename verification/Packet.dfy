/** CPacket: a fixed buffer with a read and a write cursor.  `Buffer` is the abstract value of
    a packet and the functions on it specify the methods of the class. */
module Packet {
  import opened Bytes
  import opened PacketCodec

  const BUFFER_DEFAULT: nat := 2000

  /** `end - begin`: one byte of the buffer is never used. */
  const CAPACITY: nat := BUFFER_DEFAULT - 1

  datatype Buffer = Buffer(bytes: seq<bv8>, read: int, write: int, size: int)

  predicate Ok(b: Buffer) {
    |b.bytes| == BUFFER_DEFAULT && 0 <= b.read <= b.write <= CAPACITY && b.size == b.write - b.read
  }

  function Cleared(b: Buffer): (r: Buffer)
    requires Ok(b)
    ensures Ok(r)
  {
    b.(read := 0, write := HEADER_SIZE, size := HEADER_SIZE)
  }

  function ClearedForNetwork(b: Buffer): (r: Buffer)
    requires Ok(b)
    ensures Ok(r)
  {
    b.(read := 0, write := 0, size := 0)
  }

  /** MoveWritePos: the new value and the returned int. */
  function WriteMoved(b: Buffer, n: int): (r: (Buffer, int))
    requires Ok(b)
    ensures Ok(r.0)
  {
    if n <= 0 then (b, 0)
    else if CAPACITY - b.write < n then (b, -1)
    else (b.(write := b.write + n, size := b.size + n), n)
  }

  function ReadMoved(b: Buffer, n: int): (r: (Buffer, int))
    requires Ok(b)
    ensures Ok(r.0)
  {
    if n <= 0 then (b, 0)
    else if b.write - b.read < n then (b, -1)
    else (b.(read := b.read + n, size := b.size - n), n)
  }

  /** Storing bytes at the write cursor; without room nothing happens. */
  function Appended(b: Buffer, data: seq<bv8>): (r: Buffer)
    requires Ok(b)
    ensures Ok(r)
  {
    if CAPACITY - b.write < |data| then b
    else b.(bytes := b.bytes[..b.write] + data + b.bytes[b.write + |data|..],
            write := b.write + |data|, size := b.size + |data|)
  }

  /** The bytes between the cursors. */
  function Contents(b: Buffer): seq<bv8>
    requires Ok(b)
  {
    b.bytes[b.read..b.write]
  }

  /** Encode refuses a packet without payload; else it frames what follows the header. */
  function Encoded(b: Buffer, key: bv8): (r: (Buffer, bool))
    requires Ok(b)
    ensures Ok(r.0)
  {
    if b.size <= HEADER_SIZE then (b, false)
    else (b.(bytes := EncodedFrame(b.bytes[HEADER_SIZE..b.size], key) + b.bytes[b.size..]), true)
  }

  /** How far Decode reaches: it trusts the length field. */
  function FrameEnd(b: Buffer): nat
    requires Ok(b)
  {
    HEADER_SIZE + LengthField(b.bytes)
  }

  function Decoded(b: Buffer): (r: (Buffer, bool))
    requires Ok(b)
    requires b.size > HEADER_SIZE ==> FrameEnd(b) <= BUFFER_DEFAULT
    ensures Ok(r.0)
  {
    if b.size <= HEADER_SIZE then (b, false)
    else
      var frame := b.bytes[..FrameEnd(b)];
      (b.(bytes := DecodedFrame(frame) + b.bytes[FrameEnd(b)..]), Accepts(frame))
  }

  /** What fits of a frame copied to the start of the buffer. */
  function Copied(wire: seq<bv8>): seq<bv8> { if |wire| <= BUFFER_DEFAULT then wire else wire[..BUFFER_DEFAULT] }

  /** The receive loop on a packet: ClearNetwork, a copy to the write cursor, MoveWritePos. */
  function Received(b: Buffer, wire: seq<bv8>): (r: Buffer)
    requires Ok(b)
    ensures Ok(r)
  {
    var empty := ClearedForNetwork(b);
    WriteMoved(empty.(bytes := Copied(wire) + empty.bytes[|Copied(wire)|..]), |wire|).0
  }

  /** One turn of the encoding loop, and one of the decoding loop. */
  lemma EncodeTurn(plain: seq<bv8>, goal: seq<bv8>, key: bv8, i: nat, lastP: bv8, lastE: bv8)
    requires i < |plain| == |goal| && goal[i..] == EncodeFrom(plain[i..], key, i, lastP, lastE)
    ensures var p := Mix(plain[i], lastP, KeyAt(key, i));
            var e := Mix(p, lastE, KeyAt(NETWORK_KEY, i));
            goal[i] == e && goal[i + 1..] == EncodeFrom(plain[i + 1..], key, i + 1, p, e)
  {
    hide Mix, KeyAt;
    assert plain[i..][1..] == plain[i + 1..] && goal[i..][1..] == goal[i + 1..];
    assert goal[i..][0] == goal[i];
  }

  lemma DecodeTurn(cipher: seq<bv8>, goal: seq<bv8>, key: bv8, i: nat, lastP: bv8, lastE: bv8)
    requires i < |cipher| == |goal| && goal[i..] == DecodeFrom(cipher[i..], key, i, lastP, lastE)
    ensures var p := Mix(cipher[i], lastE, KeyAt(NETWORK_KEY, i));
            goal[i] == Mix(p, lastP, KeyAt(key, i))
            && goal[i + 1..] == DecodeFrom(cipher[i + 1..], key, i + 1, p, cipher[i])
  {
    hide Mix, KeyAt;
    assert cipher[i..][1..] == cipher[i + 1..] && goal[i..][1..] == goal[i + 1..];
    assert goal[i..][0] == goal[i];
  }

  class CPacket {
    const begin: array<bv8>
    var readPos: int
    var writePos: int
    var DataSize: int
    var refCount: int
    var encodeFlag: bool

    function View(): Buffer
      reads this, begin
    {
      Buffer(begin[..], readPos, writePos, DataSize)
    }

    ghost predicate Valid()
      reads this, begin
    {
      Ok(View())
    }

    constructor ()
      ensures Valid() && fresh(begin) && Contents(View()) == [] && refCount == 0 && !encodeFlag
    {
      begin := new bv8[BUFFER_DEFAULT](_ => 0);
      readPos, writePos, DataSize, refCount, encodeFlag := 0, 0, 0, 0, false;
    }

    /** What mAlloc does to a packet taken from the pool: the cursors stay where the last user
        left them, but for the header's room. */
    method Allocate()
      requires Valid()
      modifies this`refCount, this`encodeFlag, this`writePos, this`DataSize
      ensures Valid() && refCount == 0 && !encodeFlag && View() == WriteMoved(old(View()), HEADER_SIZE).0
    {
      refCount, encodeFlag := 0, false;
      var moved := MoveWritePos(HEADER_SIZE);
    }

    method AddRef(n: int)
      modifies this`refCount
      ensures refCount == old(refCount) + n
    {
      refCount := refCount + n;
    }

    method SubRef() returns (left: int)
      modifies this`refCount
      ensures left == refCount == old(refCount) - 1
    {
      refCount := refCount - 1;
      left := refCount;
    }

    method Clear()
      requires Valid()
      modifies this`readPos, this`writePos, this`DataSize
      ensures Valid() && View() == Cleared(old(View()))
    {
      readPos, writePos, DataSize := 0, HEADER_SIZE, HEADER_SIZE;
    }

    method ClearNetwork()
      requires Valid()
      modifies this`readPos, this`writePos, this`DataSize
      ensures Valid() && View() == ClearedForNetwork(old(View()))
    {
      readPos, writePos, DataSize := 0, 0, 0;
    }

    method GetDataSize() returns (n: int)
      requires Valid()
      ensures n == |Contents(View())| == DataSize
    {
      n := writePos - readPos;
    }

    method MoveWritePos(n: int) returns (moved: int)
      requires Valid()
      modifies this`writePos, this`DataSize
      ensures Valid() && (View(), moved) == WriteMoved(old(View()), n)
    {
      if n <= 0 { return 0; }
      if CAPACITY - writePos < n { return -1; }
      writePos, DataSize := writePos + n, DataSize + n;
      return n;
    }

    method MoveReadPos(n: int) returns (moved: int)
      requires Valid()
      modifies this`readPos, this`DataSize
      ensures Valid() && (View(), moved) == ReadMoved(old(View()), n)
    {
      if n <= 0 { return 0; }
      if writePos - readPos < n { return -1; }
      readPos, DataSize := readPos + n, DataSize - n;
      return n;
    }

    /** memcpy to the write cursor */
    method Store(data: seq<bv8>)
      requires Valid() && writePos + |data| <= BUFFER_DEFAULT
      modifies begin
      ensures begin[..] == old(begin[..writePos]) + data + old(begin[writePos + |data|..])
    {
      ghost var was := begin[..];
      var i := 0;
      while i < |data|
        invariant 0 <= i <= |data|
        invariant begin[..] == was[..writePos] + data[..i] + was[writePos + i..]
      {
        begin[writePos + i] := data[i];
        assert data[..i + 1] == data[..i] + [data[i]];
        i := i + 1;
      }
      assert data[..i] == data;
    }

    /** `operator <<`: the overloads differ only in the width of the value's memory image. */
    method PutScalar(image: seq<bv8>)
      requires Valid()
      modifies this`writePos, this`DataSize, begin
      ensures Valid() && View() == Appended(old(View()), image)
    {
      if CAPACITY - writePos >= |image| {
        Store(image);
        writePos, DataSize := writePos + |image|, DataSize + |image|;
      }
    }

    method PutData(data: seq<bv8>) returns (put: int)
      requires Valid()
      modifies this`writePos, this`DataSize, begin
      ensures Valid() && View() == Appended(old(View()), data)
      ensures put == if CAPACITY - old(writePos) < |data| then -1 else |data|
    {
      if |data| <= 0 { return 0; }
      if CAPACITY - writePos < |data| { return -1; }
      Store(data);
      writePos, DataSize := writePos + |data|, DataSize + |data|;
      return |data|;
    }

    /** `operator >>`: without enough data the variable keeps the value it had. */
    method GetScalar(width: nat, kept: seq<bv8>) returns (image: seq<bv8>)
      requires Valid() && width > 0
      modifies this`readPos, this`DataSize
      ensures Valid() && View() == ReadMoved(old(View()), width).0
      ensures image == if |old(Contents(View()))| >= width then old(Contents(View()))[..width] else kept
    {
      ghost var contents := Contents(View());
      assert contents == begin[readPos..writePos];
      if writePos - readPos >= width {
        image := begin[readPos..readPos + width];
        assert image == contents[..width];
        readPos, DataSize := readPos + width, DataSize - width;
      } else {
        image := kept;
      }
    }

    method GetData(n: int) returns (got: int, data: seq<bv8>)
      requires Valid()
      modifies this`readPos, this`DataSize
      ensures Valid() && (View(), got) == ReadMoved(old(View()), n)
      ensures data == if got > 0 then old(Contents(View()))[..got] else []
    {
      if n <= 0 { return 0, []; }
      if writePos - readPos < n { return -1, []; }
      data := begin[readPos..readPos + n];
      assert data == Contents(View())[..n];
      readPos, DataSize := readPos + n, DataSize - n;
      got := n;
    }

    /** The checksum loop over the first `n` payload bytes. */
    method PayloadSum(n: nat) returns (sum: nat)
      requires HEADER_SIZE + n <= begin.Length
      ensures sum == Sum(begin[HEADER_SIZE..HEADER_SIZE + n])
    {
      hide Value;
      ghost var payload := begin[HEADER_SIZE..HEADER_SIZE + n];
      sum := 0;
      var i := 0;
      while i < n
        invariant 0 <= i <= n && sum == Sum(payload[..i])
      {
        assert payload[..i + 1][..i] == payload[..i];
        sum := sum + Value(begin[HEADER_SIZE + i]);
        i := i + 1;
      }
      assert payload[..i] == payload;
    }

    /** Encode's second loop: from the checksum on, in place. */
    method EncodeChain(n: nat, key: bv8)
      requires 4 + n <= begin.Length
      modifies begin
      ensures begin[..] == old(begin[..4]) + EncodeFrom(old(begin[4..4 + n]), key, 0, 0, 0) + old(begin[4 + n..])
    {
      hide Mix, KeyAt, EncodeFrom;
      ghost var plain := begin[4..4 + n];
      ghost var goal := EncodeFrom(plain, key, 0, 0, 0);
      var lastE: bv8, lastP: bv8 := 0, 0;
      var i := 0;
      assert plain[0..] == plain && goal[0..] == goal;
      while i < n
        invariant 0 <= i <= n
        invariant forall j | 0 <= j < begin.Length && (j < 4 || j >= 4 + n) :: begin[j] == old(begin[j])
        invariant forall j | 0 <= j < i :: begin[4 + j] == goal[j]
        invariant forall j | i <= j < n :: begin[4 + j] == plain[j]
        invariant goal[i..] == EncodeFrom(plain[i..], key, i, lastP, lastE)
      {
        EncodeTurn(plain, goal, key, i, lastP, lastE);
        lastP := Mix(begin[4 + i], lastP, KeyAt(key, i));
        begin[4 + i] := Mix(lastP, lastE, KeyAt(NETWORK_KEY, i));
        lastE := begin[4 + i];
        i := i + 1;
      }
      assert begin[..4] == old(begin[..4]) && begin[4..4 + n] == goal && begin[4 + n..] == old(begin[4 + n..]);
    }

    /** Decode's first loop. */
    method DecodeChain(n: nat, key: bv8)
      requires 4 + n <= begin.Length
      modifies begin
      ensures begin[..] == old(begin[..4]) + DecodeFrom(old(begin[4..4 + n]), key, 0, 0, 0) + old(begin[4 + n..])
    {
      hide Mix, KeyAt, DecodeFrom;
      ghost var cipher := begin[4..4 + n];
      ghost var goal := DecodeFrom(cipher, key, 0, 0, 0);
      var lastE: bv8, lastP: bv8 := 0, 0;
      var i := 0;
      assert cipher[0..] == cipher && goal[0..] == goal;
      while i < n
        invariant 0 <= i <= n
        invariant forall j | 0 <= j < begin.Length && (j < 4 || j >= 4 + n) :: begin[j] == old(begin[j])
        invariant forall j | 0 <= j < i :: begin[4 + j] == goal[j]
        invariant forall j | i <= j < n :: begin[4 + j] == cipher[j]
        invariant goal[i..] == DecodeFrom(cipher[i..], key, i, lastP, lastE)
      {
        DecodeTurn(cipher, goal, key, i, lastP, lastE);
        var nowP := Mix(begin[4 + i], lastE, KeyAt(NETWORK_KEY, i));
        lastE := begin[4 + i];
        begin[4 + i] := Mix(nowP, lastP, KeyAt(key, i));
        lastP := nowP;
        i := i + 1;
      }
      assert begin[..4] == old(begin[..4]) && begin[4..4 + n] == goal && begin[4 + n..] == old(begin[4 + n..]);
    }

    /** Encode up to its second loop: header and plain checksum. */
    method PutHeader(randkey: bv8)
      requires Valid() && DataSize > HEADER_SIZE
      modifies begin
      ensures var payload := old(begin[HEADER_SIZE..DataSize]);
              begin[..] == [NETWORK_CODE, LowByte(|payload|), HighByte(|payload|), randkey, Checksum(payload)]
                           + payload + old(begin[DataSize..])
    {
      hide ToByte, Sum, LowByte, HighByte, Value;
      var len := writePos - readPos - HEADER_SIZE;
      begin[0], begin[1], begin[2], begin[3] := NETWORK_CODE, LowByte(len), HighByte(len), randkey;
      var sum := PayloadSum(DataSize - HEADER_SIZE);
      assert begin[HEADER_SIZE..DataSize] == old(begin[HEADER_SIZE..DataSize]);
      begin[4] := ToByte(sum);
      ghost var payload := old(begin[HEADER_SIZE..DataSize]);
      assert begin[..HEADER_SIZE] == [NETWORK_CODE, LowByte(len), HighByte(len), randkey, Checksum(payload)];
      assert begin[HEADER_SIZE..DataSize] == payload && begin[DataSize..] == old(begin[DataSize..]);
      assert begin[..] == begin[..HEADER_SIZE] + begin[HEADER_SIZE..DataSize] + begin[DataSize..];
    }

    /** `randkey` is the generator's draw. */
    method Encode(randkey: bv8) returns (ok: bool)
      requires Valid()
      modifies this`encodeFlag, begin
      ensures Valid() && (View(), ok) == Encoded(old(View()), randkey)
      ensures encodeFlag == (ok || old(encodeFlag))
    {
      hide EncodeFrom, Checksum, LowByte, HighByte;
      if DataSize <= HEADER_SIZE { return false; }
      ghost var payload := begin[HEADER_SIZE..DataSize];
      PutHeader(randkey);
      assert begin[..4] == [NETWORK_CODE, LowByte(|payload|), HighByte(|payload|), randkey];
      assert begin[4..DataSize] == [Checksum(payload)] + payload;
      assert begin[DataSize..] == old(begin[DataSize..]);
      EncodeChain(DataSize - HEADER_SIZE + 1, randkey);
      encodeFlag := true;
      return true;
    }

    /** `fault`: the length field, which is trusted, takes the loop past the end of the buffer.
        What follows in the program is undefined; here nothing does. */
    method Decode() returns (ok: bool, fault: bool)
      requires Valid()
      modifies begin
      ensures fault == (DataSize > HEADER_SIZE && FrameEnd(old(View())) > BUFFER_DEFAULT)
      ensures Valid() && (fault ==> View() == old(View()))
      ensures !fault ==> (View(), ok) == Decoded(old(View()))
    {
      hide DecodeFrom, ToByte, Sum, Value;
      ok, fault := false, false;
      if DataSize <= HEADER_SIZE { return; }
      assert FrameEnd(View()) == HEADER_SIZE + (Value(begin[1]) + 0x100 * Value(begin[2]));
      if HEADER_SIZE + Value(begin[1]) + 0x100 * Value(begin[2]) > BUFFER_DEFAULT { return false, true; }
      var randkey, len := begin[3], Value(begin[1]) + 0x100 * Value(begin[2]);
      ghost var frame := begin[..HEADER_SIZE + len];
      assert frame[4..] == begin[4..HEADER_SIZE + len] && frame[..4] == begin[..4];
      DecodeChain(len + 1, randkey);
      assert begin[..HEADER_SIZE + len] == DecodedFrame(frame);
      var sum := PayloadSum(len);
      assert begin[HEADER_SIZE..HEADER_SIZE + len] == DecodedFrame(frame)[HEADER_SIZE..];
      ok := ToByte(sum) == begin[4];
    }
  }
}
