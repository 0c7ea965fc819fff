/** The receive loop of WorkerThread: frames are cut out of the session's byte queue as they
    become complete, decoded and delivered. */
module Framing {
  import opened Bytes
  import opened PacketCodec
  import opened Packet

  /** What the ring buffer of a session can hold. */
  const QUEUE_CAPACITY: nat := 80000
  const DWORD_LIMIT: nat := 0x1_0000_0000

  // ---------- One turn of the loop ----------

  predicate Headed(queue: seq<bv8>) {
    |queue| >= HEADER_SIZE && queue[0] == NETWORK_CODE && LengthField(queue) <= BUFFER_DEFAULT
  }

  /** A complete frame is at the front of the queue. */
  predicate HasFrame(queue: seq<bv8>) { Headed(queue) && HEADER_SIZE + LengthField(queue) <= |queue| }

  function FrameSize(queue: seq<bv8>): nat
    requires HasFrame(queue)
  {
    HEADER_SIZE + LengthField(queue)
  }

  /** A frame a packet can hold and Decode accepts. */
  predicate Good(frame: seq<bv8>) {
    HasFrame(frame) && |frame| == FrameSize(frame) && HEADER_SIZE < |frame| <= CAPACITY && Accepts(frame)
  }

  /** What OnRecv is handed for a good frame. */
  function Payload(frame: seq<bv8>): seq<bv8>
    requires |frame| >= HEADER_SIZE
  {
    DecodedFrame(frame)[HEADER_SIZE..]
  }

  /** `leftByte -= n` on a DWORD */
  function Minus(left: nat, n: nat): (r: nat)
    requires left < DWORD_LIMIT
    ensures r < DWORD_LIMIT
  {
    (left - n) % DWORD_LIMIT
  }

  datatype Outcome = Outcome(queue: seq<bv8>, frames: seq<seq<bv8>>, disconnected: bool)

  /** The loop from a given queue and leftByte.  With fewer than five bytes queued Peek copies
      nothing, so the code compared is `stale`, whatever lay in the header variable, and the
      length is 0. */
  function Drain(queue: seq<bv8>, left: nat, stale: bv8): Outcome
    requires left < DWORD_LIMIT
    decreases |queue|
  {
    if left == 0 then Outcome(queue, [], false)
    else if |queue| < HEADER_SIZE then Outcome(queue, [], stale != NETWORK_CODE)
    else if !Headed(queue) then Outcome(queue, [], true)
    else if !HasFrame(queue) then Outcome(queue, [], false)
    else
      var n := FrameSize(queue);
      if !Good(queue[..n]) then Outcome(queue[n..], [], true)
      else
        var o := Drain(queue[n..], Minus(left, n), stale);
        o.(frames := [queue[..n]] + o.frames)
  }

  function Flatten(frames: seq<seq<bv8>>): seq<bv8> {
    if frames == [] then [] else frames[0] + Flatten(frames[1..])
  }

  predicate AllGood(frames: seq<seq<bv8>>) { forall i | 0 <= i < |frames| :: Good(frames[i]) }

  function Payloads(frames: seq<seq<bv8>>): seq<seq<bv8>>
    requires AllGood(frames)
  {
    if frames == [] then [] else [Payload(frames[0])] + Payloads(frames[1..])
  }

  lemma {:induction false} OneMorePayload(frames: seq<seq<bv8>>, frame: seq<bv8>)
    requires AllGood(frames) && Good(frame)
    ensures AllGood(frames + [frame]) && Payloads(frames + [frame]) == Payloads(frames) + [Payload(frame)]
  {
    hide Good, Payload;
    PayloadsJoin(frames, [frame]);
  }

  lemma {:induction false} FlattenJoins(a: seq<seq<bv8>>, b: seq<seq<bv8>>)
    ensures Flatten(a + b) == Flatten(a) + Flatten(b)
  {
    if a == [] {
      assert a + b == b;
    } else {
      assert (a + b)[1..] == a[1..] + b;
      FlattenJoins(a[1..], b);
    }
  }

  /** The header variable after Peek. */
  function PeekedCode(queue: seq<bv8>, stale: bv8): bv8 { if |queue| >= HEADER_SIZE then queue[0] else stale }
  function PeekedLength(queue: seq<bv8>): nat { if |queue| >= HEADER_SIZE then LengthField(queue) else 0 }

  /** The ways one turn of the loop can end it. */
  lemma DrainEnds(queue: seq<bv8>, left: nat, stale: bv8)
    requires left < DWORD_LIMIT
    ensures var code, n := PeekedCode(queue, stale), PeekedLength(queue) + HEADER_SIZE;
            var o := Drain(queue, left, stale);
            if left == 0 then o == Outcome(queue, [], false)
            else if code != NETWORK_CODE || PeekedLength(queue) > BUFFER_DEFAULT then o == Outcome(queue, [], true)
            else if n > |queue| then o == Outcome(queue, [], false)
            else HasFrame(queue) && FrameSize(queue) == n && (!Good(queue[..n]) ==> o == Outcome(queue[n..], [], true))
  {
    hide Good, LengthField;
  }

  lemma DrainTurn(queue: seq<bv8>, left: nat, stale: bv8, taken: seq<seq<bv8>>)
    requires 0 < left < DWORD_LIMIT && HasFrame(queue) && Good(queue[..FrameSize(queue)])
    ensures var n := FrameSize(queue);
            var o, rest := Drain(queue, left, stale), Drain(queue[n..], Minus(left, n), stale);
            o.(frames := taken + o.frames) == rest.(frames := taken + [queue[..n]] + rest.frames)
  {
    hide Good, Value;
    var n := FrameSize(queue);
    var rest := Drain(queue[n..], Minus(left, n), stale);
    assert taken + ([queue[..n]] + rest.frames) == taken + [queue[..n]] + rest.frames;
  }

  /** Nothing is lost or reordered: the frames taken and what stays queued make up the queue. */
  lemma {:induction false} DrainConserves(queue: seq<bv8>, left: nat, stale: bv8)
    requires left < DWORD_LIMIT
    ensures var o := Drain(queue, left, stale);
            AllGood(o.frames) && Flatten(o.frames) <= queue && |o.queue| <= |queue|
            && (!o.disconnected ==> Flatten(o.frames) + o.queue == queue)
    decreases |queue|
  {
    hide Good, LengthField, Drain, AllGood, Headed, FrameSize;
    NoGood();
    DrainEnds(queue, left, stale);
    var n := PeekedLength(queue) + HEADER_SIZE;
    if left != 0 && HasFrame(queue) && n == FrameSize(queue) && n <= |queue| && Good(queue[..n]) {
      var o, rest := Drain(queue, left, stale), Drain(queue[n..], Minus(left, n), stale);
      DrainConserves(queue[n..], Minus(left, n), stale);
      DrainTurn(queue, left, stale, []);
      assert o.frames == [] + o.frames == [queue[..n]] + rest.frames;
      GoodFirst(queue[..n], rest.frames);
      assert queue == queue[..n] + queue[n..];
    }
  }

  lemma NoGood()
    ensures AllGood([])
  {
  }

  lemma GoodFirst(frame: seq<bv8>, frames: seq<seq<bv8>>)
    requires Good(frame) && AllGood(frames)
    ensures AllGood([frame] + frames) && Flatten([frame] + frames) == frame + Flatten(frames)
  {
    hide Good;
    assert ([frame] + frames)[1..] == frames;
  }

  /** When the loop stops without disconnecting, either no complete frame is left or exactly
      as many bytes were taken as the completion brought. */
  lemma {:induction false} DrainStops(queue: seq<bv8>, left: nat, stale: bv8, taken: nat, transferred: nat)
    requires transferred < DWORD_LIMIT && left == Minus(transferred, taken) && taken + |queue| < DWORD_LIMIT
    ensures var o := Drain(queue, left, stale);
            !o.disconnected ==> !HasFrame(o.queue) || taken + |queue| - |o.queue| == transferred
    decreases |queue|
  {
    hide Good, Headed, LengthField;
    if left != 0 && |queue| >= HEADER_SIZE && HasFrame(queue) {
      var n := FrameSize(queue);
      if Good(queue[..n]) {
        DrainStops(queue[n..], Minus(left, n), stale, taken + n, transferred);
      }
    }
  }

  // ---------- Streams ----------

  lemma FrontFrame(frame: seq<bv8>, rest: seq<bv8>)
    requires Good(frame)
    ensures HasFrame(frame + rest) && FrameSize(frame + rest) == |frame|
    ensures (frame + rest)[..|frame|] == frame && (frame + rest)[|frame|..] == rest
  {
    hide Accepts, Value;
    assert (frame + rest)[1] == frame[1] && (frame + rest)[2] == frame[2];
  }

  /** Frames are self-delimiting: good frames that make up a beginning of a stream of good
      frames are the first frames of that stream, in order. */
  lemma {:induction false} FramesAreUnique(taken: seq<seq<bv8>>, stream: seq<seq<bv8>>)
    requires AllGood(taken) && AllGood(stream) && Flatten(taken) <= Flatten(stream)
    ensures taken <= stream
    decreases |taken|
  {
    hide Good;
    if taken != [] {
      var frame, rest := taken[0], Flatten(taken[1..]);
      NotEmpty(frame);
      assert stream != [];
      var frame', rest' := stream[0], Flatten(stream[1..]);
      SameFront(frame, rest, frame', rest');
      FramesAreUnique(taken[1..], stream[1..]);
    }
  }

  lemma NotEmpty(frame: seq<bv8>)
    requires Good(frame)
    ensures |frame| > HEADER_SIZE
  {
  }

  lemma SameFront(frame: seq<bv8>, rest: seq<bv8>, frame': seq<bv8>, rest': seq<bv8>)
    requires Good(frame) && Good(frame') && frame + rest <= frame' + rest'
    ensures frame == frame' && rest <= rest'
  {
    hide Good;
    var whole, whole' := frame + rest, frame' + rest';
    FrontFrame(frame, rest);
    FrontFrame(frame', rest');
    SameSize(whole, whole');
    assert whole[..|frame|] == whole'[..|frame|];
    assert rest == whole'[|frame|..|whole|] == rest'[..|rest|];
  }

  lemma SameSize(a: seq<bv8>, b: seq<bv8>)
    requires HasFrame(a) && HasFrame(b) && a <= b
    ensures FrameSize(a) == FrameSize(b)
  {
    hide Value;
    assert a[1] == b[1] && a[2] == b[2];
  }

  lemma SameHeader(a: seq<bv8>, b: seq<bv8>)
    requires HasFrame(b) && a <= b && |a| >= HEADER_SIZE
    ensures Headed(a)
  {
    hide Value;
    assert a[0] == b[0] && a[1] == b[1] && a[2] == b[2];
  }

  // ---------- Where the loop stops, exactly ----------

  /** A piece of a frame that a stream of good frames can end in. */
  predicate Unfinished(rest: seq<bv8>) { !HasFrame(rest) && (|rest| >= HEADER_SIZE ==> Headed(rest)) }

  /** leftByte comes to 0 before or at the end of `frames`. */
  predicate UsedUp(frames: seq<seq<bv8>>, left: nat)
    requires left < DWORD_LIMIT
  {
    left == 0 || (frames != [] && UsedUp(frames[1..], Minus(left, |frames[0]|)))
  }

  /** leftByte comes to 0 with frames still to come. */
  predicate UsedUpEarly(frames: seq<seq<bv8>>, left: nat)
    requires left < DWORD_LIMIT
  {
    frames != [] && (left == 0 || UsedUpEarly(frames[1..], Minus(left, |frames[0]|)))
  }

  /** How many of the frames the loop takes. */
  function Taken(frames: seq<seq<bv8>>, left: nat): (n: nat)
    requires left < DWORD_LIMIT
    ensures n <= |frames|
  {
    if frames == [] || left == 0 then 0 else 1 + Taken(frames[1..], Minus(left, |frames[0]|))
  }

  lemma NothingFurther(rest: seq<bv8>, left: nat, stale: bv8)
    requires left < DWORD_LIMIT && Unfinished(rest)
    ensures Drain(rest, left, stale) == Outcome(rest, [], left != 0 && |rest| < HEADER_SIZE && stale != NETWORK_CODE)
  {
    hide Good, Headed, LengthField;
  }

  /** What the loop does on any queue of good frames and an unfinished rest: the frames it
      takes, when it leaves a complete frame behind, and when it disconnects. */
  lemma {:induction false} DrainDecided(frames: seq<seq<bv8>>, rest: seq<bv8>, left: nat, stale: bv8)
    requires left < DWORD_LIMIT && AllGood(frames) && Unfinished(rest)
    ensures var o, n := Drain(Flatten(frames) + rest, left, stale), Taken(frames, left);
            && o.frames == frames[..n] && o.queue == Flatten(frames[n..]) + rest
            && (HasFrame(o.queue) <==> UsedUpEarly(frames, left))
            && (o.disconnected <==> stale != NETWORK_CODE && |rest| < HEADER_SIZE && !UsedUp(frames, left))
    decreases |frames|
  {
    hide Good, HasFrame, Unfinished, Drain, Minus;
    if frames == [] {
      assert Flatten(frames) + rest == rest;
      assert !HasFrame(rest) by { NotComplete(rest); }
      NothingFurther(rest, left, stale);
    } else {
      var f, more := frames[0], Flatten(frames[1..]) + rest;
      assert Flatten(frames) + rest == f + more;
      DrainFrame(f, more, left, stale);
      if left != 0 {
        var left' := Minus(left, |f|);
        DrainDecided(frames[1..], rest, left', stale);
        var n := Taken(frames[1..], left');
        assert frames[..n + 1] == [f] + frames[1..][..n] && frames[n + 1..] == frames[1..][n..];
      } else {
        assert frames[..0] == [] && frames[0..] == frames;
      }
    }
  }

  /** A good frame at the front of the queue is there to be taken, and is unless leftByte is 0. */
  lemma DrainFrame(frame: seq<bv8>, more: seq<bv8>, left: nat, stale: bv8)
    requires Good(frame) && left < DWORD_LIMIT
    ensures HasFrame(frame + more)
    ensures Drain(frame + more, left, stale) ==
            if left == 0 then Outcome(frame + more, [], false)
            else var o := Drain(more, Minus(left, |frame|), stale); o.(frames := [frame] + o.frames)
  {
    hide Good, Headed, LengthField;
    FrontFrame(frame, more);
    assert HasFrame(frame + more) ==> Headed(frame + more) && |frame + more| >= HEADER_SIZE
           by { HeadedIfFramed(frame + more); }
  }

  lemma HeadedIfFramed(queue: seq<bv8>)
    ensures HasFrame(queue) ==> Headed(queue) && |queue| >= HEADER_SIZE
  {
  }

  lemma NotComplete(rest: seq<bv8>)
    requires Unfinished(rest)
    ensures !HasFrame(rest)
  {
  }

  /** leftByte counts modulo 2 to the 32: it comes to 0 behind the first `n` frames when their
      size does. */
  ghost predicate EndsAt(frames: seq<seq<bv8>>, left: nat, n: nat)
    requires n <= |frames|
  {
    |Flatten(frames[..n])| % DWORD_LIMIT == left
  }

  lemma EndsAtShifts(frames: seq<seq<bv8>>, left: nat, n: nat)
    requires left < DWORD_LIMIT && n < |frames|
    ensures EndsAt(frames, left, n + 1) <==> EndsAt(frames[1..], Minus(left, |frames[0]|), n)
  {
    assert frames[..n + 1][1..] == frames[1..][..n];
    MinusIsModular(left, |frames[0]|, |Flatten(frames[1..][..n])|);
  }

  lemma {:induction false} UsedUpIsASplit(frames: seq<seq<bv8>>, left: nat)
    requires left < DWORD_LIMIT
    ensures UsedUp(frames, left) <==> exists n | 0 <= n <= |frames| :: EndsAt(frames, left, n)
    ensures UsedUpEarly(frames, left) <==> exists n | 0 <= n < |frames| :: EndsAt(frames, left, n)
  {
    assert EndsAt(frames, left, 0) <==> left == 0 by { assert |Flatten(frames[..0])| == 0; }
    if frames != [] {
      hide EndsAt, Minus;
      var left' := Minus(left, |frames[0]|);
      UsedUpIsASplit(frames[1..], left');
      forall n | 1 <= n <= |frames| ensures EndsAt(frames, left, n) <==> EndsAt(frames[1..], left', n - 1) {
        EndsAtShifts(frames, left, n - 1);
      }
      assert forall n | 0 <= n < |frames| && EndsAt(frames[1..], left', n) :: EndsAt(frames, left, n + 1);
    }
  }

  lemma MinusIsModular(left: nat, n: nat, m: nat)
    requires left < DWORD_LIMIT
    ensures (n + m) % DWORD_LIMIT == left <==> m % DWORD_LIMIT == Minus(left, n)
  {
  }

  /** How the bytes carried over from earlier completions fall: frames from the `n`th on,
      and the unfinished rest, take up as many bytes as were carried over. */
  ghost predicate CarriedSize(carried: nat, frames: seq<seq<bv8>>, rest: seq<bv8>, n: nat)
    requires n <= |frames|
  {
    |Flatten(frames[n..])| + |rest| == carried
  }

  lemma SplitByCarry(carried: seq<bv8>, chunk: seq<bv8>, frames: seq<seq<bv8>>, rest: seq<bv8>, n: nat)
    requires carried + chunk == Flatten(frames) + rest && |carried| + |chunk| < DWORD_LIMIT && n <= |frames|
    ensures EndsAt(frames, |chunk|, n) <==> CarriedSize(|carried|, frames, rest, n)
  {
    FlattenJoins(frames[..n], frames[n..]);
    assert frames[..n] + frames[n..] == frames;
    SizesAddUp(carried, chunk, Flatten(frames), rest);
    hide Flatten;
    Undivided(|Flatten(frames[..n])|);
  }

  lemma SizesAddUp(a: seq<bv8>, b: seq<bv8>, c: seq<bv8>, d: seq<bv8>)
    requires a + b == c + d
    ensures |a| + |b| == |c| + |d|
  {
    assert |a + b| == |c + d|;
  }

  lemma Undivided(n: nat)
    requires n < DWORD_LIMIT
    ensures n % DWORD_LIMIT == n
  {
  }

  /** One completion brings `chunk` behind the bytes `carried` over, and the queue then holds
      any number of good frames and an unfinished rest.  A complete frame is left behind
      exactly when some of the last frames, with the rest, take up as many bytes as were
      carried over. */
  lemma LeftBehindExactly(
      carried: seq<bv8>, chunk: seq<bv8>, frames: seq<seq<bv8>>, rest: seq<bv8>, stale: bv8)
    requires AllGood(frames) && Unfinished(rest) && carried + chunk == Flatten(frames) + rest
    requires |carried| + |chunk| < DWORD_LIMIT
    ensures HasFrame(Drain(carried + chunk, |chunk|, stale).queue) <==>
            exists n | 0 <= n < |frames| :: CarriedSize(|carried|, frames, rest, n)
  {
    hide Good, HasFrame, Drain, Unfinished;
    DrainDecided(frames, rest, |chunk|, stale);
    UsedUpIsASplit(frames, |chunk|);
    forall n | 0 <= n <= |frames|
      ensures EndsAt(frames, |chunk|, n) <==> CarriedSize(|carried|, frames, rest, n)
    {
      SplitByCarry(carried, chunk, frames, rest, n);
    }
  }

  /** And the client is disconnected exactly when the rest is shorter than a header, the
      header variable happens not to hold the code, and the last frames never, none of them
      included, take up with the rest as many bytes as were carried over. */
  lemma DisconnectedExactly(
      carried: seq<bv8>, chunk: seq<bv8>, frames: seq<seq<bv8>>, rest: seq<bv8>, stale: bv8)
    requires AllGood(frames) && Unfinished(rest) && carried + chunk == Flatten(frames) + rest
    requires |carried| + |chunk| < DWORD_LIMIT
    ensures Drain(carried + chunk, |chunk|, stale).disconnected <==>
            && stale != NETWORK_CODE && |rest| < HEADER_SIZE
            && !exists n | 0 <= n <= |frames| :: CarriedSize(|carried|, frames, rest, n)
  {
    hide Good, HasFrame, Drain, Unfinished;
    DrainDecided(frames, rest, |chunk|, stale);
    UsedUpIsASplit(frames, |chunk|);
    forall n | 0 <= n <= |frames|
      ensures EndsAt(frames, |chunk|, n) <==> CarriedSize(|carried|, frames, rest, n)
    {
      SplitByCarry(carried, chunk, frames, rest, n);
    }
  }

  // ---------- Any queue at all ----------

  /** What makes the loop disconnect the client when this is what it finds at the front: less
      than a header while the header variable holds another code, a header with another code or
      a length above 2000, or a complete frame that does not decode. */
  predicate Offends(rest: seq<bv8>, stale: bv8) {
    if |rest| < 5 then stale != 0x77 else
      var length := Value(rest[1]) + 256 * Value(rest[2]);
      rest[0] != 0x77 || length > 2000 || 5 + length <= |rest|
  }

  predicate GoodInFront(queue: seq<bv8>) { HasFrame(queue) && Good(queue[..FrameSize(queue)]) }

  /** Every queue whatever is good frames and then something that does not begin with one. */
  lemma {:induction false} EveryQueueSplits(queue: seq<bv8>) returns (frames: seq<seq<bv8>>, rest: seq<bv8>)
    ensures AllGood(frames) && !GoodInFront(rest) && queue == Flatten(frames) + rest
    decreases |queue|
  {
    hide Good, LengthField;
    frames, rest := [], queue;
    if GoodInFront(queue) {
      var n := FrameSize(queue);
      frames, rest := EveryQueueSplits(queue[n..]);
      GoodFirst(queue[..n], frames);
      assert queue == queue[..n] + queue[n..];
      assert (queue[..n] + Flatten(frames)) + rest == queue[..n] + (Flatten(frames) + rest);
      frames := [queue[..n]] + frames;
    }
  }

  /** The loop in front of such a rest. */
  lemma RestDecided(rest: seq<bv8>, left: nat, stale: bv8)
    requires left < DWORD_LIMIT && !GoodInFront(rest)
    ensures var o := Drain(rest, left, stale);
            && o.frames == [] && (o.disconnected <==> left != 0 && Offends(rest, stale))
            && o.queue == if left != 0 && HasFrame(rest) then rest[FrameSize(rest)..] else rest
  {
    hide Good;
  }

  /** So for any bytes at all: the loop delivers the good frames at the front, up to where
      leftByte comes to 0, and disconnects the client exactly when that does not happen before
      the first thing that is no good frame, and that offends.  Only a complete frame that does
      not decode is itself taken out of the queue. */
  lemma {:induction false} AnyQueueDecided(frames: seq<seq<bv8>>, rest: seq<bv8>, left: nat, stale: bv8)
    requires left < DWORD_LIMIT && AllGood(frames) && !GoodInFront(rest)
    ensures var o, n := Drain(Flatten(frames) + rest, left, stale), Taken(frames, left);
            && o.frames == frames[..n]
            && (o.disconnected <==> !UsedUp(frames, left) && Offends(rest, stale))
            && o.queue == Flatten(frames[n..]) +
                          if !UsedUp(frames, left) && HasFrame(rest) then rest[FrameSize(rest)..] else rest
    decreases |frames|
  {
    hide Good, HasFrame, Drain, Minus, Offends, GoodInFront;
    if frames == [] {
      assert Flatten(frames) + rest == rest;
      RestDecided(rest, left, stale);
      assert frames[..0] == [] && Flatten(frames[0..]) == [];
    } else {
      var f, more := frames[0], Flatten(frames[1..]) + rest;
      assert Flatten(frames) + rest == f + more;
      DrainFrame(f, more, left, stale);
      if left != 0 {
        var left' := Minus(left, |f|);
        AnyQueueDecided(frames[1..], rest, left', stale);
        var n := Taken(frames[1..], left');
        assert frames[..n + 1] == [f] + frames[1..][..n] && frames[n + 1..] == frames[1..][n..];
      } else {
        assert frames[..0] == [] && frames[0..] == frames;
      }
    }
  }

  /** The queue holds the first `n` frames of the stream and then `rest`, an unfinished piece of
      the next. */
  ghost predicate FallsApart(queue: seq<bv8>, stream: seq<seq<bv8>>, n: nat, rest: seq<bv8>) {
    && n <= |stream| && AllGood(stream[..n]) && Unfinished(rest) && queue == Flatten(stream[..n]) + rest
    && (if n < |stream| then rest <= stream[n] && |rest| < |stream[n]| else rest == [])
  }

  /** Every beginning of a stream of good frames is such a queue. */
  lemma {:induction false} GoodStreamsFallApart(queue: seq<bv8>, stream: seq<seq<bv8>>)
      returns (n: nat, rest: seq<bv8>)
    requires AllGood(stream) && queue <= Flatten(stream)
    ensures FallsApart(queue, stream, n, rest)
    decreases |stream|
  {
    n, rest := 0, queue;
    if stream == [] {
      NoFrame();
    } else {
      hide FallsApart, Good;
      var frame := stream[0];
      PrefixOfJoined(queue, frame, Flatten(stream[1..]));
      if |queue| >= |frame| {
        n, rest := GoodStreamsFallApart(queue[|frame|..], stream[1..]);
        OneFrameMore(queue, stream, n, rest);
        n := n + 1;
      } else {
        PieceOfFirst(queue, stream);
      }
    }
  }

  lemma PieceOfFirst(queue: seq<bv8>, stream: seq<seq<bv8>>)
    requires stream != [] && Good(stream[0]) && queue <= stream[0] && |queue| < |stream[0]|
    ensures FallsApart(queue, stream, 0, queue)
  {
    hide Good, HasFrame, Unfinished;
    PieceIsUnfinished(queue, stream[0]);
    assert stream[..0] == [] && Flatten([]) + queue == queue;
  }

  lemma OneFrameMore(queue: seq<bv8>, stream: seq<seq<bv8>>, n: nat, rest: seq<bv8>)
    requires stream != [] && AllGood(stream) && |queue| >= |stream[0]| && queue == stream[0] + queue[|stream[0]|..]
    requires FallsApart(queue[|stream[0]|..], stream[1..], n, rest)
    ensures FallsApart(queue, stream, n + 1, rest)
  {
    hide Good, HasFrame, Unfinished, Flatten;
    FirstFrames(stream, n);
    var frames := Flatten(stream[1..][..n]);
    assert stream[0] + (frames + rest) == stream[0] + frames + rest;
  }

  lemma PrefixOfJoined(a: seq<bv8>, b: seq<bv8>, c: seq<bv8>)
    requires a <= b + c
    ensures if |a| >= |b| then a[|b|..] <= c && a == b + a[|b|..] else a <= b
  {
    assert a == (b + c)[..|a|];
  }

  lemma FirstFrames(stream: seq<seq<bv8>>, n: nat)
    requires n < |stream|
    ensures Flatten(stream[..n + 1]) == stream[0] + Flatten(stream[1..][..n])
  {
    assert stream[..n + 1][1..] == stream[1..][..n];
  }

  lemma PieceIsUnfinished(piece: seq<bv8>, frame: seq<bv8>)
    requires Good(frame) && piece <= frame && |piece| < |frame|
    ensures Unfinished(piece)
  {
    hide Accepts, LengthField;
    if |piece| >= HEADER_SIZE { SameHeader(piece, frame); }
    if HasFrame(piece) { SameSize(piece, frame); }
  }

  /** A good frame cut in two: the completion that brings its end delivers it and then peeks at
      an empty queue, so what the header variable happens to hold decides alone. */
  lemma EveryCutFrameIsAtRisk(frame: seq<bv8>, cut: nat, stale: bv8)
    requires Good(frame) && 0 < cut < |frame|
    ensures var o := Drain(frame[..cut] + frame[cut..], |frame| - cut, stale);
            o.frames == [frame] && o.queue == [] && (o.disconnected <==> stale != NETWORK_CODE)
  {
    hide Good, HasFrame, Unfinished, Drain;
    SizesAreSmall(frame);
    NoFrame();
    var frames := [frame];
    assert Flatten(frames) + [] == frame == frame[..cut] + frame[cut..];
    DrainDecided(frames, [], |frame| - cut, stale);
    NotAtOnce(frame, cut);
    assert frames[..1] == frames && frames[1..] == [];
  }

  lemma NotAtOnce(frame: seq<bv8>, cut: nat)
    requires 0 < cut < |frame| < DWORD_LIMIT
    ensures Taken([frame], |frame| - cut) == 1 && !UsedUp([frame], |frame| - cut)
    ensures !UsedUpEarly([frame], |frame| - cut)
  {
    assert Minus(|frame| - cut, |frame|) != 0;
    assert [frame][1..] == [];
  }

  lemma SizesAreSmall(frame: seq<bv8>)
    requires Good(frame)
    ensures HEADER_SIZE < |frame| <= CAPACITY
  {
  }

  /** Frames are left behind for every cut of six bytes or more that leaves room for a longer
      one: a frame cut there, then its end and a whole frame of the size of what was cut off. */
  lemma LeftBehindHappens(cut: nat, key: bv8, stale: bv8) returns (f: seq<bv8>, g: seq<bv8>)
    requires HEADER_SIZE < cut < CAPACITY
    ensures Good(f) && Good(g) && |g| == cut < |f|
    ensures HasFrame(Drain(f[..cut] + (f[cut..] + g), |f[cut..] + g|, stale).queue)
  {
    hide Good, HasFrame, Drain, Value;
    var longer, shorter := seq(cut + 1 - HEADER_SIZE, _ => 0), seq(cut - HEADER_SIZE, _ => 0);
    f, g := EncodedFrame(longer, key), EncodedFrame(shorter, key);
    EncodedIsGood(longer, key);
    EncodedIsGood(shorter, key);
    var frames := [f, g];
    assert frames[1..] == [g];
    FlattenTwo(f, g);
    assert f[..cut] + (f[cut..] + g) == f + g + [];
    assert CarriedSize(cut, frames, [], 1);
    assert Unfinished([]) by { NoFrame(); }
    LeftBehindExactly(f[..cut], f[cut..] + g, frames, [], stale);
  }

  lemma FlattenTwo(f: seq<bv8>, g: seq<bv8>)
    ensures Flatten([g]) == g && Flatten([f, g]) == f + g
  {
    assert [f, g][1..] == [g] && [g][1..] == [];
    assert Flatten([]) == [] && Flatten([g]) == g + [];
  }

  lemma NoFrame()
    ensures Unfinished([])
  {
  }

  lemma EncodedIsGood(payload: seq<bv8>, key: bv8)
    requires 1 <= |payload| <= CAPACITY - HEADER_SIZE
    ensures Good(EncodedFrame(payload, key)) && Payload(EncodedFrame(payload, key)) == payload
  {
    hide EncodedFrame, DecodedFrame, Value, Accepts;
    DecodeAfterEncode(payload, key);
  }

  // ---------- The session ----------

  lemma FrontOfQueue(queue: seq<bv8>)
    requires HasFrame(queue)
    ensures var frame := queue[..FrameSize(queue)]; HasFrame(frame) && FrameSize(frame) == |frame|
  {
    hide Value;
  }

  /** A frame in a packet: it decodes when it is good, to its payload. */
  lemma FrameInPacket(b: Buffer, frame: seq<bv8>)
    requires Ok(b) && HasFrame(frame) && FrameSize(frame) == |frame|
    ensures var r := Received(b, frame);
            && (r.size > HEADER_SIZE ==> FrameEnd(r) <= BUFFER_DEFAULT)
            && Decoded(r).1 == Good(frame)
            && (Good(frame) ==> Contents(ReadMoved(Decoded(r).0, HEADER_SIZE).0) == Payload(frame))
  {
    hide Accepts, DecodedFrame, Value;
    var r := Received(b, frame);
    if HEADER_SIZE < |frame| <= CAPACITY {
      assert r.bytes[..|frame|] == frame && r.size == r.write == |frame| && r.read == 0;
      assert r.bytes[1] == frame[1] && r.bytes[2] == frame[2];
      assert FrameEnd(r) == |frame|;
      var d := Decoded(r).0;
      assert d.bytes[..|frame|] == DecodedFrame(frame);
      assert d.bytes[HEADER_SIZE..|frame|] == d.bytes[..|frame|][HEADER_SIZE..];
    }
  }

  lemma NoPayloads(delivered: seq<seq<bv8>>)
    ensures AllGood([]) && delivered + Payloads([]) == delivered
  {
  }

  lemma {:induction false} PayloadsJoin(a: seq<seq<bv8>>, b: seq<seq<bv8>>)
    requires AllGood(a) && AllGood(b)
    ensures AllGood(a + b) && Payloads(a + b) == Payloads(a) + Payloads(b)
  {
    hide Good, Payload;
    if a == [] {
      assert a + b == b;
    } else {
      assert (a + b)[1..] == a[1..] + b;
      PayloadsJoin(a[1..], b);
    }
  }

  /** The frame's bytes go into a packet from the pool. */
  method InPacket(frame: seq<bv8>) returns (packet: CPacket, ghost was: Buffer)
    ensures fresh(packet) && fresh(packet.begin) && packet.Valid() && packet.refCount == 1
    ensures Ok(was) && packet.View() == Received(was, frame)
  {
    packet := new CPacket();
    packet.Allocate();
    packet.AddRef(1);
    packet.ClearNetwork();
    was := packet.View();
    var data := Copied(frame);
    hide Copied, WriteMoved;
    assert was == ClearedForNetwork(was);
    packet.Store(data);
    assert was.bytes[..0] + data + was.bytes[0 + |data|..] == data + was.bytes[|data|..];
    assert packet.View() == was.(bytes := data + was.bytes[|data|..]);
    var moved := packet.MoveWritePos(|frame|);
  }

  class Session {
    var recvQueue: seq<bv8>
    var delivered: seq<seq<bv8>>
    var disconnected: bool
    var recvCount: nat
    ghost var received: seq<bv8>
    ghost var frames: seq<seq<bv8>>

    /** Until it disconnects, a session has delivered the payloads of the frames at the front
        of all it received, and the rest is queued. */
    ghost predicate Valid()
      reads this
    {
      && |recvQueue| <= QUEUE_CAPACITY
      && AllGood(frames) && delivered == Payloads(frames) && recvCount == |frames|
      && Flatten(frames) <= received
      && (!disconnected ==> Flatten(frames) + recvQueue == received)
    }

    constructor ()
      ensures Valid() && !disconnected && received == [] && frames == []
    {
      recvQueue, delivered, disconnected, recvCount, received, frames := [], [], false, 0, [], [];
    }

    /** Take one complete frame off the queue, into a packet, and try to decode it. */
    method TakeFrame(n: nat) returns (ok: bool, payload: seq<bv8>)
      requires HasFrame(recvQueue) && n == FrameSize(recvQueue)
      modifies this`recvQueue
      ensures recvQueue == old(recvQueue)[n..]
      ensures ok == Good(old(recvQueue)[..n])
      ensures ok ==> payload == Payload(old(recvQueue)[..n])
    {
      hide Good, Payload, Decoded, ReadMoved, FrameEnd, LengthField;
      var frame := recvQueue[..n];
      FrontOfQueue(recvQueue);
      recvQueue := recvQueue[n..];
      var packet, empty := InPacket(frame);
      FrameInPacket(empty, frame);
      var fault;
      ok, fault := packet.Decode();
      assert !fault;
      if ok {
        var skipped := packet.MoveReadPos(HEADER_SIZE);
        payload := packet.begin[packet.readPos..packet.writePos];
      } else {
        payload := [];
      }
    }

    /** The loop. */
    method DrainQueue(transferred: nat, stale: bv8)
      requires !disconnected && transferred < DWORD_LIMIT
      modifies this`recvQueue, this`delivered, this`disconnected, this`recvCount
      ensures var o := Drain(old(recvQueue), transferred, stale);
              && recvQueue == o.queue && disconnected == o.disconnected && recvCount == old(recvCount) + |o.frames|
              && AllGood(o.frames) && delivered == old(delivered) + Payloads(o.frames)
    {
      hide Good, Payload, Drain, HasFrame, FrameSize, Payloads, LengthField, AllGood;
      ghost var whole := Drain(recvQueue, transferred, stale);
      var leftByte: int := transferred;
      ghost var taken: seq<seq<bv8>> := [];
      assert taken + whole.frames == whole.frames;
      NoPayloads(delivered);
      while true
        invariant 0 <= leftByte < DWORD_LIMIT && !disconnected
        invariant var o := Drain(recvQueue, leftByte, stale); whole == o.(frames := taken + o.frames)
        invariant AllGood(taken) && delivered == old(delivered) + Payloads(taken)
        invariant recvCount == old(recvCount) + |taken|
        decreases |recvQueue|
      {
        DrainEnds(recvQueue, leftByte, stale);
        if leftByte == 0 { break; }
        var code, len := stale, 0;
        if |recvQueue| >= HEADER_SIZE {
          code, len := recvQueue[0], LengthField(recvQueue);
        }
        if code != NETWORK_CODE || len > BUFFER_DEFAULT {
          disconnected := true;
          break;
        }
        if len + HEADER_SIZE > |recvQueue| { break; }
        ghost var frame, queue := recvQueue[..len + HEADER_SIZE], recvQueue;
        var ok, payload := TakeFrame(len + HEADER_SIZE);
        if !ok {
          disconnected := true;
          break;
        }
        DrainTurn(queue, leftByte, stale, taken);
        OneMorePayload(taken, frame);
        delivered := delivered + [payload];
        leftByte := (leftByte - (len + HEADER_SIZE)) % DWORD_LIMIT;
        recvCount := recvCount + 1;
        taken := taken + [frame];
      }
      assert taken + [] == taken;
    }

    /** One receive completion: `chunk` has been written behind the queue, `stale` is what the
        uninitialised header variable holds when Peek copies nothing. */
    method OnReceived(chunk: seq<bv8>, stale: bv8)
      requires Valid() && !disconnected && chunk != [] && |recvQueue| + |chunk| <= QUEUE_CAPACITY
      modifies this
      ensures Valid() && received == old(received) + chunk
      ensures var o := Drain(old(recvQueue) + chunk, |chunk|, stale);
              recvQueue == o.queue && frames == old(frames) + o.frames && disconnected == o.disconnected
      ensures !disconnected ==> !HasFrame(recvQueue) || |recvQueue| == |old(recvQueue)|
    {
      hide Good, Payload, HasFrame, Drain, Flatten, Payloads;
      recvQueue := recvQueue + chunk;
      ghost var o := Drain(recvQueue, |chunk|, stale);
      DrainConserves(recvQueue, |chunk|, stale);
      DrainStops(recvQueue, |chunk|, stale, 0, |chunk|);
      DrainQueue(|chunk|, stale);
      FlattenJoins(frames, o.frames);
      PayloadsJoin(frames, o.frames);
      var was, now := Flatten(frames), Flatten(o.frames);
      assert !o.disconnected ==> was + (now + o.queue) == was + now + o.queue;
      assert received + chunk == Flatten(frames) + (old(recvQueue) + chunk);
      received := received + chunk;
      frames := frames + o.frames;
    }
  }

  /** Whatever way a stream of good frames is cut into completions, a session has delivered
      the payloads of the stream's first frames, in order; and as long as it has not
      disconnected, what it has not delivered of what it received is queued. */
  lemma DeliveredInOrder(session: Session, stream: seq<seq<bv8>>)
    requires session.Valid() && AllGood(stream) && session.received <= Flatten(stream)
    ensures session.frames <= stream && session.delivered == Payloads(stream[..|session.frames|])
    ensures !session.disconnected ==>
              Flatten(stream[..|session.frames|]) + session.recvQueue == session.received
  {
    hide Good, Payload, Payloads;
    FramesAreUnique(session.frames, stream);
    assert stream[..|session.frames|] == session.frames;
  }
}
