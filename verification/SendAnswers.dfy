/** What a session's disconnectStep does, and what a send, a completion and a failed send come to
    when left alone. */
module SendAnswers {
  import opened SendPath
  import opened SendLimits

  // ---------- disconnectStep ----------

  function ActorPc(s: State, a: Action): Pc {
    if a.Step? && a.thread < |s.threads| then s.threads[a.thread] else Idle
  }

  /** The stage moves exactly so: from Normal when a last packet is queued; from there when the
      next batch is posted; and to Disconnect by a disconnect, a send that failed at once, or
      the completion of a batch so marked. */
  lemma StageMovesExactly(s: State, a: Action)
    requires Enabled(s, a)
    ensures After(s, a).stage ==
            if a.SetDisconnect? || ActorPc(s, a).FailDisconnect? then Disconnect
            else if a.MarkLast? && s.stage == Normal then SendPacketLast
            else if ActorPc(s, a).Marking? && s.stage == SendPacketLast then SendPostLast
            else if ActorPc(s, a).Done? && s.stage == SendPostLast then Disconnect
            else s.stage
  {
    hide NextPc;
  }

  /** The post of a batch fails at once. */
  predicate FailsToPost(s: State, a: Action) { ActorPc(s, a).Posting? && a.Step? && !a.yes }

  predicate AfterFailure(pc: Pc) { pc.FailDrop? || pc.FailDisconnect? }

  lemma OthersStay(s: State, t: nat, yes: bool, u: nat)
    requires Enabled(s, Step(t, yes)) && u < |s.threads| && u != t
    ensures AfterStep(s, t, yes).threads[u] == s.threads[u]
  {
    hide NextPc, Effect;
  }

  lemma FailureStartsHere(s: State, t: nat, yes: bool)
    requires Enabled(s, Step(t, yes)) && !AfterFailure(s.threads[t]) && (s.threads[t].Posting? ==> yes)
    ensures !AfterFailure(AfterStep(s, t, yes).threads[t])
  {
    hide Effect;
  }

  lemma FailureStarts(s: State, a: Action, t: nat)
    requires Enabled(s, a) && t < |s.threads| && !AfterFailure(s.threads[t]) && !FailsToPost(s, a)
    ensures !AfterFailure(After(s, a).threads[t])
  {
    hide AfterStep;
    if a.Step? && a.thread == t {
      FailureStartsHere(s, t, a.yes);
    } else if a.Step? {
      OthersStay(s, a.thread, a.yes, t);
    }
  }

  /** As long as no last packet is queued, nobody disconnects the session and no post fails, it is
      in its normal stage: no completion disconnects it. */
  lemma {:induction false} StaysNormal(r: Run, i: nat)
    requires Valid(r) && i < |r.states|
    requires forall j | 0 <= j < i ::
               !r.actions[j].MarkLast? && !r.actions[j].SetDisconnect? && !FailsToPost(r.states[j], r.actions[j])
    ensures r.states[i].stage == Normal
    ensures forall t | 0 <= t < |r.states[i].threads| :: !AfterFailure(r.states[i].threads[t])
  {
    if i > 0 {
      StaysNormal(r, i - 1);
      assert StepOf(r, i - 1);
      var s, a := r.states[i - 1], r.actions[i - 1];
      hide After, Enabled;
      StageMovesExactly(s, a);
      forall t | 0 <= t < |r.states[i].threads| ensures !AfterFailure(r.states[i].threads[t]) {
        FailureStarts(s, a, t);
      }
    }
  }

  /** A session on its way to disconnecting after a last send had a last packet queued before. */
  lemma {:induction false} LastMeansMarked(r: Run, i: nat) returns (j: nat)
    requires Valid(r) && i < |r.states|
    requires r.states[i].stage == SendPacketLast || r.states[i].stage == SendPostLast
    ensures j < i && r.actions[j].MarkLast? && r.states[j].stage == Normal
    ensures forall x | j < x <= i :: r.states[x].stage == SendPacketLast || r.states[x].stage == SendPostLast
  {
    hide After, Enabled;
    assert r.states[0].stage == Normal;
    assert StepOf(r, i - 1);
    StageMovesExactly(r.states[i - 1], r.actions[i - 1]);
    if r.states[i - 1].stage == Normal {
      j := i - 1;
    } else {
      j := LastMeansMarked(r, i - 1);
    }
  }

  // ---------- Left alone ----------

  /** The thread's next step looks at the queue. */
  predicate Looks(pc: Pc) { pc.CheckQueue? || pc.Filling? || pc.DoneCheck? }

  /** The thread's next step when Dequeue succeeds as long as there is a packet, and WSASend does. */
  function Going(s: State, t: nat): State {
    var yes := t < |s.threads| && (Looks(s.threads[t]) ==> s.queue != []);
    if Enabled(s, Step(t, yes)) then AfterStep(s, t, yes) else s
  }

  function Alone(s: State, t: nat, n: nat): State
    decreases n
  {
    if n == 0 then s else Alone(Going(s, t), t, n - 1)
  }

  lemma One(s: State, t: nat, n: nat)
    requires n > 0
    ensures Alone(s, t, n) == Alone(Going(s, t), t, n - 1)
  {
  }

  lemma Arrived(s: State, t: nat)
    ensures Alone(s, t, 0) == s
  {
  }

  /** As many packets as fit, or as there are. */
  function BatchSize(queue: seq<nat>): nat { if |queue| < 950 then |queue| else 950 }

  /** sendPost after it won the flag: on a session to be disconnected, or without a packet, it
      only gives the flag back. */
  lemma SendDeclines(s: State, t: nat)
    requires t < |s.threads| && s.threads[t] == Entered && (s.stage == Disconnect || s.queue == [])
    ensures Alone(s, t, if s.stage == Disconnect then 2 else 3) == s.(threads := s.threads[t := Idle], sendFlag := 0)
  {
    hide Alone;
    var left := s.(threads := s.threads[t := Leaving]);
    var done := s.(threads := s.threads[t := Idle], sendFlag := 0);
    assert left.threads[t := Idle] == done.threads;
    assert Going(left, t) == done;
    Arrived(done, t);
    One(left, t, 1);
    if s.stage == Disconnect {
      assert Going(s, t) == left;
      One(s, t, 2);
    } else {
      var looked := s.(threads := s.threads[t := CheckQueue]);
      assert looked.threads[t := Leaving] == left.threads;
      assert Going(s, t) == looked && Going(looked, t) == left;
      One(s, t, 3);
      One(looked, t, 2);
    }
  }

  /** After `m` more packets have gone from the queue to the array, behind the first `c`. */
  function Filled(s: State, t: nat, c: nat, m: nat, pc: Pc): State
    requires t < |s.threads| && c + m <= |s.sent| && m <= |s.queue|
  {
    s.(threads := s.threads[t := pc], sent := s.sent[..c] + s.queue[..m] + s.sent[c + m..],
       queue := s.queue[m..], dequeued := s.dequeued + s.queue[..m])
  }

  lemma FirstOne(s: State, t: nat, c: nat)
    requires t < |s.threads| && c < |s.sent| && s.queue != []
    ensures Filled(s, t, c, 1, Filling(c + 1)) ==
            s.(threads := s.threads[t := Filling(c + 1)], sent := s.sent[c := s.queue[0]],
               queue := s.queue[1..], dequeued := s.dequeued + [s.queue[0]])
  {
    assert s.queue[..1] == [s.queue[0]];
    assert s.sent[..c] + [s.queue[0]] + s.sent[c + 1..] == s.sent[c := s.queue[0]];
  }

  lemma OneAndTheRest(sent: seq<nat>, queue: seq<nat>, c: nat, m: nat)
    requires c + m <= |sent| && 0 < m <= |queue|
    ensures var sent', queue' := sent[c := queue[0]], queue[1..];
            && sent'[..c + 1] + queue'[..m - 1] + sent'[c + m..] == sent[..c] + queue[..m] + sent[c + m..]
            && queue'[m - 1..] == queue[m..] && [queue[0]] + queue'[..m - 1] == queue[..m]
  {
    var sent', queue' := sent[c := queue[0]], queue[1..];
    assert [queue[0]] + queue'[..m - 1] == queue[..m];
    assert sent'[..c + 1] == sent[..c] + [queue[0]] && sent'[c + m..] == sent[c + m..];
    assert sent[..c] + ([queue[0]] + queue'[..m - 1]) == sent[..c] + [queue[0]] + queue'[..m - 1];
  }

  lemma FilledOnce(s: State, t: nat, c: nat, m: nat)
    requires t < |s.threads| && c + m <= |s.sent| && 0 < m <= |s.queue|
    ensures var s1 := Filled(s, t, c, 1, Filling(c + 1));
            && s1 == s.(threads := s.threads[t := Filling(c + 1)], sent := s.sent[c := s.queue[0]],
                        queue := s.queue[1..], dequeued := s.dequeued + [s.queue[0]])
            && Filled(s1, t, c + 1, m - 1, SetCount(c + m)) == Filled(s, t, c, m, SetCount(c + m))
  {
    FirstOne(s, t, c);
    OneAndTheRest(s.sent, s.queue, c, m);
    assert s.dequeued + ([s.queue[0]] + s.queue[1..][..m - 1]) == s.dequeued + [s.queue[0]] + s.queue[1..][..m - 1];
    assert s.threads[t := Filling(c + 1)][t := SetCount(c + m)] == s.threads[t := SetCount(c + m)];
  }

  lemma {:induction false} FillsUp(s: State, t: nat, c: nat, m: nat, n: nat)
    requires t < |s.threads| && s.threads[t] == Filling(c) && |s.sent| == 950
    requires c + m <= 950 && m <= |s.queue| && (m == |s.queue| || c + m == 950)
    ensures Alone(s, t, m + 1 + n) == Alone(Filled(s, t, c, m, SetCount(c + m)), t, n)
    decreases m
  {
    hide Alone;
    One(s, t, m + 1 + n);
    if m == 0 {
      var done := Filled(s, t, c, 0, SetCount(c));
      assert done.sent == s.sent && done.queue == s.queue && done.dequeued == s.dequeued;
      assert Going(s, t) == done;
    } else {
      FilledOnce(s, t, c, m);
      var s1 := Filled(s, t, c, 1, Filling(c + 1));
      assert Going(s, t) == s1;
      FillsUp(s1, t, c + 1, m - 1, n);
    }
  }

  function Posted(s: State, t: nat, m: nat): State
    requires t < |s.threads| && m <= |s.sent| && m <= |s.queue|
  {
    Filled(s, t, 0, m, Idle).(
      sendPacketCount := m, outstanding := true, stage := if s.stage == SendPacketLast then SendPostLast else s.stage)
  }

  /** sendPost after it won the flag, left alone: the first packets of the queue, up to 950, are
      the batch, in order, and it is on its way; it is the last exactly if one was asked for. */
  lemma SendDecides(s: State, t: nat)
    requires t < |s.threads| && s.threads[t] == Entered && s.stage != Disconnect && s.queue != [] && |s.sent| == 950
    ensures var m := BatchSize(s.queue); Alone(s, t, m + 6) == Posted(s, t, m)
  {
    hide Alone, Filled;
    var m := BatchSize(s.queue);
    var s1, s2 := s.(threads := s.threads[t := CheckQueue]), s.(threads := s.threads[t := Filling(0)]);
    assert s1.threads[t := Filling(0)] == s2.threads;
    assert Going(s, t) == s1 && Going(s1, t) == s2;
    One(s, t, m + 6);
    One(s1, t, m + 5);
    FillsUp(s2, t, 0, m, 3);
    PostsIt(s, s2, t, m);
  }

  lemma PostsIt(s: State, s2: State, t: nat, m: nat)
    requires t < |s.threads| && m <= |s.sent| && m <= |s.queue| && s2 == s.(threads := s.threads[t := Filling(0)])
    ensures Alone(Filled(s2, t, 0, m, SetCount(m)), t, 3) == Posted(s, t, m)
  {
    hide Alone;
    var f := Filled(s2, t, 0, m, SetCount(m));
    var f1 := f.(threads := s.threads[t := Marking], sendPacketCount := m);
    var f2 := f1.(threads := s.threads[t := Posting], stage := Posted(s, t, m).stage);
    assert s2.threads[t := SetCount(m)] == s.threads[t := SetCount(m)];
    assert f.threads[t := Marking] == f1.threads && f1.threads[t := Posting] == f2.threads;
    assert f2.threads[t := Idle] == s.threads[t := Idle];
    assert Going(f, t) == f1 && Going(f1, t) == f2 && Going(f2, t) == Posted(s, t, m);
    One(f, t, 3);
    One(f1, t, 2);
    One(f2, t, 1);
    Arrived(Posted(s, t, m), t);
  }

  /** Giving up the packets of the batch from the `i`th on. */
  lemma {:induction false} DropsRest(s: State, t: nat, i: nat, fails: bool, n: nat)
    requires t < |s.threads| && s.threads[t] == (if fails then FailDrop(i) else DoneDrop(i))
    requires i <= s.sendPacketCount <= |s.sent|
    ensures Alone(s, t, s.sendPacketCount - i + 1 + n) ==
            Alone(s.(threads := s.threads[t := if fails then FailDisconnect else DoneClear],
                     dropped := s.dropped + s.sent[i..s.sendPacketCount]), t, n)
    decreases s.sendPacketCount - i
  {
    hide Alone;
    var c := s.sendPacketCount;
    One(s, t, c - i + 1 + n);
    var end: Pc := if fails then FailDisconnect else DoneClear;
    DroppingOne(s.dropped, s.sent, i, c);
    if i == c {
      assert Going(s, t) == s.(threads := s.threads[t := end]);
    } else {
      var s1 := s.(threads := s.threads[t := if fails then FailDrop(i + 1) else DoneDrop(i + 1)],
                   dropped := s.dropped + [s.sent[i]]);
      assert Going(s, t) == s1;
      DropsRest(s1, t, i + 1, fails, n);
      assert s1.threads[t := end] == s.threads[t := end];
    }
  }

  /** A completion left alone gives up exactly the batch, in order, and then the flag; it
      disconnects the session exactly if the batch was marked as the last. */
  lemma CompletionDecides(s: State, t: nat)
    requires t < |s.threads| && s.threads[t] == Done && s.sendPacketCount <= |s.sent|
    ensures Alone(s, t, s.sendPacketCount + 4) == s.(
              threads := s.threads[t := DoneCheck], sendFlag := 0, sendPacketCount := 0,
              stage := if s.stage == SendPostLast then Disconnect else s.stage,
              dropped := s.dropped + s.sent[..s.sendPacketCount])
  {
    hide Alone;
    var c, stage := s.sendPacketCount, if s.stage == SendPostLast then Disconnect else s.stage;
    var s1 := s.(threads := s.threads[t := DoneDrop(0)], stage := stage);
    assert Going(s, t) == s1;
    One(s, t, c + 4);
    DropsRest(s1, t, 0, false, 2);
    assert s.sent[0..c] == s.sent[..c];
    var s2 := s1.(threads := s.threads[t := DoneClear], dropped := s.dropped + s.sent[..c]);
    assert s1.threads[t := DoneClear] == s2.threads;
    ClearsAfterDone(s2, t);
    assert s2.threads[t := DoneCheck] == s.threads[t := DoneCheck];
  }

  lemma ClearsAfterDone(s: State, t: nat)
    requires t < |s.threads| && s.threads[t] == DoneClear
    ensures Alone(s, t, 2) == s.(threads := s.threads[t := DoneCheck], sendFlag := 0, sendPacketCount := 0)
  {
    hide Alone;
    var s3 := s.(threads := s.threads[t := DoneFlag], sendPacketCount := 0);
    var s4 := s3.(threads := s.threads[t := DoneCheck], sendFlag := 0);
    assert s3.threads[t := DoneCheck] == s4.threads;
    assert Going(s, t) == s3 && Going(s3, t) == s4;
    One(s, t, 2);
    One(s3, t, 1);
    Arrived(s4, t);
  }

  /** A send that failed at once, left alone, gives up exactly the batch and then the flag, and
      disconnects the session. */
  lemma FailureDecides(s: State, t: nat)
    requires t < |s.threads| && s.threads[t] == FailDrop(0) && s.sendPacketCount <= |s.sent|
    ensures Alone(s, t, s.sendPacketCount + 4) == s.(
              threads := s.threads[t := Idle], sendFlag := 0, sendPacketCount := 0, stage := Disconnect,
              dropped := s.dropped + s.sent[..s.sendPacketCount])
  {
    hide Alone;
    var c := s.sendPacketCount;
    DropsRest(s, t, 0, true, 3);
    assert s.sent[0..c] == s.sent[..c];
    var s2 := s.(threads := s.threads[t := FailDisconnect], dropped := s.dropped + s.sent[..c]);
    ClearsAfterFailure(s2, t);
    assert s2.threads[t := Idle] == s.threads[t := Idle];
  }

  lemma ClearsAfterFailure(s: State, t: nat)
    requires t < |s.threads| && s.threads[t] == FailDisconnect
    ensures Alone(s, t, 3) ==
            s.(threads := s.threads[t := Idle], sendFlag := 0, sendPacketCount := 0, stage := Disconnect)
  {
    hide Alone;
    var s3 := s.(threads := s.threads[t := FailClear], stage := Disconnect);
    var s4 := s3.(threads := s.threads[t := FailFlag], sendPacketCount := 0);
    var s5 := s4.(threads := s.threads[t := Idle], sendFlag := 0);
    assert s3.threads[t := FailFlag] == s4.threads && s4.threads[t := Idle] == s5.threads;
    assert Going(s, t) == s3 && Going(s3, t) == s4 && Going(s4, t) == s5;
    One(s, t, 3);
    One(s3, t, 2);
    One(s4, t, 1);
    Arrived(s5, t);
  }

  /** Winning the flag: exactly when it was clear. */
  lemma FlagDecides(s: State, t: nat)
    requires t < |s.threads| && s.threads[t] == Trying
    ensures Going(s, t) == s.(threads := s.threads[t := if s.sendFlag == 0 then Entered else Idle], sendFlag := 1)
  {
  }

  lemma {:induction false} Further(s: State, t: nat, m: nat, n: nat)
    ensures Alone(s, t, m + n) == Alone(Alone(s, t, m), t, n)
    decreases m
  {
    if m > 0 { Further(Going(s, t), t, m - 1, n); }
  }

  /** After a completion that disconnects nobody: what is queued by then is sent on, from a
      batch that starts afresh. */
  lemma CompletionSendsOn(s: State, t: nat)
    requires t < |s.threads| && s.threads[t] == Done && s.sendPacketCount <= |s.sent| == 950
    requires s.stage != SendPostLast && s.stage != Disconnect && s.queue != []
    ensures var c, m := s.sendPacketCount, BatchSize(s.queue);
            Alone(s, t, c + m + 12) == Posted(s, t, m).(sendFlag := 1, dropped := s.dropped + s.sent[..c])
  {
    hide Alone, Going, Filled;
    var c, m := s.sendPacketCount, BatchSize(s.queue);
    var s1 := s.(threads := s.threads[t := DoneCheck], sendFlag := 0, sendPacketCount := 0,
                 dropped := s.dropped + s.sent[..c]);
    CompletionDecides(s, t);
    assert Alone(s, t, c + 4) == s1;
    Further(s, t, c + 4, m + 8);
    assert Alone(s, t, c + m + 12) == Alone(s1, t, m + 8);
    TriesAgain(s1, t, m + 6);
    var s2 := s1.(threads := s.threads[t := Entered], sendFlag := 1);
    assert s1.threads[t := Entered] == s2.threads;
    assert Alone(s1, t, m + 8) == Alone(s2, t, m + 6);
    SendDecides(s2, t);
    PostedAlike(s, s2, t, m);
  }

  /** A completion that leaves nothing queued ends there. */
  lemma TriesAgain(s: State, t: nat, n: nat)
    requires t < |s.threads| && s.threads[t] == DoneCheck && s.sendFlag == 0
    ensures s.queue == [] ==> Alone(s, t, n + 2) == s.(threads := s.threads[t := Idle])
    ensures s.queue != [] ==>
              Alone(s, t, n + 2) == Alone(s.(threads := s.threads[t := Entered], sendFlag := 1), t, n)
  {
    hide Alone;
    One(s, t, n + 2);
    if s.queue != [] {
      var s1 := s.(threads := s.threads[t := Trying]);
      assert Going(s, t) == s1;
      One(s1, t, n + 1);
      FlagDecides(s1, t);
      assert s1.threads[t := Entered] == s.threads[t := Entered];
    } else {
      Rests(Going(s, t), t, n + 1);
    }
  }

  lemma {:induction false} Rests(s: State, t: nat, n: nat)
    requires t < |s.threads| && s.threads[t] == Idle
    ensures Alone(s, t, n) == s
  {
    if n > 0 { Rests(s, t, n - 1); }
  }

  lemma PostedAlike(s: State, s2: State, t: nat, m: nat)
    requires t < |s.threads| && m <= |s.sent| && m <= |s.queue|
    requires s2 == s.(threads := s.threads[t := Entered], sendFlag := 1, sendPacketCount := 0, dropped := s2.dropped)
    ensures Posted(s2, t, m) == Posted(s, t, m).(sendFlag := 1, dropped := s2.dropped)
  {
    assert s2.threads[t := Idle] == s.threads[t := Idle];
  }
}
