/** The size of sentPacketArray. */
module SendLimits {
  const MAX_PACKET: nat := 950
}

/** The send path of one session, from accept to release, as a transition system: senders and
    workers race for sendFlag, one of them fills sentPacketArray from the send queue and posts
    it, and the completion gives the batch up again.  One action per shared access.

    `enqueued`, `dequeued` and `dropped` (packets whose reference the send path gave up) are
    bookkeeping that no step reads. */
module SendPath {
  import opened Tally
  import opened SendLimits

  datatype Stage = Normal | SendPacketLast | SendPostLast | Disconnect

  /** `Entered` to `FailFlag` is sendPost after it won the flag; `Done` to `DoneFlag` is the
      worker that dequeued the send completion. */
  datatype Pc =
    | Idle
    | Trying
    | Entered
    | CheckQueue
    | Leaving
    | Filling(n: nat)
    | SetCount(n: nat)
    | Marking
    | Posting
    | FailDrop(i: nat)
    | FailDisconnect
    | FailClear
    | FailFlag
    | Done
    | DoneDrop(i: nat)
    | DoneClear
    | DoneFlag
    | DoneCheck

  datatype State = State(
    sendFlag: int, stage: Stage, queue: seq<nat>, sent: seq<nat>, sendPacketCount: nat,
    outstanding: bool, broken: bool, threads: seq<Pc>,
    enqueued: seq<nat>, dequeued: seq<nat>, dropped: seq<nat>)

  /** `yes` is what the environment decides: whether the queue's counter shows a packet,
      whether Dequeue succeeds, whether WSASend does. */
  datatype Action =
    | Enqueue(packet: nat)
    | MarkLast
    | SetDisconnect
    | TrySend(thread: nat)
    | Complete(thread: nat, ok: bool)
    | Step(thread: nat, yes: bool)

  predicate Enabled(s: State, a: Action) {
    match a
    case Enqueue(_) => true
    case MarkLast => true
    case SetDisconnect => true
    case TrySend(t) => t < |s.threads| && s.threads[t].Idle?
    case Complete(t, _) => t < |s.threads| && s.threads[t].Idle? && s.outstanding
    case Step(t, yes) =>
      t < |s.threads| && !s.threads[t].Idle?
      && (yes && (s.threads[t].CheckQueue? || s.threads[t].Filling?) ==> s.queue != [])
  }

  function Goto(s: State, t: nat, pc: Pc): State
    requires t < |s.threads|
  {
    s.(threads := s.threads[t := pc])
  }

  function After(s: State, a: Action): State
    requires Enabled(s, a)
  {
    match a
    case Enqueue(p) => s.(queue := s.queue + [p], enqueued := s.enqueued + [p])
    case MarkLast => if s.stage == Normal then s.(stage := SendPacketLast) else s
    case SetDisconnect => s.(stage := Disconnect)
    case TrySend(t) => Goto(s, t, Trying)
    case Complete(t, ok) => Goto(s, t, if ok then Done else Idle).(outstanding := false, broken := !ok)
    case Step(t, yes) => AfterStep(s, t, yes)
  }

  /** Where a step takes its thread. */
  function NextPc(s: State, pc: Pc, yes: bool): Pc {
    match pc
    case Idle => Idle
    case Trying => if s.sendFlag == 0 then Entered else Idle
    case Entered => if s.stage == Disconnect then Leaving else CheckQueue
    case CheckQueue => if yes then Filling(0) else Leaving
    case Leaving => Idle
    case Filling(n) => if n < MAX_PACKET && n < |s.sent| && yes then Filling(n + 1) else SetCount(n)
    case SetCount(_) => Marking
    case Marking => Posting
    case Posting => if yes then Idle else FailDrop(0)
    case FailDrop(i) => if i < s.sendPacketCount && i < |s.sent| then FailDrop(i + 1) else FailDisconnect
    case FailDisconnect => FailClear
    case FailClear => FailFlag
    case FailFlag => Idle
    case Done => DoneDrop(0)
    case DoneDrop(i) => if i < s.sendPacketCount && i < |s.sent| then DoneDrop(i + 1) else DoneClear
    case DoneClear => DoneFlag
    case DoneFlag => DoneCheck
    case DoneCheck => if yes then Trying else Idle
  }

  /** What a step does to the session. */
  function Effect(s: State, pc: Pc, yes: bool): State
    requires yes && pc.Filling? ==> s.queue != []
  {
    match pc
    case Trying => s.(sendFlag := 1)
    case Leaving => s.(sendFlag := 0)
    case Filling(n) =>
      if n < MAX_PACKET && n < |s.sent| && yes then
        s.(sent := s.sent[n := s.queue[0]], queue := s.queue[1..], dequeued := s.dequeued + [s.queue[0]])
      else s
    case SetCount(n) => s.(sendPacketCount := n)
    case Marking => s.(stage := if s.stage == SendPacketLast then SendPostLast else s.stage)
    case Posting => if yes then s.(outstanding := true) else s
    case FailDrop(i) =>
      if i < s.sendPacketCount && i < |s.sent| then s.(dropped := s.dropped + [s.sent[i]]) else s
    case FailDisconnect => s.(stage := Disconnect)
    case FailClear => s.(sendPacketCount := 0)
    case FailFlag => s.(sendFlag := 0)
    case Done => s.(stage := if s.stage == SendPostLast then Disconnect else s.stage)
    case DoneDrop(i) =>
      if i < s.sendPacketCount && i < |s.sent| then s.(dropped := s.dropped + [s.sent[i]]) else s
    case DoneClear => s.(sendPacketCount := 0)
    case DoneFlag => s.(sendFlag := 0)
    case _ => s
  }

  function AfterStep(s: State, t: nat, yes: bool): State
    requires Enabled(s, Step(t, yes))
  {
    Effect(s, s.threads[t], yes).(threads := s.threads[t := NextPc(s, s.threads[t], yes)])
  }

  // ---------- The invariant ----------

  /** The thread holds the send flag. */
  function Inside(pc: Pc): nat { if pc.Idle? || pc.Trying? || pc.DoneCheck? then 0 else 1 }

  /** sendFlag is 1 exactly when one thread is inside the region, a send is outstanding, or a
      send has completed with an error; and never two of these at once. */
  ghost predicate Exclusive(s: State) {
    && (s.sendFlag == 0 || s.sendFlag == 1)
    && Sum(s.threads, Inside) + (if s.outstanding then 1 else 0) + (if s.broken then 1 else 0) == s.sendFlag
  }

  /** The packets of the array that the thread inside still answers for. */
  function Part(s: State, pc: Pc): seq<nat>
    requires s.sendPacketCount <= MAX_PACKET == |s.sent|
  {
    match pc
    case Filling(n) => if n <= MAX_PACKET then s.sent[..n] else []
    case SetCount(n) => if n <= MAX_PACKET then s.sent[..n] else []
    case Marking => s.sent[..s.sendPacketCount]
    case Posting => s.sent[..s.sendPacketCount]
    case Done => s.sent[..s.sendPacketCount]
    case FailDrop(i) => if i <= s.sendPacketCount then s.sent[i..s.sendPacketCount] else []
    case DoneDrop(i) => if i <= s.sendPacketCount then s.sent[i..s.sendPacketCount] else []
    case _ => []
  }

  ghost predicate PcOk(s: State, pc: Pc)
    requires s.sendPacketCount <= MAX_PACKET == |s.sent|
  {
    Inside(pc) == 1 ==>
      && s.dequeued == s.dropped + Part(s, pc)
      && (pc.Entered? || pc.CheckQueue? || pc.Leaving? || pc.Filling? || pc.SetCount? || pc.FailFlag? || pc.DoneFlag?
          ==> s.sendPacketCount == 0)
      && (pc.Filling? || pc.SetCount? ==> pc.n <= MAX_PACKET)
      && (pc.FailDrop? || pc.DoneDrop? ==> pc.i <= s.sendPacketCount)
  }

  ghost predicate Inv(s: State) {
    && Exclusive(s)
    && s.sendPacketCount <= MAX_PACKET == |s.sent|
    && s.dequeued + s.queue == s.enqueued
    && (forall t | 0 <= t < |s.threads| :: PcOk(s, s.threads[t]))
    && (s.outstanding || s.broken ==> s.dequeued == s.dropped + s.sent[..s.sendPacketCount])
    && (s.sendFlag == 0 ==> s.dequeued == s.dropped && s.sendPacketCount == 0)
  }

  lemma OnlyOneInside(s: State, t: nat, u: nat)
    requires Exclusive(s) && t < |s.threads| && u < |s.threads| && t != u && Inside(s.threads[t]) == 1
    ensures Inside(s.threads[u]) == 0 && !s.outstanding && !s.broken && s.sendFlag == 1
  {
    SumBoundsTwo(s.threads, if t < u then t else u, if t < u then u else t, Inside);
  }

  lemma InsideExcludes(s: State, t: nat)
    requires Exclusive(s) && t < |s.threads| && Inside(s.threads[t]) == 1
    ensures !s.outstanding && !s.broken && s.sendFlag == 1
    ensures forall u | 0 <= u < |s.threads| && u != t :: Inside(s.threads[u]) == 0
  {
    SumBoundsEach(s.threads, t, Inside);
    forall u | 0 <= u < |s.threads| && u != t ensures Inside(s.threads[u]) == 0 { OnlyOneInside(s, t, u); }
  }

  /** The flag is held by thread `t` before or after: nobody else has anything at stake. */
  lemma HolderStep(s: State, s': State, t: nat, pc: Pc)
    requires Inv(s) && t < |s.threads| && s'.threads == s.threads[t := pc] && Exclusive(s')
    requires Inside(s.threads[t]) == 1 || s.sendFlag == 0 || s.outstanding
    requires Inside(pc) == 1 || s'.sendFlag == 0 || s'.outstanding || s'.broken
    requires s'.sendPacketCount <= MAX_PACKET == |s'.sent| && s'.dequeued + s'.queue == s'.enqueued
    requires PcOk(s', pc)
    requires s'.outstanding || s'.broken ==> s'.dequeued == s'.dropped + s'.sent[..s'.sendPacketCount]
    requires s'.sendFlag == 0 ==> s'.dequeued == s'.dropped && s'.sendPacketCount == 0
    ensures Inv(s')
  {
    forall u | 0 <= u < |s'.threads| ensures PcOk(s', s'.threads[u]) {
      if u != t {
        if Inside(s'.threads[u]) == 1 { SumBoundsEach(s.threads, u, Inside); }
        if Inside(s.threads[t]) == 1 { OnlyOneInside(s, t, u); }
      }
    }
  }

  /** A step of a thread that neither holds the flag nor takes it, or of the environment. */
  lemma BystanderStep(s: State, s': State, t: nat, pc: Pc)
    requires Inv(s) && t < |s.threads| && Inside(s.threads[t]) == 0 && Inside(pc) == 0
    requires s'.threads == s.threads[t := pc]
    requires s' == s.(threads := s'.threads, stage := s'.stage, queue := s'.queue, enqueued := s'.enqueued)
    requires s'.dequeued + s'.queue == s'.enqueued
    ensures Inv(s')
  {
    SumUpdate(s.threads, t, pc, Inside);
  }

  lemma EnvironmentStep(s: State, s': State)
    requires Inv(s) && s' == s.(stage := s'.stage, queue := s'.queue, enqueued := s'.enqueued)
    requires s'.dequeued + s'.queue == s'.enqueued
    ensures Inv(s')
  {
  }

  lemma EnterStep(s: State, t: nat)
    requires Inv(s) && t < |s.threads| && (s.threads[t].Trying? || s.threads[t].DoneCheck? || s.threads[t].Idle?)
    requires !s.threads[t].Idle?
    ensures forall yes :: Inv(AfterStep(s, t, yes))
  {
    forall yes ensures Inv(AfterStep(s, t, yes)) {
      var s' := AfterStep(s, t, yes);
      var pc := s'.threads[t];
      if s.threads[t].Trying? && s.sendFlag == 0 {
        SumUpdate(s.threads, t, pc, Inside);
        assert s.dropped + [] == s.dropped;
        HolderStep(s, s', t, pc);
      } else {
        BystanderStep(s, s', t, pc);
      }
    }
  }

  /** Filling the array: what is taken off the queue is what is put in. */
  lemma FillStep(s: State, t: nat, yes: bool)
    requires Inv(s) && Enabled(s, Step(t, yes)) && (s.threads[t].Filling? || s.threads[t].SetCount?)
    ensures Inv(AfterStep(s, t, yes))
  {
    var s' := AfterStep(s, t, yes);
    var pc := s'.threads[t];
    InsideExcludes(s, t);
    SumUpdate(s.threads, t, pc, Inside);
    assert PcOk(s, s.threads[t]);
    if s.threads[t].Filling? && pc.Filling? {
      var n := s.threads[t].n;
      assert s'.sent[..n + 1] == s.sent[..n] + [s.queue[0]];
      assert s.queue == [s.queue[0]] + s.queue[1..];
    }
    HolderStep(s, s', t, pc);
  }

  lemma HeldFacts(s: State, t: nat)
    requires Inv(s) && t < |s.threads| && Inside(s.threads[t]) == 1
    ensures Exclusive(s) && !s.outstanding && !s.broken && s.sendFlag == 1
    ensures s.sendPacketCount <= MAX_PACKET == |s.sent| && s.dequeued + s.queue == s.enqueued
    ensures PcOk(s, s.threads[t])
  {
    InsideExcludes(s, t);
  }

  lemma DroppingOne(dropped: seq<nat>, sent: seq<nat>, i: nat, count: nat)
    requires i <= count <= |sent|
    ensures i < count ==> dropped + [sent[i]] + sent[i + 1..count] == dropped + sent[i..count]
    ensures i == count ==> dropped + sent[i..count] == dropped && dropped + [] == dropped
  {
    if i < count { assert sent[i..count] == [sent[i]] + sent[i + 1..count]; }
  }

  /** Dropping the references of a batch, one packet at a time. */
  lemma DropStep(s: State, t: nat, yes: bool)
    requires Inv(s) && Enabled(s, Step(t, yes)) && (s.threads[t].FailDrop? || s.threads[t].DoneDrop?)
    ensures Inv(AfterStep(s, t, yes))
  {
    hide Inv;
    var s' := AfterStep(s, t, yes);
    var pc := s'.threads[t];
    HeldFacts(s, t);
    SumUpdate(s.threads, t, pc, Inside);
    DroppingOne(s.dropped, s.sent, s.threads[t].i, s.sendPacketCount);
    HolderStep(s, s', t, pc);
  }

  /** Inside the region before a batch exists, and after it is gone. */
  lemma EmptyHandedStep(s: State, t: nat, yes: bool)
    requires Inv(s) && Enabled(s, Step(t, yes))
    requires var pc := s.threads[t];
             pc.Entered? || pc.CheckQueue? || pc.Leaving? || pc.FailDisconnect? || pc.FailClear? || pc.FailFlag?
             || pc.DoneClear? || pc.DoneFlag?
    ensures Inv(AfterStep(s, t, yes))
  {
    hide Inv;
    var s' := AfterStep(s, t, yes);
    var pc := s'.threads[t];
    HeldFacts(s, t);
    SumUpdate(s.threads, t, pc, Inside);
    assert Part(s', pc) == [];
    assert s.dropped + [] == s.dropped;
    HolderStep(s, s', t, pc);
  }

  /** Inside the region with a batch in hand. */
  lemma BatchStep(s: State, t: nat, yes: bool)
    requires Inv(s) && Enabled(s, Step(t, yes))
    requires s.threads[t].Marking? || s.threads[t].Posting? || s.threads[t].Done?
    ensures Inv(AfterStep(s, t, yes))
  {
    hide Inv;
    var s' := AfterStep(s, t, yes);
    var pc := s'.threads[t];
    HeldFacts(s, t);
    SumUpdate(s.threads, t, pc, Inside);
    assert s.sent[0..s.sendPacketCount] == s.sent[..s.sendPacketCount];
    HolderStep(s, s', t, pc);
  }

  lemma CompleteStep(s: State, t: nat, ok: bool)
    requires Inv(s) && Enabled(s, Complete(t, ok))
    ensures Inv(After(s, Complete(t, ok)))
  {
    var s' := After(s, Complete(t, ok));
    SumUpdate(s.threads, t, s'.threads[t], Inside);
    HolderStep(s, s', t, s'.threads[t]);
  }

  lemma ActionKeeps(s: State, a: Action)
    requires Inv(s) && Enabled(s, a)
    ensures Inv(After(s, a))
  {
    match a
    case Enqueue(p) =>
      assert s.dequeued + (s.queue + [p]) == s.dequeued + s.queue + [p];
      EnvironmentStep(s, After(s, a));
    case MarkLast => EnvironmentStep(s, After(s, a));
    case SetDisconnect => EnvironmentStep(s, After(s, a));
    case TrySend(t) => BystanderStep(s, After(s, a), t, Trying);
    case Complete(t, ok) => CompleteStep(s, t, ok);
    case Step(t, yes) =>
      hide Inv;
      if s.threads[t].Trying? || s.threads[t].DoneCheck? {
        EnterStep(s, t);
      } else if s.threads[t].Filling? || s.threads[t].SetCount? {
        FillStep(s, t, yes);
      } else if s.threads[t].FailDrop? || s.threads[t].DoneDrop? {
        DropStep(s, t, yes);
      } else if s.threads[t].Marking? || s.threads[t].Posting? || s.threads[t].Done? {
        BatchStep(s, t, yes);
      } else {
        EmptyHandedStep(s, t, yes);
      }
  }

  // ---------- Whole runs ----------

  datatype Run = Run(states: seq<State>, actions: seq<Action>)

  /** A freshly accepted session: flag clear, nothing queued. */
  ghost predicate Start(s: State) {
    && s.sendFlag == 0 && s.stage == Normal && s.queue == [] && |s.sent| == MAX_PACKET && s.sendPacketCount == 0
    && !s.outstanding && !s.broken && s.enqueued == [] && s.dequeued == [] && s.dropped == []
    && forall t | 0 <= t < |s.threads| :: s.threads[t] == Idle
  }

  ghost predicate StepOf(r: Run, i: nat) {
    && i + 1 < |r.states| && i < |r.actions|
    && Enabled(r.states[i], r.actions[i]) && r.states[i + 1] == After(r.states[i], r.actions[i])
  }

  ghost predicate Valid(r: Run) {
    |r.states| == |r.actions| + 1 && Start(r.states[0]) && forall i | 0 <= i < |r.actions| :: StepOf(r, i)
  }

  lemma StartInv(s: State)
    requires Start(s)
    ensures Inv(s)
  {
    SumOfZeros(s.threads, Inside);
  }

  lemma {:induction false} RunInv(r: Run, i: nat)
    requires Valid(r) && i < |r.states|
    ensures Inv(r.states[i])
  {
    hide Inv, Start;
    if i == 0 {
      StartInv(r.states[0]);
    } else {
      RunInv(r, i - 1);
      assert StepOf(r, i - 1);
      ActionKeeps(r.states[i - 1], r.actions[i - 1]);
    }
  }

  /** What sendFlag means in every reachable state. */
  lemma FlagMeansBusy(r: Run, i: nat)
    requires Valid(r) && i < |r.states|
    ensures var s := r.states[i];
            var inside := Sum(s.threads, Inside);
            (s.sendFlag == 1 <==> inside == 1 || s.outstanding || s.broken)
            && (s.sendFlag == 0 <==> inside == 0 && !s.outstanding && !s.broken)
            && (s.outstanding ==> inside == 0 && !s.broken) && (s.broken ==> inside == 0)
  {
    RunInv(r, i);
  }

  /** A batch has at most 950 packets, and neither it nor its size changes while it is in
      flight. */
  lemma BatchIsFrozen(r: Run, i: nat)
    requires Valid(r) && i < |r.actions| && r.states[i].outstanding
    ensures var s, s' := r.states[i], r.states[i + 1];
            s.sendPacketCount <= MAX_PACKET && s'.sent == s.sent && s'.sendPacketCount == s.sendPacketCount
  {
    var s, a := r.states[i], r.actions[i];
    RunInv(r, i);
    assert StepOf(r, i);
    if a.Step? { SumBoundsEach(s.threads, a.thread, Inside); }
  }

  /** Packets leave the queue in the order they entered it, none twice and none skipped; the
      references given up are those of the first packets taken; and what has been taken but
      not given up is, once the path is at rest or a send is out, exactly the current batch. */
  lemma PacketsInOrder(r: Run, i: nat)
    requires Valid(r) && i < |r.states|
    ensures var s := r.states[i];
            && s.dequeued + s.queue == s.enqueued && s.dropped <= s.dequeued
            && s.sendPacketCount <= MAX_PACKET == |s.sent|
            && (s.outstanding || s.broken ==> s.dequeued == s.dropped + s.sent[..s.sendPacketCount])
            && (s.sendFlag == 0 ==> s.dequeued == s.dropped)
  {
    var s := r.states[i];
    RunInv(r, i);
    if s.sendFlag == 1 && !s.outstanding && !s.broken {
      var t := SumHasWitness(s.threads, Inside);
      assert PcOk(s, s.threads[t]);
    }
  }
}
