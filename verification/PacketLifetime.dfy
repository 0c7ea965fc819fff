/** Reference counts of packets that several sessions share: a packet is made, queued for any
    number of sessions, sent by any of them, given up by completions or by the release of a
    session, and freed by whoever drops the last reference.  One action per change of a
    count, a queue or a send flag, over any number of threads and sessions.

    A thread between two packets counts as two threads.  A release reads IOcount and then takes
    the release flag; the results hold for the runs in which nobody takes a reference to the
    session in between, and fail in one in which somebody does. */
module PacketLifetime {
  import opened Tally
  import opened SendLimits

  datatype Plan = Received | ForSessions(targets: seq<nat>)

  /** `k` is the session a thread works on, `i` its index into sentPacketArray. */
  datatype Pc =
    | Idle
    | Making(p: nat, plan: Plan)
    | Arrived(p: nat)
    | Delivering(p: nat)
    | Owning(p: nat, targets: seq<nat>)
    | Sharing(p: nat, k: nat, targets: seq<nat>)
    | Queueing(p: nat, k: nat, targets: seq<nat>)
    | Asking(p: nat, k: nat, targets: seq<nat>)
    | Seen(k: nat)
    | Freeing(p: nat)
    | Trying(k: nat)
    | Filling(k: nat)
    | Ready(k: nat)
    | Dropping(k: nat, i: nat)
    | DropFreeing(k: nat, i: nat, p: nat)
    | Cleared(k: nat)
    | Emptying(k: nat)
    | EmptyFreeing(k: nat, p: nat)
    | Cleaning(k: nat, i: nat)
    | CleanFreeing(k: nat, i: nat, p: nat)
    | Accepting(k: nat)
    | AcceptFreeing(k: nat, p: nat)

  datatype Phase = Live | Releasing | Vacant | Opening

  /** `batch` is sentPacketArray[0..sendPacketCount), stale pointers included; `given` is
      bookkeeping: how many of its packets have been given up. */
  datatype Slot = Slot(
    phase: Phase, sendFlag: int, outstanding: bool, broken: bool, requests: nat,
    queue: seq<nat>, batch: seq<nat>, given: nat)

  /** `refs` and `frees`: each packet's count, and how often it was given back to its pool. */
  datatype State = State(slots: seq<Slot>, jobs: seq<nat>, threads: seq<Pc>, refs: seq<int>, frees: seq<nat>)

  datatype What =
    | Adopt | Find(ok: bool) | Share | Enqueue | Ask(ok: bool) | Drop | Free | ShareJob | EnqueueJob | TakeJob
    | StartSend | Try | Take | Leave | Load | Post(ok: bool) | Complete(ok: bool) | DropOne | Finish | End(again: bool)
    | ReadCount | Swap(ok: bool) | EmptyOne | Emptied | CleanOne | Vacate | Accept | AcceptOne | Open

  datatype Action = Create(thread: nat, plan: Plan) | Step(thread: nat, slot: nat, what: What)

  /** What one step makes of the thread, the slot it works on, the job queue and one packet. */
  datatype Change = Change(pc: Pc, slot: Slot, jobs: seq<nat>, target: nat, ref: int, free: nat)

  // ---------- Steps ----------

  predicate CanMove(pc: Pc, k: nat, slot: Slot, jobs: seq<nat>, what: What) {
    match what
    case Adopt => pc.Making?
    case Find(ok) => pc.Owning? && pc.targets != [] && (ok ==> pc.targets[0] == k)
    case Share => pc.Sharing? && pc.k == k
    case Enqueue => pc.Queueing? && pc.k == k
    case Ask(_) => pc.Asking? && pc.k == k
    case Drop => (pc.Owning? && pc.targets == []) || pc.Arrived?
    case Free => pc.Freeing?
                 || ((pc.DropFreeing? || pc.EmptyFreeing? || pc.CleanFreeing? || pc.AcceptFreeing?) && pc.k == k)
    case ShareJob => pc.Arrived?
    case EnqueueJob => pc.Delivering?
    case TakeJob => pc.Idle? && jobs != []
    case StartSend => pc.Idle? && slot.requests > 0
    case Try => pc.Trying? && pc.k == k
    case Take => pc.Filling? && pc.k == k && slot.queue != [] && |slot.batch| < MAX_PACKET
    case Leave => pc.Filling? && pc.k == k && slot.batch == []
    case Load => pc.Filling? && pc.k == k
    case Post(_) => pc.Ready? && pc.k == k
    case Complete(_) => pc.Idle? && slot.outstanding
    case DropOne => pc.Dropping? && pc.k == k && pc.i < |slot.batch|
    case Finish => pc.Dropping? && pc.k == k && pc.i >= |slot.batch|
    case End(_) => pc.Cleared? && pc.k == k
    case ReadCount => pc.Idle? && !slot.outstanding && slot.requests == 0
    case Swap(_) => pc.Seen? && pc.k == k
    case EmptyOne => pc.Emptying? && pc.k == k && slot.queue != []
    case Emptied => pc.Emptying? && pc.k == k && slot.queue == []
    case CleanOne => pc.Cleaning? && pc.k == k && pc.i < |slot.batch|
    case Vacate => pc.Cleaning? && pc.k == k && pc.i >= |slot.batch|
    case Accept => pc.Idle? && slot.phase.Vacant?
    case AcceptOne => pc.Accepting? && pc.k == k && slot.queue != []
    case Open => pc.Accepting? && pc.k == k && slot.queue == []
  }

  /** The release flag is taken, for a session with the id the release is about (`ok`). */
  predicate Claims(slot: Slot, what: What) { what.Swap? && what.ok && slot.phase.Live? }

  /** subRef: the thread goes on to free the packet if nobody else holds it. */
  function Lowered(last: bool, p: nat, freeing: Pc, after: Pc, slot: Slot, jobs: seq<nat>): Change {
    Change(if last then freeing else after, slot, jobs, p, -1, 0)
  }

  function Last(refs: seq<int>, p: nat): bool { p < |refs| && refs[p] == 1 }

  function Move(pc: Pc, k: nat, slot: Slot, jobs: seq<nat>, refs: seq<int>, what: What): Change
    requires CanMove(pc, k, slot, jobs, what)
  {
    match what
    case Adopt =>
      Change(if pc.plan.Received? then Arrived(pc.p) else Owning(pc.p, pc.plan.targets), slot, jobs, pc.p, 1, 0)
    case Find(ok) =>
      Change(if ok && slot.phase.Live? then Sharing(pc.p, k, pc.targets[1..]) else Owning(pc.p, pc.targets[1..]),
             slot, jobs, pc.p, 0, 0)
    case Share => Change(Queueing(pc.p, k, pc.targets), slot, jobs, pc.p, 1, 0)
    case Enqueue => Change(Asking(pc.p, k, pc.targets), slot.(queue := slot.queue + [pc.p]), jobs, pc.p, 0, 0)
    case Ask(ok) =>
      Change(Owning(pc.p, pc.targets), slot.(requests := slot.requests + if ok then 1 else 0), jobs, pc.p, 0, 0)
    case Drop => Lowered(Last(refs, pc.p), pc.p, Freeing(pc.p), Idle, slot, jobs)
    case Free =>
      Change(match pc
             case DropFreeing(_, i, _) => Dropping(k, i)
             case EmptyFreeing(_, _) => Emptying(k)
             case CleanFreeing(_, i, _) => Cleaning(k, i)
             case AcceptFreeing(_, _) => Accepting(k)
             case _ => Idle,
             slot, jobs, pc.p, 0, 1)
    case ShareJob => Change(Delivering(pc.p), slot, jobs, pc.p, 1, 0)
    case EnqueueJob => Change(Owning(pc.p, []), slot, jobs + [pc.p], pc.p, 0, 0)
    case TakeJob => Change(Owning(jobs[0], []), slot, jobs[1..], jobs[0], 0, 0)
    case StartSend => Change(Trying(k), slot.(requests := slot.requests - 1), jobs, 0, 0, 0)
    case Try => Change(if slot.sendFlag == 0 then Filling(k) else Idle, slot.(sendFlag := 1), jobs, 0, 0, 0)
    case Take =>
      Change(pc, slot.(queue := slot.queue[1..], batch := slot.batch + [slot.queue[0]]), jobs, 0, 0, 0)
    case Leave => Change(Idle, slot.(sendFlag := 0), jobs, 0, 0, 0)
    case Load => Change(Ready(k), slot, jobs, 0, 0, 0)
    case Post(ok) => Change(if ok then Idle else Dropping(k, 0), slot.(outstanding := ok), jobs, 0, 0, 0)
    case Complete(ok) =>
      Change(if ok then Dropping(k, 0) else Idle, slot.(outstanding := false, broken := !ok), jobs, 0, 0, 0)
    case DropOne =>
      var p := slot.batch[pc.i];
      Lowered(Last(refs, p), p, DropFreeing(k, pc.i + 1, p), Dropping(k, pc.i + 1), slot.(given := pc.i + 1), jobs)
    case Finish => Change(Cleared(k), slot.(batch := [], given := 0), jobs, 0, 0, 0)
    case End(again) => Change(if again then Trying(k) else Idle, slot.(sendFlag := 0), jobs, 0, 0, 0)
    case ReadCount => Change(Seen(k), slot, jobs, 0, 0, 0)
    case Swap(_) =>
      if Claims(slot, what) then Change(Emptying(k), slot.(phase := Releasing), jobs, 0, 0, 0)
      else Change(Idle, slot, jobs, 0, 0, 0)
    case EmptyOne =>
      var p := slot.queue[0];
      Lowered(Last(refs, p), p, EmptyFreeing(k, p), pc, slot.(queue := slot.queue[1..]), jobs)
    case Emptied => Change(Cleaning(k, 0), slot, jobs, 0, 0, 0)
    case CleanOne =>
      var p := slot.batch[pc.i];
      Lowered(Last(refs, p), p, CleanFreeing(k, pc.i + 1, p), Cleaning(k, pc.i + 1), slot.(given := pc.i + 1), jobs)
    case Vacate => Change(Idle, slot.(batch := [], given := 0, phase := Vacant), jobs, 0, 0, 0)
    case Accept => Change(Accepting(k), slot.(phase := Opening), jobs, 0, 0, 0)
    case AcceptOne =>
      var p := slot.queue[0];
      Lowered(Last(refs, p), p, AcceptFreeing(k, p), pc, slot.(queue := slot.queue[1..]), jobs)
    case Open => Change(Idle, slot.(phase := Live, sendFlag := 0, broken := false), jobs, 0, 0, 0)
  }

  /** The thread counts in the session's IOcount. */
  function Uses(pc: Pc, k: nat): nat {
    match pc
    case Sharing(_, j, _) => if j == k then 1 else 0
    case Queueing(_, j, _) => if j == k then 1 else 0
    case Asking(_, j, _) => if j == k then 1 else 0
    case Trying(j) => if j == k then 1 else 0
    case _ => Sends(pc, k)
  }

  /** The thread won the session's send flag and has not given it up. */
  function Sends(pc: Pc, k: nat): nat {
    match pc
    case Filling(j) => if j == k then 1 else 0
    case Ready(j) => if j == k then 1 else 0
    case Dropping(j, _) => if j == k then 1 else 0
    case DropFreeing(j, _, _) => if j == k then 1 else 0
    case Cleared(j) => if j == k then 1 else 0
    case _ => 0
  }

  /** The thread releases the session or opens it again. */
  function Tends(pc: Pc, k: nat): nat {
    match pc
    case Emptying(j) => if j == k then 1 else 0
    case EmptyFreeing(j, _) => if j == k then 1 else 0
    case Cleaning(j, _) => if j == k then 1 else 0
    case CleanFreeing(j, _, _) => if j == k then 1 else 0
    case Accepting(j) => if j == k then 1 else 0
    case AcceptFreeing(j, _) => if j == k then 1 else 0
    case _ => 0
  }

  function UsesAt(k: nat): Pc -> nat { pc => Uses(pc, k) }
  function SendsAt(k: nat): Pc -> nat { pc => Sends(pc, k) }
  function TendsAt(k: nat): Pc -> nat { pc => Tends(pc, k) }

  /** `ReadCount` is the read of IOcount that finds 0. */
  predicate Enabled(s: State, a: Action) {
    && a.thread < |s.threads|
    && match a
       case Create(t, _) => s.threads[t].Idle?
       case Step(t, k, what) =>
         && k < |s.slots| && CanMove(s.threads[t], k, s.slots[k], s.jobs, what)
         && (what.ReadCount? ==> Sum(s.threads, UsesAt(k)) == 0)
  }

  /** Nobody uses the session. */
  predicate Unused(slot: Slot, uses: nat) { uses == 0 && !slot.outstanding && slot.requests == 0 }

  /** The release flag is taken only while the count is still what was read. */
  predicate Fresh(s: State, a: Action) {
    a.Step? && a.slot < |s.slots| && Claims(s.slots[a.slot], a.what) ==>
      Unused(s.slots[a.slot], Sum(s.threads, UsesAt(a.slot)))
  }

  function Added(s: seq<int>, i: nat, d: int): seq<int> { if i < |s| then s[i := s[i] + d] else s }
  function AddedNat(s: seq<nat>, i: nat, d: nat): seq<nat> { if i < |s| then s[i := s[i] + d] else s }

  function Made(s: State, t: nat, k: nat, what: What): Change
    requires Enabled(s, Step(t, k, what))
  {
    Move(s.threads[t], k, s.slots[k], s.jobs, s.refs, what)
  }

  function After(s: State, a: Action): State
    requires Enabled(s, a)
  {
    match a
    case Create(t, plan) =>
      s.(threads := s.threads[t := Making(|s.refs|, plan)], refs := s.refs + [0], frees := s.frees + [0])
    case Step(t, k, what) =>
      var c := Made(s, t, k, what);
      State(s.slots[k := c.slot], c.jobs, s.threads[t := c.pc], Added(s.refs, c.target, c.ref),
            AddedNat(s.frees, c.target, c.free))
  }

  // ---------- Who refers to a packet ----------

  function Occurrences(s: seq<nat>, p: nat): nat {
    if s == [] then 0 else (if s[0] == p then 1 else 0) + Occurrences(s[1..], p)
  }

  /** References a thread answers for. */
  function Own(pc: Pc, p: nat): nat {
    match pc
    case Arrived(q) => if q == p then 1 else 0
    case Delivering(q) => if q == p then 2 else 0
    case Owning(q, _) => if q == p then 1 else 0
    case Sharing(q, _, _) => if q == p then 1 else 0
    case Queueing(q, _, _) => if q == p then 2 else 0
    case Asking(q, _, _) => if q == p then 1 else 0
    case _ => 0
  }

  /** The thread alone knows the packet, which has no reference yet or no longer. */
  function Alone(pc: Pc, p: nat): nat {
    match pc
    case Making(q, _) => if q == p then 1 else 0
    case Freeing(q) => if q == p then 1 else 0
    case DropFreeing(_, _, q) => if q == p then 1 else 0
    case EmptyFreeing(_, q) => if q == p then 1 else 0
    case CleanFreeing(_, _, q) => if q == p then 1 else 0
    case AcceptFreeing(_, q) => if q == p then 1 else 0
    case _ => 0
  }

  /** References a session answers for: its queue, and the part of the batch not given up. */
  function Held(slot: Slot, p: nat): nat {
    Occurrences(slot.queue, p) + (if slot.given <= |slot.batch| then Occurrences(slot.batch[slot.given..], p) else 0)
  }

  function OwnOf(p: nat): Pc -> nat { pc => Own(pc, p) }
  function AloneWith(p: nat): Pc -> nat { pc => Alone(pc, p) }
  function HeldOf(p: nat): Slot -> nat { slot => Held(slot, p) }

  function Holders(s: State, p: nat): nat {
    Sum(s.threads, OwnOf(p)) + Sum(s.slots, HeldOf(p)) + Occurrences(s.jobs, p)
  }

  // ---------- The invariant ----------

  function RefOf(s: State, p: nat): int { if p < |s.refs| then s.refs[p] else 0 }
  function FreesOf(s: State, p: nat): nat { if p < |s.frees| then s.frees[p] else 0 }

  ghost predicate Counted(s: State) { forall p: nat :: RefOf(s, p) == Holders(s, p) }

  /** A packet without references is in one thread's hands alone, or has been freed once. */
  ghost predicate Settled(s: State) {
    forall p: nat ::
      Sum(s.threads, AloneWith(p)) + FreesOf(s, p) == if p < |s.refs| && s.refs[p] == 0 then 1 else 0
  }

  /** `uses`, `sends`, `tends`: how many threads do so here. */
  predicate SlotOk(slot: Slot, uses: nat, sends: nat, tends: nat) {
    && slot.given <= |slot.batch|
    && (slot.phase.Live? ==>
          && tends == 0 && slot.sendFlag <= 1
          && slot.sendFlag == sends + (if slot.outstanding then 1 else 0) + (if slot.broken then 1 else 0)
          && (sends == 0 ==> slot.given == 0 && (slot.sendFlag == 0 ==> slot.batch == [])))
    && (!slot.phase.Live? ==>
          && uses == 0 && sends == 0 && !slot.outstanding && slot.requests == 0
          && tends == if slot.phase.Vacant? then 0 else 1)
    && (slot.phase.Vacant? || slot.phase.Opening? ==> slot.batch == [])
  }

  ghost predicate SlotsOk(s: State) {
    forall k | 0 <= k < |s.slots| ::
      SlotOk(s.slots[k], Sum(s.threads, UsesAt(k)), Sum(s.threads, SendsAt(k)), Sum(s.threads, TendsAt(k)))
  }

  predicate PcOk(slot: Slot, pc: Pc) {
    match pc
    case Filling(_) => slot.given == 0
    case Ready(_) => slot.given == 0
    case Dropping(_, i) => slot.given == i
    case DropFreeing(_, i, _) => slot.given == i
    case Cleared(_) => slot.batch == []
    case Emptying(_) => slot.phase.Releasing? && slot.given == 0
    case EmptyFreeing(_, _) => slot.phase.Releasing? && slot.given == 0
    case Cleaning(_, i) => slot.phase.Releasing? && slot.given == i
    case CleanFreeing(_, i, _) => slot.phase.Releasing? && slot.given == i
    case Accepting(_) => slot.phase.Opening?
    case AcceptFreeing(_, _) => slot.phase.Opening?
    case _ => true
  }

  ghost predicate PcsOk(s: State) {
    forall t, k | 0 <= t < |s.threads| && 0 <= k < |s.slots| && Busy(s.threads[t], k) == 1 ::
      PcOk(s.slots[k], s.threads[t])
  }

  function Busy(pc: Pc, k: nat): nat { Sends(pc, k) + Tends(pc, k) }

  ghost predicate Inv(s: State) {
    |s.frees| == |s.refs| && Counted(s) && Settled(s) && SlotsOk(s) && PcsOk(s)
  }

  // ---------- What a single step balances ----------

  lemma {:induction false} OccurrencesJoin(a: seq<nat>, b: seq<nat>, p: nat)
    ensures Occurrences(a + b, p) == Occurrences(a, p) + Occurrences(b, p)
  {
    if a == [] {
      assert a + b == b;
    } else {
      assert (a + b)[1..] == a[1..] + b;
      OccurrencesJoin(a[1..], b, p);
    }
  }

  function Stake(pc: Pc, slot: Slot, jobs: seq<nat>, p: nat): nat {
    Own(pc, p) + Held(slot, p) + Occurrences(jobs, p)
  }

  lemma TakingOne(slot: Slot, p: nat)
    requires slot.queue != [] && slot.given == 0
    ensures Held(slot.(queue := slot.queue[1..], batch := slot.batch + [slot.queue[0]]), p) == Held(slot, p)
  {
    var batch := slot.batch + [slot.queue[0]];
    assert batch[0..] == batch && slot.batch[0..] == slot.batch;
    OccurrencesJoin(slot.batch, [slot.queue[0]], p);
  }

  lemma DroppingOne(slot: Slot, p: nat)
    requires slot.given < |slot.batch|
    ensures Held(slot.(given := slot.given + 1), p) + (if slot.batch[slot.given] == p then 1 else 0) == Held(slot, p)
  {
    assert slot.batch[slot.given..] == [slot.batch[slot.given]] + slot.batch[slot.given + 1..];
  }

  /** What the thread, its session and the job queue answer for changes by what the packet's
      count changes by. */
  ghost predicate Balances(pc: Pc, slot: Slot, jobs: seq<nat>, c: Change, p: nat) {
    Stake(c.pc, c.slot, c.jobs, p) == Stake(pc, slot, jobs, p) + (if p == c.target then c.ref else 0)
  }

  predicate OnBatch(what: What) { what.Take? || what.DropOne? || what.Finish? || what.CleanOne? || what.Vacate? }

  lemma BatchBalanced(pc: Pc, k: nat, slot: Slot, jobs: seq<nat>, refs: seq<int>, what: What, p: nat)
    requires CanMove(pc, k, slot, jobs, what) && OnBatch(what) && slot.given <= |slot.batch|
    requires Busy(pc, k) == 1 && PcOk(slot, pc)
    ensures Balances(pc, slot, jobs, Move(pc, k, slot, jobs, refs, what), p)
  {
    match what
    case Take => TakingOne(slot, p);
    case DropOne => DroppingOne(slot, p);
    case CleanOne => DroppingOne(slot, p);
    case _ =>
  }

  predicate OnQueues(what: What) {
    what.Enqueue? || what.EnqueueJob? || what.TakeJob? || what.EmptyOne? || what.AcceptOne?
  }

  lemma QueuesBalanced(pc: Pc, k: nat, slot: Slot, jobs: seq<nat>, refs: seq<int>, what: What, p: nat)
    requires CanMove(pc, k, slot, jobs, what) && OnQueues(what) && slot.given <= |slot.batch|
    ensures Balances(pc, slot, jobs, Move(pc, k, slot, jobs, refs, what), p)
  {
    match what
    case Enqueue => OccurrencesJoin(slot.queue, [pc.p], p);
    case EnqueueJob => OccurrencesJoin(jobs, [pc.p], p);
    case _ =>
  }

  lemma Balanced(pc: Pc, k: nat, slot: Slot, jobs: seq<nat>, refs: seq<int>, what: What, p: nat)
    requires CanMove(pc, k, slot, jobs, what) && slot.given <= |slot.batch| && (Busy(pc, k) == 1 ==> PcOk(slot, pc))
    ensures Balances(pc, slot, jobs, Move(pc, k, slot, jobs, refs, what), p)
  {
    if OnBatch(what) {
      hide Move, PcOk, Balances;
      BatchBalanced(pc, k, slot, jobs, refs, what, p);
    } else if OnQueues(what) {
      hide Move, PcOk, Balances;
      QueuesBalanced(pc, k, slot, jobs, refs, what, p);
    } else {
      hide PcOk, Occurrences;
    }
  }

  /** subRef, addRef and mFree happen to a packet that this thread, its session or the job
      queue answers for, or that is in this thread's hands alone. */
  lemma Entitled(pc: Pc, k: nat, slot: Slot, jobs: seq<nat>, refs: seq<int>, what: What)
    requires CanMove(pc, k, slot, jobs, what) && slot.given <= |slot.batch| && (Busy(pc, k) == 1 ==> PcOk(slot, pc))
    ensures var c := Move(pc, k, slot, jobs, refs, what);
            && (c.ref != 0 && !what.Adopt? ==> Stake(pc, slot, jobs, c.target) > 0)
            && (what.Adopt? || c.free > 0 ==> Alone(pc, c.target) == 1)
  {
    match what
    case DropOne => DroppingOne(slot, slot.batch[pc.i]);
    case CleanOne => DroppingOne(slot, slot.batch[pc.i]);
    case _ =>
  }

  function Gone(refs: seq<int>, p: nat): nat { if p < |refs| && refs[p] == 0 then 1 else 0 }

  ghost predicate KeepsSettled(pc: Pc, refs: seq<int>, c: Change, p: nat) {
    Alone(c.pc, p) + (if p == c.target then c.free else 0) + Gone(refs, p)
    == Alone(pc, p) + Gone(Added(refs, c.target, c.ref), p)
  }

  /** The packet whose count changes is held, or being adopted; the one freed is in this thread's
      hands alone. */
  predicate Rightful(pc: Pc, refs: seq<int>, what: What, c: Change) {
    && (c.ref != 0 && !what.Adopt? ==> c.target < |refs| && refs[c.target] > 0)
    && (what.Adopt? || c.free > 0 ==> c.target < |refs| && refs[c.target] == 0 && Alone(pc, c.target) == 1)
  }

  predicate Lowers(what: What) {
    what.Drop? || what.DropOne? || what.EmptyOne? || what.CleanOne? || what.AcceptOne?
  }

  lemma LoweringSettles(pc: Pc, k: nat, slot: Slot, jobs: seq<nat>, refs: seq<int>, what: What, p: nat)
    requires CanMove(pc, k, slot, jobs, what) && Lowers(what)
    requires Rightful(pc, refs, what, Move(pc, k, slot, jobs, refs, what))
    ensures KeepsSettled(pc, refs, Move(pc, k, slot, jobs, refs, what), p)
  {
  }

  lemma OtherwiseSettles(pc: Pc, k: nat, slot: Slot, jobs: seq<nat>, refs: seq<int>, what: What, p: nat)
    requires CanMove(pc, k, slot, jobs, what) && !Lowers(what)
    requires Rightful(pc, refs, what, Move(pc, k, slot, jobs, refs, what))
    ensures KeepsSettled(pc, refs, Move(pc, k, slot, jobs, refs, what), p)
  {
  }

  /** A count leaves 0 only by adoption, and reaches it only by a drop whose thread then frees
      the packet. */
  lemma Settles(pc: Pc, k: nat, slot: Slot, jobs: seq<nat>, refs: seq<int>, what: What, p: nat)
    requires CanMove(pc, k, slot, jobs, what) && Rightful(pc, refs, what, Move(pc, k, slot, jobs, refs, what))
    ensures KeepsSettled(pc, refs, Move(pc, k, slot, jobs, refs, what), p)
  {
    hide CanMove, Move, Rightful, KeepsSettled;
    if Lowers(what) {
      LoweringSettles(pc, k, slot, jobs, refs, what, p);
    } else {
      OtherwiseSettles(pc, k, slot, jobs, refs, what, p);
    }
  }

  /** Between the change of a slot and of the numbers of threads concerned with it. */
  datatype Crowd = Crowd(uses: nat, sends: nat, tends: nat)

  predicate SlotFits(pc: Pc, k: nat, slot: Slot, what: What, n: Crowd) {
    && SlotOk(slot, n.uses, n.sends, n.tends) && n.sends <= n.uses
    && Uses(pc, k) <= n.uses && Sends(pc, k) <= n.sends && Tends(pc, k) <= n.tends
    && (Busy(pc, k) == 1 ==> PcOk(slot, pc))
    && (Claims(slot, what) ==> Unused(slot, n.uses))
  }

  predicate SlotFollows(pc: Pc, k: nat, slot: Slot, n: Crowd, c: Change)
    requires Uses(pc, k) <= n.uses && Sends(pc, k) <= n.sends && Tends(pc, k) <= n.tends
  {
    && SlotOk(c.slot, n.uses - Uses(pc, k) + Uses(c.pc, k), n.sends - Sends(pc, k) + Sends(c.pc, k),
              n.tends - Tends(pc, k) + Tends(c.pc, k))
    && (Busy(c.pc, k) == 1 ==> PcOk(c.slot, c.pc))
    && n.sends + n.tends <= 1
    && (Busy(pc, k) == 1 || n.sends + n.tends == 0
        || (c.slot.given == slot.given && c.slot.batch == slot.batch && c.slot.phase == slot.phase))
  }

  predicate Sending(pc: Pc, what: What) {
    what.Try? || what.Complete? || pc.Filling? || pc.Ready? || pc.Dropping? || pc.DropFreeing? || pc.Cleared?
  }

  predicate Empties(pc: Pc, what: What) { what.Swap? || pc.Emptying? || pc.EmptyFreeing? }
  predicate Cleans(pc: Pc, what: What) { pc.Cleaning? || pc.CleanFreeing? }
  predicate Opens(pc: Pc, what: What) { what.Accept? || pc.Accepting? || pc.AcceptFreeing? }

  ghost predicate SameElsewhere(pc: Pc, pc': Pc, j: nat) {
    Uses(pc', j) == Uses(pc, j) && Sends(pc', j) == Sends(pc, j) && Tends(pc', j) == Tends(pc, j)
  }

  lemma SenderElsewhere(pc: Pc, k: nat, slot: Slot, jobs: seq<nat>, refs: seq<int>, what: What, j: nat)
    requires CanMove(pc, k, slot, jobs, what) && j != k && Sending(pc, what)
    ensures SameElsewhere(pc, Move(pc, k, slot, jobs, refs, what).pc, j)
  {
  }

  lemma TenderElsewhere(pc: Pc, k: nat, slot: Slot, jobs: seq<nat>, refs: seq<int>, what: What, j: nat)
    requires CanMove(pc, k, slot, jobs, what) && j != k
    requires Empties(pc, what) || Cleans(pc, what) || Opens(pc, what)
    ensures SameElsewhere(pc, Move(pc, k, slot, jobs, refs, what).pc, j)
  {
  }

  lemma UserElsewhere(pc: Pc, k: nat, slot: Slot, jobs: seq<nat>, refs: seq<int>, what: What, j: nat)
    requires CanMove(pc, k, slot, jobs, what) && j != k && !Sending(pc, what)
    requires !Empties(pc, what) && !Cleans(pc, what) && !Opens(pc, what)
    ensures SameElsewhere(pc, Move(pc, k, slot, jobs, refs, what).pc, j)
  {
  }

  lemma Elsewhere(pc: Pc, k: nat, slot: Slot, jobs: seq<nat>, refs: seq<int>, what: What, j: nat)
    requires CanMove(pc, k, slot, jobs, what) && j != k
    ensures SameElsewhere(pc, Move(pc, k, slot, jobs, refs, what).pc, j)
  {
    hide CanMove, Move, SameElsewhere;
    if Sending(pc, what) {
      SenderElsewhere(pc, k, slot, jobs, refs, what, j);
    } else if Empties(pc, what) || Cleans(pc, what) || Opens(pc, what) {
      TenderElsewhere(pc, k, slot, jobs, refs, what, j);
    } else {
      UserElsewhere(pc, k, slot, jobs, refs, what, j);
    }
  }

  predicate Drops(pc: Pc) { pc.Dropping? || pc.DropFreeing? || pc.Cleared? }

  lemma FillerMoves(pc: Pc, k: nat, slot: Slot, jobs: seq<nat>, refs: seq<int>, what: What, n: Crowd)
    requires CanMove(pc, k, slot, jobs, what) && Sending(pc, what) && !Drops(pc) && SlotFits(pc, k, slot, what, n)
    ensures SlotFollows(pc, k, slot, n, Move(pc, k, slot, jobs, refs, what))
  {
  }

  lemma DropperMoves(pc: Pc, k: nat, slot: Slot, jobs: seq<nat>, refs: seq<int>, what: What, n: Crowd)
    requires CanMove(pc, k, slot, jobs, what) && Drops(pc) && SlotFits(pc, k, slot, what, n)
    ensures SlotFollows(pc, k, slot, n, Move(pc, k, slot, jobs, refs, what))
  {
  }

  lemma EmptierMoves(pc: Pc, k: nat, slot: Slot, jobs: seq<nat>, refs: seq<int>, what: What, n: Crowd)
    requires CanMove(pc, k, slot, jobs, what) && Empties(pc, what) && SlotFits(pc, k, slot, what, n)
    ensures SlotFollows(pc, k, slot, n, Move(pc, k, slot, jobs, refs, what))
  {
  }

  lemma CleanerMoves(pc: Pc, k: nat, slot: Slot, jobs: seq<nat>, refs: seq<int>, what: What, n: Crowd)
    requires CanMove(pc, k, slot, jobs, what) && Cleans(pc, what) && SlotFits(pc, k, slot, what, n)
    ensures SlotFollows(pc, k, slot, n, Move(pc, k, slot, jobs, refs, what))
  {
  }

  lemma AcceptMoves(pc: Pc, k: nat, slot: Slot, jobs: seq<nat>, refs: seq<int>, what: What, n: Crowd)
    requires CanMove(pc, k, slot, jobs, what) && Opens(pc, what) && SlotFits(pc, k, slot, what, n)
    ensures SlotFollows(pc, k, slot, n, Move(pc, k, slot, jobs, refs, what))
  {
  }

  lemma UserMoves(pc: Pc, k: nat, slot: Slot, jobs: seq<nat>, refs: seq<int>, what: What, n: Crowd)
    requires CanMove(pc, k, slot, jobs, what) && !Sending(pc, what)
    requires !Empties(pc, what) && !Cleans(pc, what) && !Opens(pc, what)
    requires SlotFits(pc, k, slot, what, n)
    ensures SlotFollows(pc, k, slot, n, Move(pc, k, slot, jobs, refs, what))
  {
  }

  lemma SlotMoves(pc: Pc, k: nat, slot: Slot, jobs: seq<nat>, refs: seq<int>, what: What, n: Crowd)
    requires CanMove(pc, k, slot, jobs, what) && SlotFits(pc, k, slot, what, n)
    ensures SlotFollows(pc, k, slot, n, Move(pc, k, slot, jobs, refs, what))
  {
    hide CanMove, Move, SlotFollows, SlotOk, PcOk, Claims;
    if Drops(pc) {
      DropperMoves(pc, k, slot, jobs, refs, what, n);
    } else if Sending(pc, what) {
      FillerMoves(pc, k, slot, jobs, refs, what, n);
    } else if Empties(pc, what) {
      EmptierMoves(pc, k, slot, jobs, refs, what, n);
    } else if Cleans(pc, what) {
      CleanerMoves(pc, k, slot, jobs, refs, what, n);
    } else if Opens(pc, what) {
      AcceptMoves(pc, k, slot, jobs, refs, what, n);
    } else {
      UserMoves(pc, k, slot, jobs, refs, what, n);
    }
  }

  // ---------- Every step keeps the invariant ----------

  lemma StakesAreHeld(s: State, t: nat, k: nat, p: nat)
    requires Counted(s) && t < |s.threads| && k < |s.slots|
    ensures Stake(s.threads[t], s.slots[k], s.jobs, p) <= RefOf(s, p)
  {
    SumBoundsEach(s.threads, t, OwnOf(p));
    SumBoundsEach(s.slots, k, HeldOf(p));
    assert RefOf(s, p) == Holders(s, p);
  }

  lemma AloneIsSettled(s: State, t: nat, p: nat)
    requires Settled(s) && t < |s.threads| && Alone(s.threads[t], p) == 1
    ensures p < |s.refs| && s.refs[p] == 0
  {
    SumBoundsEach(s.threads, t, AloneWith(p));
  }

  lemma SendsAreUses(threads: seq<Pc>, k: nat)
    ensures Sum(threads, SendsAt(k)) <= Sum(threads, UsesAt(k))
  {
    if threads != [] { SendsAreUses(threads[1..], k); }
  }

  lemma SlotFacts(s: State, t: nat, k: nat)
    requires SlotsOk(s) && PcsOk(s) && t < |s.threads| && k < |s.slots|
    ensures SlotOk(s.slots[k], Sum(s.threads, UsesAt(k)), Sum(s.threads, SendsAt(k)), Sum(s.threads, TendsAt(k)))
    ensures Uses(s.threads[t], k) <= Sum(s.threads, UsesAt(k)) && Sends(s.threads[t], k) <= Sum(s.threads, SendsAt(k))
    ensures Tends(s.threads[t], k) <= Sum(s.threads, TendsAt(k))
    ensures Sum(s.threads, SendsAt(k)) <= Sum(s.threads, UsesAt(k))
    ensures Busy(s.threads[t], k) == 1 ==> PcOk(s.slots[k], s.threads[t])
  {
    SumBoundsEach(s.threads, t, UsesAt(k));
    SumBoundsEach(s.threads, t, SendsAt(k));
    SumBoundsEach(s.threads, t, TendsAt(k));
    SendsAreUses(s.threads, k);
  }

  /** What a step must find in its thread and slot for the counts to stay exact; the invariant
      gives it, but it can outlive the invariant. */
  predicate InOrder(s: State, t: nat, k: nat) {
    && t < |s.threads| && k < |s.slots|
    && s.slots[k].given <= |s.slots[k].batch| && (Busy(s.threads[t], k) == 1 ==> PcOk(s.slots[k], s.threads[t]))
  }

  lemma InvMeansInOrder(s: State, t: nat, k: nat)
    requires Inv(s) && t < |s.threads| && k < |s.slots|
    ensures InOrder(s, t, k)
  {
    hide SlotOk, PcOk;
    SlotFacts(s, t, k);
    GivenFits(s, k);
  }

  /** The counts are exact, and no packet without references escapes. */
  ghost predicate Exact(s: State) { |s.frees| == |s.refs| && Counted(s) && Settled(s) }

  lemma StepIsEntitled(s: State, t: nat, k: nat, what: What)
    requires Counted(s) && Settled(s) && InOrder(s, t, k) && Enabled(s, Step(t, k, what))
    ensures Rightful(s.threads[t], s.refs, what, Made(s, t, k, what))
  {
    hide Move, PcOk;
    var c := Made(s, t, k, what);
    Entitled(s.threads[t], k, s.slots[k], s.jobs, s.refs, what);
    if c.ref != 0 && !what.Adopt? { StakesAreHeld(s, t, k, c.target); }
    if what.Adopt? || c.free > 0 { AloneIsSettled(s, t, c.target); }
  }

  lemma GivenFits(s: State, k: nat)
    requires SlotsOk(s) && k < |s.slots|
    ensures s.slots[k].given <= |s.slots[k].batch|
  {
  }

  lemma HoldersMove(s: State, t: nat, k: nat, c: Change, p: nat)
    requires t < |s.threads| && k < |s.slots|
    ensures var s' := s.(threads := s.threads[t := c.pc], slots := s.slots[k := c.slot], jobs := c.jobs);
            Holders(s', p) == Holders(s, p) - Stake(s.threads[t], s.slots[k], s.jobs, p)
                              + Stake(c.pc, c.slot, c.jobs, p)
  {
    hide Own, Held, Occurrences;
    SumUpdate(s.threads, t, c.pc, OwnOf(p));
    SumUpdate(s.slots, k, c.slot, HeldOf(p));
  }

  lemma StepCounted(s: State, t: nat, k: nat, what: What)
    requires Counted(s) && Settled(s) && InOrder(s, t, k) && Enabled(s, Step(t, k, what))
    ensures Counted(After(s, Step(t, k, what)))
  {
    hide Move, PcOk, Own, Held, Sum, Occurrences, Settled, Stake, CanMove;
    var c, s' := Made(s, t, k, what), After(s, Step(t, k, what));
    StepIsEntitled(s, t, k, what);
    assert c.ref != 0 ==> c.target < |s.refs|;
    forall p: nat ensures RefOf(s', p) == Holders(s', p) {
      Balanced(s.threads[t], k, s.slots[k], s.jobs, s.refs, what, p);
      HoldersMove(s, t, k, c, p);
      assert RefOf(s, p) == Holders(s, p);
    }
  }

  lemma StepSettled(s: State, t: nat, k: nat, what: What)
    requires Exact(s) && InOrder(s, t, k) && Enabled(s, Step(t, k, what))
    ensures Settled(After(s, Step(t, k, what)))
  {
    hide Move, PcOk, Own, Held, Alone, Sum, Counted, CanMove;
    var c, s' := Made(s, t, k, what), After(s, Step(t, k, what));
    StepIsEntitled(s, t, k, what);
    forall p: nat
      ensures Sum(s'.threads, AloneWith(p)) + FreesOf(s', p) == if p < |s'.refs| && s'.refs[p] == 0 then 1 else 0
    {
      Settles(s.threads[t], k, s.slots[k], s.jobs, s.refs, what, p);
      SumUpdate(s.threads, t, c.pc, AloneWith(p));
      assert Sum(s.threads, AloneWith(p)) + FreesOf(s, p) == Gone(s.refs, p);
    }
  }

  /** Any step in order keeps the counts exact, one that takes the release flag from under a
      user of the session included. */
  lemma StepIsExact(s: State, t: nat, k: nat, what: What)
    requires Exact(s) && InOrder(s, t, k) && Enabled(s, Step(t, k, what))
    ensures Exact(After(s, Step(t, k, what)))
  {
    hide Counted, Settled, InOrder, Move, CanMove;
    StepCounted(s, t, k, what);
    StepSettled(s, t, k, what);
  }

  lemma SumsMove(threads: seq<Pc>, t: nat, pc: Pc, k: nat)
    requires t < |threads|
    ensures Sum(threads[t := pc], UsesAt(k)) == Sum(threads, UsesAt(k)) - Uses(threads[t], k) + Uses(pc, k)
    ensures Sum(threads[t := pc], SendsAt(k)) == Sum(threads, SendsAt(k)) - Sends(threads[t], k) + Sends(pc, k)
    ensures Sum(threads[t := pc], TendsAt(k)) == Sum(threads, TendsAt(k)) - Tends(threads[t], k) + Tends(pc, k)
  {
    hide Uses, Sends, Tends;
    SumUpdate(threads, t, pc, UsesAt(k));
    SumUpdate(threads, t, pc, SendsAt(k));
    SumUpdate(threads, t, pc, TendsAt(k));
  }

  lemma StepSlots(s: State, t: nat, k: nat, what: What)
    requires Inv(s) && Enabled(s, Step(t, k, what)) && Fresh(s, Step(t, k, what))
    ensures SlotsOk(After(s, Step(t, k, what)))
  {
    hide Move, PcOk, SlotOk, Uses, Sends, Tends, Sum, Counted, Settled;
    var c, s' := Made(s, t, k, what), After(s, Step(t, k, what));
    SlotFacts(s, t, k);
    SlotMoves(s.threads[t], k, s.slots[k], s.jobs, s.refs, what,
              Crowd(Sum(s.threads, UsesAt(k)), Sum(s.threads, SendsAt(k)), Sum(s.threads, TendsAt(k))));
    forall j | 0 <= j < |s'.slots|
      ensures SlotOk(s'.slots[j], Sum(s'.threads, UsesAt(j)), Sum(s'.threads, SendsAt(j)), Sum(s'.threads, TendsAt(j)))
    {
      SumsMove(s.threads, t, c.pc, j);
      if j != k {
        Elsewhere(s.threads[t], k, s.slots[k], s.jobs, s.refs, what, j);
        SlotFacts(s, t, j);
      }
    }
  }

  /** Two threads are not busy with one slot. */
  lemma OneIsBusy(s: State, t: nat, u: nat, k: nat)
    requires t < |s.threads| && u < |s.threads| && t != u
    requires Sum(s.threads, SendsAt(k)) + Sum(s.threads, TendsAt(k)) <= 1
    ensures Busy(s.threads[t], k) + Busy(s.threads[u], k) <= 1
  {
    var i, j := if t < u then t else u, if t < u then u else t;
    SumBoundsTwo(s.threads, i, j, SendsAt(k));
    SumBoundsTwo(s.threads, i, j, TendsAt(k));
  }

  lemma SameForOthers(slot: Slot, slot': Slot, pc: Pc)
    requires slot'.given == slot.given && slot'.batch == slot.batch && slot'.phase == slot.phase && PcOk(slot, pc)
    ensures PcOk(slot', pc)
  {
  }

  lemma StepPcs(s: State, t: nat, k: nat, what: What)
    requires Inv(s) && Enabled(s, Step(t, k, what)) && Fresh(s, Step(t, k, what))
    ensures PcsOk(After(s, Step(t, k, what)))
  {
    hide Move, PcOk, SlotOk, Uses, Sends, Tends;
    var c, s' := Made(s, t, k, what), After(s, Step(t, k, what));
    SlotFacts(s, t, k);
    SlotMoves(s.threads[t], k, s.slots[k], s.jobs, s.refs, what,
              Crowd(Sum(s.threads, UsesAt(k)), Sum(s.threads, SendsAt(k)), Sum(s.threads, TendsAt(k))));
    forall u, j | 0 <= u < |s'.threads| && 0 <= j < |s'.slots| && Busy(s'.threads[u], j) == 1
      ensures PcOk(s'.slots[j], s'.threads[u])
    {
      if u == t {
        if j != k {
          Elsewhere(s.threads[t], k, s.slots[k], s.jobs, s.refs, what, j);
          OnlyItsOwn(s.threads[t], k, s.slots[k], s.jobs, s.refs, what, j);
        }
      } else if j == k {
        SlotFacts(s, u, k);
        OneIsBusy(s, t, u, k);
        if Busy(s.threads[t], k) != 1 { SameForOthers(s.slots[k], c.slot, s.threads[u]); }
      }
    }
  }

  /** A thread works on one slot at a time. */
  lemma OnlyItsOwn(pc: Pc, k: nat, slot: Slot, jobs: seq<nat>, refs: seq<int>, what: What, j: nat)
    requires CanMove(pc, k, slot, jobs, what) && j != k
    ensures Busy(Move(pc, k, slot, jobs, refs, what).pc, j) == 0
  {
  }

  lemma CreateCounted(s: State, t: nat, plan: Plan)
    requires Inv(s) && Enabled(s, Create(t, plan))
    ensures Counted(After(s, Create(t, plan))) && Settled(After(s, Create(t, plan)))
  {
    hide SlotsOk, PcsOk;
    var s', pc := After(s, Create(t, plan)), Making(|s.refs|, plan);
    forall p: nat ensures RefOf(s', p) == Holders(s', p) {
      assert RefOf(s, p) == Holders(s, p);
      SumUpdate(s.threads, t, pc, OwnOf(p));
    }
    forall p: nat
      ensures Sum(s'.threads, AloneWith(p)) + FreesOf(s', p) == if p < |s'.refs| && s'.refs[p] == 0 then 1 else 0
    {
      assert Sum(s.threads, AloneWith(p)) + FreesOf(s, p) == Gone(s.refs, p);
      SumUpdate(s.threads, t, pc, AloneWith(p));
    }
  }

  lemma CreateKeeps(s: State, t: nat, plan: Plan)
    requires Inv(s) && Enabled(s, Create(t, plan))
    ensures Inv(After(s, Create(t, plan)))
  {
    hide SlotOk, PcOk, Counted, Settled;
    CreateCounted(s, t, plan);
    var s', pc := After(s, Create(t, plan)), Making(|s.refs|, plan);
    forall k | 0 <= k < |s.slots|
      ensures SlotOk(s'.slots[k], Sum(s'.threads, UsesAt(k)), Sum(s'.threads, SendsAt(k)), Sum(s'.threads, TendsAt(k)))
    {
      SumsMove(s.threads, t, pc, k);
    }
  }

  /** Every step keeps the invariant, unless it takes the release flag while somebody uses the
      session. */
  lemma ActionKeeps(s: State, a: Action)
    requires Inv(s) && Enabled(s, a) && Fresh(s, a)
    ensures Inv(After(s, a))
  {
    hide Counted, Settled, SlotsOk, PcsOk, InOrder;
    match a
    case Create(t, plan) => CreateKeeps(s, t, plan);
    case Step(t, k, what) =>
      InvMeansInOrder(s, t, k);
      StepIsExact(s, t, k, what);
      StepSlots(s, t, k, what);
      StepPcs(s, t, k, what);
  }

  // ---------- Whole runs ----------

  datatype Run = Run(states: seq<State>, actions: seq<Action>)

  /** No packet exists, and every slot is vacant. */
  ghost predicate Start(s: State) {
    && s.jobs == [] && s.refs == [] && s.frees == []
    && (forall t | 0 <= t < |s.threads| :: s.threads[t] == Idle)
    && (forall k | 0 <= k < |s.slots| :: s.slots[k] == Slot(Vacant, 0, false, false, 0, [], [], 0))
  }

  ghost predicate StepOf(r: Run, i: nat) {
    && i + 1 < |r.states| && i < |r.actions|
    && Enabled(r.states[i], r.actions[i]) && r.states[i + 1] == After(r.states[i], r.actions[i])
  }

  /** Any interleaving. */
  ghost predicate Follows(r: Run) {
    |r.states| == |r.actions| + 1 && Start(r.states[0]) && forall i | 0 <= i < |r.actions| :: StepOf(r, i)
  }

  /** An interleaving in which nobody takes a reference between the two steps of a release. */
  ghost predicate Valid(r: Run) {
    Follows(r) && forall i | 0 <= i < |r.actions| :: Fresh(r.states[i], r.actions[i])
  }

  lemma StartInv(s: State)
    requires Start(s)
    ensures Inv(s)
  {
    forall p: nat ensures Sum(s.threads, OwnOf(p)) == Sum(s.threads, AloneWith(p)) == Sum(s.slots, HeldOf(p)) == 0 {
      SumOfZeros(s.threads, OwnOf(p));
      SumOfZeros(s.threads, AloneWith(p));
      SumOfZeros(s.slots, HeldOf(p));
    }
    forall k | 0 <= k < |s.slots|
      ensures Sum(s.threads, UsesAt(k)) == Sum(s.threads, SendsAt(k)) == Sum(s.threads, TendsAt(k)) == 0
    {
      SumOfZeros(s.threads, UsesAt(k));
      SumOfZeros(s.threads, SendsAt(k));
      SumOfZeros(s.threads, TendsAt(k));
    }
  }

  lemma {:induction false} RunInv(r: Run, i: nat)
    requires Valid(r) && i < |r.states|
    ensures Inv(r.states[i])
  {
    hide Inv, Start;
    if i == 0 {
      StartInv(r.states[0]);
    } else {
      RunInv(r, i - 1);
      assert StepOf(r, i - 1);
      ActionKeeps(r.states[i - 1], r.actions[i - 1]);
    }
  }

  // ---------- Main results ----------

  /** In every reachable state a packet's count is the number of references that creators,
      receivers, senders, session queues, batches in flight and the job queue answer for. */
  lemma CountIsExact(r: Run, i: nat, p: nat)
    requires Valid(r) && i < |r.states| && p < |r.states[i].refs|
    ensures r.states[i].refs[p] == Holders(r.states[i], p)
  {
    RunInv(r, i);
    assert RefOf(r.states[i], p) == Holders(r.states[i], p);
  }

  /** Freed, or in the hands of a thread that is about to free it or has only just made it. */
  ghost predicate Doomed(s: State, p: nat) {
    FreesOf(s, p) > 0 || exists t | 0 <= t < |s.threads| :: Alone(s.threads[t], p) == 1
  }

  /** A packet that has been freed, or is about to be, is referred to by nobody: no creator or
      receiver, no queue, no batch, no job. */
  lemma NeverFreedWhileHeld(r: Run, i: nat, p: nat)
    requires Valid(r) && i < |r.states| && p < |r.states[i].frees|
    requires Doomed(r.states[i], p)
    ensures var s := r.states[i];
            && (forall t | 0 <= t < |s.threads| :: Own(s.threads[t], p) == 0)
            && (forall k | 0 <= k < |s.slots| :: Held(s.slots[k], p) == 0)
            && p !in s.jobs
  {
    var s := r.states[i];
    RunInv(r, i);
    assert Sum(s.threads, AloneWith(p)) + FreesOf(s, p) == Gone(s.refs, p);
    if s.frees[p] == 0 {
      var t :| 0 <= t < |s.threads| && Alone(s.threads[t], p) == 1;
      AloneIsSettled(s, t, p);
    }
    assert RefOf(s, p) == Holders(s, p);
    forall t | 0 <= t < |s.threads| ensures Own(s.threads[t], p) == 0 { SumBoundsEach(s.threads, t, OwnOf(p)); }
    forall k | 0 <= k < |s.slots| ensures Held(s.slots[k], p) == 0 { SumBoundsEach(s.slots, k, HeldOf(p)); }
    if p in s.jobs { OccursIn(s.jobs, p); }
  }

  lemma {:induction false} OccursIn(s: seq<nat>, p: nat)
    ensures p in s <==> Occurrences(s, p) > 0
  {
    if s != [] { OccursIn(s[1..], p); }
  }

  /** A packet is freed at most once; and once it has been adopted, it has been freed exactly
      when nobody holds it and nobody is just freeing it: none leaks. */
  lemma FreedExactlyOnce(r: Run, i: nat, p: nat)
    requires Valid(r) && i < |r.states| && p < |r.states[i].frees|
    ensures var s := r.states[i];
            && s.frees[p] <= 1
            && (s.frees[p] == 1 <==> Holders(s, p) == 0 && Sum(s.threads, AloneWith(p)) == 0)
  {
    var s := r.states[i];
    RunInv(r, i);
    assert RefOf(s, p) == Holders(s, p);
    assert Sum(s.threads, AloneWith(p)) + FreesOf(s, p) == Gone(s.refs, p);
  }

  /** At most one thread sends for a session or tends it, and none uses a session that is being
      released, is vacant or is being opened. */
  lemma OneAtATime(r: Run, i: nat, t: nat, u: nat, k: nat)
    requires Valid(r) && i < |r.states| && t < |r.states[i].threads| && u < |r.states[i].threads| && t != u
    requires k < |r.states[i].slots| && Busy(r.states[i].threads[t], k) == 1
    ensures Busy(r.states[i].threads[u], k) == 0
    ensures Tends(r.states[i].threads[t], k) == 1 ==> Uses(r.states[i].threads[u], k) == 0
  {
    var s := r.states[i];
    RunInv(r, i);
    SlotFacts(s, t, k);
    SlotFacts(s, u, k);
    OneIsBusy(s, t, u, k);
  }
}
