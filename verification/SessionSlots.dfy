/** The session slots of CNetServer as a transition system: reference count, release flag
    taken by compare-and-swap, slot reuse under generation-tagged ids, and the path that
    backs out of a release that hit a reincarnated slot.  One action per shared access, one
    accept thread, any number of other threads.

    `started`, `issued` and `cleaned` are bookkeeping that no step reads. */
module SessionSlots {
  const MAX_SESSION: nat := 30000
  const ID_STRIDE: nat := 0x1_0000

  /** `AllocNum << 16 | index` */
  function MakeId(serial: nat, index: nat): int { serial * ID_STRIDE + index }

  /** `(short)SessionID` */
  function IndexOf(id: int): int {
    var low := id % ID_STRIDE;
    if low < 0x8000 then low else low - ID_STRIDE
  }

  /** What the completion port holds for the slot is counted in the last four real fields. */
  datatype Slot = Slot(
    id: int, valid: bool, released: bool, count: int,
    receives: nat, sends: nat, sendRequests: nat, releaseRequests: nat,
    started: bool)

  datatype Io = Receive | Send

  datatype Pc =
    | Idle
    // findSession and its callers
    | FindEnter(id: int)
    | FindFlag(id: int)
    | FindMatch(id: int)
    | Using(id: int)
    | Requesting(id: int)
    | DropRef(id: int)
    | PostRelease(id: int)
    | DropAndRelease(id: int)
    // a worker inside a completion
    | Working(slot: nat)
    | Posting(slot: nat, io: Io)
    | ReadId(slot: nat)
    // releaseSession
    | ReleaseCheck(id: int)
    | ReleaseRead(id: int)
    | ReleaseSwap(id: int, seen: int)
    | Claimed(id: int)
    | Compared(id: int, current: int)
    | BackEnter(id: int, current: int)
    | BackClear(id: int, current: int)
    | BackDrop(id: int, current: int)
    | CleanStart(id: int)
    | CleanRest(id: int)

  /** Where AcceptThread stands with the slot it took from the stack of empty indices. */
  datatype Accept =
    | Waiting
    | Popped(slot: nat)
    | Named(slot: nat)
    | Counted(slot: nat)
    | Validated(slot: nat)
    | Opened(slot: nat)

  datatype State = State(
    slots: seq<Slot>, threads: seq<Pc>, accept: Accept, empty: seq<nat>, serial: nat,
    issued: set<int>, cleaned: set<int>)

  /** The choices left to the environment: what a caller does with a found session, what a
      worker does inside a completion, and whether a post succeeds. */
  datatype Choice = Finish | FinishHere | SendRequest | PostIo(io: Io) | Succeed | Fail

  datatype Completion = IoDone(io: Io) | SendRequested | ReleaseRequested

  datatype Action =
    | Find(thread: nat, id: int)
    | Dequeue(thread: nat, slot: nat, what: Completion)
    | Step(thread: nat, choice: Choice)
    | AcceptStep(choice: Choice)

  // ---------- The steps ----------

  predicate InRange(s: State, id: int) { 0 <= IndexOf(id) < |s.slots| }

  function Where(pc: Pc): int {
    match pc
    case Idle => -1
    case Working(k) => k
    case Posting(k, _) => k
    case ReadId(k) => k
    case _ => IndexOf(pc.id)
  }

  function FlagValue(released: bool): int { if released then -1 else 0 }

  function Taken(slot: Slot): Slot { slot.(count := slot.count + 1) }
  function Dropped(slot: Slot): Slot { slot.(count := slot.count - 1) }

  /** The slot after thread position `pc` takes its step. */
  function NextSlot(slot: Slot, pc: Pc, choice: Choice): Slot {
    match pc
    case FindEnter(_) => Taken(slot)
    case Using(_) => if choice == SendRequest then Taken(slot) else slot
    case Requesting(_) =>
      if choice == Fail then
        Dropped(slot).(releaseRequests := slot.releaseRequests + if slot.count == 1 then 1 else 0)
      else slot.(sendRequests := slot.sendRequests + 1)
    case DropRef(_) => Dropped(slot)
    case PostRelease(_) => if choice == Fail then slot else slot.(releaseRequests := slot.releaseRequests + 1)
    case DropAndRelease(_) => Dropped(slot)
    case Working(_) => if choice.PostIo? then Taken(slot) else Dropped(slot)
    case Posting(_, io) =>
      if choice == Fail then Dropped(slot)
      else if io == Receive then slot.(receives := slot.receives + 1)
      else slot.(sends := slot.sends + 1)
    case ReleaseSwap(_, seen) => if FlagValue(slot.released) == seen then slot.(released := true) else slot
    case BackEnter(_, _) => Taken(slot)
    case BackClear(_, _) => slot.(released := false)
    case BackDrop(_, _) => Dropped(slot)
    case CleanStart(_) => slot.(valid := false)
    case _ => slot
  }

  /** The thread's next position, having seen `slot` before its step; `inRange` is the index
      guard at the head of releaseSession. */
  function NextPc(slot: Slot, pc: Pc, choice: Choice, inRange: bool): Pc {
    match pc
    case Idle => Idle
    case FindEnter(id) => FindFlag(id)
    case FindFlag(id) => if slot.released then DropRef(id) else FindMatch(id)
    case FindMatch(id) => if id == slot.id then Using(id) else DropRef(id)
    case Using(id) =>
      if choice == SendRequest then Requesting(id) else if choice == FinishHere then DropAndRelease(id) else DropRef(id)
    case Requesting(id) => DropRef(id)
    case DropRef(id) => if slot.count == 1 then PostRelease(id) else Idle
    case PostRelease(_) => Idle
    case DropAndRelease(id) => if slot.count == 1 then ReleaseCheck(id) else Idle
    case Working(k) => if choice.PostIo? then Posting(k, choice.io) else if slot.count == 1 then ReadId(k) else Idle
    case Posting(k, _) => Working(k)
    case ReadId(_) => if inRange then ReleaseCheck(slot.id) else Idle
    case ReleaseCheck(id) => if slot.valid then ReleaseRead(id) else Idle
    case ReleaseRead(id) => ReleaseSwap(id, slot.count)
    case ReleaseSwap(id, seen) => if FlagValue(slot.released) == seen then Claimed(id) else Idle
    case Claimed(id) => Compared(id, slot.id)
    case Compared(id, current) => if id != slot.id then BackEnter(id, current) else CleanStart(id)
    case BackEnter(id, current) => BackClear(id, current)
    case BackClear(id, current) => BackDrop(id, current)
    case BackDrop(_, current) => if slot.count == 1 && inRange then ReleaseCheck(current) else Idle
    case CleanStart(id) => CleanRest(id)
    case CleanRest(_) => Idle
  }

  predicate Waits(slot: Slot, what: Completion) {
    match what
    case IoDone(Receive) => slot.receives > 0
    case IoDone(Send) => slot.sends > 0
    case SendRequested => slot.sendRequests > 0
    case ReleaseRequested => slot.releaseRequests > 0
  }

  predicate Enabled(s: State, a: Action) {
    match a
    case Find(t, _) => t < |s.threads| && s.threads[t].Idle?
    case Dequeue(t, k, what) =>
      t < |s.threads| && s.threads[t].Idle? && k < |s.slots| && Waits(s.slots[k], what)
    case Step(t, _) => t < |s.threads| && 0 <= Where(s.threads[t]) < |s.slots|
    case AcceptStep(_) =>
      if s.accept.Waiting? then s.empty != [] && s.empty[0] < |s.slots| else s.accept.slot < |s.slots|
  }

  function Put(s: State, k: nat, slot: Slot, t: nat, pc: Pc): State
    requires k < |s.slots| && t < |s.threads|
  {
    s.(slots := s.slots[k := slot], threads := s.threads[t := pc])
  }

  function AfterStep(s: State, t: nat, choice: Choice): State
    requires Enabled(s, Step(t, choice))
  {
    var pc := s.threads[t];
    var k := Where(pc);
    var slot := s.slots[k];
    var target := if pc.BackDrop? then pc.current else slot.id;
    var pc' := NextPc(slot, pc, choice, InRange(s, target));
    Put(s, k, NextSlot(slot, pc, choice), t, pc')
      .(empty := if pc.CleanRest? then [k] + s.empty else s.empty,
        cleaned := if pc'.CleanStart? then s.cleaned + {pc'.id} else s.cleaned)
  }

  function AfterDequeue(s: State, t: nat, k: nat, what: Completion): State
    requires Enabled(s, Dequeue(t, k, what))
  {
    var slot := s.slots[k];
    match what
    case IoDone(Receive) => Put(s, k, slot.(receives := slot.receives - 1), t, Working(k))
    case IoDone(Send) => Put(s, k, slot.(sends := slot.sends - 1), t, Working(k))
    case SendRequested => Put(s, k, slot.(sendRequests := slot.sendRequests - 1), t, Working(k))
    case ReleaseRequested => Put(s, k, slot.(releaseRequests := slot.releaseRequests - 1), t, ReadId(k))
  }

  function AfterAccept(s: State, choice: Choice): State
    requires Enabled(s, AcceptStep(choice))
  {
    match s.accept
    case Waiting => s.(accept := Popped(s.empty[0]), empty := s.empty[1..])
    case Popped(k) =>
      var id := MakeId(s.serial, k);
      s.(slots := s.slots[k := s.slots[k].(id := id)], serial := s.serial + 1, accept := Named(k),
         issued := s.issued + {id})
    case Named(k) => s.(slots := s.slots[k := Taken(s.slots[k])], accept := Counted(k))
    case Counted(k) => s.(slots := s.slots[k := s.slots[k].(valid := true)], accept := Validated(k))
    case Validated(k) => s.(slots := s.slots[k := s.slots[k].(released := false, started := true)], accept := Opened(k))
    case Opened(k) =>
      var slot := s.slots[k];
      var slot' :=
        if choice == Fail then Dropped(slot)
        else slot.(receives := slot.receives + 1);
      s.(slots := s.slots[k := slot'], accept := Waiting)
  }

  function After(s: State, a: Action): State
    requires Enabled(s, a)
  {
    match a
    case Find(t, id) =>
      if InRange(s, id) && s.slots[IndexOf(id)].valid then s.(threads := s.threads[t := FindEnter(id)]) else s
    case Dequeue(t, k, what) => AfterDequeue(s, t, k, what)
    case Step(t, choice) => AfterStep(s, t, choice)
    case AcceptStep(choice) => AfterAccept(s, choice)
  }

  // ---------- What the threads hold of a slot ----------

  /** refs: references counted in IOcount.  duty: threads bound to attempt a release.
      claims: threads between winning the release flag and either cleaning or giving it
      back.  cleans: threads cleaning.  zeros: threads about to swap after reading a count of
      zero.  here: all threads concerned with the slot. */
  datatype Weights = Weights(refs: nat, duty: nat, claims: nat, cleans: nat, zeros: nat, here: nat)

  function Plus(a: Weights, b: Weights): Weights {
    Weights(a.refs + b.refs, a.duty + b.duty, a.claims + b.claims,
            a.cleans + b.cleans, a.zeros + b.zeros, a.here + b.here)
  }

  const NOTHING := Weights(0, 0, 0, 0, 0, 0)
  const PRESENT := Weights(0, 0, 0, 0, 0, 1)

  function Weigh(pc: Pc, k: nat): Weights { if Where(pc) == k then WeighHere(pc) else NOTHING }

  function WeighHere(pc: Pc): Weights {
    match pc
    case Idle => NOTHING
    case FindEnter(_) => PRESENT
    case FindFlag(_) => PRESENT.(refs := 1)
    case FindMatch(_) => PRESENT.(refs := 1)
    case Using(_) => PRESENT.(refs := 1)
    case Requesting(_) => PRESENT.(refs := 2)
    case DropRef(_) => PRESENT.(refs := 1)
    case PostRelease(_) => PRESENT.(duty := 1)
    case DropAndRelease(_) => PRESENT.(refs := 1)
    case Working(_) => PRESENT.(refs := 1)
    case Posting(_, _) => PRESENT.(refs := 2)
    case ReadId(_) => PRESENT.(duty := 1)
    case ReleaseCheck(_) => PRESENT.(duty := 1)
    case ReleaseRead(_) => PRESENT.(duty := 1)
    case ReleaseSwap(_, seen) => if seen == 0 then PRESENT.(duty := 1, zeros := 1) else PRESENT
    case Claimed(_) => PRESENT.(duty := 1, claims := 1)
    case Compared(_, _) => PRESENT.(duty := 1, claims := 1)
    case BackEnter(_, _) => PRESENT.(duty := 1, claims := 1)
    case BackClear(_, _) => PRESENT.(refs := 1, duty := 1, claims := 1)
    case BackDrop(_, _) => PRESENT.(refs := 1)
    case CleanStart(_) => PRESENT.(cleans := 1)
    case CleanRest(_) => PRESENT.(cleans := 1)
  }

  function Total(threads: seq<Pc>, k: nat): Weights {
    if threads == [] then NOTHING else Plus(Weigh(threads[0], k), Total(threads[1..], k))
  }

  lemma {:induction false} TotalUpdate(threads: seq<Pc>, t: nat, pc: Pc, k: nat)
    requires t < |threads|
    ensures Plus(Total(threads[t := pc], k), Weigh(threads[t], k)) == Plus(Total(threads, k), Weigh(pc, k))
  {
    hide Weigh;
    if t == 0 {
      assert threads[t := pc][1..] == threads[1..];
    } else {
      assert threads[t := pc][1..] == threads[1..][t - 1 := pc];
      TotalUpdate(threads[1..], t - 1, pc, k);
    }
  }

  predicate Within(a: Weights, b: Weights) {
    a.refs <= b.refs && a.duty <= b.duty && a.claims <= b.claims && a.cleans <= b.cleans && a.zeros <= b.zeros
    && a.here <= b.here
  }

  lemma {:induction false} TotalCoversEach(threads: seq<Pc>, t: nat, k: nat)
    requires t < |threads|
    ensures Within(Weigh(threads[t], k), Total(threads, k))
  {
    hide Weigh;
    if t > 0 { TotalCoversEach(threads[1..], t - 1, k); }
  }

  lemma {:induction false} TotalShape(threads: seq<Pc>, k: nat)
    ensures var w := Total(threads, k); w.duty >= w.claims + w.zeros
  {
    if threads != [] { TotalShape(threads[1..], k); }
  }

  lemma WeighIdle(k: nat)
    ensures Weigh(Idle, k) == NOTHING
  {
  }

  lemma {:induction false} TotalOfNone(threads: seq<Pc>, k: nat)
    requires forall t | 0 <= t < |threads| :: threads[t] == Idle
    ensures Total(threads, k) == NOTHING
  {
    hide Weigh;
    if threads != [] {
      WeighIdle(k);
      assert threads[0] == Idle;
      forall t | 0 <= t < |threads[1..]| ensures threads[1..][t] == Idle { assert threads[1..][t] == threads[t + 1]; }
      TotalOfNone(threads[1..], k);
    }
  }

  // ---------- The invariant of one slot ----------

  predicate Held(a: Accept, k: nat) { !a.Waiting? && a.slot == k }
  predicate PreOpen(a: Accept, k: nat) { Held(a, k) && !a.Opened? }
  predicate Fresh(a: Accept, k: nat) { Held(a, k) && !a.Popped? }
  function AcceptRef(a: Accept, k: nat): nat {
    if Held(a, k) && (a.Counted? || a.Validated? || a.Opened?) then 1 else 0
  }

  /** Between the flag being opened by accept and a thread starting to clean. */
  predicate Live(slot: Slot, w: Weights, free: bool, a: Accept, k: nat) {
    slot.started && !free && !PreOpen(a, k) && w.cleans == 0
  }

  /** The reference count is exactly the references that exist. */
  predicate Counts(slot: Slot, w: Weights, a: Accept, k: nat) {
    slot.count == slot.receives + slot.sends + slot.sendRequests + w.refs + AcceptRef(a, k)
  }

  /** Free, held by accept, live and being cleaned exclude one another. */
  predicate OnePlace(slot: Slot, w: Weights, free: bool, a: Accept, k: nat) {
    && w.cleans <= 1 && w.claims <= 1
    && (free ==> !Held(a, k) && w.cleans == 0)
    && (Held(a, k) ==> w.cleans == 0)
    && (w.claims == 1 ==> Live(slot, w, free, a, k))
    && (!slot.started ==> (free || PreOpen(a, k)) && w.cleans == 0 && w.zeros == 0)
  }

  predicate Flags(slot: Slot, w: Weights, free: bool, a: Accept, k: nat) {
    && (if Live(slot, w, free, a, k) then slot.released <==> w.claims == 1 else slot.released <==> slot.started)
    && (Live(slot, w, free, a, k) || a == Validated(k) ==> slot.valid)
    && (free || a == Popped(k) || a == Named(k) || a == Counted(k) ==> !slot.valid)
  }

  predicate Untouched(slot: Slot, w: Weights, a: Accept, k: nat) {
    !slot.started && a != Validated(k) ==>
      w.here == 0 && slot.receives == 0 && slot.sends == 0 && slot.sendRequests == 0 && slot.releaseRequests == 0
  }

  predicate Ids(slot: Slot, w: Weights, free: bool, a: Accept, k: nat, issued: set<int>, cleaned: set<int>) {
    && (slot.started || Fresh(a, k) ==> IndexOf(slot.id) == k && slot.id in issued)
    && (Fresh(a, k) || Live(slot, w, free, a, k) ==> slot.id !in cleaned)
  }

  /** A live slot nobody refers to has somebody bound to release it. */
  predicate Covered(slot: Slot, w: Weights, free: bool, a: Accept, k: nat) {
    Live(slot, w, free, a, k) && slot.count == 0 ==> w.duty + slot.releaseRequests > 0
  }

  predicate SlotOk(slot: Slot, w: Weights, free: bool, a: Accept, k: nat, issued: set<int>, cleaned: set<int>) {
    && Counts(slot, w, a, k)
    && OnePlace(slot, w, free, a, k)
    && Flags(slot, w, free, a, k)
    && Untouched(slot, w, a, k)
    && Ids(slot, w, free, a, k, issued, cleaned)
  }

  ghost predicate SlotAt(s: State, k: nat)
    requires k < |s.slots|
  {
    SlotOk(s.slots[k], Total(s.threads, k), k in s.empty, s.accept, k, s.issued, s.cleaned)
  }

  ghost predicate CoveredAt(s: State, k: nat)
    requires k < |s.slots|
  {
    Covered(s.slots[k], Total(s.threads, k), k in s.empty, s.accept, k)
  }

  // ---------- The invariant of threads and ids ----------

  /** What a thread position says about the slot it concerns. */
  predicate PcOk(slot: Slot, pc: Pc, a: Accept, issued: set<int>) {
    var k := Where(pc);
    k >= 0 && match pc
    case Using(id) => id in issued
    case Requesting(id) => id in issued
    case DropAndRelease(id) => id in issued
    case ReleaseCheck(id) => id in issued
    case ReleaseRead(id) => id in issued && (id == slot.id ==> a != Named(k))
    case ReleaseSwap(id, seen) => id in issued && seen >= 0 && (seen == 0 && id == slot.id ==> !Fresh(a, k))
    case Claimed(id) => id in issued && (id == slot.id ==> !Held(a, k))
    case Compared(id, current) => id in issued && current == slot.id && (id == slot.id ==> !Held(a, k))
    case BackEnter(id, current) => current == slot.id
    case BackClear(id, current) => current == slot.id
    case BackDrop(id, current) => current in issued && IndexOf(current) == k
    case CleanStart(id) => id == slot.id
    case CleanRest(id) => id == slot.id && !slot.valid
    case _ => true
  }

  ghost predicate PcAt(s: State, t: nat)
    requires t < |s.threads|
  {
    s.threads[t].Idle?
    || (0 <= Where(s.threads[t]) < |s.slots|
        && PcOk(s.slots[Where(s.threads[t])], s.threads[t], s.accept, s.issued))
  }

  predicate Distinct(xs: seq<nat>) { forall i, j | 0 <= i < j < |xs| :: xs[i] != xs[j] }

  ghost predicate Global(s: State) {
    && |s.slots| <= MAX_SESSION
    && Distinct(s.empty)
    && (forall k | k in s.empty :: k < |s.slots|)
    && (!s.accept.Waiting? ==> s.accept.slot < |s.slots|)
    && (forall id | id in s.issued :: 0 <= id < s.serial * ID_STRIDE)
    && s.cleaned <= s.issued
  }

  ghost predicate Inv(s: State) {
    && Global(s)
    && (forall k | 0 <= k < |s.slots| :: SlotAt(s, k))
    && (forall t | 0 <= t < |s.threads| :: PcAt(s, t))
  }

  // ---------- One step of a thread, seen from its own slot ----------

  /** The slot and the thread's place in it before and after one step of a thread at `pc`. */
  datatype Local = Local(slot: Slot, w: Weights, free: bool, cleaned: set<int>)

  ghost predicate LocalOk(l: Local, a: Accept, k: nat, issued: set<int>) {
    SlotOk(l.slot, l.w, l.free, a, k, issued, l.cleaned) && l.w.duty >= l.w.claims + l.w.zeros
  }

  predicate LocalCovered(l: Local, a: Accept, k: nat) { Covered(l.slot, l.w, l.free, a, k) }

  ghost predicate LocalStep(l: Local, l': Local, pc: Pc, choice: Choice, k: nat) {
    var pc' := NextPc(l.slot, pc, choice, true);
    && l'.slot == NextSlot(l.slot, pc, choice)
    && Plus(l'.w, Weigh(pc, k)) == Plus(l.w, Weigh(pc', k))
    && l'.free == (l.free || pc.CleanRest?)
    && l'.cleaned == (if pc'.CleanStart? then l.cleaned + {pc'.id} else l.cleaned)
  }

  /** releaseRequest ignores a failing post: if nobody else is bound to release the slot, it is lost. */
  predicate Unposted(slot: Slot, w: Weights, free: bool, a: Accept, k: nat, pc: Pc, choice: Choice) {
    && pc.PostRelease? && choice == Fail
    && Live(slot, w, free, a, k) && slot.count == 0 && w.duty + slot.releaseRequests == 1
  }

  predicate LocalLoses(l: Local, pc: Pc, choice: Choice, a: Accept, k: nat) {
    Unposted(l.slot, l.w, l.free, a, k, pc, choice)
  }

  predicate Finding(pc: Pc) {
    pc.FindEnter? || pc.FindFlag? || pc.FindMatch? || pc.Using? || pc.Requesting? || pc.DropRef? || pc.PostRelease?
    || pc.DropAndRelease?
  }
  predicate InWorker(pc: Pc) { pc.Working? || pc.Posting? || pc.ReadId? }
  predicate Releasing(pc: Pc) { pc.ReleaseCheck? || pc.ReleaseRead? || pc.ReleaseSwap? || pc.Claimed? || pc.Compared? }
  predicate Ending(pc: Pc) { pc.BackEnter? || pc.BackClear? || pc.BackDrop? || pc.CleanStart? || pc.CleanRest? }

  lemma FinderStep(l: Local, l': Local, pc: Pc, choice: Choice, a: Accept, k: nat, issued: set<int>)
    requires LocalOk(l, a, k, issued) && LocalStep(l, l', pc, choice, k) && Where(pc) == k && Finding(pc)
    requires Within(Weigh(pc, k), l.w) && PcOk(l.slot, pc, a, issued) && l'.w.duty >= l'.w.claims + l'.w.zeros
    ensures LocalOk(l', a, k, issued)
    ensures LocalCovered(l, a, k) && !LocalLoses(l, pc, choice, a, k) ==> LocalCovered(l', a, k)
    ensures var pc' := NextPc(l.slot, pc, choice, true); pc'.Idle? || (Where(pc') == k && PcOk(l'.slot, pc', a, issued))
  {
  }

  lemma WorkerStep(l: Local, l': Local, pc: Pc, choice: Choice, a: Accept, k: nat, issued: set<int>)
    requires LocalOk(l, a, k, issued) && LocalStep(l, l', pc, choice, k) && Where(pc) == k && InWorker(pc)
    requires Within(Weigh(pc, k), l.w) && PcOk(l.slot, pc, a, issued) && l'.w.duty >= l'.w.claims + l'.w.zeros
    ensures LocalOk(l', a, k, issued)
    ensures LocalCovered(l, a, k) ==> LocalCovered(l', a, k)
    ensures var pc' := NextPc(l.slot, pc, choice, true); pc'.Idle? || (Where(pc') == k && PcOk(l'.slot, pc', a, issued))
  {
  }

  lemma ReleaserStep(l: Local, l': Local, pc: Pc, choice: Choice, a: Accept, k: nat, issued: set<int>)
    requires LocalOk(l, a, k, issued) && LocalStep(l, l', pc, choice, k) && Where(pc) == k && Releasing(pc)
    requires Within(Weigh(pc, k), l.w) && PcOk(l.slot, pc, a, issued) && l'.w.duty >= l'.w.claims + l'.w.zeros
    ensures LocalOk(l', a, k, issued)
    ensures LocalCovered(l, a, k) ==> LocalCovered(l', a, k)
    ensures var pc' := NextPc(l.slot, pc, choice, true); pc'.Idle? || (Where(pc') == k && PcOk(l'.slot, pc', a, issued))
  {
  }

  lemma EndingStep(l: Local, l': Local, pc: Pc, choice: Choice, a: Accept, k: nat, issued: set<int>)
    requires LocalOk(l, a, k, issued) && LocalStep(l, l', pc, choice, k) && Where(pc) == k && Ending(pc)
    requires Within(Weigh(pc, k), l.w) && PcOk(l.slot, pc, a, issued) && l'.w.duty >= l'.w.claims + l'.w.zeros
    ensures LocalOk(l', a, k, issued)
    ensures LocalCovered(l, a, k) ==> LocalCovered(l', a, k)
    ensures var pc' := NextPc(l.slot, pc, choice, true); pc'.Idle? || (Where(pc') == k && PcOk(l'.slot, pc', a, issued))
  {
  }

  // ---------- The rest of the state during a thread's step ----------

  /** Thread `t` moved to `pc` and only slot `k` changed; its id did not. */
  ghost predicate ThreadStep(s: State, s': State, t: nat, pc: Pc, k: nat) {
    && k < |s.slots| && t < |s.threads|
    && (s.threads[t].Idle? || Where(s.threads[t]) == k) && (pc.Idle? || Where(pc) == k)
    && s'.threads == s.threads[t := pc]
    && |s'.slots| == |s.slots|
    && (forall j | 0 <= j < |s.slots| && j != k :: s'.slots[j] == s.slots[j])
    && s'.slots[k].id == s.slots[k].id && (s'.slots[k].valid ==> s.slots[k].valid)
    && s'.accept == s.accept && s'.issued == s.issued
    && (forall j: nat | j != k :: j in s'.empty <==> j in s.empty)
    && (forall id | id in s'.cleaned && id !in s.cleaned :: IndexOf(id) == k)
  }

  lemma MoreCleaned(slot: Slot, w: Weights, free: bool, a: Accept, j: nat, issued: set<int>, was: set<int>,
                    now: set<int>)
    requires SlotOk(slot, w, free, a, j, issued, was)
    requires IndexOf(slot.id) == j && slot.id in now ==> slot.id in was
    ensures SlotOk(slot, w, free, a, j, issued, now)
  {
    hide Counts, OnePlace, Flags, Untouched;
  }

  lemma SameTotal(threads: seq<Pc>, t: nat, pc: Pc, k: int, j: nat)
    requires t < |threads| && j != k
    requires (threads[t].Idle? || Where(threads[t]) == k) && (pc.Idle? || Where(pc) == k)
    ensures Total(threads[t := pc], j) == Total(threads, j)
  {
    TotalUpdate(threads, t, pc, j);
    assert Weigh(pc, j) == NOTHING && Weigh(threads[t], j) == NOTHING;
  }

  lemma OtherSlot(s: State, s': State, t: nat, pc: Pc, k: nat, j: nat)
    requires ThreadStep(s, s', t, pc, k) && j != k && j < |s.slots| && SlotAt(s, j)
    ensures SlotAt(s', j) && (CoveredAt(s, j) <==> CoveredAt(s', j))
  {
    hide SlotOk;
    SameTotal(s.threads, t, pc, k, j);
    MoreCleaned(s.slots[j], Total(s.threads, j), j in s.empty, s.accept, j, s.issued, s.cleaned, s'.cleaned);
  }

  /** The two steps whose failure nobody looks at, taken with nobody else bound to release the
      slot: accept's decrement to 0 when the first WSARecv fails, and a releaseRequest whose
      post fails. */
  predicate Loses(s: State, a: Action, k: nat) {
    && k < |s.slots|
    && ((a == AcceptStep(Fail) && s.accept == Opened(k) && s.slots[k].count == 1
         && Total(s.threads, k).duty + s.slots[k].releaseRequests == 0)
        || (a.Step? && a.thread < |s.threads| && Where(s.threads[a.thread]) == k
            && Unposted(s.slots[k], Total(s.threads, k), k in s.empty, s.accept, k, s.threads[a.thread], a.choice)))
  }

  /** Every slot that was covered still is, unless this is such a step. */
  ghost predicate KeepsCover(s: State, a: Action, s': State) {
    && |s'.slots| == |s.slots|
    && forall j | 0 <= j < |s.slots| && CoveredAt(s, j) && !Loses(s, a, j) :: CoveredAt(s', j)
  }

  lemma OtherThread(s: State, s': State, t: nat, pc: Pc, k: nat, u: nat)
    requires ThreadStep(s, s', t, pc, k) && u != t && u < |s.threads| && PcAt(s, u)
    ensures PcAt(s', u)
  {
  }

  lemma ThreadStepKeeps(s: State, a: Action, s': State, t: nat, pc: Pc, k: nat)
    requires Inv(s) && ThreadStep(s, s', t, pc, k) && Global(s') && SlotAt(s', k) && PcAt(s', t)
    requires CoveredAt(s, k) && !Loses(s, a, k) ==> CoveredAt(s', k)
    ensures Inv(s') && KeepsCover(s, a, s')
  {
    hide ThreadStep, SlotAt, PcAt, CoveredAt, Loses;
    Sizes(s, s', t, pc, k);
    forall j | 0 <= j < |s'.slots|
      ensures SlotAt(s', j) && (CoveredAt(s, j) && !Loses(s, a, j) ==> CoveredAt(s', j))
    {
      if j != k { OtherSlot(s, s', t, pc, k, j); }
    }
    forall u | 0 <= u < |s'.threads| ensures PcAt(s', u) {
      if u != t { OtherThread(s, s', t, pc, k, u); }
    }
  }

  lemma Sizes(s: State, s': State, t: nat, pc: Pc, k: nat)
    requires ThreadStep(s, s', t, pc, k)
    ensures |s'.slots| == |s.slots| && |s'.threads| == |s.threads| && k < |s.slots| && t < |s.threads|
  {
  }

  lemma SomeStep(l: Local, l': Local, pc: Pc, choice: Choice, a: Accept, k: nat, issued: set<int>)
    requires LocalOk(l, a, k, issued) && LocalStep(l, l', pc, choice, k) && Where(pc) == k && !pc.Idle?
    requires Within(Weigh(pc, k), l.w) && PcOk(l.slot, pc, a, issued) && l'.w.duty >= l'.w.claims + l'.w.zeros
    ensures LocalOk(l', a, k, issued)
    ensures LocalCovered(l, a, k) && !LocalLoses(l, pc, choice, a, k) ==> LocalCovered(l', a, k)
    ensures var pc' := NextPc(l.slot, pc, choice, true); pc'.Idle? || (Where(pc') == k && PcOk(l'.slot, pc', a, issued))
  {
    hide LocalOk, LocalStep, LocalCovered, LocalLoses, Within, PcOk, Weigh, NextPc;
    if Finding(pc) {
      FinderStep(l, l', pc, choice, a, k, issued);
    } else if InWorker(pc) {
      WorkerStep(l, l', pc, choice, a, k, issued);
    } else if Releasing(pc) {
      ReleaserStep(l, l', pc, choice, a, k, issued);
    } else {
      EndingStep(l, l', pc, choice, a, k, issued);
    }
  }

  function LocalOf(s: State, k: nat): Local
    requires k < |s.slots|
  {
    Local(s.slots[k], Total(s.threads, k), k in s.empty, s.cleaned)
  }

  /** Whoever reads an index from a session id finds the slot the id came from. */
  lemma IndexIsValid(s: State, t: nat, choice: Choice)
    requires Inv(s) && Enabled(s, Step(t, choice))
    ensures var pc := s.threads[t]; var slot := s.slots[Where(pc)];
            NextPc(slot, pc, choice, InRange(s, if pc.BackDrop? then pc.current else slot.id))
            == NextPc(slot, pc, choice, true)
  {
    var pc := s.threads[t];
    var k := Where(pc);
    if pc.ReadId? || pc.BackDrop? {
      hide Inv, SlotOk, PcOk, Weigh, Within, NextPc;
      SlotAndPc(s, t);
      IndexIsItsSlots(s.slots[k], Total(s.threads, k), k in s.empty, s.accept, pc, k, s.issued, s.cleaned);
    }
  }

  lemma IndexIsItsSlots(slot: Slot, w: Weights, free: bool, a: Accept, pc: Pc, k: nat, issued: set<int>,
                        cleaned: set<int>)
    requires SlotOk(slot, w, free, a, k, issued, cleaned) && PcOk(slot, pc, a, issued) && Where(pc) == k
    requires Within(Weigh(pc, k), w)
    ensures pc.ReadId? ==> IndexOf(slot.id) == k
    ensures pc.BackDrop? ==> IndexOf(pc.current) == k
  {
  }

  lemma OwnLocal(s: State, s': State, t: nat, choice: Choice, k: nat, pc': Pc)
    requires Enabled(s, Step(t, choice)) && !s.threads[t].Idle? && k == Where(s.threads[t]) && k < |s.slots|
    requires s' == AfterStep(s, t, choice) && pc' == s'.threads[t] == NextPc(s.slots[k], s.threads[t], choice, true)
    ensures LocalStep(LocalOf(s, k), LocalOf(s', k), s.threads[t], choice, k)
    ensures Within(Weigh(s.threads[t], k), Total(s.threads, k))
    ensures Total(s.threads, k).duty >= Total(s.threads, k).claims + Total(s.threads, k).zeros
    ensures Total(s'.threads, k).duty >= Total(s'.threads, k).claims + Total(s'.threads, k).zeros
  {
    hide Weigh, Within, NextSlot;
    TotalUpdate(s.threads, t, pc', k);
    TotalCoversEach(s.threads, t, k);
    TotalShape(s.threads, k);
    TotalShape(s'.threads, k);
  }

  lemma OwnStep(s: State, t: nat, choice: Choice)
    requires Inv(s) && Enabled(s, Step(t, choice)) && !s.threads[t].Idle?
    ensures var s', k := AfterStep(s, t, choice), Where(s.threads[t]); SlotAt(s', k) && PcAt(s', t)
    ensures var pc' := AfterStep(s, t, choice).threads[t]; pc'.Idle? || Where(pc') == Where(s.threads[t])
    ensures AfterStep(s, t, choice).threads[t] == NextPc(s.slots[Where(s.threads[t])], s.threads[t], choice, true)
    ensures var s', k := AfterStep(s, t, choice), Where(s.threads[t]);
            CoveredAt(s, k) && !Loses(s, Step(t, choice), k) ==> CoveredAt(s', k)
  {
    hide SlotOk, Covered, Unposted, PcOk, Within, Weigh, LocalStep, NextPc, NextSlot, Where;
    var s', pc := AfterStep(s, t, choice), s.threads[t];
    var k := Where(pc);
    IndexIsValid(s, t, choice);
    assert SlotAt(s, k) && PcAt(s, t);
    OwnLocal(s, s', t, choice, k, s'.threads[t]);
    SomeStep(LocalOf(s, k), LocalOf(s', k), pc, choice, s.accept, k, s.issued);
  }

  lemma StepShape(s: State, t: nat, choice: Choice)
    requires Inv(s) && Enabled(s, Step(t, choice)) && !s.threads[t].Idle?
    requires var pc' := AfterStep(s, t, choice).threads[t]; pc'.Idle? || Where(pc') == Where(s.threads[t])
    ensures ThreadStep(s, AfterStep(s, t, choice), t, AfterStep(s, t, choice).threads[t], Where(s.threads[t]))
  {
    hide NextPc, Inv;
  }

  /** What a thread about to clean, or done cleaning, knows of its slot. */
  lemma StartsCleaning(s: State, t: nat)
    requires Inv(s) && Enabled(s, Step(t, Finish))
    requires s.threads[t].Compared? && s.threads[t].id == s.slots[Where(s.threads[t])].id
    ensures s.threads[t].id in s.issued && s.threads[t].id !in s.cleaned
    ensures s.slots[Where(s.threads[t])].released
  {
    var k := Where(s.threads[t]);
    SlotAndPc(s, t);
    Claiming(s.slots[k], Total(s.threads, k), k in s.empty, s.accept, s.threads[t], k, s.issued, s.cleaned);
  }

  lemma SlotAndPc(s: State, t: nat)
    requires Inv(s) && Enabled(s, Step(t, Finish)) && !s.threads[t].Idle?
    ensures var k := Where(s.threads[t]);
            SlotOk(s.slots[k], Total(s.threads, k), k in s.empty, s.accept, k, s.issued, s.cleaned)
            && PcOk(s.slots[k], s.threads[t], s.accept, s.issued)
            && Within(Weigh(s.threads[t], k), Total(s.threads, k))
  {
    hide SlotOk, PcOk, Weigh, Within;
    assert SlotAt(s, Where(s.threads[t])) && PcAt(s, t);
    TotalCoversEach(s.threads, t, Where(s.threads[t]));
  }

  lemma Claiming(slot: Slot, w: Weights, free: bool, a: Accept, pc: Pc, k: nat, issued: set<int>, cleaned: set<int>)
    requires SlotOk(slot, w, free, a, k, issued, cleaned) && PcOk(slot, pc, a, issued) && Where(pc) == k
    requires Within(Weigh(pc, k), w) && pc.Compared? && pc.id == slot.id
    ensures pc.id in issued && pc.id !in cleaned && slot.released
  {
  }

  lemma EndsCleaning(s: State, t: nat)
    requires Inv(s) && Enabled(s, Step(t, Finish)) && s.threads[t].CleanRest?
    ensures Where(s.threads[t]) !in s.empty
  {
    hide Inv, SlotOk, PcOk, Weigh, Within;
    var k := Where(s.threads[t]);
    SlotAndPc(s, t);
    Cleaning(s.slots[k], Total(s.threads, k), k in s.empty, s.accept, s.threads[t], k, s.issued, s.cleaned);
  }

  lemma Cleaning(slot: Slot, w: Weights, free: bool, a: Accept, pc: Pc, k: nat, issued: set<int>, cleaned: set<int>)
    requires SlotOk(slot, w, free, a, k, issued, cleaned) && Where(pc) == k
    requires Within(Weigh(pc, k), w) && pc.CleanRest?
    ensures !free
  {
  }

  lemma StepGlobal(s: State, t: nat, choice: Choice)
    requires Inv(s) && Enabled(s, Step(t, choice)) && !s.threads[t].Idle?
    requires AfterStep(s, t, choice).threads[t] == NextPc(s.slots[Where(s.threads[t])], s.threads[t], choice, true)
    ensures Global(AfterStep(s, t, choice))
  {
    hide SlotAt, PcAt;
    if s.threads[t].Compared? && s.threads[t].id == s.slots[Where(s.threads[t])].id {
      StartsCleaning(s, t);
    } else if s.threads[t].CleanRest? {
      EndsCleaning(s, t);
    }
  }

  lemma StepKeeps(s: State, t: nat, choice: Choice)
    requires Inv(s) && Enabled(s, Step(t, choice)) && !s.threads[t].Idle?
    ensures Inv(AfterStep(s, t, choice)) && KeepsCover(s, Step(t, choice), AfterStep(s, t, choice))
  {
    hide Loses, Inv, ThreadStep, Global, SlotAt, CoveredAt, PcAt, NextPc, Where;
    OwnStep(s, t, choice);
    StepShape(s, t, choice);
    StepGlobal(s, t, choice);
    var s' := AfterStep(s, t, choice);
    ThreadStepKeeps(s, Step(t, choice), s', t, s'.threads[t], Where(s.threads[t]));
  }

  // ---------- Beginning an operation ----------

  lemma DequeueLocal(l: Local, l': Local, what: Completion, a: Accept, k: nat, issued: set<int>)
    requires LocalOk(l, a, k, issued) && Waits(l.slot, what)
    requires l'.free == l.free && l'.cleaned == l.cleaned && l'.w.duty >= l'.w.claims + l'.w.zeros
    requires l'.slot == match what
                        case IoDone(Receive) => l.slot.(receives := l.slot.receives - 1)
                        case IoDone(Send) => l.slot.(sends := l.slot.sends - 1)
                        case SendRequested => l.slot.(sendRequests := l.slot.sendRequests - 1)
                        case ReleaseRequested => l.slot.(releaseRequests := l.slot.releaseRequests - 1)
    requires l'.w == Plus(l.w, Weigh(if what.ReleaseRequested? then ReadId(k) else Working(k), k))
    ensures LocalOk(l', a, k, issued)
    ensures LocalCovered(l, a, k) ==> LocalCovered(l', a, k)
  {
  }

  lemma DequeueKeeps(s: State, t: nat, k: nat, what: Completion)
    requires Inv(s) && Enabled(s, Dequeue(t, k, what))
    ensures var s' := AfterDequeue(s, t, k, what); Inv(s') && KeepsCover(s, Dequeue(t, k, what), s')
  {
    hide SlotOk, Covered, PcOk;
    var s' := AfterDequeue(s, t, k, what);
    var pc := if what.ReleaseRequested? then ReadId(k) else Working(k);
    assert SlotAt(s, k);
    StartOwn(s, s', t, pc, k);
    DequeueLocal(LocalOf(s, k), LocalOf(s', k), what, s.accept, k, s.issued);
    WorkerPc(s'.slots[k], k, s'.accept, s'.issued);
    ThreadStepKeeps(s, Dequeue(t, k, what), s', t, pc, k);
  }

  lemma WorkerPc(slot: Slot, k: nat, a: Accept, issued: set<int>)
    ensures PcOk(slot, ReadId(k), a, issued) && PcOk(slot, Working(k), a, issued)
  {
  }

  /** An idle thread takes up position `pc` at slot `k`. */
  lemma StartOwn(s: State, s': State, t: nat, pc: Pc, k: nat)
    requires t < |s.threads| && s.threads[t].Idle? && s'.threads == s.threads[t := pc]
    ensures Total(s'.threads, k) == Plus(Total(s.threads, k), Weigh(pc, k))
    ensures Total(s.threads, k).duty >= Total(s.threads, k).claims + Total(s.threads, k).zeros
    ensures Total(s'.threads, k).duty >= Total(s'.threads, k).claims + Total(s'.threads, k).zeros
  {
    hide Weigh, Total;
    TotalUpdate(s.threads, t, pc, k);
    WeighIdle(k);
    TotalShape(s.threads, k);
    TotalShape(s'.threads, k);
  }

  lemma FindLocal(slot: Slot, w: Weights, w': Weights, free: bool, a: Accept, id: int, issued: set<int>,
                  cleaned: set<int>)
    requires IndexOf(id) >= 0 && SlotOk(slot, w, free, a, IndexOf(id), issued, cleaned) && slot.valid
    requires w' == Plus(w, Weigh(FindEnter(id), IndexOf(id)))
    ensures SlotOk(slot, w', free, a, IndexOf(id), issued, cleaned)
    ensures Covered(slot, w, free, a, IndexOf(id)) ==> Covered(slot, w', free, a, IndexOf(id))
  {
  }

  lemma FindKeeps(s: State, t: nat, id: int)
    requires Inv(s) && Enabled(s, Find(t, id))
    ensures Inv(After(s, Find(t, id))) && KeepsCover(s, Find(t, id), After(s, Find(t, id)))
  {
    hide SlotOk, Covered;
    var s' := After(s, Find(t, id));
    if InRange(s, id) && s.slots[IndexOf(id)].valid {
      var k := IndexOf(id);
      assert SlotAt(s, k);
      StartOwn(s, s', t, FindEnter(id), k);
      FindLocal(s.slots[k], Total(s.threads, k), Total(s'.threads, k), k in s.empty, s.accept, id, s.issued, s.cleaned);
      ThreadStepKeeps(s, Find(t, id), s', t, FindEnter(id), k);
    }
  }

  // ---------- The accept thread ----------

  /** Only slot `k` and the accept thread's position changed. */
  ghost predicate AcceptMove(s: State, s': State, k: nat) {
    && k < |s.slots| && |s'.slots| == |s.slots| && s'.threads == s.threads
    && (forall j | 0 <= j < |s.slots| && j != k :: s'.slots[j] == s.slots[j])
    && (forall j: nat | j != k :: !Held(s.accept, j) && !Held(s'.accept, j))
    && (forall j: nat | j != k :: j in s'.empty <==> j in s.empty)
    && s.issued <= s'.issued && s'.cleaned == s.cleaned
  }

  lemma AcceptOther(s: State, s': State, k: nat, j: nat)
    requires AcceptMove(s, s', k) && j != k && j < |s.slots| && SlotAt(s, j)
    ensures SlotAt(s', j) && (CoveredAt(s, j) <==> CoveredAt(s', j))
  {
  }

  function AcceptedSlot(slot: Slot, a: Accept, k: nat, serial: nat, choice: Choice): Slot {
    match a
    case Waiting => slot
    case Popped(_) => slot.(id := MakeId(serial, k))
    case Named(_) => Taken(slot)
    case Counted(_) => slot.(valid := true)
    case Validated(_) => slot.(released := false, started := true)
    case Opened(_) =>
      if choice == Fail then Dropped(slot) else slot.(receives := slot.receives + 1)
  }

  function NextAccept(a: Accept, k: nat): Accept {
    match a
    case Waiting => Popped(k)
    case Popped(_) => Named(k)
    case Named(_) => Counted(k)
    case Counted(_) => Validated(k)
    case Validated(_) => Opened(k)
    case Opened(_) => Waiting
  }

  lemma AcceptOwn(slot: Slot, w: Weights, free: bool, a: Accept, k: nat, serial: nat, choice: Choice,
                  issued: set<int>, cleaned: set<int>)
    requires k < MAX_SESSION
    requires SlotOk(slot, w, free, a, k, issued, cleaned) && w.duty >= w.claims + w.zeros
    requires if a.Waiting? then free else a.slot == k
    requires forall id | id in issued :: 0 <= id < serial * ID_STRIDE
    requires cleaned <= issued
    ensures var issued' := if a.Popped? then issued + {MakeId(serial, k)} else issued;
            SlotOk(AcceptedSlot(slot, a, k, serial, choice), w, if a.Waiting? then false else free, NextAccept(a, k), k,
                   issued', cleaned)
    ensures (a.Opened? && choice == Fail ==> slot.count != 1 || w.duty + slot.releaseRequests > 0) ==>
            Covered(slot, w, free, a, k) ==>
            Covered(AcceptedSlot(slot, a, k, serial, choice), w, if a.Waiting? then false else free,
                    NextAccept(a, k), k)
  {
    assert IndexOf(MakeId(serial, k)) == k;
  }

  lemma AcceptThread(slot: Slot, w: Weights, free: bool, a: Accept, pc: Pc, k: nat, serial: nat, choice: Choice,
                     issued: set<int>, cleaned: set<int>)
    requires SlotOk(slot, w, free, a, k, issued, cleaned) && Where(pc) == k && Within(Weigh(pc, k), w)
    requires PcOk(slot, pc, a, issued)
    requires if a.Waiting? then free else a.slot == k
    requires forall id | id in issued :: 0 <= id < serial * ID_STRIDE
    ensures var issued' := if a.Popped? then issued + {MakeId(serial, k)} else issued;
            PcOk(AcceptedSlot(slot, a, k, serial, choice), pc, NextAccept(a, k), issued')
  {
    assert MakeId(serial, k) !in issued;
  }

  function AcceptSlot(s: State): nat
    requires Enabled(s, AcceptStep(Finish))
  {
    if s.accept.Waiting? then s.empty[0] else s.accept.slot
  }

  lemma AcceptShape(s: State, choice: Choice)
    requires Global(s) && Enabled(s, AcceptStep(choice))
    ensures var s', k := AfterAccept(s, choice), AcceptSlot(s);
            && AcceptMove(s, s', k)
            && s'.slots[k] == AcceptedSlot(s.slots[k], s.accept, k, s.serial, choice)
            && s'.accept == NextAccept(s.accept, k)
            && s'.issued == (if s.accept.Popped? then s.issued + {MakeId(s.serial, k)} else s.issued)
            && (k in s'.empty <==> k in s.empty && !s.accept.Waiting?)
            && (s.accept.Waiting? ==> k in s.empty)
  {
  }

  lemma AcceptGlobal(s: State, choice: Choice)
    requires Global(s) && Enabled(s, AcceptStep(choice))
    ensures Global(AfterAccept(s, choice))
  {
    var s' := AfterAccept(s, choice);
    forall k | k in s'.empty ensures k < |s'.slots| { assert k in s.empty; }
  }

  lemma AcceptKeeps(s: State, choice: Choice)
    requires Inv(s) && Enabled(s, AcceptStep(choice))
    ensures Inv(AfterAccept(s, choice))
    ensures forall j | 0 <= j < |s.slots| && CoveredAt(s, j) && !Loses(s, AcceptStep(choice), j) ::
              j < |AfterAccept(s, choice).slots| && CoveredAt(AfterAccept(s, choice), j)
  {
    hide SlotOk, Covered, Loses, PcOk, AcceptedSlot, NextAccept, AcceptSlot, Weigh;
    var s', k := AfterAccept(s, choice), AcceptSlot(s);
    AcceptShape(s, choice);
    AcceptGlobal(s, choice);
    forall j | 0 <= j < |s'.slots|
      ensures SlotAt(s', j) && (CoveredAt(s, j) && !Loses(s, AcceptStep(choice), j) ==> CoveredAt(s', j))
    {
      assert SlotAt(s, j);
      if j == k {
        AcceptOwnAt(s, choice);
      } else {
        AcceptOther(s, s', k, j);
      }
    }
    forall u | 0 <= u < |s'.threads| ensures PcAt(s', u) {
      AcceptThreadAt(s, choice, u);
    }
  }

  lemma AcceptOwnAt(s: State, choice: Choice)
    requires Inv(s) && Enabled(s, AcceptStep(choice))
    ensures AcceptSlot(s) < |AfterAccept(s, choice).slots| && SlotAt(AfterAccept(s, choice), AcceptSlot(s))
    ensures var k := AcceptSlot(s);
            CoveredAt(s, k) && !Loses(s, AcceptStep(choice), k) ==> CoveredAt(AfterAccept(s, choice), k)
  {
    hide SlotOk, Covered, AcceptedSlot, NextAccept;
    var k := AcceptSlot(s);
    AcceptShape(s, choice);
    assert SlotAt(s, k);
    TotalShape(s.threads, k);
    AcceptOwn(s.slots[k], Total(s.threads, k), k in s.empty, s.accept, k, s.serial, choice, s.issued, s.cleaned);
  }

  lemma AcceptThreadAt(s: State, choice: Choice, u: nat)
    requires Inv(s) && Enabled(s, AcceptStep(choice)) && u < |s.threads|
    ensures u < |AfterAccept(s, choice).threads| && PcAt(AfterAccept(s, choice), u)
  {
    hide SlotOk, AcceptedSlot, NextAccept, Weigh, Within;
    var k, pc := AcceptSlot(s), s.threads[u];
    AcceptShape(s, choice);
    assert PcAt(s, u) && SlotAt(s, k);
    if !pc.Idle? {
      if Where(pc) == k {
        TotalCoversEach(s.threads, u, k);
        AcceptThread(s.slots[k], Total(s.threads, k), k in s.empty, s.accept, pc, k, s.serial, choice,
                     s.issued, s.cleaned);
      } else {
        var s' := AfterAccept(s, choice);
        ElsewherePc(s.slots[Where(pc)], pc, s.accept, s'.accept, s.issued, s'.issued);
      }
    }
  }

  lemma ElsewherePc(slot: Slot, pc: Pc, a: Accept, a': Accept, issued: set<int>, issued': set<int>)
    requires PcOk(slot, pc, a, issued) && issued <= issued' && !Held(a, Where(pc)) && !Held(a', Where(pc))
    ensures PcOk(slot, pc, a', issued')
  {
  }

  // ---------- Whole runs ----------

  datatype Run = Run(states: seq<State>, actions: seq<Action>)

  /** After Start(): every index on the stack, every release flag OFF, nothing valid. */
  ghost predicate Start(s: State) {
    && |s.slots| <= MAX_SESSION
    && s.empty == seq(|s.slots|, i => |s.slots| - 1 - i)
    && s.accept == Waiting && s.issued == {} && s.cleaned == {}
    && (forall t | 0 <= t < |s.threads| :: s.threads[t] == Idle)
    && (forall k | 0 <= k < |s.slots| ::
          s.slots[k] == Slot(s.slots[k].id, false, false, 0, 0, 0, 0, 0, false))
  }

  lemma StartInv(s: State)
    requires Start(s)
    ensures Inv(s)
  {
    hide SlotOk;
    forall k | 0 <= k < |s.slots| ensures SlotAt(s, k) {
      TotalOfNone(s.threads, k);
      assert s.empty[|s.slots| - 1 - k] == k;
      StartSlot(s.slots[k], k);
    }
  }

  lemma StartSlot(slot: Slot, k: nat)
    requires slot == Slot(slot.id, false, false, 0, 0, 0, 0, 0, false)
    ensures SlotOk(slot, NOTHING, true, Waiting, k, {}, {})
  {
  }

  lemma ActionKeeps(s: State, a: Action)
    requires Inv(s) && Enabled(s, a)
    ensures Inv(After(s, a)) && |After(s, a).slots| == |s.slots|
    ensures forall j | 0 <= j < |s.slots| && CoveredAt(s, j) && !Loses(s, a, j) :: CoveredAt(After(s, a), j)
  {
    hide Inv, CoveredAt, Loses;
    match a
    case Find(t, id) => FindKeeps(s, t, id);
    case Dequeue(t, k, what) => DequeueKeeps(s, t, k, what);
    case Step(t, choice) => StepKeeps(s, t, choice);
    case AcceptStep(choice) => AcceptKeeps(s, choice);
  }

  ghost predicate StepOf(r: Run, i: nat) {
    && i + 1 < |r.states| && i < |r.actions|
    && Enabled(r.states[i], r.actions[i]) && r.states[i + 1] == After(r.states[i], r.actions[i])
  }

  ghost predicate Valid(r: Run) {
    |r.states| == |r.actions| + 1 && Start(r.states[0]) && forall i | 0 <= i < |r.actions| :: StepOf(r, i)
  }

  lemma {:induction false} RunInv(r: Run, i: nat)
    requires Valid(r) && i < |r.states|
    ensures Inv(r.states[i])
  {
    hide Inv, Start;
    if i == 0 {
      StartInv(r.states[0]);
    } else {
      RunInv(r, i - 1);
      assert StepOf(r, i - 1);
      ActionKeeps(r.states[i - 1], r.actions[i - 1]);
    }
  }

  // ---------- What every run keeps ----------

  /** IOcount is exactly the posted receives, the posted sends, the queued send requests and
      the references of finders, workers, accept and threads backing out; so it never goes
      negative and the error branch at the head of the release is dead. */
  lemma CountIsExact(r: Run, i: nat, k: nat)
    requires Valid(r) && i < |r.states| && k < |r.states[i].slots|
    ensures var s := r.states[i]; var slot := s.slots[k];
            slot.count == slot.receives + slot.sends + slot.sendRequests
                          + Total(s.threads, k).refs + AcceptRef(s.accept, k)
            && slot.count >= 0
    ensures forall t | 0 <= t < |r.states[i].threads| && r.states[i].threads[t].ReleaseSwap? ::
              r.states[i].threads[t].seen >= 0
  {
    var s := r.states[i];
    RunInv(r, i);
    assert SlotAt(s, k);
    forall t | 0 <= t < |s.threads| && s.threads[t].ReleaseSwap? ensures s.threads[t].seen >= 0 { assert PcAt(s, t); }
  }

  lemma {:induction false} NoRefs(threads: seq<Pc>, k: nat)
    ensures Total(threads, k).refs == 0 <==> forall t | 0 <= t < |threads| :: Weigh(threads[t], k).refs == 0
  {
    hide Weigh;
    if threads != [] {
      NoRefs(threads[1..], k);
      assert forall t | 0 < t < |threads| :: threads[t] == threads[1..][t - 1];
    }
  }

  /** A count of 0 means, exactly, that nobody uses the session: no receive, send or send
      request is under way, and no finder, worker or accept thread holds a reference. */
  lemma ZeroMeansUnused(r: Run, i: nat, k: nat)
    requires Valid(r) && i < |r.states| && k < |r.states[i].slots|
    ensures var s := r.states[i]; var slot := s.slots[k];
            slot.count == 0 <==>
            && slot.receives == slot.sends == slot.sendRequests == 0 && AcceptRef(s.accept, k) == 0
            && forall t | 0 <= t < |s.threads| :: Weigh(s.threads[t], k).refs == 0
  {
    hide Weigh, Total;
    CountIsExact(r, i, k);
    NoRefs(r.states[i].threads, k);
  }

  function Tally01(b: bool): nat { if b then 1 else 0 }

  /** Every index is in exactly one place, and the flag and the valid bit say which. */
  lemma ExactlyOnePlace(r: Run, i: nat, k: nat)
    requires Valid(r) && i < |r.states| && k < |r.states[i].slots|
    ensures var s := r.states[i]; var slot, w, free := s.slots[k], Total(s.threads, k), k in s.empty;
            && Tally01(free) + Tally01(PreOpen(s.accept, k)) + w.cleans + Tally01(Live(slot, w, free, s.accept, k)) == 1
            && (forall x, y | 0 <= x < |s.empty| && 0 <= y < |s.empty| && s.empty[x] == k == s.empty[y] :: x == y)
            && (Live(slot, w, free, s.accept, k) ==> slot.valid && (slot.released <==> w.claims == 1))
            && (free ==> !slot.valid)
  {
    var s := r.states[i];
    RunInv(r, i);
    assert SlotAt(s, k);
    forall x, y | 0 <= x < |s.empty| && 0 <= y < |s.empty| && s.empty[x] == k == s.empty[y] ensures x == y {
      if x < y {} else if y < x {}
    }
  }

  /** The action that begins the cleanup of session `id`. */
  predicate BeginsCleanup(s: State, a: Action, id: int) {
    a.Step? && a.thread < |s.threads| && s.threads[a.thread].Compared? && s.threads[a.thread].id == id
    && 0 <= Where(s.threads[a.thread]) < |s.slots| && s.slots[Where(s.threads[a.thread])].id == id
  }

  /** The action by which accept gives out session id `id`. */
  predicate GivesOut(s: State, a: Action, id: int) {
    a.AcceptStep? && s.accept.Popped? && s.accept.slot < |s.slots| && id == MakeId(s.serial, s.accept.slot)
  }

  lemma {:induction false} HistoryGrows(r: Run, i: nat, j: nat)
    requires Valid(r) && i <= j < |r.states|
    ensures r.states[i].cleaned <= r.states[j].cleaned && r.states[i].issued <= r.states[j].issued
  {
    hide NextPc, NextSlot, Start;
    if i < j {
      HistoryGrows(r, i, j - 1);
      assert StepOf(r, j - 1);
      OneStepGrows(r.states[j - 1], r.actions[j - 1]);
    }
  }

  lemma OneStepGrows(s: State, a: Action)
    requires Enabled(s, a)
    ensures s.cleaned <= After(s, a).cleaned && s.issued <= After(s, a).issued
  {
    hide NextPc, NextSlot;
  }

  lemma CleanupRecorded(s: State, a: Action, id: int)
    requires Inv(s) && Enabled(s, a) && BeginsCleanup(s, a, id)
    ensures id in s.issued && id !in s.cleaned && id in After(s, a).cleaned
  {
    hide Inv;
    StartsCleaning(s, a.thread);
  }

  /** No session is cleaned up twice, and only sessions that accept gave out are. */
  lemma CleanupAtMostOnce(r: Run, i: nat, j: nat, id: int)
    requires Valid(r) && i < j < |r.actions|
    requires BeginsCleanup(r.states[i], r.actions[i], id)
    ensures id in r.states[i].issued
    ensures !BeginsCleanup(r.states[j], r.actions[j], id)
  {
    hide Inv, Enabled, BeginsCleanup, Start;
    RunInv(r, i);
    RunInv(r, j);
    assert StepOf(r, i) && StepOf(r, j);
    CleanupRecorded(r.states[i], r.actions[i], id);
    HistoryGrows(r, i + 1, j);
    if BeginsCleanup(r.states[j], r.actions[j], id) {
      CleanupRecorded(r.states[j], r.actions[j], id);
    }
  }

  /** No session id is given out twice, and the index it carries is its slot's. */
  lemma IdsAreNeverReused(r: Run, i: nat, j: nat, id: int)
    requires Valid(r) && i < j < |r.actions| && GivesOut(r.states[i], r.actions[i], id)
    ensures !GivesOut(r.states[j], r.actions[j], id)
    ensures IndexOf(id) == r.states[i].accept.slot
  {
    RunInv(r, i);
    RunInv(r, j);
    assert StepOf(r, i) && StepOf(r, j);
    HistoryGrows(r, i + 1, j);
    assert id in r.states[i + 1].issued;
  }

  /** findSession returns a slot only if its id is the one asked for when the ids are compared,
      and the slot's count then includes the caller already. */
  lemma FoundMeansMatched(r: Run, i: nat, t: nat, id: int)
    requires Valid(r) && i < |r.actions| && t < |r.states[i].threads| && t < |r.states[i + 1].threads|
    requires r.states[i].threads[t] != Using(id) && r.states[i + 1].threads[t] == Using(id)
    ensures var s, s' := r.states[i], r.states[i + 1];
            && 0 <= IndexOf(id) < |s.slots| == |s'.slots| && s.slots[IndexOf(id)].id == id
            && s.slots[IndexOf(id)].count >= 1 && s'.slots[IndexOf(id)].count >= 1
  {
    hide Inv, Start, Total, NextSlot;
    var s, s', k := r.states[i], r.states[i + 1], IndexOf(id);
    assert StepOf(r, i);
    StepFinds(s, r.actions[i], t, id);
    CountCovers(r, i, t, k);
    CountCovers(r, i + 1, t, k);
  }

  lemma StepFinds(s: State, a: Action, t: nat, id: int)
    requires Enabled(s, a) && t < |s.threads| && t < |After(s, a).threads|
    requires s.threads[t] != Using(id) && After(s, a).threads[t] == Using(id)
    ensures s.threads[t] == FindMatch(id) && 0 <= IndexOf(id) < |s.slots| == |After(s, a).slots|
    ensures s.slots[IndexOf(id)].id == id
  {
    hide NextSlot, Total;
  }

  lemma CountCovers(r: Run, i: nat, t: nat, k: nat)
    requires Valid(r) && i < |r.states| && k < |r.states[i].slots| && t < |r.states[i].threads|
    ensures Weigh(r.states[i].threads[t], k).refs <= r.states[i].slots[k].count
  {
    hide Weigh, Valid;
    CountIsExact(r, i, k);
    TotalCoversEach(r.states[i].threads, t, k);
  }

  /** A live slot with count 0 that no thread and no queued request will release. */
  ghost predicate Lost(s: State, k: nat) { k < |s.slots| && !CoveredAt(s, k) }

  /** A session is lost by exactly two steps: accept's unchecked decrement after its first
      WSARecv failed, and a release request whose failing post nobody looks at, each taken when
      the count is then 0 and nobody else is bound to release the slot. */
  lemma LostExactlyThere(r: Run, i: nat, k: nat)
    requires Valid(r) && i < |r.actions| && k < |r.states[i].slots| && !Lost(r.states[i], k)
    ensures Lost(r.states[i + 1], k) <==> Loses(r.states[i], r.actions[i], k)
  {
    hide Inv, Start, CoveredAt, Loses;
    var s, a := r.states[i], r.actions[i];
    RunInv(r, i);
    assert StepOf(r, i);
    ActionKeeps(s, a);
    if Loses(s, a, k) { LosingLoses(s, a, k); }
  }

  lemma LosingLoses(s: State, a: Action, k: nat)
    requires Inv(s) && Loses(s, a, k) && Enabled(s, a)
    ensures Lost(After(s, a), k)
  {
    if a.Step? {
      UnpostedLoses(s, a.thread, k);
    } else {
      hide AfterStep, AfterDequeue, Weigh, Total;
      assert SlotAt(s, k);
    }
  }

  lemma UnpostedLoses(s: State, t: nat, k: nat)
    requires Inv(s) && Loses(s, Step(t, Fail), k) && Enabled(s, Step(t, Fail))
    ensures Lost(AfterStep(s, t, Fail), k)
  {
    hide Inv, Total, Loses;
    assert t < |s.threads| && s.threads[t].PostRelease? && Where(s.threads[t]) == k < |s.slots|
           by { LosingPost(s, t, k); }
    var s' := AfterStep(s, t, Fail);
    assert s'.threads == s.threads[t := Idle] && s'.slots == s.slots && s'.empty == s.empty;
    TotalUpdate(s.threads, t, Idle, k);
    LosingPost(s, t, k);
  }

  lemma LosingPost(s: State, t: nat, k: nat)
    requires Loses(s, Step(t, Fail), k)
    ensures t < |s.threads| && s.threads[t].PostRelease? && Where(s.threads[t]) == k
    ensures var w := Total(s.threads, k);
            Live(s.slots[k], w, k in s.empty, s.accept, k) && s.slots[k].count == 0
                && w.duty + s.slots[k].releaseRequests == 1
  {
  }

  /** A failure that nobody looks at: of the first WSARecv, or of the post of a release request. */
  predicate Unchecked(s: State, a: Action) {
    || (a == AcceptStep(Fail) && s.accept.Opened?)
    || (a.Step? && a.choice == Fail && a.thread < |s.threads| && s.threads[a.thread].PostRelease?)
  }

  /** The action by which a finder counts itself into slot `k`. */
  predicate CountsIn(s: State, a: Action, k: nat) {
    a.Step? && a.thread < |s.threads| && s.threads[a.thread].FindEnter? && Where(s.threads[a.thread]) == k
  }

  /** A lost session stays lost until somebody finds it by its id: exactly the finder's increment
      puts it under someone's care again. */
  lemma RescuedExactly(r: Run, i: nat, k: nat)
    requires Valid(r) && i < |r.actions| && Lost(r.states[i], k)
    ensures !Lost(r.states[i + 1], k) <==> CountsIn(r.states[i], r.actions[i], k)
  {
    hide Inv, Start, CoveredAt, Where;
    var s, a := r.states[i], r.actions[i];
    RunInv(r, i);
    assert StepOf(r, i);
    ActionKeeps(s, a);
    match a
    case Find(t, id) => LostThroughFind(s, t, id, k);
    case Dequeue(t, j, what) => LostThroughDequeue(s, t, j, what, k);
    case Step(t, choice) => LostThroughStep(s, t, choice, k);
    case AcceptStep(choice) => LostThroughAccept(s, choice, k);
  }

  /** What being lost means for a slot and for the threads concerned with it. */
  lemma LostSlot(slot: Slot, w: Weights, free: bool, a: Accept, k: nat, issued: set<int>, cleaned: set<int>)
    requires SlotOk(slot, w, free, a, k, issued, cleaned) && !Covered(slot, w, free, a, k)
    ensures Live(slot, w, free, a, k) && slot.count == 0 && slot.receives == slot.sends == slot.sendRequests == 0
    ensures slot.releaseRequests == 0 && w.refs == w.duty == 0 && !Held(a, k) && !free
  {
  }

  lemma LostAt(s: State, k: nat)
    requires Inv(s) && Lost(s, k)
    ensures var slot, w := s.slots[k], Total(s.threads, k);
            && Live(slot, w, k in s.empty, s.accept, k) && slot.count == 0
            && slot.receives == slot.sends == slot.sendRequests == slot.releaseRequests == 0
            && w.refs == w.duty == 0 && !Held(s.accept, k) && k !in s.empty && SlotAt(s, k)
  {
    hide SlotOk, Covered, Total;
    assert SlotAt(s, k);
    LostSlot(s.slots[k], Total(s.threads, k), k in s.empty, s.accept, k, s.issued, s.cleaned);
  }

  lemma SameLost(s: State, s': State, k: nat)
    requires Lost(s, k) && k < |s'.slots| && s'.slots[k] == s.slots[k] && (k in s'.empty <==> k in s.empty)
    requires Total(s'.threads, k).duty == Total(s.threads, k).duty
    requires Total(s'.threads, k).cleans == Total(s.threads, k).cleans && s'.accept == s.accept
    ensures Lost(s', k)
  {
    hide Total;
  }

  lemma LostThroughFind(s: State, t: nat, id: int, k: nat)
    requires Inv(s) && Enabled(s, Find(t, id)) && Lost(s, k)
    ensures Lost(After(s, Find(t, id)), k)
  {
    hide Inv, Total, Lost;
    if InRange(s, id) && s.slots[IndexOf(id)].valid {
      var s' := After(s, Find(t, id));
      TotalUpdate(s.threads, t, FindEnter(id), k);
      assert Lost(s, k) ==> k < |s.slots| by { LostInRange(s, k); }
      SameLost(s, s', k);
    }
  }

  lemma LostInRange(s: State, k: nat)
    ensures Lost(s, k) ==> k < |s.slots|
  {
  }

  lemma DequeueShape(s: State, t: nat, j: nat, what: Completion)
    requires Enabled(s, Dequeue(t, j, what))
    ensures var s', pc := AfterDequeue(s, t, j, what), if what.ReleaseRequested? then ReadId(j) else Working(j);
            && s'.threads == s.threads[t := pc] && |s'.slots| == |s.slots| && s'.empty == s.empty
                  && s'.accept == s.accept
            && forall k | 0 <= k < |s.slots| && k != j :: s'.slots[k] == s.slots[k]
  {
  }

  lemma LostAwaitsNothing(s: State, k: nat, what: Completion)
    requires Inv(s) && Lost(s, k)
    ensures k < |s.slots| && !Waits(s.slots[k], what)
  {
    LostAt(s, k);
  }

  lemma LostThroughDequeue(s: State, t: nat, j: nat, what: Completion, k: nat)
    requires Inv(s) && Enabled(s, Dequeue(t, j, what)) && Lost(s, k)
    ensures Lost(After(s, Dequeue(t, j, what)), k)
  {
    hide Inv, Total, SlotAt, Lost, AfterDequeue, Waits;
    LostInRange(s, k);
    LostAwaitsNothing(s, k, what);
    DequeueShape(s, t, j, what);
    SameTotal(s.threads, t, if what.ReleaseRequested? then ReadId(j) else Working(j), j, k);
    SameLost(s, AfterDequeue(s, t, j, what), k);
  }

  lemma LostLocal(l: Local, l': Local, pc: Pc, choice: Choice, a: Accept, k: nat, issued: set<int>)
    requires LocalOk(l, a, k, issued) && LocalStep(l, l', pc, choice, k) && Where(pc) == k && !pc.Idle?
    requires Within(Weigh(pc, k), l.w) && PcOk(l.slot, pc, a, issued)
    requires !LocalCovered(l, a, k)
    ensures !LocalCovered(l', a, k) <==> !pc.FindEnter?
  {
    LostSlot(l.slot, l.w, l.free, a, k, issued, l.cleaned);
    assert pc.FindEnter? || pc.ReleaseSwap?;
  }

  lemma LostThroughStep(s: State, t: nat, choice: Choice, k: nat)
    requires Inv(s) && Enabled(s, Step(t, choice)) && Lost(s, k)
    ensures !Lost(AfterStep(s, t, choice), k) <==> CountsIn(s, Step(t, choice), k)
  {
    hide SlotOk, Covered, PcOk, Within, Weigh, LocalStep, NextPc, NextSlot, Total;
    var s', pc := AfterStep(s, t, choice), s.threads[t];
    var j := Where(pc);
    OwnStep(s, t, choice);
    assert SlotAt(s, j) && PcAt(s, t) && SlotAt(s, k);
    if j == k {
      OwnLocal(s, s', t, choice, k, s'.threads[t]);
      LostLocal(LocalOf(s, k), LocalOf(s', k), pc, choice, s.accept, k, s.issued);
    } else {
      StepShape(s, t, choice);
      OtherSlot(s, s', t, s'.threads[t], j, k);
    }
  }

  lemma LostThroughAccept(s: State, choice: Choice, k: nat)
    requires Inv(s) && Enabled(s, AcceptStep(choice)) && Lost(s, k)
    ensures Lost(AfterAccept(s, choice), k)
  {
    LostAt(s, k);
    hide Inv, SlotAt, CoveredAt, AcceptedSlot, NextAccept;
    AcceptShape(s, choice);
    AcceptOther(s, AfterAccept(s, choice), AcceptSlot(s), k);
  }

  /** As long as no unchecked call fails, a live slot with count 0 always has somebody bound to
      release it. */
  lemma {:induction false} ReleaseIsNeverLost(r: Run, i: nat, k: nat)
    requires Valid(r) && i < |r.states| && k < |r.states[i].slots|
    requires forall j | 0 <= j < i :: !Unchecked(r.states[j], r.actions[j])
    ensures var s := r.states[i]; var w := Total(s.threads, k);
            Live(s.slots[k], w, k in s.empty, s.accept, k) && s.slots[k].count == 0 ==>
            w.duty + s.slots[k].releaseRequests > 0
  {
    hide Inv;
    if i == 0 {
      StartIsNotLive(r.states[0], k);
    } else {
      assert StepOf(r, i - 1);
      RunInv(r, i - 1);
      ActionKeeps(r.states[i - 1], r.actions[i - 1]);
      ReleaseIsNeverLost(r, i - 1, k);
      LostExactlyThere(r, i - 1, k);
    }
  }

  lemma StartIsNotLive(s: State, k: nat)
    requires Start(s) && k < |s.slots|
    ensures !Live(s.slots[k], Total(s.threads, k), k in s.empty, s.accept, k)
  {
  }

  function AloneSlot(count: int, requests: nat): Slot { Slot(0, true, false, count, 0, 0, 0, requests, true) }

  /** One session, given out under id 0, and one thread. */
  function Alone(accept: Accept, pc: Pc, count: int, requests: nat): State {
    State([AloneSlot(count, requests)], [pc], accept, [], 1, {0}, {})
  }

  /** The state after accept has opened one session. */
  lemma OpenOne(id: int) returns (r: Run)
    ensures Valid(r) && |r.actions| == 5 && |r.states| == 6 && r.states[5] == Alone(Opened(0), Idle, 1, 0)
  {
    var slot := Slot(id, false, false, 0, 0, 0, 0, 0, false);
    var s0 := State([slot], [Idle], Waiting, [0], 0, {}, {});
    var a := AcceptStep(Succeed);
    var s1 := After(s0, a);
    var s2 := After(s1, a);
    var s3 := After(s2, a);
    var s4 := After(s3, a);
    var s5 := After(s4, a);
    r := Run([s0, s1, s2, s3, s4, s5], [a, a, a, a, a]);
    assert s0.empty == seq(1, i => 1 - 1 - i);
    assert s5.empty == [] && s5.issued == {0};
    forall i | 0 <= i < 5 ensures StepOf(r, i) {}
  }

  lemma Longer(r: Run, a: Action) returns (r': Run)
    requires Valid(r) && Enabled(r.states[|r.states| - 1], a)
    ensures Valid(r') && r'.actions == r.actions + [a]
    ensures r'.states == r.states + [After(r.states[|r.states| - 1], a)]
  {
    hide Start, After, Enabled;
    r' := Run(r.states + [After(r.states[|r.states| - 1], a)], r.actions + [a]);
    forall i | 0 <= i < |r'.actions| ensures StepOf(r', i) {
      if i < |r.actions| { assert StepOf(r, i); }
    }
  }

  lemma LostAlone(s: State, threads: seq<Pc>, requests: nat)
    requires s == State([AloneSlot(0, requests)], threads, Waiting, [], 1, {0}, {})
    requires forall t | 0 <= t < |threads| :: threads[t] == Idle
    ensures Lost(s, 0) <==> requests == 0
  {
    TotalOfNone(threads, 0);
  }

  /** The first losing step is reachable: accept one session and let its first WSARecv fail. */
  lemma FirstReceiveFailureLosesSession(id: int) returns (r: Run)
    ensures Valid(r) && |r.actions| == 6 && |r.states| == 7 && r.actions[5] == AcceptStep(Fail)
    ensures r.states[6] == Alone(Waiting, Idle, 0, 0) && Lost(r.states[6], 0)
  {
    r := OpenOne(id);
    hide Valid, Lost;
    r := Longer(r, AcceptStep(Fail));
    assert r.states[6].slots == [AloneSlot(0, 0)];
    LostAlone(r.states[6], [Idle], 0);
  }

  lemma AloneStep(f: Run, r: Run, pc: Pc, count: int, choice: Choice, pc': Pc, count': int, requests': nat)
      returns (r': Run)
    requires Valid(r) && f.states <= r.states && r.states[|r.states| - 1] == Alone(Waiting, pc, count, 0)
    requires NextPc(AloneSlot(count, 0), pc, choice, true) == pc' && !pc'.CleanStart? && !pc.CleanRest?
    requires NextSlot(AloneSlot(count, 0), pc, choice) == AloneSlot(count', requests')
    requires Where(pc) == 0 && !pc.BackDrop?
    ensures Valid(r') && f.states <= r'.states && |r'.states| == |r.states| + 1
    ensures r'.states[|r'.states| - 1] == Alone(Waiting, pc', count', requests')
  {
    hide Valid, NextPc, NextSlot;
    var s := Alone(Waiting, pc, count, 0);
    assert InRange(s, 0);
    var s' := After(s, Step(0, choice));
    assert s'.slots == [AloneSlot(count', requests')] && s'.threads == [pc'];
    r' := Longer(r, Step(0, choice));
  }

  lemma FindAlone(f: Run) returns (r: Run)
    requires Valid(f) && f.states[|f.states| - 1] == Alone(Waiting, Idle, 0, 0)
    ensures Valid(r) && f.states <= r.states && |r.states| == |f.states| + 1
    ensures r.states[|f.states|] == Alone(Waiting, FindEnter(0), 0, 0)
  {
    hide Valid;
    assert IndexOf(0) == 0;
    r := Longer(f, Find(0, 0));
  }

  /** From the lost session to a sender's thread that is about to queue its release. */
  lemma WalkToPost(f: Run) returns (r: Run)
    requires Valid(f) && f.states[|f.states| - 1] == Alone(Waiting, Idle, 0, 0)
    ensures Valid(r) && f.states <= r.states && |r.states| == |f.states| + 6
    ensures r.states[|r.states| - 1] == Alone(Waiting, PostRelease(0), 0, 0)
  {
    hide Valid, Alone;
    r := FindAlone(f);
    r := AloneStep(f, r, FindEnter(0), 0, Finish, FindFlag(0), 1, 0);
    r := AloneStep(f, r, FindFlag(0), 1, Finish, FindMatch(0), 1, 0);
    r := AloneStep(f, r, FindMatch(0), 1, Finish, Using(0), 1, 0);
    r := AloneStep(f, r, Using(0), 1, Finish, DropRef(0), 1, 0);
    r := AloneStep(f, r, DropRef(0), 1, Finish, PostRelease(0), 0, 0);
  }

  /** And so are the rescue and the second losing step: the next send to the lost session takes
      a reference, and dropping it queues the release that was owed, or, when that post fails,
      loses the session again. */
  lemma NextSendRescuesSession(id: int, posted: bool) returns (r: Run)
    ensures Valid(r) && |r.states| == 14 && Lost(r.states[6], 0)
    ensures r.states[13] == Alone(Waiting, Idle, 0, if posted then 1 else 0) && (Lost(r.states[13], 0) <==> !posted)
  {
    var f := FirstReceiveFailureLosesSession(id);
    hide Valid, Lost;
    var walked := WalkToPost(f);
    var requests := if posted then 1 else 0;
    r := AloneStep(f, walked, PostRelease(0), 0, if posted then Succeed else Fail, Idle, 0, requests);
    LostAlone(Alone(Waiting, Idle, 0, requests), [Idle], requests);
  }
}
