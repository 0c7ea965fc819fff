/** The lock-free stack as a transition system: one action per shared load, store or
    interlocked operation, any number of threads.

    The fields `chain`, `pops`, `log` and `returned` are bookkeeping that no step reads. */
module LockFreeStack {
  import opened StampedWord
  import opened Tally

  const NULL: Address := Address(0)

  datatype Node = Node(next: Address, data: int)

  datatype Event = Push(thread: nat, value: int) | Pop(thread: nat, value: int)

  /** Where a thread stands; `seen` is its tempTop, `at` the number of pops when it loaded
      it, `taken` the value that left the abstract stack at its compare-and-swap. */
  datatype Pc =
    | Idle
    | PushFill(node: Address, value: int)
    | PushLoad(node: Address, value: int)
    | PushLink(node: Address, value: int, seen: bv64)
    | PushSwap(node: Address, value: int, seen: bv64)
    | PushCount
    | PopDecrement
    | PopLoad
    | PopRestore
    | PopNext(seen: bv64, at: nat)
    | PopSwap(seen: bv64, at: nat, next: Address)
    | PopRead(node: Address, taken: int)
    | PopFree(node: Address, result: int, taken: int)

  datatype State = State(
    top: bv64,
    nodeCount: int,
    memory: map<Address, Node>,
    out: set<Address>,
    threads: seq<Pc>,
    chain: seq<Address>,
    pops: nat,
    log: seq<Event>,
    returned: seq<Event>)

  /** `Scribble` is the pool writing into a node it has not handed out. */
  datatype Action =
    | BeginPush(thread: nat, value: int, node: Address, contents: Node)
    | BeginPop(thread: nat)
    | Advance(thread: nat)
    | Scribble(node: Address, contents: Node)

  // ---------- The steps ----------

  predicate IsNode(n: Address) { n != NULL && n.bits <= MAX_ADDRESS }

  /** The pool hands out only nodes that are not in use; a thread reads only mapped memory. */
  predicate Enabled(s: State, a: Action) {
    match a
    case BeginPush(t, _, n, _) => t < |s.threads| && s.threads[t].Idle? && IsNode(n) && n !in s.out
    case BeginPop(t) => t < |s.threads| && s.threads[t].Idle?
    case Scribble(n, _) => n !in s.out
    case Advance(t) =>
      t < |s.threads| && match s.threads[t]
        case Idle => false
        case PushFill(n, _) => n in s.memory
        case PushLink(n, _, _) => n in s.memory
        case PopNext(seen, _) => AddressOf(seen) in s.memory
        case PopRead(n, _) => n in s.memory
        case _ => true
  }

  function Goto(s: State, t: nat, pc: Pc): (r: State)
    requires t < |s.threads|
    ensures |r.threads| == |s.threads|
  {
    s.(threads := s.threads[t := pc])
  }

  function After(s: State, a: Action): (r: State)
    requires Enabled(s, a)
    ensures |r.threads| == |s.threads|
  {
    match a
    case BeginPush(t, v, n, contents) =>
      Goto(s, t, PushFill(n, v)).(memory := s.memory[n := contents], out := s.out + {n})
    case BeginPop(t) => if s.nodeCount <= 0 then s else Goto(s, t, PopDecrement)
    case Scribble(n, contents) => s.(memory := s.memory[n := contents])
    case Advance(t) => AfterAdvance(s, t)
  }

  function AfterAdvance(s: State, t: nat): (r: State)
    requires Enabled(s, Advance(t))
    ensures |r.threads| == |s.threads| && forall u | 0 <= u < |s.threads| && u != t :: r.threads[u] == s.threads[u]
  {
    match s.threads[t]
    case PushFill(n, v) => Goto(s, t, PushLoad(n, v)).(memory := s.memory[n := s.memory[n].(data := v)])
    case PushLoad(n, v) => Goto(s, t, PushLink(n, v, s.top))
    case PushLink(n, v, seen) =>
      Goto(s, t, PushSwap(n, v, seen)).(memory := s.memory[n := s.memory[n].(next := AddressOf(seen))])
    case PushSwap(n, v, seen) =>
      if s.top == seen then
        Goto(s, t, PushCount).(top := PushedOver(seen, n), chain := [n] + s.chain, log := s.log + [Push(t, v)])
      else
        Goto(s, t, PushLoad(n, v))
    case PushCount => Goto(s, t, Idle).(nodeCount := s.nodeCount + 1)
    case PopDecrement => Goto(s, t, PopLoad).(nodeCount := s.nodeCount - 1)
    case PopLoad => Goto(s, t, if AddressOf(s.top) == NULL then PopRestore else PopNext(s.top, s.pops))
    case PopRestore => Goto(s, t, Idle).(nodeCount := s.nodeCount + 1)
    case PopNext(seen, at) => Goto(s, t, PopSwap(seen, at, s.memory[AddressOf(seen)].next))
    case PopSwap(seen, at, next) =>
      if s.top == seen then AfterTake(s, t, seen, next) else Goto(s, t, PopLoad)
    case PopRead(n, taken) => Goto(s, t, PopFree(n, s.memory[n].data, taken))
    case PopFree(n, result, _) =>
      Goto(s, t, Idle).(out := s.out - {n}, returned := s.returned + [Pop(t, result)])
  }

  /** A pop's compare-and-swap succeeds. */
  function AfterTake(s: State, t: nat, seen: bv64, next: Address): (r: State)
    requires t < |s.threads|
    ensures |r.threads| == |s.threads| && forall u | 0 <= u < |s.threads| && u != t :: r.threads[u] == s.threads[u]
  {
    var taken := if s.chain == [] then 0 else Contents(s)[0];
    Goto(s, t, PopRead(AddressOf(seen), taken))
      .(top := PoppedOver(seen, next), chain := if s.chain == [] then [] else s.chain[1..],
        pops := s.pops + 1, log := s.log + [Pop(t, taken)])
  }

  // ---------- The abstract stack ----------

  function DataAt(memory: map<Address, Node>, n: Address): int { if n in memory then memory[n].data else 0 }

  /** The values on the stack, top first. */
  function Contents(s: State): seq<int> { Values(s.chain, s.memory) }

  function Values(chain: seq<Address>, memory: map<Address, Node>): (r: seq<int>)
    ensures |r| == |chain|
  {
    if chain == [] then [] else [DataAt(memory, chain[0])] + Values(chain[1..], memory)
  }

  datatype Replayed = Illegal | Legal(stack: seq<int>)

  /** Running a history on a sequential LIFO stack that starts out empty. */
  function Replay(log: seq<Event>): Replayed {
    if log == [] then Legal([])
    else match Replay(log[..|log| - 1])
      case Illegal => Illegal
      case Legal(stack) =>
        match log[|log| - 1]
        case Push(_, v) => Legal([v] + stack)
        case Pop(_, v) => if stack != [] && stack[0] == v then Legal(stack[1..]) else Illegal
  }

  /** The values popped by thread `t` in a history, in order. */
  function PoppedBy(log: seq<Event>, t: nat): seq<int> {
    if log == [] then []
    else
      var earlier := PoppedBy(log[..|log| - 1], t);
      var last := log[|log| - 1];
      if last.Pop? && last.thread == t then earlier + [last.value] else earlier
  }

  // ---------- The invariant ----------

  function At(chain: seq<Address>, i: nat): Address { if i < |chain| then chain[i] else NULL }

  predicate Distinct(chain: seq<Address>) {
    forall i, j | 0 <= i < j < |chain| :: chain[i] != chain[j]
  }

  /** `chain` lists the nodes linked from `top`. */
  ghost predicate Chained(s: State) {
    && AddressOf(s.top) == At(s.chain, 0)
    && StampOf(s.top) == StampAfter(s.pops)
    && Distinct(s.chain)
    && forall i | 0 <= i < |s.chain| ::
         IsNode(s.chain[i]) && s.chain[i] in s.memory && s.chain[i] in s.out
         && s.memory[s.chain[i]].next == At(s.chain, i + 1)
  }

  /** Thread position `pc` owns a node that no other place owns. */
  predicate Keeps(pc: Pc) {
    pc.PushFill? || pc.PushLoad? || pc.PushLink? || pc.PushSwap? || pc.PopRead? || pc.PopFree?
  }

  ghost predicate Private(s: State, t: nat, n: Address) {
    t < |s.threads| && Keeps(s.threads[t]) && s.threads[t].node == n
  }

  ghost predicate Owned(s: State) {
    && (forall t | 0 <= t < |s.threads| && Keeps(s.threads[t]) ::
          var n := s.threads[t].node;
          IsNode(n) && n in s.memory && n in s.out && n !in s.chain)
    && (forall t, u | 0 <= t < u < |s.threads| && Keeps(s.threads[t]) && Keeps(s.threads[u]) ::
          s.threads[t].node != s.threads[u].node)
    && (forall n | n in s.out && n !in s.chain :: exists t :: Private(s, t, n))
  }

  ghost predicate PcOk(s: State, pc: Pc) {
    match pc
    case PushLoad(n, v) => n in s.memory && s.memory[n].data == v
    case PushLink(n, v, _) => n in s.memory && s.memory[n].data == v
    case PushSwap(n, v, seen) => n in s.memory && s.memory[n] == Node(AddressOf(seen), v)
    case PopNext(seen, at) => Loaded(s, seen, at)
    case PopSwap(seen, at, next) =>
      Loaded(s, seen, at) && (at == s.pops ==> s.memory[AddressOf(seen)].next == next)
    case PopRead(n, taken) => n in s.memory && s.memory[n].data == taken
    case PopFree(_, result, taken) => result == taken
    case _ => true
  }

  /** `seen` was the top word after `at` pops; while no further pop succeeded its node is
      still on the stack, whatever was pushed since. */
  ghost predicate Loaded(s: State, seen: bv64, at: nat) {
    && at <= s.pops
    && StampOf(seen) == StampAfter(at)
    && AddressOf(seen) in s.memory && AddressOf(seen) != NULL
    && (at == s.pops ==> AddressOf(seen) in s.chain)
  }

  ghost predicate PcsOk(s: State) { forall t | 0 <= t < |s.threads| :: PcOk(s, s.threads[t]) }

  function PendingPush(pc: Pc): nat { if pc.PushCount? then 1 else 0 }
  function PendingPop(pc: Pc): nat {
    if pc.PopLoad? || pc.PopRestore? || pc.PopNext? || pc.PopSwap? then 1 else 0
  }

  ghost predicate Counted(s: State) {
    s.nodeCount == |s.chain| - Sum(s.threads, PendingPush) - Sum(s.threads, PendingPop)
  }

  function Owed(pc: Pc): seq<int> {
    match pc
    case PopRead(_, taken) => [taken]
    case PopFree(_, _, taken) => [taken]
    case _ => []
  }

  ghost predicate Logged(s: State) {
    && Replay(s.log) == Legal(Contents(s))
    && forall t | 0 <= t < |s.threads| ::
         PoppedBy(s.log, t) == PoppedBy(s.returned, t) + Owed(s.threads[t])
  }

  ghost predicate Inv(s: State) {
    Chained(s) && Owned(s) && PcsOk(s) && Counted(s) && Logged(s)
  }

  // ---------- Steps that change no memory and move no node ----------

  /** Thread `t` moves from one position to another with the same node in hand. */
  ghost predicate SameHold(old_: Pc, new_: Pc) {
    && (Keeps(old_) <==> Keeps(new_))
    && (Keeps(old_) ==> old_.node == new_.node)
    && Owed(old_) == Owed(new_)
  }

  lemma LocalOwned(s: State, t: nat, pc: Pc, count: int)
    requires Owned(s) && t < |s.threads| && SameHold(s.threads[t], pc)
    ensures Owned(Goto(s, t, pc).(nodeCount := count))
  {
    var s' := Goto(s, t, pc).(nodeCount := count);
    forall n | n in s'.out && n !in s'.chain ensures exists u :: Private(s', u, n) {
      var u :| Private(s, u, n);
      assert Private(s', u, n);
    }
  }

  lemma LocalPcs(s: State, s': State, t: nat, pc: Pc)
    requires PcsOk(s) && t < |s.threads| && PcOk(s, pc)
    requires s'.threads == s.threads[t := pc]
    requires s'.memory == s.memory && s'.chain == s.chain && s'.pops == s.pops
    ensures PcsOk(s')
  {
    forall u | 0 <= u < |s'.threads| ensures PcOk(s', s'.threads[u]) {
      assert PcOk(s, s'.threads[u]);
    }
  }

  lemma LocalCounted(s: State, t: nat, pc: Pc, count: int)
    requires Counted(s) && t < |s.threads|
    requires count + PendingPush(pc) + PendingPop(pc)
             == s.nodeCount + PendingPush(s.threads[t]) + PendingPop(s.threads[t])
    ensures Counted(Goto(s, t, pc).(nodeCount := count))
  {
    SumUpdate(s.threads, t, pc, PendingPush);
    SumUpdate(s.threads, t, pc, PendingPop);
  }

  lemma LocalChained(s: State, s': State)
    requires Chained(s)
    requires s'.top == s.top && s'.memory == s.memory && s'.out == s.out && s'.chain == s.chain && s'.pops == s.pops
    ensures Chained(s')
  {
  }

  lemma LocalLogged(s: State, s': State, t: nat, pc: Pc)
    requires Logged(s) && t < |s.threads| && Owed(pc) == Owed(s.threads[t])
    requires s'.threads == s.threads[t := pc]
    requires s'.chain == s.chain && s'.memory == s.memory && s'.log == s.log && s'.returned == s.returned
    ensures Logged(s')
  {
  }

  lemma LocalStep(s: State, s': State, t: nat, pc: Pc, count: int)
    requires Inv(s) && t < |s.threads| && SameHold(s.threads[t], pc) && PcOk(s, pc)
    requires count + PendingPush(pc) + PendingPop(pc)
             == s.nodeCount + PendingPush(s.threads[t]) + PendingPop(s.threads[t])
    requires s' == s.(threads := s.threads[t := pc], nodeCount := count)
    ensures Inv(s') && Contents(s') == Contents(s)
  {
    LocalChained(s, s');
    LocalOwned(s, t, pc, count);
    LocalPcs(s, s', t, pc);
    LocalCounted(s, t, pc, count);
    LocalLogged(s, s', t, pc);
  }

  // ---------- Steps that write one node off the chain ----------

  lemma WriteChained(s: State, s': State, n: Address, contents: Node)
    requires Chained(s) && n !in s.chain
    requires s'.top == s.top && s'.chain == s.chain && s'.pops == s.pops && s.out - {n} <= s'.out
    requires s'.memory == s.memory[n := contents]
    ensures Chained(s')
  {
  }

  lemma {:induction false} WriteValues(chain: seq<Address>, memory: map<Address, Node>, n: Address, contents: Node)
    requires n !in chain
    ensures Values(chain, memory[n := contents]) == Values(chain, memory)
  {
    if chain != [] { WriteValues(chain[1..], memory, n, contents); }
  }

  lemma WritePcs(s: State, s': State, t: nat, pc: Pc, n: Address, contents: Node)
    requires PcsOk(s) && t < |s.threads| && n !in s.chain && PcOk(s', pc)
    requires forall u | 0 <= u < |s.threads| && u != t && Keeps(s.threads[u]) :: s.threads[u].node != n
    requires s'.threads == s.threads[t := pc]
    requires s'.memory == s.memory[n := contents] && s'.chain == s.chain && s'.pops == s.pops
    ensures PcsOk(s')
  {
    forall u | 0 <= u < |s'.threads| ensures PcOk(s', s'.threads[u]) {
      if u != t { assert PcOk(s, s.threads[u]); }
    }
  }

  lemma WriteLogged(s: State, s': State, t: nat, pc: Pc, n: Address, contents: Node)
    requires Logged(s) && t < |s.threads| && Owed(pc) == Owed(s.threads[t]) && n !in s.chain
    requires s'.threads == s.threads[t := pc]
    requires s'.chain == s.chain && s'.memory == s.memory[n := contents]
    requires s'.log == s.log && s'.returned == s.returned
    ensures Logged(s') && Contents(s') == Contents(s)
  {
    WriteValues(s.chain, s.memory, n, contents);
  }

  /** A pusher writes into the node it holds. */
  lemma FillOrLink(s: State, t: nat, pc: Pc, contents: Node)
    requires Inv(s) && t < |s.threads| && Keeps(s.threads[t]) && SameHold(s.threads[t], pc)
    requires PendingPush(pc) == PendingPush(s.threads[t]) && PendingPop(pc) == PendingPop(s.threads[t])
    requires PcOk(Goto(s, t, pc).(memory := s.memory[pc.node := contents]), pc)
    ensures Inv(Goto(s, t, pc).(memory := s.memory[pc.node := contents]))
    ensures Contents(Goto(s, t, pc).(memory := s.memory[pc.node := contents])) == Contents(s)
  {
    var n := pc.node;
    var s1 := Goto(s, t, pc).(nodeCount := s.nodeCount);
    var s' := Goto(s, t, pc).(memory := s.memory[n := contents]);
    WriteChained(s, s', n, contents);
    LocalOwned(s, t, pc, s.nodeCount);
    WriteOwned(s1, s', n, contents);
    WritePcs(s, s', t, pc, n, contents);
    LocalCounted(s, t, pc, s.nodeCount);
    WriteLogged(s, s', t, pc, n, contents);
  }

  lemma WriteOwned(s: State, s': State, n: Address, contents: Node)
    requires Owned(s)
    requires s' == s.(memory := s.memory[n := contents])
    ensures Owned(s')
  {
    forall m | m in s'.out && m !in s'.chain ensures exists u :: Private(s', u, m) {
      var u :| Private(s, u, m);
      assert Private(s', u, m);
    }
  }

  lemma ScribblePcs(s: State, s': State, n: Address, contents: Node)
    requires PcsOk(s) && n !in s.chain
    requires forall u | 0 <= u < |s.threads| && Keeps(s.threads[u]) :: s.threads[u].node != n
    requires s' == s.(memory := s.memory[n := contents])
    ensures PcsOk(s')
  {
    forall u | 0 <= u < |s'.threads| ensures PcOk(s', s'.threads[u]) {
      assert PcOk(s, s.threads[u]);
    }
  }

  lemma ScribbleStep(s: State, n: Address, contents: Node)
    requires Inv(s) && Enabled(s, Scribble(n, contents))
    ensures Inv(After(s, Scribble(n, contents)))
    ensures Contents(After(s, Scribble(n, contents))) == Contents(s)
  {
    var s' := After(s, Scribble(n, contents));
    assert n !in s.chain;
    WriteChained(s, s', n, contents);
    WriteOwned(s, s', n, contents);
    ScribblePcs(s, s', n, contents);
    WriteValues(s.chain, s.memory, n, contents);
  }

  lemma BeginPushOwned(s: State, s': State, t: nat, v: int, n: Address, contents: Node)
    requires Owned(s) && t < |s.threads| && s.threads[t].Idle? && IsNode(n) && n !in s.out && n !in s.chain
    requires s' == Goto(s, t, PushFill(n, v)).(memory := s.memory[n := contents], out := s.out + {n})
    ensures Owned(s')
  {
    forall m | m in s'.out && m !in s'.chain ensures exists u :: Private(s', u, m) {
      if m == n {
        assert Private(s', t, n);
      } else {
        var u :| Private(s, u, m);
        assert Private(s', u, m);
      }
    }
  }

  lemma BeginPushStep(s: State, t: nat, v: int, n: Address, contents: Node)
    requires Inv(s) && Enabled(s, BeginPush(t, v, n, contents))
    ensures Inv(After(s, BeginPush(t, v, n, contents)))
    ensures Contents(After(s, BeginPush(t, v, n, contents))) == Contents(s)
  {
    var s' := After(s, BeginPush(t, v, n, contents));
    var pc := PushFill(n, v);
    assert n !in s.chain;
    WriteChained(s, s', n, contents);
    BeginPushOwned(s, s', t, v, n, contents);
    WritePcs(s, s', t, pc, n, contents);
    LocalCounted(s, t, pc, s.nodeCount);
    WriteLogged(s, s', t, pc, n, contents);
  }

  // ---------- The two successful compare-and-swaps and the final free ----------

  lemma Appended(log: seq<Event>, e: Event)
    ensures (log + [e])[..|log + [e]| - 1] == log && (log + [e])[|log + [e]| - 1] == e
  {
  }

  lemma PushSwapChained(s: State, s': State, n: Address, seen: bv64)
    requires Chained(s) && s.top == seen && IsNode(n) && n in s.memory && n in s.out && n !in s.chain
    requires s.memory[n].next == AddressOf(seen)
    requires s'.top == PushedOver(seen, n) && s'.chain == [n] + s.chain
    requires s'.memory == s.memory && s'.out == s.out && s'.pops == s.pops
    ensures Chained(s')
  {
    PushedOverParts(seen, n);
    forall i | 0 <= i < |s'.chain|
      ensures IsNode(s'.chain[i]) && s'.chain[i] in s'.memory && s'.chain[i] in s'.out
              && s'.memory[s'.chain[i]].next == At(s'.chain, i + 1)
    {
      if i > 0 { assert s'.chain[i] == s.chain[i - 1]; }
    }
  }

  lemma PushSwapOwned(s: State, s': State, t: nat)
    requires Owned(s) && t < |s.threads| && s.threads[t].PushSwap?
    requires s'.threads == s.threads[t := PushCount] && s'.chain == [s.threads[t].node] + s.chain
    requires s'.memory == s.memory && s'.out == s.out
    ensures Owned(s')
  {
    forall m | m in s'.out && m !in s'.chain ensures exists u :: Private(s', u, m) {
      assert m !in s.chain;
      var u :| Private(s, u, m);
      assert Private(s', u, m);
    }
  }

  lemma PushSwapPcs(s: State, s': State, t: nat)
    requires PcsOk(s) && t < |s.threads| && s.threads[t].PushSwap?
    requires s'.threads == s.threads[t := PushCount] && s'.chain == [s.threads[t].node] + s.chain
    requires s'.memory == s.memory && s'.pops == s.pops
    ensures PcsOk(s')
  {
    forall u | 0 <= u < |s'.threads| ensures PcOk(s', s'.threads[u]) {
      assert PcOk(s, s.threads[u]);
    }
  }

  lemma PushSwapLogged(s: State, s': State, t: nat, v: int)
    requires Logged(s) && t < |s.threads| && s.threads[t].PushSwap?
    requires s.threads[t].node in s.memory && s.memory[s.threads[t].node].data == v
    requires s'.threads == s.threads[t := PushCount] && s'.chain == [s.threads[t].node] + s.chain
    requires s'.memory == s.memory && s'.log == s.log + [Push(t, v)] && s'.returned == s.returned
    ensures Logged(s') && Contents(s') == [v] + Contents(s)
  {
    Appended(s.log, Push(t, v));
    assert s'.chain[1..] == s.chain;
  }

  /** A push takes effect at its compare-and-swap: its value goes on top. */
  lemma PushSwapStep(s: State, t: nat)
    requires Inv(s) && t < |s.threads| && s.threads[t].PushSwap? && s.top == s.threads[t].seen
    ensures Inv(AfterAdvance(s, t))
    ensures Contents(AfterAdvance(s, t)) == [s.threads[t].value] + Contents(s)
  {
    var s' := AfterAdvance(s, t);
    var PushSwap(n, v, seen) := s.threads[t];
    assert PcOk(s, s.threads[t]);
    PushSwapChained(s, s', n, seen);
    PushSwapOwned(s, s', t);
    PushSwapPcs(s, s', t);
    SumUpdate(s.threads, t, PushCount, PendingPush);
    SumUpdate(s.threads, t, PushCount, PendingPop);
    PushSwapLogged(s, s', t, v);
  }

  /** The pops since the load are a positive multiple of 65536. */
  predicate Overslept(s: State, at: nat) { s.pops > at && (s.pops - at) % STAMP_LIMIT == 0 }

  /** The successor that a pop reading it now would read. */
  function Successor(s: State): Address {
    if AddressOf(s.top) in s.memory then s.memory[AddressOf(s.top)].next else NULL
  }

  /** Thread `t`'s compare-and-swap would install another word than that of a pop reading now. */
  predicate Outdated(s: State, t: nat)
    requires t < |s.threads| && s.threads[t].PopSwap?
  {
    PoppedOver(s.top, s.threads[t].next) != PoppedOver(s.top, Successor(s))
  }

  /** The word still equal to what was loaded, and the pops in between no positive multiple of
      65536: then there was none, the node is still the head and `next` is still its successor. */
  lemma FreshSwap(s: State, t: nat)
    requires Chained(s) && PcsOk(s) && t < |s.threads| && s.threads[t].PopSwap? && s.top == s.threads[t].seen
    requires !Overslept(s, s.threads[t].at)
    ensures s.threads[t].at == s.pops && s.chain != []
    ensures AddressOf(s.top) == s.chain[0] && s.threads[t].next == At(s.chain, 1)
  {
    var PopSwap(seen, at, next) := s.threads[t];
    assert PcOk(s, s.threads[t]);
    StampsCoincide(at, s.pops);
    assert s.memory[s.chain[0]].next == At(s.chain, 1);
  }

  /** So only a pop that slept through a positive multiple of 65536 pops can be out of date. */
  lemma OutdatedMeansOverslept(s: State, t: nat)
    requires Chained(s) && PcsOk(s) && t < |s.threads| && s.threads[t].PopSwap? && s.top == s.threads[t].seen
    requires Outdated(s, t)
    ensures Overslept(s, s.threads[t].at)
  {
    if !Overslept(s, s.threads[t].at) {
      FreshSwap(s, t);
      SuccessorIsNext(s);
    }
  }

  lemma SuccessorIsNext(s: State)
    requires Chained(s) && s.chain != []
    ensures Successor(s) == At(s.chain, 1) && AddressOf(s.top) == s.chain[0]
  {
    assert s.memory[s.chain[0]].next == At(s.chain, 1);
  }

  /** The node a pop loaded is not NULL, so a word found again is that of a stack with nodes. */
  lemma FoundAgain(s: State, t: nat)
    requires Chained(s) && PcsOk(s) && t < |s.threads| && s.threads[t].PopSwap? && s.top == s.threads[t].seen
    ensures s.chain != []
  {
    assert PcOk(s, s.threads[t]);
  }

  lemma TakeWord(s: State, next: Address)
    requires Chained(s) && s.chain != [] && next == At(s.chain, 1)
    ensures AddressOf(PoppedOver(s.top, next)) == next
    ensures StampOf(PoppedOver(s.top, next)) == StampAfter(s.pops + 1)
  {
    assert next.bits <= MAX_ADDRESS;
    PoppedOverParts(s.top, next);
  }

  lemma TakeLinks(s: State)
    requires Chained(s) && s.chain != []
    ensures var rest := s.chain[1..]; Distinct(rest) && forall i | 0 <= i < |rest| ::
              IsNode(rest[i]) && rest[i] in s.memory && rest[i] in s.out
              && s.memory[rest[i]].next == At(rest, i + 1)
  {
  }

  lemma TakeChained(s: State, s': State, next: Address)
    requires Chained(s) && s.chain != [] && next == At(s.chain, 1)
    requires s'.top == PoppedOver(s.top, next) && s'.chain == s.chain[1..] && s'.pops == s.pops + 1
    requires s'.memory == s.memory && s'.out == s.out
    ensures Chained(s')
  {
    TakeWord(s, next);
    TakeLinks(s);
  }

  lemma TakeOwned(s: State, s': State, t: nat, taken: int)
    requires Owned(s) && Chained(s) && s.chain != [] && t < |s.threads| && s.threads[t].PopSwap?
    requires s'.threads == s.threads[t := PopRead(s.chain[0], taken)] && s'.chain == s.chain[1..]
    requires s'.memory == s.memory && s'.out == s.out
    ensures Owned(s')
  {
    forall m | m in s'.out && m !in s'.chain ensures exists u :: Private(s', u, m) {
      if m == s.chain[0] {
        assert Private(s', t, m);
      } else {
        assert m !in s.chain;
        var u :| Private(s, u, m);
        assert Private(s', u, m);
      }
    }
  }

  lemma TakePcs(s: State, s': State, t: nat, taken: int)
    requires PcsOk(s) && s.chain != [] && t < |s.threads|
    requires s.chain[0] in s.memory && s.memory[s.chain[0]].data == taken
    requires s'.threads == s.threads[t := PopRead(s.chain[0], taken)]
    requires s'.memory == s.memory && s'.pops == s.pops + 1
    ensures PcsOk(s')
  {
    forall u | 0 <= u < |s'.threads| ensures PcOk(s', s'.threads[u]) {
      assert PcOk(s, s.threads[u]);
    }
  }

  lemma TakeLogged(s: State, s': State, t: nat, taken: int)
    requires Logged(s) && s.chain != [] && t < |s.threads| && s.threads[t].PopSwap?
    requires taken == Contents(s)[0]
    requires s'.threads == s.threads[t := PopRead(s.chain[0], taken)] && s'.chain == s.chain[1..]
    requires s'.memory == s.memory && s'.log == s.log + [Pop(t, taken)] && s'.returned == s.returned
    ensures Logged(s') && Contents(s) == [taken] + Contents(s')
  {
    Appended(s.log, Pop(t, taken));
    assert Contents(s)[1..] == Contents(s');
  }

  /** A pop takes effect at its compare-and-swap: the top value leaves, and it is the one
      the popping thread will hand back. */
  lemma PopSwapStep(s: State, t: nat)
    requires Inv(s) && t < |s.threads| && s.threads[t].PopSwap? && s.top == s.threads[t].seen
    requires !Outdated(s, t)
    ensures Inv(AfterAdvance(s, t))
    ensures AfterAdvance(s, t).threads[t].PopRead?
    ensures Contents(s) == [AfterAdvance(s, t).threads[t].taken] + Contents(AfterAdvance(s, t))
  {
    var s' := AfterAdvance(s, t);
    FoundAgain(s, t);
    SuccessorIsNext(s);
    var taken := Contents(s)[0];
    var pc := PopRead(s.chain[0], taken);
    TakeChained(s, s', Successor(s));
    TakeOwned(s, s', t, taken);
    TakePcs(s, s', t, taken);
    SumUpdate(s.threads, t, pc, PendingPush);
    SumUpdate(s.threads, t, pc, PendingPop);
    TakeLogged(s, s', t, taken);
  }

  /** An outdated swap that succeeds leaves a top word whose list is not the stack. */
  lemma OutdatedBreaks(s: State, t: nat)
    requires Inv(s) && t < |s.threads| && s.threads[t].PopSwap? && s.top == s.threads[t].seen && Outdated(s, t)
    ensures !Inv(AfterAdvance(s, t))
  {
    hide Owned, Counted, Logged;
    var s' := AfterAdvance(s, t);
    FoundAgain(s, t);
    SuccessorIsNext(s);
    TakeWord(s, Successor(s));
    if Chained(s') {
      assert At(s'.chain, 0) == At(s.chain, 1);
      WordFromParts(s'.top, PoppedOver(s.top, Successor(s)));
    }
  }

  lemma FreeChained(s: State, s': State, n: Address)
    requires Chained(s) && n !in s.chain
    requires s'.top == s.top && s'.memory == s.memory && s'.chain == s.chain && s'.pops == s.pops
    requires s'.out == s.out - {n}
    ensures Chained(s')
  {
  }

  lemma FreeOwned(s: State, s': State, t: nat)
    requires Owned(s) && t < |s.threads| && s.threads[t].PopFree?
    requires s'.threads == s.threads[t := Idle] && s'.chain == s.chain && s'.memory == s.memory
    requires s'.out == s.out - {s.threads[t].node}
    ensures Owned(s')
  {
    forall m | m in s'.out && m !in s'.chain ensures exists u :: Private(s', u, m) {
      var u :| Private(s, u, m);
      assert Private(s', u, m);
    }
  }

  lemma FreeLogged(s: State, s': State, t: nat)
    requires Logged(s) && t < |s.threads| && s.threads[t].PopFree? && PcOk(s, s.threads[t])
    requires s'.threads == s.threads[t := Idle] && s'.chain == s.chain && s'.memory == s.memory
    requires s'.log == s.log && s'.returned == s.returned + [Pop(t, s.threads[t].result)]
    ensures Logged(s') && Contents(s') == Contents(s)
  {
    Appended(s.returned, Pop(t, s.threads[t].result));
  }

  lemma PopFreeStep(s: State, t: nat)
    requires Inv(s) && t < |s.threads| && s.threads[t].PopFree?
    ensures Inv(AfterAdvance(s, t)) && Contents(AfterAdvance(s, t)) == Contents(s)
    ensures s.threads[t].result == s.threads[t].taken
  {
    var s' := AfterAdvance(s, t);
    assert PcOk(s, s.threads[t]);
    FreeChained(s, s', s.threads[t].node);
    FreeOwned(s, s', t);
    LocalPcs(s, s', t, Idle);
    SumUpdate(s.threads, t, Idle, PendingPush);
    SumUpdate(s.threads, t, Idle, PendingPop);
    FreeLogged(s, s', t);
  }

  // ---------- Every step ----------

  /** The step is a push's, or a pop's, successful compare-and-swap. */
  predicate PushesNow(s: State, a: Action) {
    a.Advance? && a.thread < |s.threads| && s.threads[a.thread].PushSwap? && s.top == s.threads[a.thread].seen
  }
  predicate PopsNow(s: State, a: Action) {
    a.Advance? && a.thread < |s.threads| && s.threads[a.thread].PopSwap? && s.top == s.threads[a.thread].seen
  }

  /** The step is not the successful swap of an outdated pop. */
  predicate Fresh(s: State, a: Action) { PopsNow(s, a) ==> !Outdated(s, a.thread) }

  /** What one step does to the abstract stack. */
  ghost predicate AtomicEffect(s: State, a: Action, s': State) {
    if PushesNow(s, a) then
      Contents(s') == [s.threads[a.thread].value] + Contents(s)
    else if PopsNow(s, a) then
      a.thread < |s'.threads| && s'.threads[a.thread].PopRead?
      && Contents(s) == [s'.threads[a.thread].taken] + Contents(s')
    else
      Contents(s') == Contents(s)
  }

  lemma PcAt(s: State, t: nat)
    requires PcsOk(s) && t < |s.threads|
    ensures PcOk(s, s.threads[t])
  {
  }

  lemma WritePushStep(s: State, t: nat)
    requires Inv(s) && Enabled(s, Advance(t)) && (s.threads[t].PushFill? || s.threads[t].PushLink?)
    ensures Inv(AfterAdvance(s, t)) && Contents(AfterAdvance(s, t)) == Contents(s)
  {
    hide Chained, Owned, PcsOk, Counted, Logged;
    PcAt(s, t);
    if s.threads[t].PushFill? {
      var PushFill(n, v) := s.threads[t];
      FillOrLink(s, t, PushLoad(n, v), s.memory[n].(data := v));
    } else {
      var PushLink(n, v, seen) := s.threads[t];
      FillOrLink(s, t, PushSwap(n, v, seen), s.memory[n].(next := AddressOf(seen)));
    }
  }

  lemma QuietPushStep(s: State, t: nat)
    requires Inv(s) && Enabled(s, Advance(t)) && !PushesNow(s, Advance(t))
    requires s.threads[t].PushLoad? || s.threads[t].PushSwap? || s.threads[t].PushCount?
    ensures Inv(AfterAdvance(s, t)) && Contents(AfterAdvance(s, t)) == Contents(s)
  {
    hide Chained, Owned, PcsOk, Counted, Logged;
    var s' := AfterAdvance(s, t);
    PcAt(s, t);
    if s.threads[t].PushLoad? {
      LocalStep(s, s', t, PushLink(s.threads[t].node, s.threads[t].value, s.top), s.nodeCount);
    } else if s.threads[t].PushSwap? {
      LocalStep(s, s', t, PushLoad(s.threads[t].node, s.threads[t].value), s.nodeCount);
    } else {
      LocalStep(s, s', t, Idle, s.nodeCount + 1);
    }
  }

  lemma LoadTop(s: State)
    requires Chained(s) && AddressOf(s.top) != NULL
    ensures Loaded(s, s.top, s.pops)
  {
  }

  lemma ReadNext(s: State, seen: bv64, at: nat)
    requires Loaded(s, seen, at)
    ensures PcOk(s, PopSwap(seen, at, s.memory[AddressOf(seen)].next))
  {
  }

  lemma PopCountStep(s: State, t: nat)
    requires Inv(s) && Enabled(s, Advance(t))
    requires s.threads[t].PopDecrement? || s.threads[t].PopRestore?
    ensures Inv(AfterAdvance(s, t)) && Contents(AfterAdvance(s, t)) == Contents(s)
  {
    hide Chained, Owned, PcsOk, Counted, Logged;
    var s' := AfterAdvance(s, t);
    if s.threads[t].PopDecrement? {
      LocalStep(s, s', t, PopLoad, s.nodeCount - 1);
    } else {
      LocalStep(s, s', t, Idle, s.nodeCount + 1);
    }
  }

  lemma PopLoadStep(s: State, t: nat)
    requires Inv(s) && Enabled(s, Advance(t)) && s.threads[t].PopLoad?
    ensures Inv(AfterAdvance(s, t)) && Contents(AfterAdvance(s, t)) == Contents(s)
  {
    hide Chained, Owned, PcsOk, Counted, Logged;
    var s' := AfterAdvance(s, t);
    if AddressOf(s.top) == NULL {
      LocalStep(s, s', t, PopRestore, s.nodeCount);
    } else {
      LoadTop(s);
      LocalStep(s, s', t, PopNext(s.top, s.pops), s.nodeCount);
    }
  }

  lemma PopReadStep(s: State, t: nat)
    requires Inv(s) && Enabled(s, Advance(t)) && !PopsNow(s, Advance(t))
    requires s.threads[t].PopNext? || s.threads[t].PopSwap? || s.threads[t].PopRead?
    ensures Inv(AfterAdvance(s, t)) && Contents(AfterAdvance(s, t)) == Contents(s)
  {
    hide Chained, Owned, PcsOk, Counted, Logged;
    var s' := AfterAdvance(s, t);
    PcAt(s, t);
    if s.threads[t].PopNext? {
      var PopNext(seen, at) := s.threads[t];
      ReadNext(s, seen, at);
      LocalStep(s, s', t, PopSwap(seen, at, s.memory[AddressOf(seen)].next), s.nodeCount);
    } else if s.threads[t].PopSwap? {
      LocalStep(s, s', t, PopLoad, s.nodeCount);
    } else {
      var PopRead(n, taken) := s.threads[t];
      LocalStep(s, s', t, PopFree(n, s.memory[n].data, taken), s.nodeCount);
    }
  }

  lemma BeginPopStep(s: State, t: nat)
    requires Inv(s) && Enabled(s, BeginPop(t))
    ensures Inv(After(s, BeginPop(t))) && Contents(After(s, BeginPop(t))) == Contents(s)
  {
    if s.nodeCount > 0 { LocalStep(s, After(s, BeginPop(t)), t, PopDecrement, s.nodeCount); }
  }

  lemma QuietStep(s: State, t: nat)
    requires Inv(s) && Enabled(s, Advance(t)) && !PushesNow(s, Advance(t)) && !PopsNow(s, Advance(t))
    ensures Inv(AfterAdvance(s, t)) && Contents(AfterAdvance(s, t)) == Contents(s)
  {
    var pc := s.threads[t];
    if pc.PushFill? || pc.PushLink? {
      WritePushStep(s, t);
    } else if pc.PushLoad? || pc.PushSwap? || pc.PushCount? {
      QuietPushStep(s, t);
    } else if pc.PopDecrement? || pc.PopRestore? {
      PopCountStep(s, t);
    } else if pc.PopLoad? {
      PopLoadStep(s, t);
    } else if pc.PopFree? {
      PopFreeStep(s, t);
    } else {
      PopReadStep(s, t);
    }
  }

  lemma AdvanceIsAtomic(s: State, t: nat)
    requires Inv(s) && Enabled(s, Advance(t)) && Fresh(s, Advance(t))
    ensures Inv(AfterAdvance(s, t)) && AtomicEffect(s, Advance(t), AfterAdvance(s, t))
  {
    if PushesNow(s, Advance(t)) {
      PushSwapStep(s, t);
    } else if PopsNow(s, Advance(t)) {
      PopSwapStep(s, t);
    } else {
      QuietStep(s, t);
    }
  }

  /** The invariant is kept, and each step is one atomic operation of a sequential stack or
      none at all. */
  lemma StepIsAtomic(s: State, a: Action)
    requires Inv(s) && Enabled(s, a) && Fresh(s, a)
    ensures Inv(After(s, a)) && AtomicEffect(s, a, After(s, a))
  {
    match a
    case BeginPush(t, v, n, contents) => BeginPushStep(s, t, v, n, contents);
    case BeginPop(t) => BeginPopStep(s, t);
    case Scribble(n, contents) => ScribbleStep(s, n, contents);
    case Advance(t) => AdvanceIsAtomic(s, t);
  }

  /** And that is exact: a step keeps the invariant if and only if it is not the successful swap
      of an outdated pop. */
  lemma StepKeepsExactly(s: State, a: Action)
    requires Inv(s) && Enabled(s, a)
    ensures Inv(After(s, a)) <==> Fresh(s, a)
  {
    hide Inv, Outdated;
    if Fresh(s, a) { StepIsAtomic(s, a); } else { OutdatedBreaks(s, a.thread); }
  }

  /** A thread that is in the middle of an operation can always take its next step: every
      address it dereferences is mapped, the stale ones included. */
  lemma NeverStuck(s: State, t: nat)
    requires Inv(s) && t < |s.threads| && !s.threads[t].Idle?
    ensures Enabled(s, Advance(t))
  {
    assert PcOk(s, s.threads[t]);
  }

  // ---------- Whole runs ----------

  datatype Run = Run(states: seq<State>, actions: seq<Action>)

  ghost predicate Start(s: State) {
    && s.top == 0 && s.nodeCount == 0 && s.out == {} && s.chain == [] && s.pops == 0
    && s.log == [] && s.returned == []
    && forall t | 0 <= t < |s.threads| :: s.threads[t].Idle?
  }

  ghost predicate StepOf(r: Run, i: nat) {
    && i + 1 < |r.states| && i < |r.actions|
    && Enabled(r.states[i], r.actions[i]) && r.states[i + 1] == After(r.states[i], r.actions[i])
  }

  /** Any interleaving. */
  ghost predicate Follows(r: Run) {
    |r.states| == |r.actions| + 1 && Start(r.states[0]) && forall i | 0 <= i < |r.actions| :: StepOf(r, i)
  }

  /** An interleaving without the successful swap of an outdated pop. */
  ghost predicate Valid(r: Run) {
    Follows(r) && forall i | 0 <= i < |r.actions| :: Fresh(r.states[i], r.actions[i])
  }

  lemma StartInv(s: State)
    requires Start(s)
    ensures Inv(s)
  {
    forall t | 0 <= t < |s.threads| ensures PcOk(s, s.threads[t]) && Owed(s.threads[t]) == [] {}
    SumOfZeros(s.threads, PendingPush);
    SumOfZeros(s.threads, PendingPop);
  }

  lemma {:induction false} InvUpTo(r: Run, i: nat)
    requires Follows(r) && i < |r.states| && forall j | 0 <= j < i :: Fresh(r.states[j], r.actions[j])
    ensures Inv(r.states[i])
  {
    hide Inv, Start, Fresh;
    if i == 0 {
      StartInv(r.states[0]);
    } else {
      InvUpTo(r, i - 1);
      assert StepOf(r, i - 1);
      StepIsAtomic(r.states[i - 1], r.actions[i - 1]);
    }
  }

  lemma RunInv(r: Run, i: nat)
    requires Valid(r) && i < |r.states|
    ensures Inv(r.states[i])
  {
    InvUpTo(r, i);
  }

  /** No pop's swap succeeds when the pops since its load are a positive multiple of 65536. */
  predicate Awake(s: State, a: Action) { PopsNow(s, a) ==> !Overslept(s, s.threads[a.thread].at) }

  /** Every interleaving in which no pop oversleeps is one of those. */
  lemma AwakeMeansValid(r: Run)
    requires Follows(r) && forall i | 0 <= i < |r.actions| :: Awake(r.states[i], r.actions[i])
    ensures Valid(r)
  {
    FreshUpTo(r, |r.actions|);
  }

  lemma {:induction false} FreshUpTo(r: Run, n: nat)
    requires Follows(r) && n <= |r.actions| && forall i | 0 <= i < n :: Awake(r.states[i], r.actions[i])
    ensures forall i | 0 <= i < n :: Fresh(r.states[i], r.actions[i])
  {
    hide Follows, Inv, Awake, Fresh;
    FollowsSizes(r);
    if n > 0 {
      FreshUpTo(r, n - 1);
      InvUpTo(r, n - 1);
      AwakeIsFresh(r.states[n - 1], r.actions[n - 1]);
    }
  }

  lemma AwakeIsFresh(s: State, a: Action)
    requires Inv(s) && Awake(s, a)
    ensures Fresh(s, a)
  {
    hide Overslept, Outdated, Owned, Counted, Logged, Chained, PcsOk;
    if PopsNow(s, a) && Outdated(s, a.thread) { OutdatedMeansOverslept(s, a.thread); }
  }

  lemma FollowsSizes(r: Run)
    requires Follows(r)
    ensures |r.states| == |r.actions| + 1
  {
  }

  /** Linearizability: in every run every step acts atomically on one LIFO sequence, the
      logged order of the compare-and-swaps is a legal sequential history ending in the
      present contents, and what each thread has been handed so far, followed by what it is
      about to be handed, is exactly what its pops took off that sequence, in order. */
  lemma Linearizable(r: Run, i: nat)
    requires Valid(r) && i < |r.states|
    ensures i < |r.actions| ==> AtomicEffect(r.states[i], r.actions[i], r.states[i + 1])
    ensures Replay(r.states[i].log) == Legal(Contents(r.states[i]))
    ensures forall t | 0 <= t < |r.states[i].threads| ::
              PoppedBy(r.states[i].log, t) == PoppedBy(r.states[i].returned, t) + Owed(r.states[i].threads[t])
  {
    RunInv(r, i);
    if i < |r.actions| {
      assert StepOf(r, i);
      StepIsAtomic(r.states[i], r.actions[i]);
    }
  }

  // ---------- Consequences ----------

  function Pushes(log: seq<Event>): multiset<int> {
    if log == [] then multiset{} else
      var e := log[|log| - 1];
      Pushes(log[..|log| - 1]) + if e.Push? then multiset{e.value} else multiset{}
  }

  function Pops(log: seq<Event>): multiset<int> {
    if log == [] then multiset{} else
      var e := log[|log| - 1];
      Pops(log[..|log| - 1]) + if e.Pop? then multiset{e.value} else multiset{}
  }

  lemma MultisetHead(s: seq<int>)
    requires s != []
    ensures multiset(s) == multiset{s[0]} + multiset(s[1..])
  {
    assert s == [s[0]] + s[1..];
  }

  lemma {:induction false} PushesAndPops(log: seq<Event>)
    requires Replay(log).Legal?
    ensures Pushes(log) == Pops(log) + multiset(Replay(log).stack)
  {
    if log != [] {
      var before := log[..|log| - 1];
      PushesAndPops(before);
      var stack, stack' := Replay(before).stack, Replay(log).stack;
      if log[|log| - 1].Push? {
        MultisetHead(stack');
        assert stack'[1..] == stack;
      } else {
        MultisetHead(stack);
      }
    }
  }

  /** No value is lost, invented or handed out twice: at every moment of every run the values
      pushed are the values popped plus the values on the stack. */
  lemma Conservation(r: Run, i: nat)
    requires Valid(r) && i < |r.states|
    ensures Pushes(r.states[i].log) == Pops(r.states[i].log) + multiset(Contents(r.states[i]))
  {
    RunInv(r, i);
    PushesAndPops(r.states[i].log);
  }

  /** Each node the pool has handed out is linked from `top` or held by exactly one thread,
      and never both. */
  lemma OnePlace(s: State, n: Address)
    requires Inv(s) && n in s.out
    ensures n in s.chain <==> !exists t :: Private(s, t, n)
    ensures forall t, u | Private(s, t, n) && Private(s, u, n) :: t == u
    ensures forall i, j | 0 <= i < |s.chain| && 0 <= j < |s.chain| && s.chain[i] == n == s.chain[j] :: i == j
  {
    forall t, u | Private(s, t, n) && Private(s, u, n) ensures t == u {
      if t < u {} else if u < t {}
    }
  }

  /** `pop` returns FALSE, by either exit, only when the stack is no longer than the pushes
      not yet counted plus the pops already counted. */
  lemma FalsePop(s: State, t: nat)
    requires Inv(s) && t < |s.threads|
    requires (s.threads[t].Idle? && s.nodeCount <= 0)
             || (s.threads[t].PopLoad? && AddressOf(s.top) == NULL)
    ensures |Contents(s)| <= Sum(s.threads, PendingPush) + Sum(s.threads, PendingPop)
    ensures s.threads[t].PopLoad? ==> Contents(s) == []
  {
    if s.threads[t].PopLoad? { assert s.chain == []; }
  }

  /** With no operation in progress the counter is exact. */
  lemma QuietCount(s: State)
    requires Inv(s) && forall t | 0 <= t < |s.threads| :: s.threads[t].Idle?
    ensures s.nodeCount == |Contents(s)|
  {
    SumOfZeros(s.threads, PendingPush);
    SumOfZeros(s.threads, PendingPop);
  }
}
