/** Sleeping too long can break the stack: for every positive multiple of 65536 a run in which one
    pop sleeps through exactly that many, and then takes a node that is back in the pool for the
    top. */
module StampWrap {
  import opened StampedWord
  import opened LockFreeStack

  const A: Address := Address(0x10)
  const B: Address := Address(0x20)
  const C: Address := Address(0x30)

  /** Some run, every compare-and-swap of which is fresh, ends here. */
  ghost predicate Reached(s: State) {
    exists r: Run :: Valid(r) && r.states[|r.states| - 1] == s
  }

  lemma Onwards(s: State, a: Action)
    requires Reached(s) && Enabled(s, a) && Fresh(s, a)
    ensures Reached(After(s, a))
  {
    var r: Run :| Valid(r) && r.states[|r.states| - 1] == s;
    var r' := Run(r.states + [After(s, a)], r.actions + [a]);
    forall i | 0 <= i < |r'.actions| ensures StepOf(r', i) {
      if i < |r.actions| { assert StepOf(r, i); }
    }
    assert Valid(r') && r'.states[|r'.states| - 1] == After(s, a);
  }

  lemma ReachedInv(s: State)
    requires Reached(s)
    ensures Inv(s)
  {
    var r: Run :| Valid(r) && r.states[|r.states| - 1] == s;
    RunInv(r, |r.states| - 1);
  }

  /** What a push that nobody interrupts makes of the stack. */
  function Pushed(s: State, t: nat, n: Address): State
    requires t < |s.threads|
  {
    s.(top := PushedOver(s.top, n), nodeCount := s.nodeCount + 1, out := s.out + {n},
       memory := s.memory[n := Node(AddressOf(s.top), 0)], chain := [n] + s.chain, log := s.log + [Push(t, 0)])
  }

  lemma StartPush(s: State, t: nat, n: Address)
    requires Reached(s) && t < |s.threads| && s.threads[t].Idle? && IsNode(n) && n !in s.out
    ensures Reached(s.(threads := s.threads[t := PushLoad(n, 0)], memory := s.memory[n := Node(NULL, 0)],
            out := s.out + {n}))
  {
    hide Reached;
    var s1 := After(s, BeginPush(t, 0, n, Node(NULL, 0)));
    Onwards(s, BeginPush(t, 0, n, Node(NULL, 0)));
    Onwards(s1, Advance(t));
    assert s1.threads[t := PushLoad(n, 0)] == s.threads[t := PushLoad(n, 0)];
    assert s1.memory[n := Node(NULL, 0)] == s.memory[n := Node(NULL, 0)];
  }

  lemma LinkPush(s: State, t: nat, n: Address)
    requires Reached(s) && t < |s.threads| && s.threads[t] == PushLoad(n, 0) && n in s.memory && s.memory[n].data == 0
    ensures Reached(s.(threads := s.threads[t := PushSwap(n, 0, s.top)],
            memory := s.memory[n := Node(AddressOf(s.top), 0)]))
  {
    hide Reached;
    var s1 := After(s, Advance(t));
    Onwards(s, Advance(t));
    Onwards(s1, Advance(t));
    assert s1.threads[t := PushSwap(n, 0, s.top)] == s.threads[t := PushSwap(n, 0, s.top)];
  }

  lemma EndPush(s: State, t: nat, n: Address)
    requires Reached(s) && t < |s.threads| && s.threads[t] == PushSwap(n, 0, s.top)
    ensures Reached(s.(threads := s.threads[t := Idle], top := PushedOver(s.top, n), nodeCount := s.nodeCount + 1,
                       chain := [n] + s.chain, log := s.log + [Push(t, 0)]))
  {
    hide Reached;
    var s1 := After(s, Advance(t));
    Onwards(s, Advance(t));
    Onwards(s1, Advance(t));
    assert s1.threads[t := Idle] == s.threads[t := Idle];
  }

  lemma WholePush(s: State, t: nat, n: Address)
    requires Reached(s) && t < |s.threads| && s.threads[t].Idle? && IsNode(n) && n !in s.out
    ensures Reached(Pushed(s, t, n))
  {
    hide Reached;
    var s1 := s.(threads := s.threads[t := PushLoad(n, 0)], memory := s.memory[n := Node(NULL, 0)], out := s.out + {n});
    StartPush(s, t, n);
    var s2 := s1.(threads := s1.threads[t := PushSwap(n, 0, s.top)],
        memory := s1.memory[n := Node(AddressOf(s.top), 0)]);
    LinkPush(s1, t, n);
    EndPush(s2, t, n);
    assert s2.threads[t := Idle] == s.threads;
    assert s2.memory == s.memory[n := Node(AddressOf(s.top), 0)];
  }

  /** What a pop that nobody interrupts makes of a stack that is not empty. */
  function Popped(s: State, t: nat): State
    requires t < |s.threads| && s.chain != [] && AddressOf(s.top) in s.memory
  {
    var n, taken := AddressOf(s.top), Contents(s)[0];
    s.(top := PoppedOver(s.top, s.memory[n].next), nodeCount := s.nodeCount - 1, out := s.out - {n},
       chain := s.chain[1..], pops := s.pops + 1, log := s.log + [Pop(t, taken)],
       returned := s.returned + [Pop(t, s.memory[n].data)])
  }

  lemma StartPop(s: State, t: nat)
    requires Reached(s) && t < |s.threads| && s.threads[t].Idle? && s.nodeCount > 0
    requires AddressOf(s.top) in s.memory && AddressOf(s.top) != NULL
    ensures Reached(s.(threads := s.threads[t := PopSwap(s.top, s.pops, s.memory[AddressOf(s.top)].next)],
                       nodeCount := s.nodeCount - 1))
  {
    hide Reached;
    var s1 := After(s, BeginPop(t));
    Onwards(s, BeginPop(t));
    var s2 := After(s1, Advance(t));
    Onwards(s1, Advance(t));
    var s3 := After(s2, Advance(t));
    Onwards(s2, Advance(t));
    Onwards(s3, Advance(t));
    var pc := PopSwap(s.top, s.pops, s.memory[AddressOf(s.top)].next);
    assert s3.threads[t := pc] == s.threads[t := pc];
  }

  /** A pop that nobody interrupted is up to date. */
  lemma PromptIsFresh(s: State, t: nat, next: Address)
    requires Reached(s) && t < |s.threads| && s.threads[t] == PopSwap(s.top, s.pops, next)
    ensures Fresh(s, Advance(t))
  {
    ReachedInv(s);
    hide Inv;
    AwakeIsFresh(s, Advance(t));
  }

  /** The swap, and then reading and freeing the node. */
  lemma SwapPop(s: State, t: nat, next: Address) returns (s': State)
    requires Reached(s) && t < |s.threads| && s.threads[t] == PopSwap(s.top, s.pops, next) && s.chain != []
    ensures Reached(s')
    ensures s' == s.(threads := s.threads[t := PopRead(AddressOf(s.top), Contents(s)[0])],
                     top := PoppedOver(s.top, next), chain := s.chain[1..], pops := s.pops + 1,
                     log := s.log + [Pop(t, Contents(s)[0])])
  {
    hide Reached, Contents, Fresh;
    PromptIsFresh(s, t, next);
    s' := After(s, Advance(t));
    Onwards(s, Advance(t));
  }

  lemma FreePop(s: State, t: nat, n: Address, taken: int)
    requires Reached(s) && t < |s.threads| && s.threads[t] == PopRead(n, taken) && n in s.memory
    ensures Reached(s.(threads := s.threads[t := Idle], out := s.out - {n},
                       returned := s.returned + [Pop(t, s.memory[n].data)]))
  {
    hide Reached;
    var s1 := After(s, Advance(t));
    Onwards(s, Advance(t));
    Onwards(s1, Advance(t));
    assert s1.threads[t := Idle] == s.threads[t := Idle];
  }

  lemma EndPop(s: State, t: nat, next: Address)
    requires Reached(s) && t < |s.threads| && s.threads[t] == PopSwap(s.top, s.pops, next)
    requires s.chain != [] && AddressOf(s.top) in s.memory
    ensures Reached(s.(threads := s.threads[t := Idle], top := PoppedOver(s.top, next),
                       out := s.out - {AddressOf(s.top)},
                       chain := s.chain[1..], pops := s.pops + 1, log := s.log + [Pop(t, Contents(s)[0])],
                       returned := s.returned + [Pop(t, s.memory[AddressOf(s.top)].data)]))
  {
    var taken := Contents(s)[0];
    hide Reached, Contents;
    var s1 := SwapPop(s, t, next);
    FreePop(s1, t, AddressOf(s.top), taken);
    assert s1.threads[t := Idle] == s.threads[t := Idle];
  }

  lemma WholePop(s: State, t: nat)
    requires Reached(s) && t < |s.threads| && s.threads[t].Idle? && s.nodeCount > 0
    requires s.chain != [] && AddressOf(s.top) in s.memory && AddressOf(s.top) != NULL
    ensures Reached(Popped(s, t))
  {
    hide Reached;
    var next := s.memory[AddressOf(s.top)].next;
    var s1 := s.(threads := s.threads[t := PopSwap(s.top, s.pops, next)], nodeCount := s.nodeCount - 1);
    StartPop(s, t);
    EndPop(s1, t, next);
    SameContents(s, s1);
    assert s1.threads[t := Idle] == s.threads;
  }

  lemma SameContents(s: State, s': State)
    requires s'.chain == s.chain && s'.memory == s.memory
    ensures Contents(s') == Contents(s)
  {
  }

  /** Thread 0 sleeps before the compare-and-swap of a pop it began with A on top of B; since
      then B has left the stack and A has come back, on top of C. */
  ghost predicate Asleep(s: State, seen: bv64, pops: nat) {
    && Reached(s) && s.threads == [PopSwap(seen, 0, B), Idle] && s.pops == pops
    && AddressOf(seen) == A && StampOf(seen) == StampAfter(0)
    && s.chain == [A, C] && s.out == {A, C} && s.nodeCount == 1
  }

  lemma ThreePushed() returns (s: State)
    ensures Reached(s) && s.threads == [Idle, Idle] && s.pops == 0 && s.nodeCount == 3
    ensures s.chain == [A, B, C] && s.out == {A, B, C}
  {
    var s0 := State(0, 0, map[], {}, [Idle, Idle], [], 0, [], []);
    assert Reached(s0) by {
      var r := Run([s0], []);
      assert Valid(r) && r.states[|r.states| - 1] == s0;
    }
    hide Reached;
    WholePush(s0, 1, C);
    var s1 := Pushed(s0, 1, C);
    WholePush(s1, 1, B);
    var s2 := Pushed(s1, 1, B);
    WholePush(s2, 1, A);
    s := Pushed(s2, 1, A);
  }

  lemma TopOf(s: State)
    requires Reached(s)
    ensures AddressOf(s.top) == (if s.chain == [] then NULL else s.chain[0]) && StampOf(s.top) == StampAfter(s.pops)
    ensures forall i | 0 <= i < |s.chain| :: s.chain[i] in s.memory
  {
    ReachedInv(s);
  }

  lemma NextOf(s: State, i: nat)
    requires Reached(s) && i < |s.chain|
    ensures s.chain[i] in s.memory && s.memory[s.chain[i]].next == At(s.chain, i + 1)
  {
    ReachedInv(s);
  }

  lemma FallAsleep() returns (s: State, seen: bv64)
    ensures Asleep(s, seen, 2)
  {
    hide Reached, Contents;
    var s3 := ThreePushed();
    TopOf(s3);
    seen := s3.top;
    NextOf(s3, 0);
    StartPop(s3, 0);
    var s4 := s3.(threads := s3.threads[0 := PopSwap(seen, 0, B)], nodeCount := 2);
    TopOf(s4);
    NextOf(s4, 0);
    WholePop(s4, 1);
    var s5 := Popped(s4, 1);
    TopOf(s5);
    NextOf(s5, 0);
    WholePop(s5, 1);
    var s6 := Popped(s5, 1);
    WholePush(s6, 1, A);
    s := Pushed(s6, 1, A);
  }

  /** A is popped and pushed once more. */
  lemma SleepOn(s: State, seen: bv64, pops: nat) returns (s': State)
    requires Asleep(s, seen, pops)
    ensures Asleep(s', seen, pops + 1)
  {
    hide Reached, Contents;
    TopOf(s);
    WholePop(s, 1);
    var s1 := Popped(s, 1);
    WholePush(s1, 1, A);
    s' := Pushed(s1, 1, A);
  }

  lemma {:induction false} SleepUntil(pops: nat) returns (s: State, seen: bv64)
    requires pops >= 2
    ensures Asleep(s, seen, pops)
  {
    hide Asleep;
    if pops == 2 {
      s, seen := FallAsleep();
    } else {
      s, seen := SleepUntil(pops - 1);
      s := SleepOn(s, seen, pops - 1);
    }
  }

  /** With any positive multiple of 65536 pops since its load the sleeper's compare-and-swap
      succeeds, although the top's successor has changed: the stack now begins with B, which is
      in the pool and has been written over there, and C, which was never popped, is linked
      neither from the top nor from any node in use. */
  lemma OversleepingBreaksTheStack(turns: nat) returns (s: State)
    requires turns > 0
    ensures Reached(s) && Inv(s) && Enabled(s, Advance(0)) && PopsNow(s, Advance(0)) && !Fresh(s, Advance(0))
    ensures s.pops - s.threads[0].at == turns * STAMP_LIMIT
    ensures var s' := After(s, Advance(0));
            && AddressOf(s'.top) == B && B !in s'.out && B in s'.memory && s'.memory[B].next == NULL
            && C in s'.out && (forall t | 0 <= t < |s'.threads| :: !Private(s', t, C))
            && (forall n | n in s'.out && n in s'.memory :: s'.memory[n].next != C || n == A)
            && Private(s', 0, A) && !Inv(s')
  {
    var asleep, seen := SleepUntil(turns * STAMP_LIMIT);
    hide Reached;
    s := Scribbled(asleep, seen, turns * STAMP_LIMIT);
    ReachedInv(s);
    StampsCoincide(0, turns * STAMP_LIMIT);
    WordFromParts(s.top, seen);
    PoppedOverParts(seen, B);
  }

  /** The pool writes into B, which it has not handed out. */
  lemma Scribbled(s: State, seen: bv64, pops: nat) returns (s': State)
    requires Asleep(s, seen, pops)
    ensures Asleep(s', seen, pops) && B in s'.memory && s'.memory[B].next == NULL
    ensures A in s'.memory && C in s'.memory && s'.memory[C].next == NULL
  {
    var a := Scribble(B, Node(NULL, 0));
    s' := After(s, a);
    Onwards(s, a);
    hide Reached;
    TopOf(s');
    NextOf(s', 1);
  }
}
