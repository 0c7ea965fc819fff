/** What the callers of the lock-free stack get: every push that was asked for takes effect once,
    with its value; a pop answers FALSE only for the reasons it should; and an operation that is
    left alone completes, with the answer of a sequential stack. */
module StackAnswers {
  import opened StampedWord
  import opened LockFreeStack
  import Tally

  // ---------- Pushes ----------

  /** The values thread `t` pushed, by the log of effects. */
  function PushedBy(log: seq<Event>, t: nat): seq<int> {
    if log == [] then [] else
      var earlier, last := PushedBy(log[..|log| - 1], t), log[|log| - 1];
      if last.Push? && last.thread == t then earlier + [last.value] else earlier
  }

  /** The values thread `t` was asked to push. */
  function AskedOf(actions: seq<Action>, t: nat): seq<int> {
    if actions == [] then [] else
      var earlier, last := AskedOf(actions[..|actions| - 1], t), actions[|actions| - 1];
      if last.BeginPush? && last.thread == t then earlier + [last.value] else earlier
  }

  /** The value of a push that has not taken effect yet. */
  function InHand(pc: Pc): seq<int> {
    if pc.PushFill? || pc.PushLoad? || pc.PushLink? || pc.PushSwap? then [pc.value] else []
  }

  lemma LastEvent(log: seq<Event>, e: Event, t: nat)
    ensures PushedBy(log + [e], t) == PushedBy(log, t) + if e.Push? && e.thread == t then [e.value] else []
  {
    Appended(log, e);
  }

  function EventOf(s: State, a: Action): seq<Event>
    requires Enabled(s, a)
  {
    if PushesNow(s, a) then [Push(a.thread, s.threads[a.thread].value)]
    else if PopsNow(s, a) then [Pop(a.thread, if s.chain == [] then 0 else Contents(s)[0])]
    else []
  }

  lemma LogGrows(s: State, a: Action)
    requires Enabled(s, a)
    ensures After(s, a).log == s.log + EventOf(s, a)
  {
    hide Contents;
    assert s.log + [] == s.log;
  }

  lemma OthersStay(s: State, a: Action, t: nat)
    requires Enabled(s, a) && t < |s.threads| && (a.Scribble? || a.thread != t)
    ensures After(s, a).threads[t] == s.threads[t]
  {
    hide Contents, AfterAdvance;
  }

  lemma OwnHand(s: State, a: Action)
    requires Enabled(s, a) && !a.Scribble?
    ensures PushesNow(s, a) ==> InHand(s.threads[a.thread]) == [s.threads[a.thread].value]
    ensures InHand(After(s, a).threads[a.thread]) ==
            if a.BeginPush? then [a.value] else if PushesNow(s, a) then [] else InHand(s.threads[a.thread])
    ensures a.BeginPush? || a.BeginPop? || PopsNow(s, a) ==> InHand(s.threads[a.thread]) == []
  {
    hide Contents;
  }

  lemma StepPushes(s: State, a: Action, t: nat)
    requires Enabled(s, a) && t < |s.threads|
    ensures PushedBy(After(s, a).log, t) + InHand(After(s, a).threads[t])
            == PushedBy(s.log, t) + InHand(s.threads[t]) + if a.BeginPush? && a.thread == t then [a.value] else []
  {
    LogGrows(s, a);
    if a.Scribble? || a.thread != t { OthersStay(s, a, t); }
    if !a.Scribble? { OwnHand(s, a); }
    var events, before := EventOf(s, a), PushedBy(s.log, t);
    assert s.log + [] == s.log;
    if events != [] { LastEvent(s.log, events[0], t); }
    hide After, Contents, InHand, PushedBy;
    assert before + [] == before;
  }

  /** In every run, up to any moment, the values a thread was asked to push are those its pushes
      put on the stack, in order, and then the one it is still busy with: a push takes effect
      once, with the value it was given. */
  lemma {:induction false} EveryPushTakesEffect(r: Run, i: nat, t: nat)
    requires Valid(r) && i < |r.states| && t < |r.states[0].threads|
    ensures t < |r.states[i].threads|
    ensures AskedOf(r.actions[..i], t) == PushedBy(r.states[i].log, t) + InHand(r.states[i].threads[t])
  {
    hide PushedBy, InHand, After, Enabled;
    if i == 0 {
      assert r.states[0].threads[t].Idle?;
      Nothing(r.states[0].threads[t], r.states[0].log, t);
    } else {
      EveryPushTakesEffect(r, i - 1, t);
      assert StepOf(r, i - 1);
      StepPushes(r.states[i - 1], r.actions[i - 1], t);
      assert r.actions[..i][..i - 1] == r.actions[..i - 1];
    }
  }

  lemma Nothing(pc: Pc, log: seq<Event>, t: nat)
    requires pc.Idle? && log == []
    ensures PushedBy(log, t) + InHand(pc) == [] == AskedOf([], t)
  {
  }

  // ---------- Pops that answer FALSE ----------

  predicate InPop(pc: Pc) {
    pc.PopDecrement? || pc.PopLoad? || pc.PopRestore? || pc.PopNext? || pc.PopSwap? || pc.PopRead? || pc.PopFree?
  }

  /** A pop that has started goes on to its second FALSE exit only from a stack that is empty. */
  lemma GivesUpOnlyWhenEmpty(s: State, t: nat)
    requires Inv(s) && Enabled(s, Advance(t)) && AfterAdvance(s, t).threads[t].PopRestore?
    ensures Contents(s) == []
  {
    assert s.threads[t].PopLoad? && AddressOf(s.top) == NULL;
    assert s.chain == [];
  }

  /** A pop that does not even start found a counter of 0 or less, and the stack is then no longer
      than the pushes not yet counted plus the pops already counted; with a positive counter it
      does start. */
  lemma RefusesOnlyWithinBound(s: State, t: nat)
    requires Inv(s) && Enabled(s, BeginPop(t))
    ensures After(s, BeginPop(t)).threads[t].Idle? <==> s.nodeCount <= 0
    ensures After(s, BeginPop(t)).threads[t].Idle? ==>
              After(s, BeginPop(t)) == s
              && |Contents(s)| <= Tally.Sum(s.threads, PendingPush) + Tally.Sum(s.threads, PendingPop)
  {
    if s.nodeCount <= 0 { FalsePop(s, t); }
  }

  /** A pop that has started ends only by the second FALSE exit, restoring the counter, or by
      handing over the value its swap took off the stack. */
  lemma PopEndsInAnAnswer(s: State, t: nat)
    requires Inv(s) && Enabled(s, Advance(t)) && InPop(s.threads[t])
    ensures var s' := AfterAdvance(s, t);
            && (InPop(s'.threads[t]) || s'.threads[t].Idle?)
            && (s'.threads[t].Idle? ==>
                  || (s.threads[t].PopRestore? && s'.returned == s.returned && s'.nodeCount == s.nodeCount + 1)
                  || (s.threads[t].PopFree? && s'.returned == s.returned + [Pop(t, s.threads[t].taken)]))
  {
    PcAt(s, t);
  }

  lemma PcAt(s: State, t: nat)
    requires Inv(s) && t < |s.threads|
    ensures PcOk(s, s.threads[t])
  {
  }

  /** So whenever a pop is on its way to answering FALSE after it had started, the stack was empty
      at some moment of that very pop. */
  lemma {:induction false} FalseMeantEmpty(r: Run, i: nat, t: nat) returns (j: nat)
    requires Valid(r) && i < |r.states| && t < |r.states[0].threads|
    requires |r.states[i].threads| == |r.states[0].threads| && r.states[i].threads[t].PopRestore?
    ensures j < i && t < |r.states[j].threads| && r.states[j].threads[t].PopLoad? && Contents(r.states[j]) == []
    ensures forall x | j < x <= i :: t < |r.states[x].threads| && r.states[x].threads[t].PopRestore?
  {
    hide Inv, Contents;
    assert r.states[0].threads[t].Idle?;
    assert StepOf(r, i - 1);
    RunInv(r, i - 1);
    var s, a := r.states[i - 1], r.actions[i - 1];
    if s.threads[t].PopRestore? {
      j := FalseMeantEmpty(r, i - 1, t);
    } else {
      OnlyByAdvance(s, a, t);
      GivesUpOnlyWhenEmpty(s, t);
      j := i - 1;
    }
  }

  lemma OnlyByAdvance(s: State, a: Action, t: nat)
    requires Enabled(s, a) && t < |s.threads| && !s.threads[t].PopRestore?
    requires t < |After(s, a).threads| && After(s, a).threads[t].PopRestore?
    ensures a == Advance(t) && s.threads[t].PopLoad?
  {
  }
}
