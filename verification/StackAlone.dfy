/** Obstruction freedom of the lock-free stack, with the right answer: from any state that the
    invariant allows, however many threads stopped in the middle of whatever, a thread that is
    left alone completes its operation within eight steps, as on a sequential stack. */
module StackAlone {
  import opened StampedWord
  import opened LockFreeStack

  /** `n` further steps of thread `t` alone; a thread that has completed stays where it is. */
  function Alone(s: State, t: nat, n: nat): State
    decreases n
  {
    if n == 0 || !Enabled(s, Advance(t)) then s else Alone(AfterAdvance(s, t), t, n - 1)
  }

  /** The thread has come back from a pop, with the top value or, from an empty stack, FALSE. */
  ghost predicate PopDone(s: State, s': State, t: nat)
    requires t < |s.threads|
  {
    && s'.threads == s.threads[t := Idle]
    && if Contents(s) == [] then s'.returned == s.returned && Contents(s') == []
       else s'.returned == s.returned + [Pop(t, Contents(s)[0])] && Contents(s') == Contents(s)[1..]
  }

  /** The thread has come back from a push of `v`. */
  ghost predicate PushDone(s: State, s': State, t: nat, v: int)
    requires t < |s.threads|
  {
    s'.threads == s.threads[t := Idle] && s'.returned == s.returned && Contents(s') == [v] + Contents(s)
  }

  /** What holds between a state and one a few quiet steps of the thread later. */
  ghost predicate Meanwhile(s: State, m: State, t: nat, pc: Pc)
    requires t < |s.threads|
  {
    Inv(m) && m.threads == s.threads[t := pc] && m.returned == s.returned && Contents(m) == Contents(s)
  }

  lemma One(s: State, t: nat, n: nat)
    requires n > 0 && Enabled(s, Advance(t))
    ensures Alone(s, t, n) == Alone(AfterAdvance(s, t), t, n - 1)
  {
  }

  lemma AtRest(s: State, t: nat, n: nat)
    requires t < |s.threads| && s.threads[t].Idle?
    ensures Alone(s, t, n) == s
  {
  }

  /** A step that is no successful swap. */
  lemma Quiet(s: State, t: nat)
    requires Inv(s) && t < |s.threads| && !s.threads[t].Idle? && !s.threads[t].PopFree?
    requires !PushesNow(s, Advance(t)) && !PopsNow(s, Advance(t))
    ensures Enabled(s, Advance(t))
    ensures var m := AfterAdvance(s, t); Meanwhile(s, m, t, m.threads[t])
  {
    hide Inv, Contents;
    NeverStuck(s, t);
    QuietStep(s, t);
    SameReturned(s, t);
    OnlyOwn(s, t);
  }

  lemma SameReturned(s: State, t: nat)
    requires Enabled(s, Advance(t)) && !s.threads[t].PopFree?
    ensures AfterAdvance(s, t).returned == s.returned
  {
    hide Contents;
  }

  lemma OnlyOwn(s: State, t: nat)
    requires Enabled(s, Advance(t))
    ensures AfterAdvance(s, t).threads == s.threads[t := AfterAdvance(s, t).threads[t]]
  {
    hide AfterAdvance;
  }

  lemma PopLater(s: State, m: State, s': State, t: nat, pc: Pc)
    requires t < |s.threads| && Meanwhile(s, m, t, pc) && PopDone(m, s', t)
    ensures PopDone(s, s', t)
  {
    assert s.threads[t := pc][t := Idle] == s.threads[t := Idle];
  }

  lemma PushLater(s: State, m: State, s': State, t: nat, pc: Pc, v: int)
    requires t < |s.threads| && Meanwhile(s, m, t, pc) && PushDone(m, s', t, v)
    ensures PushDone(s, s', t, v)
  {
    assert s.threads[t := pc][t := Idle] == s.threads[t := Idle];
  }

  // ---------- Pop ----------

  /** The swap has succeeded: the value is handed over. */
  lemma HandsOver(s: State, t: nat, n: nat)
    requires Inv(s) && t < |s.threads| && s.threads[t].PopRead? && n >= 2
    ensures var s' := Alone(s, t, n);
            && s'.threads == s.threads[t := Idle] && Contents(s') == Contents(s)
            && s'.returned == s.returned + [Pop(t, s.threads[t].taken)]
  {
    hide Inv, Contents;
    Quiet(s, t);
    One(s, t, n);
    var m := AfterAdvance(s, t);
    assert m.threads[t].PopFree? && m.threads[t].taken == s.threads[t].taken;
    NeverStuck(m, t);
    PopFreeStep(m, t);
    One(m, t, n - 1);
    AtRest(AfterAdvance(m, t), t, n - 2);
    assert s.threads[t := m.threads[t]][t := Idle] == s.threads[t := Idle];
  }

  lemma SwapsAndHandsOver(s: State, t: nat, n: nat)
    requires Inv(s) && t < |s.threads| && s.threads[t].PopSwap? && s.top == s.threads[t].seen && !Outdated(s, t)
    requires n >= 3
    ensures PopDone(s, Alone(s, t, n), t)
  {
    hide Inv, Contents, Outdated;
    NeverStuck(s, t);
    PopSwapStep(s, t);
    SameReturned(s, t);
    OnlyOwn(s, t);
    One(s, t, n);
    var m := AfterAdvance(s, t);
    HandsOver(m, t, n - 1);
    assert s.threads[t := m.threads[t]][t := Idle] == s.threads[t := Idle];
    assert Contents(s)[1..] == Contents(m);
  }

  lemma LoadsAndPops(s: State, t: nat, n: nat)
    requires Inv(s) && t < |s.threads| && s.threads[t].PopLoad? && n >= 5
    ensures PopDone(s, Alone(s, t, n), t)
  {
    hide Inv, Contents, PopDone;
    Quiet(s, t);
    One(s, t, n);
    var m := AfterAdvance(s, t);
    if AddressOf(s.top) == NULL {
      GivesUp(s, m, t, n - 1);
    } else {
      ReadsAndPops(m, t, n - 1);
    }
    PopLater(s, m, Alone(s, t, n), t, m.threads[t]);
  }

  lemma GivesUp(s: State, m: State, t: nat, n: nat)
    requires Inv(s) && t < |s.threads| && AddressOf(s.top) == NULL && Meanwhile(s, m, t, PopRestore) && n >= 1
    ensures PopDone(m, Alone(m, t, n), t)
  {
    assert s.chain == [];
    hide Inv;
    Quiet(m, t);
    One(m, t, n);
    AtRest(AfterAdvance(m, t), t, n - 1);
  }

  /** A top word loaded just now: the successor is read, and the swap succeeds. */
  lemma ReadsAndPops(s: State, t: nat, n: nat)
    requires Inv(s) && t < |s.threads| && s.threads[t] == PopNext(s.top, s.pops) && n >= 4
    ensures PopDone(s, Alone(s, t, n), t)
  {
    hide Inv, Contents, PopDone, Outdated;
    Quiet(s, t);
    One(s, t, n);
    var m := AfterAdvance(s, t);
    assert m.top == s.top && m.pops == s.pops && m.threads[t].PopSwap?;
    assert Fresh(m, Advance(t)) by { AwakeIsFresh(m, Advance(t)); }
    SwapsAndHandsOver(m, t, n - 1);
    PopLater(s, m, Alone(s, t, n), t, m.threads[t]);
  }

  /** From any position before the swap, unless that would be the successful swap of an outdated
      pop, a pop left alone answers with the top value, or with FALSE from an empty stack. */
  lemma PopCompletesAlone(s: State, t: nat)
    requires Inv(s) && t < |s.threads|
    requires s.threads[t].PopDecrement? || s.threads[t].PopLoad? || s.threads[t].PopNext? || s.threads[t].PopSwap?
    requires s.threads[t].PopSwap? ==> Fresh(s, Advance(t))
    requires s.threads[t].PopNext? ==> !Overslept(s, s.threads[t].at)
    ensures PopDone(s, Alone(s, t, 8), t)
  {
    hide Inv, Contents, PopDone, Outdated, Overslept;
    if s.threads[t].PopLoad? {
      LoadsAndPops(s, t, 8);
    } else if s.threads[t].PopSwap? {
      TriesAndPops(s, t, 8);
    } else {
      Quiet(s, t);
      One(s, t, 8);
      var m := AfterAdvance(s, t);
      if s.threads[t].PopDecrement? {
        LoadsAndPops(m, t, 7);
      } else {
        StillAwake(s, m, t);
        TriesAndPops(m, t, 7);
      }
      PopLater(s, m, Alone(s, t, 8), t, m.threads[t]);
    }
  }

  lemma StillAwake(s: State, m: State, t: nat)
    requires t < |s.threads| && s.threads[t].PopNext? && Enabled(s, Advance(t)) && m == AfterAdvance(s, t) && Inv(m)
    requires !Overslept(s, s.threads[t].at)
    ensures m.threads[t].PopSwap? && Fresh(m, Advance(t))
  {
    hide Inv, Contents, Outdated;
    AwakeIsFresh(m, Advance(t));
  }

  lemma TriesAndPops(s: State, t: nat, n: nat)
    requires Inv(s) && t < |s.threads| && s.threads[t].PopSwap? && Fresh(s, Advance(t)) && n >= 6
    ensures PopDone(s, Alone(s, t, n), t)
  {
    hide Inv, Contents, PopDone, Outdated;
    if s.top == s.threads[t].seen {
      SwapsAndHandsOver(s, t, n);
    } else {
      Quiet(s, t);
      One(s, t, n);
      var m := AfterAdvance(s, t);
      LoadsAndPops(m, t, n - 1);
      PopLater(s, m, Alone(s, t, n), t, m.threads[t]);
    }
  }

  // ---------- Push ----------

  lemma SwapsIn(s: State, t: nat, n: nat)
    requires Inv(s) && t < |s.threads| && s.threads[t].PushSwap? && s.top == s.threads[t].seen && n >= 2
    ensures PushDone(s, Alone(s, t, n), t, s.threads[t].value)
  {
    hide Inv, Contents;
    NeverStuck(s, t);
    PushSwapStep(s, t);
    SameReturned(s, t);
    OnlyOwn(s, t);
    One(s, t, n);
    var m := AfterAdvance(s, t);
    Quiet(m, t);
    One(m, t, n - 1);
    AtRest(AfterAdvance(m, t), t, n - 2);
    assert s.threads[t := m.threads[t]][t := Idle] == s.threads[t := Idle];
  }

  lemma LoadsAndPushes(s: State, t: nat, n: nat)
    requires Inv(s) && t < |s.threads| && s.threads[t].PushLoad? && n >= 4
    ensures PushDone(s, Alone(s, t, n), t, s.threads[t].value)
  {
    hide Inv, Contents, PushDone;
    var v := s.threads[t].value;
    Quiet(s, t);
    One(s, t, n);
    var m := AfterAdvance(s, t);
    LinksAndPushes(m, t, n - 1);
    PushLater(s, m, Alone(s, t, n), t, m.threads[t], v);
  }

  lemma LinksAndPushes(s: State, t: nat, n: nat)
    requires Inv(s) && t < |s.threads| && s.threads[t].PushLink? && s.threads[t].seen == s.top && n >= 3
    ensures PushDone(s, Alone(s, t, n), t, s.threads[t].value)
  {
    hide Inv, Contents, PushDone;
    var v := s.threads[t].value;
    Quiet(s, t);
    One(s, t, n);
    var m := AfterAdvance(s, t);
    SwapsIn(m, t, n - 1);
    PushLater(s, m, Alone(s, t, n), t, m.threads[t], v);
  }

  /** From any position before its swap a push left alone puts its value on top. */
  lemma PushCompletesAlone(s: State, t: nat)
    requires Inv(s) && t < |s.threads|
    requires s.threads[t].PushFill? || s.threads[t].PushLoad? || s.threads[t].PushLink? || s.threads[t].PushSwap?
    ensures PushDone(s, Alone(s, t, 8), t, s.threads[t].value)
  {
    hide Inv, Contents, PushDone;
    if s.threads[t].PushLoad? {
      LoadsAndPushes(s, t, 8);
    } else if s.threads[t].PushSwap? {
      TriesAndPushes(s, t, 8);
    } else {
      Quiet(s, t);
      One(s, t, 8);
      var m := AfterAdvance(s, t);
      if s.threads[t].PushFill? {
        LoadsAndPushes(m, t, 7);
      } else {
        TriesAndPushes(m, t, 7);
      }
      PushLater(s, m, Alone(s, t, 8), t, m.threads[t], s.threads[t].value);
    }
  }

  lemma TriesAndPushes(s: State, t: nat, n: nat)
    requires Inv(s) && t < |s.threads| && s.threads[t].PushSwap? && n >= 5
    ensures PushDone(s, Alone(s, t, n), t, s.threads[t].value)
  {
    hide Inv, Contents, PushDone;
    if s.top == s.threads[t].seen {
      SwapsIn(s, t, n);
    } else {
      Quiet(s, t);
      One(s, t, n);
      var m := AfterAdvance(s, t);
      LoadsAndPushes(m, t, n - 1);
      PushLater(s, m, Alone(s, t, n), t, m.threads[t], s.threads[t].value);
    }
  }
}
