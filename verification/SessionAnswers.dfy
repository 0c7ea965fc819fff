/** What findSession, releaseSession, the drop of a reference and accept come to: a session is
    found only if its flag was read OFF under a reference, and each of them, left alone, does
    exactly what its caller is owed, from any state. */
module SessionAnswers {
  import opened SessionSlots

  // ---------- Ids ----------

  /** The low 16 bits of an id are the index, as a short; the rest is the serial number. */
  lemma IdLayout(serial: nat, index: nat)
    requires index < 30000
    ensures MakeId(serial, index) == serial * 65536 + index && IndexOf(MakeId(serial, index)) == index
    ensures MAX_SESSION == 30000
  {
  }

  lemma IndexIsAShort(id: int)
    ensures -32768 <= IndexOf(id) < 32768 && (id - IndexOf(id)) % 65536 == 0
  {
  }

  // ---------- A found session was open ----------

  /** A finder gets past the release flag only when it reads it OFF. */
  lemma PassesOnlyOpen(s: State, a: Action, t: nat, id: int)
    requires Enabled(s, a) && t < |s.threads| && t < |After(s, a).threads|
    requires s.threads[t] != FindMatch(id) && After(s, a).threads[t] == FindMatch(id)
    ensures s.threads[t] == FindFlag(id) && 0 <= IndexOf(id) < |s.slots| && !s.slots[IndexOf(id)].released
  {
    hide NextSlot, Total;
  }

  lemma SameSizes(s: State, a: Action)
    requires Enabled(s, a)
    ensures |After(s, a).threads| == |s.threads| && |After(s, a).slots| == |s.slots|
  {
    hide NextSlot, NextPc, Total;
  }

  /** At some moment before, the finder was past its increment and read the flag OFF. */
  ghost predicate ReadOff(r: Run, j: nat, t: nat, id: int) {
    && j < |r.states| && t < |r.states[j].threads| && r.states[j].threads[t] == FindFlag(id)
    && 0 <= IndexOf(id) < |r.states[j].slots|
    && !r.states[j].slots[IndexOf(id)].released && r.states[j].slots[IndexOf(id)].count >= 1
  }

  lemma {:induction false} MatchingMeansOpen(r: Run, i: nat, t: nat, id: int) returns (j: nat)
    requires Valid(r) && i < |r.states| && t < |r.states[i].threads| && r.states[i].threads[t] == FindMatch(id)
    ensures j < i && ReadOff(r, j, t, id)
    ensures forall x | j < x <= i :: t < |r.states[x].threads| && r.states[x].threads[t] == FindMatch(id)
  {
    hide After, Enabled, Total, Weigh;
    if i == 0 {
      StartsIdle(r, t);
      assert false;
    } else {
      assert StepOf(r, i - 1);
      var s, a := r.states[i - 1], r.actions[i - 1];
      SameSizes(s, a);
      if s.threads[t] == FindMatch(id) {
        j := MatchingMeansOpen(r, i - 1, t, id);
      } else {
        j := i - 1;
        PassesOnlyOpen(s, a, t, id);
        CountsFinder(r, j, t, id);
      }
    }
  }

  lemma StartsIdle(r: Run, t: nat)
    requires Valid(r) && t < |r.states[0].threads|
    ensures r.states[0].threads[t].Idle?
  {
  }

  lemma CountsFinder(r: Run, j: nat, t: nat, id: int)
    requires Valid(r) && j < |r.states| && t < |r.states[j].threads| && r.states[j].threads[t] == FindFlag(id)
    requires 0 <= IndexOf(id) < |r.states[j].slots|
    ensures r.states[j].slots[IndexOf(id)].count >= 1
  {
    hide Valid, Total;
    CountCovers(r, j, t, IndexOf(id));
  }

  /** findSession returns a session only if, after it had counted itself in, it read the release
      flag OFF and then found the id it was asked for; in between it did nothing else. */
  lemma FoundMeansOpen(r: Run, i: nat, t: nat, id: int) returns (j: nat)
    requires Valid(r) && i < |r.actions| && t < |r.states[i].threads| && t < |r.states[i + 1].threads|
    requires r.states[i].threads[t] != Using(id) && r.states[i + 1].threads[t] == Using(id)
    ensures j < i && ReadOff(r, j, t, id)
    ensures forall x | j < x <= i :: t < |r.states[x].threads| && r.states[x].threads[t] == FindMatch(id)
    ensures 0 <= IndexOf(id) < |r.states[i].slots| && r.states[i].slots[IndexOf(id)].id == id
  {
    hide After, Enabled, Total, Weigh;
    assert StepOf(r, i);
    StepFinds(r.states[i], r.actions[i], t, id);
    j := MatchingMeansOpen(r, i, t, id);
  }

  // ---------- Left alone ----------

  /** `n` further steps of thread `t` alone, with nothing failing. */
  function Alone(s: State, t: nat, n: nat): State
    decreases n
  {
    if n == 0 || !Enabled(s, Step(t, Finish)) then s else Alone(AfterStep(s, t, Finish), t, n - 1)
  }

  /** The thread stands at `pc`, slot `k` is `slot`, and nothing else has changed. */
  function Moved(s: State, t: nat, pc: Pc, k: nat, slot: Slot): State
    requires t < |s.threads| && k < |s.slots|
  {
    s.(threads := s.threads[t := pc], slots := s.slots[k := slot])
  }

  /** One step of a thread that stands at `pc` at slot `k` and neither starts nor ends a cleanup. */
  lemma Turn(s: State, t: nat, n: nat, k: nat, pc: Pc, slot: Slot, pc': Pc, slot': Slot)
    requires t < |s.threads| && Where(pc) == k < |s.slots| && n > 0
    requires slot' == NextSlot(slot, pc, Finish)
    requires var target := if pc.BackDrop? then pc.current else slot.id;
             pc' == NextPc(slot, pc, Finish, 0 <= IndexOf(target) < |s.slots|) && !pc.CleanRest? && !pc'.CleanStart?
    ensures Alone(Moved(s, t, pc, k, slot), t, n) == Alone(Moved(s, t, pc', k, slot'), t, n - 1)
  {
    hide NextPc, NextSlot, Where;
    var m := Moved(s, t, pc, k, slot);
    assert s.threads[t := pc][t := pc'] == s.threads[t := pc'] && s.slots[k := slot][k := slot'] == s.slots[k := slot'];
    assert AfterStep(m, t, Finish) == Moved(s, t, pc', k, slot');
  }

  lemma Here(s: State, t: nat, pc: Pc, k: nat)
    requires t < |s.threads| && s.threads[t] == pc && k < |s.slots|
    ensures Moved(s, t, pc, k, s.slots[k]) == s
  {
  }

  lemma AtRest(s: State, t: nat, n: nat, k: nat, slot: Slot)
    requires t < |s.threads| && k < |s.slots|
    ensures Alone(Moved(s, t, Idle, k, slot), t, n) == Moved(s, t, Idle, k, slot)
  {
  }

  lemma Arrived(s: State, t: nat)
    ensures Alone(s, t, 0) == s
  {
  }

  // ---------- findSession and the drop of a reference ----------

  /** Dropping a reference: one less, and a release request exactly if it was the last. */
  lemma DropDecides(s: State, t: nat, n: nat, k: nat, id: int, slot: Slot)
    requires t < |s.threads| && 0 <= IndexOf(id) == k < |s.slots| && n >= 2
    ensures Alone(Moved(s, t, DropRef(id), k, slot), t, n) ==
            Moved(s, t, Idle, k, slot.(count := slot.count - 1,
                                       releaseRequests := slot.releaseRequests + if slot.count == 1 then 1 else 0))
  {
    hide Alone, Moved;
    var dropped := Dropped(slot);
    if slot.count == 1 {
      var asked := dropped.(releaseRequests := slot.releaseRequests + 1);
      Turn(s, t, n, k, DropRef(id), slot, PostRelease(id), dropped);
      Turn(s, t, n - 1, k, PostRelease(id), dropped, Idle, asked);
      AtRest(s, t, n - 2, k, asked);
    } else {
      Turn(s, t, n, k, DropRef(id), slot, Idle, dropped);
      AtRest(s, t, n - 1, k, dropped);
    }
  }

  lemma FindsOpen(s: State, t: nat, k: nat, id: int, slot: Slot)
    requires t < |s.threads| && IndexOf(id) == k < |s.slots| && !slot.released && slot.id == id
    ensures Alone(Moved(s, t, FindEnter(id), k, slot), t, 3) == Moved(s, t, Using(id), k, Taken(slot))
  {
    hide Alone, Moved, IndexOf;
    var taken := Taken(slot);
    Turn(s, t, 3, k, FindEnter(id), slot, FindFlag(id), taken);
    Turn(s, t, 2, k, FindFlag(id), taken, FindMatch(id), taken);
    Turn(s, t, 1, k, FindMatch(id), taken, Using(id), taken);
    Arrived(Moved(s, t, Using(id), k, taken), t);
  }

  lemma FindsReleased(s: State, t: nat, k: nat, id: int, slot: Slot)
    requires t < |s.threads| && IndexOf(id) == k < |s.slots| && slot.released
    ensures Alone(Moved(s, t, FindEnter(id), k, slot), t, 5) == Alone(Moved(s, t, DropRef(id), k, Taken(slot)), t, 3)
  {
    hide Alone, Moved, IndexOf;
    var taken := Taken(slot);
    Turn(s, t, 5, k, FindEnter(id), slot, FindFlag(id), taken);
    Turn(s, t, 4, k, FindFlag(id), taken, DropRef(id), taken);
  }

  lemma FindsOther(s: State, t: nat, k: nat, id: int, slot: Slot)
    requires t < |s.threads| && IndexOf(id) == k < |s.slots| && !slot.released && slot.id != id
    ensures Alone(Moved(s, t, FindEnter(id), k, slot), t, 5) == Alone(Moved(s, t, DropRef(id), k, Taken(slot)), t, 2)
  {
    hide Alone, Moved, IndexOf;
    var taken := Taken(slot);
    Turn(s, t, 5, k, FindEnter(id), slot, FindFlag(id), taken);
    Turn(s, t, 4, k, FindFlag(id), taken, FindMatch(id), taken);
    Turn(s, t, 3, k, FindMatch(id), taken, DropRef(id), taken);
  }

  lemma TakenAndDropped(slot: Slot)
    ensures Taken(slot) == slot.(count := slot.count + 1)
    ensures Taken(slot).(count := Taken(slot).count - 1,
                         releaseRequests := Taken(slot).releaseRequests + if Taken(slot).count == 1 then 1 else 0)
            == slot.(releaseRequests := slot.releaseRequests + if slot.count == 0 then 1 else 0)
  {
  }

  /** A finder left alone: it gets the session exactly if the flag is OFF and the id matches, and
      then holds one reference more; otherwise everything is as it was, but for a release
      request if nobody else held a reference. */
  lemma FindDecides(s: State, t: nat, id: int)
    requires t < |s.threads| && s.threads[t] == FindEnter(id) && 0 <= IndexOf(id) < |s.slots|
    ensures var k := IndexOf(id); var slot := s.slots[k];
            if !slot.released && slot.id == id then
              Alone(s, t, 3) == Moved(s, t, Using(id), k, slot.(count := slot.count + 1))
            else
              Alone(s, t, 5) == Moved(s, t, Idle, k, slot.(
                releaseRequests := slot.releaseRequests + if slot.count == 0 then 1 else 0))
  {
    hide Alone, Moved, IndexOf, Taken;
    var k := IndexOf(id);
    var slot := s.slots[k];
    Here(s, t, FindEnter(id), k);
    TakenAndDropped(slot);
    if !slot.released && slot.id == id {
      FindsOpen(s, t, k, id, slot);
    } else if slot.released {
      FindsReleased(s, t, k, id, slot);
      DropDecides(s, t, 3, k, id, Taken(slot));
    } else {
      FindsOther(s, t, k, id, slot);
      DropDecides(s, t, 2, k, id, Taken(slot));
    }
  }

  /** Whether a finder gets as far as its increment. */
  lemma FindEnters(s: State, t: nat, id: int)
    requires Enabled(s, Find(t, id))
    ensures After(s, Find(t, id)) ==
            if 0 <= IndexOf(id) < |s.slots| && s.slots[IndexOf(id)].valid
            then s.(threads := s.threads[t := FindEnter(id)]) else s
  {
  }

  /** A worker that is done with a completion gives up its reference, and goes on to release the
      slot's session exactly if it was the last. */
  lemma WorkerDecides(s: State, t: nat, k: nat)
    requires t < |s.threads| && s.threads[t] == Working(k) && k < |s.slots|
    requires 0 <= IndexOf(s.slots[k].id) < |s.slots|
    ensures var slot := s.slots[k]; var dropped := slot.(count := slot.count - 1);
            if slot.count == 1 then Alone(s, t, 2) == Moved(s, t, ReleaseCheck(slot.id), k, dropped)
            else Alone(s, t, 2) == Moved(s, t, Idle, k, dropped)
  {
    hide Alone, Moved;
    var slot := s.slots[k];
    var dropped := Dropped(slot);
    Here(s, t, Working(k), k);
    if slot.count == 1 {
      Turn(s, t, 2, k, Working(k), slot, ReadId(k), dropped);
      Turn(s, t, 1, k, ReadId(k), dropped, ReleaseCheck(slot.id), dropped);
      Arrived(Moved(s, t, ReleaseCheck(slot.id), k, dropped), t);
    } else {
      Turn(s, t, 2, k, Working(k), slot, Idle, dropped);
      AtRest(s, t, 1, k, dropped);
    }
  }

  // ---------- Posts ----------

  /** A sender asks for a send: with a reference of the request's own if it could be posted. */
  lemma RequestDecides(s: State, t: nat, id: int, ok: bool)
    requires t < |s.threads| && s.threads[t] == Using(id) && 0 <= IndexOf(id) < |s.slots|
    requires s.slots[IndexOf(id)].count >= 1
    ensures Enabled(s, Step(t, SendRequest))
    ensures Enabled(AfterStep(s, t, SendRequest), Step(t, if ok then Succeed else Fail))
    ensures var k := IndexOf(id); var slot := s.slots[k];
            AfterStep(AfterStep(s, t, SendRequest), t, if ok then Succeed else Fail) ==
            Moved(s, t, DropRef(id), k,
                  if ok then slot.(count := slot.count + 1, sendRequests := slot.sendRequests + 1) else slot)
  {
    var k := IndexOf(id);
    hide IndexOf;
    var m := AfterStep(s, t, SendRequest);
    assert m == Moved(s, t, Requesting(id), k, Taken(s.slots[k]));
    var s' := AfterStep(m, t, if ok then Succeed else Fail);
    assert s'.threads == s.threads[t := DropRef(id)];
    assert s'.slots == s.slots[k := s'.slots[k]];
  }

  /** A worker posts a receive or a send: with a reference of its own if it could be posted. */
  lemma PostDecides(s: State, t: nat, k: nat, io: Io, ok: bool)
    requires t < |s.threads| && s.threads[t] == Working(k) && k < |s.slots|
    ensures Enabled(s, Step(t, PostIo(io)))
    ensures Enabled(AfterStep(s, t, PostIo(io)), Step(t, if ok then Succeed else Fail))
    ensures var slot := s.slots[k];
            AfterStep(AfterStep(s, t, PostIo(io)), t, if ok then Succeed else Fail) ==
            if !ok then s
            else if io == Receive then
              Moved(s, t, Working(k), k, slot.(count := slot.count + 1, receives := slot.receives + 1))
            else Moved(s, t, Working(k), k, slot.(count := slot.count + 1, sends := slot.sends + 1))
  {
    hide IndexOf;
    var m := AfterStep(s, t, PostIo(io));
    assert m == Moved(s, t, Posting(k, io), k, Taken(s.slots[k]));
    var s' := AfterStep(m, t, if ok then Succeed else Fail);
    assert s'.threads == s.threads;
    assert s'.slots == s.slots[k := s'.slots[k]];
  }

  // ---------- releaseSession ----------

  /** A release alone of a session that is not valid, in use, or already claimed does nothing. */
  lemma ReleaseDeclines(s: State, t: nat, id: int)
    requires t < |s.threads| && s.threads[t] == ReleaseCheck(id) && 0 <= IndexOf(id) < |s.slots|
    requires var slot := s.slots[IndexOf(id)]; slot.count >= 0 && (!slot.valid || slot.count > 0 || slot.released)
    ensures Alone(s, t, 3) == s.(threads := s.threads[t := Idle])
  {
    var k := IndexOf(id);
    var slot := s.slots[k];
    Here(s, t, ReleaseCheck(id), k);
    assert Moved(s, t, Idle, k, slot) == s.(threads := s.threads[t := Idle]);
    hide Alone, Moved, IndexOf;
    if slot.valid {
      ReadsCount(s, t, 3, k, id, slot);
      Turn(s, t, 1, k, ReleaseSwap(id, slot.count), slot, Idle, slot);
      AtRest(s, t, 0, k, slot);
    } else {
      Turn(s, t, 3, k, ReleaseCheck(id), slot, Idle, slot);
      AtRest(s, t, 2, k, slot);
    }
  }

  lemma ReadsCount(s: State, t: nat, n: nat, k: nat, id: int, slot: Slot)
    requires t < |s.threads| && IndexOf(id) == k < |s.slots| && slot.valid && n >= 2
    ensures Alone(Moved(s, t, ReleaseCheck(id), k, slot), t, n)
            == Alone(Moved(s, t, ReleaseSwap(id, slot.count), k, slot), t, n - 2)
  {
    hide Alone, Moved, IndexOf;
    Turn(s, t, n, k, ReleaseCheck(id), slot, ReleaseRead(id), slot);
    Turn(s, t, n - 1, k, ReleaseRead(id), slot, ReleaseSwap(id, slot.count), slot);
  }

  /** With the flag OFF and a count of 0 the release takes the flag and looks at the id. */
  lemma TakesFlag(s: State, t: nat, n: nat, k: nat, id: int, slot: Slot)
    requires t < |s.threads| && IndexOf(id) == k < |s.slots|
    requires slot.valid && !slot.released && slot.count == 0 && n >= 4
    ensures Alone(Moved(s, t, ReleaseCheck(id), k, slot), t, n)
            == Alone(Moved(s, t, Compared(id, slot.id), k, slot.(released := true)), t, n - 4)
  {
    hide Alone, Moved, IndexOf;
    var claimed := slot.(released := true);
    ReadsCount(s, t, n, k, id, slot);
    Turn(s, t, n - 2, k, ReleaseSwap(id, 0), slot, Claimed(id), claimed);
    Turn(s, t, n - 3, k, Claimed(id), claimed, Compared(id, slot.id), claimed);
  }

  lemma Unfold(s: State, t: nat, n: nat)
    requires n > 0 && Enabled(s, Step(t, Finish))
    ensures Alone(s, t, n) == Alone(AfterStep(s, t, Finish), t, n - 1)
  {
  }

  /** The last three steps of a cleanup. */
  lemma Cleans(s: State, t: nat, k: nat, id: int, slot: Slot)
    requires t < |s.threads| && 0 <= IndexOf(id) == k < |s.slots| && slot.id == id
    ensures Alone(Moved(s, t, Compared(id, id), k, slot), t, 3) == Cleaned(s, t, k, id, slot)
  {
    hide IndexOf;
    var m0 := Moved(s, t, Compared(id, id), k, slot);
    var s1 := s.(cleaned := s.cleaned + {id});
    var m1 := Moved(s1, t, CleanStart(id), k, slot);
    assert m0.threads[t := CleanStart(id)] == m1.threads && m0.slots[k := slot] == m1.slots;
    assert AfterStep(m0, t, Finish) == m1;
    Unfold(m0, t, 3);
    CleansUp(s1, t, k, id, slot);
  }

  lemma CleansUp(s: State, t: nat, k: nat, id: int, slot: Slot)
    requires t < |s.threads| && 0 <= IndexOf(id) == k < |s.slots| && slot.id == id
    ensures Alone(Moved(s, t, CleanStart(id), k, slot), t, 2)
            == Moved(s, t, Idle, k, slot.(valid := false)).(empty := [k] + s.empty)
  {
    hide IndexOf;
    var closed := slot.(valid := false);
    Turn(s, t, 2, k, CleanStart(id), slot, CleanRest(id), closed);
    var m2 := Moved(s, t, CleanRest(id), k, closed);
    var m3 := Moved(s, t, Idle, k, closed).(empty := [k] + s.empty);
    assert m2.threads[t := Idle] == m3.threads && m2.slots[k := closed] == m3.slots;
    assert AfterStep(m2, t, Finish) == m3;
    Unfold(m2, t, 1);
    Arrived(m3, t);
  }

  /** The session `id` in slot `k` has been cleaned up, and the slot is free. */
  function Cleaned(s: State, t: nat, k: nat, id: int, slot: Slot): State
    requires t < |s.threads| && k < |s.slots|
  {
    Moved(s, t, Idle, k, slot.(valid := false)).(empty := [k] + s.empty, cleaned := s.cleaned + {id})
  }

  /** A release alone of the session that is in the slot, unused and unclaimed, cleans it up. */
  lemma ReleaseCleans(s: State, t: nat, id: int)
    requires t < |s.threads| && s.threads[t] == ReleaseCheck(id) && 0 <= IndexOf(id) < |s.slots|
    requires var slot := s.slots[IndexOf(id)]; slot.valid && !slot.released && slot.count == 0 && slot.id == id
    ensures var k := IndexOf(id); Alone(s, t, 7) == Cleaned(s, t, k, id, s.slots[k].(released := true))
  {
    hide Alone, Moved, IndexOf, Cleaned;
    var k := IndexOf(id);
    Here(s, t, ReleaseCheck(id), k);
    TakesFlag(s, t, 7, k, id, s.slots[k]);
    Cleans(s, t, k, id, s.slots[k].(released := true));
  }

  /** A release alone by an old id, of a slot whose present session is unused and unclaimed, gives
      the flag back, and then releases the present session. */
  lemma StaleReleaseCleans(s: State, t: nat, id: int)
    requires t < |s.threads| && s.threads[t] == ReleaseCheck(id) && 0 <= IndexOf(id) < |s.slots|
    requires var slot := s.slots[IndexOf(id)];
             slot.valid && !slot.released && slot.count == 0 && slot.id != id && IndexOf(slot.id) == IndexOf(id)
    ensures var k := IndexOf(id); var slot := s.slots[k];
            && Alone(s, t, 8) == s.(threads := s.threads[t := ReleaseCheck(slot.id)])
            && Alone(s.(threads := s.threads[t := ReleaseCheck(slot.id)]), t, 7)
               == Cleaned(s, t, k, slot.id, slot.(released := true))
  {
    var k := IndexOf(id);
    var slot := s.slots[k];
    Here(s, t, ReleaseCheck(id), k);
    var m := s.(threads := s.threads[t := ReleaseCheck(slot.id)]);
    assert Moved(s, t, ReleaseCheck(slot.id), k, slot) == m;
    assert Cleaned(m, t, k, slot.id, slot.(released := true)) == Cleaned(s, t, k, slot.id, slot.(released := true)) by {
      assert m.threads[t := Idle] == s.threads[t := Idle];
    }
    hide Alone, Moved, IndexOf, Cleaned;
    TakesFlag(s, t, 8, k, id, slot);
    BacksOut(s, t, k, id, slot);
    Arrived(m, t);
    ReleaseCleans(m, t, slot.id);
  }

  lemma BacksOut(s: State, t: nat, k: nat, id: int, slot: Slot)
    requires t < |s.threads| && IndexOf(id) == IndexOf(slot.id) == k < |s.slots| && slot.id != id
    requires !slot.released && slot.count == 0
    ensures Alone(Moved(s, t, Compared(id, slot.id), k, slot.(released := true)), t, 4)
            == Alone(Moved(s, t, ReleaseCheck(slot.id), k, slot), t, 0)
  {
    hide Alone, Moved, IndexOf;
    var claimed := slot.(released := true);
    var taken := Taken(claimed);
    var open := taken.(released := false);
    Turn(s, t, 4, k, Compared(id, slot.id), claimed, BackEnter(id, slot.id), claimed);
    Turn(s, t, 3, k, BackEnter(id, slot.id), claimed, BackClear(id, slot.id), taken);
    Turn(s, t, 2, k, BackClear(id, slot.id), taken, BackDrop(id, slot.id), open);
    Turn(s, t, 1, k, BackDrop(id, slot.id), open, ReleaseCheck(slot.id), slot);
  }

  // ---------- Accept ----------

  /** Accept, from taking an index to posting the first receive: the slot has a fresh id, is valid
      and open, and its count is the posted receive, or 0 if that failed. */
  lemma AcceptOpens(s: State, choice: Choice)
    requires s.accept.Waiting? && s.empty != [] && s.empty[0] < |s.slots|
    ensures var k := s.empty[0];
            var id, slot := MakeId(s.serial, k), s.slots[k];
            AfterSix(s, choice) == s.(
              slots := s.slots[k := slot.(
                id := id, valid := true, released := false, started := true,
                count := slot.count + (if choice == Fail then 0 else 1),
                receives := slot.receives + if choice == Fail then 0 else 1)],
              empty := s.empty[1..], serial := s.serial + 1, issued := s.issued + {id})
  {
  }

  function AfterSix(s: State, choice: Choice): State
    requires s.accept.Waiting? && s.empty != [] && s.empty[0] < |s.slots|
  {
    var s1 := AfterAccept(s, choice);
    var s2 := AfterAccept(s1, choice);
    var s3 := AfterAccept(s2, choice);
    var s4 := AfterAccept(s3, choice);
    var s5 := AfterAccept(s4, choice);
    AfterAccept(s5, choice)
  }
}
