/** What becomes of a packet when nobody comes in between: a broadcast reaches every session it
    is meant for, a received packet becomes one job, and whatever a completion or a release
    gives up is given up whole. */
module PacketAnswers {
  import opened Tally
  import opened PacketLifetime

  // ---------- Broadcasts ----------

  /** What a target meets: whether its id still matches a session that is not to be disconnected,
      and whether the request to send can be posted. */
  datatype Luck = Luck(matches: bool, posted: bool)

  /** The session is found: the id matches, and it is not being released. */
  predicate Found(slots: seq<Slot>, k: nat, luck: Luck) { luck.matches && k < |slots| && slots[k].phase.Live? }

  /** How many of the targets are session `k`, and found. */
  function Reached(slots: seq<Slot>, targets: seq<nat>, lucks: seq<Luck>, k: nat): nat
    requires |lucks| == |targets|
  {
    if targets == [] then 0 else
      (if targets[0] == k && Found(slots, k, lucks[0]) then 1 else 0) + Reached(slots, targets[1..], lucks[1..], k)
  }

  /** For how many of those the request was posted. */
  function Notified(slots: seq<Slot>, targets: seq<nat>, lucks: seq<Luck>, k: nat): nat
    requires |lucks| == |targets|
  {
    if targets == [] then 0 else
      (if targets[0] == k && Found(slots, k, lucks[0]) && lucks[0].posted then 1 else 0)
      + Notified(slots, targets[1..], lucks[1..], k)
  }

  function Deliveries(slots: seq<Slot>, targets: seq<nat>, lucks: seq<Luck>): nat
    requires |lucks| == |targets|
  {
    if targets == [] then 0 else
      (if Found(slots, targets[0], lucks[0]) then 1 else 0) + Deliveries(slots, targets[1..], lucks[1..])
  }

  /** The session has `n` copies more of the packet queued, and is asked `m` times more to send. */
  function Given(slot: Slot, p: nat, n: nat, m: nat): Slot {
    slot.(queue := slot.queue + seq(n, _ => p), requests := slot.requests + m)
  }

  predicate Broadcasts(s: State, t: nat, lucks: seq<Luck>) {
    && t < |s.threads| && s.threads[t].Owning? && |lucks| == |s.threads[t].targets|
    && s.threads[t].p < |s.refs| == |s.frees|
    && forall i | 0 <= i < |lucks| :: s.threads[t].targets[i] < |s.slots|
  }

  /** What one target makes of the state. */
  function Served(s: State, t: nat, luck: Luck): State
    requires t < |s.threads| && s.threads[t].Owning? && s.threads[t].targets != []
    requires s.threads[t].p < |s.refs| == |s.frees| && s.threads[t].targets[0] < |s.slots|
  {
    var p, k := s.threads[t].p, s.threads[t].targets[0];
    var n := if Found(s.slots, k, luck) then 1 else 0;
    s.(threads := s.threads[t := Owning(p, s.threads[t].targets[1..])],
       slots := s.slots[k := Given(s.slots[k], p, n, if luck.posted then n else 0)], refs := s.refs[p := s.refs[p] + n])
  }

  /** A step that changes no count. */
  lemma Quietly(s: State, t: nat, k: nat, what: What)
    requires Enabled(s, Step(t, k, what)) && Made(s, t, k, what).ref == Made(s, t, k, what).free == 0
    ensures var c := Made(s, t, k, what);
            After(s, Step(t, k, what)) ==
            s.(slots := s.slots[k := c.slot], jobs := c.jobs, threads := s.threads[t := c.pc])
  {
    hide Move, CanMove;
    var c := Made(s, t, k, what);
    assert Added(s.refs, c.target, 0) == s.refs && AddedNat(s.frees, c.target, 0) == s.frees;
  }

  function Asked(s: State, t: nat, posted: bool): State
    requires t < |s.threads| && s.threads[t].Sharing? && s.threads[t].k < |s.slots|
  {
    var k := s.threads[t].k;
    After(After(After(s, Step(t, k, Share)), Step(t, k, Enqueue)), Step(t, k, Ask(posted)))
  }

  lemma SharesAndAsks(s: State, t: nat, posted: bool)
    requires t < |s.threads| && s.threads[t].Sharing? && s.threads[t].k < |s.slots| && s.threads[t].p < |s.refs|
    ensures var pc := s.threads[t];
            var p, k := pc.p, pc.k;
            Asked(s, t, posted) ==
            s.(threads := s.threads[t := Owning(p, pc.targets)],
               slots := s.slots[k := Given(s.slots[k], p, 1, if posted then 1 else 0)],
               refs := s.refs[p := s.refs[p] + 1])
  {
    var k := s.threads[t].k;
    var s1 := After(s, Step(t, k, Share));
    assert s1.frees == s.frees && s1.slots == s.slots;
    assert s.slots[k].queue + [s.threads[t].p] == Given(s.slots[k], s.threads[t].p, 1, 1).queue;
    Quietly(s1, t, k, Enqueue);
    var s2 := After(s1, Step(t, k, Enqueue));
    Quietly(s2, t, k, Ask(posted));
  }

  /** The steps a thread takes for the next target. */
  function OneTarget(s: State, t: nat, luck: Luck): State
    requires t < |s.threads| && s.threads[t].Owning? && s.threads[t].targets != []
    requires s.threads[t].p < |s.refs| == |s.frees| && s.threads[t].targets[0] < |s.slots|
  {
    var s1 := After(s, Step(t, s.threads[t].targets[0], Find(luck.matches)));
    if s1.threads[t].Sharing? then Asked(s1, t, luck.posted) else s1
  }

  lemma OneTargetServed(s: State, t: nat, luck: Luck)
    requires t < |s.threads| && s.threads[t].Owning? && s.threads[t].targets != []
    requires s.threads[t].p < |s.refs| == |s.frees| && s.threads[t].targets[0] < |s.slots|
    ensures OneTarget(s, t, luck) == Served(s, t, luck)
  {
    hide Asked;
    var k := s.threads[t].targets[0];
    Quietly(s, t, k, Find(luck.matches));
    var s1 := After(s, Step(t, k, Find(luck.matches)));
    assert s1.slots == s.slots;
    if s1.threads[t].Sharing? {
      SharesAndAsks(s1, t, luck.posted);
    } else {
      GivenNone(s.slots[k], s.threads[t].p);
    }
  }

  function Broadcast(s: State, t: nat, lucks: seq<Luck>): State
    requires Broadcasts(s, t, lucks)
    decreases |lucks|
  {
    if lucks == [] then s else
      OneTargetServed(s, t, lucks[0]);
      Broadcast(OneTarget(s, t, lucks[0]), t, lucks[1..])
  }

  lemma GivenTwice(slot: Slot, p: nat, n: nat, m: nat, n': nat, m': nat)
    ensures Given(Given(slot, p, n, m), p, n', m') == Given(slot, p, n + n', m + m')
  {
    assert Given(Given(slot, p, n, m), p, n', m').queue == Given(slot, p, n + n', m + m').queue;
  }

  lemma {:induction false} FoundAlike(slots: seq<Slot>, slots': seq<Slot>, targets: seq<nat>, lucks: seq<Luck>, k: nat)
    requires |lucks| == |targets| && |slots'| == |slots|
    requires forall j | 0 <= j < |slots| :: slots'[j].phase == slots[j].phase
    ensures Reached(slots', targets, lucks, k) == Reached(slots, targets, lucks, k)
    ensures Notified(slots', targets, lucks, k) == Notified(slots, targets, lucks, k)
    ensures Deliveries(slots', targets, lucks) == Deliveries(slots, targets, lucks)
  {
    if targets != [] { FoundAlike(slots, slots', targets[1..], lucks[1..], k); }
  }

  lemma ServedOne(s: State, t: nat, lucks: seq<Luck>)
    requires Broadcasts(s, t, lucks) && lucks != []
    ensures Broadcast(s, t, lucks) == Broadcast(Served(s, t, lucks[0]), t, lucks[1..])
    ensures Broadcasts(Served(s, t, lucks[0]), t, lucks[1..])
  {
    hide OneTarget;
    OneTargetServed(s, t, lucks[0]);
  }

  /** The loop goes on to its last target whatever it meets on the way: every session found has
      the packet queued once for each time it is a target, holds a reference for each copy, and
      has been asked to send as often as the request could be posted; nothing happens to any
      other session. */
  lemma {:induction false} BroadcastReaches(s: State, t: nat, lucks: seq<Luck>)
    requires Broadcasts(s, t, lucks)
    ensures var s', p, targets := Broadcast(s, t, lucks), s.threads[t].p, s.threads[t].targets;
            && s' == s.(threads := s.threads[t := Owning(p, [])], slots := s'.slots, refs := s'.refs)
            && s'.refs == s.refs[p := s.refs[p] + Deliveries(s.slots, targets, lucks)]
            && |s'.slots| == |s.slots|
            && forall k | 0 <= k < |s.slots| ::
                 s'.slots[k] == Given(s.slots[k], p, Reached(s.slots, targets, lucks, k),
                                      Notified(s.slots, targets, lucks, k))
    decreases |lucks|
  {
    var p, targets := s.threads[t].p, s.threads[t].targets;
    var s' := Broadcast(s, t, lucks);
    if lucks == [] {
      forall k | 0 <= k < |s.slots| ensures s'.slots[k] == Given(s.slots[k], p, 0, 0) { GivenNone(s.slots[k], p); }
    } else {
      hide Broadcast, Given, Reached, Notified, Deliveries, Served;
      ServedOne(s, t, lucks);
      var s1 := Served(s, t, lucks[0]);
      BroadcastReaches(s1, t, lucks[1..]);
      ServedCounts(s, t, lucks);
      forall k | 0 <= k < |s.slots|
        ensures s'.slots[k] == Given(s.slots[k], p, Reached(s.slots, targets, lucks, k),
                                     Notified(s.slots, targets, lucks, k))
      {
        ServedSlots(s, t, lucks, k);
      }
    }
  }

  lemma ServedCounts(s: State, t: nat, lucks: seq<Luck>)
    requires Broadcasts(s, t, lucks) && lucks != []
    ensures var s1, p, targets := Served(s, t, lucks[0]), s.threads[t].p, s.threads[t].targets;
            && |s1.slots| == |s.slots| && |s1.refs| == |s.refs| && s1.frees == s.frees && s1.jobs == s.jobs
            && s1.threads == s.threads[t := Owning(p, targets[1..])]
            && s1.refs[p := s1.refs[p] + Deliveries(s1.slots, targets[1..], lucks[1..])] ==
               s.refs[p := s.refs[p] + Deliveries(s.slots, targets, lucks)]
  {
    var s1, targets := Served(s, t, lucks[0]), s.threads[t].targets;
    GivenIsAsLive(s, t, lucks[0]);
    FoundAlike(s.slots, s1.slots, targets[1..], lucks[1..], 0);
  }

  lemma ServedSlots(s: State, t: nat, lucks: seq<Luck>, k: nat)
    requires Broadcasts(s, t, lucks) && lucks != [] && k < |s.slots|
    ensures var s1, p, targets := Served(s, t, lucks[0]), s.threads[t].p, s.threads[t].targets;
            |s1.slots| == |s.slots|
            && Given(s1.slots[k], p, Reached(s1.slots, targets[1..], lucks[1..], k),
                     Notified(s1.slots, targets[1..], lucks[1..], k)) ==
               Given(s.slots[k], p, Reached(s.slots, targets, lucks, k), Notified(s.slots, targets, lucks, k))
  {
    var s1, p, targets := Served(s, t, lucks[0]), s.threads[t].p, s.threads[t].targets;
    GivenIsAsLive(s, t, lucks[0]);
    FoundAlike(s.slots, s1.slots, targets[1..], lucks[1..], k);
    GivenNone(s.slots[k], p);
    var n := if targets[0] == k && Found(s.slots, k, lucks[0]) then 1 else 0;
    GivenTwice(s.slots[k], p, n, if lucks[0].posted then n else 0,
               Reached(s.slots, targets[1..], lucks[1..], k), Notified(s.slots, targets[1..], lucks[1..], k));
  }

  lemma GivenIsAsLive(s: State, t: nat, luck: Luck)
    requires t < |s.threads| && s.threads[t].Owning? && s.threads[t].targets != []
    requires s.threads[t].p < |s.refs| == |s.frees| && s.threads[t].targets[0] < |s.slots|
    ensures forall j | 0 <= j < |s.slots| :: Served(s, t, luck).slots[j].phase == s.slots[j].phase
  {
  }

  lemma GivenNone(slot: Slot, p: nat)
    ensures Given(slot, p, 0, 0) == slot
  {
    assert slot.queue + [] == slot.queue;
  }

  // ---------- A whole broadcast ----------

  /** subRef with what may follow it; the slot named in these steps is not touched. */
  function DropLast(s: State, t: nat): State
    requires t < |s.threads| && s.slots != []
    requires (s.threads[t].Owning? && s.threads[t].targets == []) || s.threads[t].Arrived?
  {
    var s1 := After(s, Step(t, 0, Drop));
    if s1.threads[t].Freeing? then After(s1, Step(t, 0, Free)) else s1
  }

  lemma DropLastDone(s: State, t: nat, p: nat)
    requires t < |s.threads| && s.slots != [] && p < |s.refs| == |s.frees|
    requires s.threads[t] == Owning(p, []) || s.threads[t] == Arrived(p)
    ensures DropLast(s, t) ==
            s.(threads := s.threads[t := Idle], refs := s.refs[p := s.refs[p] - 1],
               frees := s.frees[p := s.frees[p] + if s.refs[p] == 1 then 1 else 0])
  {
    assert s.slots[0 := s.slots[0]] == s.slots;
    assert s.frees[p := s.frees[p]] == s.frees;
  }

  function MadeFor(s: State, t: nat, targets: seq<nat>): State
    requires t < |s.threads| && s.threads[t].Idle? && s.slots != []
  {
    After(After(s, Create(t, ForSessions(targets))), Step(t, 0, Adopt))
  }

  lemma MadeForDone(s: State, t: nat, targets: seq<nat>)
    requires t < |s.threads| && s.threads[t].Idle? && s.slots != [] && |s.frees| == |s.refs|
    ensures MadeFor(s, t, targets) ==
            s.(threads := s.threads[t := Owning(|s.refs|, targets)], refs := s.refs + [1], frees := s.frees + [0])
  {
    assert s.slots[0 := s.slots[0]] == s.slots;
    var s1 := After(s, Create(t, ForSessions(targets)));
    assert Added(s1.refs, |s.refs|, 1) == s.refs + [1] && AddedNat(s1.frees, |s.refs|, 0) == s.frees + [0];
  }

  /** From mAlloc to the last subRef. */
  function Sent(s: State, t: nat, targets: seq<nat>, lucks: seq<Luck>): State
    requires t < |s.threads| && s.threads[t].Idle? && s.slots != [] && |s.frees| == |s.refs|
    requires |lucks| == |targets| && forall i | 0 <= i < |targets| :: targets[i] < |s.slots|
  {
    MadeForDone(s, t, targets);
    BroadcastReaches(MadeFor(s, t, targets), t, lucks);
    DropLast(Broadcast(MadeFor(s, t, targets), t, lucks), t)
  }

  /** A packet made for several sessions ends with as many references as it was queued times,
      one for each target found, and is freed at once if there were none. */
  lemma SharedByAll(s: State, t: nat, targets: seq<nat>, lucks: seq<Luck>)
    requires t < |s.threads| && s.threads[t].Idle? && s.slots != [] && |s.frees| == |s.refs|
    requires |lucks| == |targets| && forall i | 0 <= i < |targets| :: targets[i] < |s.slots|
    ensures var s', n := Sent(s, t, targets, lucks), Deliveries(s.slots, targets, lucks);
            && s'.threads == s.threads && s'.jobs == s.jobs && |s'.slots| == |s.slots|
            && s'.refs == s.refs + [n] && s'.frees == s.frees + [if n == 0 then 1 else 0]
            && forall k | 0 <= k < |s.slots| ::
                 s'.slots[k] == Given(s.slots[k], |s.refs|, Reached(s.slots, targets, lucks, k),
                                      Notified(s.slots, targets, lucks, k))
  {
    hide MadeFor, Broadcast, DropLast, Given;
    MadeForDone(s, t, targets);
    var s1 := MadeFor(s, t, targets);
    BroadcastReaches(s1, t, lucks);
    DropLastDone(Broadcast(s1, t, lucks), t, |s.refs|);
    assert s.threads[t := Idle] == s.threads;
  }

  // ---------- Received packets ----------

  function TakenIn(s: State, t: nat): State
    requires t < |s.threads| && s.threads[t].Idle? && s.slots != []
  {
    After(After(s, Create(t, Received)), Step(t, 0, Adopt))
  }

  lemma TakenInDone(s: State, t: nat)
    requires t < |s.threads| && s.threads[t].Idle? && s.slots != [] && |s.frees| == |s.refs|
    ensures TakenIn(s, t) ==
            s.(threads := s.threads[t := Arrived(|s.refs|)], refs := s.refs + [1], frees := s.frees + [0])
  {
    assert s.slots[0 := s.slots[0]] == s.slots;
    var s1 := After(s, Create(t, Received));
    assert Added(s1.refs, |s.refs|, 1) == s.refs + [1] && AddedNat(s1.frees, |s.refs|, 0) == s.frees + [0];
  }

  function Queued(s: State, t: nat): State
    requires t < |s.threads| && s.threads[t].Arrived? && s.slots != []
  {
    After(After(s, Step(t, 0, ShareJob)), Step(t, 0, EnqueueJob))
  }

  lemma QueuedDone(s: State, t: nat, p: nat)
    requires t < |s.threads| && s.threads[t] == Arrived(p) && s.slots != [] && p < |s.refs| == |s.frees|
    ensures Queued(s, t) ==
            s.(threads := s.threads[t := Owning(p, [])], jobs := s.jobs + [p], refs := s.refs[p := s.refs[p] + 1])
  {
    assert s.slots[0 := s.slots[0]] == s.slots;
    assert s.frees[p := s.frees[p]] == s.frees;
    var s1 := After(s, Step(t, 0, ShareJob));
    Quietly(s1, t, 0, EnqueueJob);
  }

  function HandedOn(s: State, t: nat, decoded: bool): State
    requires t < |s.threads| && s.threads[t].Idle? && s.slots != [] && |s.frees| == |s.refs|
  {
    TakenInDone(s, t);
    QueuedDone(TakenIn(s, t), t, |s.refs|);
    DropLast(if decoded then Queued(TakenIn(s, t), t) else TakenIn(s, t), t)
  }

  /** A received packet that decodes is queued as one job, which holds its only reference; one
      that does not is freed. */
  lemma ReceivedBecomesJob(s: State, t: nat, decoded: bool)
    requires t < |s.threads| && s.threads[t].Idle? && s.slots != [] && |s.frees| == |s.refs|
    ensures var s', p := HandedOn(s, t, decoded), |s.refs|;
            && s'.threads == s.threads && s'.slots == s.slots
            && s'.jobs == s.jobs + (if decoded then [p] else [])
            && s'.refs == s.refs + [if decoded then 1 else 0] && s'.frees == s.frees + [if decoded then 0 else 1]
  {
    hide TakenIn, Queued, DropLast;
    var p := |s.refs|;
    assert s.threads[t := Idle] == s.threads;
    TakenInDone(s, t);
    var s1 := TakenIn(s, t);
    if decoded {
      QueuedDone(s1, t, p);
      DropLastDone(Queued(s1, t), t, p);
    } else {
      DropLastDone(s1, t, p);
    }
  }

  /** The logic thread takes the oldest job, and the packet's last reference with it. */
  lemma JobIsUsedUp(s: State, t: nat)
    requires t < |s.threads| && s.threads[t].Idle? && s.slots != [] && |s.frees| == |s.refs| && s.jobs != []
    requires s.jobs[0] < |s.refs|
    ensures var s1, p := After(s, Step(t, 0, TakeJob)), s.jobs[0];
            && s1.threads[t] == Owning(p, [])
            && DropLast(s1, t) ==
               s.(jobs := s.jobs[1..], refs := s.refs[p := s.refs[p] - 1],
                  frees := s.frees[p := s.frees[p] + if s.refs[p] == 1 then 1 else 0])
  {
    Quietly(s, t, 0, TakeJob);
    DropLastDone(After(s, Step(t, 0, TakeJob)), t, s.jobs[0]);
    assert s.slots[0 := s.slots[0]] == s.slots && s.threads[t := Idle] == s.threads;
  }

  // ---------- Sending ----------

  /** The filling loop, as long as there is a packet and room. */
  function Filled(s: State, t: nat, k: nat): State
    requires t < |s.threads| && k < |s.slots|
    decreases |s.slots[k].queue|
  {
    if !Enabled(s, Step(t, k, Take)) then s else Filled(After(s, Step(t, k, Take)), t, k)
  }

  lemma {:induction false} FillsInOrder(s: State, t: nat, k: nat, m: nat)
    requires t < |s.threads| && k < |s.slots| && s.threads[t] == Filling(k)
    requires |s.slots[k].batch| + m <= 950 && m <= |s.slots[k].queue|
    requires m == |s.slots[k].queue| || |s.slots[k].batch| + m == 950
    ensures var slot := s.slots[k];
            Filled(s, t, k) ==
            s.(slots := s.slots[k := slot.(queue := slot.queue[m..], batch := slot.batch + slot.queue[..m])])
    decreases m
  {
    var slot := s.slots[k];
    if m == 0 {
      assert slot.queue[0..] == slot.queue && slot.batch + slot.queue[..0] == slot.batch;
      assert s.slots[k := slot] == s.slots;
    } else {
      TakesOne(s, t, k);
      var s1 := After(s, Step(t, k, Take));
      FillsInOrder(s1, t, k, m - 1);
      assert [slot.queue[0]] + slot.queue[1..][..m - 1] == slot.queue[..m];
      assert slot.batch + [slot.queue[0]] + slot.queue[1..][..m - 1] == slot.batch + slot.queue[..m];
    }
  }

  lemma TakesOne(s: State, t: nat, k: nat)
    requires t < |s.threads| && k < |s.slots| && s.threads[t] == Filling(k)
    requires s.slots[k].queue != [] && |s.slots[k].batch| < 950
    ensures var slot := s.slots[k];
            && Enabled(s, Step(t, k, Take))
            && After(s, Step(t, k, Take)) ==
               s.(slots := s.slots[k := slot.(queue := slot.queue[1..], batch := slot.batch + [slot.queue[0]])])
  {
    Quietly(s, t, k, Take);
    assert s.threads[t := Filling(k)] == s.threads;
  }

  function Begun(s: State, t: nat, k: nat): State
    requires t < |s.threads| && k < |s.slots| && s.threads[t].Idle? && s.slots[k].requests > 0
  {
    After(After(s, Step(t, k, StartSend)), Step(t, k, Try))
  }

  /** A queued request is used up; whoever takes it up sends exactly if the flag was clear. */
  lemma BegunDone(s: State, t: nat, k: nat)
    requires t < |s.threads| && k < |s.slots| && s.threads[t].Idle? && s.slots[k].requests > 0
    ensures var slot := s.slots[k];
            Begun(s, t, k) ==
            s.(threads := s.threads[t := if slot.sendFlag == 0 then Filling(k) else Idle],
               slots := s.slots[k := slot.(requests := slot.requests - 1, sendFlag := 1)])
  {
    Quietly(s, t, k, StartSend);
    Quietly(After(s, Step(t, k, StartSend)), t, k, Try);
  }

  function Launched(s: State, t: nat, k: nat, ok: bool): State
    requires t < |s.threads| && k < |s.slots| && s.threads[t] == Filling(k)
  {
    After(After(s, Step(t, k, Load)), Step(t, k, Post(ok)))
  }

  lemma LaunchedDone(s: State, t: nat, k: nat, ok: bool)
    requires t < |s.threads| && k < |s.slots| && s.threads[t] == Filling(k)
    ensures Launched(s, t, k, ok) ==
            s.(threads := s.threads[t := if ok then Idle else Dropping(k, 0)],
               slots := s.slots[k := s.slots[k].(outstanding := ok)])
  {
    Quietly(s, t, k, Load);
    Quietly(After(s, Step(t, k, Load)), t, k, Post(ok));
  }

  /** A request to send taken up by a thread that is then left alone: the oldest packets, all
      there are or 950, are the batch, in order, and it is on its way; or, if the send fails at
      once, about to be given up.  No count changes. */
  lemma SendsOut(s: State, t: nat, k: nat, m: nat, ok: bool)
    requires t < |s.threads| && k < |s.slots| && s.threads[t].Idle? && s.slots[k].requests > 0
    requires s.slots[k].sendFlag == 0 && s.slots[k].batch == []
    requires m == if |s.slots[k].queue| < 950 then |s.slots[k].queue| else 950
    ensures var slot, filled := s.slots[k], Filled(Begun(s, t, k), t, k);
            && |filled.threads| == |s.threads| && |filled.slots| == |s.slots| && filled.threads[t] == Filling(k)
            && Launched(filled, t, k, ok) ==
               s.(threads := s.threads[t := if ok then Idle else Dropping(k, 0)],
                  slots := s.slots[k := slot.(requests := slot.requests - 1, sendFlag := 1, outstanding := ok,
                                              queue := slot.queue[m..], batch := slot.queue[..m])])
  {
    hide Begun, Filled, Launched;
    BegunDone(s, t, k);
    FillsInOrder(Begun(s, t, k), t, k, m);
    assert [] + s.slots[k].queue[..m] == s.slots[k].queue[..m];
    LaunchedDone(Filled(Begun(s, t, k), t, k), t, k, ok);
  }

  // ---------- Giving up ----------

  /** The thread drops references one by one: what a completed or failed send leaves, or all that
      a released session has queued and was sending. */
  predicate GivesUp(pc: Pc, k: nat) {
    && (pc.Dropping? || pc.DropFreeing? || pc.Emptying? || pc.EmptyFreeing? || pc.Cleaning? || pc.CleanFreeing?)
    && pc.k == k
  }

  function NextOf(pc: Pc, slot: Slot): What {
    match pc
    case Dropping(_, i) => if i < |slot.batch| then DropOne else Finish
    case Emptying(_) => if slot.queue != [] then EmptyOne else Emptied
    case Cleaning(_, i) => if i < |slot.batch| then CleanOne else Vacate
    case _ => Free
  }

  /** How many steps that takes at most. */
  function Work(pc: Pc, slot: Slot): nat {
    var left := if slot.given <= |slot.batch| then |slot.batch| - slot.given else 0;
    match pc
    case Dropping(_, _) => 2 * left + 1
    case DropFreeing(_, _, _) => 2 * left + 2
    case Emptying(_) => 2 * |slot.queue| + 2 * |slot.batch| + 2
    case EmptyFreeing(_, _) => 2 * |slot.queue| + 2 * |slot.batch| + 3
    case Cleaning(_, _) => 2 * left + 1
    case CleanFreeing(_, _, _) => 2 * left + 2
    case _ => 0
  }

  /** At most `n` such steps. */
  function GivingUp(s: State, t: nat, k: nat, n: nat): State
    requires t < |s.threads| && k < |s.slots|
    decreases n
  {
    if n == 0 || !GivesUp(s.threads[t], k) || !Enabled(s, Step(t, k, NextOf(s.threads[t], s.slots[k]))) then s else
      GivingUp(After(s, Step(t, k, NextOf(s.threads[t], s.slots[k]))), t, k, n - 1)
  }

  /** Between `s` and `s'`: only this thread, this session and the counts differ, each count by
      the references the session has let go of, and a packet is freed once its count is 0. */
  ghost predicate LetGo(s: State, s': State, t: nat, k: nat)
    requires t < |s.threads| && k < |s.slots|
  {
    && |s'.refs| == |s'.frees| == |s.refs| == |s.frees| && s'.jobs == s.jobs
    && |s'.threads| == |s.threads| && s'.threads == s.threads[t := s'.threads[t]]
    && |s'.slots| == |s.slots| && s'.slots == s.slots[k := s'.slots[k]]
    && forall p | 0 <= p < |s.refs| ::
         && s.refs[p] - s'.refs[p] == Held(s.slots[k], p) - Held(s'.slots[k], p)
         && s'.frees[p] as int - s.frees[p] ==
            Alone(s.threads[t], p) - Alone(s'.threads[t], p) + Gone(s'.refs, p) - Gone(s.refs, p)
  }

  lemma LetGoTwice(s: State, m: State, s': State, t: nat, k: nat)
    requires t < |s.threads| && k < |s.slots| && LetGo(s, m, t, k) && LetGo(m, s', t, k)
    ensures LetGo(s, s', t, k)
  {
    hide Held, Alone, Gone;
    forall p | 0 <= p < |s.refs|
      ensures s.refs[p] - s'.refs[p] == Held(s.slots[k], p) - Held(s'.slots[k], p)
      ensures s'.frees[p] as int - s.frees[p] ==
              Alone(s.threads[t], p) - Alone(s'.threads[t], p) + Gone(s'.refs, p) - Gone(s.refs, p)
    {
      assert s.refs[p] - m.refs[p] == Held(s.slots[k], p) - Held(m.slots[k], p);
    }
  }

  /** The session after all was given up, and where the thread goes on. */
  function Remains(pc: Pc, slot: Slot): Slot {
    var phase := if pc.Dropping? || pc.DropFreeing? then slot.phase else Vacant;
    slot.(queue := if pc.Emptying? || pc.EmptyFreeing? then [] else slot.queue, batch := [], given := 0, phase := phase)
  }

  function GoesOn(pc: Pc, k: nat): Pc { if pc.Dropping? || pc.DropFreeing? then Cleared(k) else Idle }

  predicate GiveUpStep(pc: Pc, k: nat, slot: Slot, jobs: seq<nat>, c: Change) {
    && c.jobs == jobs && Own(pc, c.target) == Own(c.pc, c.target) == 0
    && if GivesUp(c.pc, k) then
         && Work(c.pc, c.slot) < Work(pc, slot) && c.slot.given <= |c.slot.batch|
         && Remains(c.pc, c.slot) == Remains(pc, slot) && GoesOn(c.pc, k) == GoesOn(pc, k)
       else c.pc == GoesOn(pc, k) && c.slot == Remains(pc, slot)
  }

  lemma DropMoves(pc: Pc, k: nat, slot: Slot, jobs: seq<nat>, refs: seq<int>)
    requires GivesUp(pc, k) && PcOk(slot, pc) && slot.given <= |slot.batch| && (pc.Dropping? || pc.DropFreeing?)
    ensures CanMove(pc, k, slot, jobs, NextOf(pc, slot))
    ensures GiveUpStep(pc, k, slot, jobs, Move(pc, k, slot, jobs, refs, NextOf(pc, slot)))
  {
  }

  lemma EmptyMoves(pc: Pc, k: nat, slot: Slot, jobs: seq<nat>, refs: seq<int>)
    requires GivesUp(pc, k) && PcOk(slot, pc) && slot.given <= |slot.batch| && (pc.Emptying? || pc.EmptyFreeing?)
    ensures CanMove(pc, k, slot, jobs, NextOf(pc, slot))
    ensures GiveUpStep(pc, k, slot, jobs, Move(pc, k, slot, jobs, refs, NextOf(pc, slot)))
  {
  }

  lemma CleanMoves(pc: Pc, k: nat, slot: Slot, jobs: seq<nat>, refs: seq<int>)
    requires GivesUp(pc, k) && PcOk(slot, pc) && slot.given <= |slot.batch| && (pc.Cleaning? || pc.CleanFreeing?)
    ensures CanMove(pc, k, slot, jobs, NextOf(pc, slot))
    ensures GiveUpStep(pc, k, slot, jobs, Move(pc, k, slot, jobs, refs, NextOf(pc, slot)))
  {
  }

  lemma GiveUpMoves(pc: Pc, k: nat, slot: Slot, jobs: seq<nat>, refs: seq<int>)
    requires GivesUp(pc, k) && PcOk(slot, pc) && slot.given <= |slot.batch|
    ensures CanMove(pc, k, slot, jobs, NextOf(pc, slot))
    ensures GiveUpStep(pc, k, slot, jobs, Move(pc, k, slot, jobs, refs, NextOf(pc, slot)))
  {
    hide Move, CanMove, NextOf, GiveUpStep, PcOk;
    if pc.Dropping? || pc.DropFreeing? {
      DropMoves(pc, k, slot, jobs, refs);
    } else if pc.Emptying? || pc.EmptyFreeing? {
      EmptyMoves(pc, k, slot, jobs, refs);
    } else {
      CleanMoves(pc, k, slot, jobs, refs);
    }
  }

  lemma NextIsNoSwap(pc: Pc, slot: Slot)
    ensures !NextOf(pc, slot).Swap? && !NextOf(pc, slot).ReadCount? && !NextOf(pc, slot).Adopt?
  {
  }

  /** One step of giving up. */
  lemma GiveUpOnce(s: State, t: nat, k: nat)
    requires Inv(s) && t < |s.threads| && k < |s.slots| && GivesUp(s.threads[t], k)
    ensures var pc, slot := s.threads[t], s.slots[k];
            && Enabled(s, Step(t, k, NextOf(pc, slot))) && Fresh(s, Step(t, k, NextOf(pc, slot)))
            && GiveUpStep(pc, k, slot, s.jobs, Made(s, t, k, NextOf(pc, slot)))
            && LetGo(s, After(s, Step(t, k, NextOf(pc, slot))), t, k)
  {
    hide Move, CanMove, NextOf, PcOk, Counted, Settled, SlotsOk, PcsOk, Held, Alone, Occurrences, Work, Sum, Remains;
    var pc, slot := s.threads[t], s.slots[k];
    InvMeansInOrder(s, t, k);
    GiveUpMoves(pc, k, slot, s.jobs, s.refs);
    NextIsNoSwap(pc, slot);
    var what := NextOf(pc, slot);
    StepIsEntitled(s, t, k, what);
    var c := Made(s, t, k, what);
    forall p | 0 <= p < |s.refs|
      ensures Balances(pc, slot, s.jobs, c, p) && KeepsSettled(pc, s.refs, c, p)
      ensures Own(pc, p) == Own(c.pc, p) == 0
    {
      Balanced(pc, k, slot, s.jobs, s.refs, what, p);
      Settles(pc, k, slot, s.jobs, s.refs, what, p);
    }
    var s' := After(s, Step(t, k, what));
    assert s'.refs == Added(s.refs, c.target, c.ref) && s'.frees == AddedNat(s.frees, c.target, c.free);
    assert |s.frees| == |s.refs|;
    assert s'.threads == s.threads[t := s'.threads[t]];
    assert s'.slots == s.slots[k := s'.slots[k]];
    forall p | 0 <= p < |s.refs|
      ensures s.refs[p] - s'.refs[p] == Held(s.slots[k], p) - Held(s'.slots[k], p)
    {
      assert Balances(pc, slot, s.jobs, c, p);
    }
    forall p | 0 <= p < |s.refs|
      ensures s'.frees[p] as int - s.frees[p] ==
              Alone(s.threads[t], p) - Alone(s'.threads[t], p) + Gone(s'.refs, p) - Gone(s.refs, p)
    {
      assert KeepsSettled(pc, s.refs, c, p);
    }
  }

  /** It comes to an end, with nothing of it left. */
  lemma {:induction false} GivenUpWhole(s: State, t: nat, k: nat, n: nat)
    requires Inv(s) && t < |s.threads| && k < |s.slots| && GivesUp(s.threads[t], k)
    requires n >= Work(s.threads[t], s.slots[k])
    ensures var s' := GivingUp(s, t, k, n);
            && LetGo(s, s', t, k)
            && s'.threads[t] == GoesOn(s.threads[t], k) && s'.slots[k] == Remains(s.threads[t], s.slots[k])
    decreases n
  {
    hide Inv, LetGo, NextOf, Enabled, After, Work, Remains, Made;
    assert n > 0 by { SomeWork(s.threads[t], s.slots[k], k); }
    GiveUpOnce(s, t, k);
    var a := Step(t, k, NextOf(s.threads[t], s.slots[k]));
    ActionKeeps(s, a);
    var m := After(s, a);
    StepIsChange(s, t, k, NextOf(s.threads[t], s.slots[k]));
    if GivesUp(m.threads[t], k) {
      GivenUpWhole(m, t, k, n - 1);
      LetGoTwice(s, m, GivingUp(m, t, k, n - 1), t, k);
    }
  }

  lemma SomeWork(pc: Pc, slot: Slot, k: nat)
    requires GivesUp(pc, k)
    ensures Work(pc, slot) > 0
  {
  }

  lemma StepIsChange(s: State, t: nat, k: nat, what: What)
    requires Enabled(s, Step(t, k, what))
    ensures var c, s' := Made(s, t, k, what), After(s, Step(t, k, what));
            |s'.threads| == |s.threads| && |s'.slots| == |s.slots| && s'.threads[t] == c.pc && s'.slots[k] == c.slot
  {
    hide Move, CanMove;
  }

  lemma HeldInAll(slot: Slot, p: nat)
    requires slot.given == 0
    ensures Held(slot, p) == Occurrences(slot.queue, p) + Occurrences(slot.batch, p)
  {
    assert slot.batch[0..] == slot.batch;
  }

  lemma HeldIsCounted(s: State, t: nat, k: nat, p: nat)
    requires Inv(s) && t < |s.threads| && k < |s.slots|
    ensures Held(s.slots[k], p) <= RefOf(s, p)
  {
    StakesAreHeld(s, t, k, p);
  }

  /** A completion, or a send that failed, gives up each packet of the batch once for each time
      it is in it, frees those that nobody else holds, and empties the batch; the queue stays. */
  lemma CompletionGivesUpAll(s: State, t: nat, k: nat, n: nat)
    requires Inv(s) && t < |s.threads| && k < |s.slots| && s.threads[t] == Dropping(k, 0)
    requires n >= 2 * |s.slots[k].batch| + 1
    ensures var s', batch := GivingUp(s, t, k, n), s.slots[k].batch;
            && s'.threads == s.threads[t := Cleared(k)] && s'.jobs == s.jobs
            && s'.slots == s.slots[k := s.slots[k].(batch := [], given := 0)]
            && |s'.refs| == |s'.frees| == |s.refs| == |s.frees|
            && forall p | 0 <= p < |s.refs| ::
                 && s'.refs[p] == s.refs[p] - Occurrences(batch, p)
                 && s'.frees[p] == s.frees[p] + if p in batch && s.refs[p] == Occurrences(batch, p) then 1 else 0
  {
    hide Inv, GivingUp, Held;
    InvMeansInOrder(s, t, k);
    GivenUpWhole(s, t, k, n);
    var s', batch := GivingUp(s, t, k, n), s.slots[k].batch;
    forall p | 0 <= p < |s.refs|
      ensures s'.refs[p] == s.refs[p] - Occurrences(batch, p)
      ensures s'.frees[p] == s.frees[p] + if p in batch && s.refs[p] == Occurrences(batch, p) then 1 else 0
    {
      OccursIn(batch, p);
      HeldInAll(s.slots[k], p);
      HeldInAll(s'.slots[k], p);
      HeldIsCounted(s, t, k, p);
    }
  }

  /** The release of a session gives up everything it has queued and everything it was sending,
      and frees what nobody else holds. */
  lemma ReleaseGivesUpAll(s: State, t: nat, k: nat, n: nat)
    requires Inv(s) && t < |s.threads| && k < |s.slots| && s.threads[t] == Emptying(k)
    requires n >= 2 * |s.slots[k].queue| + 2 * |s.slots[k].batch| + 2
    ensures var s', slot := GivingUp(s, t, k, n), s.slots[k];
            && s'.threads == s.threads[t := Idle] && s'.jobs == s.jobs
            && s'.slots == s.slots[k := slot.(queue := [], batch := [], given := 0, phase := Vacant)]
            && |s'.refs| == |s'.frees| == |s.refs| == |s.frees|
            && forall p | 0 <= p < |s.refs| ::
                 var held := Occurrences(slot.queue, p) + Occurrences(slot.batch, p);
                 && s'.refs[p] == s.refs[p] - held
                 && s'.frees[p] == s.frees[p] + if held > 0 && s.refs[p] == held then 1 else 0
  {
    hide Inv, GivingUp, Held;
    InvMeansInOrder(s, t, k);
    GivenUpWhole(s, t, k, n);
    var s', slot := GivingUp(s, t, k, n), s.slots[k];
    forall p | 0 <= p < |s.refs|
      ensures var held := Occurrences(slot.queue, p) + Occurrences(slot.batch, p);
              && s'.refs[p] == s.refs[p] - held
              && s'.frees[p] == s.frees[p] + if held > 0 && s.refs[p] == held then 1 else 0
    {
      HeldInAll(slot, p);
      HeldInAll(s'.slots[k], p);
      HeldIsCounted(s, t, k, p);
    }
  }

  // ---------- Vacant slots ----------

  predicate IsVacant(slot: Slot) { slot.phase.Vacant? || slot.phase.Opening? }
  predicate IsCleaning(pc: Pc) { pc.Cleaning? || pc.CleanFreeing? }

  /** A session being cleaned has nothing queued, nor has one that is vacant or being opened. */
  ghost predicate EmptyHanded(s: State) {
    && (forall k | 0 <= k < |s.slots| && IsVacant(s.slots[k]) :: s.slots[k].queue == [])
    && (forall t | 0 <= t < |s.threads| && IsCleaning(s.threads[t]) && s.threads[t].k < |s.slots| ::
          s.slots[s.threads[t].k].queue == [])
  }

  /** What one step does to its slot's queue. */
  lemma QueueGains(pc: Pc, k: nat, slot: Slot, jobs: seq<nat>, refs: seq<int>, what: What)
    requires CanMove(pc, k, slot, jobs, what)
    ensures var c := Move(pc, k, slot, jobs, refs, what);
            slot.queue == [] && c.slot.queue != [] ==>
              pc.Queueing? && pc.k == k && Uses(pc, k) == 1 && !IsCleaning(c.pc)
  {
  }

  lemma BecomesVacant(pc: Pc, k: nat, slot: Slot, jobs: seq<nat>, refs: seq<int>, what: What)
    requires CanMove(pc, k, slot, jobs, what)
    ensures var c := Move(pc, k, slot, jobs, refs, what);
            IsVacant(c.slot) && !IsVacant(slot) ==> IsCleaning(pc) && pc.k == k && c.slot.queue == slot.queue
  {
  }

  lemma BecomesCleaning(pc: Pc, k: nat, slot: Slot, jobs: seq<nat>, refs: seq<int>, what: What)
    requires CanMove(pc, k, slot, jobs, what)
    ensures var c := Move(pc, k, slot, jobs, refs, what);
            IsCleaning(c.pc) ==> c.pc.k == k && (slot.queue == [] || (IsCleaning(pc) && pc.k == k))
  {
  }

  /** Nobody queues for a session that nobody uses. */
  lemma NoQueueing(s: State, t: nat, k: nat)
    requires Inv(s) && t < |s.threads| && k < |s.slots|
    requires !s.slots[k].phase.Live? || exists u | 0 <= u < |s.threads| :: Tends(s.threads[u], k) == 1
    ensures Uses(s.threads[t], k) == 0
  {
    hide Counted, Settled;
    SlotFacts(s, t, k);
    if s.slots[k].phase.Live? {
      var u :| 0 <= u < |s.threads| && Tends(s.threads[u], k) == 1;
      SlotFacts(s, u, k);
    }
  }

  lemma StepKeepsEmptyHands(s: State, t: nat, k: nat, what: What)
    requires Inv(s) && Enabled(s, Step(t, k, what)) && EmptyHanded(s)
    ensures EmptyHanded(After(s, Step(t, k, what)))
  {
    hide Move, CanMove, Inv, Uses;
    var pc, slot, c, s' := s.threads[t], s.slots[k], Made(s, t, k, what), After(s, Step(t, k, what));
    QueueGains(pc, k, slot, s.jobs, s.refs, what);
    BecomesVacant(pc, k, slot, s.jobs, s.refs, what);
    BecomesCleaning(pc, k, slot, s.jobs, s.refs, what);
    forall j | 0 <= j < |s'.slots| && IsVacant(s'.slots[j])
      ensures s'.slots[j].queue == []
    {
      if j == k && !slot.phase.Live? { NoQueueing(s, t, k); }
    }
    forall u | 0 <= u < |s'.threads| && IsCleaning(s'.threads[u]) && s'.threads[u].k < |s'.slots|
      ensures s'.slots[s'.threads[u].k].queue == []
    {
      if s'.threads[u].k == k {
        if u != t {
          assert Tends(s.threads[u], s.threads[u].k) == 1;
          NoQueueing(s, t, k);
        }
      }
    }
  }

  /** As long as nobody takes a reference between the two steps of a release, a vacant slot holds
      no packet: the release left none behind, and none came afterwards, so that whoever is
      accepted next finds an empty queue. */
  lemma {:induction false} VacantHoldsNothing(r: Run, i: nat)
    requires Valid(r) && i < |r.states|
    ensures EmptyHanded(r.states[i])
    ensures forall k | 0 <= k < |r.states[i].slots| && IsVacant(r.states[i].slots[k]) ::
              r.states[i].slots[k].queue == r.states[i].slots[k].batch == []
  {
    hide After, Enabled;
    RunInv(r, i);
    hide Counted, Settled, Start;
    if i == 0 {
      assert EmptyHanded(r.states[0]) by { StartsEmptyHanded(r.states[0]); }
    } else {
      VacantHoldsNothing(r, i - 1);
      RunInv(r, i - 1);
      assert StepOf(r, i - 1);
      hide Inv, EmptyHanded;
      var s, a := r.states[i - 1], r.actions[i - 1];
      match a
      case Create(t, plan) => CreateKeepsEmptyHands(s, t, plan);
      case Step(t, k, what) => StepKeepsEmptyHands(s, t, k, what);
    }
    VacantIsEmpty(r.states[i]);
  }

  lemma StartsEmptyHanded(s: State)
    requires Start(s)
    ensures EmptyHanded(s)
  {
  }

  lemma CreateKeepsEmptyHands(s: State, t: nat, plan: Plan)
    requires Enabled(s, Create(t, plan)) && EmptyHanded(s)
    ensures EmptyHanded(After(s, Create(t, plan)))
  {
  }

  lemma VacantIsEmpty(s: State)
    requires Inv(s) && EmptyHanded(s)
    ensures forall k | 0 <= k < |s.slots| && IsVacant(s.slots[k]) ::
              s.slots[k].queue == s.slots[k].batch == []
  {
    hide Counted, Settled, PcsOk;
  }
}
