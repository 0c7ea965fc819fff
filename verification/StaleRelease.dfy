/** What PacketLifetime asks of its runs is needed: an interleaving in which a sender finds the
    session between the two steps of its release, and at whose end none of the results holds;
    and how any release flag taken from under a batch can go wrong. */
module StaleRelease {
  import opened PacketLifetime
  import Tally

  /** One session and three threads: a releaser, a sender and a worker. */
  datatype Scene = Scene(slot: Slot, releaser: Pc, sender: Pc, worker: Pc, refs: seq<int>, frees: seq<nat>)

  datatype Who = Releaser | Sender | Worker

  function Shot(scene: Scene): State {
    State([scene.slot], [], [scene.releaser, scene.sender, scene.worker], scene.refs, scene.frees)
  }

  function Number(who: Who): nat { match who case Releaser => 0 case Sender => 1 case Worker => 2 }

  function PcOf(scene: Scene, who: Who): Pc {
    match who case Releaser => scene.releaser case Sender => scene.sender case Worker => scene.worker
  }

  function With(scene: Scene, who: Who, pc: Pc): Scene {
    match who
    case Releaser => scene.(releaser := pc)
    case Sender => scene.(sender := pc)
    case Worker => scene.(worker := pc)
  }

  function Turned(scene: Scene, who: Who, what: What): Scene
    requires CanMove(PcOf(scene, who), 0, scene.slot, [], what)
  {
    var c := Move(PcOf(scene, who), 0, scene.slot, [], scene.refs, what);
    With(scene, who, c.pc).(
      slot := c.slot, refs := Added(scene.refs, c.target, c.ref), frees := AddedNat(scene.frees, c.target, c.free))
  }

  ghost predicate EndsIn(r: Run, scene: Scene) {
    Follows(r) && r.states[|r.states| - 1] == Shot(scene)
  }

  lemma Longer(r: Run, a: Action) returns (r': Run)
    requires Follows(r) && Enabled(r.states[|r.states| - 1], a)
    ensures Follows(r') && r'.actions == r.actions + [a]
    ensures r'.states[|r'.states| - 1] == After(r.states[|r.states| - 1], a)
  {
    hide Start, After, Enabled;
    r' := Run(r.states + [After(r.states[|r.states| - 1], a)], r.actions + [a]);
    forall i | 0 <= i < |r'.actions| ensures StepOf(r', i) {
      if i < |r.actions| { assert StepOf(r, i); }
    }
  }

  lemma Turn(r: Run, from: Scene, who: Who, what: What, to: Scene) returns (r': Run)
    requires EndsIn(r, from) && CanMove(PcOf(from, who), 0, from.slot, [], what) && to == Turned(from, who, what)
    requires !what.TakeJob? && !what.EnqueueJob?
    requires what.ReadCount? ==> forall w :: Uses(PcOf(from, w), 0) == 0
    ensures EndsIn(r', to) && r'.actions == r.actions + [Step(Number(who), 0, what)]
  {
    hide Follows, Uses;
    var s, t := Shot(from), Number(who);
    assert s.threads[t] == PcOf(from, who);
    if what.ReadCount? { NobodyUses(from); }
    hide CanMove, Tally.Sum, UsesAt;
    r' := Longer(r, Step(t, 0, what));
    var s' := After(s, Step(t, 0, what));
    SameJobs(PcOf(from, who), from.slot, from.refs, what);
    hide Move;
    assert s'.threads == [to.releaser, to.sender, to.worker] && s'.slots == [to.slot];
  }

  lemma NobodyUses(scene: Scene)
    requires forall w :: Uses(PcOf(scene, w), 0) == 0
    ensures Tally.Sum(Shot(scene).threads, UsesAt(0)) == 0
  {
    assert PcOf(scene, Releaser) == scene.releaser && PcOf(scene, Sender) == scene.sender;
    assert PcOf(scene, Worker) == scene.worker;
    Tally.SumOfZeros(Shot(scene).threads, UsesAt(0));
  }

  lemma SameJobs(pc: Pc, slot: Slot, refs: seq<int>, what: What)
    requires CanMove(pc, 0, slot, [], what) && !what.TakeJob? && !what.EnqueueJob?
    ensures Move(pc, 0, slot, [], refs, what).jobs == []
  {
  }

  const CLOSED := Slot(Vacant, 0, false, false, 0, [], [], 0)
  const OPEN := CLOSED.(phase := Live)

  lemma Begin() returns (r: Run)
    ensures EndsIn(r, Scene(CLOSED, Idle, Idle, Idle, [], [])) && r.actions == []
  {
    r := Run([Shot(Scene(CLOSED, Idle, Idle, Idle, [], []))], []);
  }

  /** The session is opened, and the releaser reads a count of 0. */
  lemma ReadZero() returns (r: Run)
    ensures EndsIn(r, Scene(OPEN, Seen(0), Idle, Idle, [], [])) && |r.actions| == 3
  {
    r := Begin();
    hide EndsIn;
    var opening := OPEN.(phase := Opening);
    var s0, s1 := Scene(CLOSED, Idle, Idle, Idle, [], []), Scene(opening, Accepting(0), Idle, Idle, [], []);
    var s2, s3 := Scene(OPEN, Idle, Idle, Idle, [], []), Scene(OPEN, Seen(0), Idle, Idle, [], []);
    r := Turn(r, s0, Releaser, Accept, s1);
    r := Turn(r, s1, Releaser, Open, s2);
    r := Turn(r, s2, Releaser, ReadCount, s3);
  }

  /** The sender then makes a packet and finds the session with it, and the release flag is taken
      all the same. */
  lemma FindInBetween() returns (r: Run)
    ensures EndsIn(r, Scene(OPEN.(phase := Releasing), Emptying(0), Sharing(0, 0, []), Idle, [1], [0]))
    ensures |r.actions| == 7 && r.actions[6] == Step(0, 0, Swap(true))
  {
    r := ReadZero();
    r := MakeOne(r);
    hide EndsIn;
    var s1 := Scene(OPEN, Seen(0), Making(0, ForSessions([0])), Idle, [0], [0]);
    var s2, s3 := s1.(sender := Owning(0, [0]), refs := [1]), s1.(sender := Sharing(0, 0, []), refs := [1]);
    assert [0][1..] == [];
    r := Turn(r, s1, Sender, Adopt, s2);
    r := Turn(r, s2, Sender, Find(true), s3);
    r := Turn(r, s3, Releaser, Swap(true), s3.(releaser := Emptying(0), slot := OPEN.(phase := Releasing)));
  }

  lemma MakeOne(r: Run) returns (r': Run)
    requires EndsIn(r, Scene(OPEN, Seen(0), Idle, Idle, [], []))
    ensures EndsIn(r', Scene(OPEN, Seen(0), Making(0, ForSessions([0])), Idle, [0], [0]))
    ensures r'.actions == r.actions + [Create(1, ForSessions([0]))]
  {
    hide Follows;
    r' := Longer(r, Create(1, ForSessions([0])));
  }

  /** The releaser finds the queue empty; only then the sender queues its packet and asks for it
      to be sent.  It has not given up its own reference yet. */
  lemma QueueBehind() returns (r: Run)
    ensures EndsIn(r, Scene(Waiting(1, 0), Cleaning(0, 0), Owning(0, []), Idle, [2], [0]))
    ensures |r.actions| == 11 && r.actions[6] == Step(0, 0, Swap(true))
  {
    r := FindInBetween();
    hide EndsIn;
    var slot := OPEN.(phase := Releasing);
    var s0 := Scene(slot, Emptying(0), Sharing(0, 0, []), Idle, [1], [0]);
    var s1 := s0.(releaser := Cleaning(0, 0));
    var s2 := s1.(sender := Queueing(0, 0, []), refs := [2]);
    var s3 := s2.(sender := Asking(0, 0, []), slot := slot.(queue := [0]));
    r := Turn(r, s0, Releaser, Emptied, s1);
    r := Turn(r, s1, Sender, Share, s2);
    r := Turn(r, s2, Sender, Enqueue, s3);
    r := Turn(r, s3, Sender, Ask(true), Scene(Waiting(1, 0), Cleaning(0, 0), Owning(0, []), Idle, [2], [0]));
  }

  /** The session with the packet in its queue, and with the packet taken. */
  function Waiting(requests: nat, sendFlag: int): Slot {
    Slot(Releasing, sendFlag, false, false, requests, [0], [], 0)
  }

  function Loaded(given: nat): Slot { Slot(Releasing, 1, false, false, 0, [], [0], given) }

  /** A worker comes for the request and wins the send flag. */
  lemma WinMeanwhile() returns (r: Run)
    ensures EndsIn(r, Scene(Waiting(0, 1), Cleaning(0, 0), Owning(0, []), Filling(0), [2], [0]))
    ensures |r.actions| == 13 && r.actions[6] == Step(0, 0, Swap(true))
  {
    r := QueueBehind();
    hide EndsIn;
    var s0 := Scene(Waiting(1, 0), Cleaning(0, 0), Owning(0, []), Idle, [2], [0]);
    var s1 := Scene(Waiting(0, 0), Cleaning(0, 0), Owning(0, []), Trying(0), [2], [0]);
    var s2 := Scene(Waiting(0, 1), Cleaning(0, 0), Owning(0, []), Filling(0), [2], [0]);
    r := Turn(r, s0, Worker, StartSend, s1);
    r := Turn(r, s1, Worker, Try, s2);
  }

  lemma TakeOne(r: Run, from: Scene, to: Scene) returns (r': Run)
    requires EndsIn(r, from)
    requires from == Scene(Waiting(0, 1), Cleaning(0, 0), Owning(0, []), Filling(0), [2], [0])
    requires to == from.(slot := Loaded(0))
    ensures EndsIn(r', to) && r'.actions == r.actions + [Step(2, 0, Take)]
  {
    hide EndsIn;
    assert from.slot.queue[1..] == to.slot.queue && from.slot.batch + [from.slot.queue[0]] == to.slot.batch;
    r' := Turn(r, from, Worker, Take, to);
  }

  /** It takes the packet into sentPacketArray while the releaser is about to clean that. */
  lemma TakeMeanwhile() returns (r: Run)
    ensures EndsIn(r, Scene(Loaded(0), Cleaning(0, 0), Owning(0, []), Ready(0), [2], [0]))
    ensures |r.actions| == 15 && r.actions[6] == Step(0, 0, Swap(true))
  {
    r := WinMeanwhile();
    hide EndsIn;
    var s2 := Scene(Waiting(0, 1), Cleaning(0, 0), Owning(0, []), Filling(0), [2], [0]);
    var s3 := Scene(Loaded(0), Cleaning(0, 0), Owning(0, []), Filling(0), [2], [0]);
    r := TakeOne(r, s2, s3);
    r := Turn(r, s3, Worker, Load, s3.(worker := Ready(0)));
  }

  /** The releaser gives the packet up, the worker's send fails and it gives it up too, and frees
      it. */
  lemma DropTwice() returns (r: Run)
    ensures EndsIn(r, Scene(Loaded(1), Cleaning(0, 1), Owning(0, []), Dropping(0, 1), [0], [1]))
    ensures |r.actions| == 19 && r.actions[6] == Step(0, 0, Swap(true))
  {
    r := TakeMeanwhile();
    hide EndsIn;
    var s0 := Scene(Loaded(0), Cleaning(0, 0), Owning(0, []), Ready(0), [2], [0]);
    var s1 := Scene(Loaded(1), Cleaning(0, 1), Owning(0, []), Ready(0), [1], [0]);
    var s2 := Scene(Loaded(1), Cleaning(0, 1), Owning(0, []), Dropping(0, 0), [1], [0]);
    var s3 := Scene(Loaded(1), Cleaning(0, 1), Owning(0, []), DropFreeing(0, 1, 0), [0], [0]);
    var s4 := Scene(Loaded(1), Cleaning(0, 1), Owning(0, []), Dropping(0, 1), [0], [1]);
    r := Turn(r, s0, Releaser, CleanOne, s1);
    r := Turn(r, s1, Worker, Post(false), s2);
    r := Turn(r, s2, Worker, DropOne, s3);
    r := Turn(r, s3, Worker, Free, s4);
  }

  /** The packet has been freed, and its sender still holds it.  So each of the four results
      fails: the count is not the number of holders, a freed packet is held, being freed does not
      mean having no holder, and two threads work on the batch. */
  ghost predicate AllFail(s: State) {
    && s.refs == [0] && s.frees == [1] && |s.threads| == 3
    && Holders(s, 0) == 1 && Own(s.threads[1], 0) == 1
    && Busy(s.threads[0], 0) == Busy(s.threads[2], 0) == 1
  }

  lemma FreedWhileHeld() returns (r: Run)
    ensures Follows(r) && !Valid(r) && |r.actions| == 19 && |r.states| == 20 && r.actions[6] == Step(0, 0, Swap(true))
    ensures AllFail(r.states[19])
  {
    r := DropTwice();
    hide Follows, Valid, AllFail, Shot;
    Sizes(r);
    var scene := Scene(Loaded(1), Cleaning(0, 1), Owning(0, []), Dropping(0, 1), [0], [1]);
    AllFailThere(scene);
    FailureIsStale(r, 19);
  }

  lemma AllFailThere(scene: Scene)
    requires scene == Scene(Loaded(1), Cleaning(0, 1), Owning(0, []), Dropping(0, 1), [0], [1])
    ensures AllFail(Shot(scene))
  {
    hide AllFail, Holders;
    OneHolder(scene);
    AllFailIn(Shot(scene), scene.releaser, scene.sender, scene.worker);
  }

  lemma AllFailIn(s: State, releaser: Pc, sender: Pc, worker: Pc)
    requires s.threads == [releaser, sender, worker] && s.refs == [0] && s.frees == [1] && Holders(s, 0) == 1
    requires releaser == Cleaning(0, 1) && sender == Owning(0, []) && worker == Dropping(0, 1)
    ensures AllFail(s)
  {
    hide Holders, Own, Busy;
    CleanerTends(0, 1);
    OwnerHolds(0, []);
    DropperSends(0, 1);
  }

  lemma CleanerTends(k: nat, i: nat)
    ensures Busy(Cleaning(k, i), k) == 1
  {
  }

  lemma OwnerHolds(p: nat, targets: seq<nat>)
    ensures Own(Owning(p, targets), p) == 1
  {
  }

  lemma DropperSends(k: nat, i: nat)
    ensures Busy(Dropping(k, i), k) == 1
  {
  }

  lemma FailureIsStale(r: Run, i: nat)
    requires i < |r.states| && AllFail(r.states[i])
    ensures !Valid(r)
  {
    hide Valid, Holders;
    if Valid(r) { CountIsExact(r, i, 0); }
  }

  lemma Sizes(r: Run)
    requires Follows(r)
    ensures |r.states| == |r.actions| + 1
  {
  }

  lemma OneHolder(scene: Scene)
    requires scene == Scene(Loaded(1), Cleaning(0, 1), Owning(0, []), Dropping(0, 1), [0], [1])
    ensures Holders(Shot(scene), 0) == 1
  {
    var s := Shot(scene);
    assert s.threads[1..][1..] == [scene.worker] && s.threads[1..] == [scene.sender, scene.worker];
    assert [scene.worker][1..] == [] && s.slots[1..] == [];
    assert Tally.Sum([scene.worker], OwnOf(0)) == 0;
    assert Tally.Sum([scene.sender, scene.worker], OwnOf(0)) == 1 by {
      assert [scene.sender, scene.worker][1..] == [scene.worker];
    }
    assert Held(scene.slot, 0) == 0;
  }

  // ---------- Any batch ----------

  /** The actions lead from one state to the other. */
  ghost predicate Leads(s: State, actions: seq<Action>, s': State)
    decreases |actions|
  {
    if actions == [] then s' == s
    else Enabled(s, actions[0]) && Leads(After(s, actions[0]), actions[1..], s')
  }

  lemma {:induction false} LeadsOn(s: State, actions: seq<Action>, m: State, more: seq<Action>, s': State)
    requires Leads(s, actions, m) && Leads(m, more, s')
    ensures Leads(s, actions + more, s')
    decreases |actions|
  {
    hide Enabled, After;
    if actions == [] {
      assert actions + more == more;
    } else {
      assert (actions + more)[1..] == actions[1..] + more;
      LeadsOn(After(s, actions[0]), actions[1..], m, more, s');
    }
  }

  lemma LeadsOne(s: State, a: Action)
    requires Enabled(s, a)
    ensures Leads(s, [a], After(s, a))
  {
    hide Enabled, After;
    assert [a][1..] == [];
  }

  lemma LeadsThrough(s: State, a: Action, more: seq<Action>, s': State)
    requires Enabled(s, a) && Leads(After(s, a), more, s')
    ensures Leads(s, [a] + more, s')
  {
    hide Enabled, After;
    LeadsOne(s, a);
    LeadsOn(s, [a], After(s, a), more, s');
  }

  /** The thread works on the session's batch with nothing of it given up yet, or can take up its
      completion. */
  predicate OnBatch(s: State, u: nat, k: nat) {
    && u < |s.threads| && k < |s.slots|
    && (s.threads[u] == Filling(k) || s.threads[u] == Ready(k) || (s.threads[u].Idle? && s.slots[k].outstanding))
  }

  /** The releaser empties the queue; the counts stay exact and nothing else changes. */
  lemma {:induction false} EmptyQueue(s: State, t: nat, k: nat) returns (actions: seq<Action>, s': State)
    requires Exact(s) && t < |s.threads| && k < |s.slots| && s.threads[t] == Emptying(k)
    requires s.slots[k].phase.Releasing? && s.slots[k].given == 0
    ensures Leads(s, actions, s') && Exact(s') && s'.threads == s.threads
    ensures s'.slots == s.slots[k := s.slots[k].(queue := [])]
    decreases |s.slots[k].queue|
  {
    hide Exact, Leads;
    if s.slots[k].queue == [] {
      actions, s' := [], s;
      assert Leads(s, [], s) by { LeadsNowhere(s); }
      assert s.slots[k := s.slots[k].(queue := [])] == s.slots;
    } else {
      var m, some := EmptyPacket(s, t, k);
      var rest;
      rest, s' := EmptyQueue(m, t, k);
      LeadsOn(s, some, m, rest, s');
      actions := some + rest;
    }
  }

  lemma LeadsNowhere(s: State)
    ensures Leads(s, [], s)
  {
  }

  lemma EmptyPacket(s: State, t: nat, k: nat) returns (m: State, actions: seq<Action>)
    requires Exact(s) && t < |s.threads| && k < |s.slots| && s.threads[t] == Emptying(k) && s.slots[k].queue != []
    requires s.slots[k].phase.Releasing? && s.slots[k].given == 0
    ensures Leads(s, actions, m) && Exact(m) && m.threads == s.threads
    ensures m.slots == s.slots[k := s.slots[k].(queue := s.slots[k].queue[1..])]
  {
    hide Exact, Leads;
    var a, b := Step(t, k, EmptyOne), Step(t, k, Free);
    StepIsExact(s, t, k, EmptyOne);
    LeadsOne(s, a);
    m, actions := After(s, a), [a];
    if m.threads[t].EmptyFreeing? {
      StepIsExact(m, t, k, Free);
      LeadsOne(m, b);
      LeadsOn(s, [a], m, [b], After(m, b));
      m, actions := After(m, b), [a] + [b];
    }
    assert m.threads == s.threads;
  }

  /** The other thread comes to give up the batch. */
  lemma TakeUp(s: State, u: nat, k: nat) returns (s': State, actions: seq<Action>)
    requires Exact(s) && OnBatch(s, u, k) && s.slots[k].given == 0
    ensures Leads(s, actions, s') && Exact(s') && s'.threads == s.threads[u := Dropping(k, 0)]
    ensures |s'.slots| == |s.slots| && s'.slots[k].batch == s.slots[k].batch && s'.slots[k].given == 0
    ensures s'.slots[k].phase == s.slots[k].phase
  {
    hide Exact, Leads;
    if s.threads[u].Idle? {
      var a := Step(u, k, Complete(true));
      StepIsExact(s, u, k, Complete(true));
      LeadsOne(s, a);
      s', actions := After(s, a), [a];
    } else {
      var m, some := s, [];
      LeadsNowhere(s);
      if s.threads[u].Filling? {
        StepIsExact(s, u, k, Load);
        LeadsOne(s, Step(u, k, Load));
        m, some := After(s, Step(u, k, Load)), [Step(u, k, Load)];
      }
      var a := Step(u, k, Post(false));
      StepIsExact(m, u, k, Post(false));
      LeadsOne(m, a);
      s', actions := After(m, a), some + [a];
      LeadsOn(s, some, m, [a], s');
    }
    assert s'.threads == s.threads[u := Dropping(k, 0)];
  }

  /** Both give up the first packet: its count then falls short of its holders by one. */
  lemma BothDrop(s: State, t: nat, u: nat, k: nat) returns (s': State, actions: seq<Action>)
    requires Exact(s) && t < |s.threads| && u < |s.threads| && k < |s.slots| && t != u
    requires s.threads[t] == Cleaning(k, 0) && s.threads[u] == Dropping(k, 0)
    requires s.slots[k].phase.Releasing? && s.slots[k].given == 0 && s.slots[k].batch != []
    ensures var p := s.slots[k].batch[0];
            Leads(s, actions, s') && p < |s'.refs| && s'.refs[p] == Holders(s', p) - 1
  {
    hide Leads, Holders, Counted, Settled;
    var p, a, b := s.slots[k].batch[0], Step(t, k, CleanOne), Step(u, k, DropOne);
    StepIsExact(s, t, k, CleanOne);
    FirstIsCounted(s, t, k);
    LeadsOne(s, a);
    var m := After(s, a);
    LeadsOne(m, b);
    s', actions := After(m, b), [a] + [b];
    LeadsOn(s, [a], m, [b], s');
    SecondDrop(m, u, k, p);
  }

  lemma FirstIsCounted(s: State, t: nat, k: nat)
    requires Counted(s) && t < |s.threads| && k < |s.slots| && s.slots[k].given == 0 && s.slots[k].batch != []
    ensures s.slots[k].batch[0] < |s.refs|
  {
    DroppingOne(s.slots[k], s.slots[k].batch[0]);
    StakesAreHeld(s, t, k, s.slots[k].batch[0]);
  }

  lemma SecondDrop(s: State, u: nat, k: nat, p: nat)
    requires Counted(s) && u < |s.threads| && k < |s.slots| && p < |s.refs| && s.threads[u] == Dropping(k, 0)
    requires s.slots[k].given == 1 && s.slots[k].batch != [] && s.slots[k].batch[0] == p
    ensures var s' := After(s, Step(u, k, DropOne)); p < |s'.refs| && s'.refs[p] == Holders(s', p) - 1
  {
    hide Holders;
    var c := Made(s, u, k, DropOne);
    HoldersMove(s, u, k, c, p);
    assert RefOf(s, p) == Holders(s, p);
    SameHolders(After(s, Step(u, k, DropOne)),
                s.(threads := s.threads[u := c.pc], slots := s.slots[k := c.slot], jobs := c.jobs), p);
  }

  lemma SameHolders(s: State, s': State, p: nat)
    requires s'.threads == s.threads && s'.slots == s.slots && s'.jobs == s.jobs
    ensures Holders(s', p) == Holders(s, p)
  {
  }

  /** Thread `t` has taken the flag, and `u` still works on the batch, of which nothing has been
      given up. */
  ghost predicate Overlap(s: State, t: nat, u: nat, k: nat, batch: seq<nat>, pc: Pc) {
    && Exact(s) && t < |s.threads| && t != u && OnBatch(s, u, k) && s.threads[t] == pc
    && s.slots[k].phase.Releasing? && s.slots[k].given == 0 && s.slots[k].batch == batch
  }

  lemma SwapOverlaps(s: State, t: nat, u: nat, k: nat)
    requires Inv(s) && t < |s.threads| && t != u && OnBatch(s, u, k) && s.threads[t] == Seen(k)
    requires s.slots[k].phase.Live?
    ensures Enabled(s, Step(t, k, Swap(true))) && !Fresh(s, Step(t, k, Swap(true)))
    ensures Overlap(After(s, Step(t, k, Swap(true))), t, u, k, s.slots[k].batch, Emptying(k))
  {
    hide Exact, Inv;
    NothingGiven(s, u, k);
    InvMeansInOrder(s, t, k);
    InvMeansExact(s);
    StepIsExact(s, t, k, Swap(true));
  }

  lemma EmptyOverlaps(s: State, t: nat, u: nat, k: nat, batch: seq<nat>) returns (s': State, actions: seq<Action>)
    requires Overlap(s, t, u, k, batch, Emptying(k))
    ensures Leads(s, actions, s') && Overlap(s', t, u, k, batch, Cleaning(k, 0))
  {
    hide Exact, Leads;
    var drained, m := EmptyQueue(s, t, k);
    var a := Step(t, k, Emptied);
    StepIsExact(m, t, k, Emptied);
    LeadsOne(m, a);
    LeadsOn(s, drained, m, [a], After(m, a));
    s', actions := After(m, a), drained + [a];
  }

  lemma OverlapLoses(s: State, t: nat, u: nat, k: nat, batch: seq<nat>) returns (s': State, actions: seq<Action>)
    requires Overlap(s, t, u, k, batch, Cleaning(k, 0)) && batch != []
    ensures Leads(s, actions, s') && batch[0] < |s'.refs| && s'.refs[batch[0]] == Holders(s', batch[0]) - 1
  {
    hide Exact, Leads, Holders;
    var m, taken := TakeUp(s, u, k);
    var dropped;
    s', dropped := BothDrop(m, t, u, k);
    LeadsOn(s, taken, m, dropped, s');
    actions := taken + dropped;
  }

  /** From any state that satisfies the invariant: when a release takes the flag while a thread
      fills or posts a batch, or while one is in flight and a thread can take up its completion,
      it can come to this: both give up the first packet of the batch, and its count falls short
      of those who hold it. */
  lemma StaleSwapLosesAReference(s: State, t: nat, u: nat, k: nat) returns (s': State, actions: seq<Action>)
    requires Inv(s) && t < |s.threads| && t != u && OnBatch(s, u, k) && s.threads[t] == Seen(k)
    requires s.slots[k].phase.Live? && s.slots[k].batch != []
    ensures !Fresh(s, Step(t, k, Swap(true)))
    ensures actions != [] && actions[0] == Step(t, k, Swap(true)) && Leads(s, actions, s')
    ensures var p := s.slots[k].batch[0]; p < |s'.refs| && s'.refs[p] == Holders(s', p) - 1
  {
    hide Leads, Overlap, Holders, Inv, Enabled, After, Fresh;
    var a, batch := Step(t, k, Swap(true)), s.slots[k].batch;
    SwapOverlaps(s, t, u, k);
    var s1 := After(s, a);
    var s2, emptied := EmptyOverlaps(s1, t, u, k, batch);
    var lost;
    s', lost := OverlapLoses(s2, t, u, k, batch);
    LeadsOn(s1, emptied, s2, lost, s');
    LeadsThrough(s, a, emptied + lost, s');
    actions := [a] + (emptied + lost);
  }

  lemma InvMeansExact(s: State)
    requires Inv(s)
    ensures Exact(s)
  {
  }

  /** While a batch is being filled, posted or sent, nothing of it has been given up, and the
      session is in use. */
  lemma NothingGiven(s: State, u: nat, k: nat)
    requires Inv(s) && k < |s.slots| && s.slots[k].phase.Live? && OnBatch(s, u, k)
    ensures s.slots[k].given == 0 && !Unused(s.slots[k], Tally.Sum(s.threads, UsesAt(k)))
  {
    hide Counted, Settled, Tally.Sum;
    SlotFacts(s, u, k);
  }
}
