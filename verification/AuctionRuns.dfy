/** Whole runs of the logic thread: any jobs, any clock readings, any random minutes, any
    order of the unordered containers.  A run goes on as long as its jobs are in bounds. */
module AuctionRuns {
  import opened AuctionRules
  import opened AuctionHistory

  datatype Run = Run(worlds: seq<World>, jobs: seq<Job>)

  function Opening(): World {
    World([], map[], map[], map[], [], map[], map[], map[], 0, 0, [], [])
  }

  ghost predicate StepOf(r: Run, i: nat) {
    && i + 1 < |r.worlds| && i < |r.jobs|
    && Enabled(r.worlds[i], r.jobs[i]) && r.worlds[i + 1] == Next(r.worlds[i], r.jobs[i])
  }

  ghost predicate Valid(r: Run) {
    |r.worlds| == |r.jobs| + 1 && r.worlds[0] == Opening() && forall i | 0 <= i < |r.jobs| :: StepOf(r, i)
  }

  lemma {:induction false} RunInv(r: Run, i: nat)
    requires Valid(r) && i < |r.worlds|
    ensures Inv(r.worlds[i]) && Linked(r.worlds[i])
  {
    hide Inv;
    if i == 0 {
      assert Inv(Opening()) by { OpeningInv(); }
    } else {
      RunInv(r, i - 1);
      assert StepOf(r, i - 1);
      JobKeeps(r.worlds[i - 1], r.jobs[i - 1]);
    }
  }

  lemma OpeningInv()
    ensures Inv(Opening()) && Linked(Opening())
  {
  }

  /** In every reachable state every job that can come is in bounds, its auctions valid and its
      list slots in use, if and only if it is not a nickname change for an account without an
      entry in OwnList. */
  lemma BoundsAreDecided(r: Run, i: nat, job: Job)
    requires Valid(r) && i < |r.worlds| && Possible(r.worlds[i], job)
    ensures Enabled(r.worlds[i], job) <==> !Derails(r.worlds[i], job)
    ensures forall account | account in r.worlds[i].OwnList :: ListOk(r.worlds[i].OwnList[account])
  {
    RunInv(r, i);
    IndexingIsSafe(r.worlds[i], job);
    OwnersInv(r.worlds[i]);
  }

  /** Any client can send such a request as soon as it has joined. */
  lemma NewClientDerails(session: int, nick: string) returns (r: Run)
    ensures Valid(r) && r.jobs == [Join(session)]
    ensures Derails(r.worlds[1], Recv(session, ReqChangeNickName(nick)))
    ensures !Enabled(r.worlds[1], Recv(session, ReqChangeNickName(nick)))
  {
    OpeningInv();
    r := Run([Opening(), Next(Opening(), Join(session))], [Join(session)]);
    assert StepOf(r, 0);
    RunInv(r, 1);
    IndexingIsSafe(r.worlds[1], Recv(session, ReqChangeNickName(nick)));
  }

  /** Whatever happens between two moments of a run: an auction's status only moves on, its
      bid log only grows, and once it is closed, or has been lost, nothing about it changes. */
  lemma {:induction false} HistoryOnlyGrows(r: Run, i: nat, j: nat)
    requires Valid(r) && i <= j < |r.worlds|
    ensures Linked(r.worlds[i]) && Linked(r.worlds[j]) && AllEvolve(r.worlds[i], r.worlds[j])
    decreases j - i
  {
    hide AllEvolve, Inv, Linked;
    RunInv(r, i);
    RunInv(r, j);
    if i == j {
      assert AllEvolve(r.worlds[i], r.worlds[i]) by { Sizes(r.worlds[i]); NothingEvolves(r.worlds[i]); }
    } else {
      RunInv(r, j - 1);
      HistoryOnlyGrows(r, i, j - 1);
      assert StepOf(r, j - 1);
      JobKeeps(r.worlds[j - 1], r.jobs[j - 1]);
      Sizes(r.worlds[i]); Sizes(r.worlds[j - 1]); Sizes(r.worlds[j]);
      EvolveTwice(r.worlds[i], r.worlds[j - 1], r.worlds[j]);
    }
  }

  lemma Sizes(w: World)
    requires Linked(w)
    ensures |w.book| == |w.pool|
  {
  }

  // ---------- Bids ----------

  /** In every reachable state an auction is what its bid log says: prices ascend from the
      start price, its owner never bids, its price and bidder are the last of the log, and its
      counter, a 32-bit one, is the length of the log, which the rise of the price bounds. */
  lemma BidLogIsRefined(r: Run, i: nat, p: nat)
    requires Valid(r) && i < |r.worlds| && p < |r.worlds[i].pool|
    ensures |r.worlds[i].book| == |r.worlds[i].pool|
    ensures var a, e := r.worlds[i].pool[p], r.worlds[i].book[p];
            && Ascending(e.startPrice, e.bids) && (forall j | 0 <= j < |e.bids| :: e.bids[j].account != a.OwnerID)
            && a.Price == LastPrice(e) && a.BidderID == LastBidder(e)
            && |e.bids| <= a.Price - e.startPrice
            && (a.Count == |e.bids| <==> |e.bids| < 0x8000_0000)
            && (e.startPrice >= 0 ==> a.Count == |e.bids| <= a.Price)
  {
    RunInv(r, i);
    Known(r.worlds[i], p);
    var e := r.worlds[i].book[p];
    if e.bids != [] { LogIsNoLongerThanTheRise(e.startPrice, e.bids); }
  }

  /** An auction is reported sold to the database once, when it closes, naming the last
      bidder; it closes as sold exactly when that account number is not 0, so if no bidder
      ever had account 0, exactly when there was a bid. */
  lemma ClosesByItsLog(r: Run, i: nat, p: nat)
    requires Valid(r) && i < |r.worlds| && p < |r.worlds[i].pool|
    ensures |r.worlds[i].book| == |r.worlds[i].pool|
    ensures var a, e, reports := r.worlds[i].pool[p], r.worlds[i].book[p], SoldAbout(r.worlds[i].dbJobs, p);
            && reports == (if IsClosed(a) then [Sold(LastBidder(e), a.Count, a.NickName, p)] else [])
            && (IsClosed(a) ==> (a.Status.Fin? <==> LastBidder(e) != 0))
            && (IsClosed(a) && (forall j | 0 <= j < |e.bids| :: e.bids[j].account != 0) ==>
                  (a.Status.Fin? <==> e.bids != []))
  {
    RunInv(r, i);
    Known(r.worlds[i], p);
    assert SoldAbout(r.worlds[i].dbJobs, p) == Report(r.worlds[i], p);
  }

  // ---------- Containers ----------

  /** Every auction is in exactly the container its status names, under its own nickname and
      no other key, or has been lost and is in none. */
  lemma OneContainer(r: Run, i: nat, p: nat)
    requires Valid(r) && i < |r.worlds| && p < |r.worlds[i].pool|
    ensures |r.worlds[i].book| == |r.worlds[i].pool|
    ensures var w := r.worlds[i];
            var a, lost := w.pool[p], w.book[p].lost;
            && (forall k :: At(w.CellList, k, p) <==> k == a.NickName && a.Status.Sale? && !lost)
            && (forall k :: At(w.ImminentList, k, p) <==> k == a.NickName && a.Status.Imminent? && !lost)
            && (p in w.FinList <==> a.Status.Fin?)
            && (forall x, y | 0 <= x < y < |w.FinList| :: w.FinList[x] != w.FinList[y])
            && (lost ==> a.Status.Sale? || a.Status.Imminent?)
  {
    RunInv(r, i);
    Known(r.worlds[i], p);
  }

  /** An auction sold later than another of the same nickname does not displace it: two live
      auctions share a nickname only if one is on plain sale and the other imminent. */
  lemma LiveNamesakes(r: Run, i: nat, p: nat, q: nat)
    requires Valid(r) && i < |r.worlds| && p < q < |r.worlds[i].pool| == |r.worlds[i].book|
    requires var w := r.worlds[i];
             !IsClosed(w.pool[p]) && !IsClosed(w.pool[q]) && !w.book[p].lost && !w.book[q].lost
             && w.pool[p].NickName == w.pool[q].NickName
    ensures r.worlds[i].pool[p].Status != r.worlds[i].pool[q].Status
  {
    RunInv(r, i);
    Known(r.worlds[i], p);
    Known(r.worlds[i], q);
  }

  // ---------- Slots ----------

  lemma {:induction false} InjectiveMapFits(m: map<string, nat>, bound: set<nat>)
    requires forall k | k in m :: m[k] in bound
    requires forall j, k | j in m && k in m && j != k :: m[j] != m[k]
    ensures |m| <= |bound|
    decreases |m|
  {
    if m != map[] {
      var k :| k in m;
      assert m.Keys == (m - {k}).Keys + {k};
      InjectiveMapFits(m - {k}, bound - {m[k]});
    }
  }

  lemma {:induction false} DistinctSeqFits(s: seq<nat>, bound: set<nat>)
    requires forall i | 0 <= i < |s| :: s[i] in bound
    requires forall i, j | 0 <= i < j < |s| :: s[i] != s[j]
    ensures |s| <= |bound|
  {
    if s != [] { DistinctSeqFits(s[1..], bound - {s[0]}); }
  }

  function Below(n: nat): (r: set<nat>)
    ensures |r| == n && forall x: nat :: x in r <==> x < n
  {
    if n == 0 then {} else Below(n - 1) + {n - 1}
  }

  function WithStatus(pool: seq<AuctionData>, status: Status): set<nat> {
    set p | p in Below(|pool|) && pool[p].Status == status
  }

  /** The auctions on sale, imminent and sold never outnumber those ever registered, and
      those never exceed the server's slots. */
  lemma SlotsSuffice(r: Run, i: nat)
    requires Valid(r) && i < |r.worlds|
    ensures var w := r.worlds[i];
            |w.CellList| + |w.ImminentList| + |w.FinList| <= w.NumOfSales == |w.pool| <= MAX_SERVER_SLOT
  {
    var w := r.worlds[i];
    RunInv(r, i);
    SalesFit(w);
    ImminentsFit(w);
    FinsFit(w);
    var sale, imminent, fin := WithStatus(w.pool, Sale), WithStatus(w.pool, Imminent), WithStatus(w.pool, Fin);
    SubsetFits(sale, imminent, fin, Below(|w.pool|));
  }

  lemma SalesFit(w: World)
    requires Inv(w)
    ensures |w.CellList| <= |WithStatus(w.pool, Sale)|
  {
    hide LogOk, ClockOk, AllReported;
    forall k | k in w.CellList
      ensures w.CellList[k] in WithStatus(w.pool, Sale) && w.pool[w.CellList[k]].NickName == k
    {
      KnownPlace(w, w.CellList[k]);
    }
    InjectiveMapFits(w.CellList, WithStatus(w.pool, Sale));
  }

  lemma ImminentsFit(w: World)
    requires Inv(w)
    ensures |w.ImminentList| <= |WithStatus(w.pool, Imminent)|
  {
    hide LogOk, ClockOk, AllReported;
    forall k | k in w.ImminentList
      ensures w.ImminentList[k] in WithStatus(w.pool, Imminent) && w.pool[w.ImminentList[k]].NickName == k
    {
      KnownPlace(w, w.ImminentList[k]);
    }
    InjectiveMapFits(w.ImminentList, WithStatus(w.pool, Imminent));
  }

  lemma FinsFit(w: World)
    requires Inv(w)
    ensures |w.FinList| <= |WithStatus(w.pool, Fin)|
  {
    hide LogOk, ClockOk, AllReported;
    forall x | 0 <= x < |w.FinList| ensures w.FinList[x] in WithStatus(w.pool, Fin) { KnownPlace(w, w.FinList[x]); }
    DistinctSeqFits(w.FinList, WithStatus(w.pool, Fin));
  }

  lemma SubsetFits(a: set<nat>, b: set<nat>, c: set<nat>, whole: set<nat>)
    requires a + b + c <= whole && a !! b && a !! c && b !! c
    ensures |a| + |b| + |c| <= |whole|
  {
    assert |a + b + c| == |a| + |b| + |c|;
    FitsInside(a + b + c, whole);
  }

  lemma FitsInside(a: set<nat>, b: set<nat>)
    requires a <= b
    ensures |a| <= |b|
  {
    assert b == a + (b - a);
  }

  // ---------- Deadlines ----------

  /** What the seller asked for. */
  function Asked(a: AuctionData, e: Entry): int { a.StartTime + e.hours as int * HOUR }

  /** Once an auction has left plain sale its end time is within two minutes of the time its
      seller asked for, earlier or later, exactly when the drawn end time is representable;
      and it is closed only later than that. */
  lemma DeadlineIsWithinTwoMinutes(r: Run, i: nat, p: nat)
    requires Valid(r) && i < |r.worlds| && p < |r.worlds[i].pool| && !r.worlds[i].pool[p].Status.Sale?
    ensures |r.worlds[i].book| == |r.worlds[i].pool| && |r.worlds[i].book[p].draws| == 1
    ensures var a, e := r.worlds[i].pool[p], r.worlds[i].book[p];
            var asked := Asked(a, e);
            && (-120000 <= a.EndTime - asked <= 120000 <==> 0 <= asked - EARLY + e.draws[0] < UINT64)
            && (IsClosed(a) ==> |e.closedAt| == 1 && e.closedAt[0] > a.EndTime)
  {
    var w := r.worlds[i];
    RunInv(r, i);
    Known(w, p);
    DrawnEnd(Asked(w.pool[p], w.book[p]) - EARLY, w.book[p].draws[0]);
  }

  lemma Modulo(x: int)
    ensures 0 <= x < UINT64 ==> x % UINT64 == x
    ensures x >= UINT64 ==> x % UINT64 <= x - UINT64
    ensures x < 0 ==> x % UINT64 >= x + UINT64
  {
    var q := x / UINT64;
    assert x == q * UINT64 + x % UINT64;
    if x >= UINT64 { assert q >= 1; }
    if x < 0 { assert q <= -1; }
  }

  lemma DrawnEnd(early: int, draw: Draw)
    ensures var end := (early % UINT64 + draw) % UINT64;
            -120000 <= end - (early + EARLY) <= 120000 <==> 0 <= early + draw < UINT64
  {
    assert (early % UINT64 + draw) % UINT64 == (early + draw) % UINT64;
    Modulo(early + draw);
  }

  /** For a positive time no auction closes before start + time - 2 minutes, unless the end time
      it drew does not fit 64 bits. */
  lemma NeverClosesEarly(r: Run, i: nat, p: nat)
    requires Valid(r) && i < |r.worlds| && p < |r.worlds[i].pool| == |r.worlds[i].book|
    requires IsClosed(r.worlds[i].pool[p]) && r.worlds[i].book[p].hours > 0
    ensures var a, e := r.worlds[i].pool[p], r.worlds[i].book[p];
            && |e.draws| == |e.closedAt| == 1
            && (Asked(a, e) - EARLY + e.draws[0] < UINT64 ==> e.closedAt[0] > Asked(a, e) - 120000)
  {
    DeadlineIsWithinTwoMinutes(r, i, p);
  }
}
