/** What every job of the logic thread keeps, and what therefore holds over whole runs. */
module AuctionHistory {
  import opened AuctionRules

  // ---------- One auction and its log ----------

  function PriceBefore(start: int, bids: seq<Offer>, i: nat): int
    requires i <= |bids|
  {
    if i == 0 then start else bids[i - 1].price
  }

  ghost predicate Ascending(start: int, bids: seq<Offer>) {
    forall i | 0 <= i < |bids| :: PriceBefore(start, bids, i) < bids[i].price
  }

  function LastPrice(e: Entry): Int32 { if e.bids == [] then e.startPrice else e.bids[|e.bids| - 1].price }

  function LastBidder(e: Entry): int { if e.bids == [] then 0 else e.bids[|e.bids| - 1].account }

  /** The object's fields are what its bid log says, and no owner is in the log. */
  ghost predicate LogOk(a: AuctionData, e: Entry) {
    && Ascending(e.startPrice, e.bids)
    && (forall i | 0 <= i < |e.bids| :: e.bids[i].account != a.OwnerID)
    && a.Price == LastPrice(e) && a.BidderID == LastBidder(e) && a.Count == Wrap32(|e.bids|)
  }

  predicate IsClosed(a: AuctionData) { a.Status.Fin? || a.Status.FinFail? }

  /** The random minutes are added once, when the auction stops being on plain sale; it is
      closed once, after its end time, and as a success if there is a last bidder. */
  ghost predicate ClockOk(a: AuctionData, e: Entry) {
    && |e.draws| == (if a.Status.Sale? then 0 else 1)
    && a.EndTime == (if a.Status.Sale? then EndOfSale(a.StartTime, e.hours)
                     else (EndOfSale(a.StartTime, e.hours) + e.draws[0]) % UINT64)
    && |e.closedAt| == (if IsClosed(a) then 1 else 0)
    && (IsClosed(a) ==> e.closedAt[0] > a.EndTime && (a.Status.Fin? <==> a.BidderID != 0))
  }

  // ---------- Containers ----------

  ghost predicate At(m: map<string, nat>, k: string, p: nat) { k in m && m[k] == p }

  /** The lists that hold auction `p` are those its status says, unless it was lost. */
  ghost predicate Placed(w: World, p: nat)
    requires p < |w.pool| == |w.book|
  {
    var a, lost := w.pool[p], w.book[p].lost;
    && (At(w.CellList, a.NickName, p) <==> a.Status.Sale? && !lost)
    && (At(w.ImminentList, a.NickName, p) <==> a.Status.Imminent? && !lost)
    && (p in w.FinList <==> a.Status.Fin?)
    && (lost ==> a.Status.Sale? || a.Status.Imminent?)
  }

  ghost predicate Keyed(w: World) {
    && Linked(w)
    && (forall k | k in w.CellList :: w.pool[w.CellList[k]].NickName == k)
    && (forall k | k in w.ImminentList :: w.pool[w.ImminentList[k]].NickName == k)
    && (forall k | k in w.FinList_UMap :: w.FinList_UMap[k] in w.FinList)
    && (forall i | 0 <= i < |w.FinList| :: w.FinList[i] < |w.pool|)
    && (forall i, j | 0 <= i < j < |w.FinList| :: w.FinList[i] != w.FinList[j])
  }

  ghost predicate AllPlaced(w: World)
    requires |w.book| == |w.pool|
  {
    forall p | 0 <= p < |w.pool| :: Placed(w, p)
  }

  ghost predicate AllTraded(w: World)
    requires |w.book| == |w.pool|
  {
    forall p | 0 <= p < |w.pool| :: LogOk(w.pool[p], w.book[p]) && ClockOk(w.pool[p], w.book[p])
  }

  // ---------- Reports to the database ----------

  function SoldAbout(jobs: seq<DbJob>, p: nat): seq<DbJob> {
    if jobs == [] then [] else
      var last := jobs[|jobs| - 1];
      SoldAbout(jobs[..|jobs| - 1], p) + (if last.Sold? && last.about == p then [last] else [])
  }

  function Report(w: World, p: nat): seq<DbJob> {
    if p < |w.pool| && IsClosed(w.pool[p])
    then [Sold(w.pool[p].BidderID, w.pool[p].Count, w.pool[p].NickName, p)] else []
  }

  ghost predicate AllReported(w: World) {
    forall p: nat :: SoldAbout(w.dbJobs, p) == Report(w, p)
  }

  ghost predicate Owned(w: World) {
    && (forall account | account in w.OwnList :: ListOk(w.OwnList[account]))
    && w.NumOfSales == |w.pool| <= MAX_SERVER_SLOT
  }

  ghost predicate Inv(w: World) {
    Linked(w) && Keyed(w) && AllPlaced(w) && AllTraded(w) && AllReported(w) && Owned(w)
  }

  // ---------- What a step does to the auctions ----------

  function Rank(a: AuctionData): nat { match a.Status case Sale => 0 case Imminent => 1 case _ => 2 }

  /** From (a, e) to (a', e'): the status only moves on, the log only grows, the end time
      moves only when the status leaves Sale, and an auction that is closed, or lost, stays
      what it is. */
  ghost predicate Evolves(a: AuctionData, e: Entry, a': AuctionData, e': Entry) {
    && a'.OwnerID == a.OwnerID && a'.NickName == a.NickName && a'.StartTime == a.StartTime
    && e'.startPrice == e.startPrice && e'.hours == e.hours
    && Rank(a) <= Rank(a') && (!a.Status.Sale? || a'.Status.Sale? ==> a'.EndTime == a.EndTime)
    && e.bids <= e'.bids && e.draws <= e'.draws && e.closedAt <= e'.closedAt
    && (IsClosed(a) || e.lost ==> a' == a && e' == e)
  }

  ghost predicate AllEvolve(w: World, w': World)
    requires |w.book| == |w.pool| && |w'.book| == |w'.pool|
  {
    |w.pool| <= |w'.pool| && forall p | 0 <= p < |w.pool| :: Evolves(w.pool[p], w.book[p], w'.pool[p], w'.book[p])
  }

  lemma EvolveTwice(w: World, w': World, w'': World)
    requires |w.book| == |w.pool| && |w'.book| == |w'.pool| && |w''.book| == |w''.pool|
    requires AllEvolve(w, w') && AllEvolve(w', w'')
    ensures AllEvolve(w, w'')
  {
    forall p | 0 <= p < |w.pool|
      ensures Evolves(w.pool[p], w.book[p], w''.pool[p], w''.book[p])
    {
      assert Evolves(w.pool[p], w.book[p], w'.pool[p], w'.book[p]);
      assert Evolves(w'.pool[p], w'.book[p], w''.pool[p], w''.book[p]);
    }
  }

  // ---------- Single auctions: what each kind of change keeps ----------

  lemma WrapOneMore(n: int)
    ensures Wrap32(Wrap32(n) + 1) == Wrap32(n + 1)
  {
  }

  lemma BidKeepsLog(a: AuctionData, e: Entry, account: int, price: Int32, a': AuctionData, e': Entry)
    requires LogOk(a, e) && a.Price < price && account != a.OwnerID
    requires a' == a.(BidderID := account, Price := price, Count := Wrap32(a.Count + 1))
    requires e' == e.(bids := e.bids + [Offer(account, price)])
    ensures LogOk(a', e')
  {
    WrapOneMore(|e.bids|);
    assert forall i | 0 <= i < |e.bids| :: e'.bids[i] == e.bids[i];
    forall i | 0 <= i < |e'.bids| ensures PriceBefore(e'.startPrice, e'.bids, i) < e'.bids[i].price {
      if i < |e.bids| { assert PriceBefore(e.startPrice, e.bids, i) == PriceBefore(e'.startPrice, e'.bids, i); }
    }
  }

  /** Each accepted bid costs at least one more: the log is no longer than the price rose. */
  lemma {:induction false} LogIsNoLongerThanTheRise(start: int, bids: seq<Offer>)
    requires Ascending(start, bids) && bids != []
    ensures |bids| <= bids[|bids| - 1].price - start
  {
    assert PriceBefore(start, bids, 0) < bids[0].price;
    if |bids| > 1 {
      var prefix := bids[..|bids| - 1];
      forall i | 0 <= i < |prefix| ensures PriceBefore(start, prefix, i) < prefix[i].price {
        assert PriceBefore(start, bids, i) < bids[i].price;
      }
      assert PriceBefore(start, bids, |bids| - 1) < bids[|bids| - 1].price;
      LogIsNoLongerThanTheRise(start, prefix);
    }
  }

  // ---------- A step that changes one auction ----------

  /** The container holds what it held, except perhaps for auction `p`. */
  ghost predicate SameButFor(m: map<string, nat>, m': map<string, nat>, p: nat) {
    forall k: string, q: nat | q != p :: At(m, k, q) <==> At(m', k, q)
  }

  ghost predicate OnlyTouches(w: World, w': World, p: nat) {
    && p < |w.pool| == |w.book| == |w'.pool| == |w'.book|
    && w'.pool == w.pool[p := w'.pool[p]] && w'.book == w.book[p := w'.book[p]]
  }

  lemma Known(w: World, p: nat)
    requires Inv(w) && p < |w.pool|
    ensures |w.book| == |w.pool| && Placed(w, p) && LogOk(w.pool[p], w.book[p]) && ClockOk(w.pool[p], w.book[p])
  {
  }

  lemma TouchPlaced(w: World, w': World, p: nat)
    requires OnlyTouches(w, w', p) && AllPlaced(w) && Placed(w', p)
    requires SameButFor(w.CellList, w'.CellList, p) && SameButFor(w.ImminentList, w'.ImminentList, p)
    requires forall q: nat | q != p :: q in w.FinList <==> q in w'.FinList
    ensures AllPlaced(w')
  {
    forall q | 0 <= q < |w'.pool| ensures Placed(w', q) {
      if q != p { assert Placed(w, q); }
    }
  }

  lemma TouchTraded(w: World, w': World, p: nat)
    requires OnlyTouches(w, w', p) && AllTraded(w) && LogOk(w'.pool[p], w'.book[p]) && ClockOk(w'.pool[p], w'.book[p])
    requires Evolves(w.pool[p], w.book[p], w'.pool[p], w'.book[p])
    ensures AllTraded(w') && AllEvolve(w, w')
  {
    hide LogOk, ClockOk;
  }

  /** Nothing is reported, and nothing has to be. */
  lemma TouchQuietly(w: World, w': World, p: nat)
    requires OnlyTouches(w, w', p) && AllReported(w) && w'.dbJobs == w.dbJobs
    requires !IsClosed(w.pool[p]) && !IsClosed(w'.pool[p])
    ensures AllReported(w')
  {
    forall q: nat ensures SoldAbout(w'.dbJobs, q) == Report(w', q) { assert Report(w', q) == Report(w, q); }
  }

  // ---------- The four steps that touch an auction ----------

  lemma KnownPlace(w: World, p: nat)
    requires p < |w.pool| == |w.book| && AllPlaced(w)
    ensures Placed(w, p)
  {
  }

  lemma KnownTrade(w: World, p: nat)
    requires p < |w.pool| == |w.book| && AllTraded(w)
    ensures LogOk(w.pool[p], w.book[p]) && ClockOk(w.pool[p], w.book[p])
  {
  }

  lemma NothingEvolves(w: World)
    requires |w.book| == |w.pool|
    ensures AllEvolve(w, w)
  {
  }

  // Becoming imminent.

  lemma MoveOneKeyed(w: World, now: nat, key: string, draw: Draw)
    requires Keyed(w)
    ensures Keyed(MoveOne(w, now, key, draw))
  {
  }

  lemma MoveOnePlaced(w: World, now: nat, key: string, draw: Draw)
    requires Keyed(w) && AllPlaced(w)
    ensures AllPlaced(MoveOne(w, now, key, draw))
  {
    hide AllPlaced;
    var w' := MoveOne(w, now, key, draw);
    if w' != w {
      KnownPlace(w, w.CellList[key]);
      TouchPlaced(w, w', w.CellList[key]);
    }
  }

  lemma MoveOneTraded(w: World, now: nat, key: string, draw: Draw)
    requires Keyed(w) && AllPlaced(w) && AllTraded(w)
    ensures var w' := MoveOne(w, now, key, draw); AllTraded(w') && AllEvolve(w, w')
  {
    hide AllPlaced, AllTraded, EndOfSale, AllEvolve;
    var w' := MoveOne(w, now, key, draw);
    if w' != w {
      var p := w.CellList[key];
      KnownPlace(w, p);
      KnownTrade(w, p);
      TouchTraded(w, w', p);
    } else {
      NothingEvolves(w);
    }
  }

  lemma MoveOneReported(w: World, now: nat, key: string, draw: Draw)
    requires Keyed(w) && AllPlaced(w) && AllReported(w)
    ensures AllReported(MoveOne(w, now, key, draw))
  {
    hide AllPlaced, AllReported;
    var w' := MoveOne(w, now, key, draw);
    if w' != w {
      KnownPlace(w, w.CellList[key]);
      TouchQuietly(w, w', w.CellList[key]);
    }
  }

  lemma MoveOneKeeps(w: World, now: nat, key: string, draw: Draw)
    requires Inv(w)
    ensures var w' := MoveOne(w, now, key, draw); Inv(w') && AllEvolve(w, w')
  {
    hide AllPlaced, AllTraded, AllReported, Keyed, AllEvolve;
    MoveOneKeyed(w, now, key, draw);
    MoveOnePlaced(w, now, key, draw);
    MoveOneTraded(w, now, key, draw);
    MoveOneReported(w, now, key, draw);
  }

  // Closing.

  lemma CloseOneKeyed(w: World, now: nat, key: string)
    requires Keyed(w) && AllPlaced(w)
    ensures Keyed(CloseOne(w, now, key))
  {
    hide AllPlaced;
    if key in w.ImminentList { KnownPlace(w, w.ImminentList[key]); }
  }

  lemma CloseOnePlaced(w: World, now: nat, key: string)
    requires Keyed(w) && AllPlaced(w)
    ensures AllPlaced(CloseOne(w, now, key))
  {
    hide AllPlaced;
    var w' := CloseOne(w, now, key);
    if w' != w {
      KnownPlace(w, w.ImminentList[key]);
      TouchPlaced(w, w', w.ImminentList[key]);
    }
  }

  lemma CloseOneTraded(w: World, now: nat, key: string)
    requires Keyed(w) && AllPlaced(w) && AllTraded(w)
    ensures var w' := CloseOne(w, now, key); AllTraded(w') && AllEvolve(w, w')
  {
    hide AllPlaced, AllTraded, EndOfSale, AllEvolve;
    var w' := CloseOne(w, now, key);
    if w' != w {
      var p := w.ImminentList[key];
      KnownPlace(w, p);
      KnownTrade(w, p);
      TouchTraded(w, w', p);
    } else {
      NothingEvolves(w);
    }
  }

  lemma CloseOneReported(w: World, now: nat, key: string)
    requires Keyed(w) && AllPlaced(w) && AllReported(w)
    ensures AllReported(CloseOne(w, now, key))
  {
    hide AllPlaced;
    var w' := CloseOne(w, now, key);
    if w' != w {
      KnownPlace(w, w.ImminentList[key]);
      assert w'.dbJobs[..|w.dbJobs|] == w.dbJobs;
      forall q: nat ensures SoldAbout(w'.dbJobs, q) == Report(w', q) {
        assert SoldAbout(w.dbJobs, q) == Report(w, q);
      }
    }
  }

  lemma CloseOneKeeps(w: World, now: nat, key: string)
    requires Inv(w)
    ensures var w' := CloseOne(w, now, key); Inv(w') && AllEvolve(w, w')
  {
    hide AllPlaced, AllTraded, AllReported, Keyed, AllEvolve;
    CloseOneKeyed(w, now, key);
    CloseOnePlaced(w, now, key);
    CloseOneTraded(w, now, key);
    CloseOneReported(w, now, key);
  }

  // An accepted bid.

  lemma BidKeeps(w: World, session: int, nick: string, price: Int32)
    requires Inv(w) && session in w.PlayerList && ListOk(OwnEntry(w, w.PlayerList[session].AccountNo))
    ensures var w' := Bid(w, session, nick, price); Inv(w') && AllEvolve(w, w')
  {
    hide AllPlaced, AllTraded, AllReported, AllEvolve, LogOk, EndOfSale;
    var w', player := Bid(w, session, nick, price), w.PlayerList[session];
    if w' == w {
      NothingEvolves(w);
    } else {
      var p := Find(w, nick).value;
      KnownPlace(w, p);
      KnownTrade(w, p);
      BidKeepsLog(w.pool[p], w.book[p], player.AccountNo, price, w'.pool[p], w'.book[p]);
      TouchPlaced(w, w', p);
      TouchTraded(w, w', p);
      TouchQuietly(w, w', p);
    }
  }

  // A registration.

  lemma WithAuctionKeyed(w: World, account: int, asked: InitData, nick: string, now: nat, leftover: string)
    requires Keyed(w)
    ensures Keyed(WithAuction(w, account, asked, nick, now, leftover))
  {
    hide EndOfSale;
  }

  lemma RegisteredKeyed(w: World, account: int, now: nat, leftover: string)
    requires Keyed(w)
    ensures Keyed(Registered(w, account, now, leftover))
  {
    hide EndOfSale, WithAuction;
    var own := OwnEntry(w, account);
    var w1 := w.(OwnList := w.OwnList[account := own]);
    assert Keyed(w1);
    if account in w.waitingDataList && account in w.PlayerList {
      var w2 := w1.(waitingDataList := w.waitingDataList - {account});
      assert Keyed(w2);
      WithAuctionKeyed(w2, account, w.waitingDataList[account], w.PlayerList[account].NickName, now, leftover);
    }
  }

  lemma RegisteredPlaced(w: World, account: int, now: nat, leftover: string)
    requires Keyed(w) && AllPlaced(w)
    ensures AllPlaced(Registered(w, account, now, leftover))
  {
    hide AllPlaced, EndOfSale;
    var w' := Registered(w, account, now, leftover);
    forall p | 0 <= p < |w'.pool| ensures Placed(w', p) {
      if p < |w.pool| { KnownPlace(w, p); }
    }
    AreAllPlaced(w');
  }

  lemma AreAllPlaced(w: World)
    requires |w.book| == |w.pool| && forall p | 0 <= p < |w.pool| :: Placed(w, p)
    ensures AllPlaced(w)
  {
  }

  lemma RegisteredTraded(w: World, account: int, now: nat, leftover: string)
    requires Linked(w) && AllTraded(w)
    ensures var w' := Registered(w, account, now, leftover); |w'.book| == |w'.pool| && AllTraded(w') && AllEvolve(w, w')
  {
    hide LogOk, ClockOk, EndOfSale;
    var w' := Registered(w, account, now, leftover);
    if w'.pool != w.pool {
      var p := |w.pool|;
      assert LogOk(w'.pool[p], w'.book[p]) && ClockOk(w'.pool[p], w'.book[p])
             by { NewIsTraded(w'.pool[p], w'.book[p]); }
    }
  }

  lemma NewIsTraded(a: AuctionData, e: Entry)
    requires e.bids == [] && e.draws == [] && e.closedAt == [] && a.Status.Sale? && a.BidderID == 0 && a.Count == 0
    requires a.Price == e.startPrice && a.EndTime == EndOfSale(a.StartTime, e.hours)
    ensures LogOk(a, e) && ClockOk(a, e)
  {
  }

  lemma RegisteredReported(w: World, account: int, now: nat, leftover: string)
    requires AllReported(w)
    ensures AllReported(Registered(w, account, now, leftover))
  {
    hide EndOfSale;
    var w' := Registered(w, account, now, leftover);
    if w'.dbJobs != w.dbJobs {
      assert w'.dbJobs[..|w.dbJobs|] == w.dbJobs;
      forall q: nat ensures SoldAbout(w'.dbJobs, q) == Report(w', q) {
        assert SoldAbout(w.dbJobs, q) == Report(w, q);
      }
    }
  }

  lemma RegisteredKeeps(w: World, account: int, now: nat, leftover: string)
    requires Inv(w)
    ensures var w' := Registered(w, account, now, leftover); Inv(w') && AllEvolve(w, w')
  {
    hide AllPlaced, AllTraded, AllReported, AllEvolve, Keyed, EndOfSale;
    RegisteredKeyed(w, account, now, leftover);
    RegisteredPlaced(w, account, now, leftover);
    RegisteredTraded(w, account, now, leftover);
    RegisteredReported(w, account, now, leftover);
  }

  // ---------- Jobs ----------

  /** Forgetting keeps the list indexable; each pass gives up one slot and skips one, so half
      the slots are left. */
  lemma {:induction false} ForgettingHalves(l: NickNameList, i: nat)
    requires ListOk(l) && i <= l.count
    ensures var l' := Forgotten(l, i); ListOk(l') && l'.count == i + (l.count - i) / 2
    decreases l.count - i
  {
    if i < l.count {
      var names := if l.NickNames[i] == l.RequestNickName then Without(l.NickNames, i) else l.NickNames;
      var next := NickNameList(l.count - 1, "NULL", names);
      if i + 1 <= next.count {
        ForgettingHalves(next, i + 1);
      }
    }
  }

  /** A job that leaves the auctions and their lists alone. */
  lemma AsideKeeps(w: World, w': World)
    requires Inv(w)
    requires w' == w.(PlayerList := w'.PlayerList, waitingDataList := w'.waitingDataList, OwnList := w'.OwnList,
                      LastUpdateTime_ms := w'.LastUpdateTime_ms, dbJobs := w'.dbJobs)
    requires forall account | account in w'.OwnList :: ListOk(w'.OwnList[account])
    requires w'.dbJobs == w.dbJobs
             || (w'.dbJobs != [] && w'.dbJobs[..|w'.dbJobs| - 1] == w.dbJobs && !w'.dbJobs[|w'.dbJobs| - 1].Sold?)
    ensures Inv(w') && AllEvolve(w, w')
  {
    hide LogOk, ClockOk;
    assert AllPlaced(w') by { forall p | 0 <= p < |w.pool| ensures Placed(w', p) { KnownPlace(w, p); } }
    forall q: nat ensures SoldAbout(w'.dbJobs, q) == Report(w', q) {
      assert SoldAbout(w.dbJobs, q) == Report(w, q) == Report(w', q);
    }
  }

  lemma {:induction false} MovedKeeps(w: World, now: nat, order: seq<string>, draws: seq<Draw>, n: nat)
    requires Inv(w) && n <= |order| <= |draws|
    ensures var w' := Moved(w, now, order, draws, n); Inv(w') && AllEvolve(w, w')
  {
    hide Inv, AllEvolve;
    LinkedInv(w);
    if n == 0 {
      NothingEvolves(w);
    } else {
      var before := Moved(w, now, order, draws, n - 1);
      MovedKeeps(w, now, order, draws, n - 1);
      MoveOneKeeps(before, now, order[n - 1], draws[n - 1]);
      EvolveTwice(w, before, Moved(w, now, order, draws, n));
    }
  }

  lemma {:induction false} ClosedKeeps(w: World, now: nat, order: seq<string>, n: nat)
    requires Inv(w) && n <= |order|
    ensures var w' := Closed(w, now, order, n); Inv(w') && AllEvolve(w, w')
  {
    hide Inv, AllEvolve;
    LinkedInv(w);
    if n == 0 {
      NothingEvolves(w);
    } else {
      var before := Closed(w, now, order, n - 1);
      ClosedKeeps(w, now, order, n - 1);
      CloseOneKeeps(before, now, order[n - 1]);
      EvolveTwice(w, before, Closed(w, now, order, n));
    }
  }

  lemma LinkedInv(w: World)
    requires Inv(w)
    ensures Linked(w)
  {
  }

  lemma UpdatedKeeps(w: World, now: nat, cells: seq<string>, draws: seq<Draw>, imminents: seq<string>)
    requires Inv(w) && Linked(w) && |cells| <= |draws|
    ensures var w' := Updated(w, now, cells, draws, imminents); Inv(w') && Linked(w') && AllEvolve(w, w')
  {
    hide Inv, AllEvolve, Moved, Closed;
    NothingEvolves(w);
    MovedKeeps(w, now, cells, draws, |cells|);
    var w1 := AfterMoves(w, now, cells, draws);
    NothingEvolves(w1);
    ClosedKeeps(w1, now, imminents, |imminents|);
    var w2 := AfterCloses(w1, now, imminents);
    assert Inv(w2.(LastUpdateTime_ms := now)) && AllEvolve(w2, w2.(LastUpdateTime_ms := now)) by {
      OwnersInv(w2);
      AsideKeeps(w2, w2.(LastUpdateTime_ms := now));
    }
    EvolveTwice(w, w1, w2);
    EvolveTwice(w, w2, w2.(LastUpdateTime_ms := now));
  }

  lemma OwnersInv(w: World)
    requires Inv(w)
    ensures forall account | account in w.OwnList :: ListOk(w.OwnList[account])
  {
  }

  /** What the environment chooses is of the right kind: clock readings, and walks of the
      containers. */
  ghost predicate Possible(w: World, job: Job) {
    match job
    case RegisterAble(_, now, _) => now < UINT64
    case Tick(now, cells, draws, imminents) =>
      now < UINT64 && Walk(cells, w.CellList.Keys) && |cells| == |draws|
      && (Linked(w) ==> Walk(imminents, AfterMoves(w, now, cells, draws).ImminentList.Keys))
    case _ => true
  }

  /** A request to change a nickname, or the answer to one, for an account without an entry in
      OwnList: both handlers dereference what find returned without looking at it. */
  predicate Derails(w: World, job: Job) {
    match job
    case Recv(session, ReqChangeNickName(_)) => Admitted(w, session) && w.PlayerList[session].AccountNo !in w.OwnList
    case ChangeAble(account) => account !in w.OwnList
    case _ => false
  }

  /** Those, and only those, are out of bounds. */
  lemma IndexingIsSafe(w: World, job: Job)
    requires Inv(w) && Possible(w, job)
    ensures Enabled(w, job) <==> !Derails(w, job)
  {
    OwnersInv(w);
  }

  lemma RecvKeeps(w: World, session: int, packet: Packet)
    requires Inv(w) && Enabled(w, Recv(session, packet))
    ensures var w' := Next(w, Recv(session, packet)); Inv(w') && AllEvolve(w, w')
  {
    hide Inv, AllEvolve;
    if Admitted(w, session) && packet.ReqBid? {
      BidKeeps(w, session, packet.NickName, packet.Price);
    } else {
      OwnersInv(w);
      AsideKeeps(w, Next(w, Recv(session, packet)));
    }
  }

  lemma JobKeeps(w: World, job: Job)
    requires Inv(w) && Enabled(w, job)
    ensures var w' := Next(w, job); Inv(w') && Linked(w') && AllEvolve(w, w')
  {
    hide Inv, AllEvolve, Updated, Registered, Handled, PacketEnabled;
    OwnersInv(w);
    match job {
      case Join(_) => AsideKeeps(w, Next(w, job));
      case Leave(_) => AsideKeeps(w, Next(w, job));
      case Login(_, _) => AsideKeeps(w, Next(w, job));
      case Recv(session, packet) => RecvKeeps(w, session, packet);
      case ChangeAble(account) =>
        ForgettingHalves(w.OwnList[account], 0);
        AsideKeeps(w, Next(w, job));
      case RegisterAble(account, now, leftover) => RegisteredKeeps(w, account, now, leftover);
      case Tick(now, cells, draws, imminents) => UpdatedKeeps(w, now, cells, draws, imminents);
    }
    LinkedInv(Next(w, job));
  }
}
