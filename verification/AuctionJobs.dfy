/** When a registration, a bid or an update takes effect, said in terms of the auctions. */
module AuctionJobs {
  import opened AuctionRules
  import opened AuctionHistory
  import opened AuctionRuns

  // ---------- Registration ----------

  predicate MayRegister(w: World, account: int) {
    && OwnEntry(w, account).count < MAX_USER_SLOT && |w.pool| < MAX_SERVER_SLOT
    && account in w.waitingDataList && account in w.PlayerList
  }

  /** A registration adds exactly one auction, owned by the account and starting at the price
      it asked for, exactly when the account and the server have a slot left, the request is
      still waiting and a player is entered under the account number; otherwise no auction and
      no list of auctions changes.  The request is used up even when there is no such player. */
  lemma RegistrationIsDecided(w: World, account: int, now: nat, leftover: string)
    requires Inv(w)
    ensures var w' := Registered(w, account, now, leftover);
            && |w'.book| == |w'.pool| == (if MayRegister(w, account) then |w.pool| + 1 else |w.pool|)
            && w'.pool[..|w.pool|] == w.pool && w'.book[..|w.pool|] == w.book
            && w'.ImminentList == w.ImminentList && w'.FinList == w.FinList
            && OwnEntry(w', account).count == OwnEntry(w, account).count + |w'.pool| - |w.pool|
            && (account in w'.waitingDataList <==>
                account in w.waitingDataList
                && (OwnEntry(w, account).count >= MAX_USER_SLOT || |w.pool| >= MAX_SERVER_SLOT))
    ensures MayRegister(w, account) ==>
              var w', p := Registered(w, account, now, leftover), |w.pool|;
              && w'.pool[p].OwnerID == account && w'.pool[p].StartTime == now && w'.pool[p].Status.Sale?
              && w'.pool[p].NickName == w.PlayerList[account].NickName
              && w'.book[p].startPrice == w.waitingDataList[account].Price
              && w'.book[p].hours == w.waitingDataList[account].Time
              && (w'.book[p].lost <==> w'.pool[p].NickName in w.CellList)
  {
    hide EndOfSale, AllPlaced, AllTraded, AllReported;
    RegisteredKeeps(w, account, now, leftover);
  }

  // ---------- Bids ----------

  /** Bids under `nick` reach auction `p`: it is imminent, or on sale with no imminent namesake. */
  ghost predicate Open(w: World, nick: string, p: nat)
    requires p < |w.pool| == |w.book|
  {
    && w.pool[p].NickName == nick && !w.book[p].lost
    && (w.pool[p].Status.Imminent?
        || (w.pool[p].Status.Sale?
            && forall q | 0 <= q < |w.pool| && w.pool[q].Status.Imminent? && !w.book[q].lost ::
                 w.pool[q].NickName != nick))
  }

  lemma OpenIsFound(w: World, nick: string, p: nat)
    requires Inv(w) && |w.book| == |w.pool| && p < |w.pool|
    ensures Open(w, nick, p) <==> Find(w, nick) == Some(p)
  {
    hide LogOk, ClockOk;
    KnownPlace(w, p);
    if nick in w.ImminentList {
      KnownPlace(w, w.ImminentList[nick]);
    } else {
      forall q | 0 <= q < |w.pool| && w.pool[q].Status.Imminent? && !w.book[q].lost ensures w.pool[q].NickName != nick {
        KnownPlace(w, q);
      }
      if nick in w.CellList { KnownPlace(w, w.CellList[nick]); }
    }
  }

  /** A bid is entered in an auction's log exactly when it reaches that auction, is all the
      bidder's points, tops the last price, and is not the owner's; it then costs the bidder
      those points, and nobody else's change, the outbid bidder's included. */
  lemma BidIsDecided(w: World, session: int, nick: string, price: Int32, p: nat)
    requires Inv(w) && |w.book| == |w.pool| && p < |w.pool| && session in w.PlayerList
    requires ListOk(OwnEntry(w, w.PlayerList[session].AccountNo))
    ensures var w', player := Bid(w, session, nick, price), w.PlayerList[session];
            var stands := player.Point == price && Open(w, nick, p) && LastPrice(w.book[p]) < price
                          && player.AccountNo != w.pool[p].OwnerID;
            && |w'.book| == |w.book|
            && w'.book[p].bids == w.book[p].bids + (if stands then [Offer(player.AccountNo, price)] else [])
            && (stands ==> w'.PlayerList == w.PlayerList[session := player.(Point := 0)])
            && (!stands && (Find(w, nick) == Some(p) || Find(w, nick) == None) ==> w' == w)
  {
    hide ClockOk, AllPlaced, AllReported, AllTraded;
    OpenIsFound(w, nick, p);
    KnownTrade(w, p);
  }

  // ---------- Updates ----------

  lemma CloseOneSparesSale(w: World, now: nat, key: string, p: nat)
    requires Inv(w) && Linked(w) && p < |w.pool| && w.pool[p].Status.Sale?
    ensures var w' := CloseOne(w, now, key); p < |w'.pool| && w'.pool[p].Status.Sale?
  {
    hide AllPlaced, AllTraded, AllReported;
    if key in w.ImminentList { KnownPlace(w, w.ImminentList[key]); }
  }

  lemma {:induction false} ClosingSparesSale(w: World, now: nat, order: seq<string>, n: nat, p: nat)
    requires Inv(w) && Linked(w) && n <= |order| && p < |w.pool| && w.pool[p].Status.Sale?
    ensures var w' := Closed(w, now, order, n); p < |w'.pool| && w'.pool[p].Status.Sale?
  {
    hide Inv, CloseOne;
    if n > 0 {
      ClosingSparesSale(w, now, order, n - 1, p);
      ClosedKeeps(w, now, order, n - 1);
      CloseOneSparesSale(Closed(w, now, order, n - 1), now, order[n - 1], p);
    }
  }

  lemma RegisteringSparesSale(w: World, account: int, now: nat, leftover: string, p: nat)
    requires p < |w.pool| && w.pool[p].Status.Sale?
    ensures var w' := Registered(w, account, now, leftover); p < |w'.pool| && w'.pool[p].Status.Sale?
  {
  }

  lemma PacketSparesSale(w: World, session: int, packet: Packet, p: nat)
    requires Linked(w) && session in w.PlayerList && PacketEnabled(w, session, packet)
    requires p < |w.pool| && w.pool[p].Status.Sale?
    ensures var w' := Handled(w, session, packet); p < |w'.pool| && w'.pool[p].Status.Sale?
  {
  }

  lemma OneJobSparesSale(w: World, job: Job, p: nat)
    requires Inv(w) && Enabled(w, job) && p < |w.pool| && w.pool[p].Status.Sale?
    requires job.Tick? ==> Gap(job.now, w.LastUpdateTime_ms) <= MOVE_GAP
    ensures p < |Next(w, job).pool| && Next(w, job).pool[p].Status.Sale?
  {
    hide Inv, Closed, Moved, Forgotten, Handled, Registered, Linked;
    match job
    case Tick(now, _, _, imminents) => ClosingSparesSale(w, now, imminents, |imminents|, p);
    case RegisterAble(account, now, leftover) => RegisteringSparesSale(w, account, now, leftover, p);
    case Recv(session, packet) => if Admitted(w, session) { PacketSparesSale(w, session, packet, p); }
    case _ =>
  }

  /** Every call of the update notes the time, whether or not it does anything.  So as long as
      calls come at most a minute apart, however long that goes on, no auction leaves plain
      sale, whatever its end time. */
  lemma {:induction false} FrequentUpdatesEndNothing(r: Run, i: nat, j: nat, p: nat)
    requires Valid(r) && i <= j < |r.worlds| && p < |r.worlds[i].pool| && r.worlds[i].pool[p].Status.Sale?
    requires forall x | i <= x < j && r.jobs[x].Tick? :: Gap(r.jobs[x].now, r.worlds[x].LastUpdateTime_ms) <= MOVE_GAP
    ensures p < |r.worlds[j].pool| && r.worlds[j].pool[p].Status.Sale?
    decreases j - i
  {
    hide Inv, Linked;
    if i < j {
      FrequentUpdatesEndNothing(r, i, j - 1, p);
      RunInv(r, j - 1);
      assert StepOf(r, j - 1);
      OneJobSparesSale(r.worlds[j - 1], r.jobs[j - 1], p);
    }
  }

  // ---------- Answers to nickname changes ----------

  /** Every account a change was checked for has an entry in OwnList. */
  ghost predicate ChecksOwned(w: World) {
    forall x | 0 <= x < |w.dbJobs| && w.dbJobs[x].ChangeCheck? :: w.dbJobs[x].AccountNo in w.OwnList
  }

  lemma {:induction false} MovingSparesChecks(w: World, now: nat, order: seq<string>, draws: seq<Draw>, n: nat)
    requires Linked(w) && n <= |order| <= |draws|
    ensures var w' := Moved(w, now, order, draws, n); w'.dbJobs == w.dbJobs && w'.OwnList == w.OwnList
  {
    if n > 0 { MovingSparesChecks(w, now, order, draws, n - 1); }
  }

  lemma CloseOneSparesChecks(w: World, now: nat, key: string)
    requires Linked(w) && ChecksOwned(w)
    ensures ChecksOwned(CloseOne(w, now, key))
  {
  }

  lemma {:induction false} ClosingSparesChecks(w: World, now: nat, order: seq<string>, n: nat)
    requires Linked(w) && n <= |order| && ChecksOwned(w)
    ensures ChecksOwned(Closed(w, now, order, n))
  {
    hide ChecksOwned, CloseOne;
    if n > 0 {
      ClosingSparesChecks(w, now, order, n - 1);
      CloseOneSparesChecks(Closed(w, now, order, n - 1), now, order[n - 1]);
    }
  }

  lemma TickSparesChecks(w: World, now: nat, cells: seq<string>, draws: seq<Draw>, imminents: seq<string>)
    requires Linked(w) && |cells| <= |draws| && ChecksOwned(w)
    ensures ChecksOwned(Updated(w, now, cells, draws, imminents))
  {
    hide Moved, Closed;
    MovingSparesChecks(w, now, cells, draws, |cells|);
    ClosingSparesChecks(AfterMoves(w, now, cells, draws), now, imminents, |imminents|);
  }

  lemma PacketSparesChecks(w: World, session: int, packet: Packet)
    requires Linked(w) && session in w.PlayerList && PacketEnabled(w, session, packet) && ChecksOwned(w)
    ensures ChecksOwned(Handled(w, session, packet))
  {
    hide Linked, CheckedAndInserted, BidStands;
  }

  lemma RegisteringSparesChecks(w: World, account: int, now: nat, leftover: string)
    requires ChecksOwned(w)
    ensures ChecksOwned(Registered(w, account, now, leftover))
  {
    hide EndOfSale;
  }

  lemma JobSparesChecks(w: World, job: Job)
    requires Enabled(w, job) && ChecksOwned(w)
    ensures ChecksOwned(Next(w, job))
  {
    hide Forgotten, Updated, Handled, Registered, PacketEnabled;
    match job
    case Tick(now, cells, draws, imminents) => TickSparesChecks(w, now, cells, draws, imminents);
    case RegisterAble(account, now, leftover) => RegisteringSparesChecks(w, account, now, leftover);
    case Recv(session, packet) => if Admitted(w, session) { PacketSparesChecks(w, session, packet); }
    case _ =>
  }

  lemma {:induction false} ChecksAreOwned(r: Run, i: nat)
    requires Valid(r) && i < |r.worlds|
    ensures ChecksOwned(r.worlds[i])
  {
    hide ChecksOwned, Next, Enabled;
    if i == 0 {
      assert ChecksOwned(Opening()) by { NothingToCheck(); }
    } else {
      ChecksAreOwned(r, i - 1);
      assert StepOf(r, i - 1);
      JobSparesChecks(r.worlds[i - 1], r.jobs[i - 1]);
    }
  }

  lemma NothingToCheck()
    ensures ChecksOwned(Opening())
  {
  }

  /** A positive answer of the database thread comes for an account it was asked about, and is
      therefore in bounds. */
  lemma AnswersAreInBounds(r: Run, i: nat, account: int)
    requires Valid(r) && i < |r.worlds|
    requires exists x | 0 <= x < |r.worlds[i].dbJobs| ::
               r.worlds[i].dbJobs[x].ChangeCheck? && r.worlds[i].dbJobs[x].AccountNo == account
    ensures Enabled(r.worlds[i], ChangeAble(account))
  {
    ChecksAreOwned(r, i);
    BoundsAreDecided(r, i, ChangeAble(account));
  }
}
