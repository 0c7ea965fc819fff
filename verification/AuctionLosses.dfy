/** Auctions that drop out of every container: the maps refuse a nickname they already hold,
    and the refused auction is never seen again. */
module AuctionLosses {
  import opened AuctionRules
  import opened AuctionHistory
  import opened AuctionRuns

  ghost predicate HasNamesake(w: World, p: nat)
    requires p < |w.pool|
  {
    exists q | 0 <= q < |w.pool| && q != p :: w.pool[q].NickName == w.pool[p].NickName
  }

  ghost predicate LostToNamesakes(w: World)
    requires |w.book| == |w.pool|
  {
    forall p | 0 <= p < |w.pool| && w.book[p].lost :: HasNamesake(w, p)
  }

  /** It is enough to explain the newly lost. */
  lemma NamesakesStay(w: World, w': World)
    requires |w.book| == |w.pool| && |w'.book| == |w'.pool| && AllEvolve(w, w') && LostToNamesakes(w)
    requires forall p | 0 <= p < |w'.pool| && w'.book[p].lost ::
               (p < |w.pool| && w.book[p].lost) || HasNamesake(w', p)
    ensures LostToNamesakes(w')
  {
    forall p | 0 <= p < |w'.pool| && w'.book[p].lost ensures HasNamesake(w', p) {
      if p < |w.pool| && w.book[p].lost {
        var q :| 0 <= q < |w.pool| && q != p && w.pool[q].NickName == w.pool[p].NickName;
        assert Evolves(w.pool[p], w.book[p], w'.pool[p], w'.book[p]);
        assert Evolves(w.pool[q], w.book[q], w'.pool[q], w'.book[q]);
      }
    }
  }

  lemma SameLosses(w: World, w': World)
    requires |w.book| == |w.pool| == |w'.book| == |w'.pool| && AllEvolve(w, w') && LostToNamesakes(w)
    requires forall p | 0 <= p < |w.pool| :: w'.book[p].lost == w.book[p].lost
    ensures LostToNamesakes(w')
  {
    NamesakesStay(w, w');
  }

  lemma MoveOneLosses(w: World, now: nat, key: string, draw: Draw)
    requires Inv(w) && Linked(w) && LostToNamesakes(w)
    ensures LostToNamesakes(MoveOne(w, now, key, draw))
  {
    hide LostToNamesakes, AllEvolve, AllTraded, AllReported;
    var w' := MoveOne(w, now, key, draw);
    MoveOneKeeps(w, now, key, draw);
    if w' != w {
      var p := w.CellList[key];
      KnownPlace(w, p);
      if key in w.ImminentList {
        var q := w.ImminentList[key];
        KnownPlace(w, q);
        assert w'.pool[q].NickName == key == w'.pool[p].NickName;
      }
      NamesakesStay(w, w');
    }
  }

  lemma RegisteredLosses(w: World, account: int, now: nat, leftover: string)
    requires Inv(w) && Linked(w) && LostToNamesakes(w)
    ensures var w' := Registered(w, account, now, leftover); |w'.book| == |w'.pool| && LostToNamesakes(w')
  {
    hide LostToNamesakes, AllEvolve, AllTraded, AllReported, AllPlaced, EndOfSale;
    var w' := Registered(w, account, now, leftover);
    RegisteredKeeps(w, account, now, leftover);
    if |w'.pool| > |w.pool| {
      var p := |w.pool|;
      if w'.book[p].lost {
        var q := w.CellList[w'.pool[p].NickName];
        assert w'.pool[q].NickName == w'.pool[p].NickName;
      }
    }
    NamesakesStay(w, w');
  }

  lemma CloseOneLosses(w: World, now: nat, key: string)
    requires Inv(w) && Linked(w) && LostToNamesakes(w)
    ensures LostToNamesakes(CloseOne(w, now, key))
  {
    hide Inv, LostToNamesakes, AllEvolve;
    CloseOneKeeps(w, now, key);
    SameLosses(w, CloseOne(w, now, key));
  }

  lemma BidLosses(w: World, session: int, nick: string, price: Int32)
    requires Inv(w) && Linked(w) && LostToNamesakes(w)
    requires session in w.PlayerList && ListOk(OwnEntry(w, w.PlayerList[session].AccountNo))
    ensures var w' := Bid(w, session, nick, price); |w'.book| == |w'.pool| && LostToNamesakes(w')
  {
    hide Inv, LostToNamesakes, AllEvolve;
    BidKeeps(w, session, nick, price);
    SameLosses(w, Bid(w, session, nick, price));
  }

  lemma {:induction false} MovedLosses(w: World, now: nat, order: seq<string>, draws: seq<Draw>, n: nat)
    requires Inv(w) && Linked(w) && LostToNamesakes(w) && n <= |order| <= |draws|
    ensures LostToNamesakes(Moved(w, now, order, draws, n))
  {
    hide Inv, LostToNamesakes;
    if n > 0 {
      MovedLosses(w, now, order, draws, n - 1);
      MovedKeeps(w, now, order, draws, n - 1);
      MoveOneLosses(Moved(w, now, order, draws, n - 1), now, order[n - 1], draws[n - 1]);
    }
  }

  lemma {:induction false} ClosedLosses(w: World, now: nat, order: seq<string>, n: nat)
    requires Inv(w) && Linked(w) && LostToNamesakes(w) && n <= |order|
    ensures LostToNamesakes(Closed(w, now, order, n))
  {
    hide Inv, LostToNamesakes;
    if n > 0 {
      ClosedLosses(w, now, order, n - 1);
      ClosedKeeps(w, now, order, n - 1);
      CloseOneLosses(Closed(w, now, order, n - 1), now, order[n - 1]);
    }
  }

  lemma UpdatedLosses(w: World, now: nat, cells: seq<string>, draws: seq<Draw>, imminents: seq<string>)
    requires Inv(w) && Linked(w) && LostToNamesakes(w) && |cells| <= |draws|
    ensures var w' := Updated(w, now, cells, draws, imminents); |w'.book| == |w'.pool| && LostToNamesakes(w')
  {
    hide Inv, LostToNamesakes, Moved, Closed;
    MovedLosses(w, now, cells, draws, |cells|);
    MovedKeeps(w, now, cells, draws, |cells|);
    var w1 := AfterMoves(w, now, cells, draws);
    ClosedLosses(w1, now, imminents, |imminents|);
    var w2 := AfterCloses(w1, now, imminents);
    assert LostToNamesakes(w2.(LastUpdateTime_ms := now)) by { SameBook(w2, w2.(LastUpdateTime_ms := now)); }
  }

  lemma SameBook(w: World, w': World)
    requires |w.book| == |w.pool| && w'.book == w.book && w'.pool == w.pool && LostToNamesakes(w)
    ensures LostToNamesakes(w')
  {
    assert forall p | 0 <= p < |w.pool| && HasNamesake(w, p) :: HasNamesake(w', p);
  }

  lemma JobLosses(w: World, job: Job)
    requires Inv(w) && Enabled(w, job) && LostToNamesakes(w)
    ensures var w' := Next(w, job); |w'.book| == |w'.pool| && LostToNamesakes(w')
  {
    hide Inv, LostToNamesakes;
    match job
    case RegisterAble(account, now, leftover) => RegisteredLosses(w, account, now, leftover);
    case Tick(now, cells, draws, imminents) => UpdatedLosses(w, now, cells, draws, imminents);
    case Recv(session, ReqBid(nick, price)) =>
      if Admitted(w, session) { BidLosses(w, session, nick, price); }
    case _ => SameBook(w, Next(w, job));
  }

  /** An auction is lost only to another auction registered under the same nickname. */
  lemma {:induction false} OnlyNamesakesLose(r: Run, i: nat)
    requires Valid(r) && i < |r.worlds|
    ensures |r.worlds[i].book| == |r.worlds[i].pool| && LostToNamesakes(r.worlds[i])
  {
    hide Inv, LostToNamesakes;
    if i == 0 {
      assert LostToNamesakes(Opening()) by { NoLosses(Opening()); }
    } else {
      OnlyNamesakesLose(r, i - 1);
      RunInv(r, i - 1);
      assert StepOf(r, i - 1);
      JobLosses(r.worlds[i - 1], r.jobs[i - 1]);
    }
  }

  lemma NoLosses(w: World)
    requires w.pool == [] && w.book == []
    ensures LostToNamesakes(w)
  {
  }

  /** An owner whose registered nickname is still on sale and who registers it again is told
      that this succeeded, but the new auction is in no list and never will be: nobody can bid
      on it, it never closes, and no sale of it is ever reported. */
  lemma RegisteringTwiceLosesTheSecond(r: Run, i: nat, j: nat)
    requires Valid(r) && i < j < |r.worlds| && r.jobs[i].RegisterAble?
    requires var w, account := r.worlds[i], r.jobs[i].account;
             && account in w.waitingDataList && account in w.PlayerList
             && w.PlayerList[account].NickName in w.CellList
             && OwnEntry(w, account).count < MAX_USER_SLOT && w.NumOfSales < MAX_SERVER_SLOT
    ensures var p, w := |r.worlds[i].pool|, r.worlds[j];
            && p < |w.pool| == |w.book| && w.book[p].lost && w.pool[p].Status.Sale? && w.book[p].bids == []
            && (forall k :: !At(w.CellList, k, p) && !At(w.ImminentList, k, p)) && p !in w.FinList
            && SoldAbout(w.dbJobs, p) == []
  {
    hide Inv, AllEvolve, Linked;
    var p := |r.worlds[i].pool|;
    RunInv(r, i);
    assert StepOf(r, i);
    HistoryOnlyGrows(r, i + 1, j);
    assert |r.worlds[i].book| == p && |r.worlds[i + 1].book| == |r.worlds[i + 1].pool| by {
      Sizes(r.worlds[i]);
      Sizes(r.worlds[i + 1]);
    }
    assert |r.worlds[j].book| == |r.worlds[j].pool| by { Sizes(r.worlds[j]); }
    EvolvesAt(r.worlds[i + 1], r.worlds[j], p);
    OneContainer(r, j, p);
    ClosesByItsLog(r, j, p);
  }

  lemma EvolvesAt(w: World, w': World, p: nat)
    requires |w.book| == |w.pool| && |w'.book| == |w'.pool| && AllEvolve(w, w') && p < |w.pool|
    ensures p < |w'.pool| && Evolves(w.pool[p], w.book[p], w'.pool[p], w'.book[p])
  {
  }
}
