/** What the timed passes and the owners' lists come to, seen as wholes. */
module AuctionPasses {
  import opened AuctionRules
  import opened AuctionHistory

  predicate Due(w: World, p: nat, now: nat)
    requires p < |w.pool|
  {
    w.pool[p].EndTime < now
  }

  // ---------- The one-minute pass ----------

  /** What the pass has made of the CellList entry under `k`: gone, with its auction imminent
      and `draw` later, when it was due; otherwise exactly as it was. */
  ghost predicate MoveFate(w: World, r: World, now: nat, k: string, draw: Draw, visited: bool)
    requires Linked(w) && k in w.CellList && |r.book| == |r.pool| == |w.pool|
  {
    var p := w.CellList[k];
    if visited && Due(w, p, now) then
      && k !in r.CellList
      && r.pool[p] == w.pool[p].(Status := Imminent, EndTime := (w.pool[p].EndTime + draw) % UINT64)
      && r.book[p].draws == w.book[p].draws + [draw] && (r.book[p].lost <==> k in w.ImminentList)
      && (k !in w.ImminentList ==> At(r.ImminentList, k, p))
    else
      At(r.CellList, k, p) && r.pool[p] == w.pool[p] && r.book[p] == w.book[p]
      && (k in r.ImminentList <==> k in w.ImminentList)
  }

  /** The pass leaves everything else alone. */
  ghost predicate MoveSpares(w: World, r: World)
    requires Linked(w) && |r.book| == |r.pool| == |w.pool|
  {
    && (forall k | k in r.CellList :: k in w.CellList)
    && (forall k | k in w.ImminentList :: At(r.ImminentList, k, w.ImminentList[k]))
    && (forall k | k in r.ImminentList :: k in w.ImminentList || k in w.CellList)
    && (forall p | 0 <= p < |w.pool| && !At(w.CellList, w.pool[p].NickName, p) ::
          r.pool[p] == w.pool[p] && r.book[p] == w.book[p])
    && r.FinList == w.FinList && r.OwnList == w.OwnList && r.dbJobs == w.dbJobs && r.PlayerList == w.PlayerList
    && r.LastUpdateTime_ms == w.LastUpdateTime_ms
  }

  lemma MoveOneSpares(w: World, r: World, now: nat, key: string, draw: Draw)
    requires Keyed(w) && Linked(r) && |r.pool| == |w.pool| && key in w.CellList
    requires MoveSpares(w, r) && MoveFate(w, r, now, key, draw, false)
    ensures MoveSpares(w, MoveOne(r, now, key, draw))
  {
  }

  lemma MoveOneSeals(w: World, r: World, now: nat, key: string, draw: Draw)
    requires Keyed(w) && Linked(r) && |r.pool| == |w.pool| && key in w.CellList
    requires MoveFate(w, r, now, key, draw, false)
    ensures MoveFate(w, MoveOne(r, now, key, draw), now, key, draw, true)
  {
  }

  lemma MoveOneSkips(w: World, r: World, now: nat, key: string, draw: Draw, other: string, otherDraw: Draw,
                     visited: bool)
    requires Keyed(w) && Linked(r) && |r.pool| == |w.pool| && key in w.CellList && other in w.CellList && other != key
    requires MoveFate(w, r, now, key, draw, false) && MoveFate(w, r, now, other, otherDraw, visited)
    ensures MoveFate(w, MoveOne(r, now, key, draw), now, other, otherDraw, visited)
  {
  }

  lemma MovedKeepsSize(w: World, now: nat, order: seq<string>, draws: seq<Draw>, n: nat)
    requires Linked(w) && n <= |order| <= |draws|
    ensures var r := Moved(w, now, order, draws, n); |r.book| == |r.pool| == |w.pool|
  {
    if n > 0 { MovedKeepsSize(w, now, order, draws, n - 1); }
  }

  lemma Unvisited(w: World, now: nat, key: string, draw: Draw)
    requires Linked(w) && key in w.CellList
    ensures MoveFate(w, w, now, key, draw, false)
  {
  }

  lemma {:induction false} MovedFate(w: World, now: nat, order: seq<string>, draws: seq<Draw>, n: nat, i: nat)
    requires Linked(w) && Keyed(w) && Walk(order, w.CellList.Keys) && |order| == |draws| && n <= |order| && i < |order|
    requires |Moved(w, now, order, draws, n).pool| == |w.pool|
    ensures MoveFate(w, Moved(w, now, order, draws, n), now, order[i], draws[i], i < n)
  {
    hide MoveOne, Keyed, Linked, MoveFate;
    if n == 0 {
      Unvisited(w, now, order[i], draws[i]);
    } else {
      var r := Moved(w, now, order, draws, n - 1);
      MovedKeepsSize(w, now, order, draws, n - 1);
      MovedFate(w, now, order, draws, n - 1, i);
      MovedFate(w, now, order, draws, n - 1, n - 1);
      if i == n - 1 {
        MoveOneSeals(w, r, now, order[i], draws[i]);
      } else {
        MoveOneSkips(w, r, now, order[n - 1], draws[n - 1], order[i], draws[i], i < n);
      }
    }
  }

  lemma {:induction false} MovedSpares(w: World, now: nat, order: seq<string>, draws: seq<Draw>, n: nat)
    requires Linked(w) && Keyed(w) && Walk(order, w.CellList.Keys) && |order| == |draws| && n <= |order|
    requires |Moved(w, now, order, draws, n).pool| == |w.pool|
    ensures MoveSpares(w, Moved(w, now, order, draws, n))
  {
    hide MoveOne, Keyed, Linked, MoveFate;
    if n > 0 {
      hide MoveSpares;
      MovedKeepsSize(w, now, order, draws, n - 1);
      MovedSpares(w, now, order, draws, n - 1);
      MovedFate(w, now, order, draws, n - 1, n - 1);
      MoveOneSpares(w, Moved(w, now, order, draws, n - 1), now, order[n - 1], draws[n - 1]);
    }
  }

  /** The whole one-minute pass, whatever order the container is walked in: no entry past its
      end time is left in CellList, each entry that was has become imminent, later by the
      random minutes, and everything else is as it was.  An auction whose nickname is already
      imminent is lost, and only such an auction. */
  lemma MovePass(w: World, now: nat, order: seq<string>, draws: seq<Draw>, k: string)
    requires Linked(w) && Keyed(w) && Walk(order, w.CellList.Keys) && |order| == |draws|
    ensures var r := Moved(w, now, order, draws, |order|);
            && |r.book| == |r.pool| == |w.pool| && MoveSpares(w, r)
            && (k in r.CellList <==> k in w.CellList && !Due(w, w.CellList[k], now))
            && (k in r.CellList ==> r.CellList[k] == w.CellList[k] && !Due(r, r.CellList[k], now))
            && (k in w.CellList ==>
                  exists i | 0 <= i < |order| :: order[i] == k && MoveFate(w, r, now, k, draws[i], true))
  {
    MovedKeepsSize(w, now, order, draws, |order|);
    MovedSpares(w, now, order, draws, |order|);
    if k in w.CellList {
      var i :| 0 <= i < |order| && order[i] == k;
      MovedFate(w, now, order, draws, |order|, i);
    }
  }

  /** All that happens when the walk comes to one entry: the invariant is kept, that entry meets
      its fate, and every other entry stays. */
  ghost predicate OnlyMoves(w: World, r: World, now: nat, key: string, draw: Draw)
    requires Linked(w) && key in w.CellList
  {
    && Inv(r) && |r.book| == |r.pool| == |w.pool| && MoveSpares(w, r) && MoveFate(w, r, now, key, draw, true)
    && forall k | k in w.CellList && k != key :: At(r.CellList, k, w.CellList[k])
  }

  lemma EntryMoved(w: World, now: nat, key: string, draw: Draw)
    requires Inv(w) && Linked(w) && key in w.CellList
    ensures OnlyMoves(w, MoveOne(w, now, key, draw), now, key, draw)
  {
    hide AllPlaced, AllTraded, AllReported, AllEvolve, Owned, Placed, LogOk, ClockOk;
    MoveOneKeeps(w, now, key, draw);
    Unvisited(w, now, key, draw);
    MoveOneSeals(w, w, now, key, draw);
    MoveOneSpares(w, w, now, key, draw);
    hide MoveFate, MoveSpares, Inv, Keyed;
  }

  // ---------- The five-second pass ----------

  /** What the pass has made of the ImminentList entry under `k`: gone, and its auction
      closed and reported, when it was due; otherwise exactly as it was. */
  ghost predicate CloseFate(w: World, r: World, now: nat, k: string, visited: bool)
    requires Linked(w) && k in w.ImminentList && |r.book| == |r.pool| == |w.pool|
  {
    var p := w.ImminentList[k];
    var a, e := w.pool[p], w.book[p];
    if visited && Due(w, p, now) then
      && k !in r.ImminentList && r.pool[p] == a.(Status := if a.BidderID != 0 then Fin else FinFail)
      && r.book[p] == e.(closedAt := e.closedAt + [now])
      && Sold(a.BidderID, a.Count, a.NickName, p) in r.dbJobs
    else
      At(r.ImminentList, k, p) && r.pool[p] == a && r.book[p] == e
  }

  ghost predicate CloseSpares(w: World, r: World)
    requires Linked(w) && |r.book| == |r.pool| == |w.pool|
  {
    && (forall k | k in r.ImminentList :: k in w.ImminentList)
    && (forall p | 0 <= p < |w.pool| && !At(w.ImminentList, w.pool[p].NickName, p) ::
          r.pool[p] == w.pool[p] && r.book[p] == w.book[p])
    && r.CellList == w.CellList && r.OwnList == w.OwnList && r.PlayerList == w.PlayerList
  }

  lemma CloseOneSpares(w: World, r: World, now: nat, key: string)
    requires Keyed(w) && Linked(r) && |r.pool| == |w.pool| && key in w.ImminentList
    requires CloseSpares(w, r) && CloseFate(w, r, now, key, false)
    ensures CloseSpares(w, CloseOne(r, now, key))
  {
  }

  lemma CloseOneSeals(w: World, r: World, now: nat, key: string)
    requires Keyed(w) && Linked(r) && |r.pool| == |w.pool| && key in w.ImminentList
    requires CloseFate(w, r, now, key, false)
    ensures CloseFate(w, CloseOne(r, now, key), now, key, true)
  {
  }

  lemma CloseOneSkips(w: World, r: World, now: nat, key: string, other: string, visited: bool)
    requires Keyed(w) && Linked(r) && |r.pool| == |w.pool| && key in w.ImminentList && other in w.ImminentList
             && other != key
    requires CloseFate(w, r, now, key, false) && CloseFate(w, r, now, other, visited)
    ensures CloseFate(w, CloseOne(r, now, key), now, other, visited)
  {
  }

  lemma ClosedKeepsSize(w: World, now: nat, order: seq<string>, n: nat)
    requires Linked(w) && n <= |order|
    ensures var r := Closed(w, now, order, n); |r.book| == |r.pool| == |w.pool|
  {
    if n > 0 { ClosedKeepsSize(w, now, order, n - 1); }
  }

  lemma NotYetWalked(w: World, now: nat, key: string)
    requires Linked(w) && key in w.ImminentList
    ensures CloseFate(w, w, now, key, false)
  {
  }

  lemma {:induction false} ClosedFate(w: World, now: nat, order: seq<string>, n: nat, i: nat)
    requires Linked(w) && Keyed(w) && Walk(order, w.ImminentList.Keys) && n <= |order| && i < |order|
    requires |Closed(w, now, order, n).pool| == |w.pool|
    ensures CloseFate(w, Closed(w, now, order, n), now, order[i], i < n)
  {
    hide CloseOne, Keyed, Linked, CloseFate;
    if n == 0 {
      NotYetWalked(w, now, order[i]);
    } else {
      var r := Closed(w, now, order, n - 1);
      ClosedKeepsSize(w, now, order, n - 1);
      ClosedFate(w, now, order, n - 1, i);
      ClosedFate(w, now, order, n - 1, n - 1);
      if i == n - 1 {
        CloseOneSeals(w, r, now, order[i]);
      } else {
        CloseOneSkips(w, r, now, order[n - 1], order[i], i < n);
      }
    }
  }

  lemma {:induction false} ClosedSpares(w: World, now: nat, order: seq<string>, n: nat)
    requires Linked(w) && Keyed(w) && Walk(order, w.ImminentList.Keys) && n <= |order|
    requires |Closed(w, now, order, n).pool| == |w.pool|
    ensures CloseSpares(w, Closed(w, now, order, n))
  {
    hide CloseOne, Keyed, Linked, CloseFate;
    if n > 0 {
      hide CloseSpares;
      ClosedKeepsSize(w, now, order, n - 1);
      ClosedSpares(w, now, order, n - 1);
      ClosedFate(w, now, order, n - 1, n - 1);
      CloseOneSpares(w, Closed(w, now, order, n - 1), now, order[n - 1]);
    }
  }

  /** The whole five-second pass: no entry past its end time is left in ImminentList, each
      that was has been closed, as sold exactly when it has a bidder, and reported; everything
      else is as it was. */
  lemma ClosePass(w: World, now: nat, order: seq<string>, k: string)
    requires Linked(w) && Keyed(w) && Walk(order, w.ImminentList.Keys)
    ensures var r := Closed(w, now, order, |order|);
            && |r.book| == |r.pool| == |w.pool| && CloseSpares(w, r)
            && (k in r.ImminentList <==> k in w.ImminentList && !Due(w, w.ImminentList[k], now))
            && (k in r.ImminentList ==> r.ImminentList[k] == w.ImminentList[k] && !Due(r, r.ImminentList[k], now))
            && (k in w.ImminentList ==> CloseFate(w, r, now, k, true))
  {
    ClosedKeepsSize(w, now, order, |order|);
    ClosedSpares(w, now, order, |order|);
    if k in w.ImminentList {
      var i :| 0 <= i < |order| && order[i] == k;
      ClosedFate(w, now, order, |order|, i);
    }
  }

  lemma CloseSparesCells(w: World, r: World, now: nat)
    requires Inv(w) && |r.book| == |r.pool| == |w.pool| && Linked(w) && Linked(r) && CloseSpares(w, r)
    requires forall k | k in w.CellList :: !Due(w, w.CellList[k], now)
    ensures r.CellList == w.CellList && forall k | k in r.CellList :: !Due(r, r.CellList[k], now)
  {
    forall k | k in r.CellList ensures !Due(r, r.CellList[k], now) {
      var p := w.CellList[k];
      KnownPlace(w, p);
      assert At(w.CellList, w.pool[p].NickName, p);
      assert r.pool[p] == w.pool[p];
    }
  }

  lemma Parts(w: World)
    requires Inv(w)
    ensures Linked(w) && Keyed(w)
  {
  }

  ghost predicate OnlyCloses(w: World, r: World, now: nat, key: string)
    requires Linked(w) && key in w.ImminentList
  {
    && Inv(r) && |r.book| == |r.pool| == |w.pool| && CloseSpares(w, r) && CloseFate(w, r, now, key, true)
    && forall k | k in w.ImminentList && k != key :: At(r.ImminentList, k, w.ImminentList[k])
  }

  lemma EntryClosed(w: World, now: nat, key: string)
    requires Inv(w) && Linked(w) && key in w.ImminentList
    ensures OnlyCloses(w, CloseOne(w, now, key), now, key)
  {
    hide AllPlaced, AllTraded, AllReported, AllEvolve, Owned, Placed, LogOk, ClockOk;
    CloseOneKeeps(w, now, key);
    NotYetWalked(w, now, key);
    CloseOneSeals(w, w, now, key);
    CloseOneSpares(w, w, now, key);
    hide CloseFate, CloseSpares, Inv, Keyed;
  }

  /** An update more than a minute after the last leaves nothing overdue in either list. */
  lemma UpdateLeavesNothingOverdue(w: World, now: nat, cells: seq<string>, draws: seq<Draw>, imminents: seq<string>)
    requires Inv(w) && Enabled(w, Tick(now, cells, draws, imminents)) && Gap(now, w.LastUpdateTime_ms) > MOVE_GAP
    ensures var r := Updated(w, now, cells, draws, imminents);
            && Linked(r)
            && (forall k | k in r.CellList :: k in w.CellList && !Due(r, r.CellList[k], now))
            && (forall k | k in r.ImminentList :: !Due(r, r.ImminentList[k], now))
  {
    hide Inv, Keyed, Moved, Closed, MoveSpares, CloseSpares, MoveFate, CloseFate, Walk;
    Parts(w);
    MovedKeeps(w, now, cells, draws, |cells|);
    var w1 := AfterMoves(w, now, cells, draws);
    forall k ensures k in w1.CellList ==> k in w.CellList && !Due(w1, w1.CellList[k], now) {
      MovePass(w, now, cells, draws, k);
    }
    MovedClock(w, now, cells, draws, |cells|);
    Parts(w1);
    var w2 := AfterCloses(w1, now, imminents);
    assert w2 == Closed(w1, now, imminents, |imminents|);
    forall k ensures k in w2.ImminentList ==> !Due(w2, w2.ImminentList[k], now) {
      ClosePass(w1, now, imminents, k);
    }
    ClosePass(w1, now, imminents, "");
    CloseSparesCells(w1, w2, now);
  }

  lemma MovedClock(w: World, now: nat, order: seq<string>, draws: seq<Draw>, n: nat)
    requires Linked(w) && n <= |order| <= |draws|
    ensures Moved(w, now, order, draws, n).LastUpdateTime_ms == w.LastUpdateTime_ms
  {
    if n > 0 { MovedClock(w, now, order, draws, n - 1); }
  }

  // ---------- The owners' lists ----------

  /** What became of a name that was checked and inserted: the indexing loops see it exactly
      when they saw it before, or every slot was in use, or the first unused slot already
      held it.  Forgetting leaves unused slots behind, and names go to the end. */
  lemma InsertedIsSeenExactly(l: NickNameList, nick: string)
    requires ListOk(l)
    ensures var l' := CheckedAndInserted(l, nick);
            && ListOk(l')
            && (nick in l'.NickNames[..l'.count] <==>
                nick in l.NickNames[..l.count] || l.count == |l.NickNames| || l.NickNames[l.count] == nick)
  {
    var l' := CheckedAndInserted(l, nick);
    if nick !in l.NickNames[..l.count] {
      assert l'.NickNames[..l'.count] == l.NickNames[..l.count] + [l'.NickNames[l.count]];
      if l.count < |l.NickNames| { assert l'.NickNames[l.count] == l.NickNames[l.count]; }
    }
  }

  /** After its first pass the loop looks for "NULL". */
  lemma {:induction false} ForgetsNothingMore(l: NickNameList, i: nat)
    requires ListOk(l) && l.RequestNickName == "NULL" && "NULL" !in l.NickNames
    ensures Forgotten(l, i).NickNames == l.NickNames
    decreases l.count - i
  {
    if i < l.count { ForgetsNothingMore(l.(count := l.count - 1), i + 1); }
  }

  lemma ForgetsOnlyTheFirst(l: NickNameList)
    requires ListOk(l) && "NULL" !in l.NickNames
    ensures Forgotten(l, 0).NickNames ==
            if l.count > 0 && l.NickNames[0] == l.RequestNickName then l.NickNames[1..] else l.NickNames
  {
    if l.count > 0 {
      var names := if l.NickNames[0] == l.RequestNickName then Without(l.NickNames, 0) else l.NickNames;
      assert Without(l.NickNames, 0) == l.NickNames[1..];
      ForgetsNothingMore(NickNameList(l.count - 1, "NULL", names), 1);
    }
  }

  /** The changed nickname is struck off where it first stands, and one slot given up, exactly
      when it is in the first slot and at most two slots are in use. */
  lemma ForgettingIsRightExactly(l: NickNameList, i: nat)
    requires ListOk(l) && i < l.count && l.NickNames[i] == l.RequestNickName
    requires forall j | 0 <= j < i :: l.NickNames[j] != l.RequestNickName
    ensures var l' := Forgotten(l, 0);
            l'.NickNames == Without(l.NickNames, i) && l'.count == l.count - 1 <==> i == 0 && l.count <= 2
  {
    ForgettingHalves(l, 0);
    if l.count <= 2 {
      var names := if i == 0 then Without(l.NickNames, 0) else l.NickNames;
      assert Forgotten(l, 0) == Forgotten(NickNameList(l.count - 1, "NULL", names), 1);
      assert Forgotten(l, 0).NickNames == names;
      assert |Without(l.NickNames, i)| == |l.NickNames| - 1;
    }
  }
}
