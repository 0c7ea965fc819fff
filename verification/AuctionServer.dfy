/** The logic thread's handlers and its timed update, over the containers they mutate. */
module AuctionServer {
  import opened AuctionRules
  import opened AuctionHistory
  import opened AuctionPasses
  import opened AuctionJobs

  class AuctionServer {
    var pool: seq<AuctionData>
    var PlayerList: map<int, Player>
    var CellList: map<string, nat>
    var ImminentList: map<string, nat>
    var FinList: seq<nat>
    var FinList_UMap: map<string, nat>
    var OwnList: map<int, NickNameList>
    var waitingDataList: map<int, InitData>
    var NumOfSales: int
    var LastUpdateTime_ms: nat
    var dbJobs: seq<DbJob>
    ghost var book: seq<Entry>

    ghost function Snapshot(): World
      reads this
    {
      World(pool, PlayerList, CellList, ImminentList, FinList, FinList_UMap, OwnList, waitingDataList,
            NumOfSales, LastUpdateTime_ms, dbJobs, book)
    }

    constructor ()
      ensures Inv(Snapshot()) && Snapshot() == World([], map[], map[], map[], [], map[], map[], map[], 0, 0, [], [])
    {
      pool, PlayerList, CellList, ImminentList, FinList, FinList_UMap := [], map[], map[], map[], [], map[];
      OwnList, waitingDataList, NumOfSales, LastUpdateTime_ms, dbJobs := map[], map[], 0, 0, [];
      book := [];
    }

    // ---------- The owners' lists ----------

    method OwnList_CheckAndInsert(account: int, nick: string)
      requires ListOk(OwnEntry(Snapshot(), account))
      modifies this`OwnList
      ensures OwnList == old(OwnList)[account := CheckedAndInserted(OwnEntry(old(Snapshot()), account), nick)]
    {
      if account !in OwnList { OwnList := OwnList[account := NickNameList(0, "", [])]; }
      var list := OwnList[account];
      var i := 0;
      while i < list.count
        invariant 0 <= i <= list.count && nick !in list.NickNames[..i]
      {
        if list.NickNames[i] == nick { return; }
        i := i + 1;
      }
      OwnList := OwnList[account := list.(NickNames := list.NickNames + [nick], count := list.count + 1)];
    }

    /** The list is a reference into OwnList: each pass updates it in place. */
    method ForgetChanged(account: int)
      requires account in OwnList && ListOk(OwnList[account])
      modifies this`OwnList
      ensures OwnList == old(OwnList)[account := Forgotten(old(OwnList[account]), 0)]
    {
      var i := 0;
      assert OwnList == old(OwnList)[account := OwnList[account]];
      while i < OwnList[account].count
        invariant account in OwnList && ListOk(OwnList[account]) && 0 <= i
        invariant OwnList == old(OwnList)[account := OwnList[account]]
        invariant Forgotten(OwnList[account], i) == Forgotten(old(OwnList[account]), 0)
        decreases OwnList[account].count - i
      {
        var list := OwnList[account];
        if list.NickNames[i] == list.RequestNickName {
          OwnList := OwnList[account := list.(NickNames := Without(list.NickNames, i))];
        }
        OwnList := OwnList[account := OwnList[account].(count := OwnList[account].count - 1)];
        OwnList := OwnList[account := OwnList[account].(RequestNickName := "NULL")];
        i := i + 1;
      }
    }

    // ---------- Registration and bids ----------

    method AddAuction(account: int, asked: InitData, nick: string, now: nat, leftover: string)
      requires account in OwnList
      modifies this
      ensures Snapshot() == WithAuction(old(Snapshot()), account, asked, nick, now, leftover)
    {
      hide EndOfSale;
      var list := OwnList[account];
      book := book + [Entry(asked.Price, asked.Time, [], [], [], nick in CellList)];
      CellList := Inserted(CellList, nick, |pool|);
      pool := pool + [AuctionData(now, EndOfSale(now, asked.Time), Sale, account, 0, nick, asked.Price, 0)];
      OwnList := OwnList[account := list.(count := list.count + 1, NickNames := list.NickNames + [nick])];
      NumOfSales := NumOfSales + 1;
      dbJobs := dbJobs + [ChangeCheck(account, nick, leftover)];
    }

    method RegisterAuction(account: int, now: nat, leftover: string)
      modifies this
      ensures Snapshot() == Registered(old(Snapshot()), account, now, leftover)
    {
      hide WithAuction;
      if account !in OwnList { OwnList := OwnList[account := NickNameList(0, "", [])]; }
      assert OwnList == old(OwnList)[account := OwnList[account]];
      if OwnList[account].count >= MAX_USER_SLOT || NumOfSales >= MAX_SERVER_SLOT || account !in waitingDataList {
        return;
      }
      var asked := waitingDataList[account];
      waitingDataList := waitingDataList - {account};
      if account in PlayerList { AddAuction(account, asked, PlayerList[account].NickName, now, leftover); }
    }

    method ReqBid(session: int, nick: string, price: Int32) returns (ok: bool)
      requires Inv(Snapshot()) && Linked(Snapshot()) && session in PlayerList
      requires ListOk(OwnEntry(Snapshot(), PlayerList[session].AccountNo))
      modifies this
      ensures ok == Tolerated(old(Snapshot()), session, AuctionRules.ReqBid(nick, price))
      ensures Snapshot() == Bid(old(Snapshot()), session, nick, price)
    {
      hide Inv;
      var player := PlayerList[session];
      if player.Point != price { return false; }
      var found := FindAuction(nick);
      if found.None? { return true; }
      var auction := pool[found.value];
      if auction.Price >= price || auction.OwnerID == player.AccountNo { return true; }
      AcceptBid(session, found.value, nick, price);
      return true;
    }

    method AcceptBid(session: int, p: nat, nick: string, price: Int32)
      requires Linked(Snapshot()) && session in PlayerList
      requires ListOk(OwnEntry(Snapshot(), PlayerList[session].AccountNo))
      requires BidStands(Snapshot(), PlayerList[session], nick, price) && PlayerList[session].Point == price
      requires Find(Snapshot(), nick) == Some(p)
      modifies this
      ensures Snapshot() == Bid(old(Snapshot()), session, nick, price)
    {
      var player := PlayerList[session];
      PlayerList := PlayerList[session := player.(Point := player.Point - price)];
      pool := pool[p := pool[p].(BidderID := player.AccountNo, Price := price, Count := Wrap32(pool[p].Count + 1))];
      book := book[p := book[p].(bids := book[p].bids + [Offer(player.AccountNo, price)])];
      OwnList_CheckAndInsert(player.AccountNo, nick);
    }

    /** The auction found is the one that is open for bids under the nickname, if there is one. */
    method FindAuction(nick: string) returns (found: Option<nat>)
      requires Inv(Snapshot()) && |book| == |pool|
      ensures found == Find(Snapshot(), nick)
      ensures forall p | 0 <= p < |pool| :: found == Some(p) <==> Open(Snapshot(), nick, p)
    {
      hide Inv;
      forall p | 0 <= p < |pool| ensures Find(Snapshot(), nick) == Some(p) <==> Open(Snapshot(), nick, p) {
        OpenIsFound(Snapshot(), nick, p);
      }
      found := None;
      if nick in ImminentList {
        found := Some(ImminentList[nick]);
      } else if nick in CellList {
        found := Some(CellList[nick]);
      }
    }

    // ---------- Packets ----------

    /** `fault`: the handler dereferenced an owner's entry that is not there.  What follows in
        the program is undefined; here nothing does. */
    method PacketProc(session: int, packet: Packet) returns (ok: bool, fault: bool)
      requires Inv(Snapshot()) && Linked(Snapshot()) && Admitted(Snapshot(), session)
      modifies this
      ensures fault == Derails(old(Snapshot()), Recv(session, packet))
      ensures fault ==> Snapshot() == old(Snapshot())
      ensures !fault ==> PacketEnabled(old(Snapshot()), session, packet)
      ensures !fault ==> ok == Tolerated(old(Snapshot()), session, packet)
      ensures !fault ==> Snapshot() == Handled(old(Snapshot()), session, packet)
    {
      hide Inv;
      OwnersInv(Snapshot());
      var player := PlayerList[session];
      ok, fault := true, false;
      match packet {
        case ReqSale(nick, time, price) =>
          if player.NickName != nick { return false, false; }
          waitingDataList := Inserted(waitingDataList, player.AccountNo, InitData(time, price));
          dbJobs := dbJobs + [RegisterCheck(player.AccountNo, nick)];
        case ReqSearch(_) =>
        case ReqBid(nick, price) => ok := ReqBid(session, nick, price);
        case ReqChangeNickName(nick) =>
          if player.AccountNo !in OwnList { return false, true; }
          OwnList := OwnList[player.AccountNo := OwnList[player.AccountNo].(RequestNickName := nick)];
          dbJobs := dbJobs + [ChangeCheck(player.AccountNo, player.NickName, nick)];
        case ResPlayerInfo(account, point, nick) =>
          if account in PlayerList {
            PlayerList := PlayerList[account := PlayerList[account].(Point := point)];
            PlayerList := PlayerList[account := PlayerList[account].(NickName := nick)];
          }
        case Unknown => ok := false;
      }
    }

    // ---------- The timed update ----------

    /** One entry of CellList becomes imminent if it is overdue; no other auction, and no other
        entry, changes. */
    method MoveEntry(now: nat, key: string, draw: Draw)
      requires Inv(Snapshot()) && Linked(Snapshot()) && key in CellList
      modifies this
      ensures Snapshot() == MoveOne(old(Snapshot()), now, key, draw)
      ensures OnlyMoves(old(Snapshot()), Snapshot(), now, key, draw)
    {
      hide Inv, OnlyMoves;
      EntryMoved(Snapshot(), now, key, draw);
      var p := CellList[key];
      if pool[p].EndTime < now {
        CellList := CellList - {key};
        pool := pool[p := pool[p].(Status := Imminent, EndTime := (pool[p].EndTime + draw) % UINT64)];
        book := book[p := book[p].(draws := book[p].draws + [draw], lost := key in ImminentList)];
        ImminentList := Inserted(ImminentList, key, p);
      }
    }

    /** One imminent auction is closed and reported if it is overdue; no other auction, and no
        other entry, changes. */
    method CloseEntry(now: nat, key: string)
      requires Inv(Snapshot()) && Linked(Snapshot()) && key in ImminentList
      modifies this
      ensures Snapshot() == CloseOne(old(Snapshot()), now, key)
      ensures OnlyCloses(old(Snapshot()), Snapshot(), now, key)
    {
      hide Inv, OnlyCloses;
      EntryClosed(Snapshot(), now, key);
      hide Linked;
      var p := ImminentList[key];
      var a := pool[p];
      if a.EndTime < now {
        Finish(p, key);
        ImminentList := ImminentList - {key};
        dbJobs := dbJobs + [Sold(a.BidderID, a.Count, a.NickName, p)];
        book := book[p := book[p].(closedAt := book[p].closedAt + [now])];
      }
    }

    /** The auction's last status. */
    method Finish(p: nat, key: string)
      requires p < |pool|
      modifies this`pool, this`FinList, this`FinList_UMap
      ensures var won := old(pool)[p].BidderID != 0;
              && pool == old(pool)[p := old(pool)[p].(Status := if won then Fin else FinFail)]
              && FinList == (if won then [p] + old(FinList) else old(FinList))
              && FinList_UMap == if won then Inserted(old(FinList_UMap), key, p) else old(FinList_UMap)
    {
      if pool[p].BidderID == 0 {
        pool := pool[p := pool[p].(Status := FinFail)];
      } else {
        pool := pool[p := pool[p].(Status := Fin)];
        FinList, FinList_UMap := [p] + FinList, Inserted(FinList_UMap, key, p);
      }
    }

    /** `cells` is the order CellList is walked in, `draws` what the generator gives at each
        entry if it is asked. */
    method MoveOverdue(now: nat, cells: seq<string>, draws: seq<Draw>)
      requires Inv(Snapshot()) && Linked(Snapshot()) && Keyed(Snapshot())
      requires Walk(cells, CellList.Keys) && |cells| == |draws|
      modifies this
      ensures Snapshot() == Moved(old(Snapshot()), now, cells, draws, |cells|)
    {
      hide Inv, Keyed, Linked, Walk, MoveOne, MoveSpares, MoveFate;
      ghost var was := Snapshot();
      var i := 0;
      while i < |cells|
        invariant 0 <= i <= |cells| && Snapshot() == Moved(was, now, cells, draws, i) && Inv(Snapshot())
      {
        EntryAwaits(was, now, cells, draws, i);
        MoveEntry(now, cells[i], draws[i]);
        i := i + 1;
      }
    }

    method CloseOverdue(now: nat, imminents: seq<string>)
      requires Inv(Snapshot()) && Linked(Snapshot()) && Keyed(Snapshot()) && Walk(imminents, ImminentList.Keys)
      modifies this
      ensures Snapshot() == Closed(old(Snapshot()), now, imminents, |imminents|)
    {
      hide Inv, Keyed, Linked, Walk, CloseOne, CloseSpares, CloseFate;
      ghost var was := Snapshot();
      var i := 0;
      while i < |imminents|
        invariant 0 <= i <= |imminents| && Snapshot() == Closed(was, now, imminents, i) && Inv(Snapshot())
      {
        ImminentAwaits(was, now, imminents, i);
        CloseEntry(now, imminents[i]);
        i := i + 1;
      }
    }

    method Update(now: nat, cells: seq<string>, draws: seq<Draw>, imminents: seq<string>)
      requires Inv(Snapshot()) && Enabled(Snapshot(), Tick(now, cells, draws, imminents))
      modifies this
      ensures Snapshot() == Updated(old(Snapshot()), now, cells, draws, imminents)
      ensures Inv(Snapshot())
    {
      hide Inv, Keyed, Moved, Closed, Walk;
      ghost var was := Snapshot();
      Parts(was);
      MovedKeeps(was, now, cells, draws, |cells|);
      MovedClock(was, now, cells, draws, |cells|);
      if Gap(now, LastUpdateTime_ms) > MOVE_GAP { MoveOverdue(now, cells, draws); }
      ghost var moved := Snapshot();
      Parts(moved);
      if Gap(now, LastUpdateTime_ms) > CLOSE_GAP { CloseOverdue(now, imminents); }
      LastUpdateTime_ms := now;
      UpdatedKeeps(was, now, cells, draws, imminents);
    }

    // ---------- The job loop ----------

    /** One turn of the job loop, or of the update between its turns. */
    method Process(job: Job) returns (fault: bool)
      requires Inv(Snapshot()) && Possible(Snapshot(), job)
      modifies this
      ensures fault == Derails(old(Snapshot()), job) && (fault ==> Snapshot() == old(Snapshot()))
      ensures !fault ==> Enabled(old(Snapshot()), job) && Snapshot() == Next(old(Snapshot()), job)
      ensures Inv(Snapshot())
    {
      hide Inv;
      ghost var was := Snapshot();
      IndexingIsSafe(was, job);
      LinkedInv(was);
      if !Derails(was, job) { JobKeeps(was, job); }
      fault := false;
      match job {
        case Join(session) => PlayerList := Inserted(PlayerList, session, Player(true, 0, session, "NULL", 0));
        case Leave(session) =>
          if session in PlayerList {
            waitingDataList := waitingDataList - {PlayerList[session].AccountNo};
            PlayerList := PlayerList - {session};
          }
        case Login(session, account) =>
          if session in PlayerList { PlayerList := PlayerList[session := PlayerList[session].(AccountNo := account)]; }
        case Recv(session, packet) =>
          if session in PlayerList && PlayerList[session].sessionID == session && PlayerList[session].isValid {
            var ok;
            ok, fault := PacketProc(session, packet);
          }
        case ChangeAble(account) =>
          if account !in OwnList { return true; }
          ForgetChanged(account);
        case RegisterAble(account, now, leftover) => RegisterAuction(account, now, leftover);
        case Tick(now, cells, draws, imminents) => Update(now, cells, draws, imminents);
      }
    }
  }

  /** The walk finds each entry as it was: the passes erase only the entry they stand on. */
  lemma EntryAwaits(was: World, now: nat, cells: seq<string>, draws: seq<Draw>, i: nat)
    requires Linked(was) && Keyed(was) && Walk(cells, was.CellList.Keys) && |cells| == |draws| && i < |cells|
    ensures var w := Moved(was, now, cells, draws, i);
            cells[i] in w.CellList && Moved(was, now, cells, draws, i + 1) == MoveOne(w, now, cells[i], draws[i])
  {
    MovedKeepsSize(was, now, cells, draws, i);
    MovedFate(was, now, cells, draws, i, i);
  }

  lemma ImminentAwaits(was: World, now: nat, imminents: seq<string>, i: nat)
    requires Linked(was) && Keyed(was) && Walk(imminents, was.ImminentList.Keys) && i < |imminents|
    ensures var w := Closed(was, now, imminents, i);
            imminents[i] in w.ImminentList && Closed(was, now, imminents, i + 1) == CloseOne(w, now, imminents[i])
  {
    ClosedKeepsSize(was, now, imminents, i);
    ClosedFate(was, now, imminents, i, i);
  }
}
