/** What each kind of job comes to, in plain numbers, and what an auction owes to the packet
    that asked for it. */
module AuctionAnswers {
  import opened AuctionRules
  import opened AuctionHistory
  import opened AuctionPasses
  import opened AuctionRuns
  import opened AuctionJobs

  // ---------- Sale requests ----------

  /** Everything but the waiting requests and what is posted to the database. */
  predicate OnlyRequests(w: World, w': World) {
    w' == w.(waitingDataList := w'.waitingDataList, dbJobs := w'.dbJobs)
  }

  /** A request to sell one's own nickname leaves its hours and its price waiting under the
      account and posts one check of the nickname, and nothing else changes.  While a request
      waits, another one of the same account is checked too but leaves the first waiting.  A
      request to sell any other nickname changes nothing and costs the connection. */
  lemma SaleIsNoted(w: World, session: int, nick: string, time: Int8, price: Int32)
    requires Linked(w) && session in w.PlayerList
    ensures var player := w.PlayerList[session];
            var w', account := Handled(w, session, ReqSale(nick, time, price)), player.AccountNo;
            && (Tolerated(w, session, ReqSale(nick, time, price)) <==> player.NickName == nick)
            && (player.NickName != nick ==> w' == w)
            && (player.NickName == nick ==>
                  && OnlyRequests(w, w') && w'.dbJobs == w.dbJobs + [RegisterCheck(account, nick)]
                  && account in w'.waitingDataList
                  && w'.waitingDataList - {account} == w.waitingDataList - {account}
                  && (account in w.waitingDataList ==> w'.waitingDataList == w.waitingDataList)
                  && (account !in w.waitingDataList ==>
                        w'.waitingDataList[account].Time == time && w'.waitingDataList[account].Price == price))
  {
    var account := w.PlayerList[session].AccountNo;
    var w' := Handled(w, session, ReqSale(nick, time, price));
    assert w'.waitingDataList - {account} == w.waitingDataList - {account};
  }

  /** This job is a sale request, of the account's own nickname, that finds none waiting. */
  ghost predicate Requests(w: World, job: Job, account: int, time: Int8, price: Int32) {
    && job.Recv? && job.packet.ReqSale? && Admitted(w, job.session)
    && w.PlayerList[job.session].AccountNo == account && account !in w.waitingDataList
    && w.PlayerList[job.session].NickName == job.packet.NickName
    && job.packet.Time == time && job.packet.Price == price
  }

  /** The job that ends the waiting: the player leaves, or the nickname was found free and both
      the account and the server have a slot left. */
  predicate UsesUp(w: World, job: Job, account: int) {
    match job
    case Leave(session) => session in w.PlayerList && w.PlayerList[session].AccountNo == account
    case RegisterAble(who, _, _) => who == account && OwnEntry(w, account).count < 5 && w.NumOfSales < 20000
    case _ => false
  }

  lemma {:induction false} MovingSparesRequests(w: World, now: nat, order: seq<string>, draws: seq<Draw>, n: nat)
    requires Linked(w) && n <= |order| <= |draws|
    ensures var w' := Moved(w, now, order, draws, n);
            w'.waitingDataList == w.waitingDataList && w'.PlayerList == w.PlayerList && |w'.pool| == |w.pool|
  {
    if n > 0 { MovingSparesRequests(w, now, order, draws, n - 1); }
  }

  lemma {:induction false} ClosingSparesRequests(w: World, now: nat, order: seq<string>, n: nat)
    requires Linked(w) && n <= |order|
    ensures var w' := Closed(w, now, order, n);
            w'.waitingDataList == w.waitingDataList && w'.PlayerList == w.PlayerList && |w'.pool| == |w.pool|
  {
    if n > 0 { ClosingSparesRequests(w, now, order, n - 1); }
  }

  lemma TickSparesRequests(w: World, now: nat, cells: seq<string>, draws: seq<Draw>, imminents: seq<string>)
    requires Linked(w) && |cells| <= |draws|
    ensures var w' := Updated(w, now, cells, draws, imminents);
            w'.waitingDataList == w.waitingDataList && w'.PlayerList == w.PlayerList && |w'.pool| == |w.pool|
  {
    hide Moved, Closed, Linked;
    MovingSparesRequests(w, now, cells, draws, |cells|);
    ClosingSparesRequests(AfterMoves(w, now, cells, draws), now, imminents, |imminents|);
  }

  /** What becomes of an account's waiting request in one packet. */
  lemma PacketAndRequests(w: World, session: int, packet: Packet, account: int)
    requires Linked(w) && Admitted(w, session) && PacketEnabled(w, session, packet)
    ensures var w', job := Handled(w, session, packet), Recv(session, packet);
            && |w'.pool| == |w.pool|
            && (account in w.waitingDataList ==> account in w'.waitingDataList
                                                 && w'.waitingDataList[account] == w.waitingDataList[account])
            && (account !in w.waitingDataList && account in w'.waitingDataList ==>
                  var asked := w'.waitingDataList[account];
                  Requests(w, job, account, asked.Time, asked.Price))
  {
    hide CheckedAndInserted;
  }

  /** What becomes of it in one job: it goes exactly with a job that uses it up, it is never
      overwritten, and it comes only with a request for just those hours and that price. */
  lemma RequestWaits(w: World, job: Job, account: int)
    requires Enabled(w, job)
    ensures var w' := Next(w, job);
            && (account in w.waitingDataList ==>
                  (account !in w'.waitingDataList <==> UsesUp(w, job, account)))
            && (account in w.waitingDataList && account in w'.waitingDataList ==>
                  w'.waitingDataList[account] == w.waitingDataList[account])
            && (account !in w.waitingDataList && account in w'.waitingDataList ==>
                  var asked := w'.waitingDataList[account];
                  Requests(w, job, account, asked.Time, asked.Price))
            && (|w'.pool| != |w.pool| ==> job.RegisterAble?)
  {
    hide Handled, Updated, Forgotten, PacketEnabled, Linked, Requests, EndOfSale;
    match job
    case Tick(now, cells, draws, imminents) => TickSparesRequests(w, now, cells, draws, imminents);
    case Recv(session, packet) => if Admitted(w, session) { PacketAndRequests(w, session, packet, account); }
    case _ =>
  }

  /** Job `j` of the run put the request there, and there it has been until world `i`. */
  ghost predicate WaitingSince(r: Run, j: nat, i: nat, account: int, time: Int8, price: Int32)
    requires i < |r.worlds|
  {
    && j < i && j < |r.jobs| && Requests(r.worlds[j], r.jobs[j], account, time, price)
    && forall x | j < x <= i ::
         account in r.worlds[x].waitingDataList && r.worlds[x].waitingDataList[account] == InitData(time, price)
  }

  /** Whatever waits under an account is what one packet of that account asked for, and it has
      waited ever since. */
  lemma {:induction false} RequestBehind(r: Run, i: nat, account: int) returns (j: nat)
    requires Valid(r) && i < |r.worlds| && account in r.worlds[i].waitingDataList
    ensures var asked := r.worlds[i].waitingDataList[account];
            WaitingSince(r, j, i, account, asked.Time, asked.Price)
  {
    hide Next, Enabled, Requests;
    assert i != 0 by { assert Opening().waitingDataList == map[]; }
    assert StepOf(r, i - 1);
    RequestWaits(r.worlds[i - 1], r.jobs[i - 1], account);
    if account in r.worlds[i - 1].waitingDataList {
      j := RequestBehind(r, i - 1, account);
    } else {
      j := i - 1;
    }
  }

  /** The auction a registration adds, in the numbers of the request. */
  ghost predicate AsAsked(a: AuctionData, e: Entry, account: int, now: nat, time: Int8, price: Int32) {
    && a.OwnerID == account && a.StartTime == now && e.startPrice == price && e.hours == time
    && (a.Status.Sale? ==> a.EndTime == (now + time as int * 3600000 - 600000) % 0x1_0000_0000_0000_0000)
    && (e.bids == [] ==> a.Price == price && a.Count == 0 && a.BidderID == 0)
    && (e.bids != [] ==> a.Price > price)
  }

  lemma NewIsAsAsked(w: World, account: int, now: nat, leftover: string)
    requires Inv(w) && MayRegister(w, account)
    ensures var w', asked := Registered(w, account, now, leftover), w.waitingDataList[account];
            && |w'.book| == |w'.pool| == |w.pool| + 1
            && AsAsked(w'.pool[|w.pool|], w'.book[|w.pool|], account, now, asked.Time, asked.Price)
  {
    hide AllPlaced, AllTraded, AllReported, Keyed;
  }

  /** It stays so: the hours and the first price for ever, the end time while it is on sale. */
  lemma StaysAsAsked(w: World, w': World, p: nat, account: int, now: nat, time: Int8, price: Int32)
    requires Inv(w) && Inv(w') && |w.book| == |w.pool| && |w'.book| == |w'.pool| && AllEvolve(w, w')
    requires p < |w.pool| && AsAsked(w.pool[p], w.book[p], account, now, time, price)
    ensures p < |w'.pool| && AsAsked(w'.pool[p], w'.book[p], account, now, time, price)
  {
    hide AllPlaced, AllReported, Keyed, Placed, ClockOk, Owned;
    assert Evolves(w.pool[p], w.book[p], w'.pool[p], w'.book[p]);
    KnownTrade(w', p);
    var e := w'.book[p];
    if e.bids != [] { LogIsNoLongerThanTheRise(e.startPrice, e.bids); }
  }

  /** Every auction of every reachable state goes back to one sale request and one answer of the
      database after it: it belongs to the account that asked, starts at the price of that
      packet and ends its plain sale the hours of that packet after the answer, less ten
      minutes; only a bid above that price ever changes its price. */
  lemma {:induction false} EveryAuctionWasAsked(r: Run, i: nat, p: nat) returns (j: nat, x: nat)
    requires Valid(r) && i < |r.worlds| && p < |r.worlds[i].pool|
    ensures j < x < i && r.jobs[x].RegisterAble? && |r.worlds[x].pool| == p && |r.worlds[i].book| == |r.worlds[i].pool|
    ensures r.jobs[j].Recv? && r.jobs[j].packet.ReqSale?
    ensures var account, packet := r.jobs[x].account, r.jobs[j].packet;
            && WaitingSince(r, j, x, account, packet.Time, packet.Price)
            && AsAsked(r.worlds[i].pool[p], r.worlds[i].book[p], account, r.jobs[x].now, packet.Time, packet.Price)
  {
    hide Next, Enabled, Requests, Inv, AllEvolve, AsAsked, Registered, Linked;
    assert i != 0 by { assert Opening().pool == []; }
    assert StepOf(r, i - 1);
    RunInv(r, i - 1);
    RunInv(r, i);
    var w, w', job := r.worlds[i - 1], r.worlds[i], r.jobs[i - 1];
    Sizes(w);
    Sizes(w');
    if p < |w.pool| {
      j, x := EveryAuctionWasAsked(r, i - 1, p);
      JobKeeps(w, job);
      StaysAsAsked(w, w', p, r.jobs[x].account, r.jobs[x].now, r.jobs[j].packet.Time, r.jobs[j].packet.Price);
    } else {
      RequestWaits(w, job, 0);
      x := i - 1;
      assert w' == Registered(w, job.account, job.now, job.leftover) by { NextRegisters(w, job); }
      RegistrationIsDecided(w, job.account, job.now, job.leftover);
      NewIsAsAsked(w, job.account, job.now, job.leftover);
      j := RequestBehind(r, x, job.account);
      var asked := w.waitingDataList[job.account];
      RequestsSale(r.worlds[j], r.jobs[j], job.account, asked.Time, asked.Price);
    }
  }

  lemma NextRegisters(w: World, job: Job)
    requires Enabled(w, job) && job.RegisterAble?
    ensures Next(w, job) == Registered(w, job.account, job.now, job.leftover)
  {
  }

  lemma RequestsSale(w: World, job: Job, account: int, time: Int8, price: Int32)
    requires Requests(w, job, account, time, price)
    ensures job.Recv? && job.packet.ReqSale? && job.packet.Time == time && job.packet.Price == price
  {
  }

  /** Everything a registration touches: it names the auction in the account's own list and in
      CellList, where an earlier one of that nickname stays, uses up the request and posts one
      check; nothing else changes, and nobody else's list. */
  lemma RegistrationTouches(w: World, account: int, now: nat, leftover: string)
    requires Inv(w)
    ensures var w' := Registered(w, account, now, leftover);
            var own, own' := OwnEntry(w, account), OwnEntry(w', account);
            && w' == w.(pool := w'.pool, book := w'.book, CellList := w'.CellList, OwnList := w'.OwnList,
                        waitingDataList := w'.waitingDataList, NumOfSales := w'.NumOfSales, dbJobs := w'.dbJobs)
            && account in w'.OwnList && w'.OwnList - {account} == w.OwnList - {account}
            && w'.waitingDataList - {account} == w.waitingDataList - {account}
            && if MayRegister(w, account) then
                 var nick := w.PlayerList[account].NickName;
                 && own' == own.(NickNames := own.NickNames + [nick], count := own.count + 1)
                 && w'.dbJobs == w.dbJobs + [ChangeCheck(account, nick, leftover)] && w'.NumOfSales == w.NumOfSales + 1
                 && nick in w'.CellList && w'.CellList - {nick} == w.CellList - {nick}
                 && w'.CellList[nick] == if nick in w.CellList then w.CellList[nick] else |w.pool|
               else
                 own' == own && w'.dbJobs == w.dbJobs && w'.NumOfSales == w.NumOfSales && w'.CellList == w.CellList
  {
    hide AllPlaced, AllTraded, AllReported, Keyed, EndOfSale;
    var w' := Registered(w, account, now, leftover);
    assert w'.OwnList - {account} == w.OwnList - {account};
    assert w'.waitingDataList - {account} == w.waitingDataList - {account};
    if MayRegister(w, account) {
      var nick := w.PlayerList[account].NickName;
      assert w'.CellList - {nick} == w.CellList - {nick};
    }
  }

  // ---------- Bids ----------

  /** Everything but the auctions with their log, the players and the owners' lists. */
  predicate OnlyTrade(w: World, w': World) {
    w' == w.(pool := w'.pool, book := w'.book, PlayerList := w'.PlayerList, OwnList := w'.OwnList)
  }

  /** The last bidder and the last price are on the auction, its 32-bit counter is one further,
      nothing else about it or about another auction changes. */
  lemma BidMarksAuction(w: World, session: int, nick: string, price: Int32, p: nat)
    requires Inv(w) && |w.book| == |w.pool| && p < |w.pool| && session in w.PlayerList
    requires ListOk(OwnEntry(w, w.PlayerList[session].AccountNo))
    requires w.PlayerList[session].Point == price && Find(w, nick) == Some(p) && w.pool[p].Price < price
    requires w.PlayerList[session].AccountNo != w.pool[p].OwnerID
    ensures var w', a := Bid(w, session, nick, price), w.pool[p];
            && OnlyTrade(w, w') && |w'.pool| == |w.pool| && |w'.book| == |w.book|
            && (forall q | 0 <= q < |w.pool| && q != p :: w'.pool[q] == w.pool[q] && w'.book[q] == w.book[q])
            && w'.pool[p].BidderID == w.PlayerList[session].AccountNo && w'.pool[p].Price == price
            && w'.pool[p].Count == (if a.Count == 0x7fff_ffff then -0x8000_0000 else a.Count + 1)
            && w'.pool[p].NickName == a.NickName && w'.pool[p].OwnerID == a.OwnerID
            && w'.pool[p].StartTime == a.StartTime && w'.pool[p].EndTime == a.EndTime
            && w'.pool[p].Status == a.Status && w'.book[p] == w.book[p].(bids := w'.book[p].bids)
  {
    hide AllPlaced, AllTraded, AllReported, Keyed, CheckedAndInserted;
  }

  /** The bidder's own list names the nickname afterwards: one name more, at the end, and one
      slot more in use, unless a slot in use named it already.  No name is taken out and no
      other account's list changes. */
  lemma BidNamesAuction(w: World, session: int, nick: string, price: Int32)
    requires Linked(w) && session in w.PlayerList && ListOk(OwnEntry(w, w.PlayerList[session].AccountNo))
    requires w.PlayerList[session].Point == price && BidStands(w, w.PlayerList[session], nick, price)
    ensures var w', account := Bid(w, session, nick, price), w.PlayerList[session].AccountNo;
            var own, own' := OwnEntry(w, account), OwnEntry(w', account);
            && account in w'.OwnList && w'.OwnList - {account} == w.OwnList - {account}
            && nick in own'.NickNames && own.NickNames <= own'.NickNames
            && own'.RequestNickName == own.RequestNickName
            && own'.count - own.count == |own'.NickNames| - |own.NickNames|
            && own'.count - own.count == (if exists i | 0 <= i < own.count :: own.NickNames[i] == nick then 0 else 1)
  {
    var w', account := Bid(w, session, nick, price), w.PlayerList[session].AccountNo;
    var own, own' := OwnEntry(w, account), OwnEntry(w', account);
    assert w'.OwnList - {account} == w.OwnList - {account};
    if exists i | 0 <= i < own.count :: own.NickNames[i] == nick {
      var i :| 0 <= i < own.count && own.NickNames[i] == nick;
      assert own.NickNames[..own.count][i] == nick;
    } else {
      assert nick !in own.NickNames[..own.count];
      assert own'.NickNames[|own.NickNames|] == nick;
    }
  }

  // ---------- The other packets ----------

  /** The connection is dropped for a packet of an unknown type, for the sale of a nickname
      that is not one's own and for a bid that is not exactly one's points, and for nothing
      else; then the server's state is as before.  A search never changes it. */
  lemma IntolerableChangesNothing(w: World, session: int, packet: Packet)
    requires Linked(w) && session in w.PlayerList && PacketEnabled(w, session, packet)
    ensures var player := w.PlayerList[session];
            !Tolerated(w, session, packet) <==>
            || packet.Unknown? || (packet.ReqSale? && packet.NickName != player.NickName)
            || (packet.ReqBid? && packet.Price != player.Point)
    ensures !Tolerated(w, session, packet) || packet.ReqSearch? ==> Handled(w, session, packet) == w
  {
  }

  /** A player's data from the login server reaches the player entered under that number, and
      nobody and nothing else. */
  lemma InfoIsStored(w: World, session: int, account: int, point: Int32, nick: string)
    requires Linked(w) && session in w.PlayerList
    ensures var w' := Handled(w, session, ResPlayerInfo(account, point, nick));
            && w' == w.(PlayerList := w'.PlayerList) && w'.PlayerList.Keys == w.PlayerList.Keys
            && w'.PlayerList - {account} == w.PlayerList - {account}
            && (account in w.PlayerList ==>
                  var was, player := w.PlayerList[account], w'.PlayerList[account];
                  && player.Point == point && player.NickName == nick
                  && player == was.(Point := player.Point, NickName := player.NickName))
  {
    var w' := Handled(w, session, ResPlayerInfo(account, point, nick));
    assert w'.PlayerList - {account} == w.PlayerList - {account};
    assert w'.PlayerList.Keys == w.PlayerList.Keys;
  }

  /** A wish for another nickname is noted in the account's own list, whose names stay, and
      posted with the nickname the player has now; no other list changes. */
  lemma WishIsNoted(w: World, session: int, nick: string)
    requires Linked(w) && session in w.PlayerList && w.PlayerList[session].AccountNo in w.OwnList
    ensures var w', player := Handled(w, session, ReqChangeNickName(nick)), w.PlayerList[session];
            && w' == w.(OwnList := w'.OwnList, dbJobs := w'.dbJobs)
            && w'.dbJobs == w.dbJobs + [ChangeCheck(player.AccountNo, player.NickName, nick)]
            && w'.OwnList - {player.AccountNo} == w.OwnList - {player.AccountNo}
            && player.AccountNo in w'.OwnList
            && w'.OwnList[player.AccountNo].RequestNickName == nick
            && w'.OwnList[player.AccountNo].count == w.OwnList[player.AccountNo].count
            && w'.OwnList[player.AccountNo].NickNames == w.OwnList[player.AccountNo].NickNames
  {
    var w', player := Handled(w, session, ReqChangeNickName(nick)), w.PlayerList[session];
    assert w'.OwnList - {player.AccountNo} == w.OwnList - {player.AccountNo};
  }

  // ---------- Players ----------

  /** Every player is entered under the number of its session, and is valid. */
  predicate Entered(w: World) {
    forall session | session in w.PlayerList ::
      w.PlayerList[session].sessionID == session && w.PlayerList[session].isValid
  }

  lemma PacketSparesEntered(w: World, session: int, packet: Packet)
    requires Linked(w) && session in w.PlayerList && PacketEnabled(w, session, packet) && Entered(w)
    ensures var w' := Handled(w, session, packet); Entered(w') && w'.PlayerList.Keys == w.PlayerList.Keys
  {
    hide CheckedAndInserted;
    assert packet.ReqBid? || packet.ResPlayerInfo? || Handled(w, session, packet).PlayerList == w.PlayerList;
  }

  /** A job enters or removes nobody but the player that joins or leaves; one that joins is
      entered with account number 0, no points and the nickname NULL; only a login gives
      somebody another account number. */
  ghost predicate PlayersFollow(w: World, job: Job, w': World) {
    && (forall session :: session in w'.PlayerList <==>
          job == Join(session) || (session in w.PlayerList && job != Leave(session)))
    && (forall session | session in w'.PlayerList && session !in w.PlayerList ::
          w'.PlayerList[session] == Player(true, 0, session, "NULL", 0))
    && (forall session | session in w'.PlayerList && session in w.PlayerList ::
          w'.PlayerList[session].AccountNo ==
          if job.Login? && job.session == session then job.account else w.PlayerList[session].AccountNo)
  }

  lemma PlayersFollowJobs(w: World, job: Job)
    requires Enabled(w, job) && Entered(w)
    ensures Entered(Next(w, job)) && PlayersFollow(w, job, Next(w, job))
  {
    hide Handled, Updated, Forgotten, Registered, PacketEnabled, Linked;
    match job
    case Tick(now, cells, draws, imminents) => TickSparesRequests(w, now, cells, draws, imminents);
    case RegisterAble(account, now, leftover) => RegisteringSparesPlayers(w, account, now, leftover);
    case Recv(session, packet) =>
      if Admitted(w, session) { PacketSparesEntered(w, session, packet); PacketSparesNumbers(w, session, packet); }
    case _ =>
  }

  lemma RegisteringSparesPlayers(w: World, account: int, now: nat, leftover: string)
    ensures Registered(w, account, now, leftover).PlayerList == w.PlayerList
  {
  }

  lemma PacketSparesNumbers(w: World, session: int, packet: Packet)
    requires Linked(w) && session in w.PlayerList && PacketEnabled(w, session, packet)
    ensures var players, players' := w.PlayerList, Handled(w, session, packet).PlayerList;
            forall k | k in players :: k in players' && players'[k].AccountNo == players[k].AccountNo
  {
    hide CheckedAndInserted;
  }

  /** So in a run a packet is handled exactly when its player is entered: the other two tests
      of the receive job never fail. */
  lemma {:induction false} EnteredMeansAdmitted(r: Run, i: nat)
    requires Valid(r) && i < |r.worlds|
    ensures Entered(r.worlds[i])
    ensures forall session :: Admitted(r.worlds[i], session) <==> session in r.worlds[i].PlayerList
  {
    hide Next, Enabled;
    if i == 0 {
      assert Opening().PlayerList == map[];
    } else {
      EnteredMeansAdmitted(r, i - 1);
      assert StepOf(r, i - 1);
      PlayersFollowJobs(r.worlds[i - 1], r.jobs[i - 1]);
    }
  }

  // ---------- The timed update ----------

  lemma {:induction false} ClockFits(r: Run, i: nat)
    requires Valid(r) && i < |r.worlds|
    ensures r.worlds[i].LastUpdateTime_ms < UINT64
  {
    hide Next, Enabled;
    if i == 0 {
      assert Opening().LastUpdateTime_ms == 0;
    } else {
      ClockFits(r, i - 1);
      assert StepOf(r, i - 1);
      ClockIsRead(r.worlds[i - 1], r.jobs[i - 1]);
    }
  }

  lemma ClockIsRead(w: World, job: Job)
    requires Enabled(w, job)
    ensures Next(w, job).LastUpdateTime_ms == if job.Tick? then job.now else w.LastUpdateTime_ms
    ensures job.Tick? ==> job.now < UINT64
  {
    hide Handled, Updated, Forgotten, Registered, Linked, PacketEnabled, Walk;
    match job
    case Recv(session, packet) =>
      if Admitted(w, session) { PacketSparesClock(w, session, packet); }
    case RegisterAble(account, now, leftover) => RegisteringSparesClock(w, account, now, leftover);
    case Tick(now, cells, draws, imminents) => TickNotesTime(w, now, cells, draws, imminents);
    case _ =>
  }

  lemma PacketSparesClock(w: World, session: int, packet: Packet)
    requires Linked(w) && session in w.PlayerList && PacketEnabled(w, session, packet)
    ensures var w' := Handled(w, session, packet);
            && w'.LastUpdateTime_ms == w.LastUpdateTime_ms
            && w'.FinList == w.FinList && w'.FinList_UMap == w.FinList_UMap
  {
  }

  lemma RegisteringSparesClock(w: World, account: int, now: nat, leftover: string)
    ensures var w' := Registered(w, account, now, leftover);
            && w'.LastUpdateTime_ms == w.LastUpdateTime_ms
            && w'.FinList == w.FinList && w'.FinList_UMap == w.FinList_UMap
  {
  }

  lemma TickNotesTime(w: World, now: nat, cells: seq<string>, draws: seq<Draw>, imminents: seq<string>)
    requires Linked(w) && |cells| <= |draws|
    ensures Updated(w, now, cells, draws, imminents).LastUpdateTime_ms == now
  {
  }

  lemma GapIsDifference(now: nat, last: nat)
    requires now < UINT64 && last < UINT64
    ensures Gap(now, last) == if now >= last then now - last else now - last + 0x1_0000_0000_0000_0000
  {
  }

  /** What the one-minute gate lets through. */
  lemma MovesAreGated(w: World, now: nat, cells: seq<string>, draws: seq<Draw>, k: string)
    requires Linked(w) && Keyed(w) && Walk(cells, w.CellList.Keys) && |cells| == |draws|
    ensures var w1, gap := AfterMoves(w, now, cells, draws), Gap(now, w.LastUpdateTime_ms);
            && |w1.book| == |w1.pool| == |w.pool| && w1.LastUpdateTime_ms == w.LastUpdateTime_ms
            && (gap <= 60000 ==> w1 == w)
            && (gap > 60000 ==>
                  && MoveSpares(w, w1)
                  && (k in w1.CellList <==> k in w.CellList && w.pool[w.CellList[k]].EndTime >= now)
                  && (k in w.CellList ==> exists i | 0 <= i < |draws| :: MoveFate(w, w1, now, k, draws[i], true)))
  {
    MovePass(w, now, cells, draws, k);
    MovedClock(w, now, cells, draws, |cells|);
    hide Moved, Keyed, MoveFate, Walk, MoveSpares;
  }

  /** What the five-second gate lets through. */
  lemma ClosesAreGated(w: World, now: nat, imminents: seq<string>, k: string)
    requires Linked(w) && Keyed(w) && Walk(imminents, w.ImminentList.Keys)
    ensures var w', gap := AfterCloses(w, now, imminents), Gap(now, w.LastUpdateTime_ms);
            && |w'.book| == |w'.pool| == |w.pool|
            && (gap <= 5000 ==> w' == w)
            && (gap > 5000 ==>
                  && CloseSpares(w, w')
                  && (k in w'.ImminentList <==> k in w.ImminentList && w.pool[w.ImminentList[k]].EndTime >= now)
                  && (k in w.ImminentList ==> CloseFate(w, w', now, k, true)))
  {
    ClosePass(w, now, imminents, k);
    hide Closed, Keyed, CloseFate, Walk, CloseSpares;
  }

  lemma NotingChangesNoFate(w: World, w': World, now: nat, k: string)
    requires Linked(w) && |w'.book| == |w'.pool| == |w.pool| && CloseSpares(w, w')
    requires k in w.ImminentList ==> CloseFate(w, w', now, k, true)
    ensures CloseSpares(w, w'.(LastUpdateTime_ms := now))
    ensures k in w.ImminentList ==> CloseFate(w, w'.(LastUpdateTime_ms := now), now, k, true)
  {
  }

  /** An update at most five seconds after the last call only notes the time; one at most a
      minute after it leaves CellList alone and closes exactly what is overdue in ImminentList;
      a later one first makes imminent exactly what is overdue in CellList.  The gap is a
      difference of unsigned 64-bit numbers: a clock set back makes it huge. */
  lemma UpdateIsGated(r: Run, i: nat, now: nat, cells: seq<string>, draws: seq<Draw>, imminents: seq<string>,
                      k: string)
    requires Valid(r) && i < |r.worlds| && Enabled(r.worlds[i], Tick(now, cells, draws, imminents))
    ensures var w := r.worlds[i];
            var w1, w' := AfterMoves(w, now, cells, draws), Updated(w, now, cells, draws, imminents);
            var gap := if now >= w.LastUpdateTime_ms then now - w.LastUpdateTime_ms
                       else now - w.LastUpdateTime_ms + 0x1_0000_0000_0000_0000;
            && |w1.book| == |w1.pool| == |w.pool| && |w'.book| == |w'.pool| == |w.pool|
            && w'.LastUpdateTime_ms == now
            && (gap <= 60000 ==> w1 == w)
            && (gap <= 5000 ==> w' == w.(LastUpdateTime_ms := now))
            && (gap > 60000 ==>
                  && MoveSpares(w, w1)
                  && (k in w1.CellList <==> k in w.CellList && w.pool[w.CellList[k]].EndTime >= now)
                  && (k in w.CellList ==> exists x | 0 <= x < |draws| :: MoveFate(w, w1, now, k, draws[x], true)))
            && (gap > 5000 ==>
                  && CloseSpares(w1, w')
                  && (k in w'.ImminentList <==> k in w1.ImminentList && w1.pool[w1.ImminentList[k]].EndTime >= now)
                  && (k in w1.ImminentList ==> CloseFate(w1, w', now, k, true)))
  {
    hide Inv, Keyed, Moved, Closed, MoveSpares, CloseSpares, MoveFate, CloseFate, Walk, Linked;
    hide AfterMoves, AfterCloses, Gap;
    var w := r.worlds[i];
    RunInv(r, i);
    ClockFits(r, i);
    GapIsDifference(now, w.LastUpdateTime_ms);
    Parts(w);
    MovesAreGated(w, now, cells, draws, k);
    MovesKeepKeys(w, now, cells, draws);
    var w1 := AfterMoves(w, now, cells, draws);
    ClosesAreGated(w1, now, imminents, k);
    if Gap(now, w1.LastUpdateTime_ms) > 5000 { NotingChangesNoFate(w1, AfterCloses(w1, now, imminents), now, k); }
  }

  lemma MovesKeepKeys(w: World, now: nat, cells: seq<string>, draws: seq<Draw>)
    requires Inv(w) && Linked(w) && Walk(cells, w.CellList.Keys) && |cells| == |draws|
    ensures Keyed(AfterMoves(w, now, cells, draws))
  {
    hide Moved, AllPlaced, AllTraded, AllReported, Owned, Walk, AllEvolve;
    MovedKeeps(w, now, cells, draws, |cells|);
  }

  /** The minutes drawn are any from eight to twelve, to the millisecond. */
  lemma AnyMinutesMayBeDrawn(w: World, now: nat, key: string, x: int)
    requires Linked(w) && key in w.CellList && w.pool[w.CellList[key]].EndTime < now && 480000 <= x <= 720000
    ensures var p := w.CellList[key];
            p < |MoveOne(w, now, key, x).pool|
            && MoveOne(w, now, key, x).pool[p].EndTime == (w.pool[p].EndTime + x) % 0x1_0000_0000_0000_0000
  {
  }

  // ---------- What was sold ----------

  predicate EndsIn(long: seq<nat>, short: seq<nat>) {
    |short| <= |long| && long[|long| - |short|..] == short
  }

  lemma EndsInEnd(a: seq<nat>, b: seq<nat>, c: seq<nat>)
    requires EndsIn(a, b) && EndsIn(b, c)
    ensures EndsIn(a, c)
  {
    assert a[|a| - |c|..] == a[|a| - |b|..][|b| - |c|..];
  }

  lemma CloseOneInFront(w: World, now: nat, key: string)
    requires Linked(w)
    ensures EndsIn(CloseOne(w, now, key).FinList, w.FinList)
  {
  }

  lemma {:induction false} ClosingInFront(w: World, now: nat, order: seq<string>, n: nat)
    requires Linked(w) && n <= |order|
    ensures EndsIn(Closed(w, now, order, n).FinList, w.FinList)
  {
    hide CloseOne, Linked;
    if n > 0 {
      hide EndsIn;
      ClosingInFront(w, now, order, n - 1);
      var w1 := Closed(w, now, order, n - 1);
      CloseOneInFront(w1, now, order[n - 1]);
      EndsInEnd(CloseOne(w1, now, order[n - 1]).FinList, w1.FinList, w.FinList);
    }
  }

  lemma {:induction false} MovingSparesFins(w: World, now: nat, order: seq<string>, draws: seq<Draw>, n: nat)
    requires Linked(w) && n <= |order| <= |draws|
    ensures Moved(w, now, order, draws, n).FinList == w.FinList
  {
    if n > 0 { MovingSparesFins(w, now, order, draws, n - 1); }
  }

  lemma TickInFront(w: World, now: nat, cells: seq<string>, draws: seq<Draw>, imminents: seq<string>)
    requires Linked(w) && |cells| <= |draws|
    ensures EndsIn(Updated(w, now, cells, draws, imminents).FinList, w.FinList)
  {
    hide Moved, Closed, Linked;
    MovingSparesFins(w, now, cells, draws, |cells|);
    ClosingInFront(AfterMoves(w, now, cells, draws), now, imminents, |imminents|);
  }

  lemma JobInFront(w: World, job: Job)
    requires Enabled(w, job)
    ensures EndsIn(Next(w, job).FinList, w.FinList)
  {
    hide Handled, Updated, Forgotten, Registered, Linked, PacketEnabled, Walk;
    match job
    case Recv(session, packet) => if Admitted(w, session) { PacketSparesClock(w, session, packet); }
    case RegisterAble(account, now, leftover) => RegisteringSparesClock(w, account, now, leftover);
    case Tick(now, cells, draws, imminents) => TickInFront(w, now, cells, draws, imminents);
    case _ =>
  }

  /** Nothing leaves the list of what was sold, and what is sold later stands in front. */
  lemma {:induction false} NewestSoldFirst(r: Run, i: nat, j: nat)
    requires Valid(r) && i <= j < |r.worlds|
    ensures EndsIn(r.worlds[j].FinList, r.worlds[i].FinList)
    decreases j - i
  {
    hide Next, Enabled;
    if i < j {
      hide EndsIn;
      NewestSoldFirst(r, i, j - 1);
      assert StepOf(r, j - 1);
      JobInFront(r.worlds[j - 1], r.jobs[j - 1]);
      EndsInEnd(r.worlds[j].FinList, r.worlds[j - 1].FinList, r.worlds[i].FinList);
    }
  }

  function NameOf(pool: seq<AuctionData>, p: nat): string { if p < |pool| then pool[p].NickName else "" }

  /** The first auction ever sold under a nickname: the last such in the list. */
  function FirstSold(pool: seq<AuctionData>, fins: seq<nat>, k: string): Option<nat> {
    if fins == [] then None else
      var earlier := FirstSold(pool, fins[1..], k);
      if earlier.Some? then earlier else if NameOf(pool, fins[0]) == k then Some(fins[0]) else None
  }

  /** What FinList_UMap finds. */
  ghost predicate FoundUnder(w: World, k: string) {
    FirstSold(w.pool, w.FinList, k) == if k in w.FinList_UMap then Some(w.FinList_UMap[k]) else None
  }

  ghost predicate FinsFound(w: World) {
    forall k: string :: FoundUnder(w, k)
  }

  ghost predicate SameNames(w: World, w': World) {
    && w'.FinList == w.FinList && w'.FinList_UMap == w.FinList_UMap
    && forall x | 0 <= x < |w.FinList| :: NameOf(w'.pool, w.FinList[x]) == NameOf(w.pool, w.FinList[x])
  }

  lemma {:induction false} FirstSoldAlike(pool: seq<AuctionData>, pool': seq<AuctionData>, fins: seq<nat>, k: string)
    requires forall x | 0 <= x < |fins| :: NameOf(pool', fins[x]) == NameOf(pool, fins[x])
    ensures FirstSold(pool', fins, k) == FirstSold(pool, fins, k)
  {
    if fins != [] {
      assert forall x | 0 <= x < |fins[1..]| :: fins[1..][x] == fins[x + 1];
      FirstSoldAlike(pool, pool', fins[1..], k);
    }
  }

  lemma FinsFoundAlike(w: World, w': World)
    requires FinsFound(w) && SameNames(w, w')
    ensures FinsFound(w')
  {
    forall k: string ensures FoundUnder(w', k) {
      assert FoundUnder(w, k);
      FirstSoldAlike(w.pool, w'.pool, w.FinList, k);
    }
  }

  lemma NamesStay(w: World, w': World)
    requires Keyed(w) && |w.book| == |w.pool| && |w'.book| == |w'.pool| && AllEvolve(w, w')
    requires w'.FinList == w.FinList && w'.FinList_UMap == w.FinList_UMap
    ensures SameNames(w, w')
  {
    forall x | 0 <= x < |w.FinList| ensures NameOf(w'.pool, w.FinList[x]) == NameOf(w.pool, w.FinList[x]) {
      assert Evolves(w.pool[w.FinList[x]], w.book[w.FinList[x]], w'.pool[w.FinList[x]], w'.book[w.FinList[x]]);
    }
  }

  lemma CloseOneFindsUnder(w: World, now: nat, key: string, k: string)
    requires Linked(w) && Keyed(w) && FoundUnder(w, k)
    ensures FoundUnder(CloseOne(w, now, key), k)
  {
    var w' := CloseOne(w, now, key);
    FirstSoldAlike(w.pool, w'.pool, w.FinList, k);
    if w'.FinList != w.FinList { assert w'.FinList[1..] == w.FinList; }
  }

  lemma CloseOneFinds(w: World, now: nat, key: string)
    requires Linked(w) && Keyed(w) && FinsFound(w)
    ensures FinsFound(CloseOne(w, now, key))
  {
    hide CloseOne, Keyed, Linked;
    forall k: string ensures FoundUnder(CloseOne(w, now, key), k) { CloseOneFindsUnder(w, now, key, k); }
  }

  lemma {:induction false} ClosingFinds(w: World, now: nat, order: seq<string>, n: nat)
    requires Inv(w) && Linked(w) && n <= |order| && FinsFound(w)
    ensures FinsFound(Closed(w, now, order, n))
  {
    hide CloseOne, FinsFound, Inv, Keyed;
    if n > 0 {
      ClosingFinds(w, now, order, n - 1);
      ClosedKeeps(w, now, order, n - 1);
      var w1 := Closed(w, now, order, n - 1);
      Parts(w1);
      CloseOneFinds(w1, now, order[n - 1]);
    }
  }

  lemma {:induction false} MovingSparesUMap(w: World, now: nat, order: seq<string>, draws: seq<Draw>, n: nat)
    requires Linked(w) && n <= |order| <= |draws|
    ensures Moved(w, now, order, draws, n).FinList_UMap == w.FinList_UMap
  {
    if n > 0 { MovingSparesUMap(w, now, order, draws, n - 1); }
  }

  lemma TickFinds(w: World, now: nat, cells: seq<string>, draws: seq<Draw>, imminents: seq<string>)
    requires Inv(w) && Linked(w) && |cells| <= |draws| && FinsFound(w)
    ensures FinsFound(Updated(w, now, cells, draws, imminents))
  {
    hide Moved, Closed, Inv, Keyed, FinsFound, AllEvolve, SameNames;
    var w1 := AfterMoves(w, now, cells, draws);
    if Gap(now, w.LastUpdateTime_ms) > MOVE_GAP {
      MovedKeeps(w, now, cells, draws, |cells|);
      MovingSparesUMap(w, now, cells, draws, |cells|);
      MovingSparesFins(w, now, cells, draws, |cells|);
      Parts(w);
      NamesStay(w, w1);
      FinsFoundAlike(w, w1);
    }
    if Gap(now, w1.LastUpdateTime_ms) > CLOSE_GAP { ClosingFinds(w1, now, imminents, |imminents|); }
    NotingFinds(AfterCloses(w1, now, imminents), now);
  }

  lemma NotingFinds(w: World, now: nat)
    requires FinsFound(w)
    ensures FinsFound(w.(LastUpdateTime_ms := now))
  {
    forall k: string ensures FoundUnder(w.(LastUpdateTime_ms := now), k) { assert FoundUnder(w, k); }
  }

  lemma OtherJobsSpareFins(w: World, job: Job)
    requires Enabled(w, job) && !job.Tick?
    ensures Next(w, job).FinList == w.FinList && Next(w, job).FinList_UMap == w.FinList_UMap
  {
    hide Handled, Forgotten, Registered, Linked, PacketEnabled, Walk;
    match job
    case Recv(session, packet) => if Admitted(w, session) { PacketSparesClock(w, session, packet); }
    case RegisterAble(account, now, leftover) => RegisteringSparesClock(w, account, now, leftover);
    case _ =>
  }

  /** In every reachable state the index of what was sold finds, under each nickname, the first
      auction sold under it, and nothing under any other. */
  lemma {:induction false} IndexFindsFirstSold(r: Run, i: nat)
    requires Valid(r) && i < |r.worlds|
    ensures FinsFound(r.worlds[i])
  {
    hide Next, Enabled, Inv, Keyed, FinsFound, AllEvolve;
    if i == 0 {
      assert FinsFound(Opening()) by { NothingSold(); }
    } else {
      IndexFindsFirstSold(r, i - 1);
      RunInv(r, i - 1);
      assert StepOf(r, i - 1);
      var w, job := r.worlds[i - 1], r.jobs[i - 1];
      if job.Tick? {
        NextUpdates(w, job);
        TickFinds(w, job.now, job.cells, job.draws, job.imminents);
      } else {
        JobKeeps(w, job);
        OtherJobsSpareFins(w, job);
        Parts(w);
        NamesStay(w, Next(w, job));
        FinsFoundAlike(w, Next(w, job));
      }
    }
  }

  lemma NothingSold()
    ensures FinsFound(Opening())
  {
  }

  lemma NextUpdates(w: World, job: Job)
    requires Enabled(w, job) && job.Tick?
    ensures |job.cells| <= |job.draws|
    ensures Linked(w) && Next(w, job) == Updated(w, job.now, job.cells, job.draws, job.imminents)
  {
  }
}
