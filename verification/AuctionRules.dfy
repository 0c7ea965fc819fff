/** The state of the auction server and what each job of its logic thread does to it.  Auction
    objects are never given back to their pool, so the pool is a growing sequence and a
    pointer to an auction an index into it; the containers hold such pointers, and an update
    through one is seen through all.

    `book` is bookkeeping that no operation reads: for each auction, what was asked for at its
    registration, the bids accepted, the minutes drawn, and when it was closed. */
module AuctionRules {
  const MAX_SERVER_SLOT: nat := 20000
  const MAX_USER_SLOT: nat := 5
  const HOUR: nat := 60 * 60 * 1000
  const EARLY: nat := 10 * 60 * 1000
  const MOVE_GAP: nat := 60000
  const CLOSE_GAP: nat := 5000
  const UINT64: nat := 0x1_0000_0000_0000_0000

  newtype Int8 = x: int | -0x80 <= x < 0x80
  type Int32 = x: int | -0x8000_0000 <= x < 0x8000_0000
  type Draw = x: nat | 8 * 60000 <= x <= 12 * 60000 witness 8 * 60000

  function Wrap32(x: int): Int32 { (x + 0x8000_0000) % 0x1_0000_0000 - 0x8000_0000 }

  datatype Status = Sale | Imminent | Fin | FinFail

  datatype AuctionData = AuctionData(
    StartTime: nat, EndTime: nat, Status: Status, OwnerID: int, BidderID: int, NickName: string,
    Price: Int32, Count: Int32)

  datatype Player = Player(isValid: bool, AccountNo: int, sessionID: int, NickName: string, Point: Int32)
  datatype NickNameList = NickNameList(count: int, RequestNickName: string, NickNames: seq<string>)
  datatype InitData = InitData(Time: Int8, Price: Int32)

  /** What is posted to the database thread.  `about` is bookkeeping: the auction a sale is
      reported for. */
  datatype DbJob =
    | RegisterCheck(AccountNo: int, MyNickName: string)
    | ChangeCheck(AccountNo: int, MyNickName: string, TargetNickName: string)
    | Sold(AccountNo: int, Count: Int32, MyNickName: string, about: nat)

  datatype Offer = Offer(account: int, price: Int32)
  datatype Entry = Entry(
    startPrice: Int32, hours: Int8, bids: seq<Offer>, draws: seq<Draw>, closedAt: seq<nat>, lost: bool)

  datatype World = World(
    pool: seq<AuctionData>,
    PlayerList: map<int, Player>,
    CellList: map<string, nat>, ImminentList: map<string, nat>,
    FinList: seq<nat>, FinList_UMap: map<string, nat>,
    OwnList: map<int, NickNameList>, waitingDataList: map<int, InitData>,
    NumOfSales: int, LastUpdateTime_ms: nat,
    dbJobs: seq<DbJob>, book: seq<Entry>)

  datatype Packet =
    | ReqSale(NickName: string, Time: Int8, Price: Int32)
    | ReqSearch(NickName: string)
    | ReqBid(NickName: string, Price: Int32)
    | ReqChangeNickName(NickName: string)
    | ResPlayerInfo(AccountNo: int, Point: Int32, NickName: string)
    | Unknown

  /** `Login` stands for whatever gives a player its account number.  Clock readings, the
      random minutes, the order in which an unordered container is walked and what a job
      item taken from its pool still holds are all chosen by the environment. */
  datatype Job =
    | Join(session: int)
    | Leave(session: int)
    | Login(session: int, account: int)
    | Recv(session: int, packet: Packet)
    | ChangeAble(account: int)
    | RegisterAble(account: int, now: nat, leftover: string)
    | Tick(now: nat, cells: seq<string>, draws: seq<Draw>, imminents: seq<string>)

  // ---------- Containers ----------

  /** `insert` on a map does nothing to a key that is there. */
  function Inserted<K, V>(m: map<K, V>, k: K, v: V): map<K, V> {
    if k in m then m else m[k := v]
  }

  /** Every pointer in a container is a pointer to an auction. */
  ghost predicate Linked(w: World) {
    && |w.book| == |w.pool|
    && (forall k | k in w.CellList :: w.CellList[k] < |w.pool|)
    && (forall k | k in w.ImminentList :: w.ImminentList[k] < |w.pool|)
  }

  /** `order` lists the keys of a container, each once: a walk from begin() to end(). */
  ghost predicate Walk(order: seq<string>, keys: set<string>) {
    && (forall i | 0 <= i < |order| :: order[i] in keys)
    && (forall k | k in keys :: k in order)
    && (forall i, j | 0 <= i < j < |order| :: order[i] != order[j])
  }

  // ---------- The owners' lists ----------

  function OwnEntry(w: World, account: int): NickNameList {
    if account in w.OwnList then w.OwnList[account] else NickNameList(0, "", [])
  }

  /** The indexing loops over an owner's names stay in bounds. */
  predicate ListOk(l: NickNameList) { 0 <= l.count <= |l.NickNames| }

  function CheckedAndInserted(l: NickNameList, nick: string): NickNameList
    requires ListOk(l)
  {
    if nick in l.NickNames[..l.count] then l else l.(NickNames := l.NickNames + [nick], count := l.count + 1)
  }

  function Without<T>(s: seq<T>, i: nat): seq<T>
    requires i < |s|
  {
    s[..i] + s[i + 1..]
  }

  /** The loop that forgets a changed nickname, from its pass at `i` on. */
  function Forgotten(l: NickNameList, i: nat): NickNameList
    requires ListOk(l)
    decreases l.count - i
  {
    if i >= l.count then l else
      var names := if l.NickNames[i] == l.RequestNickName then Without(l.NickNames, i) else l.NickNames;
      Forgotten(NickNameList(l.count - 1, "NULL", names), i + 1)
  }

  // ---------- Registration and bids ----------

  function EndOfSale(now: nat, hours: Int8): nat {
    (now + hours as int * HOUR - EARLY) % UINT64
  }

  function WithAuction(w: World, account: int, asked: InitData, nick: string, now: nat, leftover: string): World {
    var own := OwnEntry(w, account);
    w.(pool := w.pool + [AuctionData(now, EndOfSale(now, asked.Time), Sale, account, 0, nick, asked.Price, 0)],
       book := w.book + [Entry(asked.Price, asked.Time, [], [], [], nick in w.CellList)],
       CellList := Inserted(w.CellList, nick, |w.pool|),
       OwnList := w.OwnList[account := own.(count := own.count + 1, NickNames := own.NickNames + [nick])],
       NumOfSales := w.NumOfSales + 1,
       dbJobs := w.dbJobs + [ChangeCheck(account, nick, leftover)])
  }

  function Registered(w: World, account: int, now: nat, leftover: string): World {
    var own := OwnEntry(w, account);
    var w := w.(OwnList := w.OwnList[account := own]);
    if own.count >= MAX_USER_SLOT || w.NumOfSales >= MAX_SERVER_SLOT || account !in w.waitingDataList then w else
      var asked := w.waitingDataList[account];
      var w := w.(waitingDataList := w.waitingDataList - {account});
      if account !in w.PlayerList then w else
        WithAuction(w, account, asked, w.PlayerList[account].NickName, now, leftover)
  }

  datatype Option<T> = None | Some(value: T)

  /** Where a bid looks for an auction: the imminent ones first. */
  function Find(w: World, nick: string): Option<nat> {
    if nick in w.ImminentList then Some(w.ImminentList[nick])
    else if nick in w.CellList then Some(w.CellList[nick]) else None
  }

  predicate BidStands(w: World, player: Player, nick: string, price: Int32)
    requires Linked(w)
  {
    var found := Find(w, nick);
    found.Some? && w.pool[found.value].Price < price && w.pool[found.value].OwnerID != player.AccountNo
  }

  function Bid(w: World, session: int, nick: string, price: Int32): World
    requires Linked(w) && session in w.PlayerList && ListOk(OwnEntry(w, w.PlayerList[session].AccountNo))
  {
    var player := w.PlayerList[session];
    if player.Point != price || !BidStands(w, player, nick, price) then w else
      var p := Find(w, nick).value;
      var a, e, account := w.pool[p], w.book[p], player.AccountNo;
      w.(PlayerList := w.PlayerList[session := player.(Point := 0)],
         pool := w.pool[p := a.(BidderID := account, Price := price, Count := Wrap32(a.Count + 1))],
         book := w.book[p := e.(bids := e.bids + [Offer(account, price)])],
         OwnList := w.OwnList[account := CheckedAndInserted(OwnEntry(w, account), nick)])
  }

  // ---------- The timed passes ----------

  /** One entry of CellList, when the walk comes to it. */
  function MoveOne(w: World, now: nat, key: string, draw: Draw): (r: World)
    requires Linked(w)
    ensures Linked(r)
  {
    if key !in w.CellList || w.pool[w.CellList[key]].EndTime >= now then w else
      var p := w.CellList[key];
      var a, e := w.pool[p], w.book[p];
      w.(CellList := w.CellList - {key},
         pool := w.pool[p := a.(Status := Imminent, EndTime := (a.EndTime + draw) % UINT64)],
         ImminentList := Inserted(w.ImminentList, key, p),
         book := w.book[p := e.(draws := e.draws + [draw], lost := key in w.ImminentList)])
  }

  function Moved(w: World, now: nat, order: seq<string>, draws: seq<Draw>, n: nat): (r: World)
    requires Linked(w) && n <= |order| <= |draws|
    ensures Linked(r)
  {
    if n == 0 then w else MoveOne(Moved(w, now, order, draws, n - 1), now, order[n - 1], draws[n - 1])
  }

  /** One entry of ImminentList, when the walk comes to it. */
  function CloseOne(w: World, now: nat, key: string): (r: World)
    requires Linked(w)
    ensures Linked(r)
  {
    if key !in w.ImminentList || w.pool[w.ImminentList[key]].EndTime >= now then w else
      var p := w.ImminentList[key];
      var a, e := w.pool[p], w.book[p];
      var won := a.BidderID != 0;
      w.(ImminentList := w.ImminentList - {key},
         pool := w.pool[p := a.(Status := if won then Fin else FinFail)],
         FinList := if won then [p] + w.FinList else w.FinList,
         FinList_UMap := if won then Inserted(w.FinList_UMap, key, p) else w.FinList_UMap,
         dbJobs := w.dbJobs + [Sold(a.BidderID, a.Count, a.NickName, p)],
         book := w.book[p := e.(closedAt := e.closedAt + [now])])
  }

  function Closed(w: World, now: nat, order: seq<string>, n: nat): (r: World)
    requires Linked(w) && n <= |order|
    ensures Linked(r)
  {
    if n == 0 then w else CloseOne(Closed(w, now, order, n - 1), now, order[n - 1])
  }

  /** The gates compare a difference of unsigned 64-bit clock readings. */
  function Gap(now: nat, last: nat): nat { (now - last) % UINT64 }

  function AfterMoves(w: World, now: nat, cells: seq<string>, draws: seq<Draw>): (r: World)
    requires Linked(w) && |cells| <= |draws|
    ensures Linked(r)
  {
    if Gap(now, w.LastUpdateTime_ms) > MOVE_GAP then Moved(w, now, cells, draws, |cells|) else w
  }

  function AfterCloses(w: World, now: nat, imminents: seq<string>): (r: World)
    requires Linked(w)
    ensures Linked(r)
  {
    if Gap(now, w.LastUpdateTime_ms) > CLOSE_GAP then Closed(w, now, imminents, |imminents|) else w
  }

  function Updated(w: World, now: nat, cells: seq<string>, draws: seq<Draw>, imminents: seq<string>): World
    requires Linked(w) && |cells| <= |draws|
  {
    AfterCloses(AfterMoves(w, now, cells, draws), now, imminents).(LastUpdateTime_ms := now)
  }

  // ---------- Jobs ----------

  predicate Admitted(w: World, session: int) {
    session in w.PlayerList && w.PlayerList[session].sessionID == session && w.PlayerList[session].isValid
  }

  /** False when the handler asks for the session to be disconnected. */
  predicate Tolerated(w: World, session: int, packet: Packet)
    requires session in w.PlayerList
  {
    match packet
    case ReqSale(nick, _, _) => w.PlayerList[session].NickName == nick
    case ReqBid(_, price) => w.PlayerList[session].Point == price
    case Unknown => false
    case _ => true
  }

  function Handled(w: World, session: int, packet: Packet): World
    requires Linked(w) && session in w.PlayerList && PacketEnabled(w, session, packet)
  {
    var player := w.PlayerList[session];
    match packet
    case ReqSale(nick, time, price) =>
      if player.NickName != nick then w else
        w.(waitingDataList := Inserted(w.waitingDataList, player.AccountNo, InitData(time, price)),
           dbJobs := w.dbJobs + [RegisterCheck(player.AccountNo, nick)])
    case ReqSearch(_) => w
    case ReqBid(nick, price) => Bid(w, session, nick, price)
    case ReqChangeNickName(nick) =>
      w.(OwnList := w.OwnList[player.AccountNo := w.OwnList[player.AccountNo].(RequestNickName := nick)],
         dbJobs := w.dbJobs + [ChangeCheck(player.AccountNo, player.NickName, nick)])
    case ResPlayerInfo(account, point, nick) =>
      if account !in w.PlayerList then w else
        w.(PlayerList := w.PlayerList[account := w.PlayerList[account].(Point := point, NickName := nick)])
    case Unknown => w
  }

  /** Changing a nickname dereferences the owner's entry unchecked. */
  predicate PacketEnabled(w: World, session: int, packet: Packet)
    requires session in w.PlayerList
  {
    && (packet.ReqBid? ==> ListOk(OwnEntry(w, w.PlayerList[session].AccountNo)))
    && (packet.ReqChangeNickName? ==> w.PlayerList[session].AccountNo in w.OwnList)
  }

  ghost predicate Enabled(w: World, job: Job) {
    && Linked(w)
    && match job
       case Recv(session, packet) => Admitted(w, session) ==> PacketEnabled(w, session, packet)
       case ChangeAble(account) => account in w.OwnList && ListOk(w.OwnList[account])
       case RegisterAble(_, now, _) => now < UINT64
       case Tick(now, cells, draws, imminents) =>
         now < UINT64 && Walk(cells, w.CellList.Keys) && |cells| == |draws|
         && Walk(imminents, AfterMoves(w, now, cells, draws).ImminentList.Keys)
       case _ => true
  }

  ghost function Next(w: World, job: Job): World
    requires Enabled(w, job)
  {
    match job
    case Join(session) => w.(PlayerList := Inserted(w.PlayerList, session, Player(true, 0, session, "NULL", 0)))
    case Leave(session) =>
      if session !in w.PlayerList then w else
        w.(waitingDataList := w.waitingDataList - {w.PlayerList[session].AccountNo},
           PlayerList := w.PlayerList - {session})
    case Login(session, account) =>
      if session !in w.PlayerList then w else
        w.(PlayerList := w.PlayerList[session := w.PlayerList[session].(AccountNo := account)])
    case Recv(session, packet) => if Admitted(w, session) then Handled(w, session, packet) else w
    case ChangeAble(account) => w.(OwnList := w.OwnList[account := Forgotten(w.OwnList[account], 0)])
    case RegisterAble(account, now, leftover) => Registered(w, account, now, leftover)
    case Tick(now, cells, draws, imminents) => Updated(w, now, cells, draws, imminents)
  }
}
