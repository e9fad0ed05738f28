/** What every reachable state of the server satisfies, and exactly which steps keep it. */
module SessionInvariant {
  import opened Names
  import opened Statistics
  import opened TimeWindows
  import opened Games
  import opened Sessions

  type Clients = map<Client, Session>

  // ----- users -----

  predicate Named(s: Session) {
    !s.Login?
  }

  /** Client `c` is the session of user `n`. */
  predicate IsSessionOf(clients: Clients, c: Client, n: Name) {
    c in clients && Named(clients[c]) && clients[c].user == n
  }

  predicate SameUser(s: Session, t: Session) {
    Named(s) && Named(t) && s.user == t.user
  }

  /** The logged-user list has no duplicates and holds exactly the users of the named sessions; no two
      sessions share a user, and each has an account. */
  ghost predicate UsersInv(logged: seq<Name>, accounts: set<Name>, clients: Clients) {
    && Distinct(logged)
    && (forall c :: c in clients && Named(clients[c]) ==> clients[c].user in logged && clients[c].user in accounts)
    && (forall n :: n in logged ==> exists c :: IsSessionOf(clients, c, n))
    && (forall c, d :: c in clients && d in clients && SameUser(clients[c], clients[d]) ==> c == d)
  }

  // ----- rooms and games -----

  /** Session `s` is in room `u`, or in its game, under the name `n`. */
  predicate Seated(s: Session, n: Name, u: Uuid) {
    (s.Member? || s.Admin? || s.Playing?) && s.user == n && s.room == u
  }

  predicate SitsAt(clients: Clients, c: Client, n: Name, u: Uuid) {
    c in clients && Seated(clients[c], n, u)
  }

  ghost predicate RoomOk(r: RoomValue) {
    Distinct(r.users) && |r.users| <= r.maxPlayers && r.maxPlayers >= 2 && r.questionCount >= 2 && r.limit >= 5
  }

  /** Everyone in a room has a session there. */
  ghost predicate SeatsTaken(rooms: map<Uuid, RoomValue>, clients: Clients) {
    forall u, n :: u in rooms && n in rooms[u].users ==> exists c :: SitsAt(clients, c, n, u)
  }

  /** What a session takes for granted about the room or game it refers to. */
  ghost predicate SessionOk(rooms: map<Uuid, RoomValue>, games: map<Uuid, GameValue>, s: Session) {
    match s
    case Member(n, u) => u in rooms ==> n in rooms[u].users
    case Admin(n, u) => u in rooms && !rooms[u].active && n in rooms[u].users
    case Playing(n, u, asleep) =>
      u in games && n in games[u].online && (asleep.Some? ==> Recordable(games[u], asleep.value))
    case Verification(_, _, _, tries) => tries < MAX_TRIES
    case _ => true
  }

  predicate SameAdminRoom(s: Session, t: Session) {
    s.Admin? && t.Admin? && s.room == t.room
  }

  ghost predicate OneAdmin(clients: Clients) {
    forall c, d :: c in clients && d in clients && SameAdminRoom(clients[c], clients[d]) ==> c == d
  }

  ghost predicate SeatsInv(rooms: map<Uuid, RoomValue>, games: map<Uuid, GameValue>, clients: Clients) {
    && (forall u :: u in rooms ==> RoomOk(rooms[u]))
    && SeatsTaken(rooms, clients)
    && (forall c :: c in clients ==> SessionOk(rooms, games, clients[c]))
    && OneAdmin(clients)
  }

  /** A game is in the list exactly when its room exists, is active and has users, and then the room's
      users are the game's online players, in the same order. */
  ghost predicate GamesMatch(rooms: map<Uuid, RoomValue>, games: map<Uuid, GameValue>) {
    && (forall u :: u in games <==> u in rooms && rooms[u].active && rooms[u].users != [])
    && (forall u :: u in games ==> games[u].online == rooms[u].users)
  }

  ghost predicate GamesInv(games: map<Uuid, GameValue>, now: nat) {
    forall u :: u in games ==> GameInv(games[u], now)
  }

  // ----- accounts and statistics -----

  /** Each row is the history of its ledger; unverified accounts are exactly those of the Verification
      sessions, and nothing was ever written for them. */
  ghost predicate TablesInv(h: Hub, clients: Clients, pending: set<Name>) {
    && h.rows.Keys == h.base.Keys == h.ledger.Keys == h.accounts.Keys
    && (forall n :: n in h.rows ==> h.rows[n] == History(h.base[n], h.ledger[n]))
    && (forall c :: c in clients && clients[c].Verification? ==> clients[c].user in pending)
    && (forall n :: n in pending ==> exists c :: IsSessionOf(clients, c, n) && clients[c].Verification?)
    && (forall n :: n in pending ==> n in h.accounts && h.base[n] == EMPTY_ROW && h.ledger[n] == [])
  }

  ghost predicate Inv(w: World) {
    && UsersInv(w.hub.logged, w.hub.accounts.Keys, w.clients)
    && SeatsInv(w.hub.rooms, w.hub.games, w.clients)
    && GamesMatch(w.hub.rooms, w.hub.games)
    && GamesInv(w.hub.games, w.now)
    && TablesInv(w.hub, w.clients, w.pending)
  }

  /** The server before its first connection, over whatever the database held. */
  ghost predicate Initial(w: World) {
    && w.clients == map[] && w.pending == {}
    && w.hub.logged == [] && w.hub.rooms == map[] && w.hub.games == map[]
    && w.hub.rows.Keys == w.hub.base.Keys == w.hub.ledger.Keys == w.hub.accounts.Keys
    && w.hub.rows == w.hub.base && (forall n :: n in w.hub.ledger ==> w.hub.ledger[n] == [])
  }

  lemma InitialInv(w: World)
    requires Initial(w)
    ensures Inv(w)
  {
  }

  // ----- references are valid when used -----

  /** An active room that everybody has left. */
  predicate Deserted(r: RoomValue) {
    r.active && r.users == []
  }

  /**
   The requests that can be answered: the list of rooms while no room is deserted, and the question
   while the game is unfinished at the second reading of the clock (or was finished at the first).
   */
  predicate Answerable(w: World, st: Step)
    requires Enabled(w, st)
  {
    st.Serve? ==>
      var (s, r) := (w.clients[st.c], st.env.readings);
      match st.req
      case GetRooms(_) => s.Menu? ==> forall u :: u in w.hub.rooms ==> !Deserted(w.hub.rooms[u])
      case GetQuestion => s.Playing? && s.room in w.hub.games ==> QuestionInTime(w.hub.games[s.room], r)
      case _ => true
  }

  predicate QuestionInTime(g: GameValue, r: Readings) {
    || FinishedAt(g, r.first)
    || !FinishedAt(g, r.second)
    || IndexWraps(g.limit, |g.questions|, Elapsed(g.start, r.second))
  }

  /** The lookups behind every reference a handler holds succeed, whatever the request. */
  predicate HeldReferences(w: World, st: Step)
    requires Enabled(w, st)
  {
    match st
    case Connect(_) => true
    case WakeUp(_, _) => Defined(w, st)
    case _ => LookupsSucceed(w.hub, w.clients[st.c])
  }

  lemma HeldReferencesAreValid(w: World, st: Step)
    requires Inv(w) && Enabled(w, st)
    ensures HeldReferences(w, st)
  {
    if !st.Connect? {
      var s := w.clients[st.c];
      assert SessionOk(w.hub.rooms, w.hub.games, s);
      if s.Playing? {
        GameRecordsExist(w.hub.games[s.room], w.now);
      } else if s.Member? && s.room in w.hub.rooms && w.hub.rooms[s.room].active {
        GameRecordsExist(w.hub.games[s.room], w.now);
      }
    }
  }

  /** Every lookup and index access of a step succeeds if and only if its request can be answered. */
  lemma DefinedIff(w: World, st: Step)
    requires Inv(w) && Enabled(w, st)
    ensures Defined(w, st) <==> Answerable(w, st)
  {
    HeldReferencesAreValid(w, st);
    if st.Serve? {
      var (s, r) := (w.clients[st.c], st.env.readings);
      if st.req.GetRooms? {
        RoomsAreListedIff(w, st.req.unreadable);
      } else if st.req.GetQuestion? && s.Playing? && !FinishedAt(w.hub.games[s.room], r.first) {
        var g := w.hub.games[s.room];
        CurrentIndexInRange(g.limit, |g.questions|, Elapsed(g.start, r.second));
      }
    }
  }

  lemma RoomsAreListedIff(w: World, unreadable: set<Uuid>)
    requires Inv(w)
    ensures (forall u :: u in w.hub.rooms && w.hub.rooms[u].active && (w.hub.rooms[u].users == [] || u !in unreadable)
               ==> u in w.hub.games)
            <==> (forall u :: u in w.hub.rooms ==> !Deserted(w.hub.rooms[u]))
  {
    assert GamesMatch(w.hub.rooms, w.hub.games);
  }

  lemma GameRecordsExist(g: GameValue, now: nat)
    requires GameInv(g, now)
    ensures forall n :: n in g.players ==> |g.players[n].answers| == |g.questions| >= 2
    ensures forall n :: n in g.online ==> n in g.players
  {
  }

  // ----- moving users -----

  /** A session changes hands of handlers but not of user. */
  lemma UsersStay(logged: seq<Name>, accounts: set<Name>, clients: Clients, c: Client, s: Session)
    requires UsersInv(logged, accounts, clients) && c in clients
    requires Named(clients[c]) && Named(s) && s.user == clients[c].user
    ensures UsersInv(logged, accounts, clients[c := s])
  {
    var after := clients[c := s];
    forall n | n in logged
      ensures exists d :: IsSessionOf(after, d, n)
    {
      var d :| IsSessionOf(clients, d, n);
      assert IsSessionOf(after, d, n);
    }
  }

  lemma UserArrives(logged: seq<Name>, accounts: set<Name>, clients: Clients, c: Client, s: Session, more: set<Name>)
    requires UsersInv(logged, accounts, clients) && c in clients && clients[c].Login?
    requires Named(s) && s.user !in logged && s.user in more && accounts <= more
    ensures UsersInv(logged + [s.user], more, clients[c := s])
  {
    var after := clients[c := s];
    forall n | n in logged + [s.user]
      ensures exists d :: IsSessionOf(after, d, n)
    {
      if n == s.user {
        assert IsSessionOf(after, c, n);
      } else {
        var d :| IsSessionOf(clients, d, n);
        assert IsSessionOf(after, d, n);
      }
    }
  }

  /** The user of client `c` goes: back to the login screen, or with the connection. */
  lemma UserLeaves(logged: seq<Name>, accounts: set<Name>, clients: Clients, c: Client, after: Clients, left: set<Name>)
    requires UsersInv(logged, accounts, clients) && c in clients && Named(clients[c])
    requires OthersKept(clients, after, c) && (c in after ==> after[c].Login?)
    requires accounts - {clients[c].user} <= left
    ensures UsersInv(Without(logged, clients[c].user), left, after)
  {
    hide Without;
    var user := clients[c].user;
    WithoutMembers(logged, user);
    WithoutDistinct(logged, user);
    forall n | n in Without(logged, user)
      ensures exists d :: IsSessionOf(after, d, n)
    {
      var d :| IsSessionOf(clients, d, n);
      assert IsSessionOf(after, d, n);
    }
    assert forall d :: d in after && Named(after[d]) ==> d in clients && d != c && after[d] == clients[d];
  }

  /** Login screens come and go. */
  lemma UsersUntouched(logged: seq<Name>, accounts: set<Name>, clients: Clients, c: Client, after: Clients)
    requires UsersInv(logged, accounts, clients) && OthersKept(clients, after, c)
    requires (c in clients ==> clients[c].Login?) && (c in after ==> after[c].Login?)
    ensures UsersInv(logged, accounts, after)
  {
    hide Distinct;
    SameNamedSessions(clients, c, after);
    forall n | n in logged
      ensures exists d :: IsSessionOf(after, d, n)
    {
      var d :| IsSessionOf(clients, d, n);
      assert IsSessionOf(after, d, n);
    }
  }

  lemma SameNamedSessions(clients: Clients, c: Client, after: Clients)
    requires OthersKept(clients, after, c)
    requires (c in clients ==> clients[c].Login?) && (c in after ==> after[c].Login?)
    ensures forall d :: d in after && Named(after[d]) ==> d in clients && after[d] == clients[d]
    ensures forall d, n :: IsSessionOf(clients, d, n) ==> IsSessionOf(after, d, n)
  {
  }

  predicate OthersKept(clients: Clients, after: Clients, c: Client) {
    && (forall d :: d in clients && d != c ==> d in after && after[d] == clients[d])
    && (forall d :: d in after && d != c ==> d in clients)
  }

  // ----- moving seats -----

  /** Everybody still has a seat if every seat left was there before, or is the one of `c`. */
  lemma SeatsStillTaken(rooms: map<Uuid, RoomValue>, clients: Clients,
                        newRooms: map<Uuid, RoomValue>, after: Clients, c: Client)
    requires SeatsTaken(rooms, clients) && OthersKept(clients, after, c)
    requires forall u, n :: u in newRooms && n in newRooms[u].users ==>
               || SitsAt(after, c, n, u)
               || (u in rooms && n in rooms[u].users && !SitsAt(clients, c, n, u))
    ensures SeatsTaken(newRooms, after)
  {
    forall u, n | u in newRooms && n in newRooms[u].users
      ensures exists d :: SitsAt(after, d, n, u)
    {
      if !SitsAt(after, c, n, u) {
        var d :| SitsAt(clients, d, n, u);
        assert SitsAt(after, d, n, u);
      }
    }
  }

  predicate HasSeat(s: Session) {
    s.Member? || s.Admin? || s.Playing?
  }

  /** Nothing changes about the rooms while client `c` has no seat before and after. */
  lemma SeatsUntouched(rooms: map<Uuid, RoomValue>, games: map<Uuid, GameValue>,
                       clients: Clients, c: Client, after: Clients)
    requires SeatsInv(rooms, games, clients) && OthersKept(clients, after, c)
    requires c in clients ==> !HasSeat(clients[c])
    requires c in after ==> !HasSeat(after[c]) && SessionOk(rooms, games, after[c])
    ensures SeatsInv(rooms, games, after)
  {
    hide RoomOk;
    SeatsStillTaken(rooms, clients, rooms, after, c);
    assert forall d :: d in after && d != c ==> d in clients && after[d] == clients[d];
  }

  /** A user sits where his session says, and nowhere else. */
  lemma OnlySeat(w: World, c: Client, n: Name, u: Uuid)
    requires Inv(w) && c in w.clients && Named(w.clients[c]) && w.clients[c].user == n
    requires u in w.hub.rooms && n in w.hub.rooms[u].users
    ensures Seated(w.clients[c], n, u)
  {
    var d :| SitsAt(w.clients, d, n, u);
  }

  /** No user is in two rooms. */
  lemma OneRoomEach(w: World, n: Name, u: Uuid, v: Uuid)
    requires Inv(w)
    requires u in w.hub.rooms && n in w.hub.rooms[u].users && v in w.hub.rooms && n in w.hub.rooms[v].users
    ensures u == v
  {
    var c :| SitsAt(w.clients, c, n, u);
    OnlySeat(w, c, n, v);
  }
}
