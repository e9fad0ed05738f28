/** How the handlers of rooms and games keep the invariant of the server. */
module RoomSteps {
  import opened Widths
  import opened Names
  import opened Questions
  import opened Games
  import opened Sessions
  import opened SessionInvariant
  import opened SessionSteps

  /** No other session has the user of `c`. */
  ghost predicate OnlySession(clients: Clients, c: Client) {
    c in clients && Named(clients[c]) && forall d :: d in clients && SameUser(clients[d], clients[c]) ==> d == c
  }

  lemma IsOnlySession(w: World, c: Client)
    requires Inv(w) && c in w.clients && Named(w.clients[c])
    ensures OnlySession(w.clients, c)
  {
  }

  // ----- creating a room -----

  /** A member who still holds the id of a room that was closed. */
  predicate HoldsRoom(s: Session, uuid: Uuid) {
    s.Member? && s.room == uuid
  }

  ghost predicate UnheldRoom(clients: Clients, uuid: Uuid) {
    forall d :: d in clients ==> !HoldsRoom(clients[d], uuid)
  }

  lemma RoomOpened(rooms: map<Uuid, RoomValue>, games: map<Uuid, GameValue>, clients: Clients,
                   c: Client, user: Name, uuid: Uuid, r: RoomValue)
    requires SeatsInv(rooms, games, clients) && GamesMatch(rooms, games)
    requires c in clients && clients[c] == Menu(user) && uuid !in rooms
    requires RoomOk(r) && r.users == [user] && !r.active
    requires UnheldRoom(clients, uuid)
    ensures SeatsInv(rooms[uuid := r], games, clients[c := Admin(user, uuid)])
    ensures GamesMatch(rooms[uuid := r], games)
  {
    hide RoomOk;
    var after, newRooms := clients[c := Admin(user, uuid)], rooms[uuid := r];
    SeatsStillTaken(rooms, clients, newRooms, after, c);
    forall d | d in after
      ensures SessionOk(newRooms, games, after[d])
    {
      if d != c {
        assert SessionOk(rooms, games, clients[d]);
        assert !HoldsRoom(clients[d], uuid);
      }
    }
    forall d, e | d in after && e in after && SameAdminRoom(after[d], after[e])
      ensures d == e
    {
      assert d != c ==> SessionOk(rooms, games, clients[d]);
      assert e != c ==> SessionOk(rooms, games, clients[e]);
    }
  }

  lemma CreateRoomKeepsInv(w: World, c: Client, uuid: Uuid, r: RoomValue, later: nat)
    requires Inv(w) && c in w.clients && w.clients[c].Menu? && uuid !in w.hub.rooms && w.now <= later
    requires RoomOk(r) && r.users == [w.clients[c].user] && !r.active
    requires UnheldRoom(w.clients, uuid)
    ensures Inv(w.(hub := w.hub.(rooms := w.hub.rooms[uuid := r]),
                   clients := w.clients[c := Admin(w.clients[c].user, uuid)], now := later))
  {
    hide UsersInv, SeatsInv, TablesInv, GamesInv, GamesMatch, RoomOk;
    var user := w.clients[c].user;
    var after := w.clients[c := Admin(user, uuid)];
    UsersStay(w.hub.logged, w.hub.accounts.Keys, w.clients, c, Admin(user, uuid));
    RoomOpened(w.hub.rooms, w.hub.games, w.clients, c, user, uuid, r);
    GamesLater(w.hub.games, w.now, later);
    TablesKept(w.hub, w.clients, w.pending, c, after);
    TablesIgnoreLogins(w.hub, w.hub.(rooms := w.hub.rooms[uuid := r]), after, w.pending);
  }

  /** A stale member would find himself attached to a room he never joined. */
  lemma ReusedRoomBreaksInv(w: World, c: Client, d: Client, uuid: Uuid, r: RoomValue, after: World)
    requires Inv(w) && c in w.clients && w.clients[c].Menu?
    requires d in w.clients && HoldsRoom(w.clients[d], uuid)
    requires r.users == [w.clients[c].user] && uuid in after.hub.rooms && after.hub.rooms[uuid] == r
    requires d in after.clients && after.clients[d] == w.clients[d]
    ensures !Inv(after)
  {
    assert !SameUser(w.clients[c], w.clients[d]);
    assert !SessionOk(after.hub.rooms, after.hub.games, after.clients[d]);
  }

  // ----- joining a room -----

  lemma RoomJoined(rooms: map<Uuid, RoomValue>, games: map<Uuid, GameValue>, clients: Clients,
                   c: Client, user: Name, uuid: Uuid)
    requires SeatsInv(rooms, games, clients) && GamesMatch(rooms, games)
    requires c in clients && clients[c] == Menu(user) && uuid in rooms
    requires CanJoin(rooms[uuid], user) && !rooms[uuid].active
    ensures var r := rooms[uuid].(users := rooms[uuid].users + [user]);
            && SeatsInv(rooms[uuid := r], games, clients[c := Member(user, uuid)])
            && GamesMatch(rooms[uuid := r], games)
  {
    var r := rooms[uuid].(users := rooms[uuid].users + [user]);
    var after, newRooms := clients[c := Member(user, uuid)], rooms[uuid := r];
    assert RoomOk(rooms[uuid]) && RoomOk(r);
    hide RoomOk;
    SeatsStillTaken(rooms, clients, newRooms, after, c);
    forall d | d in after
      ensures SessionOk(newRooms, games, after[d])
    {
      if d != c {
        assert SessionOk(rooms, games, clients[d]);
      }
    }
  }

  lemma JoinRoomKeepsInv(w: World, c: Client, uuid: Uuid, later: nat)
    requires Inv(w) && c in w.clients && w.clients[c].Menu? && uuid in w.hub.rooms && w.now <= later
    requires CanJoin(w.hub.rooms[uuid], w.clients[c].user) && !w.hub.rooms[uuid].active
    ensures var (hub, s) := DoJoinRoom(w.hub, w.clients[c].user, uuid);
            Inv(w.(hub := hub, clients := w.clients[c := s], now := later))
  {
    hide UsersInv, SeatsInv, TablesInv, GamesInv, GamesMatch;
    var user := w.clients[c].user;
    var (hub, s) := DoJoinRoom(w.hub, user, uuid);
    UsersStay(w.hub.logged, w.hub.accounts.Keys, w.clients, c, s);
    RoomJoined(w.hub.rooms, w.hub.games, w.clients, c, user, uuid);
    GamesLater(w.hub.games, w.now, later);
    TablesKept(w.hub, w.clients, w.pending, c, w.clients[c := s]);
    TablesIgnoreLogins(w.hub, hub, w.clients[c := s], w.pending);
  }

  /** Whoever joins a room that plays already is in the room but not in its game. */
  lemma LateJoinBreaksInv(w: World, user: Name, uuid: Uuid, after: World)
    requires Inv(w) && uuid in w.hub.rooms && CanJoin(w.hub.rooms[uuid], user) && w.hub.rooms[uuid].active
    requires after.hub == DoJoinRoom(w.hub, user, uuid).0
    ensures !GamesMatch(after.hub.rooms, after.hub.games) && !Inv(after)
  {
    var before, now := w.hub.rooms[uuid].users, after.hub.rooms[uuid].users;
    assert |now| == |before| + 1;
    if uuid in w.hub.games {
      assert w.hub.games[uuid].online == before;
      assert after.hub.games[uuid].online != now;
    }
  }

  // ----- closing a room -----

  lemma RoomClosed(rooms: map<Uuid, RoomValue>, games: map<Uuid, GameValue>, clients: Clients,
                   c: Client, after: Clients, uuid: Uuid)
    requires SeatsInv(rooms, games, clients) && GamesMatch(rooms, games)
    requires c in clients && clients[c].Admin? && clients[c].room == uuid
    requires OthersKept(clients, after, c) && (c in after ==> after[c].Menu?)
    ensures SeatsInv(rooms - {uuid}, games, after)
    ensures GamesMatch(rooms - {uuid}, games)
  {
    hide RoomOk;
    assert SessionOk(rooms, games, clients[c]);
    SeatsStillTaken(rooms, clients, rooms - {uuid}, after, c);
    forall d | d in after
      ensures SessionOk(rooms - {uuid}, games, after[d])
    {
      if d != c {
        assert SessionOk(rooms, games, clients[d]) && after[d] == clients[d];
        assert !SameAdminRoom(clients[d], clients[c]);
      }
    }
    assert forall d :: d in after && d != c ==> after[d] == clients[d];
  }

  /** Closing the room, from the menu's side or on disconnection. */
  lemma CloseRoomKeepsInv(w: World, c: Client, exit: bool, later: nat)
    requires Inv(w) && c in w.clients && w.clients[c].Admin? && w.now <= later
    ensures var (user, uuid) := (w.clients[c].user, w.clients[c].room);
            Inv(w.(hub := DoCloseRoom(if exit then LoggedOut(w.hub, user) else w.hub, user, uuid).0,
                   clients := if exit then w.clients - {c} else w.clients[c := Menu(user)], now := later))
  {
    hide UsersInv, SeatsInv, TablesInv, GamesInv, GamesMatch;
    var (user, uuid) := (w.clients[c].user, w.clients[c].room);
    var hub := DoCloseRoom(if exit then LoggedOut(w.hub, user) else w.hub, user, uuid).0;
    var after := if exit then w.clients - {c} else w.clients[c := Menu(user)];
    if exit {
      UserLeaves(w.hub.logged, w.hub.accounts.Keys, w.clients, c, after, w.hub.accounts.Keys);
    } else {
      UsersStay(w.hub.logged, w.hub.accounts.Keys, w.clients, c, Menu(user));
    }
    RoomClosed(w.hub.rooms, w.hub.games, w.clients, c, after, uuid);
    GamesLater(w.hub.games, w.now, later);
    TablesKept(w.hub, w.clients, w.pending, c, after);
    TablesIgnoreLogins(w.hub, hub, after, w.pending);
  }

  // ----- starting a game -----

  lemma GameStarted(rooms: map<Uuid, RoomValue>, games: map<Uuid, GameValue>, clients: Clients,
                    c: Client, user: Name, uuid: Uuid, g: GameValue)
    requires SeatsInv(rooms, games, clients) && GamesMatch(rooms, games)
    requires c in clients && clients[c] == Admin(user, uuid) && uuid in rooms
    requires g.online == rooms[uuid].users
    ensures var newRooms := rooms[uuid := rooms[uuid].(active := true)];
            && SeatsInv(newRooms, games[uuid := g], clients[c := Playing(user, uuid, None)])
            && GamesMatch(newRooms, games[uuid := g])
  {
    var newRooms, newGames := rooms[uuid := rooms[uuid].(active := true)], games[uuid := g];
    var after := clients[c := Playing(user, uuid, None)];
    assert RoomOk(rooms[uuid]) && RoomOk(newRooms[uuid]);
    hide RoomOk;
    assert SessionOk(rooms, games, clients[c]);
    SeatsStillTaken(rooms, clients, newRooms, after, c);
    forall d | d in after
      ensures SessionOk(newRooms, newGames, after[d])
    {
      if d != c {
        assert SessionOk(rooms, games, clients[d]);
        assert !SameAdminRoom(clients[d], clients[c]);
      }
    }
  }

  lemma StartGameKeepsInv(w: World, c: Client, questions: seq<Question>, started: nat, later: nat)
    requires Inv(w) && c in w.clients && w.clients[c].Admin? && w.now <= started <= later
    requires w.clients[c].room in w.hub.rooms
    requires var r := w.hub.rooms[w.clients[c].room]; |r.users| > 1 && |questions| == r.questionCount
    requires forall q :: q in questions ==> Sound(q)
    ensures var (hub, s) := DoStartGame(w.hub, w.clients[c].user, w.clients[c].room, Some(questions), started);
            Inv(w.(hub := hub, clients := w.clients[c := s], now := later))
  {
    hide UsersInv, SeatsInv, TablesInv, GamesInv, GamesMatch, GameInv, NewGame;
    var (user, uuid) := (w.clients[c].user, w.clients[c].room);
    var (hub, s) := DoStartGame(w.hub, user, uuid, Some(questions), started);
    var r := w.hub.rooms[uuid];
    var g := NewGame(questions, r.limit, r.users, started);
    FreshGameInv(w, uuid, questions, started, later);
    assert s == Playing(user, uuid, None) && hub.games == w.hub.games[uuid := g];
    assert hub.rooms == w.hub.rooms[uuid := r.(active := true)];
    assert hub == w.hub.(games := hub.games, rooms := hub.rooms);
    hide DoStartGame;
    UsersStay(w.hub.logged, w.hub.accounts.Keys, w.clients, c, s);
    GameStarted(w.hub.rooms, w.hub.games, w.clients, c, user, uuid, g);
    TablesKept(w.hub, w.clients, w.pending, c, w.clients[c := s]);
    TablesIgnoreLogins(w.hub, hub, w.clients[c := s], w.pending);
  }

  lemma FreshGameInv(w: World, uuid: Uuid, questions: seq<Question>, started: nat, later: nat)
    requires Inv(w) && uuid in w.hub.rooms && w.now <= started <= later
    requires |w.hub.rooms[uuid].users| > 1 && |questions| == w.hub.rooms[uuid].questionCount
    requires forall q :: q in questions ==> Sound(q)
    ensures NewGame(questions, w.hub.rooms[uuid].limit, w.hub.rooms[uuid].users, started).online ==
            w.hub.rooms[uuid].users
    ensures var r := w.hub.rooms[uuid];
            GamesInv(w.hub.games[uuid := NewGame(questions, r.limit, r.users, started)], later)
  {
    var r := w.hub.rooms[uuid];
    assert RoomOk(r);
    NewGameInv(questions, r.limit, r.users, started);
    LaterInv(NewGame(questions, r.limit, r.users, started), started, later);
    hide GameInv, NewGame;
    GamesLater(w.hub.games, w.now, later);
  }
}
