/** How leaving a room or a game, by request or by disconnection, keeps the invariant of the server. */
module LeaveSteps {
  import opened Names
  import opened Scores
  import opened Statistics
  import opened Games
  import opened Sessions
  import opened SessionInvariant
  import opened SessionSteps
  import opened RoomSteps

  // ----- seats -----

  /** The rooms after `user` left room `uuid`: the room may be dropped once it is empty. */
  ghost predicate RoomLeft(rooms: map<Uuid, RoomValue>, uuid: Uuid, user: Name, newRooms: map<Uuid, RoomValue>) {
    uuid in rooms &&
    var r := RoomWithout(rooms[uuid], user);
    newRooms == rooms[uuid := r] || (r.users == [] && newRooms == rooms - {uuid})
  }

  /** The games after `user` left game `uuid`, if there is one: an empty game is dropped. */
  ghost predicate GameLeft(games: map<Uuid, GameValue>, uuid: Uuid, user: Name, newGames: map<Uuid, GameValue>) {
    if uuid !in games then newGames == games
    else if Without(games[uuid].online, user) == [] then newGames == games - {uuid}
    else
      && uuid in newGames && newGames == games[uuid := newGames[uuid]]
      && newGames[uuid] == games[uuid].(online := Without(games[uuid].online, user), players := newGames[uuid].players)
  }

  /** A session other than the leaver's keeps what it relies on. */
  lemma OtherSessionOk(rooms: map<Uuid, RoomValue>, games: map<Uuid, GameValue>, uuid: Uuid, user: Name,
                       newRooms: map<Uuid, RoomValue>, newGames: map<Uuid, GameValue>, s: Session)
    requires RoomLeft(rooms, uuid, user, newRooms) && GameLeft(games, uuid, user, newGames)
    requires SessionOk(rooms, games, s) && (Named(s) ==> s.user != user)
    ensures SessionOk(newRooms, newGames, s)
  {
    hide Without;
    WithoutMembers(rooms[uuid].users, user);
    if uuid in games {
      WithoutMembers(games[uuid].online, user);
    }
  }

  lemma SeatLeft(rooms: map<Uuid, RoomValue>, games: map<Uuid, GameValue>, clients: Clients, c: Client,
                 after: Clients, newRooms: map<Uuid, RoomValue>, newGames: map<Uuid, GameValue>)
    requires SeatsInv(rooms, games, clients) && OnlySession(clients, c) && HasSeat(clients[c])
    requires RoomLeft(rooms, clients[c].room, clients[c].user, newRooms)
    requires GameLeft(games, clients[c].room, clients[c].user, newGames)
    requires OthersKept(clients, after, c) && (c in after ==> after[c].Menu?)
    ensures SeatsInv(newRooms, newGames, after)
  {
    hide GameLeft, RoomOk;
    var (user, uuid) := (clients[c].user, clients[c].room);
    RoomsOkLeft(rooms, uuid, user, newRooms);
    WithoutMembers(rooms[uuid].users, user);
    hide Without;
    SeatsStillTaken(rooms, clients, newRooms, after, c);
    hide RoomLeft, SeatsTaken;
    forall d | d in after
      ensures SessionOk(newRooms, newGames, after[d])
    {
      if d != c {
        assert after[d] == clients[d] && !SameUser(clients[d], clients[c]);
        OtherSessionOk(rooms, games, uuid, user, newRooms, newGames, clients[d]);
      }
    }
    hide SessionOk;
    assert forall d :: d in after && d != c ==> after[d] == clients[d];
  }

  lemma RoomsOkLeft(rooms: map<Uuid, RoomValue>, uuid: Uuid, user: Name, newRooms: map<Uuid, RoomValue>)
    requires RoomLeft(rooms, uuid, user, newRooms) && forall u :: u in rooms ==> RoomOk(rooms[u])
    ensures forall u :: u in newRooms ==> RoomOk(newRooms[u])
  {
    WithoutMembers(rooms[uuid].users, user);
    WithoutDistinct(rooms[uuid].users, user);
    hide Without;
  }

  lemma MatchLeft(rooms: map<Uuid, RoomValue>, games: map<Uuid, GameValue>, uuid: Uuid, user: Name,
                  newRooms: map<Uuid, RoomValue>, newGames: map<Uuid, GameValue>)
    requires GamesMatch(rooms, games)
    requires RoomLeft(rooms, uuid, user, newRooms) && GameLeft(games, uuid, user, newGames)
    ensures GamesMatch(newRooms, newGames)
  {
    assert Without([], user) == [];
    hide Without;
  }

  // ----- tables -----

  /** Writing results keeps every row the history of its ledger. */
  lemma WrittenKeepsTables(h: Hub, clients: Clients, pending: set<Name>, sent: map<Name, GameData>, env: Env)
    requires TablesInv(h, clients, pending)
    requires HaveAnswers(sent) && sent.Keys !! pending
    ensures TablesInv(Written(h, sent, env), clients, pending)
  {
    var after := Written(h, sent, env);
    forall n | n in after.rows
      ensures after.rows[n] == History(after.base[n], after.ledger[n])
    {
      if n in sent && n !in env.failing {
        HistoryExtends(h.base[n], h.ledger[n], OutcomeOf(sent[n], env.undefined));
      }
    }
  }

  /** Nobody whose result is sent is still being verified. */
  lemma SentAreVerified(w: World, uuid: Uuid, user: Name, env: Env)
    requires Inv(w) && uuid in w.hub.games && user in w.hub.games[uuid].online && Monotone(w.now, env.readings)
    ensures Removable(w.hub, uuid, user)
    ensures forall n :: n in Submissions(w.hub.games[uuid], user, env.readings) ==> n !in w.pending
  {
    var g := w.hub.games[uuid];
    GameRecordsExist(g, w.now);
    SubmissionsAreTheNewlyMarked(g, user, w.now, env.readings);
    forall n | n in Submissions(g, user, env.readings)
      ensures n !in w.pending
    {
      assert n in g.online;
      assert n in w.hub.rooms[uuid].users;
      PlayersAreVerified(w, uuid, n);
    }
  }

  lemma PlayersAreVerified(w: World, uuid: Uuid, n: Name)
    requires Inv(w) && uuid in w.hub.rooms && n in w.hub.rooms[uuid].users
    ensures n !in w.pending
  {
    var c :| SitsAt(w.clients, c, n, uuid);
    if n in w.pending {
      var d :| IsSessionOf(w.clients, d, n) && w.clients[d].Verification?;
      assert SameUser(w.clients[c], w.clients[d]);
    }
  }

  // ----- removal from the game -----

  lemma RemovalEffects(w: World, uuid: Uuid, user: Name, env: Env)
    requires Inv(w) && uuid in w.hub.games && user in w.hub.games[uuid].online && Monotone(w.now, env.readings)
    ensures Removable(w.hub, uuid, user)
    ensures var after := RemovedFromGame(w.hub, uuid, user, env);
            && after == w.hub.(games := after.games, rows := after.rows, ledger := after.ledger)
            && GameLeft(w.hub.games, uuid, user, after.games)
            && GamesInv(after.games, env.readings.third)
            && TablesInv(after, w.clients, w.pending)
  {
    SentAreVerified(w, uuid, user, env);
    var g := w.hub.games[uuid];
    SubmissionsHaveAnswers(g, user, env.readings);
    hide Games.Leave, Submissions, GameInv, GamesInv, TablesInv, UsersInv, SeatsInv, GameLeft, Written;
    GamesAfterRemoval(w.hub.games, uuid, user, w.now, env.readings);
    WrittenKeepsTables(w.hub, w.clients, w.pending, Submissions(g, user, env.readings), env);
    WrittenChanges(w.hub, Submissions(g, user, env.readings), env);
    TablesIgnoreLogins(Written(w.hub, Submissions(g, user, env.readings), env),
                       RemovedFromGame(w.hub, uuid, user, env), w.clients, w.pending);
  }

  lemma WrittenChanges(h: Hub, sent: map<Name, GameData>, env: Env)
    requires HaveAnswers(sent)
    ensures var after := Written(h, sent, env);
            after == h.(rows := after.rows, ledger := after.ledger)
  {
  }

  lemma GamesAfterRemoval(games: map<Uuid, GameValue>, uuid: Uuid, user: Name, now: nat, r: Readings)
    requires GamesInv(games, now) && uuid in games && user in games[uuid].online && Monotone(now, r)
    ensures user in games[uuid].players
    ensures var after := Games.Leave(games[uuid], user, r);
            var newGames := if after.online == [] then games - {uuid} else games[uuid := after];
            GameLeft(games, uuid, user, newGames) && GamesInv(newGames, r.third)
  {
    LeaveEffects(games[uuid], user, now, r);
    LeaveKeepsInv(games[uuid], user, now, r);
    hide Games.Leave, GameInv, Without;
    GamesLater(games, now, r.third);
  }

  /** With the user out of the room and the game, whichever of the two there was, the rest follows. */
  lemma LeaverKeepsInv(w: World, c: Client, exit: bool, hub: Hub, later: nat)
    requires Inv(w) && c in w.clients && HasSeat(w.clients[c]) && w.now <= later
    requires RoomLeft(w.hub.rooms, w.clients[c].room, w.clients[c].user, hub.rooms)
    requires GameLeft(w.hub.games, w.clients[c].room, w.clients[c].user, hub.games)
    requires GamesInv(hub.games, later) && TablesInv(hub, w.clients, w.pending)
    requires hub.logged == if exit then Without(w.hub.logged, w.clients[c].user) else w.hub.logged
    requires hub.accounts == w.hub.accounts
    ensures Inv(w.(hub := hub, now := later,
                   clients := if exit then w.clients - {c} else w.clients[c := Menu(w.clients[c].user)]))
  {
    var user := w.clients[c].user;
    var after := if exit then w.clients - {c} else w.clients[c := Menu(user)];
    IsOnlySession(w, c);
    LeaverGone(w.clients, c, exit);
    hide UsersInv, SeatsInv, TablesInv, GamesInv, GamesMatch, RoomLeft, GameLeft, Without, OnlySession, OthersKept;
    LeaverUsers(w.hub.logged, w.hub.accounts.Keys, w.clients, c, exit);
    SeatLeft(w.hub.rooms, w.hub.games, w.clients, c, after, hub.rooms, hub.games);
    MatchLeft(w.hub.rooms, w.hub.games, w.clients[c].room, user, hub.rooms, hub.games);
    TablesKept(hub, w.clients, w.pending, c, after);
  }

  lemma LeaverGone(clients: Clients, c: Client, exit: bool)
    requires c in clients && Named(clients[c])
    ensures var after := if exit then clients - {c} else clients[c := Menu(clients[c].user)];
            OthersKept(clients, after, c) && (c in after ==> after[c].Menu?)
  {
  }

  lemma LeaverUsers(logged: seq<Name>, accounts: set<Name>, clients: Clients, c: Client, exit: bool)
    requires UsersInv(logged, accounts, clients) && c in clients && Named(clients[c])
    ensures UsersInv(if exit then Without(logged, clients[c].user) else logged, accounts,
                     if exit then clients - {c} else clients[c := Menu(clients[c].user)])
  {
    hide UsersInv, Without;
    if exit {
      UserLeaves(logged, accounts, clients, c, clients - {c}, accounts);
    } else {
      UsersStay(logged, accounts, clients, c, Menu(clients[c].user));
    }
  }

  // ----- the handlers -----

  /** The hub a leaver's handler starts from: on disconnection he has been logged out before. */
  function LeaverHub(h: Hub, user: Name, exit: bool): Hub {
    if exit then LoggedOut(h, user) else h
  }

  lemma LeaveGameKeepsInv(w: World, c: Client, exit: bool, env: Env)
    requires Inv(w) && c in w.clients && w.clients[c].Playing? && Monotone(w.now, env.readings)
    requires LookupsSucceed(w.hub, w.clients[c])
    requires !RemovalFails(w.hub, w.clients[c].room, w.clients[c].user, env)
    ensures var (user, uuid) := (w.clients[c].user, w.clients[c].room);
            Inv(w.(hub := DoLeaveGame(LeaverHub(w.hub, user, exit), user, uuid, env).0,
                   clients := if exit then w.clients - {c} else w.clients[c := Menu(user)],
                   now := env.readings.third))
  {
    var (user, uuid) := (w.clients[c].user, w.clients[c].room);
    assert SessionOk(w.hub.rooms, w.hub.games, w.clients[c]);
    RemovalEffects(w, uuid, user, env);
    var removed := RemovedFromGame(w.hub, uuid, user, env);
    var hub := DoLeaveGame(LeaverHub(w.hub, user, exit), user, uuid, env).0;
    LogoutCommutes(w.hub, uuid, user, exit, env);
    hide RemovedFromGame, Without, UsersInv, SeatsInv, TablesInv, GamesInv, GamesMatch, GameLeft;
    TablesIgnoreLogins(removed, hub, w.clients, w.pending);
    LeaverKeepsInv(w, c, exit, hub, env.readings.third);
  }

  /** Logging out first changes nothing about the removal. */
  lemma LogoutCommutes(h: Hub, uuid: Uuid, user: Name, exit: bool, env: Env)
    requires Removable(h, uuid, user)
    ensures RemovedFromGame(LeaverHub(h, user, exit), uuid, user, env)
            == LeaverHub(RemovedFromGame(h, uuid, user, env), user, exit)
  {
    hide Games.Leave, Submissions, Without;
    SubmissionsHaveAnswers(h.games[uuid], user, env.readings);
  }

  lemma LeaveRoomKeepsInv(w: World, c: Client, exit: bool, env: Env)
    requires Inv(w) && c in w.clients && w.clients[c].Member? && Monotone(w.now, env.readings)
    requires w.clients[c].room in w.hub.rooms && LookupsSucceed(w.hub, w.clients[c])
    ensures var (user, uuid) := (w.clients[c].user, w.clients[c].room);
            Inv(w.(hub := DoLeaveRoom(LeaverHub(w.hub, user, exit), user, uuid, env).0,
                   clients := if exit then w.clients - {c} else w.clients[c := Menu(user)],
                   now := env.readings.third))
  {
    var (user, uuid) := (w.clients[c].user, w.clients[c].room);
    assert SessionOk(w.hub.rooms, w.hub.games, w.clients[c]);
    var hub := DoLeaveRoom(LeaverHub(w.hub, user, exit), user, uuid, env).0;
    if w.hub.rooms[uuid].active {
      RemovalEffects(w, uuid, user, env);
      LogoutCommutes(w.hub, uuid, user, exit, env);
      hide RemovedFromGame, Without, UsersInv, SeatsInv, TablesInv, GamesInv, GamesMatch, GameLeft;
      TablesIgnoreLogins(RemovedFromGame(w.hub, uuid, user, env), hub, w.clients, w.pending);
      LeaverKeepsInv(w, c, exit, hub, env.readings.third);
    } else {
      GamesLater(w.hub.games, w.now, env.readings.third);
      assert GameLeft(w.hub.games, uuid, user, hub.games);
      hide RemovedFromGame, Without, UsersInv, SeatsInv, TablesInv, GamesInv, GamesMatch, GameLeft;
      TablesIgnoreLogins(w.hub, hub, w.clients, w.pending);
      LeaverKeepsInv(w, c, exit, hub, env.readings.third);
    }
  }

  /** A member of a room that is gone: nothing is left to leave but the login. */
  lemma StaleMemberExitKeepsInv(w: World, c: Client, later: nat)
    requires Inv(w) && c in w.clients && w.clients[c].Member? && w.clients[c].room !in w.hub.rooms && w.now <= later
    ensures Inv(w.(hub := LoggedOut(w.hub, w.clients[c].user), clients := w.clients - {c}, now := later))
  {
    var user := w.clients[c].user;
    var menu := w.(clients := w.clients[c := Menu(user)], now := w.now);
    SwitchKeepsInv(w, c, Menu(user), w.now);
    assert menu.clients - {c} == w.clients - {c};
    LogOutKeepsInv(menu, c, w.clients - {c}, later);
  }

  /** When the leaver's result cannot be written he stays in the room, where he has no session any more. */
  lemma FailedLeaveBreaksInv(w: World, c: Client, exit: bool, env: Env, after: World)
    requires Inv(w) && c in w.clients && w.clients[c].Playing? && Monotone(w.now, env.readings)
    requires LookupsSucceed(w.hub, w.clients[c])
    requires RemovalFails(w.hub, w.clients[c].room, w.clients[c].user, env)
    requires after.hub == DoLeaveGame(LeaverHub(w.hub, w.clients[c].user, exit), w.clients[c].user, w.clients[c].room, env).0
    requires after.clients == if exit then w.clients - {c} else w.clients[c := Menu(w.clients[c].user)]
    ensures w.clients[c].room in after.hub.rooms
    ensures w.clients[c].user in after.hub.rooms[w.clients[c].room].users
    ensures !SeatsTaken(after.hub.rooms, after.clients)
  {
    hide SessionOk, UsersInv, SeatsInv, TablesInv, GamesInv, GamesMatch, RemovedFromGame, RemovedFromRoom;
    var (user, uuid) := (w.clients[c].user, w.clients[c].room);
    PlayerSits(w, c);
    IsOnlySession(w, c);
    FailureKeepsRooms(w.hub, uuid, user, exit, env);
    hide RemovalFails, DoLeaveGame;
    Stranded(w.clients, c, w.hub.rooms, uuid, after.clients);
  }

  lemma PlayerSits(w: World, c: Client)
    requires Inv(w) && c in w.clients && w.clients[c].Playing?
    ensures w.clients[c].room in w.hub.rooms
    ensures w.clients[c].user in w.hub.rooms[w.clients[c].room].users
  {
    assert SessionOk(w.hub.rooms, w.hub.games, w.clients[c]);
  }

  lemma FailureKeepsRooms(h: Hub, uuid: Uuid, user: Name, exit: bool, env: Env)
    requires Removable(h, uuid, user) && uuid in h.rooms && RemovalFails(h, uuid, user, env)
    ensures DoLeaveGame(LeaverHub(h, user, exit), user, uuid, env).0.rooms == h.rooms
  {
    hide Written, Games.Leave, Submissions, Without;
    LogoutCommutes(h, uuid, user, exit, env);
    SubmissionsHaveAnswers(h.games[uuid], user, env.readings);
    WrittenChanges(h, Submissions(h.games[uuid], user, env.readings), env);
  }

  /** A user in a room without a session there. */
  lemma Stranded(clients: Clients, c: Client, rooms: map<Uuid, RoomValue>, uuid: Uuid, after: Clients)
    requires OnlySession(clients, c) && uuid in rooms && clients[c].user in rooms[uuid].users
    requires OthersKept(clients, after, c) && (c in after ==> !HasSeat(after[c]))
    ensures !SeatsTaken(rooms, after)
  {
    var user := clients[c].user;
    forall d
      ensures !SitsAt(after, d, user, uuid)
    {
      if d in after && d != c {
        assert after[d] == clients[d] && !SameUser(clients[d], clients[c]);
      }
    }
  }
}
