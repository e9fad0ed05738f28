/**
 What each request does to the whole state of the server, under its invariant: the new state is written out
 in its fields, and everything not mentioned stays.
 */
module Requests {
  import opened Widths
  import opened Names
  import opened Questions
  import opened Statistics
  import opened Games
  import opened Sessions
  import opened SessionInvariant
  import opened SessionSteps
  import opened LeaveSteps
  import opened ServerSafety
  import opened ServerRuns

  /** Nothing but the clock. */
  function Unmoved(w: World, env: Env): World {
    w.(now := env.readings.third)
  }

  /** Client `c` has a new handler, and the clock has moved. */
  function Moved(w: World, c: Client, s: Session, env: Env): World {
    w.(clients := w.clients[c := s], now := env.readings.third)
  }

  // ----- the login screen -----

  lemma LoggedIffSession(w: World, n: Name)
    requires Inv(w)
    ensures n in w.hub.logged <==> exists c :: IsSessionOf(w.clients, c, n)
  {
  }

  /** Logging in succeeds exactly for a readable account with this password whose user has no session; it then
      adds the user to the logged ones and shows him the menu.  Otherwise nothing happens. */
  lemma LogInServes(w: World, c: Client, name: Name, password: string, readable: bool, env: Env)
    requires Serves(w, c, LogIn(name, password, readable), env) && w.clients[c].Login?
    ensures After(w, Serve(c, LogIn(name, password, readable), env)) ==
            if && readable && name in w.hub.accounts && w.hub.accounts[name].password == password
               && forall d :: !IsSessionOf(w.clients, d, name)
            then Moved(w, c, Menu(name), env).(hub := w.hub.(logged := w.hub.logged + [name]))
            else Unmoved(w, env)
  {
    LoggedIffSession(w, name);
    hide Inv;
    var (hub, next) := Handle(w.hub, Login, LogIn(name, password, readable), env);
    PendingKept(w, hub, Login, next);
    assert w.clients[c := Login] == w.clients;
  }

  /** The tables with a new account in them. */
  function WithAccount(h: Hub, name: Name, account: Account): Hub {
    h.(accounts := h.accounts[name := account], rows := h.rows[name := Row(0, 0, 0, 0, 0)],
       base := h.base[name := Row(0, 0, 0, 0, 0)], ledger := h.ledger[name := []])
  }

  /**
   Signing up with valid credentials, a free name and a free email stores an account with just these, and an
   empty row.  If the login can be read and the email goes out, the user is logged in and verifies the emailed
   code with five tries; if the database deletes the account again, nothing is left; and otherwise it
   stays, unverified and logged out.
   */
  lemma SignUpServes(w: World, c: Client, req: Request, env: Env)
    requires Serves(w, c, req, env) && w.clients[c].Login? && req.SignUp?
    ensures var (name, account) := (req.name, Account(req.password, req.email));
            var hub := WithAccount(w.hub, name, account);
            After(w, Serve(c, req, env)) ==
            if || !req.valid || !req.stored || name in w.hub.accounts
               || (exists n :: n in w.hub.accounts && w.hub.accounts[n].email == req.email)
               || (req.readable && !req.emailed && env.deletes)
            then Unmoved(w, env)
            else if req.readable && req.emailed
            then Moved(w, c, Verification(name, req.email, req.code, 0), env).(
                   hub := hub.(logged := w.hub.logged + [name]), pending := w.pending + {name})
            else Unmoved(w, env).(hub := hub, pending := w.pending + {name})
  {
    hide Inv, TablesInv;
    var (hub, next) := Handle(w.hub, Login, req, env);
    assert w.clients[c := Login] == w.clients;
    if req.valid && req.stored && CanAdd(w.hub, req.name, req.email) {
      SignUpLogsIn(w, req.name, req.password, req.email);
      LoggedHaveAccounts(w);
      WithoutLast(w.hub.logged, req.name);
      NewAccountStays(w, req.name, Account(req.password, req.email), hub, next);
      if req.readable && !req.emailed && env.deletes {
        FailedSignUpLeavesNothingIff(w, req, true);
      }
    } else {
      PendingKept(w, hub, Login, next);
    }
  }

  lemma NewAccountStays(w: World, name: Name, account: Account, hub: Hub, next: Session)
    requires Inv(w) && name !in w.hub.accounts
    ensures hub.accounts == w.hub.accounts[name := account] ==> PendingAfter(w, hub, Login, next) == w.pending + {name}
    ensures hub.accounts == w.hub.accounts ==> PendingAfter(w, hub, Login, next) == w.pending
  {
  }

  // ----- email verification -----

  /** The right code leads to the menu; a wrong one counts, and the fifth ends in the login screen, with the
      account deleted if the database does it. */
  lemma SubmitCodeServes(w: World, c: Client, code: string, env: Env)
    requires Serves(w, c, SubmitCode(code), env) && w.clients[c].Verification?
    ensures var (s, h) := (w.clients[c], w.hub);
            var left := h.(logged := Without(h.logged, s.user));
            After(w, Serve(c, SubmitCode(code), env)) ==
            if code == s.code then Moved(w, c, Menu(s.user), env).(pending := w.pending - {s.user})
            else if s.tries < 4 then Moved(w, c, s.(tries := s.tries + 1), env)
            else if env.deletes then
              Moved(w, c, Login, env).(
                pending := w.pending - {s.user},
                hub := left.(accounts := h.accounts - {s.user}, rows := h.rows - {s.user},
                             base := h.base - {s.user}, ledger := h.ledger - {s.user}))
            else Moved(w, c, Login, env).(hub := left)
  {
    var (hub, next) := Handle(w.hub, w.clients[c], SubmitCode(code), env);
    VerifierHasAccount(w, c);
    if next.Verification? || (next.Login? && !env.deletes) {
      PendingKept(w, hub, w.clients[c], next);
    } else {
      AccountSettles(w, c, hub, next);
    }
    hide Inv;
  }

  lemma VerifierHasAccount(w: World, c: Client)
    requires Inv(w) && c in w.clients && w.clients[c].Verification?
    ensures w.clients[c].user in w.hub.accounts
  {
  }

  /** A new code counts once it is on its way; the tries stay. */
  lemma ResendCodeServes(w: World, c: Client, code: string, emailed: bool, env: Env)
    requires Serves(w, c, ResendCode(code, emailed), env) && w.clients[c].Verification?
    ensures var s := w.clients[c];
            After(w, Serve(c, ResendCode(code, emailed), env)) ==
            Moved(w, c, Verification(s.user, s.email, if emailed then code else s.code, s.tries), env)
  {
    hide Inv;
    PendingKept(w, w.hub, w.clients[c], Handle(w.hub, w.clients[c], ResendCode(code, emailed), env).1);
  }

  // ----- the menu -----

  lemma LogOutServes(w: World, c: Client, env: Env)
    requires Serves(w, c, LogOut, env) && w.clients[c].Menu?
    ensures After(w, Serve(c, LogOut, env)) ==
            Moved(w, c, Login, env).(hub := w.hub.(logged := Without(w.hub.logged, w.clients[c].user)))
  {
    hide Inv;
    PendingKept(w, LoggedOut(w.hub, w.clients[c].user), w.clients[c], Login);
  }

  /** A room is opened exactly for a name of four characters, two players, two questions and five seconds at
      least; it is then inactive, has these details, and its admin for its only user. */
  lemma CreateRoomServes(w: World, c: Client, req: Request, env: Env)
    requires Serves(w, c, req, env) && w.clients[c].Menu? && req.CreateRoom?
    ensures var user := w.clients[c].user;
            After(w, Serve(c, req, env)) ==
            if |req.roomName| >= 4 && req.maxPlayers >= 2 && req.questionCount >= 2 && req.limit >= 5
            then Moved(w, c, Admin(user, req.uuid), env).(
                   hub := w.hub.(rooms := w.hub.rooms[
                     req.uuid := RoomValue([user], req.maxPlayers, req.questionCount, req.limit, false)]))
            else Unmoved(w, env)
  {
    hide Inv;
    var (hub, next) := Handle(w.hub, w.clients[c], req, env);
    PendingKept(w, hub, w.clients[c], next);
    assert w.clients[c := w.clients[c]] == w.clients;
  }

  /** A user in the menu joins exactly a room that is registered and has space; that he is in it already does
      not happen. */
  lemma JoinRoomServes(w: World, c: Client, uuid: Uuid, env: Env)
    requires Serves(w, c, JoinRoom(uuid), env) && w.clients[c].Menu?
    ensures var user := w.clients[c].user;
            After(w, Serve(c, JoinRoom(uuid), env)) ==
            if uuid in w.hub.rooms && |w.hub.rooms[uuid].users| < w.hub.rooms[uuid].maxPlayers
            then
              var r := w.hub.rooms[uuid];
              Moved(w, c, Member(user, uuid), env).(
                hub := w.hub.(rooms := w.hub.rooms[uuid := r.(users := r.users + [user])]))
            else Unmoved(w, env)
  {
    var user := w.clients[c].user;
    if uuid in w.hub.rooms && user in w.hub.rooms[uuid].users {
      OnlySeat(w, c, user, uuid);
      assert false;
    }
    hide Inv;
    var (hub, next) := Handle(w.hub, w.clients[c], JoinRoom(uuid), env);
    PendingKept(w, hub, w.clients[c], next);
    assert w.clients[c := w.clients[c]] == w.clients;
  }

  // ----- a room's member -----

  /** A member who asks for the state of his room is sent back to the menu when it is gone, and into the game
      when it plays and its users can be read; he then is online in a game that is there. */
  lemma RoomStateServes(w: World, c: Client, readable: bool, env: Env)
    requires Serves(w, c, GetRoomState(readable), env) && w.clients[c].Member?
    ensures var (user, uuid) := (w.clients[c].user, w.clients[c].room);
            After(w, Serve(c, GetRoomState(readable), env)) ==
            if uuid !in w.hub.rooms then Moved(w, c, Menu(user), env)
            else if readable && w.hub.rooms[uuid].active then Moved(w, c, Playing(user, uuid, None), env)
            else Unmoved(w, env)
    ensures var (user, uuid) := (w.clients[c].user, w.clients[c].room);
            uuid in w.hub.rooms && w.hub.rooms[uuid].active ==> uuid in w.hub.games && user in w.hub.games[uuid].online
  {
    var s := w.clients[c];
    assert SessionOk(w.hub.rooms, w.hub.games, s);
    hide UsersInv, TablesInv, GamesInv, SeatsInv;
    PendingKept(w, w.hub, s, Handle(w.hub, s, GetRoomState(readable), env).1);
    assert w.clients[c := s] == w.clients;
  }

  /** Leaving a room that does not play takes just this user out of it; one that is gone is left by going back
      to the menu. */
  lemma LeaveIdleRoomServes(w: World, c: Client, env: Env)
    requires Serves(w, c, LeaveRoom, env) && w.clients[c].Member?
    requires w.clients[c].room in w.hub.rooms ==> !w.hub.rooms[w.clients[c].room].active
    ensures var (user, uuid) := (w.clients[c].user, w.clients[c].room);
            After(w, Serve(c, LeaveRoom, env)) ==
            if uuid !in w.hub.rooms then Moved(w, c, Menu(user), env)
            else
              var r := w.hub.rooms[uuid];
              Moved(w, c, Menu(user), env).(
                hub := w.hub.(rooms := w.hub.rooms[uuid := r.(users := Without(r.users, user))]))
  {
    hide Inv;
    var (hub, next) := Handle(w.hub, w.clients[c], LeaveRoom, env);
    PendingKept(w, hub, w.clients[c], next);
  }

  // ----- the room's admin -----

  lemma CloseRoomServes(w: World, c: Client, env: Env)
    requires Serves(w, c, CloseRoom, env) && w.clients[c].Admin?
    ensures After(w, Serve(c, CloseRoom, env)) ==
            Moved(w, c, Menu(w.clients[c].user), env).(hub := w.hub.(rooms := w.hub.rooms - {w.clients[c].room}))
  {
    hide Inv;
    PendingKept(w, DoCloseRoom(w.hub, w.clients[c].user, w.clients[c].room).0, w.clients[c], Menu(w.clients[c].user));
  }

  /** The game starts exactly with two users and as many questions as asked for; it has the room's users, all
      with blank records, the room's time limit, and starts at the moment of the request. */
  lemma StartGameServes(w: World, c: Client, questions: Option<seq<Question>>, env: Env)
    requires Serves(w, c, StartGame(questions), env) && w.clients[c].Admin?
    ensures var (user, uuid, after) := (w.clients[c].user, w.clients[c].room, After(w, Serve(c, StartGame(questions), env)));
            && uuid in w.hub.rooms
            && var r := w.hub.rooms[uuid];
               if |r.users| >= 2 && questions.Some? && |questions.value| == r.questionCount
               then
                 && uuid in after.hub.games
                 && var g := after.hub.games[uuid];
                 && g == GameValue(questions.value, r.limit, env.readings.first, r.users, g.players)
                 && (forall n :: n in g.players <==> n in r.users)
                 && (forall n :: n in r.users ==> IsBlank(g.players[n], questions.value, r.limit))
                 && after == Moved(w, c, Playing(user, uuid, None), env).(
                      hub := w.hub.(games := w.hub.games[uuid := g], rooms := w.hub.rooms[uuid := r.(active := true)]))
               else after == Unmoved(w, env)
  {
    hide Inv, NewGame;
    var s := w.clients[c];
    var (hub, next) := Handle(w.hub, s, StartGame(questions), env);
    PendingKept(w, hub, s, next);
    if questions.Some? {
      NewGameIsBlank(questions.value, w.hub.rooms[s.room].limit, w.hub.rooms[s.room].users, env.readings.first);
    }
    assert w.clients[c := s] == w.clients;
  }

  // ----- leaving a game -----

  /**
   What leaving takes a user out of.  The game becomes what the removal leaves of it, and goes with its last
   player; the rooms become `rooms`; the statistics are the removal's (see `ServerRuns`).
   */
  ghost predicate LeftBy(w: World, c: Client, env: Env, rooms: map<Uuid, RoomValue>, after: World)
    requires Inv(w) && c in w.clients && w.clients[c] != Login
    requires GameOf(w.hub, w.clients[c]).Some? && LookupsSucceed(w.hub, w.clients[c])
  {
    var (user, uuid) := (w.clients[c].user, GameOf(w.hub, w.clients[c]).value);
    var g := Games.Leave(w.hub.games[uuid], user, env.readings);
    after == Moved(w, c, Menu(user), env).(
      hub := w.hub.(rooms := rooms, rows := after.hub.rows, ledger := after.hub.ledger,
                    games := if g.online == [] then w.hub.games - {uuid} else w.hub.games[uuid := g]))
  }

  lemma LeaverIsInRoom(w: World, c: Client)
    requires Inv(w) && c in w.clients && w.clients[c] != Login && GameOf(w.hub, w.clients[c]).Some?
    requires LookupsSucceed(w.hub, w.clients[c])
    ensures var (user, uuid) := (w.clients[c].user, GameOf(w.hub, w.clients[c]).value);
            && uuid in w.hub.rooms && user in w.hub.rooms[uuid].users && user in w.hub.rows
            && w.hub.games[uuid].online == w.hub.rooms[uuid].users
  {
    assert SessionOk(w.hub.rooms, w.hub.games, w.clients[c]);
  }

  /**
   Leaving a game takes the user out of the game and out of its room, both of which go with their last user;
   only if the game is unfinished at the second reading and the database does not take his result does the
   room stay as it was.
   */
  lemma LeaveGameServes(w: World, c: Client, env: Env)
    requires Serves(w, c, LeaveGame, env) && w.clients[c].Playing?
    ensures var (user, uuid) := (w.clients[c].user, w.clients[c].room);
            && uuid in w.hub.rooms && uuid in w.hub.games && w.hub.games[uuid].online == w.hub.rooms[uuid].users
            && var others := Without(w.hub.rooms[uuid].users, user);
               var rooms := if !FinishedAt(w.hub.games[uuid], env.readings.second) && user in env.failing then w.hub.rooms
                            else if others == [] then w.hub.rooms - {uuid}
                            else w.hub.rooms[uuid := w.hub.rooms[uuid].(users := others)];
               LeftBy(w, c, env, rooms, After(w, Serve(c, LeaveGame, env)))
  {
    hide Inv, Games.Leave, FinishedAt, Without, RemovedFromGame, HaveAnswers, Surroundings;
    LeaverIsInRoom(w, c);
    var s := w.clients[c];
    RemovalIs(w.hub, s.room, s.user, env);
    PendingKept(w, Handle(w.hub, s, LeaveGame, env).0, s, Menu(s.user));
  }

  lemma RemovalIs(h: Hub, uuid: Uuid, user: Name, env: Env)
    requires Removable(h, uuid, user)
    ensures var (g, after) := (Games.Leave(h.games[uuid], user, env.readings), RemovedFromGame(h, uuid, user, env));
            after == h.(rows := after.rows, ledger := after.ledger,
                        games := if g.online == [] then h.games - {uuid} else h.games[uuid := g])
  {
    hide Games.Leave, Submissions, RowsWritten, LedgerWritten;
  }

  /** A member who leaves a room that plays is taken out of the game and of the room, whatever the database does;
      the room stays even with nobody in it. */
  lemma LeavePlayingRoomServes(w: World, c: Client, env: Env)
    requires Serves(w, c, LeaveRoom, env) && w.clients[c].Member?
    requires w.clients[c].room in w.hub.rooms && w.hub.rooms[w.clients[c].room].active
    ensures var (user, uuid) := (w.clients[c].user, w.clients[c].room);
            var r := w.hub.rooms[uuid];
            LeftBy(w, c, env, w.hub.rooms[uuid := r.(users := Without(r.users, user))], After(w, Serve(c, LeaveRoom, env)))
  {
    hide Inv, Games.Leave, FinishedAt, Without, RemovedFromGame, HaveAnswers, Surroundings;
    LeaverIsInRoom(w, c);
    var s := w.clients[c];
    RemovalIs(w.hub, s.room, s.user, env);
    PendingKept(w, Handle(w.hub, s, LeaveRoom, env).0, s, Menu(s.user));
  }

  // ----- a player -----

  /**
   An answer changes nothing but its player's handler, which sleeps on what he submitted, or does not, as the
   clock has it.
   */
  lemma SubmitAnswerServes(w: World, c: Client, choice: u32, question: u32, env: Env)
    requires Serves(w, c, SubmitAnswer(choice, question), env) && w.clients[c].Playing?
    ensures var (user, uuid, after) := (w.clients[c].user, w.clients[c].room, After(w, Serve(c, SubmitAnswer(choice, question), env)));
            && c in after.clients && after.clients[c].Playing? && uuid in w.hub.games
            && after == Moved(w, c, Playing(user, uuid, after.clients[c].asleep), env)
            && SleepsByTheClock(w.hub.games[uuid], choice, question, env.readings.first, env.readings.second, after.clients[c].asleep)
  {
    hide Inv, Decide, SleepsByTheClock, Removable, Surroundings, FinishedAt, GameInv;
    PlayerFacts(w, c);
    var s := w.clients[c];
    PendingKept(w, w.hub, s, Handle(w.hub, s, SubmitAnswer(choice, question), env).1);
    SubmissionDecided(w.hub.games[s.room], choice, question, env.readings.first, env.readings.second);
  }

  // ----- everything else -----

  /** The requests that a handler does anything about. */
  predicate Acts(s: Session, req: Request) {
    match s
    case Login => req.LogIn? || req.SignUp?
    case Verification(_, _, _, _) => req.SubmitCode? || req.ResendCode?
    case Menu(_) => req.LogOut? || req.CreateRoom? || req.JoinRoom?
    case Member(_, _) => req.LeaveRoom? || req.GetRoomState?
    case Admin(_, _) => req.CloseRoom? || req.StartGame?
    case Playing(_, _, _) => req.LeaveGame? || req.SubmitAnswer?
  }

  lemma OtherRequestsChangeNothing(w: World, c: Client, req: Request, env: Env)
    requires Serves(w, c, req, env) && !Acts(w.clients[c], req)
    ensures After(w, Serve(c, req, env)) == Unmoved(w, env)
  {
    hide Inv;
    PendingKept(w, w.hub, w.clients[c], w.clients[c]);
    assert w.clients[c := w.clients[c]] == w.clients;
  }

  // ----- disconnecting -----

  /** The request by which a user gives up his seat. */
  function Departure(s: Session): Request
    requires HasSeat(s)
  {
    match s
    case Member(_, _) => LeaveRoom
    case Admin(_, _) => CloseRoom
    case Playing(_, _, _) => LeaveGame
  }

  /**
   Disconnecting is leaving and then logging out: from a room or a game by the very request that gives up the
   seat, followed by a logout from the menu it leads to; from a verification, its account is deleted if the
   database does it.
   */
  lemma DisconnectingIsLeaving(w: World, c: Client, env: Env)
    requires Inv(w) && Enabled(w, Disconnect(c, env)) && Defined(w, Disconnect(c, env))
    ensures var (s, h) := (w.clients[c], w.hub);
            var hub := if s.Login? then h
                       else if s.Menu? then Handle(h, s, LogOut, env).0
                       else if s.Verification? then
                         var left := h.(logged := Without(h.logged, s.user));
                         if env.deletes
                         then left.(accounts := h.accounts - {s.user}, rows := h.rows - {s.user},
                                    base := h.base - {s.user}, ledger := h.ledger - {s.user})
                         else left
                       else Handle(Handle(h, s, Departure(s), env).0, Menu(s.user), LogOut, env).0;
            After(w, Disconnect(c, env)) ==
            World(hub, w.clients - {c}, env.readings.third,
                  if s.Verification? && env.deletes then w.pending - {s.user} else w.pending)
  {
    hide Inv, HandleExit, Handle, Abort, Surroundings, HaveAnswers;
    var s := w.clients[c];
    var hub := HandleExit(w.hub, s, env);
    if s.Verification? {
      AbortIs(w, c, env);
      if env.deletes {
        AccountSettles(w, c, hub, Login);
      } else {
        PendingKept(w, hub, s, Login);
      }
    } else {
      ExitKeepsAccounts(w.hub, s, env);
      PendingKept(w, hub, s, Login);
      ExitIsLeaving(w.hub, s, env);
    }
  }

  lemma AbortIs(w: World, c: Client, env: Env)
    requires Inv(w) && c in w.clients && w.clients[c].Verification?
    ensures var (h, user) := (w.hub, w.clients[c].user);
            var left := h.(logged := Without(h.logged, user));
            && HandleExit(h, w.clients[c], env) == Abort(h, user, env.deletes)
            && Abort(h, user, true) == left.(accounts := h.accounts - {user}, rows := h.rows - {user},
                                             base := h.base - {user}, ledger := h.ledger - {user})
            && Abort(h, user, false) == left
  {
    hide Without;
    VerifierHasAccount(w, c);
  }

  lemma ExitIsLeaving(h: Hub, s: Session, env: Env)
    requires LookupsSucceed(h, s) && !s.Verification?
    ensures HandleExit(h, s, env) ==
            if s.Login? then h
            else if s.Menu? then Handle(h, s, LogOut, env).0
            else Handle(Handle(h, s, Departure(s), env).0, Menu(s.user), LogOut, env).0
  {
    hide RemovedFromGame, Without, FinishedAt, HaveAnswers;
    if GameOf(h, s).Some? {
      LogoutCommutes(h, GameOf(h, s).value, s.user, true, env);
      RemovalIs(h, GameOf(h, s).value, s.user, env);
    }
  }

  lemma ExitKeepsAccounts(h: Hub, s: Session, env: Env)
    requires LookupsSucceed(h, s) && !s.Verification?
    ensures HandleExit(h, s, env).accounts == h.accounts
  {
    hide Games.Leave, Submissions, RowsWritten, LedgerWritten, Without, HaveAnswers;
  }

  // ----- coming and going -----

  /** Logging out undoes a login. */
  lemma LogInAndOut(w: World, c: Client, name: Name, password: string, env: Env, later: Env)
    requires Serves(w, c, LogIn(name, password, true), env) && w.clients[c].Login?
    requires Handle(w.hub, Login, LogIn(name, password, true), env).1.Menu?
    ensures var (hub, s) := Handle(w.hub, Login, LogIn(name, password, true), env);
            Handle(hub, s, LogOut, later) == (w.hub, Login)
  {
    hide Inv;
    WithoutLast(w.hub.logged, name);
  }

  /** Closing a room undoes its creation. */
  lemma CreateAndClose(w: World, c: Client, req: Request, env: Env, later: Env)
    requires Serves(w, c, req, env) && w.clients[c].Menu? && req.CreateRoom?
    requires Handle(w.hub, w.clients[c], req, env).1.Admin?
    ensures var (hub, s) := Handle(w.hub, w.clients[c], req, env);
            LookupsSucceed(hub, s) && Handle(hub, s, CloseRoom, later) == (w.hub, w.clients[c])
  {
    hide Inv;
    assert w.hub.rooms[req.uuid := RoomValue([w.clients[c].user], req.maxPlayers, req.questionCount, req.limit, false)]
           - {req.uuid} == w.hub.rooms;
  }

  /** Leaving a room that does not play undoes joining it. */
  lemma JoinAndLeave(w: World, c: Client, uuid: Uuid, env: Env, later: Env)
    requires Serves(w, c, JoinRoom(uuid), env) && w.clients[c].Menu?
    requires Handle(w.hub, w.clients[c], JoinRoom(uuid), env).1.Member? && !w.hub.rooms[uuid].active
    ensures var (hub, s) := Handle(w.hub, w.clients[c], JoinRoom(uuid), env);
            LookupsSucceed(hub, s) && Handle(hub, s, LeaveRoom, later) == (w.hub, w.clients[c])
  {
    hide Inv;
    var (rooms, user) := (w.hub.rooms, w.clients[c].user);
    WithoutLast(rooms[uuid].users, user);
    var joined := rooms[uuid].(users := rooms[uuid].users + [user]);
    assert RoomWithout(joined, user) == rooms[uuid];
    assert rooms[uuid := joined][uuid := rooms[uuid]] == rooms;
  }
}
