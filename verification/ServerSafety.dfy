/** The main results about the server: exactly which steps keep its invariant, and what follows. */
module ServerSafety {
  import opened Widths
  import opened Names
  import opened Games
  import opened Sessions
  import opened SessionInvariant
  import opened SessionSteps
  import opened RoomSteps
  import opened LeaveSteps

  /**
   The six things that go wrong, each recognisable before the request is handled: a room id is reused
   while a member still holds it; somebody joins a room that plays already; the database fails to write
   the result of somebody who leaves a running game; an answer is judged after the game finished; the
   database fails to delete the account of somebody who gives up, or is refused, verification; and it cannot
   be read when somebody is logged in whose account it has just stored.
   */
  ghost predicate Admissible(w: World, st: Step)
    requires Enabled(w, st) && Defined(w, st)
  {
    match st
    case Connect(_) => true
    case WakeUp(_, _) => true
    case Disconnect(c, env) => ResultIsWritten(w, w.clients[c], env) && (w.clients[c].Verification? ==> env.deletes)
    case Serve(c, req, env) =>
      var s := w.clients[c];
      match req
      case SignUp(name, _, email, valid, stored, readable, _, emailed) =>
        s.Login? && valid && CanAdd(w.hub, name, email) && stored ==> readable && (!emailed ==> env.deletes)
      case SubmitCode(code) =>
        s.Verification? && code != s.code && s.tries + 1 >= MAX_TRIES ==> env.deletes
      case CreateRoom(roomName, maxPlayers, questionCount, limit, uuid) =>
        s.Menu? && ValidDetails(roomName, maxPlayers, questionCount, limit) ==> UnheldRoom(w.clients, uuid)
      case JoinRoom(uuid) =>
        s.Menu? && uuid in w.hub.rooms && CanJoin(w.hub.rooms[uuid], s.user) ==> !w.hub.rooms[uuid].active
      case LeaveGame => ResultIsWritten(w, s, env)
      case SubmitAnswer(choice, question) =>
        s.Playing? && Decide(w.hub.games[s.room], choice, question, env.readings.first, env.readings.second).Sleeping?
        ==> !FinishedAt(w.hub.games[s.room], env.readings.second)
      case _ => true
  }

  /** If `s` leaves a running game, the database takes the result of its user. */
  ghost predicate ResultIsWritten(w: World, s: Session, env: Env)
    requires LookupsSucceed(w.hub, s)
  {
    s.Playing? ==> !RemovalFails(w.hub, s.room, s.user, env)
  }

  lemma PendingKept(w: World, hub: Hub, before: Session, after: Session)
    requires Inv(w) && hub.accounts.Keys == w.hub.accounts.Keys
    requires !(before.Verification? && after.Menu?)
    ensures PendingAfter(w, hub, before, after) == w.pending
  {
  }

  // ----- each kind of session -----

  /** The step leaves everything but the clock alone. */
  lemma IdleKeepsInv(w: World, c: Client, env: Env)
    requires Inv(w) && c in w.clients && w.now <= env.readings.third
    ensures Inv(World(w.hub, w.clients[c := w.clients[c]], env.readings.third,
                      PendingAfter(w, w.hub, w.clients[c], w.clients[c])))
  {
    var s := w.clients[c];
    PendingKept(w, w.hub, s, s);
    assert w.clients[c := s] == w.clients;
    if s.Login? {
      LoginScreenKeepsInv(w, c, w.clients, env.readings.third);
    } else {
      SwitchKeepsInv(w, c, s, env.readings.third);
    }
  }

  ghost predicate Serves(w: World, c: Client, req: Request, env: Env) {
    Inv(w) && Enabled(w, Serve(c, req, env)) && Defined(w, Serve(c, req, env))
  }

  lemma LoginServesIff(w: World, c: Client, req: Request, env: Env)
    requires Serves(w, c, req, env) && w.clients[c].Login?
    ensures Inv(After(w, Serve(c, req, env))) <==> Admissible(w, Serve(c, req, env))
  {
    hide Inv, TablesInv;
    var (hub, s) := Handle(w.hub, Login, req, env);
    IdleKeepsInv(w, c, env);
    match req
    case LogIn(name, password, readable) =>
      PendingKept(w, hub, Login, s);
      if readable && CanLogIn(w.hub, name, password) {
        LogInKeepsInv(w, c, name, env.readings.third);
      }
    case SignUp(_, _, _, _, _, _, _, _) => SignUpServesIff(w, c, req, env);
    case _ =>
  }

  lemma SignUpServesIff(w: World, c: Client, req: Request, env: Env)
    requires Serves(w, c, req, env) && w.clients[c].Login? && req.SignUp?
    ensures Inv(After(w, Serve(c, req, env))) <==> Admissible(w, Serve(c, req, env))
  {
    hide Inv, TablesInv, PendingAfter, CanAdd, LoggedOut;
    var (hub, s) := Handle(w.hub, Login, req, env);
    IdleKeepsInv(w, c, env);
    if req.valid && CanAdd(w.hub, req.name, req.email) && req.stored {
      var account := Account(req.password, req.email);
      SignUpLogsIn(w, req.name, req.password, req.email);
      if req.readable && req.emailed {
        SignUpKeepsInv(w, c, s, account, env.readings.third);
        NewAccountPends(w, req.name, account, s);
      } else if req.readable && env.deletes {
        FailedSignUpLeavesNothingIff(w, req, true);
      } else {
        NewNames(w.hub, req.name, req.email);
        NewAccountLingers(w, c, req.name, account, After(w, Serve(c, req, env)));
      }
    }
  }

  lemma NewNames(h: Hub, name: Name, email: string)
    requires CanAdd(h, name, email)
    ensures name !in h.accounts
  {
  }

  lemma NewAccountPends(w: World, name: Name, account: Account, s: Session)
    requires Inv(w) && CanAdd(w.hub, name, account.email)
    ensures PendingAfter(w, LoggedIn(Added(w.hub, name, account), name), Login, s) == w.pending + {name}
  {
    assert Added(w.hub, name, account).accounts.Keys == w.hub.accounts.Keys + {name};
  }

  lemma AccountSettles(w: World, c: Client, hub: Hub, after: Session)
    requires Inv(w) && c in w.clients && w.clients[c].Verification?
    requires (hub == w.hub && after == Menu(w.clients[c].user)) || (hub == Abort(w.hub, w.clients[c].user, true) && after == Login)
    ensures PendingAfter(w, hub, w.clients[c], after) == w.pending - {w.clients[c].user}
  {
  }

  lemma TriesLeft(w: World, c: Client)
    requires Inv(w) && c in w.clients && w.clients[c].Verification?
    ensures w.clients[c].tries < MAX_TRIES
  {
    assert SessionOk(w.hub.rooms, w.hub.games, w.clients[c]);
  }

  lemma VerificationServesIff(w: World, c: Client, req: Request, env: Env)
    requires Serves(w, c, req, env) && w.clients[c].Verification?
    ensures Inv(After(w, Serve(c, req, env))) <==> Admissible(w, Serve(c, req, env))
  {
    hide Inv, Abort, PendingAfter;
    var later, s := env.readings.third, w.clients[c];
    TriesLeft(w, c);
    IdleKeepsInv(w, c, env);
    match req
    case SubmitCode(code) =>
      if code == s.code {
        VerifiedKeepsInv(w, c, later);
        AccountSettles(w, c, w.hub, Menu(s.user));
      } else if s.tries + 1 >= MAX_TRIES && env.deletes {
        AbortKeepsInv(w, c, w.clients[c := Login], later);
        AccountSettles(w, c, Abort(w.hub, s.user, true), Login);
      } else if s.tries + 1 >= MAX_TRIES {
        FailedAbortLingers(w, c, After(w, Serve(c, req, env)));
      } else {
        SwitchKeepsInv(w, c, s.(tries := s.tries + 1), later);
        PendingKept(w, w.hub, s, s.(tries := s.tries + 1));
      }
    case ResendCode(code, emailed) =>
      SwitchKeepsInv(w, c, s.(code := code), later);
      PendingKept(w, w.hub, s, s.(code := code));
    case _ =>
  }

  lemma MenuServesIff(w: World, c: Client, req: Request, env: Env)
    requires Serves(w, c, req, env) && w.clients[c].Menu?
    ensures Inv(After(w, Serve(c, req, env))) <==> Admissible(w, Serve(c, req, env))
  {
    hide Inv;
    var later, s := env.readings.third, w.clients[c];
    IdleKeepsInv(w, c, env);
    match req
    case LogOut =>
      LogOutKeepsInv(w, c, w.clients[c := Login], later);
      PendingKept(w, LoggedOut(w.hub, s.user), s, Login);
    case CreateRoom(_, _, _, _, _) =>
      CreateServesIff(w, c, req, env);
    case JoinRoom(uuid) =>
      JoinServesIff(w, c, uuid, env);
    case _ =>
  }

  lemma CreateServesIff(w: World, c: Client, req: Request, env: Env)
    requires Serves(w, c, req, env) && w.clients[c].Menu? && req.CreateRoom?
    ensures Inv(After(w, Serve(c, req, env))) <==> Admissible(w, Serve(c, req, env))
  {
    hide Inv;
    var later, s := env.readings.third, w.clients[c];
    if ValidDetails(req.roomName, req.maxPlayers, req.questionCount, req.limit) {
      var r := RoomValue([s.user], req.maxPlayers, req.questionCount, req.limit, false);
      var (hub, next) := DoCreateRoom(w.hub, s.user, req);
      PendingKept(w, hub, s, next);
      if UnheldRoom(w.clients, req.uuid) {
        CreateRoomKeepsInv(w, c, req.uuid, r, later);
      } else {
        var d :| d in w.clients && HoldsRoom(w.clients[d], req.uuid);
        ReusedRoomBreaksInv(w, c, d, req.uuid, r, After(w, Serve(c, req, env)));
      }
    } else {
      IdleKeepsInv(w, c, env);
    }
  }

  lemma JoinServesIff(w: World, c: Client, uuid: Uuid, env: Env)
    requires Serves(w, c, JoinRoom(uuid), env) && w.clients[c].Menu?
    ensures Inv(After(w, Serve(c, JoinRoom(uuid), env))) <==> Admissible(w, Serve(c, JoinRoom(uuid), env))
  {
    hide Inv;
    var s := w.clients[c];
    if uuid in w.hub.rooms && CanJoin(w.hub.rooms[uuid], s.user) {
      var (hub, next) := DoJoinRoom(w.hub, s.user, uuid);
      PendingKept(w, hub, s, next);
      if w.hub.rooms[uuid].active {
        LateJoinBreaksInv(w, s.user, uuid, After(w, Serve(c, JoinRoom(uuid), env)));
      } else {
        JoinRoomKeepsInv(w, c, uuid, env.readings.third);
      }
    } else {
      IdleKeepsInv(w, c, env);
    }
  }

  lemma MemberServes(w: World, c: Client, req: Request, env: Env)
    requires Serves(w, c, req, env) && w.clients[c].Member?
    ensures Inv(After(w, Serve(c, req, env)))
  {
    hide UsersInv, SeatsInv, TablesInv, GamesInv, GamesMatch, RemovedFromGame, RoomWithout;
    var later, s := env.readings.third, w.clients[c];
    var (hub, next) := Handle(w.hub, s, req, env);
    MemberKeepsAccounts(w.hub, s, req, env);
    PendingKept(w, hub, s, next);
    IdleKeepsInv(w, c, env);
    if req.LeaveRoom? && s.room in w.hub.rooms {
      LeaveRoomKeepsInv(w, c, false, env);
      assert w.hub == LeaverHub(w.hub, s.user, false);
    } else {
      MemberSwitch(w, c, req, env);
      SwitchKeepsInv(w, c, next, later);
    }
  }

  lemma MemberSwitch(w: World, c: Client, req: Request, env: Env)
    requires Serves(w, c, req, env) && w.clients[c].Member? && (req.LeaveRoom? ==> w.clients[c].room !in w.hub.rooms)
    ensures Handle(w.hub, w.clients[c], req, env).0 == w.hub
    ensures HarmlessSwitch(w, c, Handle(w.hub, w.clients[c], req, env).1)
  {
    hide UsersInv, TablesInv, GamesInv, SeatsTaken;
    assert SessionOk(w.hub.rooms, w.hub.games, w.clients[c]);
  }

  lemma MemberKeepsAccounts(h: Hub, s: Session, req: Request, env: Env)
    requires LookupsSucceed(h, s) && s.Member?
    ensures Handle(h, s, req, env).0.accounts == h.accounts
  {
  }

  lemma AdminServes(w: World, c: Client, req: Request, env: Env)
    requires Serves(w, c, req, env) && w.clients[c].Admin?
    ensures Inv(After(w, Serve(c, req, env)))
  {
    hide Inv;
    var later, s := env.readings.third, w.clients[c];
    var (hub, next) := Handle(w.hub, s, req, env);
    PendingKept(w, hub, s, next);
    IdleKeepsInv(w, c, env);
    match req
    case CloseRoom =>
      CloseRoomKeepsInv(w, c, false, later);
    case StartGame(questions) =>
      var r := w.hub.rooms[s.room];
      if |r.users| > 1 && questions.Some? && |questions.value| == r.questionCount {
        StartGameKeepsInv(w, c, questions.value, env.readings.first, later);
      }
    case _ =>
  }

  lemma PlayingServesIff(w: World, c: Client, req: Request, env: Env)
    requires Serves(w, c, req, env) && w.clients[c].Playing?
    ensures Inv(After(w, Serve(c, req, env))) <==> Admissible(w, Serve(c, req, env))
  {
    hide Inv, DoLeaveGame;
    IdleKeepsInv(w, c, env);
    match req
    case LeaveGame => LeaveServesIff(w, c, env);
    case SubmitAnswer(choice, question) => SubmitServesIff(w, c, choice, question, env);
    case _ =>
  }

  lemma LeaveServesIff(w: World, c: Client, env: Env)
    requires Serves(w, c, LeaveGame, env) && w.clients[c].Playing?
    ensures Inv(After(w, Serve(c, LeaveGame, env))) <==> Admissible(w, Serve(c, LeaveGame, env))
  {
    hide UsersInv, SeatsInv, TablesInv, GamesInv, GamesMatch, RemovedFromGame, RemovedFromRoom;
    var s := w.clients[c];
    PlayerKeepsAccounts(w.hub, s.user, s.room, env);
    PendingKept(w, DoLeaveGame(w.hub, s.user, s.room, env).0, s, Menu(s.user));
    assert w.hub == LeaverHub(w.hub, s.user, false);
    if RemovalFails(w.hub, s.room, s.user, env) {
      FailedLeaveBreaksInv(w, c, false, env, After(w, Serve(c, LeaveGame, env)));
      BrokenSeats(After(w, Serve(c, LeaveGame, env)));
    } else {
      LeaveGameKeepsInv(w, c, false, env);
    }
  }

  lemma BrokenSeats(w: World)
    requires !SeatsTaken(w.hub.rooms, w.clients)
    ensures !Inv(w)
  {
  }

  lemma SubmitServesIff(w: World, c: Client, choice: u32, question: u32, env: Env)
    requires Serves(w, c, SubmitAnswer(choice, question), env) && w.clients[c].Playing?
    ensures Inv(After(w, Serve(c, SubmitAnswer(choice, question), env)))
            <==> Admissible(w, Serve(c, SubmitAnswer(choice, question), env))
  {
    hide UsersInv, SeatsInv, TablesInv, GamesInv, GamesMatch, Decide, FinishedAt, Recordable;
    var s := w.clients[c];
    var g := w.hub.games[s.room];
    PlayerFacts(w, c);
    IdleKeepsInv(w, c, env);
    var decision := Decide(g, choice, question, env.readings.first, env.readings.second);
    if decision.Sleeping? {
      var next := s.(asleep := Some(decision.pending));
      SleepingIsRecordableIff(g, choice, question, env.readings.first, env.readings.second);
      PendingKept(w, w.hub, s, next);
      if FinishedAt(g, env.readings.second) {
        BrokenSession(After(w, Serve(c, SubmitAnswer(choice, question), env)), c);
      } else {
        SwitchKeepsInv(w, c, next, env.readings.third);
      }
    }
  }

  lemma PlayerFacts(w: World, c: Client)
    requires Inv(w) && c in w.clients && w.clients[c].Playing?
    ensures SessionOk(w.hub.rooms, w.hub.games, w.clients[c])
    ensures w.hub.games[w.clients[c].room].limit >= 5
    ensures GameInv(w.hub.games[w.clients[c].room], w.now)
  {
  }

  lemma BrokenSession(w: World, c: Client)
    requires c in w.clients && !SessionOk(w.hub.rooms, w.hub.games, w.clients[c])
    ensures !Inv(w)
  {
  }

  // ----- waking and disconnecting -----

  lemma WakeKeepsInv(w: World, c: Client, at: nat)
    requires Inv(w) && Enabled(w, WakeUp(c, at)) && Defined(w, WakeUp(c, at))
    ensures Inv(After(w, WakeUp(c, at)))
  {
    hide UsersInv, SeatsInv, TablesInv, GamesInv, GamesMatch, Woken, Accounted;
    var s := w.clients[c];
    var g := w.hub.games[s.room];
    PlayerFacts(w, c);
    LaterInv(g, w.now, at);
    WokenKeepsInv(g, s.user, s.asleep.value, at);
    hide GameInv;
    SwitchKeepsInv(w, c, s.(asleep := None), at);
    AnswerRecorded(w.(clients := w.clients[c := s.(asleep := None)], now := at), s.room,
                   Woken(g, s.user, s.asleep.value));
  }

  /** A record changing inside a game disturbs nothing else. */
  lemma AnswerRecorded(w: World, uuid: Uuid, g: GameValue)
    requires Inv(w) && uuid in w.hub.games && GameInv(g, w.now)
    requires g == w.hub.games[uuid].(players := g.players)
    ensures Inv(w.(hub := w.hub.(games := w.hub.games[uuid := g])))
  {
    var games := w.hub.games[uuid := g];
    hide GameInv, UsersInv, RoomOk;
    forall c | c in w.clients
      ensures SessionOk(w.hub.rooms, games, w.clients[c])
    {
      assert SessionOk(w.hub.rooms, w.hub.games, w.clients[c]);
    }
    TablesIgnoreLogins(w.hub, w.hub.(games := games), w.clients, w.pending);
  }

  lemma DisconnectKeepsInvIff(w: World, c: Client, env: Env)
    requires Inv(w) && Enabled(w, Disconnect(c, env)) && Defined(w, Disconnect(c, env))
    ensures Inv(After(w, Disconnect(c, env))) <==> Admissible(w, Disconnect(c, env))
  {
    hide UsersInv, SeatsInv, TablesInv, GamesInv, GamesMatch, DoLeaveGame, DoLeaveRoom;
    var later, s := env.readings.third, w.clients[c];
    var after := After(w, Disconnect(c, env));
    match s
    case Login =>
      LoginScreenKeepsInv(w, c, w.clients - {c}, later);
      PendingKept(w, w.hub, s, Login);
    case Verification(user, _, _, _) =>
      if env.deletes {
        AbortKeepsInv(w, c, w.clients - {c}, later);
        AccountSettles(w, c, after.hub, Login);
      } else {
        FailedAbortLingers(w, c, after);
      }
    case Menu(user) =>
      LogOutKeepsInv(w, c, w.clients - {c}, later);
      PendingKept(w, after.hub, s, Login);
    case Member(user, room) =>
      MemberKeepsAccounts(LoggedOut(w.hub, user), s, LeaveRoom, env);
      PendingKept(w, after.hub, s, Login);
      assert LoggedOut(w.hub, user) == LeaverHub(w.hub, user, true);
      if room in w.hub.rooms {
        LeaveRoomKeepsInv(w, c, true, env);
      } else {
        StaleExit(w.hub, user, room, env);
        StaleMemberExitKeepsInv(w, c, later);
      }
    case Admin(user, room) =>
      CloseRoomKeepsInv(w, c, true, later);
      PendingKept(w, after.hub, s, Login);
    case Playing(user, room, _) =>
      PlayerKeepsAccounts(LoggedOut(w.hub, user), user, room, env);
      PendingKept(w, after.hub, s, Login);
      assert LoggedOut(w.hub, user) == LeaverHub(w.hub, user, true);
      if RemovalFails(w.hub, room, user, env) {
        FailedLeaveBreaksInv(w, c, true, env, after);
        BrokenSeats(after);
      } else {
        LeaveGameKeepsInv(w, c, true, env);
      }
  }

  lemma StaleExit(h: Hub, user: Name, room: Uuid, env: Env)
    requires room !in h.rooms
    ensures DoLeaveRoom(LoggedOut(h, user), user, room, env).0 == LoggedOut(h, user)
  {
  }

  lemma PlayerKeepsAccounts(h: Hub, user: Name, room: Uuid, env: Env)
    requires Removable(h, room, user) && room in h.rooms
    ensures DoLeaveGame(h, user, room, env).0.accounts == h.accounts
  {
  }

  // ----- main results -----

  /**
   In a state that satisfies the invariant, every lookup and index of a step is valid if and only if its
   request can be answered, and then the step keeps the invariant if and only if it is admissible.
   */
  lemma StepKeepsInvIff(w: World, st: Step)
    requires Inv(w) && Enabled(w, st)
    ensures Defined(w, st) <==> Answerable(w, st)
    ensures Defined(w, st) ==> (Inv(After(w, st)) <==> Admissible(w, st))
  {
    hide Inv, After, Defined, Answerable, Admissible;
    DefinedIff(w, st);
    if Defined(w, st) {
      match st
      case Connect(c) => ConnectStepKeepsInv(w, c);
      case WakeUp(c, at) => WakeStepKeepsInv(w, c, at);
      case Disconnect(c, env) => DisconnectKeepsInvIff(w, c, env);
      case Serve(c, req, env) => ServeKeepsInvIff(w, c, req, env);
    }
  }

  lemma WakeStepKeepsInv(w: World, c: Client, at: nat)
    requires Inv(w) && Enabled(w, WakeUp(c, at)) && Defined(w, WakeUp(c, at))
    ensures Inv(After(w, WakeUp(c, at))) && Admissible(w, WakeUp(c, at))
  {
    hide Inv, After;
    WakeKeepsInv(w, c, at);
  }

  lemma ConnectStepKeepsInv(w: World, c: Client)
    requires Inv(w) && Enabled(w, Connect(c)) && Defined(w, Connect(c))
    ensures Inv(After(w, Connect(c))) && Admissible(w, Connect(c))
  {
    hide Inv;
    ConnectKeepsInv(w, c);
  }

  lemma ServeKeepsInvIff(w: World, c: Client, req: Request, env: Env)
    requires Serves(w, c, req, env)
    ensures Inv(After(w, Serve(c, req, env))) <==> Admissible(w, Serve(c, req, env))
  {
    hide Inv, After;
    match w.clients[c]
    case Login => LoginServesIff(w, c, req, env);
    case Verification(_, _, _, _) => VerificationServesIff(w, c, req, env);
    case Menu(_) => MenuServesIff(w, c, req, env);
    case Member(_, _) => MemberServes(w, c, req, env);
    case Admin(_, _) => AdminServes(w, c, req, env);
    case Playing(_, _, _) => PlayingServesIff(w, c, req, env);
  }
}
