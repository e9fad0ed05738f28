/** The request handlers as methods over the managers they share (the files of `requestHandlers`). */
module Handlers {
  import opened Widths
  import opened Names
  import opened Questions
  import opened Scores
  import opened Games
  import opened Sessions
  import opened Databases
  import opened Rooms
  import opened GameManagers
  import opened LoginManagers

  /** The email verification handler: the only one with fields that change. */
  class VerificationHandler {
    const user: Name
    const email: string
    var code: string
    var tries: nat

    constructor (user: Name, email: string, code: string)
      ensures Value() == Verification(user, email, code, 0)
    {
      this.user, this.email, this.code, tries := user, email, code, 0;
    }

    ghost function Value(): Session
      reads this
    {
      Verification(user, email, code, tries)
    }
  }

  /** A client's handler, with the references it holds. */
  datatype Handler =
    | LoginHandler
    | VerifyHandler(v: VerificationHandler)
    | MenuHandler(user: Name)
    | MemberHandler(user: Name, room: Room, roomUuid: Uuid)
    | AdminHandler(user: Name, room: Room)
    | GameHandler(user: Name, game: GameManagers.Game, asleep: Option<Pending>)

  ghost function SessionOf(h: Handler): Session
    reads if h.VerifyHandler? then {h.v} else {}
  {
    match h
    case LoginHandler => Login
    case VerifyHandler(v) => v.Value()
    case MenuHandler(user) => Menu(user)
    case MemberHandler(user, _, roomUuid) => Member(user, roomUuid)
    case AdminHandler(user, room) => Admin(user, room.uuid)
    case GameHandler(user, game, asleep) => Playing(user, game.uuid, asleep)
  }

  datatype PlayerResult = PlayerResult(online: bool, change: int, correct: nat, wrong: int, average: nat)

  function ResultOf(online: seq<Name>, n: Name, d: GameData, undefined: int): PlayerResult
    requires d.answers != []
  {
    PlayerResult(n in online, ScoreChange(d, undefined), Correct(d.answers), Wrong(d.answers), AverageTime(d.answers))
  }

  lemma ResultsTell(online: seq<Name>, players: map<Name, GameData>, undefined: int)
    requires HaveAnswers(players)
    ensures forall n :: n in players ==>
              var (d, r) := (players[n], ResultOf(online, n, players[n], undefined));
              && (r.online <==> n in online) && r.change == ScoreChange(d, undefined)
              && r.correct == Correct(d.answers) && r.correct + r.wrong == |d.answers|
              && r.average * |d.answers| <= TimeSum(d.answers) < (r.average + 1) * |d.answers|
  {
    hide ScoreChange, AverageTime;
    forall n | n in players
      ensures var average := AverageTime(players[n].answers);
              average * |players[n].answers| <= TimeSum(players[n].answers) < (average + 1) * |players[n].answers|
    {
      AverageIsTheFloor(players[n].answers);
    }
  }

  /** `RequestHandlerFactory`: the managers every handler reaches. */
  class Factory {
    const db: Database
    const login: LoginManager
    const rooms: RoomManager
    const games: GameManager

    constructor (db: Database)
      ensures Valid() && this.db == db
      ensures Value() == Hub([], map[], map[], db.accounts, db.rows, db.base, db.ledger)
      ensures fresh(Objects() - {db})
    {
      this.db := db;
      login := new LoginManager(db);
      rooms := new RoomManager();
      games := new GameManager(db);
    }

    ghost predicate Valid()
      reads rooms, games
    {
      login.db == db && games.db == db && rooms.Valid() && games.Valid()
    }

    ghost function Objects(): set<object>
      reads rooms, games
    {
      {db, login, rooms, games} + rooms.rooms.Values + (set g | g in games.games)
    }

    ghost function Value(): Hub
      requires Valid()
      reads db, login, rooms, games, rooms.rooms.Values, games.games
    {
      Hub(login.logged, rooms.Value(), games.Value(), db.accounts, db.rows, db.base, db.ledger)
    }

    /** The objects a handler refers to are the ones registered under their ids. */
    ghost predicate Refers(h: Handler)
      reads rooms, games
    {
      match h
      case MemberHandler(_, room, roomUuid) =>
        room.uuid == roomUuid && (roomUuid in rooms.rooms ==> rooms.rooms[roomUuid] == room)
      case AdminHandler(_, room) => room.uuid in rooms.rooms && rooms.rooms[room.uuid] == room
      case GameHandler(_, game, _) => game in games.games
      case _ => true
    }

    /** Rooms and games keep their identity for as long as they are registered. */
    twostate predicate Stable()
      reads rooms, games
    {
      && (forall u :: u in rooms.rooms && u in old(rooms.rooms) ==> rooms.rooms[u] == old(rooms.rooms)[u])
      && (forall g, k :: g in old(games.games) && k in games.games && g.uuid == k.uuid ==> g == k)
    }

    // ----- the login screen -----

    method LoginLogin(name: Name, password: string, readable: bool) returns (next: Handler)
      requires Valid()
      modifies login
      ensures Valid() && (Value(), SessionOf(next)) == DoLogIn(old(Value()), name, password, readable) && Refers(next)
      ensures next == if readable && name in db.accounts && db.accounts[name].password == password
                         && name !in old(login.logged) then MenuHandler(name) else LoginHandler
      ensures login.logged == old(login.logged) + (if next.MenuHandler? then [name] else [])
    {
      hide RoomManager.Value, GameManager.Value, RoomManager.Valid, GameManager.Valid, Without;
      var ok := login.Login(name, password, readable);
      next := if ok then MenuHandler(name) else LoginHandler;
    }

    method LoginSignup(req: Request, deletes: bool) returns (next: Handler)
      requires Valid() && req.SignUp?
      modifies login, db
      ensures Valid() && (Value(), SessionOf(next)) == DoSignUp(old(Value()), req, deletes) && Refers(next)
      ensures next.VerifyHandler? ==> fresh(next.v)
    {
      hide RoomManager.Value, GameManager.Value, RoomManager.Valid, GameManager.Valid, Without;
      var ok := login.Signup(req.name, req.password, req.email, req.valid, req.stored, req.readable);
      if !ok {
        return LoginHandler;
      }
      if !req.emailed {
        GiveUp(req.name, deletes);
        return LoginHandler;
      }
      var v := new VerificationHandler(req.name, req.email, req.code);
      next := VerifyHandler(v);
    }

    // ----- email verification -----

    /** The deletion's result is not looked at. */
    method GiveUp(user: Name, deletes: bool)
      requires Valid()
      modifies login, db
      ensures Valid() && Value() == Abort(old(Value()), user, deletes)
    {
      hide RoomManager.Value, GameManager.Value, RoomManager.Valid, GameManager.Valid, Without;
      var _ := db.RemoveUser(user, deletes);
      login.Logout(user);
    }

    method SubmitVerificationCode(v: VerificationHandler, code: string, deletes: bool) returns (next: Handler)
      requires Valid()
      modifies v, login, db
      ensures Valid() && (Value(), SessionOf(next)) == DoSubmitCode(old(Value()), old(v.Value()), code, deletes) && Refers(next)
      ensures next.VerifyHandler? ==> next.v == v
    {
      hide RoomManager.Value, GameManager.Value, RoomManager.Valid, GameManager.Valid, Without;
      v.tries := v.tries + 1;
      if code == v.code {
        return MenuHandler(v.user);
      }
      if v.tries >= 5 {
        GiveUp(v.user, deletes);
        return LoginHandler;
      }
      next := VerifyHandler(v);
    }

    method ResendVerificationCode(v: VerificationHandler, code: string, emailed: bool)
      requires Valid()
      modifies v
      ensures Valid() && (Value(), v.Value()) == DoResend(old(Value()), old(v.Value()), code, emailed)
    {
      if !emailed {
        return;
      }
      v.code := code;
    }

    method AbortSignupProcess(v: VerificationHandler, deletes: bool)
      requires Valid()
      modifies login, db
      ensures Valid() && Value() == Abort(old(Value()), v.user, deletes)
    {
      GiveUp(v.user, deletes);
    }

    // ----- the menu -----

    method MenuLogout(user: Name)
      requires Valid()
      modifies login
      ensures Valid() && Value() == LoggedOut(old(Value()), user)
    {
      login.Logout(user);
    }

    method MenuJoinRoom(user: Name, uuid: Uuid) returns (next: Handler)
      requires Valid()
      modifies if uuid in rooms.rooms then {rooms.rooms[uuid]} else {}
      ensures Valid() && (Value(), SessionOf(next)) == DoJoinRoom(old(Value()), user, uuid) && Refers(next)
    {
      rooms.Lookup(uuid);
      hide RoomManager.Value, GameManager.Value, CanJoin;
      var found := rooms.GetRoom(uuid);
      if found.None? {
        return MenuHandler(user);
      }
      var room := found.value;
      ghost var before := Value();
      assert room.uuid == uuid && before.rooms[uuid] == room.Value();
      var ok := EnterRoom(room, user);
      assert Value() == before.(rooms := rooms.Value());
      next := if ok then MemberHandler(user, room, uuid) else MenuHandler(user);
    }

    method EnterRoom(room: Room, user: Name) returns (ok: bool)
      requires Valid() && room.uuid in rooms.rooms && rooms.rooms[room.uuid] == room
      modifies room
      ensures Valid() && (ok <==> CanJoin(old(room.Value()), user))
      ensures rooms.Value() == if ok then old(rooms.Value())[room.uuid := old(room.Value()).(users := old(room.users) + [user])]
                               else old(rooms.Value())
    {
      rooms.Lookup(room.uuid);
      hide RoomManager.Value, GameManager.Value, CanJoin;
      ok := room.AddUser(user);
      rooms.OneRoomChanged(room);
    }

    method MenuCreateRoom(user: Name, req: Request) returns (next: Handler)
      requires Valid() && req.CreateRoom? && req.uuid !in rooms.rooms
      modifies rooms
      ensures Valid() && (Value(), SessionOf(next)) == DoCreateRoom(old(Value()), user, req) && Refers(next)
      ensures Stable()
    {
      hide GameManager.Value, RoomManager.Value;
      if !ValidDetails(req.roomName, req.maxPlayers, req.questionCount, req.limit) {
        return MenuHandler(user);
      }
      var room := rooms.CreateRoom(user, req.uuid, req.maxPlayers, req.questionCount, req.limit);
      next := AdminHandler(user, room);
      assert rooms.rooms[req.uuid] == room;
      assert Value().rooms == DoCreateRoom(old(Value()), user, req).0.rooms;
    }

    /** A room is listed when its users can be read (the database is asked about each, so not at all for none),
        and then, if it is active, its game is looked up; `clock` gives the reading at each of these games. */
    method MenuGetRooms(unreadable: set<Uuid>, clock: Uuid -> nat) returns (finished: map<Uuid, bool>)
      requires Valid()
      requires forall u :: u in rooms.rooms && (rooms.rooms[u].users == [] || u !in unreadable) && rooms.rooms[u].active
                 ==> u in games.Value()
      ensures forall u :: u in finished <==> u in rooms.rooms && (rooms.rooms[u].users == [] || u !in unreadable)
      ensures forall u :: u in finished ==>
                finished[u] == (rooms.rooms[u].active && FinishedAt(games.Value()[u], clock(u)))
    {
      hide FinishedAt, RoomManager.Value, GameManager.Value, RoomManager.Valid, GameManager.Valid;
      finished := map[];
      var todo := rooms.rooms.Keys;
      while todo != {}
        invariant todo <= rooms.rooms.Keys
        invariant forall u :: u in finished <==> u in rooms.rooms && u !in todo && (rooms.rooms[u].users == [] || u !in unreadable)
        invariant forall u :: u in finished ==>
                    finished[u] == (rooms.rooms[u].active && FinishedAt(games.Value()[u], clock(u)))
      {
        var u :| u in todo;
        todo := todo - {u};
        if rooms.rooms[u].users == [] || u !in unreadable {
          var over := false;
          if rooms.rooms[u].active {
            games.Registered(u);
            var game := games.GetGameById(u);
            games.Lookup(game);
            over := game.IsFinished(clock(u));
          }
          finished := finished[u := over];
        }
      }
    }

    // ----- the room's admin -----

    method AdminCloseRoom(user: Name, room: Room)
      requires Valid()
      modifies rooms
      ensures Valid() && (Value(), Menu(user)) == DoCloseRoom(old(Value()), user, room.uuid)
      ensures Stable()
    {
      rooms.DeleteRoom(room.uuid);
    }

    method AdminStartGame(user: Name, room: Room, questions: Option<seq<Question>>, now: nat) returns (next: Handler)
      requires Valid() && Refers(AdminHandler(user, room)) && forall g :: g in games.games ==> g.uuid != room.uuid
      modifies games, room
      ensures Valid() && Refers(next) && Stable()
      ensures (Value(), SessionOf(next)) == DoStartGame(old(Value()), user, room.uuid, questions, now)
    {
      rooms.Lookup(room.uuid);
      hide RoomManager.Value, GameManager.Value, NewGame;
      next := AdminHandler(user, room);
      if |room.users| <= 1 {
        return;
      }
      var game := BeginGame(room, questions, now);
      if game.Some? {
        next := GameHandler(user, game.value, None);
      }
    }

    /** The room becomes active only after the game has been created. */
    method BeginGame(room: Room, questions: Option<seq<Question>>, now: nat) returns (game: Option<GameManagers.Game>)
      requires Valid() && room.uuid in rooms.rooms && rooms.rooms[room.uuid] == room
      requires forall g :: g in games.games ==> g.uuid != room.uuid
      modifies games, room
      ensures Valid() && Stable()
      ensures game.Some? <==> questions.Some? && |questions.value| == room.questionCount
      ensures game.None? ==> games.Value() == old(games.Value()) && rooms.Value() == old(rooms.Value())
      ensures game.Some? ==>
                && game.value in games.games && game.value.uuid == room.uuid
                && games.Value() == old(games.Value())[room.uuid := NewGame(questions.value, room.limit, room.users, now)]
                && rooms.Value() == old(rooms.Value())[room.uuid := old(room.Value()).(active := true)]
    {
      hide RoomManager.Value, GameManager.Value, NewGame;
      game := games.CreateGame(room, questions, now);
      if game.Some? {
        room.SetIsActive(true);
        rooms.OneRoomChanged(room);
      }
    }

    // ----- a room's member -----

    /** The room is touched only while it is still registered. */
    method MemberLeaveRoom(user: Name, room: Room, roomUuid: Uuid, env: Env)
      requires Valid() && Refers(MemberHandler(user, room, roomUuid)) && LookupsSucceed(Value(), Member(user, roomUuid))
      modifies games, games.games, db, if roomUuid in rooms.rooms then {room} else {}
      ensures Valid() && (Value(), Menu(user)) == DoLeaveRoom(old(Value()), user, roomUuid, env)
      ensures Stable()
    {
      hide RoomManager.Value, GameManager.Value, HaveAnswers, FinishedAt, RowsWritten, LedgerWritten, Games.Leave, Submissions;
      rooms.Lookup(roomUuid);
      var state := rooms.GetRoomState(roomUuid);
      if state.None? {
        return;
      }
      if state.value.active {
        var _, sent := games.RemovePlayerFromGameById(roomUuid, user, env);
      }
      room.RemoveUser(user);
      rooms.OneRoomChanged(room);
    }

    method MemberGetRoomState(user: Name, room: Room, roomUuid: Uuid, readable: bool) returns (next: Handler)
      requires Valid() && Refers(MemberHandler(user, room, roomUuid)) && LookupsSucceed(Value(), Member(user, roomUuid))
      ensures (Value(), SessionOf(next)) == DoMemberState(Value(), user, roomUuid, readable) && Refers(next)
    {
      var state := rooms.GetRoomState(roomUuid);
      if state.None? {
        return MenuHandler(user);
      }
      if !readable {
        return MemberHandler(user, room, roomUuid);
      }
      if state.value.active {
        var game := games.GetGameById(roomUuid);
        return GameHandler(user, game, None);
      }
      next := MemberHandler(user, room, roomUuid);
    }

    // ----- a player -----

    method GameLeave(user: Name, game: GameManagers.Game, env: Env)
      requires Valid() && game in games.games && game.uuid in rooms.rooms
      requires LookupsSucceed(Value(), Playing(user, game.uuid, None))
      modifies games, game, db, rooms, rooms.rooms[game.uuid]
      ensures Valid() && (Value(), Menu(user)) == DoLeaveGame(old(Value()), user, game.uuid, env)
      ensures Stable()
    {
      hide RoomManager.Value, GameManager.Value, HaveAnswers, FinishedAt, RowsWritten, LedgerWritten, Games.Leave, Submissions;
      rooms.Lookup(game.uuid);
      games.Lookup(game);
      var failed, sent := games.RemovePlayerFromGame(game, user, env);
      games.OneGameChanged(game);
      if failed {
        return;
      }
      rooms.RemovePlayerFromRoom(game.uuid, user);
    }

    method GameGetQuestion(game: GameManagers.Game, r: Readings) returns (question: Option<(u32, Question)>)
      requires !FinishedAt(game.Value(), r.first) ==> CurrentQuestion(game.Value(), r) < |game.questions|
      ensures question.None? <==> FinishedAt(game.Value(), r.first)
      ensures question.Some? ==> question.value.0 < |game.questions| && question.value.1 == game.questions[question.value.0]
      ensures question.Some? && !FinishedAt(game.Value(), r.second) && |game.questions| <= U32 ==>
                var (i: nat, slot) := (question.value.0, SlotOfGame(game.Value()));
                Reaches(game.Value(), i * slot, r.second) && !Reaches(game.Value(), (i + 1) * slot, r.second)
    {
      var finished := game.IsFinished(r.first);
      if finished {
        return None;
      }
      var i := game.GetCurrentQuestion(r.second);
      question := Some((i, game.questions[i]));
    }

    /** Everybody's results, and the player's own answers with the correct ones. */
    method GameGetResults(user: Name, game: GameManagers.Game, readable: bool, now: nat, undefined: int)
      returns (response: Option<(seq<Answer>, map<Name, PlayerResult>)>)
      requires user in game.players && HaveAnswers(game.players)
      ensures response.Some? <==> FinishedAt(game.Value(), now) && readable
      ensures response.Some? ==>
                var (answers, results) := response.value;
                && answers == game.players[user].answers
                && (forall n :: n in results <==> n in game.players)
                && forall n :: n in results ==>
                     var (d, r) := (game.players[n], results[n]);
                     && (r.online <==> n in game.online) && r.change == ScoreChange(d, undefined)
                     && r.correct == Correct(d.answers) && r.correct + r.wrong == |d.answers|
                     && r.average * |d.answers| <= TimeSum(d.answers) < (r.average + 1) * |d.answers|
    {
      ResultsTell(game.online, game.players, undefined);
      hide ResultOf;
      var finished := game.IsFinished(now);
      if !finished || !readable {
        return None;
      }
      var results: map<Name, PlayerResult> := map[];
      var todo := game.players.Keys;
      while todo != {}
        invariant todo <= game.players.Keys
        invariant results == map n | n in game.players && n !in todo :: ResultOf(game.online, n, game.players[n], undefined)
      {
        var n :| n in todo;
        todo := todo - {n};
        results := results[n := ResultOf(game.online, n, game.players[n], undefined)];
      }
      assert results == map n | n in game.players :: ResultOf(game.online, n, game.players[n], undefined);
      response := Some((game.players[user].answers, results));
    }

    /** Up to the sleep, if there is one. */
    method GameSubmitAnswer(user: Name, game: GameManagers.Game, choice: u32, question: u32, r: Readings)
      returns (next: Handler)
      requires Valid() && game in games.games
      ensures game.uuid in games.Value() && Refers(next)
      ensures (Value(), SessionOf(next)) == DoSubmitAnswer(Value(), Playing(user, game.uuid, None), choice, question, r)
    {
      var decision := game.SubmitAnswer(choice, question, r.first, r.second);
      next := GameHandler(user, game, if decision.Sleeping? then Some(decision.pending) else None);
    }

    /** The rest of an answer, after the sleep. */
    method GameRecordAnswer(user: Name, game: GameManagers.Game, p: Pending) returns (correct: u32)
      requires Valid() && game in games.games
      requires user in game.players && p.question < |game.players[user].answers| && p.question < |game.questions|
      modifies game
      ensures Valid() && correct == game.questions[p.question].correctIndex
      ensures game.uuid in old(games.Value())
      ensures var g := Woken(old(games.Value())[game.uuid], user, p);
              Value() == old(Value()).(games := old(games.Value())[game.uuid := g])
    {
      hide RoomManager.Value, GameManager.Value, Woken;
      games.Lookup(game);
      correct := game.RecordAnswer(user, p);
      games.OneGameChanged(game);
    }

    // ----- `handleRequest` of each handler, except for EXIT -----

    method LoginRequest(req: Request, env: Env) returns (next: Handler)
      requires Valid()
      modifies login, db
      ensures Valid() && (Value(), SessionOf(next)) == Handle(old(Value()), Login, req, env) && Refers(next)
    {
      hide RoomManager.Value, GameManager.Value, DoLogIn, DoSignUp;
      match req
      case LogIn(name, password, readable) => next := LoginLogin(name, password, readable);
      case SignUp(_, _, _, _, _, _, _, _) => next := LoginSignup(req, env.deletes);
      case _ => next := LoginHandler;
    }

    method VerificationRequest(v: VerificationHandler, req: Request, env: Env) returns (next: Handler)
      requires Valid()
      modifies v, login, db
      ensures Valid() && (Value(), SessionOf(next)) == Handle(old(Value()), old(v.Value()), req, env) && Refers(next)
    {
      hide RoomManager.Value, GameManager.Value, DoSubmitCode, DoResend;
      next := VerifyHandler(v);
      match req
      case SubmitCode(code) => next := SubmitVerificationCode(v, code, env.deletes);
      case ResendCode(code, emailed) => ResendVerificationCode(v, code, emailed);
      case _ =>
    }

    method MenuRequest(user: Name, req: Request, env: Env) returns (next: Handler)
      requires Valid() && (req.CreateRoom? ==> req.uuid !in rooms.rooms)
      requires ReadsSucceed(Value(), Menu(user), req, env)
      modifies login, rooms, rooms.rooms.Values
      ensures Valid() && (Value(), SessionOf(next)) == Handle(old(Value()), Menu(user), req, env) && Refers(next) && Stable()
    {
      hide RoomManager.Value, GameManager.Value, DoCreateRoom, DoJoinRoom;
      match req
      case LogOut =>
        MenuLogout(user);
        next := LoginHandler;
      case CreateRoom(_, _, _, _, _) => next := MenuCreateRoom(user, req);
      case JoinRoom(uuid) => next := MenuJoinRoom(user, uuid);
      case GetRooms(unreadable) =>
        forall u | u in rooms.rooms
          ensures u in rooms.Value() && rooms.Value()[u] == rooms.rooms[u].Value()
        {
          rooms.Lookup(u);
        }
        var _ := MenuGetRooms(unreadable, _ => env.readings.first);
        next := MenuHandler(user);
      case _ => next := MenuHandler(user);
    }

    method MemberRequest(user: Name, room: Room, roomUuid: Uuid, req: Request, env: Env) returns (next: Handler)
      requires Valid() && Refers(MemberHandler(user, room, roomUuid)) && LookupsSucceed(Value(), Member(user, roomUuid))
      modifies games, games.games, db, if roomUuid in rooms.rooms then {room} else {}
      ensures Valid() && (Value(), SessionOf(next)) == Handle(old(Value()), Member(user, roomUuid), req, env)
      ensures Refers(next) && Stable()
    {
      hide RoomManager.Value, GameManager.Value, DoLeaveRoom, DoMemberState, Removable;
      match req
      case LeaveRoom =>
        MemberLeaveRoom(user, room, roomUuid, env);
        next := MenuHandler(user);
      case GetRoomState(readable) => next := MemberGetRoomState(user, room, roomUuid, readable);
      case _ => next := MemberHandler(user, room, roomUuid);
    }

    method AdminRequest(user: Name, room: Room, req: Request, env: Env) returns (next: Handler)
      requires Valid() && Refers(AdminHandler(user, room)) && LookupsSucceed(Value(), Admin(user, room.uuid))
      requires forall g :: g in games.games ==> g.uuid != room.uuid
      modifies rooms, games, room
      ensures Valid() && (Value(), SessionOf(next)) == Handle(old(Value()), Admin(user, room.uuid), req, env)
      ensures Refers(next) && Stable()
    {
      hide RoomManager.Value, GameManager.Value, DoCloseRoom, DoStartGame;
      match req
      case CloseRoom =>
        AdminCloseRoom(user, room);
        next := MenuHandler(user);
      case StartGame(questions) => next := AdminStartGame(user, room, questions, env.readings.first);
      case _ => next := AdminHandler(user, room);
    }

    method GameRequest(user: Name, game: GameManagers.Game, req: Request, env: Env) returns (next: Handler)
      requires Valid() && game in games.games && game.uuid in rooms.rooms
      requires LookupsSucceed(Value(), Playing(user, game.uuid, None))
      requires ReadsSucceed(Value(), Playing(user, game.uuid, None), req, env)
      modifies games, game, db, rooms, rooms.rooms[game.uuid]
      ensures Valid() && (Value(), SessionOf(next)) == Handle(old(Value()), Playing(user, game.uuid, None), req, env)
      ensures Refers(next) && Stable()
    {
      hide RoomManager.Value, GameManager.Value, DoLeaveGame, DoSubmitAnswer, HaveAnswers;
      match req
      case LeaveGame =>
        GameLeave(user, game, env);
        next := MenuHandler(user);
      case SubmitAnswer(choice, question) =>
        next := GameSubmitAnswer(user, game, choice, question, env.readings);
      case GetQuestion =>
        games.Lookup(game);
        var _ := GameGetQuestion(game, env.readings);
        next := GameHandler(user, game, None);
      case GetGameResults(readable) =>
        games.Lookup(game);
        var _ := GameGetResults(user, game, readable, env.readings.first, env.undefined);
        next := GameHandler(user, game, None);
      case _ => next := GameHandler(user, game, None);
    }

    /** `handleRequest` on EXIT. */
    method HandleExit(h: Handler, env: Env)
      requires Valid() && Refers(h) && LookupsSucceed(Value(), SessionOf(h))
      modifies login, db, rooms, rooms.rooms.Values, games, games.games
      ensures Valid() && Value() == Sessions.HandleExit(old(Value()), old(SessionOf(h)), env) && Stable()
    {
      hide RoomManager.Value, GameManager.Value, DoLeaveRoom, DoLeaveGame, DoCloseRoom, HaveAnswers, Without;
      match h
      case LoginHandler =>
      case VerifyHandler(v) => AbortSignupProcess(v, env.deletes);
      case MenuHandler(user) => MenuLogout(user);
      case MemberHandler(user, room, roomUuid) =>
        MenuLogout(user);
        MemberLeaveRoom(user, room, roomUuid, env);
      case AdminHandler(user, room) =>
        MenuLogout(user);
        AdminCloseRoom(user, room);
      case GameHandler(user, game, _) =>
        MenuLogout(user);
        rooms.Lookup(game.uuid);
        GameLeave(user, game, env);
    }

    /** Whatever another client's handler refers to is still the registered object, as long as its id is
        registered, and was not given to a new room in the meantime. */
    twostate lemma StillRefers(h: Handler)
      requires old(Refers(h)) && Stable() && Valid()
      requires h.MemberHandler? && h.roomUuid in rooms.rooms ==> h.roomUuid in old(rooms.rooms)
      requires h.AdminHandler? ==> h.room.uuid in rooms.rooms
      requires h.GameHandler? ==> h.game.uuid in games.Value()
      ensures Refers(h)
    {
    }
  }
}
