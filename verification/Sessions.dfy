/**
 The session protocol: the shared state behind the request handlers, and what each handler does to it
 on each request (the files of `requestHandlers`, with the managers they call).  A handled request is one
 atomic step; only the sleep inside `Game::submitAnswer` is split in two.
 */
module Sessions {
  import opened Widths
  import opened Names
  import opened Questions
  import opened Scores
  import opened Statistics
  import opened TimeWindows
  import opened Games

  type Uuid = string

  /** A connected client's current request handler. */
  datatype Session =
    | Login
    | Verification(user: Name, email: string, code: string, tries: nat)
    | Menu(user: Name)
    | Member(user: Name, room: Uuid)
    | Admin(user: Name, room: Uuid)
    | Playing(user: Name, room: Uuid, asleep: Option<Pending>)

  datatype RoomValue = RoomValue(users: seq<Name>, maxPlayers: u32, questionCount: u32, limit: u32, active: bool)

  datatype Account = Account(password: string, email: string)

  /** The state the handlers share.  `base` and `ledger` are history: each user's row when he was
      created or loaded, and the outcomes written to it since. */
  datatype Hub = Hub(logged: seq<Name>, rooms: map<Uuid, RoomValue>, games: map<Uuid, GameValue>,
                     accounts: map<Name, Account>, rows: map<Name, Row>,
                     base: map<Name, Row>, ledger: map<Name, seq<Outcome>>)

  datatype Request =
    | LogIn(name: Name, password: string, readable: bool)
    | SignUp(name: Name, password: string, email: string, valid: bool, stored: bool, readable: bool,
             code: string, emailed: bool)
    | SubmitCode(code: string)
    | ResendCode(code: string, emailed: bool)
    | LogOut
    | CreateRoom(roomName: string, maxPlayers: u32, questionCount: u32, limit: u32, uuid: Uuid)
    | JoinRoom(uuid: Uuid)
    | CloseRoom
    | StartGame(questions: Option<seq<Question>>)
    | GetRooms(unreadable: set<Uuid>)  // the rooms for whose users the database fails
    | GetRoomState(readable: bool)
    | LeaveRoom
    | LeaveGame
    | GetQuestion
    | GetGameResults(readable: bool)  // whether the database can be asked about the players
    | SubmitAnswer(choice: u32, question: u32)
    | Other  // malformed, irrelevant to the handler, or reading only what is certain to be there

  /** What the surroundings contribute to a step: the clock readings, the users whose statistics the
      database fails to write, whether it deletes a user when told to, and the value of an undefined
      conversion or division. */
  datatype Env = Env(readings: Readings, failing: set<Name>, deletes: bool, undefined: int)

  // ----- managers -----

  /** `LoginManager::login`. */
  predicate CanLogIn(h: Hub, name: Name, password: string) {
    name in h.accounts && h.accounts[name].password == password && name !in h.logged
  }

  function LoggedIn(h: Hub, name: Name): Hub {
    h.(logged := h.logged + [name])
  }

  /** `LoginManager::logout`. */
  function LoggedOut(h: Hub, name: Name): Hub {
    h.(logged := Without(h.logged, name))
  }

  /** `SqliteDatabase::addUser` succeeds. */
  predicate CanAdd(h: Hub, name: Name, email: string) {
    name !in h.accounts && forall n :: n in h.accounts ==> h.accounts[n].email != email
  }

  function Added(h: Hub, name: Name, account: Account): Hub {
    h.(accounts := h.accounts[name := account], rows := h.rows[name := EMPTY_ROW],
       base := h.base[name := EMPTY_ROW], ledger := h.ledger[name := []])
  }

  /** `SqliteDatabase::removeUser`; the statistics row goes with the user. */
  function Removed(h: Hub, name: Name): Hub {
    h.(accounts := h.accounts - {name}, rows := h.rows - {name},
       base := h.base - {name}, ledger := h.ledger - {name})
  }

  predicate HaveAnswers(sent: map<Name, GameData>) {
    forall n :: n in sent ==> sent[n].answers != []
  }

  /** `submitGameStatistics` for every record sent, except where the database fails. */
  function RowsWritten(rows: map<Name, Row>, sent: map<Name, GameData>, env: Env): map<Name, Row>
    requires HaveAnswers(sent)
  {
    map n | n in rows ::
      if n in sent && n !in env.failing then ApplyGame(rows[n], OutcomeOf(sent[n], env.undefined)) else rows[n]
  }

  function LedgerWritten(ledger: map<Name, seq<Outcome>>, rows: map<Name, Row>, sent: map<Name, GameData>, env: Env)
    : map<Name, seq<Outcome>>
    requires HaveAnswers(sent)
  {
    map n | n in ledger ::
      if n in sent && n in rows && n !in env.failing then ledger[n] + [OutcomeOf(sent[n], env.undefined)] else ledger[n]
  }

  function Written(h: Hub, sent: map<Name, GameData>, env: Env): Hub
    requires HaveAnswers(sent)
  {
    h.(rows := RowsWritten(h.rows, sent, env), ledger := LedgerWritten(h.ledger, h.rows, sent, env))
  }

  /** The lookups of `removePlayerFromGame` succeed. */
  predicate Removable(h: Hub, uuid: Uuid, user: Name) {
    uuid in h.games && user in h.games[uuid].players && HaveAnswers(h.games[uuid].players)
  }

  /** `GameManager::removePlayerFromGame`: the game goes with its last online player. */
  function RemovedFromGame(h: Hub, uuid: Uuid, user: Name, env: Env): Hub
    requires Removable(h, uuid, user)
  {
    var g := h.games[uuid];
    var after := Games.Leave(g, user, env.readings);
    SubmissionsHaveAnswers(g, user, env.readings);
    Written(h, Submissions(g, user, env.readings), env)
      .(games := if after.online == [] then h.games - {uuid} else h.games[uuid := after])
  }

  /** It reports an error only when the leaver's own result could not be written. */
  predicate RemovalFails(h: Hub, uuid: Uuid, user: Name, env: Env)
    requires Removable(h, uuid, user)
  {
    !FinishedAt(h.games[uuid], env.readings.second) && (user in env.failing || user !in h.rows)
  }

  lemma SubmissionsHaveAnswers(g: GameValue, user: Name, r: Readings)
    requires user in g.players && HaveAnswers(g.players)
    ensures HaveAnswers(Submissions(g, user, r))
  {
    OwnResultEffects(g, user, r);
  }

  /** `Room::removeUser`. */
  function RoomWithout(r: RoomValue, user: Name): RoomValue {
    r.(users := Without(r.users, user))
  }

  /** `RoomManager::removePlayerFromRoom`: the room goes with its last user. */
  function RemovedFromRoom(h: Hub, uuid: Uuid, user: Name): Hub
    requires uuid in h.rooms
  {
    var r := RoomWithout(h.rooms[uuid], user);
    h.(rooms := if r.users == [] then h.rooms - {uuid} else h.rooms[uuid := r])
  }

  /** `MenuRequestHandler::isValidRoomDetails`. */
  predicate ValidDetails(roomName: string, maxPlayers: u32, questionCount: u32, limit: u32) {
    |roomName| >= 4 && maxPlayers > 1 && questionCount >= 2 && limit >= 5
  }

  // ----- handlers: each returns the new shared state and the client's next handler -----

  type Next = (Hub, Session)

  /** `readable` says whether the database can be asked about the user. */
  function DoLogIn(h: Hub, name: Name, password: string, readable: bool): Next {
    if readable && CanLogIn(h, name, password) then (LoggedIn(h, name), Menu(name)) else (h, Login)
  }

  /** `stored` is the fate of the insertion, and `readable` that of the reads of the login behind it. */
  function DoSignUp(h: Hub, req: Request, deletes: bool): Next
    requires req.SignUp?
  {
    if !req.valid || !CanAdd(h, req.name, req.email) || !req.stored then (h, Login)
    else
      var added := Added(h, req.name, Account(req.password, req.email));
      if !req.readable || !CanLogIn(added, req.name, req.password) then (added, Login)
      else if !req.emailed then (Abort(LoggedIn(added, req.name), req.name, deletes), Login)
      else (LoggedIn(added, req.name), Verification(req.name, req.email, req.code, 0))
  }

  /** A deletion that fails is not noticed. */
  function Abort(h: Hub, name: Name, deletes: bool): Hub {
    LoggedOut(if deletes && name in h.accounts then Removed(h, name) else h, name)
  }

  const MAX_TRIES: nat := 5

  function DoSubmitCode(h: Hub, s: Session, code: string, deletes: bool): Next
    requires s.Verification?
  {
    if code == s.code then (h, Menu(s.user))
    else if s.tries + 1 >= MAX_TRIES then (Abort(h, s.user, deletes), Login)
    else (h, s.(tries := s.tries + 1))
  }

  function DoResend(h: Hub, s: Session, code: string, emailed: bool): Next
    requires s.Verification?
  {
    (h, if emailed then s.(code := code) else s)
  }

  function DoCreateRoom(h: Hub, user: Name, req: Request): Next
    requires req.CreateRoom?
  {
    if ValidDetails(req.roomName, req.maxPlayers, req.questionCount, req.limit)
    then (h.(rooms := h.rooms[req.uuid := RoomValue([user], req.maxPlayers, req.questionCount, req.limit, false)]),
          Admin(user, req.uuid))
    else (h, Menu(user))
  }

  /** `Room::addUser` succeeds. */
  predicate CanJoin(r: RoomValue, user: Name) {
    |r.users| < r.maxPlayers && user !in r.users
  }

  function DoJoinRoom(h: Hub, user: Name, uuid: Uuid): Next {
    if uuid in h.rooms && CanJoin(h.rooms[uuid], user)
    then (h.(rooms := h.rooms[uuid := h.rooms[uuid].(users := h.rooms[uuid].users + [user])]), Member(user, uuid))
    else (h, Menu(user))
  }

  function DoCloseRoom(h: Hub, user: Name, uuid: Uuid): Next {
    (h.(rooms := h.rooms - {uuid}), Menu(user))
  }

  function DoStartGame(h: Hub, user: Name, uuid: Uuid, questions: Option<seq<Question>>, now: nat): Next
    requires uuid in h.rooms
  {
    var r := h.rooms[uuid];
    if |r.users| <= 1 || questions.None? || |questions.value| != r.questionCount then (h, Admin(user, uuid))
    else (h.(games := h.games[uuid := NewGame(questions.value, r.limit, r.users, now)],
             rooms := h.rooms[uuid := r.(active := true)]),
          Playing(user, uuid, None))
  }

  /** `RoomMemberRequestHandler::getRoomState`; the game is looked up only when the room is active. */
  function DoMemberState(h: Hub, user: Name, uuid: Uuid, readable: bool): Next {
    if uuid !in h.rooms then (h, Menu(user))
    else if !readable || !h.rooms[uuid].active then (h, Member(user, uuid))
    else (h, Playing(user, uuid, None))
  }

  function DoLeaveRoom(h: Hub, user: Name, uuid: Uuid, env: Env): Next
    requires uuid in h.rooms && h.rooms[uuid].active ==> Removable(h, uuid, user)
  {
    if uuid !in h.rooms then (h, Menu(user))
    else
      var after := if h.rooms[uuid].active then RemovedFromGame(h, uuid, user, env) else h;
      (after.(rooms := h.rooms[uuid := RoomWithout(h.rooms[uuid], user)]), Menu(user))
  }

  /** A failed removal returns before the user is taken out of the room.  The branches that a finished and
      an unfinished game take differ in nothing but what they log. */
  function DoLeaveGame(h: Hub, user: Name, uuid: Uuid, env: Env): Next
    requires Removable(h, uuid, user) && uuid in h.rooms
  {
    var after := RemovedFromGame(h, uuid, user, env);
    (if RemovalFails(h, uuid, user, env) then after else RemovedFromRoom(after, uuid, user), Menu(user))
  }

  function DoSubmitAnswer(h: Hub, s: Session, choice: u32, question: u32, r: Readings): Next
    requires s.Playing? && s.room in h.games
  {
    match Decide(h.games[s.room], choice, question, r.first, r.second)
    case Sleeping(p) => (h, s.(asleep := Some(p)))
    case Refused => (h, s)
  }

  /** The room and game lookups a handler makes without checking them. */
  predicate LookupsSucceed(h: Hub, s: Session) {
    match s
    case Admin(_, room) => room in h.rooms
    case Member(user, room) => room in h.rooms && h.rooms[room].active ==> Removable(h, room, user)
    case Playing(user, room, _) => room in h.rooms && Removable(h, room, user)
    case _ => true
  }

  /**
   The lookups that a request makes without checking only to build its response: `getRooms` looks up
   the game of every active room whose users it could read (there is nothing to read of an empty one),
   and `getQuestion` indexes the questions with a reading of the clock later than its guard's.
   */
  predicate ReadsSucceed(h: Hub, s: Session, req: Request, env: Env)
    requires LookupsSucceed(h, s)
  {
    match req
    case GetRooms(unreadable) =>
      s.Menu? ==>
        forall u :: u in h.rooms && h.rooms[u].active && (h.rooms[u].users == [] || u !in unreadable) ==> u in h.games
    case GetQuestion =>
      s.Playing? && !FinishedAt(h.games[s.room], env.readings.first) ==>
        CurrentQuestion(h.games[s.room], env.readings) < |h.games[s.room].questions|
    case _ => true
  }

  /** The index `getQuestion` goes by once its guard has passed. */
  function CurrentQuestion(g: GameValue, r: Readings): u32
    requires !FinishedAt(g, r.first)
  {
    CurrentIndex(g.limit, Elapsed(g.start, r.second))
  }

  /** `handleRequest` of the handler `s`, for every request but EXIT. */
  function Handle(h: Hub, s: Session, req: Request, env: Env): Next
    requires LookupsSucceed(h, s)
  {
    match s
    case Login =>
      (match req
       case LogIn(name, password, readable) => DoLogIn(h, name, password, readable)
       case SignUp(_, _, _, _, _, _, _, _) => DoSignUp(h, req, env.deletes)
       case _ => (h, s))
    case Verification(_, _, _, _) =>
      (match req
       case SubmitCode(code) => DoSubmitCode(h, s, code, env.deletes)
       case ResendCode(code, emailed) => DoResend(h, s, code, emailed)
       case _ => (h, s))
    case Menu(user) =>
      (match req
       case LogOut => (LoggedOut(h, user), Login)
       case CreateRoom(_, _, _, _, _) => DoCreateRoom(h, user, req)
       case JoinRoom(uuid) => DoJoinRoom(h, user, uuid)
       case _ => (h, s))
    case Member(user, room) =>
      (match req
       case LeaveRoom => DoLeaveRoom(h, user, room, env)
       case GetRoomState(readable) => DoMemberState(h, user, room, readable)
       case _ => (h, s))
    case Admin(user, room) =>
      (match req
       case CloseRoom => DoCloseRoom(h, user, room)
       case StartGame(questions) => DoStartGame(h, user, room, questions, env.readings.first)
       case _ => (h, s))
    case Playing(user, room, _) =>
      (match req
       case LeaveGame => DoLeaveGame(h, user, room, env)
       case SubmitAnswer(choice, question) => DoSubmitAnswer(h, s, choice, question, env.readings)
       case _ => (h, s))
  }

  /** `handleRequest` of the handler `s` on EXIT; the connection is closed afterwards. */
  function HandleExit(h: Hub, s: Session, env: Env): Hub
    requires LookupsSucceed(h, s)
  {
    match s
    case Login => h
    case Verification(user, _, _, _) => Abort(h, user, env.deletes)
    case Menu(user) => LoggedOut(h, user)
    case Member(user, room) => DoLeaveRoom(LoggedOut(h, user), user, room, env).0
    case Admin(user, room) => DoCloseRoom(LoggedOut(h, user), user, room).0
    case Playing(user, room, _) => DoLeaveGame(LoggedOut(h, user), user, room, env).0
  }

  // ----- the server -----

  type Client = string

  /** `pending` is history: the accounts that were created and not verified yet. */
  datatype World = World(hub: Hub, clients: map<Client, Session>, now: nat, pending: set<Name>)

  /** `Disconnect` is an EXIT, received or substituted for a failed send. */
  datatype Step =
    | Connect(c: Client)
    | Serve(c: Client, req: Request, env: Env)
    | WakeUp(c: Client, at: nat)
    | Disconnect(c: Client, env: Env)

  predicate Awake(s: Session) {
    s.Playing? ==> s.asleep.None?
  }

  /** The connection is there, and its thread is not inside a sleep (or is, for waking up). */
  predicate Ready(w: World, st: Step) {
    match st
    case Connect(c) => c !in w.clients
    case Serve(c, _, _) => c in w.clients && Awake(w.clients[c])
    case WakeUp(c, _) => c in w.clients && !Awake(w.clients[c])
    case Disconnect(c, _) => c in w.clients && Awake(w.clients[c])
  }

  /** What the surroundings guarantee: a room id that is not in the map, sound questions, a clock that
      moves forward, and a sleeper that sleeps until the release. */
  predicate Surroundings(w: World, st: Step)
    requires Ready(w, st)
  {
    match st
    case Connect(_) => true
    case Serve(_, req, env) =>
      && Monotone(w.now, env.readings)
      && (req.CreateRoom? ==> req.uuid !in w.hub.rooms)
      && (req.StartGame? && req.questions.Some? ==> forall q :: q in req.questions.value ==> Sound(q))
    case WakeUp(c, at) =>
      && w.now <= at
      && var s := w.clients[c];
         s.room in w.hub.games ==> s.asleep.value.release <= Elapsed(w.hub.games[s.room].start, at)
    case Disconnect(_, env) => Monotone(w.now, env.readings)
  }

  predicate Enabled(w: World, st: Step) {
    Ready(w, st) && Surroundings(w, st)
  }

  /** The unchecked lookups and index accesses of the step succeed. */
  predicate Defined(w: World, st: Step)
    requires Enabled(w, st)
  {
    match st
    case Connect(_) => true
    case WakeUp(c, _) =>
      var s := w.clients[c];
      && s.room in w.hub.games && s.user in w.hub.games[s.room].players
      && s.asleep.value.question < |w.hub.games[s.room].players[s.user].answers|
    case Serve(c, req, env) => LookupsSucceed(w.hub, w.clients[c]) && ReadsSucceed(w.hub, w.clients[c], req, env)
    case Disconnect(c, _) => LookupsSucceed(w.hub, w.clients[c])
  }

  /** A new account is pending until its session reaches the menu, or until it is deleted. */
  function PendingAfter(w: World, hub: Hub, before: Session, after: Session): set<Name> {
    set n | n in w.pending + (hub.accounts.Keys - w.hub.accounts.Keys)
          && n in hub.accounts && !(before.Verification? && before.user == n && after.Menu?)
  }

  function After(w: World, st: Step): World
    requires Enabled(w, st) && Defined(w, st)
  {
    match st
    case Connect(c) => w.(clients := w.clients[c := Login])
    case Serve(c, req, env) =>
      var (hub, s) := Handle(w.hub, w.clients[c], req, env);
      World(hub, w.clients[c := s], env.readings.third, PendingAfter(w, hub, w.clients[c], s))
    case WakeUp(c, at) =>
      var s := w.clients[c];
      var g := Woken(w.hub.games[s.room], s.user, s.asleep.value);
      w.(hub := w.hub.(games := w.hub.games[s.room := g]), clients := w.clients[c := s.(asleep := None)], now := at)
    case Disconnect(c, env) =>
      var hub := HandleExit(w.hub, w.clients[c], env);
      World(hub, w.clients - {c}, env.readings.third, PendingAfter(w, hub, w.clients[c], Login))
  }
}
