/** What holds over whole runs of the server. */
module ServerRuns {
  import opened Widths
  import opened Names
  import opened Scores
  import opened Statistics
  import opened Games
  import opened Sessions
  import opened SessionInvariant
  import opened RoomSteps
  import opened LeaveSteps
  import opened ServerSafety

  /** Every step can happen and is admissible when it does. */
  ghost predicate Allowed(w: World, steps: seq<Step>)
    requires Inv(w)
    decreases |steps|
  {
    steps == [] ||
    (Enabled(w, steps[0]) && Answerable(w, steps[0]) &&
     (StepKeepsInvIff(w, steps[0]);
      Admissible(w, steps[0]) && Allowed(After(w, steps[0]), steps[1..])))
  }

  ghost function End(w: World, steps: seq<Step>): (end: World)
    requires Inv(w) && Allowed(w, steps)
    ensures Inv(end)
    decreases |steps|
  {
    if steps == [] then w
    else
      StepKeepsInvIff(w, steps[0]);
      End(After(w, steps[0]), steps[1..])
  }

  /**
   In every state that an admissible run reaches from the start of the server: every reference a handler
   holds is valid, and every lookup and index of the next step is valid if and only if its request can be
   answered; the counters of every account are, modulo 2^32, what its row held first plus what was
   written since; and nobody is in two rooms.
   */
  lemma ReachableStatesAreSafe(w: World, steps: seq<Step>, next: Step)
    requires Initial(w) && (InitialInv(w); Allowed(w, steps))
    ensures (InitialInv(w);
             var end := End(w, steps);
             && (Enabled(end, next) ==> HeldReferences(end, next) && (Defined(end, next) <==> Answerable(end, next)))
             && (forall n :: n in end.hub.accounts ==>
                   && n in end.hub.rows && n in end.hub.base && n in end.hub.ledger
                   && CountersAddUp(end.hub.rows[n], end.hub.base[n], end.hub.ledger[n]))
             && (forall n, u, v :: InRoom(end.hub, n, u) && InRoom(end.hub, n, v) ==> u == v))
  {
    InitialInv(w);
    InvMeansSafe(End(w, steps), next);
  }

  /**
   In the same states: the logged-in users are, each once, the users of the sessions beyond the login
   screen, all of them with accounts; the unverified accounts are those of the verification sessions, one
   each; a game is there exactly when its room is active and has users, who are then its online players;
   and no room holds more users than it may, nor a game fewer than two questions or five seconds.
   */
  lemma ReachableStatesAgree(w: World, steps: seq<Step>)
    requires Initial(w) && (InitialInv(w); Allowed(w, steps))
    ensures (InitialInv(w); Agrees(End(w, steps)))
  {
    hide Initial, Allowed, Agrees;
    InitialInv(w);
    InvMeansAgreement(End(w, steps));
  }

  ghost predicate Agrees(w: World) {
    && Distinct(w.hub.logged)
    && (forall n :: n in w.hub.logged <==> exists c :: IsSessionOf(w.clients, c, n))
    && (forall n :: n in w.hub.logged ==> n in w.hub.accounts)
    && (forall c, d, n :: IsSessionOf(w.clients, c, n) && IsSessionOf(w.clients, d, n) ==> c == d)
    && (forall n :: n in w.pending <==> exists c :: IsSessionOf(w.clients, c, n) && w.clients[c].Verification?)
    && (forall u :: u in w.hub.games <==> u in w.hub.rooms && w.hub.rooms[u].active && w.hub.rooms[u].users != [])
    && (forall u :: u in w.hub.games ==> w.hub.games[u].online == w.hub.rooms[u].users)
    && (forall u :: u in w.hub.rooms ==> Distinct(w.hub.rooms[u].users) && |w.hub.rooms[u].users| <= w.hub.rooms[u].maxPlayers)
    && (forall u :: u in w.hub.games ==>
          |w.hub.games[u].players| >= 2 && |w.hub.games[u].questions| >= 2 && w.hub.games[u].limit >= 5)
  }

  lemma InvMeansAgreement(w: World)
    requires Inv(w)
    ensures Agrees(w)
  {
    hide Accounted, History, SeatsTaken, OneAdmin, Distinct, SessionOk;
    forall c, d, n | IsSessionOf(w.clients, c, n) && IsSessionOf(w.clients, d, n)
      ensures c == d
    {
      assert SameUser(w.clients[c], w.clients[d]);
    }
  }

  lemma InvMeansSafe(w: World, next: Step)
    requires Inv(w)
    ensures Enabled(w, next) ==> HeldReferences(w, next) && (Defined(w, next) <==> Answerable(w, next))
    ensures forall n :: n in w.hub.accounts ==>
              && n in w.hub.rows && n in w.hub.base && n in w.hub.ledger
              && CountersAddUp(w.hub.rows[n], w.hub.base[n], w.hub.ledger[n])
    ensures forall n, u, v :: InRoom(w.hub, n, u) && InRoom(w.hub, n, v) ==> u == v
  {
    hide UsersInv, SeatsInv, GamesInv, GamesMatch, Defined, Enabled, History, HeldReferences, Answerable;
    if Enabled(w, next) {
      HeldReferencesAreValid(w, next);
      DefinedIff(w, next);
    }
    forall n | n in w.hub.accounts
      ensures CountersAddUp(w.hub.rows[n], w.hub.base[n], w.hub.ledger[n])
    {
      assert n in w.hub.rows;
      Conservation(w.hub.base[n], w.hub.ledger[n]);
    }
    forall n, u, v | InRoom(w.hub, n, u) && InRoom(w.hub, n, v)
      ensures u == v
    {
      OneRoomEach(w, n, u, v);
    }
  }

  predicate InRoom(h: Hub, n: Name, u: Uuid) {
    u in h.rooms && n in h.rooms[u].users
  }

  ghost predicate CountersAddUp(row: Row, base: Row, ledger: seq<Outcome>) {
    && row.games == Wrap(base.games + |ledger|)
    && row.correct == Wrap(base.correct + CorrectTotal(ledger))
    && row.wrong == Wrap(base.wrong + WrongTotal(ledger))
    && CorrectTotal(ledger) + WrongTotal(ledger) == AnswerTotal(ledger)
  }

  // ----- disconnecting -----

  /** The user is in no list of the server. */
  ghost predicate Gone(h: Hub, user: Name) {
    && user !in h.logged
    && (forall u :: u in h.rooms ==> user !in h.rooms[u].users)
    && (forall u :: u in h.games ==> user !in h.games[u].online)
  }

  /**
   Whatever handler a client had, after its EXIT the connection is gone, and its user is in no list
   any more if and only if his result could be written when he had to leave a running game.
   */
  lemma DisconnectIsCleanIff(w: World, c: Client, env: Env)
    requires Inv(w) && Enabled(w, Disconnect(c, env)) && Named(w.clients[c])
    ensures Defined(w, Disconnect(c, env))
    ensures var after := After(w, Disconnect(c, env));
            && c !in after.clients
            && w.clients[c].user !in after.hub.logged
            && (Gone(after.hub, w.clients[c].user) <==> ResultIsWritten(w, w.clients[c], env))
  {
    hide Inv, After, HandleExit, Gone, Surroundings, RemovalFails;
    HeldReferencesAreValid(w, Disconnect(c, env));
    ClientsAfterExit(w, c, env);
    LogsOut(w, c, env);
    if w.clients[c].Verification? {
      VerifierIsGone(w, c, env);
    } else if ResultIsWritten(w, w.clients[c], env) {
      LeaverIsGone(w, c, env);
    } else {
      StrandedLeaver(w, c, env);
    }
  }

  /** Whoever is still verifying sits in no room, whether his account is deleted or not. */
  lemma VerifierIsGone(w: World, c: Client, env: Env)
    requires Inv(w) && Enabled(w, Disconnect(c, env)) && w.clients[c].Verification? && Defined(w, Disconnect(c, env))
    ensures Gone(After(w, Disconnect(c, env)).hub, w.clients[c].user)
  {
    hide TablesInv, GamesInv, UsersInv, Without;
    LogsOut(w, c, env);
    var user := w.clients[c].user;
    forall u | u in w.hub.rooms
      ensures user !in w.hub.rooms[u].users
    {
      if user in w.hub.rooms[u].users {
        OnlySeat(w, c, user, u);
      }
    }
  }

  lemma LeaverIsGone(w: World, c: Client, env: Env)
    requires Inv(w) && Enabled(w, Disconnect(c, env)) && Named(w.clients[c]) && Defined(w, Disconnect(c, env))
    requires !w.clients[c].Verification? && ResultIsWritten(w, w.clients[c], env)
    ensures Gone(After(w, Disconnect(c, env)).hub, w.clients[c].user)
  {
    hide Inv, After, HandleExit, Surroundings, RemovalFails;
    IsOnlySession(w, c);
    LogsOut(w, c, env);
    ClientsAfterExit(w, c, env);
    DisconnectKeepsInvIff(w, c, env);
    NoSeatLeft(w.clients, c, After(w, Disconnect(c, env)));
  }

  lemma StrandedLeaver(w: World, c: Client, env: Env)
    requires Inv(w) && Enabled(w, Disconnect(c, env)) && Named(w.clients[c]) && Defined(w, Disconnect(c, env))
    requires !ResultIsWritten(w, w.clients[c], env)
    ensures !Gone(After(w, Disconnect(c, env)).hub, w.clients[c].user)
  {
    hide Inv, RemovalFails, RemovedFromGame, RemovedFromRoom, Without;
    FailedLeaveBreaksInv(w, c, true, env, After(w, Disconnect(c, env)));
  }

  lemma ClientsAfterExit(w: World, c: Client, env: Env)
    requires Enabled(w, Disconnect(c, env)) && Defined(w, Disconnect(c, env))
    ensures After(w, Disconnect(c, env)).clients == w.clients - {c}
  {
  }

  lemma NoSeatLeft(clients: Clients, c: Client, after: World)
    requires OnlySession(clients, c) && after.clients == clients - {c} && Inv(after)
    ensures forall u :: u in after.hub.rooms ==> clients[c].user !in after.hub.rooms[u].users
    ensures forall u :: u in after.hub.games ==> clients[c].user !in after.hub.games[u].online
  {
    var user := clients[c].user;
    forall u | u in after.hub.rooms
      ensures user !in after.hub.rooms[u].users
    {
      if user in after.hub.rooms[u].users {
        var d :| SitsAt(after.clients, d, user, u);
        assert SameUser(clients[d], clients[c]);
      }
    }
  }

  lemma LogsOut(w: World, c: Client, env: Env)
    requires Enabled(w, Disconnect(c, env)) && Defined(w, Disconnect(c, env)) && Named(w.clients[c])
    ensures w.clients[c].user !in After(w, Disconnect(c, env)).hub.logged
  {
    hide Without, Games.Leave, Submissions;
    WithoutMembers(w.hub.logged, w.clients[c].user);
  }

  // ----- connections -----

  function Connects(steps: seq<Step>, c: Client): nat {
    if steps == [] then 0 else (if steps[0] == Connect(c) then 1 else 0) + Connects(steps[1..], c)
  }

  function Exits(steps: seq<Step>, c: Client): nat {
    if steps == [] then 0
    else (if steps[0].Disconnect? && steps[0].c == c then 1 else 0) + Exits(steps[1..], c)
  }

  function Open(w: World, c: Client): nat {
    if c in w.clients then 1 else 0
  }

  /** Every connection that ended had exactly one EXIT handled, and every open one none. */
  lemma {:induction false} OneExitPerConnection(w: World, steps: seq<Step>, c: Client)
    requires Inv(w) && Allowed(w, steps)
    ensures Open(w, c) + Connects(steps, c) == Exits(steps, c) + Open(End(w, steps), c)
    decreases |steps|
  {
    if steps != [] {
      StepKeepsInvIff(w, steps[0]);
      ClientsOfStep(w, steps[0], c);
      OneExitPerConnection(After(w, steps[0]), steps[1..], c);
    }
  }

  lemma ClientsOfStep(w: World, st: Step, c: Client)
    requires Enabled(w, st) && Defined(w, st)
    ensures c in After(w, st).clients <==>
            (c in w.clients || st == Connect(c)) && !(st.Disconnect? && st.c == c)
    ensures st == Connect(c) ==> c !in w.clients
    ensures st.Disconnect? && st.c == c ==> c in w.clients
  {
    hide Handle, HandleExit;
  }

  // ----- results -----

  /** The removal of `user` from `g` marks the record of `n`. */
  predicate NewlyMarked(g: GameValue, user: Name, r: Readings, n: Name)
    requires user in g.players
  {
    && n in g.players && !g.players[n].submitted
    && n in Games.Leave(g, user, r).players && Games.Leave(g, user, r).players[n].submitted
  }

  /**
   A removal appends to the ledger of each player exactly the outcome of the record he is left with, if
   the removal marks that record and the database takes the row, and nothing otherwise; nobody outside
   the game is written to.
   */
  lemma RemovalWritesTheNewlyMarked(w: World, uuid: Uuid, user: Name, env: Env, n: Name)
    requires Inv(w) && uuid in w.hub.games && user in w.hub.games[uuid].online && Monotone(w.now, env.readings)
    requires n in w.hub.ledger
    ensures Removable(w.hub, uuid, user) && n in RemovedFromGame(w.hub, uuid, user, env).ledger
    ensures var written, g := RemovedFromGame(w.hub, uuid, user, env).ledger[n], w.hub.games[uuid];
            if NewlyMarked(g, user, env.readings, n) && n !in env.failing
            then var d := Games.Leave(g, user, env.readings).players[n];
                 d.answers != [] && written == w.hub.ledger[n] + [OutcomeOf(d, env.undefined)]
            else written == w.hub.ledger[n]
  {
    assert n in w.hub.rows;
    hide UsersInv, SeatsInv, TablesInv, GamesMatch, Games.Leave, Submissions, GameLeft;
    SentAreVerified(w, uuid, user, env);
    var g := w.hub.games[uuid];
    SubmissionsHaveAnswers(g, user, env.readings);
    WrittenLedger(w.hub, Submissions(g, user, env.readings), env, n);
    SubmissionsAreTheNewlyMarked(g, user, w.now, env.readings);
    if n in Submissions(g, user, env.readings) {
      OutcomeOfSame(Submissions(g, user, env.readings)[n], Games.Leave(g, user, env.readings).players[n], env.undefined);
    }
  }

  /** The game a session is in: a member of an active room is in it even before his handler knows. */
  function GameOf(h: Hub, s: Session): Option<Uuid> {
    match s
    case Playing(_, room, _) => Some(room)
    case Member(_, room) => if room in h.rooms && h.rooms[room].active then Some(room) else None
    case _ => None
  }

  predicate Leaves(s: Session, req: Request) {
    (s.Playing? && req.LeaveGame?) || (s.Member? && req.LeaveRoom?)
  }

  /** The game that the step removes its client's user from. */
  function GameLeftBy(w: World, st: Step): Option<Uuid>
    requires Enabled(w, st)
  {
    match st
    case Disconnect(c, _) => GameOf(w.hub, w.clients[c])
    case Serve(c, req, _) =>
      if Leaves(w.clients[c], req) then GameOf(w.hub, w.clients[c]) else None
    case _ => None
  }

  /**
   Nothing but a removal from a game writes to the ledger of an account: a step that removes nobody
   leaves every ledger alone, except that an account takes its own with it, and comes with an empty one.
   */
  lemma OnlyRemovalsWrite(w: World, st: Step)
    requires Inv(w) && Enabled(w, st) && Defined(w, st)
    ensures GameLeftBy(w, st).Some? ==>
              var (uuid, user) := (GameLeftBy(w, st).value, w.clients[st.c].user);
              && Removable(w.hub, uuid, user)
              && After(w, st).hub.ledger == RemovedFromGame(w.hub, uuid, user, st.env).ledger
    ensures GameLeftBy(w, st).None? ==> LedgersKept(w.hub, After(w, st).hub)
  {
    hide Inv, RemovedFromGame, Removable, LedgersKept, Handle, HandleExit, Surroundings, PendingAfter;
    LedgersAreOfAccounts(w);
    match st
    case Serve(c, req, env) => ServingWrites(w.hub, w.clients[c], req, env);
    case Disconnect(c, env) => ExitWrites(w.hub, w.clients[c], env);
    case _ => NothingWritten(w.hub, After(w, st).hub);
  }

  ghost predicate LedgersKept(h: Hub, after: Hub) {
    forall n :: n in after.ledger ==> after.ledger[n] == if n in h.ledger then h.ledger[n] else []
  }

  lemma NothingWritten(h: Hub, after: Hub)
    requires after.ledger == h.ledger
    ensures LedgersKept(h, after)
  {
  }

  lemma LedgersAreOfAccounts(w: World)
    requires Inv(w)
    ensures w.hub.ledger.Keys == w.hub.accounts.Keys
  {
  }

  lemma ServingWrites(h: Hub, s: Session, req: Request, env: Env)
    requires LookupsSucceed(h, s) && h.ledger.Keys == h.accounts.Keys
    ensures var game := if Leaves(s, req) then GameOf(h, s) else None;
            if game.Some?
            then Removable(h, game.value, s.user)
                 && Handle(h, s, req, env).0.ledger == RemovedFromGame(h, game.value, s.user, env).ledger
            else LedgersKept(h, Handle(h, s, req, env).0)
  {
    hide RemovedFromGame, Removable, RemovalFails, Decide, Without, NewGame, DoSignUp, DoSubmitCode, LedgersKept;
    if s.Login? && req.SignUp? {
      SignUpKeepsLedgers(h, req, env.deletes);
    } else if s.Verification? && req.SubmitCode? {
      SubmitCodeKeepsLedgers(h, s, req.code, env.deletes);
    } else if !Leaves(s, req) || GameOf(h, s).None? {
      NothingWritten(h, Handle(h, s, req, env).0);
    }
  }

  lemma SignUpKeepsLedgers(h: Hub, req: Request, deletes: bool)
    requires req.SignUp? && h.ledger.Keys == h.accounts.Keys
    ensures LedgersKept(h, DoSignUp(h, req, deletes).0)
  {
  }

  lemma SubmitCodeKeepsLedgers(h: Hub, s: Session, code: string, deletes: bool)
    requires s.Verification?
    ensures LedgersKept(h, DoSubmitCode(h, s, code, deletes).0)
  {
  }

  lemma ExitWrites(h: Hub, s: Session, env: Env)
    requires LookupsSucceed(h, s)
    ensures if GameOf(h, s).Some?
            then Removable(h, GameOf(h, s).value, s.user)
                 && HandleExit(h, s, env).ledger == RemovedFromGame(h, GameOf(h, s).value, s.user, env).ledger
            else LedgersKept(h, HandleExit(h, s, env))
  {
    hide RemovedFromGame, Removable, RemovalFails, Without;
    if GameOf(h, s).Some? {
      LogoutKeepsLedger(h, GameOf(h, s).value, s.user, env);
    }
  }

  lemma LogoutKeepsLedger(h: Hub, uuid: Uuid, user: Name, env: Env)
    ensures Removable(LoggedOut(h, user), uuid, user) <==> Removable(h, uuid, user)
    ensures Removable(h, uuid, user) ==>
              RemovedFromGame(LoggedOut(h, user), uuid, user, env).ledger == RemovedFromGame(h, uuid, user, env).ledger
  {
    if Removable(h, uuid, user) {
      LogoutCommutes(h, uuid, user, true, env);
    }
  }

  lemma WrittenLedger(h: Hub, sent: map<Name, GameData>, env: Env, n: Name)
    requires HaveAnswers(sent) && n in h.ledger && n in h.rows
    ensures n in Written(h, sent, env).ledger
    ensures Written(h, sent, env).ledger[n] ==
            if n in sent && n !in env.failing then h.ledger[n] + [OutcomeOf(sent[n], env.undefined)] else h.ledger[n]
  {
  }

  lemma OutcomeOfSame(d: GameData, e: GameData, undefined: int)
    requires SameResult(d, e) && d.answers != []
    ensures e.answers != [] && OutcomeOf(d, undefined) == OutcomeOf(e, undefined)
  {
  }

  // ----- deserted rooms -----

  ghost predicate NoDesertedRoom(rooms: map<Uuid, RoomValue>) {
    forall u :: u in rooms ==> !Deserted(rooms[u])
  }

  /** A member who is the last user of a room that plays already leaves it. */
  predicate LastMemberLeaves(w: World, st: Step)
    requires Enabled(w, st)
  {
    && (st.Disconnect? || (st.Serve? && st.req.LeaveRoom?))
    && LastMember(w.hub, w.clients[st.c])
  }

  predicate LastMember(h: Hub, s: Session) {
    s.Member? && s.room in h.rooms && h.rooms[s.room].active && h.rooms[s.room].users == [s.user]
  }

  /**
   The step after which the list of rooms cannot be read any more: rooms are first deserted exactly when
   the last user of an active room leaves it as a member, by request or by disconnecting.
   */
  lemma DesertedIff(w: World, st: Step)
    requires Inv(w) && Enabled(w, st) && Defined(w, st) && NoDesertedRoom(w.hub.rooms)
    ensures NoDesertedRoom(After(w, st).hub.rooms) <==> !LastMemberLeaves(w, st)
  {
    hide Inv, Handle, HandleExit, Surroundings, NoDesertedRoom, LastMember, PendingAfter;
    match st
    case Serve(c, req, env) =>
      MemberIsInRoom(w, c);
      ServingDesertsIff(w.hub, w.clients[c], req, env);
    case Disconnect(c, env) =>
      MemberIsInRoom(w, c);
      ExitDesertsIff(w.hub, w.clients[c], env);
    case _ =>
  }

  /** What the handlers know about the room they leave. */
  ghost predicate InHisRoom(h: Hub, s: Session) {
    HasSeat(s) && s.room in h.rooms ==> Distinct(h.rooms[s.room].users) && s.user in h.rooms[s.room].users
  }

  lemma MemberIsInRoom(w: World, c: Client)
    requires Inv(w) && c in w.clients
    ensures InHisRoom(w.hub, w.clients[c])
  {
    assert SessionOk(w.hub.rooms, w.hub.games, w.clients[c]);
  }

  lemma OnlyHe(names: seq<Name>, n: Name)
    requires Distinct(names) && n in names
    ensures Without(names, n) == [] <==> names == [n]
  {
    WithoutMembers(names, n);
    if |names| > 1 {
      var other := if names[0] == n then names[1] else names[0];
      assert other in names && other != n;
    }
  }

  lemma ServingDesertsIff(h: Hub, s: Session, req: Request, env: Env)
    requires LookupsSucceed(h, s) && InHisRoom(h, s) && NoDesertedRoom(h.rooms)
    ensures NoDesertedRoom(Handle(h, s, req, env).0.rooms) <==> !(req.LeaveRoom? && LastMember(h, s))
  {
    hide RemovedFromGame, Removable, RemovalFails, Decide, Without, NewGame, Distinct;
    if s.Member? && req.LeaveRoom? {
      LeavingDesertsIff(h, s, env);
    } else if s.Playing? && req.LeaveGame? {
      PlayersDesertNoRoom(h, s, env);
    }
  }

  lemma ExitDesertsIff(h: Hub, s: Session, env: Env)
    requires LookupsSucceed(h, s) && InHisRoom(h, s) && NoDesertedRoom(h.rooms)
    ensures NoDesertedRoom(HandleExit(h, s, env).rooms) <==> !LastMember(h, s)
  {
    hide RemovedFromGame, HaveAnswers, RemovalFails, Decide, Without, NewGame, Distinct;
    if s.Member? {
      LeavingDesertsIff(LoggedOut(h, s.user), s, env);
    } else if s.Playing? {
      PlayersDesertNoRoom(LoggedOut(h, s.user), s, env);
    }
  }

  lemma LeavingDesertsIff(h: Hub, s: Session, env: Env)
    requires s.Member? && LookupsSucceed(h, s) && InHisRoom(h, s) && NoDesertedRoom(h.rooms)
    ensures NoDesertedRoom(DoLeaveRoom(h, s.user, s.room, env).0.rooms) <==> !LastMember(h, s)
  {
    hide RemovedFromGame, Removable, Without, Distinct;
    if s.room in h.rooms {
      OnlyHe(h.rooms[s.room].users, s.user);
      var after := DoLeaveRoom(h, s.user, s.room, env).0.rooms;
      assert s.room in after && after[s.room] == RoomWithout(h.rooms[s.room], s.user);
    }
  }

  lemma PlayersDesertNoRoom(h: Hub, s: Session, env: Env)
    requires s.Playing? && LookupsSucceed(h, s) && NoDesertedRoom(h.rooms)
    ensures NoDesertedRoom(DoLeaveGame(h, s.user, s.room, env).0.rooms)
  {
    hide Written, Games.Leave, Submissions, Without, RemovalFails;
    SubmissionsHaveAnswers(h.games[s.room], s.user, env.readings);
    WrittenChanges(h, Submissions(h.games[s.room], s.user, env.readings), env);
  }

  /** A room that is deserted stays so for the rest of any admissible run. */
  lemma {:induction false} DesertedForever(w: World, steps: seq<Step>, u: Uuid)
    requires Inv(w) && Allowed(w, steps) && u in w.hub.rooms && Deserted(w.hub.rooms[u])
    ensures u in End(w, steps).hub.rooms && Deserted(End(w, steps).hub.rooms[u])
    decreases |steps|
  {
    hide Inv, Admissible, After, Enabled, Answerable;
    if steps != [] {
      StepKeepsInvIff(w, steps[0]);
      DesertedStays(w, steps[0], u);
      DesertedForever(After(w, steps[0]), steps[1..], u);
    }
  }

  lemma DesertedStays(w: World, st: Step, u: Uuid)
    requires Inv(w) && Enabled(w, st) && Defined(w, st) && Admissible(w, st)
    requires u in w.hub.rooms && Deserted(w.hub.rooms[u])
    ensures u in After(w, st).hub.rooms && Deserted(After(w, st).hub.rooms[u])
  {
    hide Inv, Handle, HandleExit, PendingAfter, RemovalFails, Decide;
    match st
    case Serve(c, req, env) =>
      NobodyThere(w, c, u);
      ServingKeepsOthers(w.hub, w.clients[c], req, env, u);
    case Disconnect(c, env) =>
      NobodyThere(w, c, u);
      ExitKeepsOthers(w.hub, w.clients[c], env, u);
    case _ =>
  }

  lemma NobodyThere(w: World, c: Client, u: Uuid)
    requires Inv(w) && c in w.clients && u in w.hub.rooms && Deserted(w.hub.rooms[u])
    ensures HasSeat(w.clients[c]) ==> w.clients[c].room != u
  {
    assert SessionOk(w.hub.rooms, w.hub.games, w.clients[c]);
  }

  /** Only a new user or a handler of the room itself changes it. */
  lemma ServingKeepsOthers(h: Hub, s: Session, req: Request, env: Env, u: Uuid)
    requires LookupsSucceed(h, s) && u in h.rooms && (HasSeat(s) ==> s.room != u)
    requires s.Menu? && req.JoinRoom? && CanJoin(h.rooms[u], s.user) ==> req.uuid != u
    requires req.CreateRoom? ==> req.uuid != u
    ensures u in Handle(h, s, req, env).0.rooms && Handle(h, s, req, env).0.rooms[u] == h.rooms[u]
  {
    hide HaveAnswers, RemovalFails, Decide, Without, NewGame, Written, Games.Leave, Submissions;
    if s.Playing? {
      SubmissionsHaveAnswers(h.games[s.room], s.user, env.readings);
      WrittenChanges(h, Submissions(h.games[s.room], s.user, env.readings), env);
    }
  }

  lemma ExitKeepsOthers(h: Hub, s: Session, env: Env, u: Uuid)
    requires LookupsSucceed(h, s) && u in h.rooms && (HasSeat(s) ==> s.room != u)
    ensures u in HandleExit(h, s, env).rooms && HandleExit(h, s, env).rooms[u] == h.rooms[u]
  {
    hide HaveAnswers, RemovalFails, Without, Written, Games.Leave, Submissions;
    if s.Playing? {
      var out := LoggedOut(h, s.user);
      SubmissionsHaveAnswers(h.games[s.room], s.user, env.readings);
      WrittenChanges(out, Submissions(h.games[s.room], s.user, env.readings), env);
    }
  }
}
