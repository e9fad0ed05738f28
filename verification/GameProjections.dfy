/**
 Every game of the server is a run of `GameRuns`: the steps that concern it, from its start until it is
 erased, are possible events of that run, with the game and its sleepers as the state.  The results about
 single games hold of the server through it.
 */
module GameProjections {
  import opened Widths
  import opened Names
  import opened Games
  import GameRuns
  import opened Sessions
  import opened SessionInvariant
  import opened RoomSteps
  import opened LeaveSteps
  import opened ServerSafety
  import opened ServerRuns

  // ----- events -----

  /** What a step means for game `u`: at most one event. */
  function EventsOf(w: World, st: Step, u: Uuid): seq<GameRuns.Event>
    requires Enabled(w, st)
  {
    if GameLeftBy(w, st) == Some(u) then [GameRuns.Leave(w.clients[st.c].user, st.env.readings)]
    else if st.Connect? || !PlaysIn(w.clients[st.c], u) then []
    else if st.WakeUp? then [GameRuns.Wake(w.clients[st.c].user, st.at)]
    else if st.Serve? && st.req.SubmitAnswer? then
      [GameRuns.Submit(w.clients[st.c].user, st.req.choice, st.req.question, st.env.readings.first, st.env.readings.second)]
    else if st.Serve? && st.req.GetGameResults? then
      [GameRuns.Results(w.clients[st.c].user, st.env.readings.first, st.req.readable)]
    else []
  }

  predicate PlaysIn(s: Session, u: Uuid) {
    s.Playing? && s.room == u
  }

  /** The events of game `u` over a run of the server, until the game is erased. */
  ghost function EventsOver(w: World, steps: seq<Step>, u: Uuid): seq<GameRuns.Event>
    requires Inv(w) && Allowed(w, steps)
    decreases |steps|
  {
    if steps == [] || u !in w.hub.games then []
    else
      StepKeepsInvIff(w, steps[0]);
      EventsOf(w, steps[0], u) + EventsOver(After(w, steps[0]), steps[1..], u)
  }

  /** The game is not erased during the run. */
  ghost predicate Survives(w: World, steps: seq<Step>, u: Uuid)
    requires Inv(w) && Allowed(w, steps)
    decreases |steps|
  {
    u in w.hub.games &&
    (steps == [] || (StepKeepsInvIff(w, steps[0]); Survives(After(w, steps[0]), steps[1..], u)))
  }

  // ----- the projection -----

  predicate SleepsIn(s: Session, u: Uuid) {
    PlaysIn(s, u) && s.asleep.Some?
  }

  predicate IsSleeperOf(clients: Clients, c: Client, n: Name, u: Uuid) {
    c in clients && SleepsIn(clients[c], u) && clients[c].user == n
  }

  /** The sleepers of the run are the sessions that sleep in the game, with the answers they sleep on. */
  ghost predicate SleepersAgree(asleep: map<Name, Pending>, clients: Clients, u: Uuid) {
    && (forall c :: c in clients && SleepsIn(clients[c], u) ==>
          clients[c].user in asleep && asleep[clients[c].user] == clients[c].asleep.value)
    && (forall n :: n in asleep ==> exists c :: IsSleeperOf(clients, c, n, u))
  }

  ghost predicate Mirrors(r: GameRuns.Run, w: World, u: Uuid) {
    && GameRuns.RunInv(r) && !r.erased && r.now <= w.now
    && u in w.hub.games && r.game == w.hub.games[u]
    && SleepersAgree(r.asleep, w.clients, u)
  }

  /** The state of the run after a step: it mirrors the server as long as the game is there. */
  ghost predicate Follows(r: GameRuns.Run, w: World, u: Uuid) {
    if u in w.hub.games then Mirrors(r, w, u) else r.erased
  }

  lemma OneEvent(r: GameRuns.Run, ev: GameRuns.Event)
    requires GameRuns.RunInv(r) && GameRuns.Enabled(r, ev)
    ensures GameRuns.RunInv(GameRuns.Step(r, ev))
    ensures GameRuns.Possible(r, [ev]) && GameRuns.After(r, [ev]) == GameRuns.Step(r, ev)
  {
    hide GameRuns.RunInv, GameRuns.Enabled, GameRuns.Step;
    GameRuns.StepKeepsInv(r, ev);
    assert GameRuns.Possible(GameRuns.Step(r, ev), []) && [ev][1..] == [];
  }

  /** An awake session is nobody's sleeper. */
  lemma AwakeIsNotAsleep(w: World, c: Client, u: Uuid, asleep: map<Name, Pending>)
    requires Inv(w) && c in w.clients && Named(w.clients[c]) && Awake(w.clients[c])
    requires SleepersAgree(asleep, w.clients, u)
    ensures w.clients[c].user !in asleep
  {
    hide SeatsInv, GamesInv, GamesMatch, TablesInv;
    var n := w.clients[c].user;
    forall d
      ensures !IsSleeperOf(w.clients, d, n, u)
    {
      if d in w.clients && Named(w.clients[d]) && w.clients[d].user == n {
        assert SameUser(w.clients[d], w.clients[c]);
      }
    }
  }

  /** A session that plays, or sits in an active room, is online in its game. */
  lemma InGame(w: World, c: Client, u: Uuid)
    requires Inv(w) && c in w.clients && (PlaysIn(w.clients[c], u) || GameOf(w.hub, w.clients[c]) == Some(u))
    ensures Named(w.clients[c]) && u in w.hub.games && w.clients[c].user in w.hub.games[u].online
    ensures w.clients[c].user in w.hub.games[u].players
    ensures SleepsIn(w.clients[c], u) ==> Recordable(w.hub.games[u], w.clients[c].asleep.value)
  {
    hide UsersInv, TablesInv, Recordable;
    assert SessionOk(w.hub.rooms, w.hub.games, w.clients[c]);
    GameRecordsExist(w.hub.games[u], w.now);
  }

  // ----- steps that do not concern the game -----

  lemma SleepersKept(asleep: map<Name, Pending>, clients: Clients, c: Client, after: Clients, u: Uuid)
    requires SleepersAgree(asleep, clients, u) && OthersKept(clients, after, c)
    requires c in clients ==> !SleepsIn(clients[c], u)
    requires c in after ==> !SleepsIn(after[c], u)
    ensures SleepersAgree(asleep, after, u)
  {
    forall n | n in asleep
      ensures exists d :: IsSleeperOf(after, d, n, u)
    {
      var d :| IsSleeperOf(clients, d, n, u);
      assert IsSleeperOf(after, d, n, u);
    }
    assert forall d :: d in after && d != c ==> after[d] == clients[d];
  }

  lemma ServingKeepsGame(h: Hub, s: Session, req: Request, env: Env, u: Uuid)
    requires LookupsSucceed(h, s) && u in h.games
    requires (Leaves(s, req) ==> GameOf(h, s) != Some(u)) && (s.Admin? ==> s.room != u)
    ensures u in Handle(h, s, req, env).0.games && Handle(h, s, req, env).0.games[u] == h.games[u]
  {
    hide HaveAnswers, RemovalFails, Decide, Without, NewGame, Written, Games.Leave, Submissions;
    if Leaves(s, req) && GameOf(h, s).Some? {
      RemovalKeepsGame(h, GameOf(h, s).value, s.user, env, u);
    }
  }

  lemma ExitKeepsGame(h: Hub, s: Session, env: Env, u: Uuid)
    requires LookupsSucceed(h, s) && u in h.games && GameOf(h, s) != Some(u)
    ensures u in HandleExit(h, s, env).games && HandleExit(h, s, env).games[u] == h.games[u]
  {
    hide HaveAnswers, RemovalFails, Without, Written, Games.Leave, Submissions;
    if GameOf(h, s).Some? {
      RemovalKeepsGame(LoggedOut(h, s.user), GameOf(h, s).value, s.user, env, u);
    }
  }

  lemma RemovalKeepsGame(h: Hub, uuid: Uuid, user: Name, env: Env, u: Uuid)
    requires Removable(h, uuid, user) && u in h.games && uuid != u
    ensures u in RemovedFromGame(h, uuid, user, env).games && RemovedFromGame(h, uuid, user, env).games[u] == h.games[u]
  {
    hide Written, Games.Leave, Submissions;
    SubmissionsHaveAnswers(h.games[uuid], user, env.readings);
    WrittenChanges(h, Submissions(h.games[uuid], user, env.readings), env);
  }

  /** Serving anything but an answer leaves no session asleep. */
  lemma ServedAwake(h: Hub, s: Session, req: Request, env: Env, u: Uuid)
    requires LookupsSucceed(h, s) && Awake(s) && !(PlaysIn(s, u) && req.SubmitAnswer?)
    ensures !SleepsIn(Handle(h, s, req, env).1, u)
  {
    hide HaveAnswers, RemovalFails, Without, Written, Games.Leave, Submissions, NewGame, RemovedFromGame, Removable;
  }

  lemma AdminsRoomHasNoGame(w: World, c: Client)
    requires Inv(w) && c in w.clients && w.clients[c].Admin?
    ensures w.clients[c].room !in w.hub.games
  {
    assert SessionOk(w.hub.rooms, w.hub.games, w.clients[c]);
  }

  lemma OtherStep(r: GameRuns.Run, w: World, st: Step, u: Uuid)
    requires Inv(w) && Enabled(w, st) && Defined(w, st) && Mirrors(r, w, u) && EventsOf(w, st, u) == []
    ensures Mirrors(r, After(w, st), u)
  {
    hide Inv, Handle, HandleExit, PendingAfter, SleepersAgree, GameRuns.RunInv, ReadsSucceed, Woken;
    match st
    case Connect(c) =>
      SleepersKept(r.asleep, w.clients, c, After(w, st).clients, u);
    case Serve(c, req, env) =>
      if w.clients[c].Admin? {
        AdminsRoomHasNoGame(w, c);
      }
      ServingKeepsGame(w.hub, w.clients[c], req, env, u);
      ServedAwake(w.hub, w.clients[c], req, env, u);
      SleepersKept(r.asleep, w.clients, c, After(w, st).clients, u);
    case WakeUp(c, at) =>
      SleepersKept(r.asleep, w.clients, c, After(w, st).clients, u);
    case Disconnect(c, env) =>
      ExitKeepsGame(w.hub, w.clients[c], env, u);
      SleepersKept(r.asleep, w.clients, c, After(w, st).clients, u);
  }

  // ----- steps that do -----

  lemma AnswerStep(r: GameRuns.Run, w: World, st: Step, u: Uuid)
    requires Inv(w) && Enabled(w, st) && Defined(w, st) && Mirrors(r, w, u)
    requires st.Serve? && st.req.SubmitAnswer? && PlaysIn(w.clients[st.c], u)
    ensures |EventsOf(w, st, u)| == 1 && GameRuns.Enabled(r, EventsOf(w, st, u)[0])
    ensures Mirrors(GameRuns.Step(r, EventsOf(w, st, u)[0]), After(w, st), u)
  {
    hide Inv, PendingAfter, SleepersAgree, GameRuns.RunInv, Decide, LookupsSucceed;
    var (c, s, ev) := (st.c, w.clients[st.c], EventsOf(w, st, u)[0]);
    InGame(w, c, u);
    AwakeIsNotAsleep(w, c, u, r.asleep);
    GameRuns.StepKeepsInv(r, ev);
    match Decide(w.hub.games[u], st.req.choice, st.req.question, st.env.readings.first, st.env.readings.second)
    case Refused =>
      SleepersKept(r.asleep, w.clients, c, After(w, st).clients, u);
    case Sleeping(p) =>
      FallsAsleep(r.asleep, w.clients, c, u, p);
  }

  lemma FallsAsleep(asleep: map<Name, Pending>, clients: Clients, c: Client, u: Uuid, p: Pending)
    requires SleepersAgree(asleep, clients, u) && c in clients && PlaysIn(clients[c], u) && Awake(clients[c])
    requires clients[c].user !in asleep
    ensures SleepersAgree(asleep[clients[c].user := p], clients[c := clients[c].(asleep := Some(p))], u)
  {
    var after, more := clients[c := clients[c].(asleep := Some(p))], asleep[clients[c].user := p];
    forall n | n in more
      ensures exists d :: IsSleeperOf(after, d, n, u)
    {
      if n == clients[c].user {
        assert IsSleeperOf(after, c, n, u);
      } else {
        var d :| IsSleeperOf(clients, d, n, u);
        assert IsSleeperOf(after, d, n, u);
      }
    }
  }

  lemma ResultsStep(r: GameRuns.Run, w: World, st: Step, u: Uuid)
    requires Inv(w) && Enabled(w, st) && Defined(w, st) && Mirrors(r, w, u)
    requires st.Serve? && st.req.GetGameResults? && PlaysIn(w.clients[st.c], u)
    ensures |EventsOf(w, st, u)| == 1 && GameRuns.Enabled(r, EventsOf(w, st, u)[0])
    ensures Mirrors(GameRuns.Step(r, EventsOf(w, st, u)[0]), After(w, st), u)
  {
    hide Inv, PendingAfter, SleepersAgree, GameRuns.RunInv, FinishedAt, LookupsSucceed;
    var (c, ev) := (st.c, EventsOf(w, st, u)[0]);
    InGame(w, c, u);
    AwakeIsNotAsleep(w, c, u, r.asleep);
    GameRuns.StepKeepsInv(r, ev);
    SleepersKept(r.asleep, w.clients, c, After(w, st).clients, u);
  }

  lemma WakeStep(r: GameRuns.Run, w: World, st: Step, u: Uuid)
    requires Inv(w) && Enabled(w, st) && Defined(w, st) && Mirrors(r, w, u)
    requires st.WakeUp? && PlaysIn(w.clients[st.c], u)
    ensures |EventsOf(w, st, u)| == 1 && GameRuns.Enabled(r, EventsOf(w, st, u)[0])
    ensures Mirrors(GameRuns.Step(r, EventsOf(w, st, u)[0]), After(w, st), u)
  {
    hide Inv, SleepersAgree, GameRuns.RunInv, Recordable, Woken;
    var (c, s, ev) := (st.c, w.clients[st.c], EventsOf(w, st, u)[0]);
    InGame(w, c, u);
    IsOnlySession(w, c);
    SleeperIs(r.asleep, w.clients, c, u);
    GameRuns.StepKeepsInv(r, ev);
    WakesUp(r.asleep, w.clients, c, u);
  }

  lemma SleeperIs(asleep: map<Name, Pending>, clients: Clients, c: Client, u: Uuid)
    requires SleepersAgree(asleep, clients, u) && c in clients && SleepsIn(clients[c], u)
    ensures clients[c].user in asleep && asleep[clients[c].user] == clients[c].asleep.value
  {
  }

  lemma WakesUp(asleep: map<Name, Pending>, clients: Clients, c: Client, u: Uuid)
    requires SleepersAgree(asleep, clients, u) && OnlySession(clients, c) && SleepsIn(clients[c], u)
    ensures SleepersAgree(asleep - {clients[c].user}, clients[c := clients[c].(asleep := None)], u)
  {
    var (user, after) := (clients[c].user, clients[c := clients[c].(asleep := None)]);
    forall n | n in asleep - {user}
      ensures exists d :: IsSleeperOf(after, d, n, u)
    {
      var d :| IsSleeperOf(clients, d, n, u);
      assert IsSleeperOf(after, d, n, u);
    }
    forall d | d in after && SleepsIn(after[d], u)
      ensures after[d].user in asleep - {user} && (asleep - {user})[after[d].user] == after[d].asleep.value
    {
      assert d != c && after[d] == clients[d] && !SameUser(clients[d], clients[c]);
    }
  }

  lemma LeaveStep(r: GameRuns.Run, w: World, st: Step, u: Uuid)
    requires Inv(w) && Enabled(w, st) && Defined(w, st) && Mirrors(r, w, u) && GameLeftBy(w, st) == Some(u)
    ensures |EventsOf(w, st, u)| == 1 && GameRuns.Enabled(r, EventsOf(w, st, u)[0])
    ensures GameRuns.RunInv(GameRuns.Step(r, EventsOf(w, st, u)[0]))
    ensures Follows(GameRuns.Step(r, EventsOf(w, st, u)[0]), After(w, st), u)
  {
    hide Inv, SleepersAgree, GameRuns.RunInv, Handle, HandleExit, PendingAfter, Games.Leave, Submissions, LookupsSucceed;
    var (c, s, ev) := (st.c, w.clients[st.c], EventsOf(w, st, u)[0]);
    InGame(w, c, u);
    AwakeIsNotAsleep(w, c, u, r.asleep);
    GameRuns.StepKeepsInv(r, ev);
    LeftGames(w, st, u);
    SleepersKept(r.asleep, w.clients, c, After(w, st).clients, u);
  }

  /** The game list after a removal from `u`, and the handler of whoever left. */
  lemma LeftGames(w: World, st: Step, u: Uuid)
    requires Inv(w) && Enabled(w, st) && Defined(w, st) && GameLeftBy(w, st) == Some(u)
    ensures u in w.hub.games && w.clients[st.c].user in w.hub.games[u].players
    ensures var left := Games.Leave(w.hub.games[u], w.clients[st.c].user, st.env.readings);
            After(w, st).hub.games == if left.online == [] then w.hub.games - {u} else w.hub.games[u := left]
    ensures st.c in After(w, st).clients ==> After(w, st).clients[st.c].Menu?
    ensures OthersKept(w.clients, After(w, st).clients, st.c) && After(w, st).now == st.env.readings.third
  {
    hide Inv, RemovalFails, Without, Written, Games.Leave, Submissions, PendingAfter, HaveAnswers;
    var s := w.clients[st.c];
    InGame(w, st.c, u);
    RemovalFromGames(w.hub, u, s.user, st.env);
    if st.Disconnect? {
      RemovalFromGames(LoggedOut(w.hub, s.user), u, s.user, st.env);
    }
  }

  lemma RemovalFromGames(h: Hub, u: Uuid, user: Name, env: Env)
    requires Removable(h, u, user)
    ensures var left := Games.Leave(h.games[u], user, env.readings);
            RemovedFromGame(h, u, user, env).games == if left.online == [] then h.games - {u} else h.games[u := left]
  {
  }

  /** A step of the server is no event of a game, or one that is possible, and the run follows it. */
  lemma StepProjects(r: GameRuns.Run, w: World, st: Step, u: Uuid)
    requires Inv(w) && Enabled(w, st) && Defined(w, st) && Mirrors(r, w, u)
    ensures GameRuns.Possible(r, EventsOf(w, st, u))
    ensures Follows(GameRuns.After(r, EventsOf(w, st, u)), After(w, st), u)
  {
    hide Inv, After, Defined, Mirrors, GameRuns.Enabled, GameRuns.Step, GameRuns.RunInv, Surroundings, GameOf;
    assert Mirrors(r, w, u) ==> GameRuns.RunInv(r) && u in w.hub.games by { MirrorsMeans(r, w, u); }
    var events := EventsOf(w, st, u);
    if events == [] {
      OtherStep(r, w, st, u);
      MirrorsMeans(r, After(w, st), u);
    } else {
      if GameLeftBy(w, st) == Some(u) {
        LeaveStep(r, w, st, u);
      } else if st.WakeUp? {
        WakeStep(r, w, st, u);
        MirrorsMeans(GameRuns.Step(r, events[0]), After(w, st), u);
      } else if st.req.GetGameResults? {
        ResultsStep(r, w, st, u);
        MirrorsMeans(GameRuns.Step(r, events[0]), After(w, st), u);
      } else {
        AnswerStep(r, w, st, u);
        MirrorsMeans(GameRuns.Step(r, events[0]), After(w, st), u);
      }
      OneEvent(r, events[0]);
      assert events == [events[0]];
    }
  }

  lemma MirrorsMeans(r: GameRuns.Run, w: World, u: Uuid)
    requires Mirrors(r, w, u)
    ensures GameRuns.RunInv(r) && u in w.hub.games
  {
  }
}
