/** What players get for what they do, over whole runs of the server: answers, punishments, logins. */
module ServerRecords {
  import opened Widths
  import opened Names
  import opened Scores
  import opened Games
  import GameRuns
  import opened GameRecords
  import opened Sessions
  import opened SessionInvariant
  import opened ServerSafety
  import opened ServerRuns
  import opened Connections
  import opened GameProjections
  import opened ServerGames
  import opened Requests

  // ----- an answer, from its submission to its record -----

  /** A step of anybody leaves the schedule of a game alone. */
  lemma ScheduleStays(w: World, st: Step, u: Uuid)
    requires Inv(w) && Enabled(w, st) && Defined(w, st) && u in w.hub.games && u in After(w, st).hub.games
    ensures SameSchedule(w.hub.games[u], After(w, st).hub.games[u])
  {
    hide Inv, Handle, HandleExit, PendingAfter, Games.Leave, Submissions, ReadsSucceed, GameOf, Surroundings;
    if GameLeftBy(w, st) == Some(u) {
      LeftGames(w, st, u);
      InGame(w, st.c, u);
      LeavingKeepsSchedule(w.hub.games[u], w.clients[st.c].user, st.env.readings);
    } else {
      match st
      case Serve(c, req, env) =>
        if w.clients[c].Admin? {
          AdminsRoomHasNoGame(w, c);
        }
        ServingKeepsGame(w.hub, w.clients[c], req, env, u);
      case Disconnect(c, env) => ExitKeepsGame(w.hub, w.clients[c], env, u);
      case _ =>
    }
  }

  lemma LeavingKeepsSchedule(g: GameValue, user: Name, r: Readings)
    requires user in g.players
    ensures SameSchedule(g, Games.Leave(g, user, r))
  {
    hide FinishedAt;
  }

  /** While others act, a player stays in his game, and it in the list with its schedule. */
  lemma {:induction false} PlayerStaysInGame(w: World, steps: seq<Step>, c: Client)
    requires Inv(w) && Others(w, steps, c) && c in w.clients && w.clients[c].Playing?
    ensures var u := w.clients[c].room;
            && u in w.hub.games && u in End(w, steps).hub.games
            && SameSchedule(w.hub.games[u], End(w, steps).hub.games[u])
    decreases |steps|
  {
    hide Inv, After, Enabled, Admissible, Answerable;
    InGame(w, c, w.clients[c].room);
    if steps != [] {
      StepKeepsInvIff(w, steps[0]);
      var w1 := After(w, steps[0]);
      OneOther(w, steps, c);
      InGame(w1, c, w.clients[c].room);
      ScheduleStays(w, steps[0], w.clients[c].room);
      PlayerStaysInGame(w1, steps[1..], c);
    }
  }

  lemma OneOther(w: World, steps: seq<Step>, c: Client)
    requires Inv(w) && Others(w, steps, c) && c in w.clients && steps != []
    requires Enabled(w, steps[0]) && Defined(w, steps[0]) && Inv(After(w, steps[0]))
    ensures Others(After(w, steps[0]), steps[1..], c)
    ensures c in After(w, steps[0]).clients && After(w, steps[0]).clients[c] == w.clients[c]
  {
    hide Inv, Admissible, After, Enabled, Answerable, Defined;
    OtherClient(w, steps[0], c);
  }

  lemma OtherClient(w: World, st: Step, c: Client)
    requires Enabled(w, st) && Defined(w, st) && c in w.clients && st.c != c
    ensures c in After(w, st).clients && After(w, st).clients[c] == w.clients[c]
  {
    hide Handle, HandleExit, PendingAfter, Surroundings, Defined;
  }

  /** Waking up files what was slept on, and changes nothing else of anybody's record. */
  lemma WakeUpFiles(w: World, c: Client, at: nat)
    requires Inv(w) && Enabled(w, WakeUp(c, at)) && Defined(w, WakeUp(c, at))
    ensures var (user, u, p) := (w.clients[c].user, w.clients[c].room, w.clients[c].asleep.value);
            var (before, after) := (w.hub.games[u], After(w, WakeUp(c, at)));
            && p.question < |before.questions| && user in before.players && |before.players[user].answers| == |before.questions|
            && var d := before.players[user];
               var filed := d.answers[p.question := Answer(before.questions[p.question], p.choice, p.time)];
            after == w.(now := at, clients := w.clients[c := Playing(user, u, None)],
                        hub := w.hub.(games := w.hub.games[
                          u := before.(players := before.players[user := d.(answers := filed)])]))
  {
    hide Inv, Surroundings, Woken, Recordable;
    var s := w.clients[c];
    InGame(w, c, s.room);
    GameOfList(w, s.room);
    WokenFiles(w.hub.games[s.room], s.user, s.asleep.value, w.now);
  }

  lemma WokenFiles(g: GameValue, user: Name, p: Pending, now: nat)
    requires GameInv(g, now) && user in g.players && Recordable(g, p)
    ensures p.question < |g.questions| == |g.players[user].answers|
    ensures var d := g.players[user];
            var filed := d.answers[p.question := Answer(g.questions[p.question], p.choice, p.time)];
            Woken(g, user, p) == g.(players := g.players[user := d.(answers := filed)])
  {
  }

  /**
   An accepted answer is recorded as it was submitted: once its player wakes up, whatever others did in the
   meantime, his record of the question holds his choice and the second of its slot at which it was judged.
   */
  lemma AnswerIsRecorded(w: World, c: Client, choice: u32, question: u32, env: Env, w1: World, steps: seq<Step>, at: nat)
    requires Serves(w, c, SubmitAnswer(choice, question), env) && w.clients[c].Playing?
    requires w1 == After(w, Serve(c, SubmitAnswer(choice, question), env)) && Inv(w1)
    requires c in w1.clients && w1.clients[c].Playing? && w1.clients[c].asleep.Some?
    requires Others(w1, steps, c) && Enabled(End(w1, steps), WakeUp(c, at))
    ensures Defined(End(w1, steps), WakeUp(c, at))
    ensures var (user, u, end) := (w.clients[c].user, w.clients[c].room, After(End(w1, steps), WakeUp(c, at)));
            && u in w.hub.games && u in end.hub.games && question < |w.hub.games[u].questions|
            && user in end.hub.games[u].players && question < |end.hub.games[u].players[user].answers|
            && var (g, a) := (w.hub.games[u], end.hub.games[u].players[user].answers[question]);
            a.question == g.questions[question] && a.choice == choice && InSecond(g, question, a.time, env.readings.second)
            && c in end.clients && end.clients[c] == Playing(user, u, None)
  {
    hide Inv, After, Allowed, Surroundings, Defined, InSecond, SleepsByTheClock;
    var w2 := End(w1, steps);
    SubmitAnswerServes(w, c, choice, question, env);
    PlayerStaysInGame(w1, steps, c);
    OthersKeepSession(w1, steps, c);
    OwnStepsAreDefined(w2, WakeUp(c, at));
    WakeUpFiles(w2, c, at);
    SubmissionTells(w.hub.games[w.clients[c].room], choice, question, env.readings, w1.clients[c].asleep.value);
  }

  lemma SubmissionTells(g: GameValue, choice: u32, question: u32, r: Readings, p: Pending)
    requires SleepsByTheClock(g, choice, question, r.first, r.second, Some(p))
    ensures p.question == question && p.choice == choice && InSecond(g, question, p.time, r.second)
  {
  }

  // ----- the records of a game -----

  /**
   Over any admissible run of the server from the start of a game until it is erased, its records are exactly
   what the steps that concern it say (see `GameRecords`): who answered what and when, who left when.
   */
  lemma RecordsTellTheServersRun(w: World, st: Step, steps: seq<Step>, u: Uuid, n: Name, q: nat)
    requires PlayedOver(w, st, steps, u) && n in w.hub.rooms[u].users && q < |st.req.questions.value|
    ensures u in After(w, st).hub.games
    ensures var (w1, last) := (After(w, st), LastGame(After(w, st), steps, u));
            && last == GameValue(st.req.questions.value, w.hub.rooms[u].limit, st.env.readings.first, last.online, last.players)
            && RecordTells(last, EventsOver(w1, steps, u), n, q)
  {
    hide Inv, After, Enabled, Defined, Allowed, EventsOver, LastGame, NewGame, RecordTells, Mirrors;
    hide GameRuns.RunInv, GameRuns.Possible;
    var (w1, r) := (After(w, st), FirstRun(w, st, u));
    GameOverRun(w, st, steps, u);
    GameBegins(w, st, u);
    MirrorsMeans(r, w1, u);
    StartIsStartable(w, st, u);
    LastGameProjects(r, w1, steps, u);
    RecordsTellTheRun(st.req.questions.value, w.hub.rooms[u].limit, w.hub.rooms[u].users, st.env.readings.first,
                      EventsOver(w1, steps, u), n, q);
  }

  // ----- accounts -----

  /** A verified account stays as it is, over any admissible run. */
  lemma {:induction false} AccountsStay(w: World, steps: seq<Step>, n: Name)
    requires Inv(w) && Allowed(w, steps) && Verified(w, n)
    ensures Verified(End(w, steps), n) && End(w, steps).hub.accounts[n] == w.hub.accounts[n]
    decreases |steps|
  {
    hide Inv, After, Enabled, Admissible, Answerable;
    if steps != [] {
      StepKeepsInvIff(w, steps[0]);
      StepLedger(w, steps[0], n);
      AccountsStay(After(w, steps[0]), steps[1..], n);
    }
  }

  /**
   So from then on its password is what it takes: after any admissible run, whoever gives this name and a
   readable database at the login screen is logged in exactly if he gives that password, and the user has no
   session.
   */
  lemma PasswordDecides(w: World, steps: seq<Step>, n: Name, c: Client, password: string, readable: bool, env: Env)
    requires Inv(w) && Allowed(w, steps) && Verified(w, n)
    requires Serves(End(w, steps), c, LogIn(n, password, readable), env) && End(w, steps).clients[c].Login?
    ensures var end := End(w, steps);
            After(end, Serve(c, LogIn(n, password, readable), env)) ==
            if readable && password == w.hub.accounts[n].password && forall d :: !IsSessionOf(end.clients, d, n)
            then Moved(end, c, Menu(n), env).(hub := end.hub.(logged := end.hub.logged + [n]))
            else Unmoved(end, env)
  {
    hide Inv, Allowed, Enabled;
    AccountsStay(w, steps, n);
    LogInServes(End(w, steps), c, n, password, readable, env);
  }
}
