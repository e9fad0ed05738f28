/** The results about single games, as results about whole runs of the server. */
module ServerGames {
  import opened Widths
  import opened Names
  import opened Scores
  import opened Statistics
  import opened TimeWindows
  import opened Games
  import GameRuns
  import opened Sessions
  import opened SessionInvariant
  import opened LeaveSteps
  import opened ServerSafety
  import opened ServerRuns
  import opened GameProjections

  // ----- the start of a game -----

  /** The admin of room `u` starts its game, and enough questions are found. */
  predicate Starts(w: World, st: Step, u: Uuid)
    requires Enabled(w, st)
  {
    && st.Serve? && st.req.StartGame? && st.req.questions.Some?
    && w.clients[st.c].Admin? && w.clients[st.c].room == u && u in w.hub.rooms
    && |w.hub.rooms[u].users| > 1 && |st.req.questions.value| == w.hub.rooms[u].questionCount
  }

  /** The run that begins with it. */
  function FirstRun(w: World, st: Step, u: Uuid): GameRuns.Run
    requires Enabled(w, st) && Starts(w, st, u)
  {
    GameRuns.Fresh(st.req.questions.value, w.hub.rooms[u].limit, w.hub.rooms[u].users, st.env.readings.first)
  }

  lemma StartIsStartable(w: World, st: Step, u: Uuid)
    requires Inv(w) && Enabled(w, st) && Starts(w, st, u)
    ensures GameRuns.Startable(st.req.questions.value, w.hub.rooms[u].limit, w.hub.rooms[u].users)
  {
    assert RoomOk(w.hub.rooms[u]);
  }

  lemma NobodyPlaysYet(w: World, u: Uuid)
    requires Inv(w) && u !in w.hub.games
    ensures forall c :: c in w.clients ==> !PlaysIn(w.clients[c], u)
  {
    forall c | c in w.clients
      ensures !PlaysIn(w.clients[c], u)
    {
      assert SessionOk(w.hub.rooms, w.hub.games, w.clients[c]);
    }
  }

  lemma GameBegins(w: World, st: Step, u: Uuid)
    requires Inv(w) && Enabled(w, st) && Defined(w, st) && Starts(w, st, u)
    ensures Mirrors(FirstRun(w, st, u), After(w, st), u)
  {
    hide Inv, GameRuns.RunInv, NewGame, PendingAfter;
    StartIsStartable(w, st, u);
    AdminsRoomHasNoGame(w, st.c);
    NobodyPlaysYet(w, u);
    GameRuns.FreshInv(st.req.questions.value, w.hub.rooms[u].limit, w.hub.rooms[u].users, st.env.readings.first);
  }

  // ----- whole runs -----

  lemma {:induction false} PossibleThen(r: GameRuns.Run, events: seq<GameRuns.Event>, more: seq<GameRuns.Event>)
    requires GameRuns.RunInv(r) && GameRuns.Possible(r, events)
    requires GameRuns.Possible(GameRuns.After(r, events), more)
    ensures GameRuns.Possible(r, events + more)
    ensures GameRuns.After(r, events + more) == GameRuns.After(GameRuns.After(r, events), more)
    decreases |events|
  {
    hide GameRuns.RunInv, GameRuns.Enabled, GameRuns.Step;
    if events == [] {
      assert events + more == more;
    } else {
      GameRuns.StepKeepsInv(r, events[0]);
      PossibleThen(GameRuns.Step(r, events[0]), events[1..], more);
      assert (events + more)[1..] == events[1..] + more;
    }
  }

  /**
   Over any admissible run of the server, the steps that concern a game are a possible run of that game,
   which mirrors the server for as long as the game is in the list, and has ended when it is erased.
   */
  lemma {:induction false} RunProjects(r: GameRuns.Run, w: World, steps: seq<Step>, u: Uuid)
    requires Inv(w) && Allowed(w, steps) && Mirrors(r, w, u)
    ensures GameRuns.RunInv(r) && GameRuns.Possible(r, EventsOver(w, steps, u))
    ensures var end := GameRuns.After(r, EventsOver(w, steps, u));
            if Survives(w, steps, u) then Mirrors(end, End(w, steps), u) else end.erased
    decreases |steps|
  {
    hide Inv, After, Enabled, Admissible, Answerable, Mirrors, GameRuns.RunInv, GameRuns.Enabled, GameRuns.Step, EventsOf;
    MirrorsMeans(r, w, u);
    if steps != [] {
      StepKeepsInvIff(w, steps[0]);
      StepProjects(r, w, steps[0], u);
      var (w1, r1) := (After(w, steps[0]), GameRuns.After(r, EventsOf(w, steps[0], u)));
      if u in w1.hub.games {
        RunProjects(r1, w1, steps[1..], u);
      } else {
        assert EventsOver(w1, steps[1..], u) == [] && !Survives(w1, steps[1..], u);
      }
      PossibleThen(r, EventsOf(w, steps[0], u), EventsOver(w1, steps[1..], u));
    }
  }

  // ----- what the server sends, accepts and reveals -----

  /** The record of `n` that a step sends to the database because somebody leaves game `u`. */
  function SentBy(w: World, st: Step, u: Uuid, n: Name): seq<GameData>
    requires Enabled(w, st)
  {
    if GameLeftBy(w, st) == Some(u) && u in w.hub.games && w.clients[st.c].user in w.hub.games[u].players then
      var sent := Submissions(w.hub.games[u], w.clients[st.c].user, st.env.readings);
      if n in sent then [sent[n]] else []
    else []
  }

  function AcceptedBy(w: World, st: Step, u: Uuid): seq<GameRuns.Mark>
    requires Enabled(w, st)
  {
    if st.Serve? && st.req.SubmitAnswer? && PlaysIn(w.clients[st.c], u) && u in w.hub.games
       && Decide(w.hub.games[u], st.req.choice, st.req.question, st.env.readings.first, st.env.readings.second).Sleeping?
    then [GameRuns.Mark(w.clients[st.c].user, st.req.question, st.env.readings.second)] else []
  }

  /** The player is told the correct index when he wakes, and all of them with the results of a finished game. */
  function RevealedBy(w: World, st: Step, u: Uuid): seq<GameRuns.Mark>
    requires Enabled(w, st)
  {
    if st.WakeUp? && PlaysIn(w.clients[st.c], u)
    then [GameRuns.Mark(w.clients[st.c].user, w.clients[st.c].asleep.value.question, st.at)]
    else if st.Serve? && st.req.GetGameResults? && PlaysIn(w.clients[st.c], u) && u in w.hub.games
    then GameRuns.Told(w.hub.games[u], w.clients[st.c].user, st.env.readings.first, st.req.readable) else []
  }

  lemma StepLogs(r: GameRuns.Run, w: World, st: Step, u: Uuid)
    requires Inv(w) && Enabled(w, st) && Defined(w, st) && Mirrors(r, w, u)
    requires GameRuns.RunInv(r) && GameRuns.Possible(r, EventsOf(w, st, u))
    ensures var end := GameRuns.After(r, EventsOf(w, st, u));
            && end.accepted == r.accepted + AcceptedBy(w, st, u) && end.revealed == r.revealed + RevealedBy(w, st, u)
            && end.results.Keys == r.results.Keys
            && (forall n :: n in r.results ==> end.results[n] == r.results[n] + SentBy(w, st, u, n))
  {
    hide Inv, GameRuns.RunInv, Defined, Surroundings, Games.Leave, Submissions, Woken, Decide, SleepersAgree;
    var events := EventsOf(w, st, u);
    if events != [] {
      assert GameRuns.Enabled(r, events[0]);
      OneEvent(r, events[0]);
      assert events == [events[0]];
      if st.WakeUp? {
        WakerSleepsOn(r, w, st, u);
      } else if GameLeftBy(w, st) == Some(u) {
        InGame(w, st.c, u);
      }
    }
  }

  lemma WakerSleepsOn(r: GameRuns.Run, w: World, st: Step, u: Uuid)
    requires Enabled(w, st) && Mirrors(r, w, u) && st.WakeUp? && PlaysIn(w.clients[st.c], u)
    ensures w.clients[st.c].user in r.asleep && r.asleep[w.clients[st.c].user] == w.clients[st.c].asleep.value
  {
  }

  ghost function SentOver(w: World, steps: seq<Step>, u: Uuid, n: Name): seq<GameData>
    requires Inv(w) && Allowed(w, steps)
    decreases |steps|
  {
    if steps == [] || u !in w.hub.games then []
    else
      StepKeepsInvIff(w, steps[0]);
      SentBy(w, steps[0], u, n) + SentOver(After(w, steps[0]), steps[1..], u, n)
  }

  ghost function AcceptedOver(w: World, steps: seq<Step>, u: Uuid): seq<GameRuns.Mark>
    requires Inv(w) && Allowed(w, steps)
    decreases |steps|
  {
    if steps == [] || u !in w.hub.games then []
    else
      StepKeepsInvIff(w, steps[0]);
      AcceptedBy(w, steps[0], u) + AcceptedOver(After(w, steps[0]), steps[1..], u)
  }

  ghost function RevealedOver(w: World, steps: seq<Step>, u: Uuid): seq<GameRuns.Mark>
    requires Inv(w) && Allowed(w, steps)
    decreases |steps|
  {
    if steps == [] || u !in w.hub.games then []
    else
      StepKeepsInvIff(w, steps[0]);
      RevealedBy(w, steps[0], u) + RevealedOver(After(w, steps[0]), steps[1..], u)
  }

  /** The history of the projected run is what the server did. */
  lemma {:induction false} RunLogs(r: GameRuns.Run, w: World, steps: seq<Step>, u: Uuid)
    requires Inv(w) && Allowed(w, steps) && Mirrors(r, w, u)
    requires GameRuns.RunInv(r) && GameRuns.Possible(r, EventsOver(w, steps, u))
    ensures var end := GameRuns.After(r, EventsOver(w, steps, u));
            && end.accepted == r.accepted + AcceptedOver(w, steps, u)
            && end.revealed == r.revealed + RevealedOver(w, steps, u)
            && end.results.Keys == r.results.Keys
            && (forall n :: n in r.results ==> end.results[n] == r.results[n] + SentOver(w, steps, u, n))
    decreases |steps|
  {
    hide Inv, After, Enabled, Admissible, Answerable, Mirrors, GameRuns.RunInv, GameRuns.Enabled, GameRuns.Step, EventsOf;
    hide SentBy, AcceptedBy, RevealedBy;
    MirrorsMeans(r, w, u);
    if steps != [] {
      StepKeepsInvIff(w, steps[0]);
      StepProjects(r, w, steps[0], u);
      StepLogs(r, w, steps[0], u);
      var (w1, r1) := (After(w, steps[0]), GameRuns.After(r, EventsOf(w, steps[0], u)));
      if u in w1.hub.games {
        RunProjects(r1, w1, steps[1..], u);
        RunLogs(r1, w1, steps[1..], u);
      }
      PossibleThen(r, EventsOf(w, steps[0], u), EventsOver(w1, steps[1..], u));
    }
  }

  // ----- from the start of the game -----

  /** Step `st` starts game `u`, and `steps` is an admissible run after it. */
  ghost predicate PlayedOver(w: World, st: Step, steps: seq<Step>, u: Uuid) {
    && Inv(w) && Enabled(w, st) && Defined(w, st) && Starts(w, st, u)
    && Inv(After(w, st)) && Allowed(After(w, st), steps)
  }

  /** The run of the game from its start, and how it relates to the server at the end of `steps`. */
  lemma GameOverRun(w: World, st: Step, steps: seq<Step>, u: Uuid)
    requires PlayedOver(w, st, steps, u)
    ensures var (r, w1) := (FirstRun(w, st, u), After(w, st));
            && GameRuns.RunInv(r) && GameRuns.Possible(r, EventsOver(w1, steps, u))
            && var end := GameRuns.After(r, EventsOver(w1, steps, u));
            && (if Survives(w1, steps, u) then Mirrors(end, End(w1, steps), u) else end.erased)
            && end.accepted == AcceptedOver(w1, steps, u) && end.revealed == RevealedOver(w1, steps, u)
            && (forall n :: n in w.hub.rooms[u].users ==> n in end.results && end.results[n] == SentOver(w1, steps, u, n))
  {
    hide Inv, After, Enabled, Defined, Mirrors, GameRuns.RunInv, GameRuns.Possible, EventsOver, Allowed, NewGame;
    hide SentOver, AcceptedOver, RevealedOver, Survives;
    var (r, w1) := (FirstRun(w, st, u), After(w, st));
    GameBegins(w, st, u);
    RunProjects(r, w1, steps, u);
    RunLogs(r, w1, steps, u);
  }

  /**
   Over any admissible run of the server, a game sends each player's record at most once, has sent those
   of everybody who is offline, and of every player it started with exactly once when it is erased.
   */
  lemma ResultsAreSentOnce(w: World, st: Step, steps: seq<Step>, u: Uuid, n: Name)
    requires PlayedOver(w, st, steps, u) && n in w.hub.rooms[u].users
    ensures var (w1, sent) := (After(w, st), SentOver(After(w, st), steps, u, n));
            && |sent| <= 1
            && (if Survives(w1, steps, u)
                then u in End(w1, steps).hub.games && (n !in End(w1, steps).hub.games[u].online ==> |sent| == 1)
                else |sent| == 1)
  {
    hide Inv, After, Enabled, Defined, GameRuns.RunInv, GameRuns.Possible, EventsOver, Allowed, SentOver, Survives, NewGame;
    GameOverRun(w, st, steps, u);
    StartIsStartable(w, st, u);
    GameRuns.ExactlyOnce(st.req.questions.value, w.hub.rooms[u].limit, w.hub.rooms[u].users, st.env.readings.first,
                         EventsOver(After(w, st), steps, u));
  }

  /**
   Over any admissible run of the server, a game accepts one answer per player and question, and every
   acceptance comes strictly before anybody is told the correct index of its question.
   */
  lemma AcceptedAnswersAreFair(w: World, st: Step, steps: seq<Step>, u: Uuid)
    requires PlayedOver(w, st, steps, u)
    ensures var (accepted, revealed) := (AcceptedOver(After(w, st), steps, u), RevealedOver(After(w, st), steps, u));
            && (forall i, j :: 0 <= i < j < |accepted| ==>
                  accepted[i].user != accepted[j].user || accepted[i].question != accepted[j].question)
            && (forall a, t :: a in accepted && t in revealed && a.question == t.question ==> a.at < t.at)
  {
    hide Inv, After, Enabled, Defined, GameRuns.RunInv, GameRuns.Possible, EventsOver, Allowed, NewGame;
    hide AcceptedOver, RevealedOver, Mirrors, Survives;
    GameOverRun(w, st, steps, u);
    StartIsStartable(w, st, u);
    GameRuns.AnswersAreFair(st.req.questions.value, w.hub.rooms[u].limit, w.hub.rooms[u].users, st.env.readings.first,
                            EventsOver(After(w, st), steps, u));
  }

  // ----- final records -----

  /** Every sleeper of the game wakes before the slot of his question is over. */
  ghost predicate TimelyOver(w: World, steps: seq<Step>, u: Uuid)
    requires Inv(w) && Allowed(w, steps)
    decreases |steps|
  {
    steps == [] || u !in w.hub.games ||
    (TimelyBy(w, steps[0], u) && (StepKeepsInvIff(w, steps[0]); TimelyOver(After(w, steps[0]), steps[1..], u)))
  }

  predicate TimelyBy(w: World, st: Step, u: Uuid)
    requires Enabled(w, st) && u in w.hub.games
  {
    st.WakeUp? && PlaysIn(w.clients[st.c], u) ==>
      var g := w.hub.games[u];
      Elapsed(g.start, st.at) < Begin(Slot(g.limit), w.clients[st.c].asleep.value.question + 1)
  }

  lemma {:induction false} TimelyProjects(r: GameRuns.Run, w: World, steps: seq<Step>, u: Uuid)
    requires Inv(w) && Allowed(w, steps) && Mirrors(r, w, u) && TimelyOver(w, steps, u)
    requires GameRuns.RunInv(r) && GameRuns.ResultsAreFinal(r) && GameRuns.Possible(r, EventsOver(w, steps, u))
    ensures GameRuns.ResultsAreFinal(GameRuns.After(r, EventsOver(w, steps, u)))
    decreases |steps|
  {
    hide Inv, After, Enabled, Admissible, Answerable, Mirrors, EventsOf, TimelyBy;
    hide GameRuns.RunInv, GameRuns.Enabled, GameRuns.Step, GameRuns.ResultsAreFinal, GameRuns.Timely;
    MirrorsMeans(r, w, u);
    if steps != [] {
      StepKeepsInvIff(w, steps[0]);
      StepProjects(r, w, steps[0], u);
      StepStaysFinal(r, w, steps[0], u);
      var (w1, r1) := (After(w, steps[0]), GameRuns.After(r, EventsOf(w, steps[0], u)));
      if u in w1.hub.games {
        RunProjects(r1, w1, steps[1..], u);
        TimelyProjects(r1, w1, steps[1..], u);
      }
      PossibleThen(r, EventsOf(w, steps[0], u), EventsOver(w1, steps[1..], u));
    }
  }

  lemma StepStaysFinal(r: GameRuns.Run, w: World, st: Step, u: Uuid)
    requires Inv(w) && Enabled(w, st) && Defined(w, st) && Mirrors(r, w, u) && u in w.hub.games && TimelyBy(w, st, u)
    requires GameRuns.RunInv(r) && GameRuns.ResultsAreFinal(r) && GameRuns.Possible(r, EventsOf(w, st, u))
    ensures GameRuns.ResultsAreFinal(GameRuns.After(r, EventsOf(w, st, u)))
  {
    hide Inv, Defined, Surroundings, GameRuns.RunInv, GameRuns.ResultsAreFinal, GameRuns.Step, SleepersAgree;
    var events := EventsOf(w, st, u);
    if events != [] {
      assert GameRuns.Enabled(r, events[0]);
      OneEvent(r, events[0]);
      assert events == [events[0]];
      if st.WakeUp? {
        WakerSleepsOn(r, w, st, u);
      }
      GameRuns.TimelyStepKeepsFinal(r, events[0]);
    }
  }

  /** The game after a step; if the step erases it, as the removal left it. */
  function GameAfter(w: World, st: Step, u: Uuid): GameValue
    requires Enabled(w, st) && Defined(w, st) && u in w.hub.games
  {
    if u in After(w, st).hub.games then After(w, st).hub.games[u]
    else if GameLeftBy(w, st) == Some(u) && w.clients[st.c].user in w.hub.games[u].players
    then Games.Leave(w.hub.games[u], w.clients[st.c].user, st.env.readings)
    else w.hub.games[u]
  }

  /** The game at the end of a run, or as its last removal left it. */
  ghost function LastGame(w: World, steps: seq<Step>, u: Uuid): GameValue
    requires Inv(w) && Allowed(w, steps) && u in w.hub.games
    decreases |steps|
  {
    if steps == [] then w.hub.games[u]
    else
      StepKeepsInvIff(w, steps[0]);
      if u in After(w, steps[0]).hub.games then LastGame(After(w, steps[0]), steps[1..], u)
      else GameAfter(w, steps[0], u)
  }

  lemma StepGame(r: GameRuns.Run, w: World, st: Step, u: Uuid)
    requires Inv(w) && Enabled(w, st) && Defined(w, st) && Mirrors(r, w, u) && u in w.hub.games
    requires GameRuns.RunInv(r) && GameRuns.Possible(r, EventsOf(w, st, u))
    ensures GameRuns.After(r, EventsOf(w, st, u)).game == GameAfter(w, st, u)
  {
    hide Inv, After, GameRuns.RunInv, GameRuns.Step, GameRuns.Enabled, Surroundings, SleepersAgree, Games.Leave;
    StepProjects(r, w, st, u);
    if u !in After(w, st).hub.games {
      VanishesByLeaving(r, w, st, u);
    }
  }

  lemma VanishesByLeaving(r: GameRuns.Run, w: World, st: Step, u: Uuid)
    requires Inv(w) && Enabled(w, st) && Defined(w, st) && Mirrors(r, w, u) && u in w.hub.games
    requires u !in After(w, st).hub.games
    requires GameRuns.RunInv(r) && GameRuns.Possible(r, EventsOf(w, st, u))
    ensures GameLeftBy(w, st) == Some(u) && w.clients[st.c].user in w.hub.games[u].players
    ensures GameRuns.After(r, EventsOf(w, st, u)).game ==
            Games.Leave(w.hub.games[u], w.clients[st.c].user, st.env.readings)
  {
    hide Inv, After, GameRuns.RunInv, Surroundings, SleepersAgree, Games.Leave, Submissions;
    var events := EventsOf(w, st, u);
    if GameLeftBy(w, st) == Some(u) {
      InGame(w, st.c, u);
      assert GameRuns.Enabled(r, events[0]);
      OneEvent(r, events[0]);
      assert events == [events[0]];
    } else {
      StaysListed(r, w, st, u);
    }
  }

  lemma StaysListed(r: GameRuns.Run, w: World, st: Step, u: Uuid)
    requires Inv(w) && Enabled(w, st) && Defined(w, st) && Mirrors(r, w, u) && GameLeftBy(w, st) != Some(u)
    ensures u in After(w, st).hub.games
  {
    hide Inv, After, GameRuns.RunInv, GameRuns.Step, SleepersAgree, Defined, GameOf;
    if EventsOf(w, st, u) == [] {
      OtherStep(r, w, st, u);
    } else if st.WakeUp? {
      WakeStep(r, w, st, u);
    } else if st.req.GetGameResults? {
      ResultsStep(r, w, st, u);
    } else {
      AnswerStep(r, w, st, u);
    }
  }

  lemma {:induction false} LastGameProjects(r: GameRuns.Run, w: World, steps: seq<Step>, u: Uuid)
    requires Inv(w) && Allowed(w, steps) && Mirrors(r, w, u) && u in w.hub.games
    requires GameRuns.RunInv(r) && GameRuns.Possible(r, EventsOver(w, steps, u))
    ensures GameRuns.After(r, EventsOver(w, steps, u)).game == LastGame(w, steps, u)
    decreases |steps|
  {
    hide Inv, After, Enabled, Admissible, Answerable, EventsOf, GameAfter, SleepersAgree;
    hide GameRuns.RunInv, GameRuns.Enabled, GameRuns.Step;
    if steps != [] {
      StepKeepsInvIff(w, steps[0]);
      StepProjects(r, w, steps[0], u);
      StepGame(r, w, steps[0], u);
      var (w1, r1) := (After(w, steps[0]), GameRuns.After(r, EventsOf(w, steps[0], u)));
      if u in w1.hub.games {
        RunProjects(r1, w1, steps[1..], u);
        LastGameProjects(r1, w1, steps[1..], u);
      }
      PossibleThen(r, EventsOf(w, steps[0], u), EventsOver(w1, steps[1..], u));
    }
  }

  /**
   Over any admissible run of the server whose sleepers in the game wake in time, a record that was sent is
   what the game says about its player at the end, or when it was erased.
   */
  lemma SentRecordsAreFinal(w: World, st: Step, steps: seq<Step>, u: Uuid, n: Name)
    requires PlayedOver(w, st, steps, u) && TimelyOver(After(w, st), steps, u) && n in w.hub.rooms[u].users
    ensures u in After(w, st).hub.games
    ensures var (sent, last) := (SentOver(After(w, st), steps, u, n), LastGame(After(w, st), steps, u));
            sent != [] ==> n in last.players && SameResult(sent[0], last.players[n])
  {
    hide Inv, After, Enabled, Defined, GameRuns.Possible, EventsOver, Allowed, SentOver, Survives, NewGame, LastGame;
    hide SleepersAgree, TimelyOver, GameRuns.AcceptancesMatch, GameRuns.AnsweredInTime, GameRuns.RevelationsMatch;
    hide GameRuns.OneAnswerEach, GameInv;
    GameOverRun(w, st, steps, u);
    GameBegins(w, st, u);
    TimelyProjects(FirstRun(w, st, u), After(w, st), steps, u);
    LastGameProjects(FirstRun(w, st, u), After(w, st), steps, u);
  }

  /** Every record sent so far is what the game says about its player. */
  ghost predicate IsFinal(sent: map<Name, seq<GameData>>, g: GameValue) {
    forall n :: n in sent && sent[n] != [] ==> n in g.players && SameResult(sent[n][0], g.players[n])
  }

  function SentAfter(sent: map<Name, seq<GameData>>, w: World, st: Step, u: Uuid): map<Name, seq<GameData>>
    requires Enabled(w, st)
  {
    map n | n in sent :: sent[n] + SentBy(w, st, u, n)
  }

  /** At no moment, up to and including the step that erases the game, does one of its records differ from
      what was sent of it; `sent` is what was sent before. */
  ghost predicate FinalOver(w: World, steps: seq<Step>, u: Uuid, sent: map<Name, seq<GameData>>)
    requires Inv(w) && Allowed(w, steps)
    decreases |steps|
  {
    steps == [] || u !in w.hub.games ||
    (StepKeepsInvIff(w, steps[0]);
     var more := SentAfter(sent, w, steps[0], u);
     IsFinal(more, GameAfter(w, steps[0], u)) && FinalOver(After(w, steps[0]), steps[1..], u, more))
  }

  /** Whoever wakes in the game was not submitted yet, or repeats what his record holds. */
  predicate HarmlessBy(w: World, st: Step, u: Uuid)
    requires Enabled(w, st) && Defined(w, st) && u in w.hub.games
  {
    st.WakeUp? && PlaysIn(w.clients[st.c], u) ==>
      var (d, p) := (w.hub.games[u].players[w.clients[st.c].user], w.clients[st.c].asleep.value);
      !d.submitted || (d.answers[p.question].choice == p.choice && d.answers[p.question].time == p.time)
  }

  ghost predicate HarmlessOver(w: World, steps: seq<Step>, u: Uuid)
    requires Inv(w) && Allowed(w, steps)
    decreases |steps|
  {
    steps == [] || u !in w.hub.games ||
    (StepKeepsInvIff(w, steps[0]);
     HarmlessBy(w, steps[0], u) && HarmlessOver(After(w, steps[0]), steps[1..], u))
  }

  lemma StepFinalIff(r: GameRuns.Run, w: World, st: Step, u: Uuid)
    requires Inv(w) && Enabled(w, st) && Defined(w, st) && Mirrors(r, w, u) && u in w.hub.games
    requires GameRuns.RunInv(r) && GameRuns.ResultsAreFinal(r) && GameRuns.Possible(r, EventsOf(w, st, u))
    ensures GameRuns.ResultsAreFinal(GameRuns.After(r, EventsOf(w, st, u))) <==> HarmlessBy(w, st, u)
  {
    hide Inv, After, Surroundings, GameRuns.RunInv, GameRuns.ResultsAreFinal, GameRuns.Step, SleepersAgree;
    var events := EventsOf(w, st, u);
    if events != [] {
      assert GameRuns.Enabled(r, events[0]);
      OneEvent(r, events[0]);
      assert events == [events[0]];
      if st.WakeUp? {
        WakerSleepsOn(r, w, st, u);
      }
      GameRuns.StepKeepsFinalIff(r, events[0]);
    }
  }

  lemma FinalMeans(r: GameRuns.Run)
    requires GameRuns.RunInv(r)
    ensures GameRuns.ResultsAreFinal(r) <==> IsFinal(r.results, r.game)
  {
  }

  lemma {:induction false} FinalOverIff(r: GameRuns.Run, w: World, steps: seq<Step>, u: Uuid)
    requires Inv(w) && Allowed(w, steps) && Mirrors(r, w, u) && GameRuns.RunInv(r) && GameRuns.ResultsAreFinal(r)
    ensures FinalOver(w, steps, u, r.results) <==> HarmlessOver(w, steps, u)
    decreases |steps|
  {
    hide Inv, After, Enabled, Admissible, Answerable, Mirrors, EventsOf, GameAfter, HarmlessBy, SentBy, IsFinal;
    hide GameRuns.RunInv, GameRuns.Enabled, GameRuns.Step, GameRuns.ResultsAreFinal;
    MirrorsMeans(r, w, u);
    if steps != [] {
      StepKeepsInvIff(w, steps[0]);
      StepProjects(r, w, steps[0], u);
      StepGame(r, w, steps[0], u);
      StepLogs(r, w, steps[0], u);
      StepFinalIff(r, w, steps[0], u);
      var (w1, r1) := (After(w, steps[0]), GameRuns.After(r, EventsOf(w, steps[0], u)));
      FinalMeans(r1);
      assert r1.results == SentAfter(r.results, w, steps[0], u);
      if u in w1.hub.games && GameRuns.ResultsAreFinal(r1) {
        FinalOverIff(r1, w1, steps[1..], u);
      }
    }
  }

  /**
   Over any admissible run of the server from the start of a game, up to and including its erasure, no record
   of it ever differs from what was sent of it if and only if everybody who wakes in it was not submitted yet,
   or repeats what his record holds.
   */
  lemma RecordsStayFinalIff(w: World, st: Step, steps: seq<Step>, u: Uuid)
    requires PlayedOver(w, st, steps, u)
    ensures FinalOver(After(w, st), steps, u, map n | n in w.hub.rooms[u].users :: [])
            <==> HarmlessOver(After(w, st), steps, u)
  {
    hide Inv, After, Enabled, Defined, Allowed, FinalOver, HarmlessOver, Mirrors, GameRuns.RunInv, NewGame;
    GameBegins(w, st, u);
    MirrorsMeans(FirstRun(w, st, u), After(w, st), u);
    NothingSentYet(w, st, u);
    FinalOverIff(FirstRun(w, st, u), After(w, st), steps, u);
  }

  lemma NothingSentYet(w: World, st: Step, u: Uuid)
    requires Enabled(w, st) && Starts(w, st, u) && GameRuns.RunInv(FirstRun(w, st, u))
    ensures GameRuns.ResultsAreFinal(FirstRun(w, st, u))
    ensures FirstRun(w, st, u).results == map n | n in w.hub.rooms[u].users :: []
  {
    hide GameRuns.RunInv;
  }

  // ----- the ledger -----

  /** The outcome that a step writes for `n`. */
  function WrittenBy(w: World, st: Step, n: Name): seq<Outcome>
    requires Enabled(w, st)
  {
    if GameLeftBy(w, st).Some? then OutcomesBy(w, st, GameLeftBy(w, st).value, n) else []
  }

  /** The same, if somebody leaves game `u`. */
  function OutcomesBy(w: World, st: Step, u: Uuid, n: Name): seq<Outcome>
    requires Enabled(w, st)
  {
    var sent := SentBy(w, st, u, n);
    if sent != [] && sent[0].answers != [] && n !in st.env.failing then [OutcomeOf(sent[0], st.env.undefined)] else []
  }

  /** An account that was verified. */
  predicate Verified(w: World, n: Name) {
    n in w.hub.accounts && n !in w.pending
  }

  /** Everybody in a room has one. */
  lemma UsersAreVerified(w: World, u: Uuid, n: Name)
    requires Inv(w) && u in w.hub.rooms && n in w.hub.rooms[u].users
    ensures Verified(w, n)
  {
    PlayersAreVerified(w, u, n);
    var c :| SitsAt(w.clients, c, n, u);
  }

  lemma VerifiedHasTables(w: World, n: Name)
    requires Inv(w) && Verified(w, n)
    ensures n in w.hub.rows && n in w.hub.ledger && n in w.hub.base
    ensures w.hub.rows[n] == History(w.hub.base[n], w.hub.ledger[n])
    ensures forall c :: c in w.clients && w.clients[c].Verification? ==> w.clients[c].user != n
  {
  }

  /** A verified account keeps its first row and its ledger, which grows by what the step writes. */
  lemma StepLedger(w: World, st: Step, n: Name)
    requires Inv(w) && Enabled(w, st) && Defined(w, st) && Verified(w, n)
    ensures Verified(After(w, st), n)
    ensures n in w.hub.ledger && n in w.hub.base && n in After(w, st).hub.ledger && n in After(w, st).hub.base
    ensures After(w, st).hub.base[n] == w.hub.base[n]
    ensures n in w.hub.accounts && n in After(w, st).hub.accounts && After(w, st).hub.accounts[n] == w.hub.accounts[n]
    ensures After(w, st).hub.ledger[n] == w.hub.ledger[n] + WrittenBy(w, st, n)
  {
    hide Inv, Handle, HandleExit, Surroundings, WrittenBy, RemovedFromGame, Removable, GameOf, ReadsSucceed;
    VerifiedHasTables(w, n);
    OnlyRemovalsWrite(w, st);
    WrittenIs(w, st, n);
    match st
    case Serve(c, req, env) => ServingKeepsAccount(w.hub, w.clients[c], req, env, n);
    case Disconnect(c, env) => ExitKeepsAccount(w.hub, w.clients[c], env, n);
    case _ =>
  }

  lemma WrittenIs(w: World, st: Step, n: Name)
    requires Inv(w) && Enabled(w, st) && Verified(w, n) && n in w.hub.ledger && n in w.hub.rows
    ensures if GameLeftBy(w, st).Some?
            then
              var (uuid, user) := (GameLeftBy(w, st).value, w.clients[st.c].user);
              Removable(w.hub, uuid, user) ==>
                && n in RemovedFromGame(w.hub, uuid, user, st.env).ledger
                && RemovedFromGame(w.hub, uuid, user, st.env).ledger[n] == w.hub.ledger[n] + WrittenBy(w, st, n)
            else WrittenBy(w, st, n) == []
  {
    hide Inv, Games.Leave, Submissions, OutcomeOf, Surroundings;
    if GameLeftBy(w, st).Some? && Removable(w.hub, GameLeftBy(w, st).value, w.clients[st.c].user) {
      SubmissionsHaveAnswers(w.hub.games[GameLeftBy(w, st).value], w.clients[st.c].user, st.env.readings);
    }
  }

  lemma ServingKeepsAccount(h: Hub, s: Session, req: Request, env: Env, n: Name)
    requires LookupsSucceed(h, s) && n in h.accounts && n in h.base && n in h.ledger
    requires s.Verification? ==> s.user != n
    ensures var after := Handle(h, s, req, env).0;
            n in after.accounts && n in after.base && n in after.ledger && after.base[n] == h.base[n]
            && after.accounts[n] == h.accounts[n]
  {
    hide HaveAnswers, RemovalFails, Decide, Without, NewGame, RowsWritten, OutcomeOf, Games.Leave, Submissions,
      DoSignUp, DoSubmitCode;
    EnteringKeepsAccount(h, s, req, env, n);
  }

  lemma EnteringKeepsAccount(h: Hub, s: Session, req: Request, env: Env, n: Name)
    requires n in h.accounts && n in h.base && n in h.ledger
    ensures req.SignUp? ==>
              var after := DoSignUp(h, req, env.deletes).0;
              n in after.accounts && n in after.base && n in after.ledger && after.base[n] == h.base[n]
              && after.accounts[n] == h.accounts[n]
    ensures s.Verification? && s.user != n && req.SubmitCode? ==>
              var after := DoSubmitCode(h, s, req.code, env.deletes).0;
              n in after.accounts && n in after.base && n in after.ledger && after.base[n] == h.base[n]
              && after.accounts[n] == h.accounts[n]
  {
  }

  lemma ExitKeepsAccount(h: Hub, s: Session, env: Env, n: Name)
    requires LookupsSucceed(h, s) && n in h.accounts && n in h.base && n in h.ledger
    requires s.Verification? ==> s.user != n
    ensures var after := HandleExit(h, s, env);
            n in after.accounts && n in after.base && n in after.ledger && after.base[n] == h.base[n]
            && after.accounts[n] == h.accounts[n]
  {
    hide HaveAnswers, RemovalFails, Without, RowsWritten, OutcomeOf, Games.Leave, Submissions;
  }

  ghost function WrittenOver(w: World, steps: seq<Step>, n: Name): seq<Outcome>
    requires Inv(w) && Allowed(w, steps)
    decreases |steps|
  {
    if steps == [] then []
    else
      StepKeepsInvIff(w, steps[0]);
      WrittenBy(w, steps[0], n) + WrittenOver(After(w, steps[0]), steps[1..], n)
  }

  /** Over any admissible run, a verified user's row is the history of his first row, his ledger at the
      beginning, and then exactly what the removals from games wrote for him. */
  lemma {:induction false} LedgerOverRun(w: World, steps: seq<Step>, n: Name)
    requires Inv(w) && Allowed(w, steps) && Verified(w, n)
    ensures Verified(End(w, steps), n) && n in w.hub.base && n in w.hub.ledger && n in End(w, steps).hub.ledger
    ensures End(w, steps).hub.ledger[n] == w.hub.ledger[n] + WrittenOver(w, steps, n)
    ensures n in End(w, steps).hub.base && End(w, steps).hub.base[n] == w.hub.base[n]
    ensures n in End(w, steps).hub.rows
    ensures End(w, steps).hub.rows[n] == History(w.hub.base[n], w.hub.ledger[n] + WrittenOver(w, steps, n))
    decreases |steps|
  {
    hide Inv, After, Enabled, Admissible, Answerable, Verified, WrittenBy, History;
    VerifiedHasTables(w, n);
    if steps == [] {
      assert w.hub.ledger[n] + [] == w.hub.ledger[n];
    } else {
      StepKeepsInvIff(w, steps[0]);
      StepLedger(w, steps[0], n);
      LedgerOverRun(After(w, steps[0]), steps[1..], n);
      var (first, rest) := (WrittenBy(w, steps[0], n), WrittenOver(After(w, steps[0]), steps[1..], n));
      assert w.hub.ledger[n] + first + rest == w.hub.ledger[n] + (first + rest);
    }
  }

  /** The part of it that comes from game `u`, until it is erased. */
  ghost function OutcomesOver(w: World, steps: seq<Step>, u: Uuid, n: Name): seq<Outcome>
    requires Inv(w) && Allowed(w, steps)
    decreases |steps|
  {
    if steps == [] || u !in w.hub.games then []
    else
      StepKeepsInvIff(w, steps[0]);
      OutcomesBy(w, steps[0], u, n) + OutcomesOver(After(w, steps[0]), steps[1..], u, n)
  }

  /** The database takes every result of `n`. */
  predicate NoFailures(steps: seq<Step>, n: Name) {
    forall st :: st in steps && (st.Serve? || st.Disconnect?) ==> n !in st.env.failing
  }

  ghost predicate IsOutcomeOf(o: Outcome, d: GameData) {
    d.answers != [] && exists undefined: int :: o == OutcomeOf(d, undefined)
  }

  ghost predicate AreOutcomesOf(outcomes: seq<Outcome>, sent: seq<GameData>) {
    |outcomes| == |sent| && forall i :: 0 <= i < |sent| ==> IsOutcomeOf(outcomes[i], sent[i])
  }

  lemma OutcomeOfStep(w: World, st: Step, u: Uuid, n: Name)
    requires Inv(w) && Enabled(w, st) && Defined(w, st) && NoFailures([st], n)
    ensures AreOutcomesOf(OutcomesBy(w, st, u, n), SentBy(w, st, u, n))
  {
    hide Inv, Games.Leave, Submissions, OutcomeOf, Surroundings, GameOf, LookupsSucceed;
    if SentBy(w, st, u, n) != [] {
      assert st in [st];
      InGame(w, st.c, u);
      SentHaveAnswers(w, u, w.clients[st.c].user, st.env.readings);
    }
  }

  lemma SentHaveAnswers(w: World, u: Uuid, user: Name, r: Readings)
    requires Inv(w) && u in w.hub.games && user in w.hub.games[u].players
    ensures HaveAnswers(Submissions(w.hub.games[u], user, r))
  {
    GameRecordsExist(w.hub.games[u], w.now);
    SubmissionsHaveAnswers(w.hub.games[u], user, r);
  }

  lemma {:induction false} OutcomesAreSent(w: World, steps: seq<Step>, u: Uuid, n: Name)
    requires Inv(w) && Allowed(w, steps) && NoFailures(steps, n)
    ensures AreOutcomesOf(OutcomesOver(w, steps, u, n), SentOver(w, steps, u, n))
    decreases |steps|
  {
    hide Inv, After, Enabled, Admissible, Answerable, OutcomesBy, SentBy, IsOutcomeOf;
    if steps != [] && u in w.hub.games {
      StepKeepsInvIff(w, steps[0]);
      assert steps[0] in steps;
      OutcomeOfStep(w, steps[0], u, n);
      OutcomesAreSent(After(w, steps[0]), steps[1..], u, n);
    }
  }

  /**
   Over any admissible run in which the database takes every result of `n`, a game he plays in writes at
   most one outcome to his ledger, exactly one by the time it is erased, and that is the outcome of the
   record it sent of him.
   */
  lemma OneOutcomePerGame(w: World, st: Step, steps: seq<Step>, u: Uuid, n: Name)
    requires PlayedOver(w, st, steps, u) && n in w.hub.rooms[u].users && NoFailures(steps, n)
    ensures var (w1, outcomes, sent) :=
              (After(w, st), OutcomesOver(After(w, st), steps, u, n), SentOver(After(w, st), steps, u, n));
            && |outcomes| <= 1 && (!Survives(w1, steps, u) ==> |outcomes| == 1)
            && AreOutcomesOf(outcomes, sent)
  {
    hide Inv, After, Enabled, Defined, Allowed, SentOver, OutcomesOver, Survives, NewGame, NoFailures, IsOutcomeOf;
    ResultsAreSentOnce(w, st, steps, u, n);
    OutcomesAreSent(After(w, st), steps, u, n);
  }

  // ----- conservation -----

  /** The record of `n` that a step sends because somebody leaves a game, whichever it is. */
  function RecordBy(w: World, st: Step, n: Name): seq<GameData>
    requires Enabled(w, st)
  {
    if GameLeftBy(w, st).Some? then SentBy(w, st, GameLeftBy(w, st).value, n) else []
  }

  /** The game that sends it, if any. */
  function SendersOf(w: World, st: Step, n: Name): set<Uuid>
    requires Enabled(w, st)
  {
    if RecordBy(w, st, n) == [] then {} else {GameLeftBy(w, st).value}
  }

  ghost function RecordsOver(w: World, steps: seq<Step>, n: Name): seq<GameData>
    requires Inv(w) && Allowed(w, steps)
    decreases |steps|
  {
    if steps == [] then []
    else
      StepKeepsInvIff(w, steps[0]);
      RecordBy(w, steps[0], n) + RecordsOver(After(w, steps[0]), steps[1..], n)
  }

  /** No game sends a record of `n` twice; `done` are the games in the list that have sent one. */
  ghost predicate OncePerGame(w: World, steps: seq<Step>, n: Name, done: set<Uuid>)
    requires Inv(w) && Allowed(w, steps)
    decreases |steps|
  {
    steps == [] ||
    (StepKeepsInvIff(w, steps[0]);
     var sends := SendersOf(w, steps[0], n);
     && sends !! done
     && OncePerGame(After(w, steps[0]), steps[1..], n, StillListed(done + sends, After(w, steps[0]))))
  }

  function StillListed(done: set<Uuid>, w: World): set<Uuid> {
    set u | u in done && u in w.hub.games
  }

  /** The record of `n` in game `u` has been sent. */
  predicate IsSent(w: World, u: Uuid, n: Name) {
    u in w.hub.games && n in w.hub.games[u].players && w.hub.games[u].players[n].submitted
  }

  lemma StaysSent(w: World, st: Step, u: Uuid, n: Name)
    requires Inv(w) && Enabled(w, st) && Defined(w, st) && IsSent(w, u, n) && u in After(w, st).hub.games
    ensures IsSent(After(w, st), u, n)
  {
    hide Inv, Handle, HandleExit, PendingAfter, Games.Leave, Submissions, ReadsSucceed, GameOf, Surroundings;
    if GameLeftBy(w, st) == Some(u) {
      LeftGames(w, st, u);
      InGame(w, st.c, u);
      LeavingKeepsSent(w, u, w.clients[st.c].user, st.env.readings, n);
    } else {
      match st
      case Serve(c, req, env) =>
        if w.clients[c].Admin? {
          AdminsRoomHasNoGame(w, c);
        }
        ServingKeepsGame(w.hub, w.clients[c], req, env, u);
      case Disconnect(c, env) => ExitKeepsGame(w.hub, w.clients[c], env, u);
      case _ =>
    }
  }

  lemma LeavingKeepsSent(w: World, u: Uuid, user: Name, r: Readings, n: Name)
    requires IsSent(w, u, n) && user in w.hub.games[u].players
    ensures n in Games.Leave(w.hub.games[u], user, r).players && Games.Leave(w.hub.games[u], user, r).players[n].submitted
  {
    OwnResultEffects(w.hub.games[u], user, r);
    hide FinishedAt;
  }

  lemma SendingMarks(w: World, st: Step, n: Name)
    requires Inv(w) && Enabled(w, st) && Defined(w, st)
    ensures forall u :: u in SendersOf(w, st, n) ==>
              && u in w.hub.games && !IsSent(w, u, n)
              && (u in After(w, st).hub.games ==> IsSent(After(w, st), u, n))
  {
    hide Inv, After, Games.Leave, Submissions, GameOf, Defined;
    if RecordBy(w, st, n) != [] {
      var u := GameLeftBy(w, st).value;
      InGame(w, st.c, u);
      LeftGames(w, st, u);
      GameOfList(w, u);
      SubmissionsAreTheNewlyMarked(w.hub.games[u], w.clients[st.c].user, w.now, st.env.readings);
    }
  }

  lemma GameOfList(w: World, u: Uuid)
    requires Inv(w) && u in w.hub.games
    ensures GameInv(w.hub.games[u], w.now)
  {
  }

  lemma {:induction false} SendsOncePerGame(w: World, steps: seq<Step>, n: Name, done: set<Uuid>)
    requires Inv(w) && Allowed(w, steps) && forall u :: u in done ==> IsSent(w, u, n)
    ensures OncePerGame(w, steps, n, done)
    decreases |steps|
  {
    hide Inv, After, Enabled, Admissible, Answerable, SendersOf, IsSent;
    if steps != [] {
      StepKeepsInvIff(w, steps[0]);
      var w1 := After(w, steps[0]);
      var sends := SendersOf(w, steps[0], n);
      SendingMarks(w, steps[0], n);
      forall u | u in StillListed(done + sends, w1)
        ensures IsSent(w1, u, n)
      {
        if u in done {
          StaysSent(w, steps[0], u, n);
        }
      }
      SendsOncePerGame(w1, steps[1..], n, StillListed(done + sends, w1));
    }
  }

  lemma {:induction false} WrittenAreOutcomes(w: World, steps: seq<Step>, n: Name)
    requires Inv(w) && Allowed(w, steps) && NoFailures(steps, n)
    ensures AreOutcomesOf(WrittenOver(w, steps, n), RecordsOver(w, steps, n))
    decreases |steps|
  {
    hide Inv, After, Enabled, Admissible, Answerable, OutcomesBy, SentBy, IsOutcomeOf, GameLeftBy;
    if steps != [] {
      StepKeepsInvIff(w, steps[0]);
      assert steps[0] in steps;
      if GameLeftBy(w, steps[0]).Some? {
        OutcomeOfStep(w, steps[0], GameLeftBy(w, steps[0]).value, n);
      }
      WrittenAreOutcomes(After(w, steps[0]), steps[1..], n);
    }
  }

  lemma {:induction false} HistoryThen(start: Row, outcomes: seq<Outcome>, more: seq<Outcome>)
    ensures History(start, outcomes + more) == History(History(start, outcomes), more)
  {
    hide ApplyGame;
    if more == [] {
      assert outcomes + more == outcomes;
    } else {
      HistoryThen(start, outcomes, more[..|more| - 1]);
      assert (outcomes + more)[..|outcomes + more| - 1] == outcomes + more[..|more| - 1];
    }
  }

  /**
   Over any admissible run in which the database takes every result of a verified user, his row grows by one
   outcome for each game that sends his record, and no game does so twice: the number of his games, and of
   his right and wrong answers, by exactly (modulo 2^32) what those records hold.
   */
  lemma GamesPlayedAreCounted(w: World, steps: seq<Step>, n: Name)
    requires Inv(w) && Allowed(w, steps) && Verified(w, n) && NoFailures(steps, n)
    ensures OncePerGame(w, steps, n, {})
    ensures var (records, written) := (RecordsOver(w, steps, n), WrittenOver(w, steps, n));
            && AreOutcomesOf(written, records)
            && n in w.hub.rows && n in End(w, steps).hub.rows
            && var (row, end) := (w.hub.rows[n], End(w, steps).hub.rows[n]);
            && end == History(row, written)
            && end.games == Wrap(row.games + |records|)
            && end.correct == Wrap(row.correct + CorrectTotal(written))
            && end.wrong == Wrap(row.wrong + WrongTotal(written))
  {
    hide Inv, Allowed, Verified, NoFailures, OncePerGame, IsOutcomeOf, History, WrittenOver, RecordsOver, Wrap;
    hide CorrectTotal, WrongTotal, AnswerTotal, Enabled;
    SendsOncePerGame(w, steps, n, {});
    WrittenAreOutcomes(w, steps, n);
    RowGrows(w, steps, n);
    Conservation(w.hub.rows[n], WrittenOver(w, steps, n));
  }

  lemma RowGrows(w: World, steps: seq<Step>, n: Name)
    requires Inv(w) && Allowed(w, steps) && Verified(w, n)
    ensures n in w.hub.rows && n in End(w, steps).hub.rows
    ensures End(w, steps).hub.rows[n] == History(w.hub.rows[n], WrittenOver(w, steps, n))
  {
    hide Inv, Allowed, Verified, History, WrittenOver, Enabled;
    VerifiedHasTables(w, n);
    LedgerOverRun(w, steps, n);
    HistoryThen(w.hub.base[n], w.hub.ledger[n], WrittenOver(w, steps, n));
  }

  lemma {:induction false} SentAreRecords(w: World, steps: seq<Step>, u: Uuid, n: Name)
    requires Inv(w) && Allowed(w, steps)
    ensures forall d :: d in SentOver(w, steps, u, n) ==> d in RecordsOver(w, steps, n)
    decreases |steps|
  {
    hide Inv, After, Enabled, Admissible, Answerable, GameOf, Submissions;
    if steps != [] && u in w.hub.games {
      StepKeepsInvIff(w, steps[0]);
      SentAreRecords(After(w, steps[0]), steps[1..], u, n);
    }
  }

  /** So it is for everybody a game starts with, and by the time it is erased his record of it is among those
      that were counted. */
  lemma PlayersAreCounted(w: World, st: Step, steps: seq<Step>, u: Uuid, n: Name)
    requires PlayedOver(w, st, steps, u) && n in w.hub.rooms[u].users && NoFailures(steps, n)
    ensures var (w1, sent) := (After(w, st), SentOver(After(w, st), steps, u, n));
            && Verified(w1, n) && OncePerGame(w1, steps, n, {})
            && AreOutcomesOf(WrittenOver(w1, steps, n), RecordsOver(w1, steps, n))
            && (!Survives(w1, steps, u) ==> |sent| == 1 && sent[0] in RecordsOver(w1, steps, n))
  {
    hide Inv, Enabled, Defined, Allowed, SentOver, RecordsOver, WrittenOver, Survives, NewGame, NoFailures, IsOutcomeOf;
    hide OncePerGame, Handle, PendingAfter;
    UsersAreVerified(w, u, n);
    StepLedger(w, st, n);
    hide After;
    GamesPlayedAreCounted(After(w, st), steps, n);
    ResultsAreSentOnce(w, st, steps, u, n);
    SentAreRecords(After(w, st), steps, u, n);
  }
}
