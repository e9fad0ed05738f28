/** The witnesses about single games, as admissible runs of the server from the state of `Examples.Cast`. */
module ServerExamples {
  import opened Widths
  import opened Names
  import opened Scores
  import opened TimeWindows
  import opened Games
  import GameRuns
  import opened Sessions
  import opened SessionInvariant
  import opened ServerSafety
  import opened ServerRuns
  import opened GameProjections
  import opened ServerGames
  import opened Examples

  function At(t: nat): Env {
    Env(Readings(t, t, t), {}, true, 0)
  }

  lemma CastMirrors(k: Cast)
    requires k.Valid()
    ensures Inv(k.World()) && Mirrors(Quiz(k.ann, k.bob), k.World(), k.room)
    ensures k.World().clients == k.Clients() && k.World().now == 0
  {
    hide Inv, GameRuns.RunInv, NewGame;
    WorldInv(k);
    GameRuns.FreshInv([ASKED, ASKED], 5, [k.ann, k.bob], 0);
    BothOnline(k);
  }

  lemma BothOnline(k: Cast)
    ensures !Quiz(k.ann, k.bob).erased && Quiz(k.ann, k.bob).game == k.Game()
  {
  }

  /** What a step does that is event `ev` of the game and leaves its handlers as in `clients`. */
  ghost predicate Goes(k: Cast, w: World, st: Step, r: GameRuns.Run, ev: GameRuns.Event, clients: Clients, now: nat) {
    && Inv(w) && Enabled(w, st) && Answerable(w, st) && Defined(w, st) && Admissible(w, st)
    && Inv(After(w, st)) && After(w, st).clients == clients && After(w, st).now == now
    && GameRuns.RunInv(r) && GameRuns.Enabled(r, ev) && Mirrors(GameRuns.Step(r, ev), After(w, st), k.room)
    && k.room in w.hub.games
    && GameRuns.Step(r, ev).results == SentAfter(r.results, w, st, k.room)
  }

  lemma EventGoes(w: World, st: Step, r: GameRuns.Run, ev: GameRuns.Event, u: Uuid)
    requires Inv(w) && Enabled(w, st) && Defined(w, st) && Mirrors(r, w, u) && EventsOf(w, st, u) == [ev]
    ensures GameRuns.RunInv(r) && GameRuns.Enabled(r, ev) && GameRuns.RunInv(GameRuns.Step(r, ev))
    ensures Follows(GameRuns.Step(r, ev), After(w, st), u)
    ensures GameRuns.Step(r, ev).results == SentAfter(r.results, w, st, u)
  {
    hide Inv, After, Defined, Mirrors, GameRuns.Enabled, GameRuns.Step, GameRuns.RunInv, Surroundings, GameOf, EventsOf, SentBy;
    MirrorsMeans(r, w, u);
    StepProjects(r, w, st, u);
    StepLogs(r, w, st, u);
    assert GameRuns.Enabled(r, [ev][0]);
    OneEvent(r, ev);
  }

  lemma AnnSubmits(k: Cast, w: World, r: GameRuns.Run, question: u32, t: nat)
    requires Inv(w) && Mirrors(r, w, k.room) && w.now <= t
    requires k.a in w.clients && w.clients[k.a] == Playing(k.ann, k.room, None)
    requires Decide(r.game, 0, question, t, t).Sleeping? && !FinishedAt(r.game, t)
    ensures Goes(k, w, Serve(k.a, SubmitAnswer(0, question), At(t)), r, GameRuns.Submit(k.ann, 0, question, t, t),
                 w.clients[k.a := Playing(k.ann, k.room, Some(Decide(r.game, 0, question, t, t).pending))], t)
  {
    hide Inv, GameRuns.RunInv, GameRuns.Step, GameRuns.Enabled, Decide, FinishedAt, SleepersAgree, LookupsSucceed;
    var st := Serve(k.a, SubmitAnswer(0, question), At(t));
    StepKeepsInvIff(w, st);
    EventGoes(w, st, r, GameRuns.Submit(k.ann, 0, question, t, t), k.room);
  }

  lemma AnnWakes(k: Cast, w: World, r: GameRuns.Run, p: Pending, t: nat)
    requires Inv(w) && Mirrors(r, w, k.room) && w.now <= t
    requires k.a in w.clients && w.clients[k.a] == Playing(k.ann, k.room, Some(p))
    requires p.release <= Elapsed(r.game.start, t)
    ensures Goes(k, w, WakeUp(k.a, t), r, GameRuns.Wake(k.ann, t), w.clients[k.a := Playing(k.ann, k.room, None)], t)
  {
    hide Inv, GameRuns.RunInv, GameRuns.Step, GameRuns.Enabled, Woken, SleepersAgree;
    StepKeepsInvIff(w, WakeUp(k.a, t));
    EventGoes(w, WakeUp(k.a, t), r, GameRuns.Wake(k.ann, t), k.room);
    assert Follows(GameRuns.Step(r, GameRuns.Wake(k.ann, t)), After(w, WakeUp(k.a, t)), k.room);
  }

  /** Bob leaves the room, and with it the game that Ann stays in. */
  lemma BobLeavesRoom(k: Cast, w: World, r: GameRuns.Run, t: nat)
    requires Inv(w) && Mirrors(r, w, k.room) && w.now <= t
    requires k.b in w.clients && w.clients[k.b] == Member(k.bob, k.room)
    requires GameRuns.RunInv(r) && GameRuns.Enabled(r, GameRuns.Leave(k.bob, Readings(t, t, t)))
    requires !GameRuns.Step(r, GameRuns.Leave(k.bob, Readings(t, t, t))).erased
    ensures Goes(k, w, Serve(k.b, LeaveRoom, At(t)), r, GameRuns.Leave(k.bob, Readings(t, t, t)),
                 w.clients[k.b := Menu(k.bob)], t)
  {
    hide Inv, GameRuns.RunInv, GameRuns.Step, GameRuns.Enabled, SleepersAgree, LookupsSucceed, RemovedFromGame, Removable;
    var st := Serve(k.b, LeaveRoom, At(t));
    GamesRoomIsActive(w, k.room);
    StepKeepsInvIff(w, st);
    EventGoes(w, st, r, GameRuns.Leave(k.bob, Readings(t, t, t)), k.room);
  }

  lemma GamesRoomIsActive(w: World, u: Uuid)
    requires Inv(w) && u in w.hub.games
    ensures u in w.hub.rooms && w.hub.rooms[u].active
  {
  }

  /** Admissible steps, one for each event of a run of the game. */
  ghost predicate Plays(k: Cast, w: World, steps: seq<Step>, r: GameRuns.Run, events: seq<GameRuns.Event>)
    decreases |steps|
  {
    && |steps| == |events| && Inv(w) && Mirrors(r, w, k.room)
    && (steps == [] ||
        (&& Enabled(w, steps[0]) && Defined(w, steps[0])
         && Goes(k, w, steps[0], r, events[0], After(w, steps[0]).clients, After(w, steps[0]).now)
         && Plays(k, After(w, steps[0]), steps[1..], GameRuns.Step(r, events[0]), events[1..])))
  }

  lemma {:induction false} PlaysMeans(k: Cast, w: World, steps: seq<Step>, r: GameRuns.Run, events: seq<GameRuns.Event>)
    requires Plays(k, w, steps, r, events)
    ensures Inv(w) && Allowed(w, steps) && GameRuns.RunInv(r) && GameRuns.Possible(r, events)
    ensures Mirrors(GameRuns.After(r, events), End(w, steps), k.room)
    ensures forall n :: n in r.results ==>
              && n in GameRuns.After(r, events).results
              && GameRuns.After(r, events).results[n] == r.results[n] + SentOver(w, steps, k.room, n)
    ensures GameRuns.After(r, events).results.Keys == r.results.Keys
    decreases |steps|
  {
    hide Inv, After, Enabled, Defined, Answerable, Admissible, Mirrors, SentBy;
    hide GameRuns.RunInv, GameRuns.Enabled, GameRuns.Step;
    MirrorsMeans(r, w, k.room);
    if steps != [] {
      StepKeepsInvIff(w, steps[0]);
      GameRuns.StepKeepsInv(r, events[0]);
      PlaysMeans(k, After(w, steps[0]), steps[1..], GameRuns.Step(r, events[0]), events[1..]);
    }
  }

  // ----- answers in no time -----

  function QuickSteps(k: Cast): seq<Step> {
    [Serve(k.a, SubmitAnswer(0, 0), At(0)), WakeUp(k.a, 5 * TICKS),
     Serve(k.a, SubmitAnswer(0, 1), At(10 * TICKS)), WakeUp(k.a, 15 * TICKS)]
  }

  /** Both answers right and in no time, in four admissible steps of the server. */
  lemma QuickAnswersHaveNoScoreOnServer(k: Cast)
    requires k.Valid()
    ensures Inv(k.World()) && Allowed(k.World(), QuickSteps(k))
    ensures var games := End(k.World(), QuickSteps(k)).hub.games;
            && k.room in games && k.ann in games[k.room].players
            && games[k.room].players[k.ann].answers == [QUICK, QUICK]
            && Correct([QUICK, QUICK]) == 2 && AverageTime([QUICK, QUICK]) == 0
  {
    hide Inv, After, Mirrors, GameRuns.RunInv, GameRuns.After, GameRuns.Possible, Allowed, Plays;
    QuickStepsPlay(k);
    PlaysMeans(k, k.World(), QuickSteps(k), Quiz(k.ann, k.bob), QuickAnswers(k.ann));
    QuickAnswersHaveNoScore(k.ann, k.bob);
    MirrorsGame(GameRuns.After(Quiz(k.ann, k.bob), QuickAnswers(k.ann)), End(k.World(), QuickSteps(k)), k.room);
    NoTime();
  }

  lemma MirrorsGame(r: GameRuns.Run, w: World, u: Uuid)
    requires Mirrors(r, w, u)
    ensures u in w.hub.games && r.game == w.hub.games[u]
  {
  }

  lemma QuickStepsPlay(k: Cast)
    requires k.Valid()
    ensures Plays(k, k.World(), QuickSteps(k), Quiz(k.ann, k.bob), QuickAnswers(k.ann))
  {
    hide Inv, After, Enabled, Answerable, Defined, Admissible, GameRuns.RunInv, GameRuns.Enabled, GameRuns.Step;
    hide Decide, FinishedAt, SleepersAgree, SentAfter, Cast.Clients, Cast.Valid, Cast.World;
    var (w, r, steps, events) := (k.World(), Quiz(k.ann, k.bob), QuickSteps(k), QuickAnswers(k.ann));
    CastMirrors(k);
    Handlers(k);
    Seconds();
    DifferentNames(k);
    AnnStarts(k.ann, k.bob);
    Examples.AnnSubmits(r, k.ann, 0, [UNANSWERED, UNANSWERED], 0);
    SlotsOf(r.game);
    AnnSubmits(k, w, r, 0, 0);
    var (w1, r1) := (After(w, steps[0]), GameRuns.Step(r, events[0]));
    Examples.AnnWakes(r1, k.ann, 0, [UNANSWERED, UNANSWERED], 0);
    AnnWakes(k, w1, r1, Pending(0, 0, 0, 5), 5 * TICKS);
    var (w2, r2) := (After(w1, steps[1]), GameRuns.Step(r1, events[1]));
    Examples.AnnSubmits(r2, k.ann, 5 * TICKS, [QUICK, UNANSWERED], 1);
    SlotsOf(r2.game);
    AnnSubmits(k, w2, r2, 1, 10 * TICKS);
    var (w3, r3) := (After(w2, steps[2]), GameRuns.Step(r2, events[2]));
    Examples.AnnWakes(r3, k.ann, 10 * TICKS, [QUICK, UNANSWERED], 1);
    AnnWakes(k, w3, r3, Pending(1, 0, 0, 15), 15 * TICKS);
    assert Plays(k, After(w3, steps[3]), steps[3..][1..], GameRuns.Step(r3, events[3]), events[3..][1..]);
    assert Plays(k, w3, steps[2..][1..], r3, events[2..][1..]);
    assert Plays(k, w2, steps[1..][1..], r2, events[1..][1..]);
    assert Plays(k, w1, steps[1..], r1, events[1..]);
  }

  lemma SlotsOf(g: GameValue)
    requires g.questions == [ASKED, ASKED] && g.limit == 5 && g.start == 0
    ensures Decide(g, 0, 0, 0, 0) == Sleeping(Pending(0, 0, 0, 5)) && !FinishedAt(g, 0)
    ensures Decide(g, 0, 1, 10 * TICKS, 10 * TICKS) == Sleeping(Pending(1, 0, 0, 15)) && !FinishedAt(g, 10 * TICKS)
  {
    hide Elapsed, Judge, Finished;
    Seconds();
    Verdicts();
  }

  // ----- a late sleeper -----

  function LateSteps(k: Cast): seq<Step> {
    [Serve(k.a, SubmitAnswer(0, 1), At(10 * TICKS)), Serve(k.b, LeaveRoom, At(20 * TICKS)), WakeUp(k.a, 20 * TICKS)]
  }

  /** In three admissible steps of the server, a record comes to differ from what was sent of it. */
  lemma LateWakeRewritesOnServer(k: Cast)
    requires k.Valid()
    ensures Inv(k.World()) && Allowed(k.World(), LateSteps(k))
    ensures var games := End(k.World(), LateSteps(k)).hub.games;
            && k.room in games
            && exists n :: var sent := SentOver(k.World(), LateSteps(k), k.room, n);
                 sent != [] && n in games[k.room].players && !SameResult(sent[0], games[k.room].players[n])
  {
    hide Inv, After, Mirrors, GameRuns.RunInv, GameRuns.After, GameRuns.Possible, GameRuns.ResultsAreFinal, Allowed, Plays;
    hide SentOver, NewGame;
    LateStepsPlay(k);
    PlaysMeans(k, k.World(), LateSteps(k), Quiz(k.ann, k.bob), LateWake(k.ann, k.bob));
    LateWakeRewritesASentResult(k.ann, k.bob);
    var end := GameRuns.After(Quiz(k.ann, k.bob), LateWake(k.ann, k.bob));
    MirrorsGame(end, End(k.World(), LateSteps(k)), k.room);
    var n := NotFinal(end);
    NothingYet(k);
    assert SentOver(k.World(), LateSteps(k), k.room, n) == end.results[n];
  }

  lemma NothingYet(k: Cast)
    ensures forall n :: n in Quiz(k.ann, k.bob).results ==> Quiz(k.ann, k.bob).results[n] == []
  {
  }

  lemma LateStepsPlay(k: Cast)
    requires k.Valid()
    ensures Plays(k, k.World(), LateSteps(k), Quiz(k.ann, k.bob), LateWake(k.ann, k.bob))
  {
    hide Inv, After, Enabled, Answerable, Defined, Admissible, GameRuns.RunInv, GameRuns.Enabled, GameRuns.Step;
    hide Decide, FinishedAt, SleepersAgree, SentAfter, Cast.Clients, Cast.Valid, Cast.World, GameRuns.ResultsAreFinal;
    var (w, r, steps, events) := (k.World(), Quiz(k.ann, k.bob), LateSteps(k), LateWake(k.ann, k.bob));
    CastMirrors(k);
    Handlers(k);
    Seconds();
    DifferentNames(k);
    Examples.Accepted(k.ann, k.bob);
    SlotsOf(r.game);
    AnnSubmits(k, w, r, 1, 10 * TICKS);
    var (w1, r1) := (After(w, steps[0]), GameRuns.Step(r, events[0]));
    Submitted(k.ann, k.bob, r1);
    SleeperKeepsGame(k.ann, GameRuns.Step(r1, events[1]));
    BobLeavesRoom(k, w1, r1, 20 * TICKS);
    var (w2, r2) := (After(w1, steps[1]), GameRuns.Step(r1, events[1]));
    Rewritten(k.ann, k.bob, r2);
    AnnWakes(k, w2, r2, Pending(1, 0, 0, 15), 20 * TICKS);
    assert Plays(k, After(w2, steps[2]), steps[2..][1..], GameRuns.Step(r2, events[2]), events[2..][1..]);
    assert Plays(k, w2, steps[1..][1..], r2, events[1..][1..]);
    assert Plays(k, w1, steps[1..], r1, events[1..]);
  }

  lemma DifferentNames(k: Cast)
    requires k.Valid()
    ensures k.ann != k.bob && k.a != k.b
  {
  }

  lemma SleeperKeepsGame(ann: Name, r: GameRuns.Run)
    requires AnnIsSubmitted(ann, r)
    ensures !r.erased
  {
    assert ann in r.asleep;
  }

  lemma NotFinal(r: GameRuns.Run) returns (n: Name)
    requires GameRuns.RunInv(r) && !GameRuns.ResultsAreFinal(r)
    ensures n in r.results && r.results[n] != [] && n in r.game.players && !SameResult(r.results[n][0], r.game.players[n])
  {
    n :| n in r.results && r.results[n] != [] && !SameResult(r.results[n][0], r.game.players[n]);
  }
}
