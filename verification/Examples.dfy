/**
 Concrete inputs on which the server fails its promises: for each guard that an admissible step or a
 timely wake needs, a state and a step that break it.
 */
module Examples {
  import opened Widths
  import opened Names
  import opened Questions
  import opened Scores
  import opened Statistics
  import opened TimeWindows
  import opened Games
  import GameRuns
  import opened Sessions
  import opened SessionInvariant
  import RoomSteps
  import opened ServerSafety
  import opened ServerRuns

  /** Four users on four connections, a room and the id of a room that is gone. */
  datatype Cast = Cast(ann: Name, bob: Name, cat: Name, dan: Name,
                       a: Client, b: Client, c: Client, d: Client, room: Uuid, gone: Uuid)
  {
    predicate Valid() {
      && ann != bob && ann != cat && ann != dan && bob != cat && bob != dan && cat != dan
      && a != b && a != c && a != d && b != c && b != d && c != d && room != gone
    }

    /** Ann plays; Bob has not noticed yet that the game began; Cat is in the menu; Dan's room is gone. */
    function Clients(): map<Client, Session> {
      map[a := Playing(ann, room, None), b := Member(bob, room), c := Menu(cat), d := Member(dan, gone)]
    }

    function Names(): set<Name> {
      {ann, bob, cat, dan}
    }

    function Rows(): map<Name, Row> {
      map n | n in Names() :: EMPTY_ROW
    }

    function Game(): GameValue {
      NewGame([ASKED, ASKED], 5, [ann, bob], 0)
    }

    function Hub(): Hub {
      Sessions.Hub([ann, bob, cat, dan], map[room := RoomValue([ann, bob], 4, 2, 5, true)], map[room := Game()],
                   map n | n in Names() :: Account("secret", n), Rows(), Rows(), map n | n in Names() :: [])
    }

    function World(): World {
      Sessions.World(Hub(), Clients(), 0, {})
    }
  }

  const ASKED := Question("?", ["a", "b", "c", "d"], 0)

  lemma WorldInv(k: Cast)
    requires k.Valid()
    ensures Inv(k.World())
  {
    hide UsersInv, SeatsInv, GamesMatch, GamesInv, TablesInv;
    UsersOf(k);
    SeatsOf(k);
    GamesOf(k);
    TablesOf(k);
  }

  lemma UsersOf(k: Cast)
    requires k.Valid()
    ensures UsersInv(k.Hub().logged, k.Hub().accounts.Keys, k.Clients())
  {
    hide NewGame, IsSessionOf, SameUser;
    EveryoneHasASession(k);
    NoTwoSessions(k);
    assert k.Hub().accounts.Keys == k.Names();
  }

  lemma EveryoneHasASession(k: Cast)
    requires k.Valid()
    ensures forall n :: n in k.Hub().logged ==> exists c :: IsSessionOf(k.Clients(), c, n)
  {
    hide NewGame;
    assert IsSessionOf(k.Clients(), k.a, k.ann) && IsSessionOf(k.Clients(), k.b, k.bob);
    assert IsSessionOf(k.Clients(), k.c, k.cat) && IsSessionOf(k.Clients(), k.d, k.dan);
  }

  lemma NoTwoSessions(k: Cast)
    requires k.Valid()
    ensures forall c, d :: c in k.Clients() && d in k.Clients() && SameUser(k.Clients()[c], k.Clients()[d]) ==> c == d
  {
  }

  lemma SeatsOf(k: Cast)
    requires k.Valid()
    ensures SeatsInv(k.Hub().rooms, k.Hub().games, k.Clients())
  {
    hide SessionOk, SitsAt, SameAdminRoom, RoomOk;
    SeatOfEach(k);
    HandlersAreOk(k);
  }

  lemma SeatOfEach(k: Cast)
    requires k.Valid()
    ensures SeatsTaken(k.Hub().rooms, k.Clients())
    ensures forall u :: u in k.Hub().rooms ==> RoomOk(k.Hub().rooms[u])
  {
    hide NewGame;
    assert SitsAt(k.Clients(), k.a, k.ann, k.room) && SitsAt(k.Clients(), k.b, k.bob, k.room);
  }

  lemma HandlersAreOk(k: Cast)
    requires k.Valid()
    ensures forall c :: c in k.Clients() ==> SessionOk(k.Hub().rooms, k.Hub().games, k.Clients()[c])
    ensures OneAdmin(k.Clients())
  {
    assert k.Game().online == [k.ann, k.bob];
  }

  lemma GamesOf(k: Cast)
    requires k.Valid()
    ensures GamesMatch(k.Hub().rooms, k.Hub().games) && GamesInv(k.Hub().games, 0)
  {
    hide GameInv;
    NewGameInv([ASKED, ASKED], 5, [k.ann, k.bob], 0);
  }

  lemma TablesOf(k: Cast)
    requires k.Valid()
    ensures TablesInv(k.Hub(), k.Clients(), {})
  {
    hide NewGame;
  }

  /** A possible step out of a good state into a bad one. */
  ghost predicate Breaks(w: World, st: Step) {
    Inv(w) && Enabled(w, st) && Defined(w, st) && !Inv(After(w, st))
  }

  lemma InadmissibleBreaks(w: World, st: Step)
    requires Inv(w) && Enabled(w, st) && Defined(w, st) && !Admissible(w, st)
    ensures Breaks(w, st)
  {
    hide Inv, Admissible, After, Enabled;
    StepKeepsInvIff(w, st);
  }

  const NOW := Readings(0, 0, 0)

  /** Cat joins the room in which the game is running: he is in the room and not in its game. */
  lemma JoiningARunningGameBreaksInv(k: Cast)
    requires k.Valid()
    ensures Breaks(k.World(), Serve(k.c, JoinRoom(k.room), Env(NOW, {}, true, 0)))
  {
    hide Inv, NewGame, Breaks, Cast.Valid, CanJoin;
    WorldInv(k);
    var (w, st) := (k.World(), Serve(k.c, JoinRoom(k.room), Env(NOW, {}, true, 0)));
    Handlers(k);
    HeldReferencesAreValid(w, st);
    DefinedIff(w, st);
    RoomHasSpace(k);
    InadmissibleBreaks(w, st);
  }

  lemma Handlers(k: Cast)
    requires k.Valid()
    ensures k.Clients().Keys == {k.a, k.b, k.c, k.d}
    ensures k.Clients()[k.a] == Playing(k.ann, k.room, None) && k.Clients()[k.b] == Member(k.bob, k.room)
    ensures k.Clients()[k.c] == Menu(k.cat) && k.Clients()[k.d] == Member(k.dan, k.gone)
  {
  }

  lemma RoomHasSpace(k: Cast)
    requires k.Valid()
    ensures CanJoin(k.Hub().rooms[k.room], k.cat)
  {
    hide NewGame;
  }

  /** Cat's new room gets the id that Dan still holds: Dan's handler takes it for his own room. */
  lemma ReusingARoomIdBreaksInv(k: Cast)
    requires k.Valid()
    ensures Breaks(k.World(), Serve(k.c, CreateRoom("quiz", 4, 2, 5, k.gone), Env(NOW, {}, true, 0)))
  {
    hide Inv, NewGame, Breaks;
    WorldInv(k);
    var (w, st) := (k.World(), Serve(k.c, CreateRoom("quiz", 4, 2, 5, k.gone), Env(NOW, {}, true, 0)));
    Handlers(k);
    HeldReferencesAreValid(w, st);
    DefinedIff(w, st);
    assert RoomSteps.HoldsRoom(w.clients[k.d], k.gone);
    InadmissibleBreaks(w, st);
  }

  /** The database fails while Ann leaves: she stays in the room without a session there. */
  lemma LeavingWithoutTheDatabaseBreaksInv(k: Cast)
    requires k.Valid()
    ensures Breaks(k.World(), Serve(k.a, LeaveGame, Env(NOW, {k.ann}, true, 0)))
  {
    hide Inv, NewGame, Breaks, Cast.Valid, FinishedAt;
    WorldInv(k);
    var (w, st) := (k.World(), Serve(k.a, LeaveGame, Env(NOW, {k.ann}, true, 0)));
    Handlers(k);
    HeldReferencesAreValid(w, st);
    DefinedIff(w, st);
    Unfinished(k);
    InadmissibleBreaks(w, st);
  }

  lemma Unfinished(k: Cast)
    ensures !FinishedAt(k.Game(), 0) && !FinishedAt(k.Game(), 19 * TICKS) && FinishedAt(k.Game(), 20 * TICKS)
    ensures Decide(k.Game(), 0, 2, 19 * TICKS, 20 * TICKS).Sleeping?
  {
    hide Elapsed, Judge, Finished;
    Seconds();
    Verdicts();
  }

  lemma Seconds()
    ensures Elapsed(0, 0) == 0 && Elapsed(0, 5 * TICKS) == 5 && Elapsed(0, 10 * TICKS) == 10 && Elapsed(0, 15 * TICKS) == 15
    ensures Elapsed(0, 19 * TICKS) == 19 && Elapsed(0, 20 * TICKS) == 20
  {
  }

  /** Two questions of five seconds: the slots are [0, 10) and [10, 20). */
  lemma Verdicts()
    ensures !Finished(5, 2, 0) && !Finished(5, 2, 10) && !Finished(5, 2, 19) && Finished(5, 2, 20)
    ensures Slot(5) == 10 && Judge(5, 0, 0, 0) == TimeWindows.Accepted(5, 0) && Judge(5, 10, 0, 1) == TimeWindows.Accepted(15, 0) && Judge(5, 20, 0, 2).Accepted?
  {
    assert Index(10, 0) == 0 && Index(10, 10) == 1 && Index(10, 20) == 2;
  }

  /** The game finishes between the guard and the judgement of Ann's answer to a third question of two. */
  lemma AnsweringAtTheFinishBreaksInv(k: Cast)
    requires k.Valid()
    ensures Breaks(k.World(), Serve(k.a, SubmitAnswer(0, 2), Env(Readings(19 * TICKS, 20 * TICKS, 20 * TICKS), {}, true, 0)))
  {
    hide Inv, NewGame, Breaks, Cast.Valid, FinishedAt, Decide;
    WorldInv(k);
    var (w, st) := (k.World(), Serve(k.a, SubmitAnswer(0, 2), Env(Readings(19 * TICKS, 20 * TICKS, 20 * TICKS), {}, true, 0)));
    Handlers(k);
    HeldReferencesAreValid(w, st);
    DefinedIff(w, st);
    Unfinished(k);
    InadmissibleBreaks(w, st);
  }

  /** The database cannot delete an account whose verification email could not be sent. */
  lemma UndeletedAccountBreaksInv(c: Client, name: Name)
    ensures Breaks(EmptyServer(c), Serve(c, SignUp(name, "secret", "@", true, true, true, "1", false), Env(NOW, {}, false, 0)))
  {
    hide Inv, Breaks;
    var (w, st) := (EmptyServer(c), Serve(c, SignUp(name, "secret", "@", true, true, true, "1", false), Env(NOW, {}, false, 0)));
    EmptyServerInv(c);
    DefinedIff(w, st);
    InadmissibleBreaks(w, st);
  }

  /** The database cannot be read when it has just stored the account of somebody who is then logged in. */
  lemma UnreadLoginBreaksInv(c: Client, name: Name)
    ensures Breaks(EmptyServer(c), Serve(c, SignUp(name, "secret", "@", true, true, false, "1", true), Env(NOW, {}, true, 0)))
  {
    hide Inv, Breaks;
    var (w, st) := (EmptyServer(c), Serve(c, SignUp(name, "secret", "@", true, true, false, "1", true), Env(NOW, {}, true, 0)));
    EmptyServerInv(c);
    DefinedIff(w, st);
    InadmissibleBreaks(w, st);
  }

  function EmptyServer(c: Client): World {
    World(Hub([], map[], map[], map[], map[], map[], map[]), map[c := Login], 0, {})
  }

  lemma EmptyServerInv(c: Client)
    ensures Inv(EmptyServer(c))
  {
  }

  // ----- requests that cannot be answered -----

  /** A possible step out of a good state that looks up what is not there: a missing game throws, and an
      index past the last question is undefined behaviour. */
  ghost predicate Fails(w: World, st: Step) {
    Inv(w) && Enabled(w, st) && !Defined(w, st)
  }

  /** The game finishes between the guard of Ann's request for a question and its second look at the clock. */
  lemma AskingAtTheFinishFails(k: Cast)
    requires k.Valid()
    ensures Fails(k.World(), Serve(k.a, GetQuestion, Env(Readings(19 * TICKS, 20 * TICKS, 20 * TICKS), {}, true, 0)))
  {
    hide Inv, NewGame, Defined, Cast.Valid, FinishedAt, Decide, IndexWraps, Elapsed;
    WorldInv(k);
    var (w, st) := (k.World(), Serve(k.a, GetQuestion, Env(Readings(19 * TICKS, 20 * TICKS, 20 * TICKS), {}, true, 0)));
    Handlers(k);
    DefinedIff(w, st);
    Unfinished(k);
    Seconds();
    assert k.Game().start == 0 && k.Game().limit == 5 && |k.Game().questions| == 2 by { GameFacts(k); }
    CurrentIndexInRange(5, 2, 20);
  }

  lemma GameFacts(k: Cast)
    ensures k.Game().start == 0 && k.Game().limit == 5 && |k.Game().questions| == 2
  {
  }

  /** Ann leaves the game, then Bob the room, without ever having seen that the game began. */
  function AllLeave(k: Cast): seq<Step> {
    [Serve(k.a, LeaveGame, Env(NOW, {}, true, 0)), Serve(k.b, LeaveRoom, Env(NOW, {}, true, 0))]
  }

  /** All is admissible, and then Cat asks for the list of rooms. */
  lemma ListingADesertedRoomFails(k: Cast)
    requires k.Valid()
    ensures Inv(k.World()) && Allowed(k.World(), AllLeave(k))
    ensures Fails(End(k.World(), AllLeave(k)), Serve(k.c, GetRooms({}), Env(NOW, {}, true, 0)))
  {
    hide Inv, After, Defined, Answerable, Enabled, Admissible, LastMemberLeaves, NewGame, Cast.Clients, NoDesertedRoom;
    WorldInv(k);
    var (w, steps) := (k.World(), AllLeave(k));
    AnnLeaves(k);
    StepKeepsInvIff(w, steps[0]);
    var w1 := After(w, steps[0]);
    BobLeaves(k, w1);
    StepKeepsInvIff(w1, steps[1]);
    var w2 := After(w1, steps[1]);
    assert Allowed(w2, []) && steps[1..][1..] == [];
    assert Allowed(w1, steps[1..]) && End(w1, steps[1..]) == w2;
    DesertedIff(w1, steps[1]);
    CatAsks(k, w1, w2);
    DefinedIff(w2, Serve(k.c, GetRooms({}), Env(NOW, {}, true, 0)));
  }

  lemma AnnLeaves(k: Cast)
    requires k.Valid() && Inv(k.World())
    ensures var (w, st) := (k.World(), AllLeave(k)[0]);
            && Enabled(w, st) && Answerable(w, st) && Defined(w, st) && Admissible(w, st)
            && BobIsAlone(k, After(w, st))
  {
    hide Inv, FinishedAt, Cast.Valid, Games.Leave, Submissions, HaveAnswers, RowsWritten, LedgerWritten;
    var (w, st) := (k.World(), AllLeave(k)[0]);
    Handlers(k);
    HeldReferencesAreValid(w, st);
    OneLeft(k);
  }

  lemma OneLeft(k: Cast)
    requires k.Valid()
    ensures Without([k.ann, k.bob], k.ann) == [k.bob]
  {
    assert [k.ann, k.bob][1..] == [k.bob];
    assert Without([k.bob], k.ann) == [k.bob] + Without([k.bob][1..], k.ann);
  }

  ghost predicate BobIsAlone(k: Cast, w: World) {
    && w.hub.rooms == map[k.room := RoomValue([k.bob], 4, 2, 5, true)]
    && w.clients == k.Clients()[k.a := Menu(k.ann)] && w.now == 0
  }

  lemma BobLeaves(k: Cast, w: World)
    requires k.Valid() && Inv(w) && BobIsAlone(k, w)
    ensures Enabled(w, AllLeave(k)[1]) && Answerable(w, AllLeave(k)[1]) && Defined(w, AllLeave(k)[1])
    ensures Admissible(w, AllLeave(k)[1]) && LastMemberLeaves(w, AllLeave(k)[1]) && NoDesertedRoom(w.hub.rooms)
  {
    hide Inv, Cast.Valid;
    Handlers(k);
    HeldReferencesAreValid(w, AllLeave(k)[1]);
  }

  lemma CatAsks(k: Cast, w: World, after: World)
    requires k.Valid() && BobIsAlone(k, w) && Enabled(w, AllLeave(k)[1]) && Defined(w, AllLeave(k)[1])
    requires after == After(w, AllLeave(k)[1]) && !NoDesertedRoom(after.hub.rooms)
    ensures var st := Serve(k.c, GetRooms({}), Env(NOW, {}, true, 0));
            Enabled(after, st) && !Answerable(after, st)
  {
    hide Handle;
    Handlers(k);
  }

  // ----- a late sleeper -----

  function Quiz(ann: Name, bob: Name): GameRuns.Run {
    GameRuns.Fresh([ASKED, ASKED], 5, [ann, bob], 0)
  }

  /** Ann answers the last question in its first second; Bob leaves as the game finishes, five seconds
      after her answer was due; only then does Ann's thread get to run. */
  function LateWake(ann: Name, bob: Name): seq<GameRuns.Event> {
    [GameRuns.Submit(ann, 0, 1, 10 * TICKS, 10 * TICKS),
     GameRuns.Leave(bob, Readings(20 * TICKS, 20 * TICKS, 20 * TICKS)),
     GameRuns.Wake(ann, 20 * TICKS)]
  }

  /** What the database was sent about Ann is not what the game says about her in the end. */
  lemma LateWakeRewritesASentResult(ann: Name, bob: Name)
    requires ann != bob
    ensures GameRuns.RunInv(Quiz(ann, bob)) && GameRuns.Possible(Quiz(ann, bob), LateWake(ann, bob))
    ensures !GameRuns.ResultsAreFinal(GameRuns.After(Quiz(ann, bob), LateWake(ann, bob)))
  {
    hide GameRuns.RunInv, GameRuns.Enabled, GameRuns.Step, GameRuns.ResultsAreFinal;
    var (r, events) := (Quiz(ann, bob), LateWake(ann, bob));
    GameRuns.FreshInv([ASKED, ASKED], 5, [ann, bob], 0);
    Accepted(ann, bob);
    var r1 := GameRuns.Step(r, events[0]);
    Submitted(ann, bob, r1);
    var r2 := GameRuns.Step(r1, events[1]);
    Rewritten(ann, bob, r2);
    GameRuns.StepKeepsInv(r2, events[2]);
    var r3 := GameRuns.Step(r2, events[2]);
    assert GameRuns.Possible(r3, []) && events[2..][1..] == [] && events[1..][1..] == events[2..];
    assert GameRuns.Possible(r2, events[2..]) && GameRuns.After(r2, events[2..]) == r3;
    assert GameRuns.Possible(r1, events[1..]) && GameRuns.After(r1, events[1..]) == r3;
  }

  /** Ann sleeps on her answer, and has not been submitted. */
  ghost predicate AnnSleeps(ann: Name, bob: Name, r: GameRuns.Run) {
    && GameRuns.RunInv(r) && GameRuns.ResultsAreFinal(r)
    && r.game == Quiz(ann, bob).game && r.now == 10 * TICKS && !r.erased
    && r.asleep == map[ann := Pending(1, 0, 0, 15)]
  }

  lemma Accepted(ann: Name, bob: Name)
    requires ann != bob && GameRuns.RunInv(Quiz(ann, bob))
    ensures GameRuns.Enabled(Quiz(ann, bob), LateWake(ann, bob)[0])
    ensures AnnSleeps(ann, bob, GameRuns.Step(Quiz(ann, bob), LateWake(ann, bob)[0]))
  {
    hide GameRuns.RunInv, GameRuns.ResultsAreFinal, Decide;
    var (r, ev) := (Quiz(ann, bob), LateWake(ann, bob)[0]);
    NothingSent(ann, bob);
    AnnAnswers(ann, bob);
    GameRuns.StepKeepsInv(r, ev);
    GameRuns.SubmitAndLeaveKeepFinal(r, ev);
  }

  lemma NothingSent(ann: Name, bob: Name)
    requires GameRuns.RunInv(Quiz(ann, bob))
    ensures GameRuns.ResultsAreFinal(Quiz(ann, bob))
  {
    hide GameRuns.RunInv;
  }

  lemma AnnAnswers(ann: Name, bob: Name)
    ensures Decide(Quiz(ann, bob).game, 0, 1, 10 * TICKS, 10 * TICKS) == Sleeping(Pending(1, 0, 0, 15))
  {
    hide Elapsed, Judge, Finished;
    Seconds();
    Verdicts();
  }

  /** Ann sleeps on her answer, and has been submitted without it. */
  ghost predicate AnnIsSubmitted(ann: Name, r: GameRuns.Run) {
    && GameRuns.RunInv(r) && GameRuns.ResultsAreFinal(r)
    && r.game.start == 0 && |r.game.questions| == 2 && r.game.limit == 5 && r.now == 20 * TICKS
    && r.asleep == map[ann := Pending(1, 0, 0, 15)]
    && ann in r.game.players && r.game.players[ann].submitted
    && |r.game.players[ann].answers| == 2 && r.game.players[ann].answers[1].choice == 5
  }

  lemma Submitted(ann: Name, bob: Name, r: GameRuns.Run)
    requires ann != bob && AnnSleeps(ann, bob, r)
    ensures GameRuns.Enabled(r, LateWake(ann, bob)[1])
    ensures AnnIsSubmitted(ann, GameRuns.Step(r, LateWake(ann, bob)[1]))
  {
    hide GameRuns.RunInv, GameRuns.ResultsAreFinal, Games.Leave, Submissions, FinishedAt;
    var ev := LateWake(ann, bob)[1];
    GameRuns.StepKeepsInv(r, ev);
    GameRuns.SubmitAndLeaveKeepFinal(r, ev);
    BobIsLast(ann, bob, r);
  }

  lemma BobIsLast(ann: Name, bob: Name, r: GameRuns.Run)
    requires ann != bob && AnnSleeps(ann, bob, r)
    ensures bob in r.game.players && ann in r.game.players
    ensures var after := Games.Leave(r.game, bob, Readings(20 * TICKS, 20 * TICKS, 20 * TICKS));
            && after == r.game.(online := after.online, players := after.players)
            && ann in after.players && after.players[ann].submitted
            && |after.players[ann].answers| == 2 && after.players[ann].answers[1].choice == 5
  {
    hide GameRuns.RunInv, GameRuns.ResultsAreFinal, Games.Leave, GameInv;
    NewGameInv([ASKED, ASKED], 5, [ann, bob], 0);
    LaterInv(r.game, 0, 10 * TICKS);
    LeaveEffects(r.game, bob, 10 * TICKS, Readings(20 * TICKS, 20 * TICKS, 20 * TICKS));
  }

  lemma Rewritten(ann: Name, bob: Name, r: GameRuns.Run)
    requires AnnIsSubmitted(ann, r)
    ensures GameRuns.Enabled(r, LateWake(ann, bob)[2])
    ensures (GameRuns.StepKeepsInv(r, LateWake(ann, bob)[2]);
             !GameRuns.ResultsAreFinal(GameRuns.Step(r, LateWake(ann, bob)[2])))
  {
    GameRuns.WakeKeepsFinalIff(r, LateWake(ann, bob)[2]);
  }

  // ----- answers in no time -----

  /** Ann answers both questions, each in the first second of its slot. */
  function QuickAnswers(ann: Name): seq<GameRuns.Event> {
    [GameRuns.Submit(ann, 0, 0, 0, 0), GameRuns.Wake(ann, 5 * TICKS),
     GameRuns.Submit(ann, 0, 1, 10 * TICKS, 10 * TICKS), GameRuns.Wake(ann, 15 * TICKS)]
  }

  const QUICK := Answer(ASKED, 0, 0)
  const UNANSWERED := Answer(ASKED, 5, 5)

  /** Where Ann stands: the answers in her record, and the one she sleeps on, if any. */
  ghost predicate AnnStands(r: GameRuns.Run, ann: Name, now: nat, answers: seq<Answer>, asleep: Option<Pending>) {
    && GameRuns.RunInv(r) && !r.erased && r.now == now
    && r.game.questions == [ASKED, ASKED] && r.game.limit == 5 && r.game.start == 0
    && ann in r.game.online && ann in r.game.players && r.game.players[ann].answers == answers
    && r.asleep == if asleep.Some? then map[ann := asleep.value] else map[]
  }

  /** Every answer is right and given in zero seconds, and the score divides by an average of zero. */
  lemma QuickAnswersHaveNoScore(ann: Name, bob: Name)
    requires ann != bob
    ensures GameRuns.RunInv(Quiz(ann, bob)) && GameRuns.Possible(Quiz(ann, bob), QuickAnswers(ann))
    ensures var players := GameRuns.After(Quiz(ann, bob), QuickAnswers(ann)).game.players;
            ann in players && players[ann].answers == [QUICK, QUICK]
            && Correct(players[ann].answers) == 2 && AverageTime(players[ann].answers) == 0
  {
    hide GameRuns.RunInv, GameRuns.Enabled, GameRuns.Step;
    var (r, events) := (Quiz(ann, bob), QuickAnswers(ann));
    AnnStarts(ann, bob);
    AnnSubmits(r, ann, 0, [UNANSWERED, UNANSWERED], 0);
    var r1 := GameRuns.Step(r, events[0]);
    AnnWakes(r1, ann, 0, [UNANSWERED, UNANSWERED], 0);
    var r2 := GameRuns.Step(r1, events[1]);
    AnnSubmits(r2, ann, 5 * TICKS, [QUICK, UNANSWERED], 1);
    var r3 := GameRuns.Step(r2, events[2]);
    AnnWakes(r3, ann, 10 * TICKS, [QUICK, UNANSWERED], 1);
    var r4 := GameRuns.Step(r3, events[3]);
    assert GameRuns.Possible(r4, []) && events[3..][1..] == [] && events[2..][1..] == events[3..];
    assert events[1..][1..] == events[2..];
    assert GameRuns.Possible(r3, events[3..]) && GameRuns.After(r3, events[3..]) == r4;
    assert GameRuns.Possible(r2, events[2..]) && GameRuns.After(r2, events[2..]) == r4;
    assert GameRuns.Possible(r1, events[1..]) && GameRuns.After(r1, events[1..]) == r4;
    NoTime();
  }

  lemma NoTime()
    ensures Correct([QUICK, QUICK]) == 2 && AverageTime([QUICK, QUICK]) == 0
  {
    var one, none: seq<Answer> := [QUICK], [];
    assert [QUICK, QUICK][..1] == one && one[..0] == none;
    assert Correct(one) == Correct(none) + 1 && TimeSum(one) == TimeSum(none) + QUICK.time;
    assert Correct([QUICK, QUICK]) == Correct(one) + 1 && TimeSum([QUICK, QUICK]) == TimeSum(one) + QUICK.time;
  }

  lemma AnnStarts(ann: Name, bob: Name)
    requires ann != bob
    ensures AnnStands(Quiz(ann, bob), ann, 0, [UNANSWERED, UNANSWERED], None)
  {
    hide GameRuns.RunInv;
    GameRuns.FreshInv([ASKED, ASKED], 5, [ann, bob], 0);
  }

  /** Question `i` is answered in the first second of its slot, `10 * i` seconds after the start. */
  lemma AnnSubmits(r: GameRuns.Run, ann: Name, now: nat, answers: seq<Answer>, i: u32)
    requires i <= 1 && now <= 10 * i * TICKS && AnnStands(r, ann, now, answers, None)
    ensures var ev := GameRuns.Submit(ann, 0, i, 10 * i * TICKS, 10 * i * TICKS);
            && GameRuns.Enabled(r, ev)
            && AnnStands(GameRuns.Step(r, ev), ann, 10 * i * TICKS, answers, Some(Pending(i, 0, 0, 10 * i + 5)))
  {
    hide GameRuns.RunInv, Elapsed, Judge, Finished;
    var ev := GameRuns.Submit(ann, 0, i, 10 * i * TICKS, 10 * i * TICKS);
    Seconds();
    Verdicts();
    GameRuns.StepKeepsInv(r, ev);
  }

  lemma AnnWakes(r: GameRuns.Run, ann: Name, now: nat, answers: seq<Answer>, i: u32)
    requires i <= 1 && now == 10 * i * TICKS && |answers| == 2 && answers[i].question == ASKED
    requires AnnStands(r, ann, now, answers, Some(Pending(i, 0, 0, 10 * i + 5)))
    ensures var ev := GameRuns.Wake(ann, (10 * i + 5) * TICKS);
            && GameRuns.Enabled(r, ev)
            && AnnStands(GameRuns.Step(r, ev), ann, (10 * i + 5) * TICKS, answers[i := QUICK], None)
  {
    hide GameRuns.RunInv, Elapsed;
    var ev := GameRuns.Wake(ann, (10 * i + 5) * TICKS);
    Seconds();
    GameRuns.StepKeepsInv(r, ev);
  }
}
