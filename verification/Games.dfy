/** The state of one game and what leaving it does (`managers/game.cpp`, `managers/gameManager.cpp`). */
module Games {
  import opened Widths
  import opened Names
  import opened Questions
  import opened Scores
  import opened TimeWindows

  datatype GameValue = GameValue(questions: seq<Question>, limit: u32, start: nat,
                                 online: seq<Name>, players: map<Name, GameData>)

  predicate FinishedAt(g: GameValue, now: nat) {
    Finished(g.limit, |g.questions|, Elapsed(g.start, now))
  }

  lemma StaysFinished(g: GameValue, now: nat, later: nat)
    requires FinishedAt(g, now) && now <= later
    ensures FinishedAt(g, later)
  {
    ElapsedMonotone(g.start, now, later);
  }

  /** The clock has reached second `s` of the game. */
  predicate Reaches(g: GameValue, s: nat, now: nat) {
    s == 0 || g.start + s * 1_000_000_000 <= now
  }

  /** The length of a slot, as the server's 32-bit sum has it. */
  function SlotOfGame(g: GameValue): nat {
    (g.limit + 5) % 0x1_0000_0000
  }

  /** A game is finished once as many slots as it has questions are over. */
  lemma FinishesByTheClock(g: GameValue, now: nat)
    ensures FinishedAt(g, now) <==> Reaches(g, |g.questions| * SlotOfGame(g), now)
  {
    ElapsedReaches(g.start, now, |g.questions| * SlotOfGame(g), 0);
  }

  /** While it is unfinished, the question it shows is the one whose slot the clock is in. */
  lemma ShowsByTheClock(g: GameValue, now: nat)
    requires !FinishedAt(g, now) && |g.questions| <= U32
    ensures Slot(g.limit) != 0
    ensures var i := CurrentIndex(g.limit, Elapsed(g.start, now));
            && i < |g.questions|
            && Reaches(g, i * SlotOfGame(g), now) && !Reaches(g, (i + 1) * SlotOfGame(g), now)
  {
    var (slot, e) := (Slot(g.limit), Elapsed(g.start, now));
    var i := Index(slot, e);
    BeforeSlotIff(slot, e, |g.questions|);
    InSlotIff(slot, e, i);
    assert i < U32 && CurrentIndex(g.limit, e) == i;
    assert (i + 1) * slot == i * slot + slot;
    ElapsedReaches(g.start, now, i * slot, 0);
    ElapsedReaches(g.start, now, (i + 1) * slot, 0);
  }

  /** The constructor of `Game`. */
  function NewGame(questions: seq<Question>, limit: u32, users: seq<Name>, now: nat): GameValue {
    GameValue(questions, limit, now, users,
              map n | n in users :: GameData(false, false, limit, Unanswered(questions, limit)))
  }

  /** `punishPlayer`. */
  function Punished(g: GameValue, user: Name): GameValue
    requires user in g.players
  {
    g.(players := g.players[user := g.players[user].(punished := true)])
  }

  /** `removePlayer`. */
  function Offline(g: GameValue, user: Name): GameValue {
    g.(online := Without(g.online, user))
  }

  /** `markUserResultsAsSubmittedToDB`. */
  function Marked(g: GameValue, user: Name): GameValue
    requires user in g.players
  {
    g.(players := g.players[user := g.players[user].(submitted := true)])
  }

  /** The records `submitAllGameStatsToDB` has not skipped. */
  function Unsubmitted(g: GameValue): map<Name, GameData> {
    map n | n in g.players && !g.players[n].submitted :: g.players[n]
  }

  function AllMarked(g: GameValue): GameValue {
    g.(players := map n | n in g.players :: g.players[n].(submitted := true))
  }

  /** The readings of the clock in one `removePlayerFromGame`. */
  datatype Readings = Readings(first: nat, second: nat, third: nat)

  predicate Monotone(now: nat, r: Readings) {
    now <= r.first <= r.second <= r.third
  }

  /** `removePlayerFromGame` up to the point where the leaver's own result has been sent. */
  function AfterOwnResult(g: GameValue, user: Name, r: Readings): GameValue
    requires user in g.players
  {
    var punished := if FinishedAt(g, r.first) then g else Punished(g, user);
    var offline := Offline(punished, user);
    if FinishedAt(g, r.second) then offline else Marked(offline, user)
  }

  /** The game `removePlayerFromGame` leaves behind. */
  function Leave(g: GameValue, user: Name, r: Readings): GameValue
    requires user in g.players
  {
    var after := AfterOwnResult(g, user, r);
    if FinishedAt(g, r.third) then AllMarked(after) else after
  }

  /** The records `removePlayerFromGame` sends to the database, by user. */
  function Submissions(g: GameValue, user: Name, r: Readings): map<Name, GameData>
    requires user in g.players
  {
    var after := AfterOwnResult(g, user, r);
    (if FinishedAt(g, r.third) then Unsubmitted(after) else map[]) +
    (if FinishedAt(g, r.second) then map[] else map[user := after.players[user]])
  }

  /** The part of the game's state that no request disturbs. */
  ghost predicate WellFormed(g: GameValue) {
    && |g.players| >= 2 && |g.questions| >= 2 && g.limit >= 5
    && (forall q :: q in g.questions ==> Sound(q))
    && Distinct(g.online)
    && (forall n :: n in g.online ==> n in g.players)
    && (forall n :: n in g.players ==>
          g.players[n].limit == g.limit && Consistent(g.players[n], g.questions))
  }

  /** Everyone who left has been submitted, and nobody still online has, unless the game is over. */
  ghost predicate Accounted(g: GameValue, now: nat) {
    forall n :: n in g.players ==>
      && (n !in g.online ==> g.players[n].submitted)
      && (n in g.online && g.players[n].submitted ==> FinishedAt(g, now))
  }

  ghost predicate GameInv(g: GameValue, now: nat) {
    WellFormed(g) && Accounted(g, now)
  }

  /** The same record apart from the flag that it was submitted. */
  predicate SameResult(a: GameData, b: GameData) {
    a.(submitted := true) == b.(submitted := true)
  }

  /** A record nobody has touched: neither submitted nor punished, and index 5 at the time limit under every
      question. */
  ghost predicate IsBlank(d: GameData, questions: seq<Question>, limit: u32) {
    && !d.submitted && !d.punished && d.limit == limit && |d.answers| == |questions|
    && forall i :: 0 <= i < |questions| ==> d.answers[i] == Answer(questions[i], 5, limit)
  }

  /** A new game has all its users online, each with such a record, and starts now. */
  lemma NewGameIsBlank(questions: seq<Question>, limit: u32, users: seq<Name>, now: nat)
    ensures var g := NewGame(questions, limit, users, now);
            && g == GameValue(questions, limit, now, users, g.players)
            && (forall n :: n in g.players <==> n in users)
            && (forall n :: n in users ==> IsBlank(g.players[n], questions, limit))
  {
  }

  lemma NewGameInv(questions: seq<Question>, limit: u32, users: seq<Name>, now: nat)
    requires |questions| >= 2 && limit >= 5 && |users| >= 2 && Distinct(users)
    requires forall q :: q in questions ==> Sound(q)
    ensures GameInv(NewGame(questions, limit, users, now), now)
  {
    var g := NewGame(questions, limit, users, now);
    assert users[0] in g.players && users[1] in g.players && users[0] != users[1];
    assert |g.players.Keys| >= 2 by {
      var both := {users[0], users[1]};
      assert both <= g.players.Keys;
      SubsetSize(both, g.players.Keys);
    }
  }

  lemma SubsetSize(small: set<Name>, large: set<Name>)
    requires small <= large
    ensures |small| <= |large|
  {
    assert large == small + (large - small);
  }

  lemma OwnResultEffects(g: GameValue, user: Name, r: Readings)
    requires user in g.players
    ensures var after := AfterOwnResult(g, user, r);
            && after == g.(online := Without(g.online, user), players := after.players)
            && after.players.Keys == g.players.Keys
            && after.players[user] == g.players[user].(
                 punished := g.players[user].punished || !FinishedAt(g, r.first),
                 submitted := g.players[user].submitted || !FinishedAt(g, r.second))
            && (forall n :: n in g.players && n != user ==> after.players[n] == g.players[n])
  {
  }

  lemma OnlineIsPlayer(g: GameValue, user: Name)
    requires WellFormed(g) && user in g.online
    ensures user in g.players
  {
  }

  /** The readings see the game finish at most once, and never unfinish. */
  lemma ReadingsAgree(g: GameValue, now: nat, r: Readings)
    requires Monotone(now, r)
    ensures FinishedAt(g, now) ==> FinishedAt(g, r.first)
    ensures FinishedAt(g, r.first) ==> FinishedAt(g, r.second)
    ensures FinishedAt(g, r.second) ==> FinishedAt(g, r.third)
  {
    if FinishedAt(g, now) { StaysFinished(g, now, r.first); }
    if FinishedAt(g, r.first) { StaysFinished(g, r.first, r.second); }
    if FinishedAt(g, r.second) { StaysFinished(g, r.second, r.third); }
  }

  /**
   What one removal does to the records, whichever way the finish of the game falls among its three
   readings of the clock: the leaver is off the list and accounted for, and punished exactly when the
   game was unfinished at the first reading; nobody else changes except for being marked, which
   happens to everybody as soon as the last reading finds the game finished.
   */
  lemma LeaveEffects(g: GameValue, user: Name, now: nat, r: Readings)
    requires GameInv(g, now) && user in g.online && Monotone(now, r)
    ensures var after := Leave(g, user, r);
            && after == g.(online := Without(g.online, user), players := after.players)
            && after.players.Keys == g.players.Keys
            && after.players[user] == g.players[user].(
                 punished := g.players[user].punished || !FinishedAt(g, r.first), submitted := true)
            && (forall n :: n in g.players && n != user ==>
                  after.players[n] == g.players[n].(
                    submitted := g.players[n].submitted || FinishedAt(g, r.third)))
  {
    hide FinishedAt, AfterOwnResult, WellFormed;
    OnlineIsPlayer(g, user);
    OwnResultEffects(g, user, r);
    ReadingsAgree(g, now, r);
  }

  lemma SentMembers(g: GameValue, user: Name, r: Readings)
    requires user in g.players
    ensures var own, sent := AfterOwnResult(g, user, r), Submissions(g, user, r);
            && (forall n :: n in sent <==>
                  || (n == user && !FinishedAt(g, r.second))
                  || (FinishedAt(g, r.third) && n in own.players && !own.players[n].submitted))
            && (forall n :: n in sent ==> n in own.players && sent[n] == own.players[n])
  {
    hide FinishedAt, AfterOwnResult;
    OwnResultEffects(g, user, r);
  }

  /**
   The submissions of a removal are exactly the records it marks, each once, with the contents the
   record keeps; a record that had been submitted before is not touched again.
   */
  lemma SubmissionsAreTheNewlyMarked(g: GameValue, user: Name, now: nat, r: Readings)
    requires GameInv(g, now) && user in g.online && Monotone(now, r)
    ensures var after, sent := Leave(g, user, r), Submissions(g, user, r);
            && after.players.Keys == g.players.Keys
            && (forall n :: n in sent <==> n in g.players && !g.players[n].submitted && after.players[n].submitted)
            && (forall n :: n in sent ==> SameResult(sent[n], after.players[n]))
            && (forall n :: n in g.players && g.players[n].submitted ==> after.players[n] == g.players[n])
  {
    hide FinishedAt, AfterOwnResult, WellFormed, Submissions, Leave;
    OnlineIsPlayer(g, user);
    OwnResultEffects(g, user, r);
    SentMembers(g, user, r);
    ReadingsAgree(g, now, r);
    LeaveEffects(g, user, now, r);
  }

  lemma FinishedDependsOnSchedule(g: GameValue, other: GameValue, now: nat)
    requires other.questions == g.questions && other.limit == g.limit && other.start == g.start
    ensures FinishedAt(other, now) == FinishedAt(g, now)
  {
  }

  /** A removal keeps the game's invariant. */
  lemma LeaveKeepsInv(g: GameValue, user: Name, now: nat, r: Readings)
    requires GameInv(g, now) && user in g.online && Monotone(now, r)
    ensures GameInv(Leave(g, user, r), r.third)
    ensures Leave(g, user, r).online == [] ==>
            forall n :: n in g.players ==> Leave(g, user, r).players[n].submitted
  {
    hide FinishedAt, Leave;
    LeaveEffects(g, user, now, r);
    ReadingsAgree(g, now, r);
    FinishedDependsOnSchedule(g, Leave(g, user, r), r.third);
    WithoutMembers(g.online, user);
    WithoutDistinct(g.online, user);
    var after := Leave(g, user, r);
    assert |after.players| == |g.players| by {
      assert |after.players.Keys| == |g.players.Keys|;
    }
    forall n | n in after.players
      ensures after.players[n].limit == g.limit && Consistent(after.players[n], g.questions)
    {
      assert after.players[n].limit == g.players[n].limit;
    }
  }

  /**
   Leaving a game that is unfinished at the first reading costs exactly twenty points; leaving it later, or
   being left by others, costs nothing.
   */
  lemma LeavingCostsTwenty(g: GameValue, user: Name, now: nat, r: Readings, n: Name, undefined: int)
    requires GameInv(g, now) && user in g.online && Monotone(now, r) && n in g.players
    ensures user in g.players && g.players[n].answers != []
    ensures n in Leave(g, user, r).players && Leave(g, user, r).players[n].answers != []
    ensures ScoreChange(Leave(g, user, r).players[n], undefined) ==
            ScoreChange(g.players[n], undefined)
            - (if n == user && !FinishedAt(g, r.first) && !g.players[n].punished then PENALTY_POINTS else 0)
  {
    hide Leave, FinishedAt, ScoreChange, Accounted;
    LeaveEffects(g, user, now, r);
    var (before, after) := (g.players[n], Leave(g, user, r).players[n]);
    assert before.answers != [] by { assert |before.answers| == |g.questions|; }
    ScoreOf(before, undefined);
    ScoreOf(after, undefined);
    PunishmentCostsTwenty(before, undefined);
  }

  /** The score depends on the flag that it was submitted in nothing. */
  lemma ScoreOf(d: GameData, undefined: int)
    requires d.answers != []
    ensures forall e: GameData :: SameResult(d, e) ==> ScoreChange(e, undefined) == ScoreChange(d, undefined)
    ensures ScoreChange(d.(punished := d.punished), undefined) == ScoreChange(d, undefined)
    ensures ScoreChange(d.(punished := true, submitted := true), undefined) == ScoreChange(d.(punished := true), undefined)
    ensures ScoreChange(d.(punished := false, submitted := true), undefined) == ScoreChange(d.(punished := false), undefined)
  {
  }

  /** Time passing keeps it too. */
  lemma LaterInv(g: GameValue, now: nat, later: nat)
    requires GameInv(g, now) && now <= later
    ensures GameInv(g, later)
  {
    if FinishedAt(g, now) { StaysFinished(g, now, later); }
  }

  // ----- answers -----

  /** An accepted answer whose player sleeps until the release. */
  datatype Pending = Pending(question: u32, choice: u32, time: u32, release: u32)

  /** `Game::submitAnswer` when it runs on after its sleep. */
  function Woken(g: GameValue, user: Name, p: Pending): GameValue
    requires user in g.players && p.question < |g.players[user].answers|
  {
    g.(players := g.players[user := Record(g.players[user], p.question, p.choice, p.time)])
  }

  /** What `GameRequestHandler::submitAnswer` decides: `guard` is the reading of `isFinished`. */
  datatype Decision = Refused | Sleeping(pending: Pending)

  function Decide(g: GameValue, choice: u32, question: u32, guard: nat, at: nat): Decision {
    if FinishedAt(g, guard) then Refused
    else
      match Judge(g.limit, Elapsed(g.start, at), choice, question)
      case Accepted(release, time) => Sleeping(Pending(question, choice, time, release))
      case _ => Refused
  }

  /** The clock is in second `time` of the slot of `question`. */
  predicate InSecond(g: GameValue, question: nat, time: nat, now: nat) {
    && Reaches(g, question * SlotOfGame(g) + time, now)
    && !Reaches(g, question * SlotOfGame(g) + time + 1, now)
  }

  /** Whatever the time limit: the answer a player sleeps on is the one he submitted, at the second of the
      question's slot in which it was judged. */
  lemma SleepsOnWhatWasSubmitted(g: GameValue, choice: u32, question: u32, guard: nat, at: nat)
    requires g.limit >= 5 && Decide(g, choice, question, guard, at).Sleeping?
    ensures var p := Decide(g, choice, question, guard, at).pending;
            && p.question == question && p.choice == choice <= 4 && p.time < g.limit
            && InSecond(g, question, p.time, at)
  {
    hide Index, Begin, Position, FinishedAt;
    var (slot, e) := (Slot(g.limit), Elapsed(g.start, at));
    var p := Decide(g, choice, question, guard, at).pending;
    UnfinishedSlot(g, guard);
    AcceptedTimeInSlot(g.limit, e, choice, question);
    SlotOf(slot, e);
    BeginOf(slot, question);
    ElapsedReaches(g.start, at, question * slot + p.time, 0);
    ElapsedReaches(g.start, at, question * slot + p.time + 1, 0);
  }

  lemma BeginOf(slot: nat, i: nat)
    ensures Begin(slot, i) == i * slot
  {
  }

  /**
   An answer is accepted if and only if the game is unfinished at the guard's reading and the clock is, at
   the judging reading, in the first `limit` seconds of the slot of its question, provided that these end
   within 32 bits; it is then due at the end of them.
   */
  lemma DecidesByTheClock(g: GameValue, choice: u32, question: u32, guard: nat, at: nat)
    requires g.limit + 5 < U32
    ensures var (begin, decision) := (question * (g.limit + 5), Decide(g, choice, question, guard, at));
            && (decision.Sleeping? <==>
                && !Reaches(g, |g.questions| * (g.limit + 5), guard) && choice <= 4
                && Reaches(g, begin, at) && !Reaches(g, begin + g.limit, at) && begin + g.limit < U32)
            && (decision.Sleeping? ==> decision.pending.release == begin + g.limit)
  {
    hide Index, Begin, Position, FinishedAt;
    var (begin, e) := (question * (g.limit + 5), Elapsed(g.start, at));
    FinishesByTheClock(g, guard);
    if !FinishedAt(g, guard) {
      UnfinishedSlot(g, guard);
      AcceptsExactlyInWindow(g.limit, e, choice, question);
      BeginOf(g.limit + 5, question);
      ElapsedReaches(g.start, at, begin, 0);
      ElapsedReaches(g.start, at, begin + g.limit, 0);
    }
  }

  /**
   What an answer leads to, told by the clock: its player sleeps on what he submitted if the guard finds the
   game unfinished, and the question is taking answers when it is judged.
   */
  predicate SleepsByTheClock(g: GameValue, choice: u32, question: u32, guard: nat, at: nat, asleep: Option<Pending>) {
    var begin := question * (g.limit + 5);
    && (asleep.Some? ==>
        && asleep.value.question == question && asleep.value.choice == choice <= 4
        && InSecond(g, question, asleep.value.time, at))
    && (g.limit + 5 < U32 ==>
        && (asleep.Some? <==>
            && !Reaches(g, |g.questions| * (g.limit + 5), guard) && choice <= 4
            && Reaches(g, begin, at) && !Reaches(g, begin + g.limit, at) && begin + g.limit < U32)
        && (asleep.Some? ==> asleep.value.release == begin + g.limit))
  }

  lemma SubmissionDecided(g: GameValue, choice: u32, question: u32, guard: nat, at: nat)
    requires g.limit >= 5
    ensures var decision := Decide(g, choice, question, guard, at);
            SleepsByTheClock(g, choice, question, guard, at, if decision.Sleeping? then Some(decision.pending) else None)
  {
    hide Decide, InSecond, Reaches;
    if Decide(g, choice, question, guard, at).Sleeping? {
      SleepsOnWhatWasSubmitted(g, choice, question, guard, at);
    }
    if g.limit + 5 < U32 {
      DecidesByTheClock(g, choice, question, guard, at);
    }
  }

  lemma UnfinishedSlot(g: GameValue, now: nat)
    requires !FinishedAt(g, now)
    ensures Slot(g.limit) != 0
  {
  }

  /** An accepted answer can be recorded. */
  ghost predicate Recordable(g: GameValue, p: Pending) {
    p.question < |g.questions| && p.choice <= 4 && p.time <= g.limit
  }

  /**
   An answer that puts its player to sleep can be recorded when he wakes if and only if the game was
   still unfinished when the answer was judged; the earlier reading of `isFinished` is not enough.
   */
  lemma SleepingIsRecordableIff(g: GameValue, choice: u32, question: u32, guard: nat, at: nat)
    requires g.limit >= 5 && Decide(g, choice, question, guard, at).Sleeping?
    ensures Recordable(g, Decide(g, choice, question, guard, at).pending) <==> !FinishedAt(g, at)
  {
    var e := Elapsed(g.start, at);
    AcceptedTimeInSlot(g.limit, e, choice, question);
    AcceptedIndexInRange(g.limit, |g.questions|, e, choice, question);
  }

  lemma WokenKeepsInv(g: GameValue, user: Name, p: Pending, now: nat)
    requires GameInv(g, now) && user in g.players && Recordable(g, p)
    ensures GameInv(Woken(g, user, p), now)
    ensures var after := Woken(g, user, p);
            && after == g.(players := after.players)
            && after.players.Keys == g.players.Keys
            && after.players[user] == Record(g.players[user], p.question, p.choice, p.time)
            && (forall n :: n in g.players && n != user ==> after.players[n] == g.players[n])
  {
    RecordKeepsConsistent(g.players[user], g.questions, p.question, p.choice, p.time);
    var after := Woken(g, user, p);
    assert after.players.Keys == g.players.Keys;
    assert |after.players| == |g.players| by {
      assert |after.players.Keys| == |g.players.Keys|;
    }
  }

  /** A player who wakes before the slot of his question is over has not been submitted yet. */
  lemma TimelyWakeIsBeforeSubmission(g: GameValue, user: Name, p: Pending, now: nat, at: nat)
    requires GameInv(g, now) && user in g.online && Recordable(g, p) && now <= at
    requires Elapsed(g.start, at) < Begin(Slot(g.limit), p.question + 1)
    ensures !g.players[user].submitted
  {
    TimelyMeansUnfinished(g.limit, |g.questions|, p.question, Elapsed(g.start, at));
    if FinishedAt(g, now) { StaysFinished(g, now, at); }
  }
}
