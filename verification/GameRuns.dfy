/**
 Whole runs of one game, from its start until the last player has left: players submit answers,
 sleep, wake and leave in any interleaving, and every clock reading is a free choice that only has to
 move forward.
 */
module GameRuns {
  import opened Widths
  import opened Names
  import opened Questions
  import opened Scores
  import opened TimeWindows
  import opened Games

  /** A player submits an answer, wakes up, asks for the results of the game, or leaves it.  `readable` says
      whether the database can be asked about the players. */
  datatype Event =
    | Submit(user: Name, choice: u32, question: u32, guard: nat, at: nat)
    | Wake(user: Name, at: nat)
    | Results(user: Name, at: nat, readable: bool)
    | Leave(user: Name, readings: Readings)

  /** An answer to `question` was accepted from `user`, or its correct index told to him, at time `at`. */
  datatype Mark = Mark(user: Name, question: nat, at: nat)

  /** The game, the clock, who is asleep, and the history: acceptances, revelations and results sent. */
  datatype Run = Run(game: GameValue, now: nat, erased: bool, asleep: map<Name, Pending>,
                     accepted: seq<Mark>, revealed: seq<Mark>, results: map<Name, seq<GameData>>)

  function Fresh(questions: seq<Question>, limit: u32, users: seq<Name>, now: nat): Run {
    Run(NewGame(questions, limit, users, now), now, false, map[], [], [], map n | n in users :: [])
  }

  predicate Startable(questions: seq<Question>, limit: u32, users: seq<Name>) {
    && |questions| >= 2 && limit >= 5 && |users| >= 2
    && (forall i, j :: 0 <= i < j < |users| ==> users[i] != users[j])
    && (forall q :: q in questions ==> Sound(q))
  }

  /**
   What can happen next.  A sleeping player's connection is busy, so he neither submits nor leaves;
   he wakes at or after the release of his question.  Waking with an answer that cannot be recorded
   has no defined effect and is not a step (see `Games.SleepingIsRecordableIff`).
   */
  ghost predicate Enabled(r: Run, ev: Event) {
    && !r.erased
    && match ev
       case Submit(user, _, _, guard, at) =>
         user in r.game.online && user !in r.asleep && r.now <= guard <= at
       case Wake(user, at) =>
         && user in r.asleep && r.now <= at
         && r.asleep[user].release <= Elapsed(r.game.start, at)
         && Recordable(r.game, r.asleep[user])
       case Results(user, at, _) =>
         user in r.game.online && user !in r.asleep && r.now <= at
       case Leave(user, readings) =>
         user in r.game.online && user !in r.asleep && Monotone(r.now, readings)
  }

  function AppendAll(results: map<Name, seq<GameData>>, sent: map<Name, GameData>): map<Name, seq<GameData>> {
    map n | n in results :: if n in sent then results[n] + [sent[n]] else results[n]
  }

  /** The results of a finished game tell the correct index of every question. */
  function Told(g: GameValue, user: Name, at: nat, readable: bool): seq<Mark> {
    if readable && FinishedAt(g, at) then seq(|g.questions|, i requires 0 <= i < |g.questions| => Mark(user, i, at)) else []
  }

  ghost function Step(r: Run, ev: Event): Run
    requires RunInv(r) && Enabled(r, ev)
  {
    match ev
    case Submit(user, choice, question, guard, at) =>
      (match Decide(r.game, choice, question, guard, at)
       case Refused => r.(now := at)
       case Sleeping(p) =>
         r.(now := at, asleep := r.asleep[user := p], accepted := r.accepted + [Mark(user, question, at)]))
    case Wake(user, at) =>
      r.(now := at, game := Woken(r.game, user, r.asleep[user]), asleep := r.asleep - {user},
         revealed := r.revealed + [Mark(user, r.asleep[user].question, at)])
    case Results(user, at, readable) =>
      r.(now := at, revealed := r.revealed + Told(r.game, user, at, readable))
    case Leave(user, readings) =>
      var after := Games.Leave(r.game, user, readings);
      r.(now := readings.third, game := after, erased := after.online == [],
         results := AppendAll(r.results, Submissions(r.game, user, readings)))
  }

  // ----- the invariant -----

  /** The release time the server computes for a question. */
  function Release(g: GameValue, question: nat): u32 {
    ReleaseTime(g.limit, question)
  }

  /** Each result list holds one result if the player has been submitted, and none otherwise. */
  ghost predicate ResultsMatchFlags(r: Run) {
    && r.results.Keys == r.game.players.Keys
    && forall n :: n in r.game.players ==>
         |r.results[n]| == if r.game.players[n].submitted then 1 else 0
  }

  ghost predicate SleepersMatch(r: Run) {
    forall n :: n in r.asleep ==>
      && n in r.game.online
      && r.asleep[n].release == Release(r.game, r.asleep[n].question)
  }

  /** An acceptance came before the release; its player still sleeps on it, or the release is past. */
  ghost predicate AcceptancesMatch(r: Run) {
    forall m :: m in r.accepted ==>
      && Elapsed(r.game.start, m.at) < Release(r.game, m.question)
      && (|| (m.user in r.asleep && r.asleep[m.user].question == m.question)
          || Release(r.game, m.question) <= Elapsed(r.game.start, r.now))
  }

  /** Existing questions are only answered while the game is unfinished. */
  ghost predicate AnsweredInTime(r: Run) {
    forall m :: m in r.accepted && m.question < |r.game.questions| ==> !FinishedAt(r.game, m.at)
  }

  /** A correct index is told at or after its question's release, or when the game is finished. */
  ghost predicate RevelationsMatch(r: Run) {
    forall m :: m in r.revealed ==>
      && m.question < |r.game.questions|
      && (Release(r.game, m.question) <= Elapsed(r.game.start, m.at) || FinishedAt(r.game, m.at))
  }

  /** No player has two accepted answers to one question. */
  ghost predicate OneAnswerEach(r: Run) {
    forall i, j :: 0 <= i < j < |r.accepted| ==>
      r.accepted[i].user != r.accepted[j].user || r.accepted[i].question != r.accepted[j].question
  }

  ghost predicate RunInv(r: Run) {
    && GameInv(r.game, r.now)
    && ResultsMatchFlags(r)
    && SleepersMatch(r)
    && AcceptancesMatch(r)
    && AnsweredInTime(r)
    && RevelationsMatch(r)
    && OneAnswerEach(r)
    && (r.erased <==> r.game.online == [])
  }

  lemma FreshInv(questions: seq<Question>, limit: u32, users: seq<Name>, now: nat)
    requires Startable(questions, limit, users)
    ensures RunInv(Fresh(questions, limit, users, now))
  {
    NewGameInv(questions, limit, users, now);
  }

  /** What `Judge` says about an answer it accepts. */
  lemma DecisionMatches(g: GameValue, choice: u32, question: u32, guard: nat, at: nat)
    requires Decide(g, choice, question, guard, at).Sleeping?
    ensures var p := Decide(g, choice, question, guard, at).pending;
            && p.question == question && p.release == Release(g, question)
            && Elapsed(g.start, at) < p.release
  {
  }

  lemma SubmitKeepsInv(r: Run, ev: Event)
    requires RunInv(r) && ev.Submit? && Enabled(r, ev)
    ensures RunInv(Step(r, ev))
  {
    LaterInv(r.game, r.now, ev.at);
    ElapsedMonotone(r.game.start, r.now, ev.at);
    var decision := Decide(r.game, ev.choice, ev.question, ev.guard, ev.at);
    if decision.Sleeping? {
      DecisionMatches(r.game, ev.choice, ev.question, ev.guard, ev.at);
      AcceptedInTime(r.game, ev.choice, ev.question, ev.guard, ev.at);
      AcceptanceKeepsLog(r, Mark(ev.user, ev.question, ev.at), decision.pending);
    }
  }

  /** An answer to an existing question is accepted only while the game is unfinished. */
  lemma AcceptedInTime(g: GameValue, choice: u32, question: u32, guard: nat, at: nat)
    requires g.limit >= 5 && Decide(g, choice, question, guard, at).Sleeping?
    ensures question < |g.questions| ==> !FinishedAt(g, at)
  {
    AcceptedIndexInRange(g.limit, |g.questions|, Elapsed(g.start, at), choice, question);
  }

  /** An earlier acceptance of the same answer would be past its release by now. */
  lemma AcceptanceKeepsLog(r: Run, m: Mark, p: Pending)
    requires RunInv(r) && m.user !in r.asleep && r.now <= m.at
    requires p.question == m.question && Elapsed(r.game.start, m.at) < Release(r.game, m.question)
    requires m.question < |r.game.questions| ==> !FinishedAt(r.game, m.at)
    ensures var after := r.(now := m.at, asleep := r.asleep[m.user := p], accepted := r.accepted + [m]);
            AcceptancesMatch(after) && AnsweredInTime(after) && OneAnswerEach(after)
  {
    var after := r.(now := m.at, asleep := r.asleep[m.user := p], accepted := r.accepted + [m]);
    ElapsedMonotone(r.game.start, r.now, m.at);
    forall i | 0 <= i < |r.accepted|
      ensures r.accepted[i].user != m.user || r.accepted[i].question != m.question
    {
      assert r.accepted[i] in r.accepted;
    }
    assert forall x :: x in after.accepted <==> x in r.accepted || x == m;
  }

  /** The logs stay in order while only the clock and the records of the game move. */
  lemma LogsKept(r: Run, after: Run)
    requires RunInv(r) && r.now <= after.now
    requires after.game.start == r.game.start && after.game.limit == r.game.limit && after.game.questions == r.game.questions
    requires after.accepted == r.accepted && after.revealed == r.revealed && after.asleep == r.asleep
    ensures AcceptancesMatch(after) && AnsweredInTime(after) && RevelationsMatch(after) && OneAnswerEach(after)
  {
    ElapsedMonotone(r.game.start, r.now, after.now);
  }

  lemma WakeKeepsInv(r: Run, ev: Event)
    requires RunInv(r) && ev.Wake? && Enabled(r, ev)
    ensures RunInv(Step(r, ev))
  {
    hide Woken, AcceptancesMatch, AnsweredInTime, RevelationsMatch, OneAnswerEach, Accounted, Slot, Finished, ReleaseTime;
    var p := r.asleep[ev.user];
    LaterInv(r.game, r.now, ev.at);
    WokenKeepsInv(r.game, ev.user, p, ev.at);
    WakeKeepsLog(r, ev.user, ev.at, Step(r, ev));
  }

  lemma WakeKeepsLog(r: Run, user: Name, at: nat, after: Run)
    requires RunInv(r) && user in r.asleep && r.now <= at
    requires r.asleep[user].release <= Elapsed(r.game.start, at) && r.asleep[user].question < |r.game.questions|
    requires after.game.start == r.game.start && after.game.limit == r.game.limit && after.now == at
    requires after.game.questions == r.game.questions
    requires after.accepted == r.accepted && after.asleep == r.asleep - {user}
    requires after.revealed == r.revealed + [Mark(user, r.asleep[user].question, at)]
    ensures AcceptancesMatch(after) && AnsweredInTime(after) && RevelationsMatch(after) && OneAnswerEach(after)
  {
    hide GameInv, ReleaseTime;
    ElapsedMonotone(r.game.start, r.now, at);
    assert forall m :: m in after.revealed <==>
             m in r.revealed || m == Mark(user, r.asleep[user].question, at);
  }

  lemma LeaveKeepsRunInv(r: Run, ev: Event)
    requires RunInv(r) && ev.Leave? && Enabled(r, ev)
    ensures RunInv(Step(r, ev))
  {
    hide Games.Leave, Games.Submissions, GameInv, FinishedAt, AcceptancesMatch, AnsweredInTime, RevelationsMatch, OneAnswerEach, ReleaseTime;
    var after := Step(r, ev);
    LeaveKeepsInv(r.game, ev.user, r.now, ev.readings);
    LeaveEffects(r.game, ev.user, r.now, ev.readings);
    SubmissionsAreTheNewlyMarked(r.game, ev.user, r.now, ev.readings);
    WithoutMembers(r.game.online, ev.user);
    LogsKept(r, after);
  }

  lemma ResultsKeepInv(r: Run, ev: Event)
    requires RunInv(r) && ev.Results? && Enabled(r, ev)
    ensures RunInv(Step(r, ev))
  {
    hide GameInv, FinishedAt, ReleaseTime, AnsweredInTime, OneAnswerEach;
    LaterInv(r.game, r.now, ev.at);
    ElapsedMonotone(r.game.start, r.now, ev.at);
    var told := Told(r.game, ev.user, ev.at, ev.readable);
    assert forall m :: m in told ==> m.question < |r.game.questions| && m.at == ev.at && FinishedAt(r.game, ev.at);
    assert forall m :: m in r.revealed + told <==> m in r.revealed || m in told;
    AnswersKept(r, Step(r, ev));
  }

  lemma AnswersKept(r: Run, after: Run)
    requires AnsweredInTime(r) && OneAnswerEach(r) && after.game == r.game && after.accepted == r.accepted
    ensures AnsweredInTime(after) && OneAnswerEach(after)
  {
  }

  lemma StepKeepsInv(r: Run, ev: Event)
    requires RunInv(r) && Enabled(r, ev)
    ensures RunInv(Step(r, ev))
  {
    match ev
    case Submit(_, _, _, _, _) => SubmitKeepsInv(r, ev);
    case Wake(_, _) => WakeKeepsInv(r, ev);
    case Results(_, _, _) => ResultsKeepInv(r, ev);
    case Leave(_, _) => LeaveKeepsRunInv(r, ev);
  }

  // ----- runs -----

  /** Every event of the run is possible when it happens. */
  ghost predicate Possible(r: Run, events: seq<Event>)
    requires RunInv(r)
    decreases |events|
  {
    events == [] ||
    (Enabled(r, events[0]) && (StepKeepsInv(r, events[0]); Possible(Step(r, events[0]), events[1..])))
  }

  ghost function After(r: Run, events: seq<Event>): (end: Run)
    requires RunInv(r) && Possible(r, events)
    ensures RunInv(end)
    decreases |events|
  {
    if events == [] then r
    else
      StepKeepsInv(r, events[0]);
      After(Step(r, events[0]), events[1..])
  }

  /**
   Over any run: no player's result is sent twice; the result of everybody who is no longer online
   has been sent; and when the game is erased every player it started with has been sent exactly once.
   */
  lemma ExactlyOnce(questions: seq<Question>, limit: u32, users: seq<Name>, now: nat, events: seq<Event>)
    requires Startable(questions, limit, users)
    requires (FreshInv(questions, limit, users, now); Possible(Fresh(questions, limit, users, now), events))
    ensures (FreshInv(questions, limit, users, now);
             var end := After(Fresh(questions, limit, users, now), events);
             forall n :: n in users ==>
               && n in end.results && |end.results[n]| <= 1
               && (n !in end.game.online ==> |end.results[n]| == 1)
               && (end.erased ==> |end.results[n]| == 1))
  {
    FreshInv(questions, limit, users, now);
    PlayersStay(Fresh(questions, limit, users, now), events);
  }

  lemma {:induction false} PlayersStay(r: Run, events: seq<Event>)
    requires RunInv(r) && Possible(r, events)
    ensures After(r, events).game.players.Keys == r.game.players.Keys
    ensures After(r, events).game.start == r.game.start
    ensures After(r, events).game.questions == r.game.questions && After(r, events).game.limit == r.game.limit
    decreases |events|
  {
    if events != [] {
      var ev := events[0];
      StepKeepsInv(r, ev);
      if ev.Leave? {
        LeaveEffects(r.game, ev.user, r.now, ev.readings);
      } else if ev.Wake? {
        WokenKeepsInv(r.game, ev.user, r.asleep[ev.user], r.now);
      }
      PlayersStay(Step(r, ev), events[1..]);
    }
  }

  /**
   Over any run: at most one answer per player and question is accepted, and every acceptance comes
   strictly before anybody is told the correct index of its question, be it on waking or with the results
   of the finished game.
   */
  lemma AnswersAreFair(questions: seq<Question>, limit: u32, users: seq<Name>, now: nat, events: seq<Event>)
    requires Startable(questions, limit, users)
    requires (FreshInv(questions, limit, users, now); Possible(Fresh(questions, limit, users, now), events))
    ensures (FreshInv(questions, limit, users, now);
             var end := After(Fresh(questions, limit, users, now), events);
             && OneAnswerEach(end)
             && (forall a, t :: a in end.accepted && t in end.revealed && a.question == t.question ==> a.at < t.at))
  {
    FreshInv(questions, limit, users, now);
    var end := After(Fresh(questions, limit, users, now), events);
    forall a, t | a in end.accepted && t in end.revealed && a.question == t.question
      ensures a.at < t.at
    {
      AcceptedBeforeTold(end, a, t);
    }
  }

  lemma AcceptedBeforeTold(r: Run, a: Mark, t: Mark)
    requires AcceptancesMatch(r) && AnsweredInTime(r) && RevelationsMatch(r)
    requires a in r.accepted && t in r.revealed && a.question == t.question
    ensures a.at < t.at
  {
    hide ReleaseTime, FinishedAt;
    if t.at <= a.at {
      ElapsedMonotone(r.game.start, t.at, a.at);
      if FinishedAt(r.game, t.at) {
        StaysFinished(r.game, t.at, a.at);
      }
    }
  }

  // ----- results are final -----

  /** A sleeper wakes before the slot of his question is over. */
  ghost predicate Timely(r: Run, ev: Event)
    requires Enabled(r, ev)
  {
    ev.Wake? ==> Elapsed(r.game.start, ev.at) < Begin(Slot(r.game.limit), r.asleep[ev.user].question + 1)
  }

  /** Every result sent is still what the game says about its player. */
  ghost predicate ResultsAreFinal(r: Run)
    requires RunInv(r)
  {
    forall n :: n in r.results && r.results[n] != [] ==> SameResult(r.results[n][0], r.game.players[n])
  }

  /** Submitting and leaving never touch a result that was sent. */
  lemma SubmitAndLeaveKeepFinal(r: Run, ev: Event)
    requires RunInv(r) && ResultsAreFinal(r) && Enabled(r, ev) && !ev.Wake?
    ensures (StepKeepsInv(r, ev); ResultsAreFinal(Step(r, ev)))
  {
    hide Games.Leave, Games.Submissions, GameInv, AcceptancesMatch, AnsweredInTime, RevelationsMatch, OneAnswerEach;
    StepKeepsInv(r, ev);
    if ev.Leave? {
      LeaveEffects(r.game, ev.user, r.now, ev.readings);
      SubmissionsAreTheNewlyMarked(r.game, ev.user, r.now, ev.readings);
    }
  }

  /**
   Waking keeps the results final if and only if the sleeper has not been submitted yet, or his
   record already held the very answer he wakes up with.
   */
  lemma WakeKeepsFinalIff(r: Run, ev: Event)
    requires RunInv(r) && ResultsAreFinal(r) && ev.Wake? && Enabled(r, ev)
    ensures (StepKeepsInv(r, ev);
             var p, d := r.asleep[ev.user], r.game.players[ev.user];
             ResultsAreFinal(Step(r, ev)) <==>
             !d.submitted || (d.answers[p.question].choice == p.choice && d.answers[p.question].time == p.time))
  {
    hide AcceptancesMatch, AnsweredInTime, RevelationsMatch, OneAnswerEach, Accounted;
    StepKeepsInv(r, ev);
    var p, d := r.asleep[ev.user], r.game.players[ev.user];
    WokenKeepsInv(r.game, ev.user, p, r.now);
    RewritingIff(d, p);
    if d.submitted {
      assert |r.results[ev.user]| == 1;
      assert SameResult(r.results[ev.user][0], d);
    }
  }

  lemma RewritingIff(d: GameData, p: Pending)
    requires p.question < |d.answers|
    ensures var after := Record(d, p.question, p.choice, p.time);
            && after.submitted == d.submitted
            && (SameResult(d, after) <==>
                d.answers[p.question].choice == p.choice && d.answers[p.question].time == p.time)
  {
    var after := Record(d, p.question, p.choice, p.time);
    if d.answers[p.question].choice == p.choice && d.answers[p.question].time == p.time {
      assert after.answers == d.answers;
    } else {
      assert after.answers[p.question] != d.answers[p.question];
    }
  }

  ghost predicate AlwaysTimely(r: Run, events: seq<Event>)
    requires RunInv(r) && Possible(r, events)
    decreases |events|
  {
    events == [] ||
    (Timely(r, events[0]) && (StepKeepsInv(r, events[0]); AlwaysTimely(Step(r, events[0]), events[1..])))
  }

  lemma TimelyStepKeepsFinal(r: Run, ev: Event)
    requires RunInv(r) && ResultsAreFinal(r) && Enabled(r, ev) && Timely(r, ev)
    ensures (StepKeepsInv(r, ev); ResultsAreFinal(Step(r, ev)))
  {
    hide GameInv, AcceptancesMatch, AnsweredInTime, RevelationsMatch, OneAnswerEach, ResultsAreFinal, Step;
    StepKeepsInv(r, ev);
    if ev.Wake? {
      TimelyWakeIsBeforeSubmission(r.game, ev.user, r.asleep[ev.user], r.now, ev.at);
      WakeKeepsFinalIff(r, ev);
    } else {
      SubmitAndLeaveKeepFinal(r, ev);
    }
  }

  /** Over any run whose sleepers wake in time, no record changes after it was submitted. */
  lemma {:induction false} SentResultsAreFinal(r: Run, events: seq<Event>)
    requires RunInv(r) && ResultsAreFinal(r) && Possible(r, events) && AlwaysTimely(r, events)
    ensures ResultsAreFinal(After(r, events))
    decreases |events|
  {
    hide RunInv, Enabled, Timely, ResultsAreFinal, Step;
    if events != [] {
      StepKeepsInv(r, events[0]);
      TimelyStepKeepsFinal(r, events[0]);
      SentResultsAreFinal(Step(r, events[0]), events[1..]);
    }
  }

  /** A wake-up of somebody who was not submitted yet, or who repeats what his record holds. */
  ghost predicate Harmless(r: Run, ev: Event)
    requires RunInv(r) && Enabled(r, ev)
  {
    ev.Wake? ==>
      var p, d := r.asleep[ev.user], r.game.players[ev.user];
      !d.submitted || (d.answers[p.question].choice == p.choice && d.answers[p.question].time == p.time)
  }

  ghost predicate AlwaysHarmless(r: Run, events: seq<Event>)
    requires RunInv(r) && Possible(r, events)
    decreases |events|
  {
    events == [] ||
    (Harmless(r, events[0]) && (StepKeepsInv(r, events[0]); AlwaysHarmless(Step(r, events[0]), events[1..])))
  }

  /** At no moment of the run does a record differ from the result that was sent of it. */
  ghost predicate AlwaysFinal(r: Run, events: seq<Event>)
    requires RunInv(r) && Possible(r, events)
    decreases |events|
  {
    && ResultsAreFinal(r)
    && (events == [] || (StepKeepsInv(r, events[0]); AlwaysFinal(Step(r, events[0]), events[1..])))
  }

  /** Over any run, sent results stay final throughout if and only if every wake-up in it is harmless. */
  lemma {:induction false} AlwaysFinalIff(r: Run, events: seq<Event>)
    requires RunInv(r) && ResultsAreFinal(r) && Possible(r, events)
    ensures AlwaysFinal(r, events) <==> AlwaysHarmless(r, events)
    decreases |events|
  {
    hide RunInv, Enabled, ResultsAreFinal, Step, Harmless;
    if events != [] {
      var ev := events[0];
      StepKeepsInv(r, ev);
      StepKeepsFinalIff(r, ev);
      if Harmless(r, ev) {
        AlwaysFinalIff(Step(r, ev), events[1..]);
      }
    }
  }

  lemma StepKeepsFinalIff(r: Run, ev: Event)
    requires RunInv(r) && ResultsAreFinal(r) && Enabled(r, ev)
    ensures (StepKeepsInv(r, ev); ResultsAreFinal(Step(r, ev)) <==> Harmless(r, ev))
  {
    hide RunInv, ResultsAreFinal, Step;
    StepKeepsInv(r, ev);
    if ev.Wake? {
      WakeKeepsFinalIff(r, ev);
    } else {
      SubmitAndLeaveKeepFinal(r, ev);
    }
  }
}
