/** What a run leaves in its game, and tells its players: exactly what the events of the run say. */
module GameRecords {
  import opened Widths
  import opened Names
  import opened Questions
  import opened Scores
  import opened Games
  import GameRuns

  type Event = GameRuns.Event

  // ----- what events say -----

  /** Event `i` submits an answer of `n` to question `q`, and it is accepted. */
  predicate AcceptedAt(g: GameValue, events: seq<Event>, i: nat, n: Name, q: nat) {
    && i < |events| && events[i].Submit? && events[i].user == n && events[i].question == q
    && Decide(g, events[i].choice, events[i].question, events[i].guard, events[i].at).Sleeping?
  }

  ghost predicate Accepted(g: GameValue, events: seq<Event>, n: Name, q: nat) {
    exists i: nat :: AcceptedAt(g, events, i, n, q)
  }

  /** `n` does not wake up after event `i`. */
  ghost predicate AsleepSince(events: seq<Event>, i: nat, n: Name) {
    forall k :: i < k < |events| && events[k].Wake? ==> events[k].user != n
  }

  /** An answer of `n` to question `q` was accepted, and he has not woken up since. */
  ghost predicate Pends(g: GameValue, events: seq<Event>, n: Name, q: nat) {
    exists i: nat :: AcceptedAt(g, events, i, n, q) && AsleepSince(events, i, n)
  }

  /** At event `j` somebody is told the correct index of question `q`: he wakes up with an answer to it, or
      gets the results of the finished game. */
  ghost predicate TellsAt(g: GameValue, events: seq<Event>, j: nat, q: nat) {
    && j < |events| && q < |g.questions|
    && (|| (events[j].Wake? && Pends(g, events[..j], events[j].user, q))
        || (events[j].Results? && events[j].readable && FinishedAt(g, events[j].at)))
  }

  /** The choice and the second of the slot are those of the submission `ev`. */
  predicate AsSubmitted(g: GameValue, ev: Event, choice: u32, time: u32) {
    ev.Submit? && choice == ev.choice && InSecond(g, ev.question, time, ev.at)
  }

  /** `n` leaves at event `i`. */
  predicate LeavesAt(events: seq<Event>, i: nat, n: Name) {
    i < |events| && events[i].Leave? && events[i].user == n
  }

  ghost predicate Leaves(events: seq<Event>, n: Name) {
    exists i: nat :: LeavesAt(events, i, n)
  }

  /** He does so while the first reading of the removal finds the game unfinished. */
  ghost predicate LeavesEarly(g: GameValue, events: seq<Event>, n: Name) {
    exists i: nat :: LeavesAt(events, i, n) && !FinishedAt(g, events[i].readings.first)
  }

  /** Somebody leaves when the last reading of the removal finds the game finished. */
  predicate EndsAt(g: GameValue, events: seq<Event>, i: nat) {
    i < |events| && events[i].Leave? && FinishedAt(g, events[i].readings.third)
  }

  ghost predicate Ends(g: GameValue, events: seq<Event>) {
    exists i: nat :: EndsAt(g, events, i)
  }

  /** The record of `n` in the game says what `events` say about him, and about question `q`. */
  ghost predicate RecordTells(g: GameValue, events: seq<Event>, n: Name, q: nat) {
    && n in g.players && q < |g.players[n].answers| && q < |g.questions|
    && var (d, a) := (g.players[n], g.players[n].answers[q]);
    && a.question == g.questions[q]
    && (if Accepted(g, events, n, q) && !Pends(g, events, n, q)
        then forall i: nat :: AcceptedAt(g, events, i, n, q) ==> AsSubmitted(g, events[i], a.choice, a.time)
        else a.choice == 5 && a.time == g.limit)
    && (d.punished <==> LeavesEarly(g, events, n))
    && (d.submitted <==> Leaves(events, n) || Ends(g, events))
    && (n in g.online <==> !Leaves(events, n))
  }

  // ----- one more event -----

  lemma OneMoreAnswer(g: GameValue, past: seq<Event>, ev: Event, n: Name, q: nat)
    ensures var (all, last) := (past + [ev], |past|);
            && (forall i: nat :: i < last ==> (AcceptedAt(g, all, i, n, q) <==> AcceptedAt(g, past, i, n, q)))
            && (Accepted(g, all, n, q) <==> Accepted(g, past, n, q) || AcceptedAt(g, all, last, n, q))
            && (Pends(g, all, n, q) <==>
                (Pends(g, past, n, q) && !(ev.Wake? && ev.user == n)) || AcceptedAt(g, all, last, n, q))
  {
    hide Decide;
    var (all, last) := (past + [ev], |past|);
    assert all[last] == ev && AsleepSince(all, last, n);
    forall i: nat | i < last
      ensures AsleepSince(all, i, n) <==> AsleepSince(past, i, n) && !(ev.Wake? && ev.user == n)
    {
      assert forall k :: i < k < last ==> all[k] == past[k];
    }
    if i: nat :| AcceptedAt(g, past, i, n, q) {
      assert AcceptedAt(g, all, i, n, q);
    }
    if i: nat :| AcceptedAt(g, past, i, n, q) && AsleepSince(past, i, n) {
      assert AcceptedAt(g, all, i, n, q);
    }
  }

  lemma OneMoreDeparture(g: GameValue, past: seq<Event>, ev: Event, n: Name)
    ensures var all := past + [ev];
            && (Leaves(all, n) <==> Leaves(past, n) || (ev.Leave? && ev.user == n))
            && (LeavesEarly(g, all, n) <==>
                LeavesEarly(g, past, n) || (ev.Leave? && ev.user == n && !FinishedAt(g, ev.readings.first)))
            && (Ends(g, all) <==> Ends(g, past) || (ev.Leave? && FinishedAt(g, ev.readings.third)))
  {
    hide FinishedAt;
    var (all, last) := (past + [ev], |past|);
    assert forall i: nat :: i < last ==> (LeavesAt(all, i, n) <==> LeavesAt(past, i, n));
    assert forall i: nat :: i < last ==> (EndsAt(g, all, i) <==> EndsAt(g, past, i));
    assert LeavesAt(all, last, n) <==> ev.Leave? && ev.user == n;
    assert EndsAt(g, all, last) <==> ev.Leave? && FinishedAt(g, ev.readings.third);
    if i: nat :| LeavesAt(past, i, n) {
      assert LeavesAt(all, i, n);
    }
    if i: nat :| LeavesAt(past, i, n) && !FinishedAt(g, past[i].readings.first) {
      assert LeavesAt(all, i, n);
    }
    if i: nat :| EndsAt(g, past, i) {
      assert EndsAt(g, all, i);
    }
  }

  lemma OneMoreTold(g: GameValue, past: seq<Event>, ev: Event, j: nat, q: nat)
    ensures j < |past| ==> (TellsAt(g, past + [ev], j, q) <==> TellsAt(g, past, j, q))
    ensures TellsAt(g, past + [ev], |past|, q) <==>
            q < |g.questions| && ((ev.Wake? && Pends(g, past, ev.user, q))
                                  || (ev.Results? && ev.readable && FinishedAt(g, ev.at)))
  {
    hide Pends, FinishedAt;
    assert (past + [ev])[..|past|] == past;
    if j < |past| {
      assert (past + [ev])[..j] == past[..j];
    }
  }

  // ----- the invariant -----

  predicate SameSchedule(g: GameValue, other: GameValue) {
    other.questions == g.questions && other.limit == g.limit && other.start == g.start
  }

  predicate SleepsOn(asleep: map<Name, Pending>, n: Name, q: nat) {
    n in asleep && asleep[n].question == q
  }

  /** An accepted answer is what its player sleeps on, or what his record holds. */
  ghost predicate AnswerTold(g: GameValue, r: GameRuns.Run, ev: Event, n: Name, q: nat)
    requires GameRuns.RunInv(r) && ev.Submit? && q < |r.game.questions|
  {
    && n in r.game.players
    && if SleepsOn(r.asleep, n, q) then AsSubmitted(g, ev, r.asleep[n].choice, r.asleep[n].time)
       else AsSubmitted(g, ev, r.game.players[n].answers[q].choice, r.game.players[n].answers[q].time)
  }

  ghost predicate AnswersTold(g: GameValue, r: GameRuns.Run, past: seq<Event>)
    requires GameRuns.RunInv(r)
  {
    forall i: nat, n: Name, q: nat :: AcceptedAt(g, past, i, n, q) && q < |r.game.questions| ==>
      AnswerTold(g, r, past[i], n, q)
  }

  /** Whatever was not accepted, or is slept on, is blank in the record. */
  ghost predicate OthersBlank(g: GameValue, r: GameRuns.Run, past: seq<Event>)
    requires GameRuns.RunInv(r)
  {
    forall n: Name, q: nat ::
      n in r.game.players && q < |r.game.questions| && (SleepsOn(r.asleep, n, q) || !Accepted(g, past, n, q)) ==>
        r.game.players[n].answers[q] == Answer(r.game.questions[q], 5, r.game.limit)
  }

  ghost predicate SleepersTold(g: GameValue, r: GameRuns.Run, past: seq<Event>) {
    forall n: Name, q: nat :: SleepsOn(r.asleep, n, q) <==> Pends(g, past, n, q)
  }

  /** Every acceptance is in the log, and nobody has two to one question; every telling is in the log. */
  ghost predicate LogsTold(g: GameValue, r: GameRuns.Run, past: seq<Event>) {
    && (forall i: nat, n: Name, q: nat :: AcceptedAt(g, past, i, n, q) ==> GameRuns.Mark(n, q, past[i].at) in r.accepted)
    && (forall i: nat, j: nat, n: Name, q: nat :: i < j && AcceptedAt(g, past, i, n, q) ==> !AcceptedAt(g, past, j, n, q))
    && (forall j: nat, q: nat :: TellsAt(g, past, j, q) ==> GameRuns.Mark(past[j].user, q, past[j].at) in r.revealed)
  }

  ghost predicate DeparturesTold(g: GameValue, r: GameRuns.Run, past: seq<Event>) {
    forall n :: n in r.game.players ==>
      && (n in r.game.online <==> !Leaves(past, n))
      && (r.game.players[n].punished <==> LeavesEarly(g, past, n))
      && (r.game.players[n].submitted <==> Leaves(past, n) || Ends(g, past))
  }

  /** The state of the run is what its past events say. */
  ghost predicate Told(g: GameValue, r: GameRuns.Run, past: seq<Event>) {
    && GameRuns.RunInv(r) && SameSchedule(g, r.game)
    && AnswersTold(g, r, past) && OthersBlank(g, r, past) && SleepersTold(g, r, past)
    && LogsTold(g, r, past) && DeparturesTold(g, r, past)
  }

  lemma FreshTold(questions: seq<Question>, limit: u32, users: seq<Name>, now: nat)
    requires GameRuns.Startable(questions, limit, users)
    ensures var r := GameRuns.Fresh(questions, limit, users, now);
            GameRuns.RunInv(r) && Told(r.game, r, [])
  {
    GameRuns.FreshInv(questions, limit, users, now);
  }

  // ----- one more event of a run -----

  lemma ScheduleDecides(g: GameValue, other: GameValue, ev: Event)
    requires SameSchedule(g, other) && ev.Submit?
    ensures Decide(other, ev.choice, ev.question, ev.guard, ev.at) == Decide(g, ev.choice, ev.question, ev.guard, ev.at)
  {
  }

  lemma PlayerOf(r: GameRuns.Run, user: Name)
    requires GameRuns.RunInv(r) && user in r.game.online
    ensures user in r.game.players
  {
  }

  lemma AnswersExist(r: GameRuns.Run)
    requires GameRuns.RunInv(r)
    ensures forall n :: n in r.game.players ==> |r.game.players[n].answers| == |r.game.questions|
  {
  }

  /** An answer that is accepted is its player's first to its question. */
  lemma AcceptedOnce(g: GameValue, r: GameRuns.Run, past: seq<Event>, ev: Event)
    requires GameRuns.RunInv(r) && SameSchedule(g, r.game) && LogsTold(g, r, past) && ev.Submit? && GameRuns.Enabled(r, ev)
    requires Decide(g, ev.choice, ev.question, ev.guard, ev.at).Sleeping?
    ensures !Accepted(g, past, ev.user, ev.question)
  {
    hide Decide, GameInv, FinishedAt, TellsAt;
    ScheduleDecides(g, r.game, ev);
    GameRuns.StepKeepsInv(r, ev);
    NewMark(r.accepted, GameRuns.Step(r, ev).accepted, GameRuns.Mark(ev.user, ev.question, ev.at));
  }

  lemma NewMark(before: seq<GameRuns.Mark>, after: seq<GameRuns.Mark>, mark: GameRuns.Mark)
    requires after == before + [mark]
    requires forall i, j :: 0 <= i < j < |after| ==> after[i].user != after[j].user || after[i].question != after[j].question
    ensures forall m :: m in before ==> m.user != mark.user || m.question != mark.question
  {
    forall k | 0 <= k < |before|
      ensures before[k].user != mark.user || before[k].question != mark.question
    {
      assert after[k] == before[k] && after[|before|] == mark;
    }
  }

  lemma DeparturesStay(g: GameValue, r: GameRuns.Run, past: seq<Event>, ev: Event, after: GameRuns.Run)
    requires DeparturesTold(g, r, past) && !ev.Leave? && after.game.players.Keys == r.game.players.Keys
    requires after.game.online == r.game.online
    requires forall n :: n in r.game.players ==>
               && after.game.players[n].punished == r.game.players[n].punished
               && after.game.players[n].submitted == r.game.players[n].submitted
    ensures DeparturesTold(g, after, past + [ev])
  {
    hide Leaves, LeavesEarly, Ends;
    forall n | n in after.game.players
      ensures && (n in after.game.online <==> !Leaves(past + [ev], n))
              && (after.game.players[n].punished <==> LeavesEarly(g, past + [ev], n))
              && (after.game.players[n].submitted <==> Leaves(past + [ev], n) || Ends(g, past + [ev]))
    {
      OneMoreDeparture(g, past, ev, n);
      assert n in r.game.players;
    }
  }

  /** The sleepers are those of the events, if the newest one is accounted for. */
  lemma SleepersFollow(g: GameValue, r: GameRuns.Run, past: seq<Event>, ev: Event, after: GameRuns.Run)
    requires SleepersTold(g, r, past)
    requires forall n: Name, q: nat ::
               SleepsOn(after.asleep, n, q) <==>
               (SleepsOn(r.asleep, n, q) && !(ev.Wake? && ev.user == n)) || AcceptedAt(g, past + [ev], |past|, n, q)
    ensures SleepersTold(g, after, past + [ev])
  {
    hide Decide, Pends;
    forall n: Name, q: nat
      ensures SleepsOn(after.asleep, n, q) <==> Pends(g, past + [ev], n, q)
    {
      OneMoreAnswer(g, past, ev, n, q);
    }
  }

  /** So are the logs. */
  lemma LogsFollow(g: GameValue, r: GameRuns.Run, past: seq<Event>, ev: Event, after: GameRuns.Run)
    requires LogsTold(g, r, past)
    requires forall m :: m in r.accepted ==> m in after.accepted
    requires forall m :: m in r.revealed ==> m in after.revealed
    requires ev.Submit? && Decide(g, ev.choice, ev.question, ev.guard, ev.at).Sleeping? ==>
               && GameRuns.Mark(ev.user, ev.question, ev.at) in after.accepted
               && !Accepted(g, past, ev.user, ev.question)
    requires forall q: nat :: TellsAt(g, past + [ev], |past|, q) ==> GameRuns.Mark(ev.user, q, ev.at) in after.revealed
    ensures LogsTold(g, after, past + [ev])
  {
    hide Decide, Pends, FinishedAt;
    var (all, last) := (past + [ev], |past|);
    forall i: nat, n: Name, q: nat | AcceptedAt(g, all, i, n, q)
      ensures GameRuns.Mark(n, q, all[i].at) in after.accepted
      ensures i == last || AcceptedAt(g, past, i, n, q)
    {
      OneMoreAnswer(g, past, ev, n, q);
      assert i < last ==> all[i] == past[i];
    }
    forall i: nat, j: nat, n: Name, q: nat | i < j && AcceptedAt(g, all, i, n, q)
      ensures !AcceptedAt(g, all, j, n, q)
    {
      assert j < |all| ==> AcceptedAt(g, past, i, n, q);
    }
    forall j: nat, q: nat | TellsAt(g, all, j, q)
      ensures GameRuns.Mark(all[j].user, q, all[j].at) in after.revealed
    {
      OneMoreTold(g, past, ev, j, q);
    }
  }

  /** An event that is no accepted answer and leaves records and sleepers alone. */
  lemma AnswersStay(g: GameValue, r: GameRuns.Run, past: seq<Event>, ev: Event, after: GameRuns.Run)
    requires GameRuns.RunInv(r) && AnswersTold(g, r, past) && OthersBlank(g, r, past) && SleepersTold(g, r, past)
    requires GameRuns.RunInv(after) && SameSchedule(g, r.game) && SameSchedule(g, after.game) && !ev.Wake?
    requires ev.Submit? ==> !Decide(g, ev.choice, ev.question, ev.guard, ev.at).Sleeping?
    requires after.asleep == r.asleep && after.game.players.Keys == r.game.players.Keys
    requires forall n :: n in r.game.players ==> after.game.players[n].answers == r.game.players[n].answers
    ensures AnswersTold(g, after, past + [ev]) && OthersBlank(g, after, past + [ev]) && SleepersTold(g, after, past + [ev])
  {
    hide Decide, GameRuns.RunInv, Accepted, InSecond;
    var all := past + [ev];
    forall n: Name, q: nat
      ensures Accepted(g, all, n, q) <==> Accepted(g, past, n, q)
    {
      OneMoreAnswer(g, past, ev, n, q);
    }
    forall i: nat, n: Name, q: nat | AcceptedAt(g, all, i, n, q) && q < |r.game.questions|
      ensures AnswerTold(g, after, all[i], n, q)
    {
      assert AcceptedAt(g, past, i, n, q);
    }
    SleepersFollow(g, r, past, ev, after);
  }

  lemma SubmitTold(g: GameValue, r: GameRuns.Run, past: seq<Event>, ev: Event)
    requires Told(g, r, past) && ev.Submit? && GameRuns.Enabled(r, ev)
    ensures GameRuns.RunInv(GameRuns.Step(r, ev)) && Told(g, GameRuns.Step(r, ev), past + [ev])
  {
    hide Decide, GameInv, FinishedAt, AnswersTold, OthersBlank, SleepersTold, LogsTold, DeparturesTold, TellsAt;
    GameRuns.StepKeepsInv(r, ev);
    ScheduleDecides(g, r.game, ev);
    var after := GameRuns.Step(r, ev);
    DeparturesStay(g, r, past, ev, after);
    if Decide(g, ev.choice, ev.question, ev.guard, ev.at).Refused? {
      AnswersStay(g, r, past, ev, after);
    } else {
      AcceptedOnce(g, r, past, ev);
      AcceptedTold(g, r, past, ev, after);
    }
    forall q: nat
      ensures !TellsAt(g, past + [ev], |past|, q)
    {
      OneMoreTold(g, past, ev, 0, q);
    }
    LogsFollow(g, r, past, ev, after);
  }

  lemma AcceptedTold(g: GameValue, r: GameRuns.Run, past: seq<Event>, ev: Event, after: GameRuns.Run)
    requires Told(g, r, past) && ev.Submit? && GameRuns.Enabled(r, ev) && GameRuns.RunInv(after)
    requires after == GameRuns.Step(r, ev) && Decide(g, ev.choice, ev.question, ev.guard, ev.at).Sleeping?
    requires !Accepted(g, past, ev.user, ev.question)
    ensures AnswersTold(g, after, past + [ev]) && OthersBlank(g, after, past + [ev]) && SleepersTold(g, after, past + [ev])
  {
    hide Decide, GameInv, FinishedAt, LogsTold, DeparturesTold, InSecond, Pends;
    ScheduleDecides(g, r.game, ev);
    PlayerOf(r, ev.user);
    SleepsOnSubmission(g, r, ev);
    var (all, last) := (past + [ev], |past|);
    forall n: Name, q: nat
      ensures Accepted(g, all, n, q) <==> Accepted(g, past, n, q) || AcceptedAt(g, all, last, n, q)
    {
      OneMoreAnswer(g, past, ev, n, q);
    }
    forall i: nat, n: Name, q: nat | AcceptedAt(g, all, i, n, q) && q < |r.game.questions|
      ensures AnswerTold(g, after, all[i], n, q)
    {
      assert i < last ==> AcceptedAt(g, past, i, n, q);
    }
    SleepersFollow(g, r, past, ev, after);
  }

  lemma SleepsOnSubmission(g: GameValue, r: GameRuns.Run, ev: Event)
    requires GameRuns.RunInv(r) && SameSchedule(g, r.game) && ev.Submit?
    requires Decide(g, ev.choice, ev.question, ev.guard, ev.at).Sleeping?
    ensures var p := Decide(g, ev.choice, ev.question, ev.guard, ev.at).pending;
            p.question == ev.question && AsSubmitted(g, ev, p.choice, p.time)
  {
    SleepsOnWhatWasSubmitted(g, ev.choice, ev.question, ev.guard, ev.at);
  }

  /** The record takes what was slept on, and its player sleeps on it no more. */
  lemma AnswersWoken(g: GameValue, r: GameRuns.Run, past: seq<Event>, ev: Event, after: GameRuns.Run)
    requires GameRuns.RunInv(r) && AnswersTold(g, r, past) && OthersBlank(g, r, past) && SleepersTold(g, r, past)
    requires ev.Wake? && ev.user in r.asleep && GameRuns.RunInv(after) && SameSchedule(g, r.game)
    requires after.asleep == r.asleep - {ev.user}
    requires ev.user in r.game.players && after.game.players.Keys == r.game.players.Keys && SameSchedule(r.game, after.game)
    requires var p := r.asleep[ev.user];
             p.question < |r.game.players[ev.user].answers|
             && after.game.players[ev.user] == Record(r.game.players[ev.user], p.question, p.choice, p.time)
    requires forall n :: n in r.game.players && n != ev.user ==> after.game.players[n] == r.game.players[n]
    ensures AnswersTold(g, after, past + [ev]) && OthersBlank(g, after, past + [ev]) && SleepersTold(g, after, past + [ev])
  {
    hide Decide, GameRuns.RunInv, FinishedAt, InSecond, Pends;
    AnswersExist(r);
    var all := past + [ev];
    PendsMeansAccepted(g, past, ev.user, r.asleep[ev.user].question);
    hide Accepted;
    forall n: Name, q: nat
      ensures Accepted(g, all, n, q) <==> Accepted(g, past, n, q)
    {
      OneMoreAnswer(g, past, ev, n, q);
    }
    forall i: nat, n: Name, q: nat | AcceptedAt(g, all, i, n, q) && q < |r.game.questions|
      ensures AnswerTold(g, after, all[i], n, q)
    {
      assert AcceptedAt(g, past, i, n, q);
    }
    SleepersFollow(g, r, past, ev, after);
  }

  lemma PendsMeansAccepted(g: GameValue, events: seq<Event>, n: Name, q: nat)
    requires Pends(g, events, n, q)
    ensures Accepted(g, events, n, q)
  {
  }

  lemma WakeTold(g: GameValue, r: GameRuns.Run, past: seq<Event>, ev: Event)
    requires Told(g, r, past) && ev.Wake? && GameRuns.Enabled(r, ev)
    ensures GameRuns.RunInv(GameRuns.Step(r, ev)) && Told(g, GameRuns.Step(r, ev), past + [ev])
  {
    hide Decide, GameInv, FinishedAt, AnswersTold, OthersBlank, LogsTold, DeparturesTold, InSecond, Woken, TellsAt, Pends;
    GameRuns.StepKeepsInv(r, ev);
    PlayerOf(r, ev.user);
    WokenKeepsInv(r.game, ev.user, r.asleep[ev.user], r.now);
    AnswersExist(r);
    var after := GameRuns.Step(r, ev);
    DeparturesStay(g, r, past, ev, after);
    AnswersWoken(g, r, past, ev, after);
    forall q: nat | TellsAt(g, past + [ev], |past|, q)
      ensures GameRuns.Mark(ev.user, q, ev.at) in after.revealed
    {
      OneMoreTold(g, past, ev, 0, q);
      assert SleepsOn(r.asleep, ev.user, q);
    }
    LogsFollow(g, r, past, ev, after);
  }

  lemma ResultsTold(g: GameValue, r: GameRuns.Run, past: seq<Event>, ev: Event)
    requires Told(g, r, past) && ev.Results? && GameRuns.Enabled(r, ev)
    ensures GameRuns.RunInv(GameRuns.Step(r, ev)) && Told(g, GameRuns.Step(r, ev), past + [ev])
  {
    hide Decide, GameInv, FinishedAt, AnswersTold, OthersBlank, SleepersTold, LogsTold, DeparturesTold, InSecond, TellsAt;
    GameRuns.StepKeepsInv(r, ev);
    var after := GameRuns.Step(r, ev);
    DeparturesStay(g, r, past, ev, after);
    AnswersStay(g, r, past, ev, after);
    FinishedDependsOnSchedule(g, r.game, ev.at);
    forall q: nat | TellsAt(g, past + [ev], |past|, q)
      ensures GameRuns.Mark(ev.user, q, ev.at) in after.revealed
    {
      OneMoreTold(g, past, ev, 0, q);
      assert GameRuns.Told(r.game, ev.user, ev.at, ev.readable)[q] == GameRuns.Mark(ev.user, q, ev.at);
    }
    LogsFollow(g, r, past, ev, after);
  }

  lemma DeparturesFollow(g: GameValue, r: GameRuns.Run, past: seq<Event>, ev: Event, after: GameRuns.Run)
    requires DeparturesTold(g, r, past) && ev.Leave? && after.game.players.Keys == r.game.players.Keys
    requires forall n :: n in after.game.online <==> n in r.game.online && n != ev.user
    requires forall n :: n in r.game.players ==>
               && (after.game.players[n].punished <==>
                   r.game.players[n].punished || (n == ev.user && !FinishedAt(g, ev.readings.first)))
               && (after.game.players[n].submitted <==>
                   r.game.players[n].submitted || n == ev.user || FinishedAt(g, ev.readings.third))
    ensures DeparturesTold(g, after, past + [ev])
  {
    hide Leaves, LeavesEarly, Ends, FinishedAt;
    forall n | n in after.game.players
      ensures && (n in after.game.online <==> !Leaves(past + [ev], n))
              && (after.game.players[n].punished <==> LeavesEarly(g, past + [ev], n))
              && (after.game.players[n].submitted <==> Leaves(past + [ev], n) || Ends(g, past + [ev]))
    {
      OneMoreDeparture(g, past, ev, n);
      assert n in r.game.players;
    }
  }

  lemma LeaveTold(g: GameValue, r: GameRuns.Run, past: seq<Event>, ev: Event)
    requires Told(g, r, past) && ev.Leave? && GameRuns.Enabled(r, ev)
    ensures GameRuns.RunInv(GameRuns.Step(r, ev)) && Told(g, GameRuns.Step(r, ev), past + [ev])
  {
    hide Decide, GameInv, FinishedAt, AnswersTold, OthersBlank, SleepersTold, LogsTold, DeparturesTold, InSecond, TellsAt;
    hide Games.Leave, Submissions;
    GameRuns.StepKeepsInv(r, ev);
    var after := GameRuns.Step(r, ev);
    LeaveEffects(r.game, ev.user, r.now, ev.readings);
    WithoutMembers(r.game.online, ev.user);
    AnswersStay(g, r, past, ev, after);
    FinishedDependsOnSchedule(g, r.game, ev.readings.first);
    FinishedDependsOnSchedule(g, r.game, ev.readings.third);
    DeparturesFollow(g, r, past, ev, after);
    forall q: nat
      ensures !TellsAt(g, past + [ev], |past|, q)
    {
      OneMoreTold(g, past, ev, 0, q);
    }
    LogsFollow(g, r, past, ev, after);
  }

  lemma StepTold(g: GameValue, r: GameRuns.Run, past: seq<Event>, ev: Event)
    requires Told(g, r, past) && GameRuns.Enabled(r, ev)
    ensures GameRuns.RunInv(GameRuns.Step(r, ev)) && Told(g, GameRuns.Step(r, ev), past + [ev])
  {
    match ev
    case Submit(_, _, _, _, _) => SubmitTold(g, r, past, ev);
    case Wake(_, _) => WakeTold(g, r, past, ev);
    case Results(_, _, _) => ResultsTold(g, r, past, ev);
    case Leave(_, _) => LeaveTold(g, r, past, ev);
  }

  // ----- whole runs -----

  lemma {:induction false} RunTold(g: GameValue, r: GameRuns.Run, past: seq<Event>, events: seq<Event>)
    requires Told(g, r, past) && GameRuns.Possible(r, events)
    ensures Told(g, GameRuns.After(r, events), past + events)
    decreases |events|
  {
    hide GameRuns.RunInv, GameRuns.Enabled, GameRuns.Step, AnswersTold, OthersBlank, SleepersTold, LogsTold, DeparturesTold;
    if events == [] {
      assert past + events == past;
    } else {
      StepTold(g, r, past, events[0]);
      RunTold(g, GameRuns.Step(r, events[0]), past + [events[0]], events[1..]);
      assert past + [events[0]] + events[1..] == past + events;
    }
  }

  lemma GameTold(questions: seq<Question>, limit: u32, users: seq<Name>, now: nat, events: seq<Event>)
    requires GameRuns.Startable(questions, limit, users)
    requires (GameRuns.FreshInv(questions, limit, users, now);
              GameRuns.Possible(GameRuns.Fresh(questions, limit, users, now), events))
    ensures (GameRuns.FreshInv(questions, limit, users, now);
             var end := GameRuns.After(GameRuns.Fresh(questions, limit, users, now), events);
             && end.game == GameValue(questions, limit, now, end.game.online, end.game.players)
             && (forall n :: n in users ==> n in end.game.players)
             && Told(NewGame(questions, limit, users, now), end, events))
  {
    hide Told, NewGame;
    GameRuns.FreshInv(questions, limit, users, now);
    FreshTold(questions, limit, users, now);
    var first := GameRuns.Fresh(questions, limit, users, now);
    RunTold(first.game, first, [], events);
    assert [] + events == events;
    GameRuns.PlayersStay(first, events);
    NewGameIsBlank(questions, limit, users, now);
  }

  lemma ToldMeans(g: GameValue, r: GameRuns.Run, events: seq<Event>, n: Name, q: nat)
    requires Told(g, r, events) && n in r.game.players && q < |r.game.questions|
    ensures RecordTells(r.game, events, n, q)
  {
    hide Decide, FinishedAt, InSecond, LogsTold;
    EventsBySchedule(g, r.game, events, n, q);
    AnswersExist(r);
  }

  /** What events say depends on the schedule of the game alone. */
  lemma EventsBySchedule(g: GameValue, other: GameValue, events: seq<Event>, n: Name, q: nat)
    requires SameSchedule(g, other)
    ensures forall i: nat :: AcceptedAt(other, events, i, n, q) == AcceptedAt(g, events, i, n, q)
    ensures forall ev: Event, choice, time :: AsSubmitted(other, ev, choice, time) == AsSubmitted(g, ev, choice, time)
    ensures LeavesEarly(other, events, n) == LeavesEarly(g, events, n) && Ends(other, events) == Ends(g, events)
  {
    forall i: nat
      ensures EndsAt(other, events, i) == EndsAt(g, events, i)
    {
      if i < |events| && events[i].Leave? {
        FinishedDependsOnSchedule(g, other, events[i].readings.third);
      }
    }
  }

  /**
   Over any run of a game, each record is what the events say and nothing else: a question holds the choice
   and the second of the answer that was accepted to it, as soon as its player has woken up, and index 5 at
   the time limit otherwise; a player is punished exactly if he left while the game was unfinished at the
   first reading, submitted exactly if he left or somebody did when it was finished at the last, and online
   exactly if he did not leave.
   */
  lemma RecordsTellTheRun(questions: seq<Question>, limit: u32, users: seq<Name>, now: nat, events: seq<Event>,
                          n: Name, q: nat)
    requires GameRuns.Startable(questions, limit, users) && n in users && q < |questions|
    requires (GameRuns.FreshInv(questions, limit, users, now);
              GameRuns.Possible(GameRuns.Fresh(questions, limit, users, now), events))
    ensures (GameRuns.FreshInv(questions, limit, users, now);
             var end := GameRuns.After(GameRuns.Fresh(questions, limit, users, now), events);
             var g := GameValue(questions, limit, now, end.game.online, end.game.players);
             g == end.game && RecordTells(g, events, n, q))
  {
    hide Told, RecordTells, NewGame, GameRuns.RunInv, GameRuns.Possible, GameRuns.After, GameRuns.Startable;
    GameRuns.FreshInv(questions, limit, users, now);
    GameTold(questions, limit, users, now, events);
    ToldMeans(NewGame(questions, limit, users, now),
              GameRuns.After(GameRuns.Fresh(questions, limit, users, now), events), events, n, q);
  }

  /**
   In the order of events: nobody has two answers to one question accepted, and no answer to a question is
   accepted at or after the time at which anybody is told its correct index.
   */
  lemma AnswersComeFirst(questions: seq<Question>, limit: u32, users: seq<Name>, now: nat, events: seq<Event>,
                         i: nat, j: nat, n: Name, q: nat)
    requires GameRuns.Startable(questions, limit, users)
    requires (GameRuns.FreshInv(questions, limit, users, now);
              GameRuns.Possible(GameRuns.Fresh(questions, limit, users, now), events))
    requires AcceptedAt(NewGame(questions, limit, users, now), events, i, n, q)
    ensures AcceptedAt(NewGame(questions, limit, users, now), events, j, n, q) ==> i == j
    ensures TellsAt(NewGame(questions, limit, users, now), events, j, q) ==> events[i].at < events[j].at
  {
    hide AnswersTold, OthersBlank, SleepersTold, DeparturesTold, NewGame, Decide, FinishedAt, GameInv, Pends;
    hide GameRuns.Possible, GameRuns.After, GameRuns.Startable, GameRuns.ResultsMatchFlags;
    var g := NewGame(questions, limit, users, now);
    GameRuns.FreshInv(questions, limit, users, now);
    GameTold(questions, limit, users, now, events);
    var end := GameRuns.After(GameRuns.Fresh(questions, limit, users, now), events);
    if TellsAt(g, events, j, q) {
      var (a, t) := (GameRuns.Mark(n, q, events[i].at), GameRuns.Mark(events[j].user, q, events[j].at));
      GameRuns.AcceptedBeforeTold(end, a, t);
    }
  }
}
