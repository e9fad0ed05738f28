/** Games and their manager as objects (`managers/game.cpp`, `managers/gameManager.cpp`). */
module GameManagers {
  import opened Widths
  import opened Names
  import opened Questions
  import opened Scores
  import opened Statistics
  import opened TimeWindows
  import opened Games
  import opened Sessions
  import opened Databases
  import opened Rooms

  class Game {
    const uuid: Uuid
    const questions: seq<Question>
    const limit: u32
    const start: nat
    var online: seq<Name>
    var players: map<Name, GameData>

    constructor (questions: seq<Question>, users: seq<Name>, uuid: Uuid, limit: u32, now: nat)
      ensures this.uuid == uuid && Value() == NewGame(questions, limit, users, now)
      ensures online == users && forall n :: n in players <==> n in users
      ensures forall n :: n in users ==> IsBlank(players[n], questions, limit)
    {
      this.questions, this.uuid, this.limit, this.start := questions, uuid, limit, now;
      online, players := users, map[];
      new;
      var i := 0;
      while i < |users|
        invariant 0 <= i <= |users| && online == users
        invariant players == map n | n in users[..i] :: GameData(false, false, limit, Unanswered(questions, limit))
      {
        var d := NewGameData(questions, limit);
        players := players[users[i] := d];
        assert users[..i + 1] == users[..i] + [users[i]];
        i := i + 1;
      }
      assert users[..|users|] == users;
      NewGameIsBlank(questions, limit, users, now);
    }

    ghost function Value(): GameValue
      reads this
    {
      GameValue(questions, limit, start, online, players)
    }

    method IsFinished(now: nat) returns (finished: bool)
      ensures finished == FinishedAt(Value(), now) == Reaches(Value(), |questions| * SlotOfGame(Value()), now)
    {
      FinishesByTheClock(Value(), now);
      finished := Elapsed(start, now) >= |questions| * Slot(limit);
    }

    /** The index is within the questions exactly when the game is unfinished at this very reading, unless it
        has come round. */
    method GetCurrentQuestion(now: nat) returns (index: u32)
      requires Slot(limit) != 0
      ensures index == CurrentIndex(limit, Elapsed(start, now))
      ensures index < |questions| <==>
              !FinishedAt(Value(), now) || IndexWraps(limit, |questions|, Elapsed(start, now))
      ensures !FinishedAt(Value(), now) && |questions| <= U32 ==>
                Reaches(Value(), index * SlotOfGame(Value()), now) && !Reaches(Value(), (index + 1) * SlotOfGame(Value()), now)
    {
      if !FinishedAt(Value(), now) && |questions| <= U32 {
        ShowsByTheClock(Value(), now);
      }
      index := Wrap(Elapsed(start, now) / Slot(limit));
      CurrentIndexInRange(limit, |questions|, Elapsed(start, now));
    }

    method RemovePlayer(user: Name)
      modifies this
      ensures Value() == Offline(old(Value()), user)
    {
      online := Without(online, user);
    }

    method PunishPlayer(user: Name)
      requires user in players
      modifies this
      ensures Value() == Punished(old(Value()), user)
    {
      players := players[user := players[user].(punished := true)];
    }

    method MarkUserResultsAsSubmittedToDB(user: Name)
      requires user in players
      modifies this
      ensures Value() == Marked(old(Value()), user)
    {
      players := players[user := players[user].(submitted := true)];
    }

    /** `submitAnswer` up to its sleep, behind the guard of the request handler. */
    method SubmitAnswer(choice: u32, question: u32, guard: nat, now: nat) returns (decision: Decision)
      ensures decision == Decide(Value(), choice, question, guard, now)
      ensures limit >= 5 ==>
                SleepsByTheClock(Value(), choice, question, guard, now,
                                 if decision.Sleeping? then Some(decision.pending) else None)
    {
      if limit >= 5 {
        SubmissionDecided(Value(), choice, question, guard, now);
      }
      var finished := IsFinished(guard);
      if finished {
        return Refused;
      }
      UnfinishedMeansPositiveSlot(limit, |questions|, Elapsed(start, guard));
      var e := Elapsed(start, now);
      var current := Wrap(e / Slot(limit));
      if choice > 4 {
        return Refused;
      }
      if question != current {
        return Refused;
      }
      var release := Wrap((current + 1) * Slot(limit) - 5);
      if e >= release {
        return Refused;
      }
      decision := Sleeping(Pending(question, choice, Wrap(limit - (release - e)), release));
    }

    /** The rest of `submitAnswer`, after the sleep. */
    method RecordAnswer(user: Name, p: Pending) returns (correct: u32)
      requires user in players && p.question < |players[user].answers| && p.question < |questions|
      modifies this
      ensures Value() == Woken(old(Value()), user, p)
      ensures correct == questions[p.question].correctIndex
    {
      players := players[user := Record(players[user], p.question, p.choice, p.time)];
      correct := questions[p.question].correctIndex;
    }
  }

  class GameManager {
    const db: Database
    var games: seq<Game>

    /** The list holds each game once, under an id of its own. */
    ghost predicate Valid()
      reads this
    {
      forall i, j :: 0 <= i < j < |games| ==> games[i].uuid != games[j].uuid
    }

    ghost function Value(): map<Uuid, GameValue>
      requires Valid()
      reads this, games
    {
      map g | g in games :: g.uuid := g.Value()
    }

    constructor (db: Database)
      ensures Valid() && games == [] && this.db == db
    {
      this.db := db;
      games := [];
    }

    /** `questions` is what the database returned, if it did. */
    method CreateGame(room: Room, questions: Option<seq<Question>>, now: nat) returns (game: Option<Game>)
      requires Valid() && forall g :: g in games ==> g.uuid != room.uuid
      modifies this
      ensures Valid()
      ensures game.Some? <==> questions.Some? && |questions.value| == room.questionCount
      ensures game.None? ==> games == old(games) && Value() == old(Value())
      ensures game.Some? ==>
                && fresh(game.value) && game.value.uuid == room.uuid && games == old(games) + [game.value]
                && game.value.Value() == NewGame(questions.value, room.limit, room.users, now)
                && game.value.Value() == GameValue(questions.value, room.limit, now, room.users, game.value.players)
                && (forall n :: n in game.value.players <==> n in room.users)
                && (forall n :: n in room.users ==> IsBlank(game.value.players[n], questions.value, room.limit))
                && Value() == old(Value())[room.uuid := game.value.Value()]
    {
      if questions.None? || |questions.value| != room.questionCount {
        return None;
      }
      var g := new Game(questions.value, room.users, room.uuid, room.limit, now);
      games := games + [g];
      game := Some(g);
    }

    /** The lookup throws unless the game is there; the first match is the only one. */
    method GetGameById(uuid: Uuid) returns (game: Game)
      requires Valid() && exists g :: g in games && g.uuid == uuid
      ensures game in games && game.uuid == uuid
    {
      var i := 0;
      while i < |games| && games[i].uuid != uuid
        invariant 0 <= i <= |games|
        invariant forall j :: 0 <= j < i ==> games[j].uuid != uuid
      {
        i := i + 1;
      }
      game := games[i];
    }

    /** Submits every record of the game that was not submitted before, and marks it.  `which` names the
        game with the given id for the contract. */
    method SubmitAllGameStatsToDB(uuid: Uuid, env: Env, ghost which: Game) returns (ghost sent: map<Name, GameData>)
      requires Valid() && which in games && which.uuid == uuid && HaveAnswers(which.players)
      modifies db, which
      ensures which.Value() == AllMarked(old(which.Value()))
      ensures db.accounts == old(db.accounts) && db.base == old(db.base)
      ensures sent == Unsubmitted(old(which.Value())) && HaveAnswers(sent)
      ensures db.rows == RowsWritten(old(db.rows), sent, env)
      ensures db.ledger == LedgerWritten(old(db.ledger), old(db.rows), sent, env)
    {
      var game := GetGameById(uuid);
      assert game == which;
      NothingDone(game.Value());
      hide ApplyGame, OutcomeOf, RowsWritten, LedgerWritten, MarkedBut, SentBut;
      var results := game.players;
      sent := map[];
      WritingNothing(db.rows, db.ledger, env);
      var todo := results.Keys;
      while todo != {}
        invariant todo <= results.Keys
        invariant game.players == MarkedBut(results, todo)
        invariant game.online == old(game.online)
        invariant sent == SentBut(results, todo) && HaveAnswers(sent)
        invariant db.accounts == old(db.accounts) && db.base == old(db.base)
        invariant db.rows == RowsWritten(old(db.rows), sent, env)
        invariant db.ledger == LedgerWritten(old(db.ledger), old(db.rows), sent, env)
      {
        var n :| n in todo;
        OneMoreDone(results, todo, n);
        todo := todo - {n};
        assert results[n].submitted ==> results[n].(submitted := true) == results[n];
        if !results[n].submitted {
          game.MarkUserResultsAsSubmittedToDB(n);
          var _ := db.SubmitGameStatistics(results[n], n, n !in env.failing, env.undefined);
          RowsWithOneMore(old(db.rows), sent, n, results[n], env);
          LedgerWithOneMore(old(db.rows), old(db.ledger), sent, n, results[n], env);
          sent := sent[n := results[n]];
        }
      }
      NothingLeft(old(game.Value()));
    }

    /** The `erase` of the game that equals `game`; ids are unique. */
    method Erase(game: Game)
      requires Valid() && game in games
      modifies this
      ensures Valid() && forall g :: g in games <==> g in old(games) && g != game
    {
      var i := 0;
      while games[i] != game
        invariant 0 <= i < |games|
        invariant forall j :: 0 <= j < i ==> games[j] != game
        invariant games == old(games)
        decreases |games| - i
      {
        i := i + 1;
      }
      assert games == games[..i] + [game] + games[i + 1..];
      games := games[..i] + games[i + 1..];
    }

    /** The part of `removePlayerFromGame` that updates the database at once when a player leaves during
        the game. */
    method SubmitLeaver(game: Game, user: Name, env: Env) returns (failed: bool, ghost sent: map<Name, GameData>)
      requires user in game.players && HaveAnswers(game.players)
      modifies game, db
      ensures game.Value() == if FinishedAt(old(game.Value()), env.readings.second) then old(game.Value())
                              else Marked(old(game.Value()), user)
      ensures sent == (if FinishedAt(old(game.Value()), env.readings.second) then map[]
                       else map[user := game.players[user]]) && HaveAnswers(sent)
      ensures db.accounts == old(db.accounts) && db.base == old(db.base)
      ensures db.rows == RowsWritten(old(db.rows), sent, env)
      ensures db.ledger == LedgerWritten(old(db.ledger), old(db.rows), sent, env)
      ensures failed <==> !FinishedAt(old(game.Value()), env.readings.second) && (user in env.failing || user !in old(db.rows))
    {
      hide FinishedAt, ApplyGame, OutcomeOf, RowsWritten, LedgerWritten;
      WritingNothing(db.rows, db.ledger, env);
      failed, sent := false, map[];
      var finished := game.IsFinished(env.readings.second);
      if !finished {
        game.MarkUserResultsAsSubmittedToDB(user);
        var d := game.players[user];
        var ok := db.SubmitGameStatistics(d, user, user !in env.failing, env.undefined);
        failed := !ok;
        RowsWithOneMore(old(db.rows), sent, user, d, env);
        LedgerWithOneMore(old(db.rows), old(db.ledger), sent, user, d, env);
        assert sent[user := d] == map[user := d];
        sent := map[user := d];
      }
    }

    /** `failed` reports that the leaver's own result could not be written; `sent` is what was submitted. */
    method RemovePlayerFromGame(game: Game, user: Name, env: Env)
      returns (failed: bool, ghost sent: map<Name, GameData>)
      requires Valid() && game in games && user in game.players && HaveAnswers(game.players)
      modifies this, game, db
      ensures Valid() && game.Value() == Leave(old(game.Value()), user, env.readings)
      ensures forall g :: g in games <==> g in old(games) && (g != game || game.online != [])
      ensures db.accounts == old(db.accounts) && db.base == old(db.base)
      ensures sent == Submissions(old(game.Value()), user, env.readings) && HaveAnswers(sent)
      ensures db.rows == RowsWritten(old(db.rows), sent, env)
      ensures db.ledger == LedgerWritten(old(db.ledger), old(db.rows), sent, env)
      ensures failed <==> !FinishedAt(old(game.Value()), env.readings.second) && (user in env.failing || user !in old(db.rows))
    {
      ghost var before := game.Value();
      ghost var own := AfterOwnResult(before, user, env.readings);
      SubmissionsInTwo(before, user, env.readings);
      hide FinishedAt, RowsWritten, LedgerWritten, HaveAnswers, Submissions, Unsubmitted, AllMarked;

      var finished := game.IsFinished(env.readings.first);
      if !finished {
        game.PunishPlayer(user);
      }
      game.RemovePlayer(user);
      FinishedDependsOnSchedule(before, game.Value(), env.readings.second);
      failed, sent := SubmitLeaver(game, user, env);
      assert game.Value() == own;
      FinishedDependsOnSchedule(before, own, env.readings.third);
      finished := game.IsFinished(env.readings.third);
      ghost var rest: map<Name, GameData> := map[];
      WritingNothing(db.rows, db.ledger, env);
      if finished {
        rest := SubmitAllGameStatsToDB(game.uuid, env, game);
      }
      WritingInTwo(old(db.rows), old(db.ledger), sent, rest, env);
      sent := rest + sent;
      if game.online == [] {
        Erase(game);
      }
    }

    /** The overload that takes the id of the game. */
    method RemovePlayerFromGameById(uuid: Uuid, user: Name, env: Env)
      returns (failed: bool, ghost sent: map<Name, GameData>)
      requires Valid() && uuid in Value() && user in Value()[uuid].players && HaveAnswers(Value()[uuid].players)
      modifies this, games, db
      ensures Valid()
      ensures var after := Leave(old(Value())[uuid], user, env.readings);
              Value() == if after.online == [] then old(Value()) - {uuid} else old(Value())[uuid := after]
      ensures forall g :: g in games ==> g in old(games)
      ensures forall g :: g in old(games) && g.uuid in Value() ==> g in games
      ensures db.accounts == old(db.accounts) && db.base == old(db.base)
      ensures sent == Submissions(old(Value())[uuid], user, env.readings) && HaveAnswers(sent)
      ensures db.rows == RowsWritten(old(db.rows), sent, env)
      ensures db.ledger == LedgerWritten(old(db.ledger), old(db.rows), sent, env)
      ensures failed <==> !FinishedAt(old(Value())[uuid], env.readings.second) && (user in env.failing || user !in old(db.rows))
    {
      hide Leave, Submissions, RowsWritten, LedgerWritten, FinishedAt, HaveAnswers;
      var game := GetGameById(uuid);
      failed, sent := RemovePlayerFromGame(game, user, env);
      OneGameChanged(game);
    }

    lemma Lookup(game: Game)
      requires Valid() && game in games
      ensures game.uuid in Value() && Value()[game.uuid] == game.Value()
    {
    }

    lemma Registered(uuid: Uuid)
      requires Valid() && uuid in Value()
      ensures exists g :: g in games && g.uuid == uuid
    {
    }

    /** A change to one game changes one value of the list. */
    twostate lemma OneGameChanged(game: Game)
      requires old(Valid()) && Valid() && game in old(games)
      requires (forall g :: g in games ==> g in old(games)) && (forall g :: g in old(games) && g != game ==> g in games)
      requires forall g :: g in old(games) && g != game ==> unchanged(g)
      ensures Value() == if game in games then old(Value())[game.uuid := game.Value()] else old(Value()) - {game.uuid}
    {
    }
  }

  /** The records of a game when all but those in `todo` have been dealt with, and what was sent. */
  ghost function MarkedBut(results: map<Name, GameData>, todo: set<Name>): map<Name, GameData> {
    map n | n in results :: if n in todo then results[n] else results[n].(submitted := true)
  }

  ghost function SentBut(results: map<Name, GameData>, todo: set<Name>): map<Name, GameData> {
    map n | n in results && n !in todo && !results[n].submitted :: results[n]
  }

  lemma NothingDone(g: GameValue)
    ensures MarkedBut(g.players, g.players.Keys) == g.players && SentBut(g.players, g.players.Keys) == map[]
  {
  }

  lemma NothingLeft(g: GameValue)
    ensures g.(players := MarkedBut(g.players, {})) == AllMarked(g) && SentBut(g.players, {}) == Unsubmitted(g)
  {
  }

  lemma OneMoreDone(results: map<Name, GameData>, todo: set<Name>, n: Name)
    requires n in todo && n in results
    ensures n in MarkedBut(results, todo) && MarkedBut(results, todo)[n] == results[n] && n !in SentBut(results, todo)
    ensures MarkedBut(results, todo - {n}) == MarkedBut(results, todo)[n := results[n].(submitted := true)]
    ensures SentBut(results, todo - {n}) ==
            if results[n].submitted then SentBut(results, todo) else SentBut(results, todo)[n := results[n]]
  {
  }

  /** Writing some records and then others is writing them all. */
  lemma WritingInTwo(rows: map<Name, Row>, ledger: map<Name, seq<Outcome>>,
                     first: map<Name, GameData>, rest: map<Name, GameData>, env: Env)
    requires HaveAnswers(first) && HaveAnswers(rest) && first.Keys !! rest.Keys
    ensures RowsWritten(RowsWritten(rows, first, env), rest, env) == RowsWritten(rows, rest + first, env)
    ensures LedgerWritten(LedgerWritten(ledger, rows, first, env), RowsWritten(rows, first, env), rest, env)
            == LedgerWritten(ledger, rows, rest + first, env)
  {
    hide ApplyGame, OutcomeOf;
  }

  /** The leaver's own result and the others' are sent one after the other. */
  lemma SubmissionsInTwo(g: GameValue, user: Name, r: Readings)
    requires user in g.players && HaveAnswers(g.players)
    ensures var own := AfterOwnResult(g, user, r);
            var first: map<Name, GameData> := if FinishedAt(g, r.second) then map[] else map[user := own.players[user]];
            var rest: map<Name, GameData> := if FinishedAt(g, r.third) then Unsubmitted(own) else map[];
            && own.players.Keys == g.players.Keys && HaveAnswers(own.players)
            && Submissions(g, user, r) == rest + first && first.Keys !! rest.Keys
            && HaveAnswers(first) && HaveAnswers(rest) && HaveAnswers(rest + first)
  {
    OwnResultEffects(g, user, r);
    hide FinishedAt;
  }

  lemma WritingNothing(rows: map<Name, Row>, ledger: map<Name, seq<Outcome>>, env: Env)
    ensures RowsWritten(rows, map[], env) == rows && LedgerWritten(ledger, rows, map[], env) == ledger
  {
  }

  /** The state of the tables after one more record has been written. */
  lemma RowsWithOneMore(rows: map<Name, Row>, sent: map<Name, GameData>, n: Name, d: GameData, env: Env)
    requires HaveAnswers(sent) && d.answers != [] && n !in sent
    ensures var (before, after) := (RowsWritten(rows, sent, env), RowsWritten(rows, sent[n := d], env));
            after == if n in before && n !in env.failing
                     then before[n := ApplyGame(before[n], OutcomeOf(d, env.undefined))] else before
  {
    hide ApplyGame, OutcomeOf;
  }

  lemma LedgerWithOneMore(rows: map<Name, Row>, ledger: map<Name, seq<Outcome>>, sent: map<Name, GameData>,
                          n: Name, d: GameData, env: Env)
    requires HaveAnswers(sent) && d.answers != [] && n !in sent
    ensures var (before, after) := (LedgerWritten(ledger, rows, sent, env), LedgerWritten(ledger, rows, sent[n := d], env));
            after == if n in before && n in rows && n !in env.failing
                     then before[n := before[n] + [OutcomeOf(d, env.undefined)]] else before
  {
    hide OutcomeOf;
  }
}
