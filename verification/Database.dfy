/** The tables behind the managers (`utils/databaseAccess/sqliteDatabase.cpp`). */
module Databases {
  import opened Widths
  import opened Names
  import opened Scores
  import opened Statistics
  import opened Sessions

  /** What `getUserStatistics` returns: a stored average of zero is reported as absent. */
  datatype UserStatistics = UserStatistics(average: Option<u32>, correct: u32, wrong: u32, totalAnswers: u32,
                                           games: u32, score: u32)

  class Database {
    var accounts: map<Name, Account>
    var rows: map<Name, Row>
    ghost var base: map<Name, Row>
    ghost var ledger: map<Name, seq<Outcome>>

    constructor (accounts: map<Name, Account>, rows: map<Name, Row>)
      requires rows.Keys == accounts.Keys
      ensures this.accounts == accounts && this.rows == rows
      ensures base == rows && ledger == map n | n in accounts :: []
    {
      this.accounts, this.rows := accounts, rows;
      base, ledger := rows, map n | n in accounts :: [];
    }

    method DoesUserExist(name: Name) returns (exist: bool)
      ensures exist <==> name in accounts
    {
      exist := name in accounts;
    }

    method DoesPasswordMatch(name: Name, password: string) returns (match': Option<bool>)
      ensures match' == if name in accounts then Some(accounts[name].password == password) else None
    {
      match' := if name in accounts then Some(accounts[name].password == password) else None;
    }

    method DoesEmailExist(email: string) returns (exist: bool)
      ensures exist <==> exists n :: n in accounts && accounts[n].email == email
    {
      exist := exists n :: n in accounts && accounts[n].email == email;
    }

    /** Inserts the user and an empty row of statistics, unless the name or the email is taken, or the
        transaction fails and is rolled back. */
    method AddUser(name: Name, account: Account, writable: bool) returns (ok: bool)
      modifies this
      ensures ok <==> writable && name !in old(accounts) && forall n :: n in old(accounts) ==> old(accounts)[n].email != account.email
      ensures ok ==> accounts == old(accounts)[name := account] && rows == old(rows)[name := EMPTY_ROW]
                     && base == old(base)[name := EMPTY_ROW] && ledger == old(ledger)[name := []]
      ensures !ok ==> accounts == old(accounts) && rows == old(rows) && base == old(base) && ledger == old(ledger)
    {
      var exist := DoesUserExist(name);
      if exist {
        return false;
      }
      var taken := DoesEmailExist(account.email);
      if taken {
        return false;
      }
      var before := (accounts, rows);
      accounts := accounts[name := account];
      rows := rows[name := EMPTY_ROW];
      if !writable {
        accounts, rows := before.0, before.1;
        return false;
      }
      base, ledger := base[name := EMPTY_ROW], ledger[name := []];
      ok := true;
    }

    /** Deletes the user, if there is one and the database does it; the statistics go with him. */
    method RemoveUser(name: Name, deletes: bool) returns (ok: bool)
      modifies this
      ensures ok <==> name in old(accounts) && deletes
      ensures ok ==> accounts == old(accounts) - {name} && rows == old(rows) - {name}
                     && base == old(base) - {name} && ledger == old(ledger) - {name}
      ensures !ok ==> unchanged(this)
    {
      if name !in accounts || !deletes {
        return false;
      }
      accounts := accounts - {name};
      rows := rows - {name};
      base, ledger := base - {name}, ledger - {name};
      ok := true;
    }

    method GetUserStatistics(name: Name) returns (stats: Option<UserStatistics>)
      ensures name !in rows ==> stats.None?
      ensures name in rows ==>
                var row := rows[name];
                stats == Some(UserStatistics(if row.average > 0 then Some(row.average) else None,
                                             row.correct, row.wrong, TotalAnswers(row), row.games, row.score))
    {
      if name !in rows {
        return None;
      }
      var row := rows[name];
      var average: Option<u32> := None;
      if row.average > 0 {
        average := Some(row.average);
      }
      stats := Some(UserStatistics(average, row.correct, row.wrong, Wrap(row.correct + row.wrong), row.games, row.score));
    }

    /** The update of the running average, in 32 bits; `fault` is what a division by zero gives. */
    static method AverageAfter(stats: UserStatistics, average: nat, n: nat, fault: u32) returns (next: u32)
      requires stats.average.Some? ==> stats.average.value > 0
      ensures next == NextAverage(if stats.average.Some? then stats.average.value else 0, stats.totalAnswers, average, n, fault)
    {
      hide Wrap;
      next := Wrap(average);
      if stats.average.Some? {
        var sum := Wrap(Wrap(stats.average.value * stats.totalAnswers) + Wrap(average * n));
        var size := Wrap(stats.totalAnswers + n);
        next := if size == 0 then fault else Wrap(sum / size);
      }
    }

    /** Adds a game to the user's row.  `writable` says whether the database takes the update. */
    method SubmitGameStatistics(d: GameData, name: Name, writable: bool, undefined: int) returns (ok: bool)
      requires d.answers != []
      modifies this
      ensures accounts == old(accounts) && base == old(base)
      ensures ok <==> name in old(rows) && writable
      ensures ok ==> rows == old(rows)[name := ApplyGame(old(rows)[name], OutcomeOf(d, undefined))]
      ensures ok ==>
                var (before, after) := (old(rows)[name], rows[name]);
                && after.games == Wrap(before.games + 1)
                && after.correct == Wrap(before.correct + Correct(d.answers))
                && after.wrong == Wrap(before.wrong + Incorrect(d.answers))
                && after.score == if before.score + ScoreChange(d, undefined) < 0 then 0
                                  else Wrap(before.score + ScoreChange(d, undefined))
      ensures !ok ==> rows == old(rows) && ledger == old(ledger)
      ensures ok && name in old(ledger) ==>
                ledger == old(ledger)[name := old(ledger)[name] + [OutcomeOf(d, undefined)]]
      ensures ok && name !in old(ledger) ==> ledger == old(ledger)
    {
      hide NextAverage, Wrap;
      var stats := GetUserStatistics(name);
      if stats.None? {
        return false;
      }
      CountsAddUp(d.answers);
      var correct, wrong, average := Correct(d.answers), Wrong(d.answers), AverageTime(d.answers);
      var nextAverage := AverageAfter(stats.value, average, correct + wrong, Wrap(undefined));
      var change := ScoreChange(d, undefined);
      var score: u32 := 0;
      if stats.value.score + change >= 0 {
        score := Wrap(stats.value.score + change);
      }
      if !writable {
        return false;
      }
      rows := rows[name := Row(nextAverage, Wrap(stats.value.correct + correct), Wrap(stats.value.wrong + wrong),
                               Wrap(stats.value.games + 1), score)];
      if name in ledger {
        ledger := ledger[name := ledger[name] + [OutcomeOf(d, undefined)]];
      }
      ok := true;
    }
  }
}
