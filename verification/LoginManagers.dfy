/** The list of logged-in users (`managers/loginManager.cpp`). */
module LoginManagers {
  import opened Widths
  import opened Names
  import opened Statistics
  import opened Sessions
  import opened Databases

  class LoginManager {
    const db: Database
    var logged: seq<Name>

    constructor (db: Database)
      ensures this.db == db && logged == []
    {
      this.db, logged := db, [];
    }

    /** `readable` says whether the database can be asked about the user. */
    method Login(name: Name, password: string, readable: bool) returns (ok: bool)
      modifies this
      ensures ok <==> readable && name in db.accounts && db.accounts[name].password == password && name !in old(logged)
      ensures logged == if ok then old(logged) + [name] else old(logged)
    {
      var exist := db.DoesUserExist(name);
      if !readable || !exist {
        return false;
      }
      var matches := db.DoesPasswordMatch(name, password);
      if matches != Some(true) {
        return false;
      }
      if name in logged {
        return false;
      }
      logged := logged + [name];
      ok := true;
    }

    method Logout(name: Name)
      modifies this
      ensures logged == Without(old(logged), name)
    {
      logged := Without(logged, name);
    }

    /** `valid` is the verdict of the credential checks, and `stored` the fate of the insertion.  A login that
        fails leaves the account behind. */
    method Signup(name: Name, password: string, email: string, valid: bool, stored: bool, readable: bool)
      returns (ok: bool)
      modifies this, db
      ensures !valid || !stored || name in old(db.accounts) || (exists n :: n in old(db.accounts) && old(db.accounts)[n].email == email)
              ==> !ok && unchanged(this) && db.accounts == old(db.accounts) && db.rows == old(db.rows)
                  && db.base == old(db.base) && db.ledger == old(db.ledger)
      ensures valid && stored && name !in old(db.accounts) && (forall n :: n in old(db.accounts) ==> old(db.accounts)[n].email != email)
              ==>
              && db.accounts == old(db.accounts)[name := Account(password, email)]
              && db.rows == old(db.rows)[name := EMPTY_ROW]
              && db.base == old(db.base)[name := EMPTY_ROW] && db.ledger == old(db.ledger)[name := []]
              && (ok <==> readable && name !in old(logged))
              && logged == if ok then old(logged) + [name] else old(logged)
    {
      if !valid {
        return false;
      }
      var added := db.AddUser(name, Account(password, email), stored);
      if !added {
        return false;
      }
      ok := Login(name, password, readable);
    }
  }
}
