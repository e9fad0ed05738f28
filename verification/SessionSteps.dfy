/** How each handler keeps the invariant of the server. */
module SessionSteps {
  import opened Names
  import opened Statistics
  import opened Games
  import opened Sessions
  import opened SessionInvariant

  lemma GamesLater(games: map<Uuid, GameValue>, now: nat, later: nat)
    requires GamesInv(games, now) && now <= later
    ensures GamesInv(games, later)
  {
    forall u | u in games
      ensures GameInv(games[u], later)
    {
      LaterInv(games[u], now, later);
    }
  }

  // ----- the tables -----

  predicate Verifying(clients: Clients, c: Client) {
    c in clients && clients[c].Verification?
  }

  /** The pending accounts keep their sessions when client `c` moves between two other kinds. */
  lemma TablesKept(h: Hub, clients: Clients, pending: set<Name>, c: Client, after: Clients)
    requires TablesInv(h, clients, pending) && OthersKept(clients, after, c)
    requires Verifying(clients, c) == Verifying(after, c)
    requires Verifying(after, c) ==> after[c].user == clients[c].user
    ensures TablesInv(h, after, pending)
  {
    hide History;
    forall n | n in pending
      ensures exists d :: IsSessionOf(after, d, n) && after[d].Verification?
    {
      var d :| IsSessionOf(clients, d, n) && clients[d].Verification?;
      assert IsSessionOf(after, d, n);
    }
  }

  /** Client `c` stops verifying, and its account is pending no more. */
  lemma TablesSettled(h: Hub, clients: Clients, pending: set<Name>, c: Client, after: Clients)
    requires TablesInv(h, clients, pending) && OthersKept(clients, after, c)
    requires Verifying(clients, c) && !Verifying(after, c)
    requires forall d :: Verifying(clients, d) && clients[d].user == clients[c].user ==> d == c
    ensures TablesInv(h, after, pending - {clients[c].user})
  {
    hide History;
    var user := clients[c].user;
    forall n | n in pending - {user}
      ensures exists d :: IsSessionOf(after, d, n) && after[d].Verification?
    {
      var d :| IsSessionOf(clients, d, n) && clients[d].Verification?;
      assert IsSessionOf(after, d, n);
    }
    forall d | Verifying(after, d)
      ensures after[d].user in pending - {user}
    {
      assert Verifying(clients, d);
    }
  }

  /** A new account, whose session is verifying it. */
  lemma TablesGrow(h: Hub, clients: Clients, pending: set<Name>, c: Client, s: Session, account: Account)
    requires TablesInv(h, clients, pending) && c in clients && !Verifying(clients, c)
    requires s.Verification? && s.user !in h.accounts
    ensures TablesInv(Added(h, s.user, account), clients[c := s], pending + {s.user})
  {
    assert History(EMPTY_ROW, []) == EMPTY_ROW;
    hide History;
    PendingGrows(clients, pending, c, s, clients[c := s]);
    assert s.user !in pending;
  }

  lemma PendingGrows(clients: Clients, pending: set<Name>, c: Client, s: Session, after: Clients)
    requires forall n :: n in pending ==> exists d :: IsSessionOf(clients, d, n) && clients[d].Verification?
    requires c in clients && !Verifying(clients, c) && s.Verification? && after == clients[c := s]
    ensures forall n :: n in pending + {s.user} ==> exists d :: IsSessionOf(after, d, n) && after[d].Verification?
  {
    forall n | n in pending + {s.user}
      ensures exists d :: IsSessionOf(after, d, n) && after[d].Verification?
    {
      if n == s.user {
        assert IsSessionOf(after, c, n);
      } else {
        var d :| IsSessionOf(clients, d, n) && clients[d].Verification?;
        assert IsSessionOf(after, d, n);
      }
    }
  }

  lemma TablesShrink(h: Hub, clients: Clients, pending: set<Name>, user: Name)
    requires TablesInv(h, clients, pending) && user !in pending
    ensures TablesInv(Removed(h, user), clients, pending)
  {
    hide History;
  }

  // ----- steps that leave the shared state alone -----

  /** Client `c` gets another handler of the same user, and no seat is given up. */
  ghost predicate HarmlessSwitch(w: World, c: Client, s: Session) {
    && c in w.clients && Named(w.clients[c]) && Named(s) && s.user == w.clients[c].user
    && SessionOk(w.hub.rooms, w.hub.games, s)
    && (s.Admin? ==> s == w.clients[c])
    && (s.Verification? <==> w.clients[c].Verification?)
    && (forall n, u :: Seated(w.clients[c], n, u) && u in w.hub.rooms ==> Seated(s, n, u))
  }

  lemma SwitchKeepsInv(w: World, c: Client, s: Session, later: nat)
    requires Inv(w) && HarmlessSwitch(w, c, s) && w.now <= later
    ensures Inv(w.(clients := w.clients[c := s], now := later))
  {
    hide UsersInv, TablesInv, GamesInv, GamesMatch, SessionOk, RoomOk;
    var after := w.clients[c := s];
    UsersStay(w.hub.logged, w.hub.accounts.Keys, w.clients, c, s);
    GamesLater(w.hub.games, w.now, later);
    SeatsStillTaken(w.hub.rooms, w.clients, w.hub.rooms, after, c);
    TablesKept(w.hub, w.clients, w.pending, c, after);
  }

  /** The right code: the account is no longer pending. */
  lemma VerifiedKeepsInv(w: World, c: Client, later: nat)
    requires Inv(w) && c in w.clients && w.clients[c].Verification? && w.now <= later
    ensures var user := w.clients[c].user;
            Inv(w.(clients := w.clients[c := Menu(user)], now := later, pending := w.pending - {user}))
  {
    OneVerifier(w, c);
    hide UsersInv, SeatsInv, TablesInv, GamesInv, GamesMatch;
    var user := w.clients[c].user;
    var after := w.clients[c := Menu(user)];
    UsersStay(w.hub.logged, w.hub.accounts.Keys, w.clients, c, Menu(user));
    GamesLater(w.hub.games, w.now, later);
    SeatsUntouched(w.hub.rooms, w.hub.games, w.clients, c, after);
    TablesSettled(w.hub, w.clients, w.pending, c, after);
  }

  lemma OneVerifier(w: World, c: Client)
    requires Inv(w) && Verifying(w.clients, c)
    ensures forall d :: Verifying(w.clients, d) && w.clients[d].user == w.clients[c].user ==> d == c
  {
    forall d | Verifying(w.clients, d) && w.clients[d].user == w.clients[c].user
      ensures d == c
    {
      assert SameUser(w.clients[d], w.clients[c]);
    }
  }

  lemma ConnectKeepsInv(w: World, c: Client)
    requires Inv(w) && c !in w.clients
    ensures Inv(w.(clients := w.clients[c := Login]))
  {
    hide UsersInv, SeatsInv, TablesInv, GamesInv, GamesMatch;
    var after := w.clients[c := Login];
    UsersUntouched(w.hub.logged, w.hub.accounts.Keys, w.clients, c, after);
    SeatsUntouched(w.hub.rooms, w.hub.games, w.clients, c, after);
    TablesKept(w.hub, w.clients, w.pending, c, after);
  }

  lemma LoginScreenKeepsInv(w: World, c: Client, after: Clients, later: nat)
    requires Inv(w) && c in w.clients && w.clients[c].Login? && w.now <= later
    requires after == w.clients || after == w.clients - {c}
    ensures Inv(w.(clients := after, now := later))
  {
    hide UsersInv, SeatsInv, TablesInv, GamesInv, GamesMatch;
    UsersUntouched(w.hub.logged, w.hub.accounts.Keys, w.clients, c, after);
    GamesLater(w.hub.games, w.now, later);
    SeatsUntouched(w.hub.rooms, w.hub.games, w.clients, c, after);
    TablesKept(w.hub, w.clients, w.pending, c, after);
  }

  // ----- logging in and out -----

  lemma LogInKeepsInv(w: World, c: Client, name: Name, later: nat)
    requires Inv(w) && c in w.clients && w.clients[c].Login? && w.now <= later
    requires name in w.hub.accounts && name !in w.hub.logged
    ensures Inv(w.(hub := LoggedIn(w.hub, name), clients := w.clients[c := Menu(name)], now := later))
  {
    hide UsersInv, SeatsInv, GamesInv, GamesMatch;
    var after := w.clients[c := Menu(name)];
    UserArrives(w.hub.logged, w.hub.accounts.Keys, w.clients, c, Menu(name), w.hub.accounts.Keys);
    GamesLater(w.hub.games, w.now, later);
    SeatsUntouched(w.hub.rooms, w.hub.games, w.clients, c, after);
    TablesKept(w.hub, w.clients, w.pending, c, after);
  }

  /** A user without a seat leaves. */
  lemma LogOutKeepsInv(w: World, c: Client, after: Clients, later: nat)
    requires Inv(w) && c in w.clients && w.clients[c].Menu? && w.now <= later
    requires after == w.clients[c := Login] || after == w.clients - {c}
    ensures Inv(w.(hub := LoggedOut(w.hub, w.clients[c].user), clients := after, now := later))
  {
    hide UsersInv, SeatsInv, GamesInv, GamesMatch;
    UserLeaves(w.hub.logged, w.hub.accounts.Keys, w.clients, c, after, w.hub.accounts.Keys);
    GamesLater(w.hub.games, w.now, later);
    SeatsUntouched(w.hub.rooms, w.hub.games, w.clients, c, after);
    TablesKept(w.hub, w.clients, w.pending, c, after);
  }

  /** The login inside `signup` is never refused once the account could be added. */
  lemma SignUpLogsIn(w: World, name: Name, password: string, email: string)
    requires Inv(w) && CanAdd(w.hub, name, email)
    ensures CanLogIn(Added(w.hub, name, Account(password, email)), name, password)
  {
    LoggedHaveAccounts(w);
  }

  /** So signing up leads on to verification if and only if the account is stored, the database can be read
      for the login, and the email goes out. */
  lemma SignUpSucceedsIff(w: World, req: Request, deletes: bool)
    requires Inv(w) && req.SignUp?
    ensures DoSignUp(w.hub, req, deletes).1 ==
            if req.valid && CanAdd(w.hub, req.name, req.email) && req.stored && req.readable && req.emailed
            then Verification(req.name, req.email, req.code, 0) else Login
  {
    hide Inv, CanLogIn;
    if CanAdd(w.hub, req.name, req.email) {
      SignUpLogsIn(w, req.name, req.password, req.email);
    }
  }

  lemma LoggedHaveAccounts(w: World)
    requires Inv(w)
    ensures forall n :: n in w.hub.logged ==> n in w.hub.accounts
  {
    forall n | n in w.hub.logged
      ensures n in w.hub.accounts
    {
      var c :| IsSessionOf(w.clients, c, n);
    }
  }

  /**
   When the email cannot be sent, signing up leaves the shared state as it was if and only if nothing was
   stored, or the login got as far as the email and the database deletes the account again.
   */
  lemma FailedSignUpLeavesNothingIff(w: World, req: Request, deletes: bool)
    requires Inv(w) && req.SignUp? && !req.emailed
    ensures DoSignUp(w.hub, req, deletes).1 == Login
    ensures DoSignUp(w.hub, req, deletes).0 == w.hub <==>
            !req.valid || !CanAdd(w.hub, req.name, req.email) || !req.stored || (req.readable && deletes)
  {
    hide Inv;
    if req.valid && CanAdd(w.hub, req.name, req.email) && req.stored {
      var account := Account(req.password, req.email);
      SignUpLogsIn(w, req.name, req.password, req.email);
      LoggedHaveAccounts(w);
      if req.readable && deletes {
        TablesOfInv(w);
        UndoSignUp(w.hub, req.name, account, w.clients, w.pending);
      } else {
        assert req.name in DoSignUp(w.hub, req, deletes).0.accounts;
      }
    }
  }

  lemma TablesOfInv(w: World)
    requires Inv(w)
    ensures TablesInv(w.hub, w.clients, w.pending)
  {
  }

  lemma UndoSignUp(h: Hub, name: Name, account: Account, clients: Clients, pending: set<Name>)
    requires TablesInv(h, clients, pending) && name !in h.accounts && name !in h.logged
    ensures LoggedOut(Removed(LoggedIn(Added(h, name, account), name), name), name) == h
  {
    hide History;
    WithoutLast(h.logged, name);
    var undone := LoggedOut(Removed(LoggedIn(Added(h, name, account), name), name), name);
    assert undone.accounts == h.accounts;
    assert undone.rows == h.rows && undone.base == h.base && undone.ledger == h.ledger;
  }

  lemma {:induction false} WithoutLast(names: seq<Name>, gone: Name)
    requires gone !in names
    ensures Without(names + [gone], gone) == names
  {
    if names != [] {
      WithoutLast(names[1..], gone);
      assert (names + [gone])[1..] == names[1..] + [gone];
    }
  }

  lemma SignUpKeepsInv(w: World, c: Client, s: Session, account: Account, later: nat)
    requires Inv(w) && c in w.clients && w.clients[c].Login? && w.now <= later
    requires s.Verification? && s.tries == 0 && CanAdd(w.hub, s.user, account.email)
    ensures Inv(World(LoggedIn(Added(w.hub, s.user, account), s.user),
                      w.clients[c := s], later, w.pending + {s.user}))
  {
    SignUpLogsIn(w, s.user, account.password, account.email);
    hide UsersInv, SeatsInv, GamesInv, GamesMatch;
    var after := w.clients[c := s];
    var added := Added(w.hub, s.user, account);
    assert added.accounts.Keys == w.hub.accounts.Keys + {s.user};
    UserArrives(w.hub.logged, w.hub.accounts.Keys, w.clients, c, s, added.accounts.Keys);
    GamesLater(w.hub.games, w.now, later);
    SeatsUntouched(w.hub.rooms, w.hub.games, w.clients, c, after);
    TablesGrow(w.hub, w.clients, w.pending, c, s, account);
    TablesIgnoreLogins(added, LoggedIn(added, s.user), after, w.pending + {s.user});
  }

  lemma TablesIgnoreLogins(h: Hub, other: Hub, clients: Clients, pending: set<Name>)
    requires TablesInv(h, clients, pending)
    requires other == h.(logged := other.logged, rooms := other.rooms, games := other.games)
    ensures TablesInv(other, clients, pending)
  {
  }

  /** Giving up a verification deletes the account with everything about it. */
  lemma AbortKeepsInv(w: World, c: Client, after: Clients, later: nat)
    requires Inv(w) && c in w.clients && w.clients[c].Verification? && w.now <= later
    requires after == w.clients[c := Login] || after == w.clients - {c}
    ensures var user := w.clients[c].user;
            Inv(World(Abort(w.hub, user, true), after, later, w.pending - {user}))
  {
    OneVerifier(w, c);
    assert OthersKept(w.clients, after, c);
    hide UsersInv, SeatsInv, TablesInv, GamesInv, GamesMatch, OthersKept, Without;
    var user := w.clients[c].user;
    assert Removed(w.hub, user).accounts.Keys == w.hub.accounts.Keys - {user};
    UserLeaves(w.hub.logged, w.hub.accounts.Keys, w.clients, c, after, w.hub.accounts.Keys - {user});
    GamesLater(w.hub.games, w.now, later);
    SeatsUntouched(w.hub.rooms, w.hub.games, w.clients, c, after);
    TablesSettled(w.hub, w.clients, w.pending, c, after);
    TablesShrink(w.hub, after, w.pending - {user}, user);
    TablesIgnoreLogins(Removed(w.hub, user), Abort(w.hub, user, true), after, w.pending - {user});
  }

  /** An unverified account without a session to verify it. */
  ghost predicate Lingers(w: World, user: Name) {
    && user in w.hub.accounts && user in w.pending
    && forall c :: IsSessionOf(w.clients, c, user) ==> !w.clients[c].Verification?
  }

  lemma LingeringBreaksInv(w: World, user: Name)
    requires Lingers(w, user)
    ensures !TablesInv(w.hub, w.clients, w.pending) && !Inv(w)
  {
    hide History;
  }

  /** When the database does not delete the account of a verification that is given up, it lingers. */
  lemma FailedAbortLingers(w: World, c: Client, after: World)
    requires Inv(w) && Verifying(w.clients, c) && OthersKept(w.clients, after.clients, c)
    requires c in after.clients ==> after.clients[c].Login?
    requires after.pending == PendingAfter(w, after.hub, w.clients[c], Login)
    requires after.hub == Abort(w.hub, w.clients[c].user, false)
    ensures Lingers(after, w.clients[c].user) && !Inv(after)
  {
    hide GamesInv, GamesMatch, SeatsInv, History, Without;
    var user := w.clients[c].user;
    OneVerifier(w, c);
    assert user in w.pending && user in after.hub.accounts;
    forall d | IsSessionOf(after.clients, d, user)
      ensures !after.clients[d].Verification?
    {
      assert d != c && after.clients[d] == w.clients[d];
      assert !Verifying(w.clients, d);
    }
    LingeringBreaksInv(after, user);
  }

  /** So does a new one when its login cannot be read, or its email cannot be sent and it is not deleted. */
  lemma NewAccountLingers(w: World, c: Client, name: Name, account: Account, after: World)
    requires Inv(w) && c in w.clients && w.clients[c].Login? && name !in w.hub.accounts
    requires after.clients == w.clients[c := Login]
    requires after.pending == PendingAfter(w, after.hub, Login, Login)
    requires var added := Added(w.hub, name, account);
             after.hub == added || after.hub == Abort(LoggedIn(added, name), name, false)
    ensures Lingers(after, name) && !Inv(after)
  {
    hide GamesInv, GamesMatch, SeatsInv, TablesInv, Without;
    assert name in after.hub.accounts && name in after.pending;
    LingeringBreaksInv(after, name);
  }
}
