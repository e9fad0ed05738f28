/** Whole runs of one email verification (`requestHandlers/verificationHandler.cpp`). */
module VerificationRuns {
  import opened Names
  import opened Sessions

  /** A well-formed submission of a code, or a request to send a new one. */
  datatype Attempt =
    | Submission(code: string, deletes: bool)
    | Resend(code: string, emailed: bool)

  function Try(h: Hub, s: Session, a: Attempt): Session {
    if !s.Verification? then s
    else
      match a
      case Submission(code, deletes) => DoSubmitCode(h, s, code, deletes).1
      case Resend(code, emailed) => DoResend(h, s, code, emailed).1
  }

  function Outcome(h: Hub, s: Session, attempts: seq<Attempt>): Session {
    if attempts == [] then s
    else Try(h, Outcome(h, s, attempts[..|attempts| - 1]), attempts[|attempts| - 1])
  }

  /** The code that was emailed last, before the given attempts' end. */
  function CurrentCode(first: string, attempts: seq<Attempt>): string {
    if attempts == [] then first
    else
      match attempts[|attempts| - 1]
      case Resend(code, true) => code
      case _ => CurrentCode(first, attempts[..|attempts| - 1])
  }

  function Submissions(attempts: seq<Attempt>): nat {
    if attempts == [] then 0
    else Submissions(attempts[..|attempts| - 1]) + (if attempts[|attempts| - 1].Submission? then 1 else 0)
  }

  /** Attempt `i` is one of the first five submissions and gives the code emailed last before it. */
  ghost predicate Hit(first: string, attempts: seq<Attempt>, i: nat) {
    && i < |attempts| && attempts[i].Submission?
    && Submissions(attempts[..i]) < 5
    && attempts[i].code == CurrentCode(first, attempts[..i])
  }

  lemma HitPrefix(first: string, attempts: seq<Attempt>)
    requires attempts != []
    ensures forall i: nat :: i < |attempts| - 1 ==>
              (Hit(first, attempts, i) <==> Hit(first, attempts[..|attempts| - 1], i))
  {
    var init := attempts[..|attempts| - 1];
    assert forall i: nat :: i < |init| ==> init[..i] == attempts[..i];
  }

  /**
   From a fresh verification, whatever mix of submissions and resends: the session reaches the menu
   exactly when one of its first five submissions gives the code emailed last; it is back at the login
   screen exactly when five submissions were made and none did; otherwise it still verifies, has counted
   every submission, and expects the code emailed last.  So it is decided within five submissions.
   */
  lemma {:induction false} VerificationOutcome(h: Hub, user: Name, email: string, first: string, attempts: seq<Attempt>)
    ensures var end := Outcome(h, Verification(user, email, first, 0), attempts);
            && (end == Menu(user) <==> exists i :: Hit(first, attempts, i))
            && (end == Login <==> Submissions(attempts) >= 5 && !exists i :: Hit(first, attempts, i))
            && (end.Verification? ==>
                end == Verification(user, email, CurrentCode(first, attempts), Submissions(attempts)))
            && (end == Menu(user) || end == Login || end.Verification?)
  {
    if attempts != [] {
      var last := |attempts| - 1;
      var init := attempts[..last];
      VerificationOutcome(h, user, email, first, init);
      HitPrefix(first, attempts);
      if i: nat :| Hit(first, init, i) {
        assert Hit(first, attempts, i);
      }
      if i: nat :| Hit(first, attempts, i) {
        assert i == last || Hit(first, init, i);
      }
      assert Hit(first, attempts, last) <==>
             attempts[last].Submission? && Submissions(init) < 5
             && attempts[last].code == CurrentCode(first, init);
    }
  }
}
