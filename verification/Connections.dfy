/**
 The thread that serves one connection (`handleClient` in `utils/communicator/communicator.cpp`), with the
 steps of all the other connections free to run whenever it waits: for a request, in the sleep of an
 accepted answer, or for the reply to be sent.
 */
module Connections {
  import opened Sessions
  import opened SessionInvariant
  import opened ServerSafety
  import opened ServerRuns

  /** What `getRequestInfo` comes back with: a request, an EXIT (read, or made up because no valid request id
      could be), or the exception of a request that breaks off. */
  datatype Arrival = Asks(req: Request) | Quits | Breaks

  /**
   One round of the loop.  The others' steps run `before` the request arrives, `during` a sleep and, when
   the reply cannot be sent, until that is noticed (`late`).
   */
  datatype Round = Round(before: seq<Step>, arrival: Arrival, env: Env,
                         during: seq<Step>, wakes: nat, sent: bool, late: seq<Step>, lastEnv: Env)

  predicate Ends(r: Round) {
    r.arrival.Quits? || (r.arrival.Asks? && !r.sent)
  }

  /** How the loop is left: not yet, by the end of the connection, or because something that was looked up is
      not there: a missing game, or the rest of a request, throws what nothing catches; the behaviour of an
      index past the last question is undefined. */
  datatype Ending = Running | Over | Crashed

  /** The request breaks off, or its handler looks up what is not there. */
  ghost predicate Crashes(w: World, c: Client, r: Round) {
    || r.arrival.Breaks?
    || (r.arrival.Asks? && Enabled(w, Serve(c, r.arrival.req, r.env)) && !Answerable(w, Serve(c, r.arrival.req, r.env)))
  }

  /** A step of this thread, provided that the thread is where it can take it. */
  ghost predicate Behaves(w: World, st: Step)
    requires Inv(w) && Ready(w, st)
  {
    Surroundings(w, st) && (Defined(w, st) ==> Admissible(w, st))
  }

  /** Steps of other connections only. */
  ghost predicate Others(w: World, steps: seq<Step>, c: Client)
    requires Inv(w)
  {
    Allowed(w, steps) && forall st :: st in steps ==> st.c != c
  }

  lemma {:induction false} OthersKeepSession(w: World, steps: seq<Step>, c: Client)
    requires Inv(w) && Others(w, steps, c)
    ensures Exits(steps, c) == 0
    ensures c in w.clients ==> c in End(w, steps).clients && End(w, steps).clients[c] == w.clients[c]
    decreases |steps|
  {
    hide Inv, Admissible, Handle, HandleExit;
    if steps != [] {
      StepKeepsInvIff(w, steps[0]);
      OthersKeepSession(After(w, steps[0]), steps[1..], c);
    }
  }

  lemma BehavingStep(w: World, st: Step)
    requires Inv(w) && Ready(w, st) && Behaves(w, st) && Defined(w, st)
    ensures Inv(After(w, st))
    ensures Allowed(w, [st]) && End(w, [st]) == After(w, st)
  {
    hide Inv, Admissible, After, Defined, Answerable;
    StepKeepsInvIff(w, st);
    assert Allowed(After(w, st), [st][1..]);
  }

  /** Waking up and disconnecting never look up what is not there. */
  lemma OwnStepsAreDefined(w: World, st: Step)
    requires Inv(w) && Enabled(w, st) && !st.Serve?
    ensures Defined(w, st)
  {
    hide Inv;
    HeldReferencesAreValid(w, st);
  }

  lemma {:induction false} AllowedThen(w: World, steps: seq<Step>, more: seq<Step>, c: Client)
    requires Inv(w) && Allowed(w, steps) && Allowed(End(w, steps), more)
    ensures Allowed(w, steps + more) && End(w, steps + more) == End(End(w, steps), more)
    ensures Exits(steps + more, c) == Exits(steps, c) + Exits(more, c)
    decreases |steps|
  {
    hide Inv, Admissible, After, Enabled, Answerable;
    if steps == [] {
      assert steps + more == more;
    } else {
      StepKeepsInvIff(w, steps[0]);
      AllowedThen(After(w, steps[0]), steps[1..], more, c);
      assert (steps + more)[1..] == steps[1..] + more;
    }
  }

  // ----- one round -----

  ghost predicate FitsSleep(w: World, c: Client, r: Round)
    requires Inv(w) && c in w.clients
  {
    Awake(w.clients[c]) ||
    (Others(w, r.during, c) && (OthersKeepSession(w, r.during, c); Behaves(End(w, r.during), WakeUp(c, r.wakes))))
  }

  ghost function Woke(w: World, c: Client, r: Round): (after: World)
    requires Inv(w) && c in w.clients && FitsSleep(w, c, r)
    ensures Inv(after) && c in after.clients && Awake(after.clients[c])
  {
    if Awake(w.clients[c]) then w
    else
      OthersKeepSession(w, r.during, c);
      OwnStepsAreDefined(End(w, r.during), WakeUp(c, r.wakes));
      BehavingStep(End(w, r.during), WakeUp(c, r.wakes));
      After(End(w, r.during), WakeUp(c, r.wakes))
  }

  ghost predicate FitsFailure(w: World, c: Client, r: Round)
    requires Inv(w) && c in w.clients && Awake(w.clients[c])
  {
    r.sent ||
    (Others(w, r.late, c) && (OthersKeepSession(w, r.late, c); Behaves(End(w, r.late), Disconnect(c, r.lastEnv))))
  }

  /** Whatever the round needs of its surroundings, at the moments when it needs it. */
  ghost predicate Fits(w: World, c: Client, rounds: seq<Round>)
    requires Inv(w) && c in w.clients && Awake(w.clients[c])
    decreases |rounds|
  {
    rounds == [] ||
    var r := rounds[0];
    Others(w, r.before, c) &&
    (OthersKeepSession(w, r.before, c);
     var arrived := End(w, r.before);
     match r.arrival
     case Breaks => true
     case Quits => Behaves(arrived, Disconnect(c, r.env))
     case Asks(req) =>
       Behaves(arrived, Serve(c, req, r.env)) &&
       (Defined(arrived, Serve(c, req, r.env)) ==>
          (BehavingStep(arrived, Serve(c, req, r.env));
           var served := After(arrived, Serve(c, req, r.env));
           FitsSleep(served, c, r) && FitsFailure(Woke(served, c, r), c, r) &&
           (r.sent ==> Fits(Woke(served, c, r), c, rounds[1..])))))
  }

  // ----- the thread -----

  /** The history of a run up to `end`. */
  ghost predicate Ran(w: World, steps: seq<Step>, end: World, c: Client, exits: nat)
    requires Inv(w)
  {
    Allowed(w, steps) && End(w, steps) == end && Exits(steps, c) == exits
  }

  method Wait(ghost w: World, now: World, more: seq<Step>, c: Client, ghost steps: seq<Step>)
    returns (after: World, ghost all: seq<Step>)
    requires Inv(w) && Inv(now) && Ran(w, steps, now, c, 0) && Others(now, more, c)
    ensures Ran(w, all, after, c, 0) && after == End(now, more) && all == steps + more
  {
    hide Inv, Admissible, After, Enabled;
    after := now;
    var i := 0;
    while i < |more|
      invariant 0 <= i <= |more| && Inv(after)
      invariant Allowed(after, more[i..]) && End(after, more[i..]) == End(now, more)
    {
      StepKeepsInvIff(after, more[i]);
      assert more[i..][1..] == more[i + 1..];
      after := After(after, more[i]);
      i := i + 1;
    }
    AllowedThen(w, steps, more, c);
    OthersKeepSession(now, more, c);
    all := steps + more;
  }

  method Take(ghost w: World, now: World, st: Step, c: Client, ghost steps: seq<Step>)
    returns (after: World, ghost all: seq<Step>)
    requires Inv(w) && Inv(now) && Ran(w, steps, now, c, 0)
    requires Ready(now, st) && Behaves(now, st) && Defined(now, st) && st.c == c && !st.Connect?
    ensures after == After(now, st) && Inv(after)
    ensures c in after.clients <==> !st.Disconnect?
    ensures Ran(w, all, after, c, if st.Disconnect? then 1 else 0) && all == steps + [st]
  {
    hide Inv, Admissible, After, Defined;
    BehavingStep(now, st);
    ClientsOfStep(now, st, c);
    AllowedThen(w, steps, [st], c);
    assert Exits([st], c) == (if st.Disconnect? then 1 else 0) + Exits([], c);
    after := After(now, st);
    all := steps + [st];
  }

  /** The last step was the EXIT of connection `c`, and whoever had logged in there is in no list any more. */
  ghost predicate ClosedBy(w: World, steps: seq<Step>, c: Client, end: World)
    requires Inv(w)
  {
    steps != [] && steps[|steps| - 1].Disconnect? && steps[|steps| - 1].c == c && Allowed(w, steps[..|steps| - 1]) &&
    var last := End(w, steps[..|steps| - 1]);
    c in last.clients && (Named(last.clients[c]) ==> Gone(end.hub, last.clients[c].user))
  }

  method Exit(ghost w: World, now: World, env: Env, c: Client, ghost steps: seq<Step>)
    returns (after: World, ghost all: seq<Step>)
    requires Inv(w) && Inv(now) && Ran(w, steps, now, c, 0)
    requires Ready(now, Disconnect(c, env)) && Behaves(now, Disconnect(c, env))
    ensures Inv(after) && Ran(w, all, after, c, 1) && c !in after.clients && ClosedBy(w, all, c, after)
    ensures all == steps + [Disconnect(c, env)]
  {
    hide Inv, After, Gone, Surroundings, Defined;
    OwnStepsAreDefined(now, Disconnect(c, env));
    after, all := Take(w, now, Disconnect(c, env), c, steps);
    if Named(now.clients[c]) {
      DisconnectIsCleanIff(now, c, env);
    }
    assert all[..|all| - 1] == steps;
  }

  /** The round is handled and the loop goes on. */
  predicate GoesOn(r: Round) {
    r.arrival.Asks? && r.sent
  }

  /** The steps of a round, those of the others included; `slept` says whether its answer was accepted. */
  function RoundSteps(c: Client, r: Round, slept: bool): seq<Step> {
    match r.arrival
    case Breaks => r.before
    case Quits => r.before + [Disconnect(c, r.env)]
    case Asks(req) => r.before + RequestSteps(c, r, slept) + ReplySteps(c, r)
  }

  function ReplySteps(c: Client, r: Round): seq<Step> {
    if r.sent then [] else r.late + [Disconnect(c, r.lastEnv)]
  }

  function RequestSteps(c: Client, r: Round, slept: bool): seq<Step>
    requires r.arrival.Asks?
  {
    [Serve(c, r.arrival.req, r.env)] + (if slept then r.during + [WakeUp(c, r.wakes)] else [])
  }

  function AllSteps(c: Client, rounds: seq<Round>, slept: seq<bool>): seq<Step>
    requires |slept| == |rounds|
  {
    if rounds == [] then []
    else AllSteps(c, rounds[..|rounds| - 1], slept[..|rounds| - 1]) + RoundSteps(c, rounds[|rounds| - 1], slept[|rounds| - 1])
  }

  lemma NothingRan(w: World, c: Client)
    requires Inv(w)
    ensures Ran(w, [], w, c, 0)
  {
  }

  lemma NoRounds(c: Client, rounds: seq<Round>)
    ensures AllSteps(c, rounds[..0], []) == []
  {
  }

  lemma OneMoreRound(c: Client, rounds: seq<Round>, i: nat, slept: seq<bool>, more: bool)
    requires i < |rounds| && |slept| == i
    ensures AllSteps(c, rounds[..i + 1], slept + [more]) == AllSteps(c, rounds[..i], slept) + RoundSteps(c, rounds[i], more)
  {
    assert rounds[..i + 1][..i] == rounds[..i] && (slept + [more])[..i] == slept;
  }

  /** A request is handled, with the sleep that an accepted answer takes. */
  method HandleRequest(ghost w: World, now: World, c: Client, r: Round, ghost steps: seq<Step>)
    returns (end: World, ghost all: seq<Step>, ghost slept: bool)
    requires Inv(w) && Inv(now) && Ran(w, steps, now, c, 0) && r.arrival.Asks?
    requires var st := Serve(c, r.arrival.req, r.env);
             && Ready(now, st) && Behaves(now, st) && Defined(now, st)
             && (BehavingStep(now, st); ClientsOfStep(now, st, c); FitsSleep(After(now, st), c, r))
    ensures Inv(end) && Ran(w, all, end, c, 0) && c in end.clients && Awake(end.clients[c])
    ensures var st := Serve(c, r.arrival.req, r.env);
            Inv(After(now, st)) && c in After(now, st).clients && FitsSleep(After(now, st), c, r)
            && end == Woke(After(now, st), c, r)
    ensures all == steps + RequestSteps(c, r, slept)
  {
    hide Inv, After, Surroundings, Defined, Ran;
    var st := Serve(c, r.arrival.req, r.env);
    end, all := Take(w, now, st, c, steps);
    slept := !Awake(end.clients[c]);
    if !Awake(end.clients[c]) {
      OthersKeepSession(end, r.during, c);
      end, all := Wait(w, end, r.during, c, all);
      OwnStepsAreDefined(end, WakeUp(c, r.wakes));
      end, all := Take(w, end, WakeUp(c, r.wakes), c, all);
    }
    assert end == Woke(After(now, st), c, r);
  }

  /** The reply is sent, or else the connection ends. */
  method Reply(ghost w: World, now: World, c: Client, r: Round, ghost steps: seq<Step>)
    returns (end: World, ghost all: seq<Step>)
    requires Inv(w) && Inv(now) && Ran(w, steps, now, c, 0)
    requires c in now.clients && Awake(now.clients[c]) && FitsFailure(now, c, r)
    ensures Inv(end) && Ran(w, all, end, c, if r.sent then 0 else 1) && all == steps + ReplySteps(c, r)
    ensures r.sent ==> end == now
    ensures !r.sent ==> c !in end.clients && ClosedBy(w, all, c, end)
  {
    hide Inv, After, Surroundings, ClosedBy, Defined, Ran, Behaves;
    end, all := now, steps;
    if !r.sent {
      OthersKeepSession(end, r.late, c);
      end, all := Wait(w, end, r.late, c, all);
      end, all := Exit(w, end, r.lastEnv, c, all);
    }
  }

  /** One turn of the loop. */
  method HandleRound(ghost w: World, now: World, c: Client, r: Round, ghost rest: seq<Round>, ghost steps: seq<Step>)
    returns (end: World, ending: Ending, ghost all: seq<Step>, ghost slept: bool)
    requires Inv(w) && Inv(now) && Ran(w, steps, now, c, 0)
    requires c in now.clients && Awake(now.clients[c]) && rest != [] && rest[0] == r && Fits(now, c, rest)
    ensures Inv(end) && Ran(w, all, end, c, if ending.Over? then 1 else 0) && (c in end.clients <==> !ending.Over?)
    ensures all == steps + if ending.Crashed? then r.before else RoundSteps(c, r, slept)
    ensures match ending
            case Running => GoesOn(r) && Awake(end.clients[c]) && Fits(end, c, rest[1..])
            case Over => Ends(r) && ClosedBy(w, all, c, end)
            case Crashed => Crashes(end, c, r)
  {
    hide Inv, After, Surroundings, ClosedBy, Defined, Answerable, Ran, Behaves, FitsSleep, FitsFailure, RequestSteps, ReplySteps;
    slept := false;
    OthersKeepSession(now, r.before, c);
    end, all := Wait(w, now, r.before, c, steps);
    if r.arrival.Breaks? {
      ending := Crashed;
      return;
    }
    if r.arrival.Quits? {
      end, all := Exit(w, end, r.env, c, all);
      ending := Over;
      return;
    }
    var st := Serve(c, r.arrival.req, r.env);
    BehavesMeansEnabled(end, st);
    DefinedIff(end, st);
    if !Defined(end, st) {
      ending := Crashed;
      return;
    }
    end, all, slept := HandleRequest(w, end, c, r, all);
    end, all := Reply(w, end, c, r, all);
    InARow(steps, r.before, RequestSteps(c, r, slept), ReplySteps(c, r));
    ending := if r.sent then Running else Over;
  }

  lemma InARow(a: seq<Step>, b: seq<Step>, c: seq<Step>, d: seq<Step>)
    ensures a + b + c + d == a + (b + c + d)
  {
  }

  lemma BehavesMeansEnabled(w: World, st: Step)
    requires Inv(w) && Ready(w, st) && Behaves(w, st)
    ensures Enabled(w, st)
  {
  }

  /**
   Whatever the client sends and wherever sending fails, the loop takes exactly the steps its rounds ask
   for, one request after the other, waking up where an answer was accepted, and only steps that its
   connection is ready for.  It is over exactly after a round in which an EXIT was read or a reply could not
   be sent; by then exactly one EXIT has been handled, and the user is in no list of the server any more.
   It crashes exactly at the first round whose request breaks off or cannot be answered, with no EXIT
   handled: all the requests before it were served, and so could be answered.
   */
  method HandleClient(w: World, c: Client, rounds: seq<Round>)
    returns (end: World, ending: Ending, handled: nat, ghost steps: seq<Step>, ghost slept: seq<bool>)
    requires Inv(w) && c in w.clients && w.clients[c].Login? && Fits(w, c, rounds)
    ensures Ran(w, steps, end, c, if ending.Over? then 1 else 0)
    ensures handled <= |rounds| && forall j :: 0 <= j < handled ==> GoesOn(rounds[j])
    ensures c in end.clients <==> !ending.Over?
    ensures match ending
            case Running => handled == |rounds| && |slept| == handled && steps == AllSteps(c, rounds, slept)
            case Over =>
              && handled < |rounds| && Ends(rounds[handled]) && ClosedBy(w, steps, c, end)
              && |slept| == handled + 1 && steps == AllSteps(c, rounds[..handled + 1], slept)
            case Crashed =>
              && handled < |rounds| && Crashes(end, c, rounds[handled])
              && |slept| == handled && steps == AllSteps(c, rounds[..handled], slept) + rounds[handled].before
  {
    hide Inv, Fits, ClosedBy, Crashes, AllSteps, RoundSteps, Allowed;
    end, ending, handled, steps, slept := w, Running, 0, [], [];
    NothingRan(w, c);
    NoRounds(c, rounds);
    while handled < |rounds|
      invariant handled <= |rounds| && Inv(end) && ending.Running?
      invariant Ran(w, steps, end, c, 0)
      invariant c in end.clients && Awake(end.clients[c]) && Fits(end, c, rounds[handled..])
      invariant forall j :: 0 <= j < handled ==> GoesOn(rounds[j])
      invariant |slept| == handled && steps == AllSteps(c, rounds[..handled], slept)
    {
      assert rounds[handled..][0] == rounds[handled] && rounds[handled..][1..] == rounds[handled + 1..];
      ghost var sleeps;
      end, ending, steps, sleeps := HandleRound(w, end, c, rounds[handled], rounds[handled..], steps);
      if ending.Crashed? {
        return;
      }
      OneMoreRound(c, rounds, handled, slept, sleeps);
      slept := slept + [sleeps];
      if ending.Over? {
        return;
      }
      handled := handled + 1;
    }
    assert rounds[..|rounds|] == rounds;
  }
}
