/**
 The clock arithmetic of a game (`managers/game.cpp`).

 A game cuts time into slots of `timePerQuestion + 5` seconds, one per question; a question takes
 answers while its slot is younger than `timePerQuestion`, then its answer is released and the
 remaining five seconds are a break.  All the expressions below are the ones the server evaluates,
 in 32-bit unsigned arithmetic; `e` is the number of whole seconds since the game started.
 */
module TimeWindows {
  import opened Widths
  import opened Quotients

  /** Steady-clock ticks in one second. */
  const TICKS: int := 1_000_000_000

  /** `duration_cast<seconds>(now - start)`; a steady clock never reads less than `start`. */
  function Elapsed(start: nat, now: nat): nat {
    if now < start then 0 else (now - start) / TICKS
  }

  /** The slot that second `e` lies in, the first second of slot `i`, and the place of `e` in its slot. */
  function Index(slot: nat, e: nat): nat
    requires slot > 0
  {
    e / slot
  }

  function Begin(slot: nat, i: nat): nat {
    i * slot
  }

  function Position(slot: nat, e: nat): nat
    requires slot > 0
  {
    e % slot
  }

  /** `_timePerQuestion + 5`. */
  function Slot(limit: u32): u32 {
    Wrap(limit + 5)
  }

  /** `isFinished`; the product is taken in 64 bits and cannot wrap. */
  predicate Finished(limit: u32, questions: nat, e: nat) {
    e >= Begin(Slot(limit), questions)
  }

  /** `currentQuestionIndex`. */
  function CurrentIndex(limit: u32, e: nat): u32
    requires Slot(limit) != 0
  {
    Wrap(Index(Slot(limit), e))
  }

  /** `currQuestionReleaseTime`. */
  function ReleaseTime(limit: u32, i: nat): u32 {
    Wrap(Begin(Slot(limit), i + 1) - 5)
  }

  /** What `Game::submitAnswer` decides before it goes to sleep. */
  datatype Verdict =
    | InvalidAnswer
    | WrongQuestion
    | AlreadyReleased
    | Accepted(release: u32, answerTime: u32)

  function Judge(limit: u32, e: nat, choice: u32, question: u32): Verdict
    requires Slot(limit) != 0
  {
    var current := CurrentIndex(limit, e);
    if choice > 4 then InvalidAnswer
    else if question != current then WrongQuestion
    else
      var release := ReleaseTime(limit, current);
      if e >= release then AlreadyReleased
      else Accepted(release, Wrap(limit - (release - e)))
  }

  // ----- slots -----

  lemma SlotOf(slot: nat, e: nat)
    requires slot > 0
    ensures e == Begin(slot, Index(slot, e)) + Position(slot, e)
    ensures 0 <= Position(slot, e) < slot
    ensures Index(slot, e) <= e
  {
    Split(e, slot);
    MulMonotone(1, slot, Index(slot, e));
  }

  /** A second lies in slot `i` exactly when it is in the `slot` seconds from its beginning. */
  lemma InSlotIff(slot: nat, e: nat, i: nat)
    requires slot > 0
    ensures Index(slot, e) == i <==> Begin(slot, i) <= e < Begin(slot, i) + slot
  {
    Split(e, slot);
    if Begin(slot, i) <= e < Begin(slot, i) + slot {
      Unique(e, slot, i);
    }
  }

  lemma NextSlot(slot: nat, i: nat)
    ensures Begin(slot, i + 1) == Begin(slot, i) + slot
  {
  }

  /** Slot `i` is among the first `n` exactly when it ends by the beginning of slot `n`. */
  lemma SlotOrder(slot: nat, i: nat, n: nat)
    requires slot > 0
    ensures i < n <==> Begin(slot, i) + slot <= Begin(slot, n)
  {
    if i < n {
      MulMonotone(i + 1, n, slot);
    } else {
      MulMonotone(n, i, slot);
    }
  }

  /** A moment is before slot `n` exactly when its own slot is. */
  lemma BeforeSlotIff(slot: nat, e: nat, n: nat)
    requires slot > 0
    ensures Index(slot, e) < n <==> e < Begin(slot, n)
  {
    SlotOf(slot, e);
    SlotOrder(slot, Index(slot, e), n);
    if n <= Index(slot, e) {
      MulMonotone(n, Index(slot, e), slot);
    }
  }

  // ----- the guarantees -----

  /** An unfinished game never makes the server divide by zero, whatever the 32-bit time limit. */
  lemma UnfinishedMeansPositiveSlot(limit: u32, questions: nat, e: nat)
    requires !Finished(limit, questions, e)
    ensures Slot(limit) != 0
  {
  }

  lemma ElapsedMonotone(start: nat, now: nat, later: nat)
    requires now <= later
    ensures Elapsed(start, now) <= Elapsed(start, later)
  {
    if start <= now {
      DivMonotone(now - start, later - start, TICKS);
    }
  }

  /** The game's clock shows second `s`, or a later one, from `s` whole seconds after the start on; only the
      distance from the start matters. */
  lemma ElapsedReaches(start: nat, now: nat, s: nat, shift: nat)
    ensures s <= Elapsed(start, now) <==> s == 0 || start + s * 1_000_000_000 <= now
    ensures Elapsed(start + shift, now + shift) == Elapsed(start, now)
  {
    if start <= now {
      var e := Elapsed(start, now);
      Split(now - start, TICKS);
      if s <= e {
        MulMonotone(s, e, TICKS);
      } else {
        MulMonotone(e + 1, s, TICKS);
      }
    }
  }

  /**
   Question `q` takes answers exactly while `e` is in the first `limit` seconds of its slot, provided
   that window still fits in 32 bits; a window that does not fit takes none.  The answer is released
   at the end of the window, and the recorded time is the position in the slot.
   */
  lemma AcceptsExactlyInWindow(limit: u32, e: nat, choice: u32, q: u32)
    requires limit + 5 < U32
    ensures var slot, verdict := limit + 5, Judge(limit, e, choice, q);
            && (verdict.Accepted? <==>
                choice <= 4 && Begin(slot, q) <= e < Begin(slot, q) + limit < U32)
            && (verdict.Accepted? ==>
                && verdict.release == Begin(slot, q) + limit
                && verdict.answerTime == Position(slot, e) < limit)
  {
    hide Index, Begin, Position;
    var slot := limit + 5;
    SlotOf(slot, e);
    InSlotIff(slot, e, q);
    NextSlot(slot, q);
    WrappedEnd(Begin(slot, q), limit, e);
  }

  /** The end of a window that does not fit in 32 bits wraps to a moment that is already past. */
  lemma WrappedEnd(begin: nat, limit: u32, e: nat)
    ensures begin + limit < U32 ==> Wrap(begin + limit) == begin + limit
    ensures begin <= e && begin + limit >= U32 ==> Wrap(begin + limit) <= e
    ensures begin <= e < begin + limit < U32 ==> Wrap(limit - (begin + limit - e)) == e - begin
  {
  }

  /**
   For every 32-bit time limit, even one whose slot length wraps, an accepted answer is recorded
   with the position in the slot, which is below the time limit, and before its release.
   */
  lemma AcceptedTimeInSlot(limit: u32, e: nat, choice: u32, q: u32)
    requires limit >= 5 && Slot(limit) != 0
    requires Judge(limit, e, choice, q).Accepted?
    ensures choice <= 4
    ensures q == Index(Slot(limit), e)
    ensures Judge(limit, e, choice, q).answerTime == Position(Slot(limit), e) < limit
    ensures e < Judge(limit, e, choice, q).release
  {
    hide Index, Begin, Position;
    SlotOf(Slot(limit), e);
    if limit + 5 < U32 {
      AcceptsExactlyInWindow(limit, e, choice, q);
      InSlotIff(limit + 5, e, q);
    } else {
      AcceptedInWrappedSlot(limit, e, choice, q);
    }
  }

  lemma AcceptedInWrappedSlot(limit: u32, e: nat, choice: u32, q: u32)
    requires limit + 5 >= U32 && Slot(limit) != 0
    requires Judge(limit, e, choice, q).Accepted?
    ensures q == Index(Slot(limit), e)
    ensures Judge(limit, e, choice, q).answerTime == Position(Slot(limit), e)
  {
    hide Index, Begin, Position;
    var slot := Slot(limit);
    SlotOf(slot, e);
    assert e < U32;
    assert q == Index(slot, e);
    NextSlot(slot, q);
    WrappedSlot(limit, Begin(slot, q), slot, e);
  }

  /** The case of a slot length that wraps to 1..4 seconds. */
  lemma WrappedSlot(limit: u32, begin: nat, slot: int, e: nat)
    requires 1 <= slot == limit + 5 - U32 <= 4 && begin <= e
    requires e < Wrap(begin + slot - 5) && begin < U32
    ensures begin + slot < 5
    ensures Wrap(limit - (Wrap(begin + slot - 5) - e)) == Wrap(e - begin)
  {
  }

  /** No two questions take answers at the same moment. */
  lemma WindowsAreDisjoint(limit: u32, e: nat, c1: u32, q1: u32, c2: u32, q2: u32)
    requires Slot(limit) != 0
    requires Judge(limit, e, c1, q1).Accepted? && Judge(limit, e, c2, q2).Accepted?
    ensures q1 == q2
  {
  }

  /**
   While the game is unfinished and its whole schedule fits in 32 bits, the current question exists
   and takes answers exactly in the first `limit` seconds of its slot.
   */
  lemma UnfinishedSchedule(limit: u32, questions: nat, e: nat, choice: u32, q: u32)
    requires limit + 5 < U32 && Begin(limit + 5, questions) <= U32
    requires !Finished(limit, questions, e)
    ensures CurrentIndex(limit, e) == Index(limit + 5, e) < questions
    ensures Judge(limit, e, choice, q).Accepted? <==>
            choice <= 4 && q == Index(limit + 5, e) && Position(limit + 5, e) < limit
  {
    hide Index, Begin, Position;
    var slot := limit + 5;
    var i := Index(slot, e);
    BeforeSlotIff(slot, e, questions);
    SlotOf(slot, e);
    SlotOrder(slot, i, questions);
    InSlotIff(slot, e, q);
    AcceptsExactlyInWindow(limit, e, choice, q);
  }

  /** An accepted answer falls due at least five seconds before such a game finishes. */
  lemma AcceptedIsDueBeforeTheEnd(limit: u32, questions: nat, e: nat, choice: u32, q: u32, due: nat)
    requires limit + 5 < U32 && Begin(limit + 5, questions) <= U32
    requires !Finished(limit, questions, e)
    requires Judge(limit, e, choice, q).Accepted?
    requires due < Judge(limit, e, choice, q).release + 5
    ensures !Finished(limit, questions, due)
  {
    hide Index, Begin, Position;
    AcceptsExactlyInWindow(limit, e, choice, q);
    InSlotIff(limit + 5, e, q);
    BeforeSlotIff(limit + 5, e, questions);
    SlotOrder(limit + 5, q, questions);
  }

  /**
   `submitAnswer` is guarded by one reading of the clock and judged by a second, later one.  An
   accepted answer names an existing question if and only if the game is still unfinished at the
   second reading.
   */
  lemma AcceptedIndexInRange(limit: u32, questions: nat, e: nat, choice: u32, q: u32)
    requires limit >= 5 && Slot(limit) != 0
    requires Judge(limit, e, choice, q).Accepted?
    ensures q < questions <==> !Finished(limit, questions, e)
  {
    hide Index, Begin, Position;
    AcceptedTimeInSlot(limit, e, choice, q);
    BeforeSlotIff(Slot(limit), e, questions);
  }

  /** The slot number has come round 2^32, into the range of the questions again. */
  predicate IndexWraps(limit: u32, questions: nat, e: nat)
    requires Slot(limit) != 0
  {
    Index(Slot(limit), e) >= U32 && CurrentIndex(limit, e) < questions
  }

  /**
   The same holds of `getQuestion`, which reads the clock twice as well, up to the slot number coming
   round; that takes longer than 2^32 seconds.
   */
  lemma CurrentIndexInRange(limit: u32, questions: nat, e: nat)
    requires Slot(limit) != 0
    ensures CurrentIndex(limit, e) < questions <==> !Finished(limit, questions, e) || IndexWraps(limit, questions, e)
    ensures e < U32 ==> !IndexWraps(limit, questions, e)
  {
    hide Index, Begin, Position;
    SlotOf(Slot(limit), e);
    BeforeSlotIff(Slot(limit), e, questions);
  }

  /**
   The crossing does happen: two questions of ten seconds, guarded one second before the end and
   judged at the end, accept an answer to a third question that does not exist.
   */
  lemma GuardCanGoStale()
    ensures !Finished(10, 2, 29) && Finished(10, 2, 30)
    ensures Judge(10, 30, 0, 2).Accepted? && CurrentIndex(10, 30) == 2
  {
  }

  /** An answer recorded before its own slot ends is recorded in an unfinished game. */
  lemma TimelyMeansUnfinished(limit: u32, questions: nat, q: u32, woken: nat)
    requires q < questions && woken < Begin(Slot(limit), q + 1)
    ensures !Finished(limit, questions, woken)
  {
    MulMonotone(q + 1, questions, Slot(limit));
  }
}
