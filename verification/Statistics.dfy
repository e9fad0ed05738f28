/**
 A user's row of the `statistics` table and what one submitted game does to it
 (`submitGameStatistics` in `utils/databaseAccess/sqliteDatabase.cpp`, `managers/userStatistics.h`).
 */
module Statistics {
  import opened Widths
  import opened Quotients
  import opened Scores

  /** Stored columns; each is an `unsigned int`. */
  datatype Row = Row(average: u32, correct: u32, wrong: u32, games: u32, score: u32)

  const EMPTY_ROW := Row(0, 0, 0, 0, 0)

  /** What `submitGameStatistics` reads off a player's record.  `fault` is the value of a division by zero. */
  datatype Result = Result(correct: nat, wrong: nat, average: nat, change: int, fault: u32)

  type Outcome = o: Result | o.correct + o.wrong > 0 witness Result(1, 0, 0, 0, 0)

  /** `undefined` is the value of the score conversion, or of a division, when it has no defined one. */
  function OutcomeOf(d: GameData, undefined: int): Outcome
    requires d.answers != []
  {
    CountsAddUp(d.answers);
    Result(Correct(d.answers), Wrong(d.answers), AverageTime(d.answers), ScoreChange(d, undefined), Wrap(undefined))
  }

  /** `numOfTotalAnswers` is derived, not stored. */
  function TotalAnswers(row: Row): u32 {
    Wrap(row.correct + row.wrong)
  }

  /** The floor of the mean of two averages, weighted with their numbers of answers. */
  function WeightedMean(stored: nat, answers: nat, average: nat, n: nat): nat
    requires n > 0
  {
    (stored * answers + average * n) / (answers + n)
  }

  /** The quotient (x + y) / size as the server's 32-bit expression computes it. */
  function MachineQuotient(x: nat, y: nat, size: nat, fault: u32): u32 {
    if Wrap(size) == 0 then fault else Wrap(Wrap(Wrap(x) + Wrap(y)) / Wrap(size))
  }

  /** The new running average: a stored zero means "no average yet". */
  function NextAverage(stored: nat, answers: nat, average: nat, n: nat, fault: u32): u32 {
    if stored > 0 then MachineQuotient(stored * answers, average * n, answers + n, fault) else Wrap(average)
  }

  function NextScore(score: u32, change: int): u32 {
    if score + change >= 0 then Wrap(score + change) else 0
  }

  /** `submitGameStatistics` on the row it finds. */
  function ApplyGame(row: Row, o: Outcome): Row {
    Row(NextAverage(row.average, TotalAnswers(row), o.average, o.correct + o.wrong, o.fault),
        Wrap(row.correct + o.correct),
        Wrap(row.wrong + o.wrong),
        Wrap(row.games + 1),
        NextScore(row.score, o.change))
  }

  /** The columns one by one; histories are reasoned about through these, with `ApplyGame` hidden. */
  lemma Counters(row: Row, o: Outcome)
    ensures ApplyGame(row, o).games == Wrap(row.games + 1)
    ensures ApplyGame(row, o).correct == Wrap(row.correct + o.correct)
    ensures ApplyGame(row, o).wrong == Wrap(row.wrong + o.wrong)
  {
  }

  lemma AverageAndScore(row: Row, o: Outcome)
    ensures ApplyGame(row, o).average ==
            NextAverage(row.average, TotalAnswers(row), o.average, o.correct + o.wrong, o.fault)
    ensures ApplyGame(row, o).score == NextScore(row.score, o.change)
  {
  }

  /** The row after a history of submitted games. */
  function History(start: Row, outcomes: seq<Outcome>): Row {
    if outcomes == [] then start
    else ApplyGame(History(start, outcomes[..|outcomes| - 1]), outcomes[|outcomes| - 1])
  }

  lemma HistoryExtends(start: Row, outcomes: seq<Outcome>, o: Outcome)
    ensures History(start, outcomes + [o]) == ApplyGame(History(start, outcomes), o)
  {
    assert (outcomes + [o])[..|outcomes|] == outcomes;
  }

  // ----- conservation -----

  function CorrectTotal(outcomes: seq<Outcome>): nat {
    if outcomes == [] then 0 else CorrectTotal(outcomes[..|outcomes| - 1]) + outcomes[|outcomes| - 1].correct
  }

  function WrongTotal(outcomes: seq<Outcome>): nat {
    if outcomes == [] then 0 else WrongTotal(outcomes[..|outcomes| - 1]) + outcomes[|outcomes| - 1].wrong
  }

  function AnswerTotal(outcomes: seq<Outcome>): nat {
    if outcomes == [] then 0
    else AnswerTotal(outcomes[..|outcomes| - 1]) + outcomes[|outcomes| - 1].correct + outcomes[|outcomes| - 1].wrong
  }

  lemma WrapAdd(x: int, y: int)
    ensures Wrap(Wrap(x) + y) == Wrap(x + y)
  {
  }

  /** A submitted record counts every question once: right, or wrong. */
  lemma OutcomeCountsQuestions(d: GameData, undefined: int)
    requires d.answers != []
    ensures OutcomeOf(d, undefined).correct + OutcomeOf(d, undefined).wrong == |d.answers|
    ensures OutcomeOf(d, undefined).wrong == Incorrect(d.answers)
  {
    CountsAddUp(d.answers);
  }

  /** What is read off a record, in the record's own terms: its numbers of right and wrong answers, its
      average rounded down, and its score, punishment included. */
  lemma OutcomeTellsTheRecord(d: GameData, undefined: int)
    requires d.answers != []
    ensures var o := OutcomeOf(d, undefined);
            && o.correct == |set i | 0 <= i < |d.answers| && d.answers[i].choice == d.answers[i].question.correctIndex|
            && o.correct + o.wrong == |d.answers|
            && o.average * |d.answers| <= TimeSum(d.answers) < (o.average + 1) * |d.answers|
            && o.change == ScoreChange(d, undefined)
            && var points := o.change + 10 * o.wrong + (if d.punished then 20 else 0);
               if o.average == 0 then points == undefined
               else
                 var ratio := 30 * o.correct * d.limit;
                 2 * ratio - o.average < 2 * o.average * points <= 2 * ratio + o.average
  {
    hide AverageTime, ScoreChange;
    CountsAddUp(d.answers);
    CorrectIsTheNumber(d.answers);
    AverageIsTheFloor(d.answers);
    ScoreIsTheRoundedRatio(d, undefined);
  }

  /**
   The same answers, with and without a punishment, leave the same row but for its score; while that fits in
   32 bits, the punished one is exactly twenty lower, or zero.
   */
  lemma PunishmentIsStored(row: Row, d: GameData, undefined: int)
    requires d.answers != []
    ensures var fair := ApplyGame(row, OutcomeOf(d.(punished := false), undefined));
            var punished := ApplyGame(row, OutcomeOf(d.(punished := true), undefined));
            && punished == fair.(score := punished.score)
            && (row.score + ScoreChange(d.(punished := false), undefined) < U32 ==>
                punished.score == if fair.score >= 20 then fair.score - 20 else 0)
  {
    hide AverageTime, ScoreChange, NextAverage;
    PunishmentCostsTwenty(d, undefined);
  }

  /** Every counter holds, modulo 2^32, what was there before plus what the submitted games hold. */
  lemma {:induction false} Conservation(start: Row, outcomes: seq<Outcome>)
    ensures var row := History(start, outcomes);
            && row.games == Wrap(start.games + |outcomes|)
            && row.correct == Wrap(start.correct + CorrectTotal(outcomes))
            && row.wrong == Wrap(start.wrong + WrongTotal(outcomes))
    ensures CorrectTotal(outcomes) + WrongTotal(outcomes) == AnswerTotal(outcomes)
  {
    hide ApplyGame;
    if outcomes != [] {
      var init, last := outcomes[..|outcomes| - 1], outcomes[|outcomes| - 1];
      Conservation(start, init);
      Counters(History(start, init), last);
      WrapAdd(start.games + |init|, 1);
      WrapAdd(start.correct + CorrectTotal(init), last.correct);
      WrapAdd(start.wrong + WrongTotal(init), last.wrong);
    }
  }

  // ----- the clamped score -----

  /** The score after a sequence of changes, as the server stores it. */
  function Stored(start: u32, changes: seq<int>): u32 {
    if changes == [] then start
    else NextScore(Stored(start, changes[..|changes| - 1]), changes[|changes| - 1])
  }

  /** The same sum without clamping. */
  function Unclamped(start: u32, changes: seq<int>): int {
    if changes == [] then start else Unclamped(start, changes[..|changes| - 1]) + changes[|changes| - 1]
  }

  /** The lowest value the unclamped sum has had so far. */
  function Lowest(start: u32, changes: seq<int>): int {
    if changes == [] then start
    else
      var before, now := Lowest(start, changes[..|changes| - 1]), Unclamped(start, changes);
      if now < before then now else before
  }

  function ClosedForm(start: u32, changes: seq<int>): int {
    Unclamped(start, changes) - (if Lowest(start, changes) < 0 then Lowest(start, changes) else 0)
  }

  lemma {:induction false} LowestIsTheMinimum(start: u32, changes: seq<int>)
    ensures forall j :: 0 <= j <= |changes| ==> Lowest(start, changes) <= Unclamped(start, changes[..j])
    ensures exists j :: 0 <= j <= |changes| && Lowest(start, changes) == Unclamped(start, changes[..j])
  {
    assert changes[..|changes|] == changes;
    if changes != [] {
      var init := changes[..|changes| - 1];
      LowestIsTheMinimum(start, init);
      assert forall j :: 0 <= j <= |init| ==> init[..j] == changes[..j];
    }
  }

  /**
   The stored score is the unclamped sum minus the lowest point it ever had below zero, as long as
   that value never leaves 32 bits; so it is never below the unclamped sum.
   */
  lemma {:induction false} ScoreClosedForm(start: u32, changes: seq<int>)
    requires forall j :: 0 <= j <= |changes| ==> ClosedForm(start, changes[..j]) < U32
    ensures Stored(start, changes) == ClosedForm(start, changes) >= Unclamped(start, changes)
  {
    assert changes[..|changes|] == changes;
    if changes != [] {
      var init := changes[..|changes| - 1];
      forall j | 0 <= j <= |init|
        ensures ClosedForm(start, init[..j]) < U32
      {
        assert init[..j] == changes[..j];
      }
      ScoreClosedForm(start, init);
    }
  }

  function Changes(outcomes: seq<Outcome>): seq<int> {
    seq(|outcomes|, i requires 0 <= i < |outcomes| => outcomes[i].change)
  }

  /** The score column is the clamped sum of the score changes of the submitted games. */
  lemma {:induction false} ScoreColumn(start: Row, outcomes: seq<Outcome>)
    ensures History(start, outcomes).score == Stored(start.score, Changes(outcomes))
  {
    hide ApplyGame;
    if outcomes != [] {
      ScoreColumn(start, outcomes[..|outcomes| - 1]);
      AverageAndScore(History(start, outcomes[..|outcomes| - 1]), outcomes[|outcomes| - 1]);
      assert Changes(outcomes)[..|outcomes| - 1] == Changes(outcomes[..|outcomes| - 1]);
    }
  }

  // ----- the running average -----

  /** The exact total the average approximates: each game's average weighted with its answers. */
  function ExactTotal(outcomes: seq<Outcome>): nat {
    if outcomes == [] then 0
    else
      var last := outcomes[|outcomes| - 1];
      ExactTotal(outcomes[..|outcomes| - 1]) + last.average * (last.correct + last.wrong)
  }

  /** The sum over the second and later games of (answers so far - 1). */
  function RoundingLoss(outcomes: seq<Outcome>): nat {
    if |outcomes| <= 1 then 0 else RoundingLoss(outcomes[..|outcomes| - 1]) + AnswerTotal(outcomes) - 1
  }

  ghost predicate NoZeroAverage(outcomes: seq<Outcome>) {
    forall o :: o in outcomes ==> o.average >= 1
  }

  lemma {:induction false} TotalsFit(outcomes: seq<Outcome>)
    requires NoZeroAverage(outcomes)
    ensures AnswerTotal(outcomes) <= ExactTotal(outcomes)
  {
    if outcomes != [] {
      var last := outcomes[|outcomes| - 1];
      TotalsFit(outcomes[..|outcomes| - 1]);
      MulMonotone(1, last.average, last.correct + last.wrong);
    }
  }

  lemma FactorsFit(a: nat, b: nat)
    requires a >= 1 && b >= 1
    ensures a <= a * b && b <= a * b
  {
    MulMonotone(1, a, b);
    MulMonotone(1, b, a);
  }

  /** One step of the floor division loses less than one unit per answer. */
  lemma FloorStep(stored: nat, answers: nat, average: nat, n: nat)
    requires n > 0
    ensures var next := WeightedMean(stored, answers, average, n);
            && next * (answers + n) <= stored * answers + average * n
            && stored * answers + average * n - next * (answers + n) <= answers + n - 1
  {
    Split(stored * answers + average * n, answers + n);
  }

  /** The mean lies between its two arguments. */
  lemma MeanAtLeast(low: nat, stored: nat, answers: nat, average: nat, n: nat)
    requires n > 0 && low <= stored && low <= average
    ensures low <= WeightedMean(stored, answers, average, n)
  {
    MulMonotone(low, stored, answers);
    MulMonotone(low, average, n);
    assert low * (answers + n) == low * answers + low * n;
    DivMonotone(low * (answers + n), stored * answers + average * n, answers + n);
    Unique(low * (answers + n), answers + n, low);
  }

  lemma MeanAtMost(high: nat, stored: nat, answers: nat, average: nat, n: nat)
    requires n > 0 && stored <= high && average <= high
    ensures WeightedMean(stored, answers, average, n) <= high
  {
    MulMonotone(stored, high, answers);
    MulMonotone(average, high, n);
    assert high * (answers + n) == high * answers + high * n;
    DivMonotone(stored * answers + average * n, high * (answers + n), answers + n);
    Unique(high * (answers + n), answers + n, high);
  }

  /** The mean and the number of answers fit whenever the exact total does. */
  lemma MeanFits(stored: nat, answers: nat, average: nat, n: nat, total: nat)
    requires stored >= 1 && average >= 1 && n > 0
    requires stored * answers <= total && answers <= total && total + average * n < U32
    ensures 1 <= WeightedMean(stored, answers, average, n) < U32
    ensures answers + n < U32
  {
    FloorStep(stored, answers, average, n);
    MeanAtLeast(1, stored, answers, average, n);
    FactorsFit(average, n);
    FactorsFit(WeightedMean(stored, answers, average, n), answers + n);
  }

  /** Both bounds on the drift after one more game, given the drift before it. */
  lemma DriftStep(stored: nat, answers: nat, average: nat, n: nat, fault: u32, total: nat, loss: nat)
    requires stored >= 1 && average >= 1 && n > 0 && total + average * n < U32
    requires answers <= total && Drift(stored, answers, total, loss)
    ensures var next := NextAverage(stored, answers, average, n, fault);
            && next >= 1
            && Drift(next, answers + n, total + average * n, loss + (answers + n - 1))
            && (stored <= next || average <= next)
            && (next <= stored || next <= average)
  {
    hide WeightedMean, MachineQuotient;
    MeanFits(stored, answers, average, n, total);
    FactorsFit(average, n);
    MachineMeanIsExactIff(stored, answers, average, n, fault);
    FloorStep(stored, answers, average, n);
    if stored <= average {
      MeanAtLeast(stored, stored, answers, average, n);
      MeanAtMost(average, stored, answers, average, n);
    } else {
      MeanAtLeast(average, stored, answers, average, n);
      MeanAtMost(stored, stored, answers, average, n);
    }
  }

  /**
   From an empty row, and while every game's average is at least 1 and the exact total fits in 32
   bits: the stored average never exceeds the answer-weighted mean, falls short of it by at most the
   accumulated rounding loss, and stays between the smallest and the largest game average.
   */
  lemma AverageDrift(outcomes: seq<Outcome>)
    requires outcomes != [] && NoZeroAverage(outcomes) && ExactTotal(outcomes) < U32
    ensures var average := History(EMPTY_ROW, outcomes).average;
            && average * AnswerTotal(outcomes) <= ExactTotal(outcomes)
            && ExactTotal(outcomes) - average * AnswerTotal(outcomes) <= RoundingLoss(outcomes)
            && (exists o :: o in outcomes && o.average <= average)
            && (exists o :: o in outcomes && average <= o.average)
  {
    DriftOf(outcomes, History(EMPTY_ROW, outcomes).average);
  }

  /** The claim of `AverageDrift` about a stored average. */
  ghost predicate Drift(average: nat, answers: nat, total: nat, loss: nat) {
    0 <= total - average * answers <= loss
  }

  lemma {:induction false} DriftOf(outcomes: seq<Outcome>, average: u32)
    requires outcomes != [] && NoZeroAverage(outcomes) && ExactTotal(outcomes) < U32
    requires average == History(EMPTY_ROW, outcomes).average
    ensures average >= 1
    ensures Drift(average, AnswerTotal(outcomes), ExactTotal(outcomes), RoundingLoss(outcomes))
    ensures exists o :: o in outcomes && o.average <= average
    ensures exists o :: o in outcomes && average <= o.average
  {
    hide ApplyGame, NextAverage, Drift;
    var init, last := outcomes[..|outcomes| - 1], outcomes[|outcomes| - 1];
    if init == [] {
      DriftOfOne(outcomes, average);
    } else {
      var before := History(EMPTY_ROW, init).average;
      DriftOf(init, before);
      DriftGrows(outcomes, before, average);
      var low :| low in init && low.average <= before;
      var high :| high in init && before <= high.average;
      assert low in outcomes && high in outcomes && last in outcomes;
    }
  }

  lemma DriftOfOne(outcomes: seq<Outcome>, average: u32)
    requires |outcomes| == 1 && NoZeroAverage(outcomes) && ExactTotal(outcomes) < U32
    requires average == History(EMPTY_ROW, outcomes).average
    ensures average == outcomes[0].average
    ensures Drift(average, AnswerTotal(outcomes), ExactTotal(outcomes), RoundingLoss(outcomes))
  {
    hide ApplyGame, NextAverage, Drift;
    var only := outcomes[0];
    assert outcomes[..|outcomes| - 1] == [];
    assert ExactTotal(outcomes) == only.average * (only.correct + only.wrong);
    AverageAndScore(EMPTY_ROW, only);
    FirstAverage(only.average, only.correct + only.wrong, only.fault);
  }

  lemma DriftGrows(outcomes: seq<Outcome>, before: u32, average: u32)
    requires |outcomes| >= 2 && NoZeroAverage(outcomes) && ExactTotal(outcomes) < U32
    requires average == History(EMPTY_ROW, outcomes).average
    requires var init := outcomes[..|outcomes| - 1];
             && before == History(EMPTY_ROW, init).average >= 1
             && Drift(before, AnswerTotal(init), ExactTotal(init), RoundingLoss(init))
    ensures average >= 1
    ensures Drift(average, AnswerTotal(outcomes), ExactTotal(outcomes), RoundingLoss(outcomes))
    ensures before <= average || outcomes[|outcomes| - 1].average <= average
    ensures average <= before || average <= outcomes[|outcomes| - 1].average
  {
    hide ApplyGame, NextAverage, Drift;
    var init, last := outcomes[..|outcomes| - 1], outcomes[|outcomes| - 1];
    var row, n := History(EMPTY_ROW, init), last.correct + last.wrong;
    TotalsFit(init);
    FactorsFit(last.average, n);
    TotalsAreStored(init, row);
    AverageAndScore(row, last);
    DriftStep(before, AnswerTotal(init), last.average, n, last.fault, ExactTotal(init), RoundingLoss(init));
  }

  lemma FirstAverage(average: nat, n: nat, fault: u32)
    requires average >= 1 && n > 0 && average * n < U32
    ensures NextAverage(0, 0, average, n, fault) == average
    ensures Drift(average, n, average * n, 0)
  {
    FactorsFit(average, n);
  }

  lemma TotalsAreStored(outcomes: seq<Outcome>, row: Row)
    requires row == History(EMPTY_ROW, outcomes) && AnswerTotal(outcomes) < U32
    ensures TotalAnswers(row) == AnswerTotal(outcomes)
  {
    hide ApplyGame;
    Conservation(EMPTY_ROW, outcomes);
  }

  /** Under the conditions of `AverageDrift` the 32-bit expression never wraps. */
  lemma DriftIsExact(outcomes: seq<Outcome>)
    requires |outcomes| >= 2 && NoZeroAverage(outcomes) && ExactTotal(outcomes) < U32
    ensures var init, last := outcomes[..|outcomes| - 1], outcomes[|outcomes| - 1];
            var row := History(EMPTY_ROW, init);
            History(EMPTY_ROW, outcomes).average ==
            WeightedMean(row.average, TotalAnswers(row), last.average, last.correct + last.wrong)
  {
    hide ApplyGame, MachineQuotient, WeightedMean;
    var init, last := outcomes[..|outcomes| - 1], outcomes[|outcomes| - 1];
    var row, n := History(EMPTY_ROW, init), last.correct + last.wrong;
    DriftOf(init, row.average);
    TotalsFit(init);
    FactorsFit(last.average, n);
    TotalsAreStored(init, row);
    MeanFits(row.average, AnswerTotal(init), last.average, n, ExactTotal(init));
    MachineMeanIsExactIff(row.average, AnswerTotal(init), last.average, n, last.fault);
    AverageAndScore(row, last);
  }

  // ----- machine arithmetic -----

  lemma QuotientBelow(x: nat, size: nat)
    requires size > 0
    ensures x / size <= x
  {
    Split(x, size);
    MulMonotone(1, size, x / size);
  }

  /** The 32-bit quotient is exact if and only if its numerator fits: a wrap loses at least one whole divisor. */
  lemma QuotientIsExactIff(x: nat, y: nat, size: nat, fault: u32)
    requires 0 < size < U32
    ensures MachineQuotient(x, y, size, fault) == (x + y) / size <==> x + y < U32
  {
    hide Wrap, MachineQuotient;
    QuotientOfKept(x, y, size, fault);
    Kept(x + y);
    WrappedQuotient(x + y, Wrap(x + y), size);
  }

  lemma QuotientOfKept(x: nat, y: nat, size: nat, fault: u32)
    requires 0 < size < U32
    ensures MachineQuotient(x, y, size, fault) == Wrap(x + y) / size
  {
    hide Wrap;
    WrapSum(x, y);
    Fits(size);
    QuotientBelow(Wrap(x + y), size);
    Fits(Wrap(x + y) / size);
  }

  lemma Fits(x: nat)
    requires x < U32
    ensures Wrap(x) == x
  {
  }

  lemma Kept(sum: nat)
    ensures if sum < U32 then Wrap(sum) == sum else Wrap(sum) <= sum - U32
  {
  }

  lemma WrappedQuotient(sum: nat, kept: nat, size: nat)
    requires 0 < size < U32 && if sum < U32 then kept == sum else kept <= sum - U32
    ensures kept / size == sum / size <==> sum < U32
  {
    if sum >= U32 {
      DivMonotone(kept, sum - size, size);
      Split(sum, size);
      assert (sum / size - 1) * size == sum / size * size - size;
      Unique(sum - size, size, sum / size - 1);
    }
  }

  lemma WrapSum(x: int, y: int)
    ensures Wrap(Wrap(x) + Wrap(y)) == Wrap(x + y)
  {
  }

  /** The running average of a row that has one is the weighted mean if and only if the exact sum fits. */
  lemma MachineMeanIsExactIff(stored: nat, answers: nat, average: nat, n: nat, fault: u32)
    requires stored > 0 && n > 0 && answers + n < U32
    ensures NextAverage(stored, answers, average, n, fault) == Wrap(stored * answers + average * n) / (answers + n)
    ensures NextAverage(stored, answers, average, n, fault) == WeightedMean(stored, answers, average, n)
            <==> stored * answers + average * n < U32
  {
    hide MachineQuotient;
    QuotientOfKept(stored * answers, average * n, answers + n, fault);
    QuotientIsExactIff(stored * answers, average * n, answers + n, fault);
  }

  /** It need not fit: a product of 2^32 counts for nothing. */
  lemma MachineMeanCanWrap(fault: u32)
    ensures NextAverage(0x1_0000, 0x1_0000, 1, 2, fault) == 0
    ensures WeightedMean(0x1_0000, 0x1_0000, 1, 2) == 0xfffe
  {
  }

  /**
   The new average is the floor of the weighted mean if and only if the row has an average and the sum
   fits in 32 bits, or has none and the row has no answers or the game's average is zero: a stored
   average of zero is taken for "no average yet" and the answers behind it are forgotten.
   */
  lemma AverageIsWeightedMeanIff(stored: nat, answers: nat, average: u32, n: nat, fault: u32)
    requires n > 0 && answers + n < U32
    ensures NextAverage(stored, answers, average, n, fault) == WeightedMean(stored, answers, average, n)
            <==> if stored > 0 then stored * answers + average * n < U32 else answers == 0 || average == 0
    ensures stored == 0 ==> NextAverage(stored, answers, average, n, fault) == average
  {
    if stored > 0 {
      MachineMeanIsExactIff(stored, answers, average, n, fault);
    } else {
      ForgottenIff(answers, average, n);
    }
  }

  lemma ForgottenIff(answers: nat, average: nat, n: nat)
    requires n > 0
    ensures average == WeightedMean(0, answers, average, n) <==> answers == 0 || average == 0
  {
    var mean, size := WeightedMean(0, answers, average, n), answers + n;
    Split(average * n, size);
    assert average * size == average * answers + average * n;
    if answers == 0 || average == 0 {
      Unique(average * n, size, average);
    } else {
      MulMonotone(1, average, answers);
      MulCancel(mean, average, size);
    }
  }

  /** A zero first average, then one of four seconds over as many answers: four is stored, two is the mean. */
  lemma ZeroAverageIsForgotten()
    ensures var o1: Outcome, o2: Outcome := Result(2, 0, 0, 0, 0), Result(2, 0, 4, 60, 0);
            var row := History(EMPTY_ROW, [o1]);
            && row.average == 0 && TotalAnswers(row) == 2
            && History(EMPTY_ROW, [o1, o2]).average == 4 && WeightedMean(row.average, TotalAnswers(row), 4, 2) == 2
  {
    var o1: Outcome, o2: Outcome := Result(2, 0, 0, 0, 0), Result(2, 0, 4, 60, 0);
    HistoryExtends(EMPTY_ROW, [], o1);
    HistoryExtends(EMPTY_ROW, [o1], o2);
    assert [] + [o1] == [o1] && [o1] + [o2] == [o1, o2];
  }
}
