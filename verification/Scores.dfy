/** One player's record of one game (`GameData` in `managers/game.h`). */
module Scores {
  import opened Widths
  import opened Quotients
  import opened Questions

  const CORRECT_ANSWER_POINTS := 30
  const INCORRECT_ANSWER_POINTS := 10
  const PENALTY_POINTS := 20

  /** The index a question nobody answered is filed under. */
  const NO_ANSWER: u32 := 5

  datatype Answer = Answer(question: Question, choice: u32, time: u32)

  datatype GameData = GameData(submitted: bool, punished: bool, limit: u32, answers: seq<Answer>)

  predicate IsCorrect(a: Answer) {
    a.choice == a.question.correctIndex
  }

  /** `getNumOfCorrectAnswers`. */
  function Correct(answers: seq<Answer>): nat {
    if answers == [] then 0
    else Correct(answers[..|answers| - 1]) + (if IsCorrect(answers[|answers| - 1]) then 1 else 0)
  }

  /** The number of answers that are not correct, counted independently of `getNumOfWrongAnswers`. */
  function Incorrect(answers: seq<Answer>): nat {
    if answers == [] then 0
    else Incorrect(answers[..|answers| - 1]) + (if IsCorrect(answers[|answers| - 1]) then 0 else 1)
  }

  /** `std::accumulate` of the answer times. */
  function TimeSum(answers: seq<Answer>): nat {
    if answers == [] then 0
    else TimeSum(answers[..|answers| - 1]) + answers[|answers| - 1].time
  }

  /** `getNumOfWrongAnswers`. */
  function Wrong(answers: seq<Answer>): int {
    |answers| - Correct(answers)
  }

  /** `getAverageAnswerTime`; the division is integral, so the rounding around it does nothing. */
  function AverageTime(answers: seq<Answer>): nat
    requires answers != []
  {
    TimeSum(answers) / |answers|
  }

  /** `std::round` of the non-negative ratio n/d: halves go away from zero. */
  function RoundHalfUp(n: nat, d: nat): nat
    requires d > 0
  {
    (2 * n + d) / (2 * d)
  }

  /**
   `scoreChange`.  The points for correct answers are divided by average/limit.  When the average is
   zero the original converts an infinity or a NaN to an integer, which has no defined result:
   `undefined` stands for whatever it then obtains.
   */
  function ScoreChange(d: GameData, undefined: int): int
    requires d.answers != []
  {
    var average := AverageTime(d.answers);
    var points := if average == 0 then undefined
                  else RoundHalfUp(Correct(d.answers) * CORRECT_ANSWER_POINTS * d.limit, average);
    points - Wrong(d.answers) * INCORRECT_ANSWER_POINTS - (if d.punished then PENALTY_POINTS else 0)
  }

  /** What every record of a game over `questions` satisfies. */
  ghost predicate Consistent(d: GameData, questions: seq<Question>) {
    && |d.answers| == |questions|
    && forall i :: 0 <= i < |questions| ==>
         && d.answers[i].question == questions[i]
         && d.answers[i].time <= d.limit
         && d.answers[i].choice <= NO_ANSWER
  }

  /** The record a player starts with: no answer, at the time limit, for every question. */
  function Unanswered(questions: seq<Question>, limit: u32): (answers: seq<Answer>)
    ensures |answers| == |questions|
  {
    seq(|questions|, i requires 0 <= i < |questions| => Answer(questions[i], NO_ANSWER, limit))
  }

  /** The constructor of `GameData`. */
  method NewGameData(questions: seq<Question>, limit: u32) returns (d: GameData)
    ensures d == GameData(false, false, limit, Unanswered(questions, limit))
    ensures Consistent(d, questions)
  {
    var answers: seq<Answer> := [];
    var i := 0;
    while i < |questions|
      invariant 0 <= i <= |questions|
      invariant answers == Unanswered(questions, limit)[..i]
    {
      answers := answers + [Answer(questions[i], NO_ANSWER, limit)];
      i := i + 1;
    }
    d := GameData(false, false, limit, answers);
  }

  /** `GameData::submitAnswer`. */
  function Record(d: GameData, question: nat, choice: u32, time: u32): GameData
    requires question < |d.answers|
  {
    d.(answers := d.answers[question := d.answers[question].(choice := choice, time := time)])
  }

  // ----- counts and averages -----

  lemma {:induction false} CountsAddUp(answers: seq<Answer>)
    ensures Correct(answers) + Incorrect(answers) == |answers|
    ensures Wrong(answers) == Incorrect(answers)
  {
    if answers != [] {
      CountsAddUp(answers[..|answers| - 1]);
    }
  }

  /** Nobody has answered: everything counts as wrong and the average is the time limit. */
  lemma {:induction false} UnansweredIsWrong(questions: seq<Question>, limit: u32)
    requires forall q :: q in questions ==> Sound(q)
    ensures Correct(Unanswered(questions, limit)) == 0
    ensures TimeSum(Unanswered(questions, limit)) == |questions| * limit
    ensures questions != [] ==> AverageTime(Unanswered(questions, limit)) == limit
  {
    hide AverageTime;
    if questions != [] {
      var last := |questions| - 1;
      UnansweredIsWrong(questions[..last], limit);
      assert Unanswered(questions, limit)[..last] == Unanswered(questions[..last], limit);
      assert questions[last] in questions;
      assert |questions| * limit == last * limit + limit;
      AverageOfEqual(Unanswered(questions, limit), limit);
    }
  }

  lemma AverageOfEqual(answers: seq<Answer>, time: nat)
    requires answers != [] && TimeSum(answers) == |answers| * time
    ensures AverageTime(answers) == time
  {
    Unique(|answers| * time, |answers|, time);
  }

  /** The count is the number of questions answered with their correct index. */
  lemma {:induction false} CorrectIsTheNumber(answers: seq<Answer>)
    ensures Correct(answers) == |set i | 0 <= i < |answers| && answers[i].choice == answers[i].question.correctIndex|
  {
    if answers != [] {
      var (init, last) := (answers[..|answers| - 1], |answers| - 1);
      CorrectIsTheNumber(init);
      var before := set i | 0 <= i < |init| && init[i].choice == init[i].question.correctIndex;
      var now := set i | 0 <= i < |answers| && answers[i].choice == answers[i].question.correctIndex;
      assert now == before + (if IsCorrect(answers[last]) then {last} else {});
    }
  }

  /** The average is the sum of the times over their number, rounded down. */
  lemma AverageIsTheFloor(answers: seq<Answer>)
    requires answers != []
    ensures var average := AverageTime(answers);
            average * |answers| <= TimeSum(answers) < (average + 1) * |answers|
  {
    Split(TimeSum(answers), |answers|);
    var average := AverageTime(answers);
    assert (average + 1) * |answers| == average * |answers| + |answers|;
  }

  /** Times within the limit: the floor average stays between 0 and the limit. */
  lemma {:induction false} TimeSumWithinLimit(answers: seq<Answer>, limit: u32)
    requires forall i :: 0 <= i < |answers| ==> answers[i].time <= limit
    ensures TimeSum(answers) <= |answers| * limit
  {
    if answers != [] {
      TimeSumWithinLimit(answers[..|answers| - 1], limit);
      assert |answers| * limit == (|answers| - 1) * limit + limit;
    }
  }

  lemma AverageWithinLimit(answers: seq<Answer>, limit: u32)
    requires answers != []
    requires forall i :: 0 <= i < |answers| ==> answers[i].time <= limit
    ensures AverageTime(answers) <= limit
  {
    TimeSumWithinLimit(answers, limit);
    DivMonotone(TimeSum(answers), |answers| * limit, |answers|);
    Unique(|answers| * limit, |answers|, limit);
  }

  /** Recording an answer changes exactly one entry, and the counts and the sum accordingly. */
  lemma {:induction false} RecordChangesOne(answers: seq<Answer>, i: nat, choice: u32, time: u32)
    requires i < |answers|
    ensures var after := answers[i := answers[i].(choice := choice, time := time)];
            && Correct(after) - (if choice == answers[i].question.correctIndex then 1 else 0)
               == Correct(answers) - (if IsCorrect(answers[i]) then 1 else 0)
            && TimeSum(after) - time == TimeSum(answers) - answers[i].time
  {
    var after := answers[i := answers[i].(choice := choice, time := time)];
    var last := |answers| - 1;
    if i < last {
      RecordChangesOne(answers[..last], i, choice, time);
      assert after[..last] == answers[..last][i := after[i]];
    } else {
      assert after[..last] == answers[..last];
    }
  }

  lemma RecordKeepsConsistent(d: GameData, questions: seq<Question>, q: nat, choice: u32, time: u32)
    requires Consistent(d, questions) && q < |questions|
    requires choice <= 4 && time <= d.limit
    ensures Consistent(Record(d, q, choice, time), questions)
    ensures Record(d, q, choice, time) == d.(answers := Record(d, q, choice, time).answers)
    ensures Record(d, q, choice, time).answers[q] == Answer(questions[q], choice, time)
    ensures forall i :: 0 <= i < |questions| && i != q ==>
              Record(d, q, choice, time).answers[i] == d.answers[i]
  {
  }

  // ----- rounding -----

  lemma RoundIsNearest(n: nat, d: nat)
    requires d > 0
    ensures 2 * n - d < 2 * d * RoundHalfUp(n, d) <= 2 * n + d
  {
    var r := RoundHalfUp(n, d);
    Split(2 * n + d, 2 * d);
    assert r * (2 * d) == 2 * d * r;
  }

  /** Adding whole multiples of the divisor passes through the rounding. */
  lemma RoundShift(n: nat, k: nat, d: nat)
    requires d > 0
    ensures RoundHalfUp(n + k * d, d) == RoundHalfUp(n, d) + k
  {
    var r := RoundHalfUp(n, d);
    Split(2 * n + d, 2 * d);
    assert (r + k) * (2 * d) == r * (2 * d) + 2 * (k * d) by {
      assert k * (2 * d) == 2 * (k * d);
    }
    Unique(2 * (n + k * d) + d, 2 * d, r + k);
  }

  lemma RoundMonotone(n: nat, m: nat, d: nat)
    requires d > 0 && n <= m
    ensures RoundHalfUp(n, d) <= RoundHalfUp(m, d)
  {
    DivMonotone(2 * n + d, 2 * m + d, 2 * d);
  }

  /** A larger divisor gives a smaller rounded ratio. */
  lemma RoundAntitone(n: nat, d: nat, larger: nat)
    requires 0 < d <= larger
    ensures RoundHalfUp(n, larger) <= RoundHalfUp(n, d)
  {
    var r := RoundHalfUp(n, larger);
    RoundIsNearest(n, larger);
    if r > 0 {
      // (2r - 1) * larger <= 2n, so (2r - 1) * d <= 2n
      assert (2 * r - 1) * larger == 2 * larger * r - larger;
      assert (2 * r - 1) * d == 2 * d * r - d;
      assert (2 * r - 1) * d <= (2 * r - 1) * larger by { Commute(2 * r - 1, d, larger); }
      var s := RoundHalfUp(n, d);
      Split(2 * n + d, 2 * d);
      assert (s + 1) * (2 * d) == s * (2 * d) + 2 * d;
      assert r * (2 * d) == 2 * d * r;
      MulCancel(r, s + 1, 2 * d);
    }
  }

  lemma Commute(k: int, a: int, b: int)
    requires k >= 0 && a <= b
    ensures k * a <= k * b
  {
  }

  // ----- the score -----

  /** Points are never worth less than their face value, because the average is within the limit. */
  lemma ScoreLowerBound(d: GameData, questions: seq<Question>, undefined: int)
    requires questions != [] && Consistent(d, questions)
    requires AverageTime(d.answers) >= 1
    ensures ScoreChange(d, undefined) >=
            30 * Correct(d.answers) - 10 * Incorrect(d.answers) - (if d.punished then 20 else 0)
  {
    CountsAddUp(d.answers);
    AverageWithinLimit(d.answers, d.limit);
    var average, c := AverageTime(d.answers), Correct(d.answers) * 30;
    Commute(c, average, d.limit);
    RoundMonotone(c * average, c * d.limit, average);
    RoundShift(0, c, average);
  }

  /**
   The score exactly: with ten points back for every wrong answer, and twenty for a punishment, it is the
   integer nearest to 30 * correct * limit / average, the larger one in the middle between two; and no more
   than that ratio would be at one second an answer.  Without an average it is whatever the conversion gives.
   */
  lemma ScoreIsTheRoundedRatio(d: GameData, undefined: int)
    requires d.answers != []
    ensures var average := AverageTime(d.answers);
            var points := ScoreChange(d, undefined) + 10 * Incorrect(d.answers) + (if d.punished then 20 else 0);
            var ratio := 30 * Correct(d.answers) * d.limit;
            if average == 0 then points == undefined
            else 2 * ratio - average < 2 * average * points <= 2 * ratio + average && points <= ratio
  {
    CountsAddUp(d.answers);
    var average := AverageTime(d.answers);
    if average > 0 {
      var ratio := 30 * Correct(d.answers) * d.limit;
      RoundIsNearest(ratio, average);
      RoundAntitone(ratio, 1, average);
    }
  }

  /** Being punished costs exactly twenty points. */
  lemma PunishmentCostsTwenty(d: GameData, undefined: int)
    requires d.answers != []
    ensures ScoreChange(d.(punished := true), undefined) ==
            ScoreChange(d.(punished := false), undefined) - 20
  {
  }

  ghost predicate SameChoicesFaster(fast: seq<Answer>, slow: seq<Answer>) {
    && |fast| == |slow|
    && forall i :: 0 <= i < |slow| ==> fast[i] == slow[i].(time := fast[i].time) && fast[i].time <= slow[i].time
  }

  lemma {:induction false} FasterSums(fast: seq<Answer>, slow: seq<Answer>)
    requires SameChoicesFaster(fast, slow)
    ensures Correct(fast) == Correct(slow) && TimeSum(fast) <= TimeSum(slow)
  {
    if slow != [] {
      FasterSums(fast[..|fast| - 1], slow[..|slow| - 1]);
    }
  }

  /** Giving the same answers in less time never lowers the score. */
  lemma FasterIsNotWorse(fast: GameData, slow: GameData, undefined: int)
    requires slow.answers != [] && SameChoicesFaster(fast.answers, slow.answers)
    requires fast.limit == slow.limit && fast.punished == slow.punished
    requires AverageTime(fast.answers) >= 1
    ensures AverageTime(slow.answers) >= 1
    ensures ScoreChange(fast, undefined) >= ScoreChange(slow, undefined)
  {
    FasterSums(fast.answers, slow.answers);
    DivMonotone(TimeSum(fast.answers), TimeSum(slow.answers), |slow.answers|);
    RoundAntitone(Correct(slow.answers) * 30 * slow.limit,
                  AverageTime(fast.answers), AverageTime(slow.answers));
  }

  /** Turning one wrong answer into the correct one, at the same time, is worth at least forty points. */
  lemma CorrectingIsWorthForty(d: GameData, questions: seq<Question>, i: nat, undefined: int)
    requires Consistent(d, questions) && i < |questions|
    requires AverageTime(d.answers) >= 1 && !IsCorrect(d.answers[i])
    ensures ScoreChange(Record(d, i, questions[i].correctIndex, d.answers[i].time), undefined)
            >= ScoreChange(d, undefined) + 40
  {
    var better := Record(d, i, questions[i].correctIndex, d.answers[i].time);
    RecordChangesOne(d.answers, i, questions[i].correctIndex, d.answers[i].time);
    AverageWithinLimit(d.answers, d.limit);
    OneMoreCorrect(Correct(d.answers), d.limit, AverageTime(d.answers));
  }

  lemma OneMoreCorrect(c: nat, limit: nat, average: nat)
    requires 1 <= average <= limit
    ensures RoundHalfUp((c + 1) * 30 * limit, average) >= RoundHalfUp(c * 30 * limit, average) + 30
  {
    assert (c + 1) * 30 * limit == c * 30 * limit + 30 * limit;
    RoundMonotone(c * 30 * limit + 30 * average, (c + 1) * 30 * limit, average);
    RoundShift(c * 30 * limit, 30, average);
  }

  /** The division is by zero exactly when the times add up to fewer seconds than there are questions. */
  lemma ScoreIsDefinedIff(answers: seq<Answer>)
    requires answers != []
    ensures AverageTime(answers) >= 1 <==> TimeSum(answers) >= |answers|
  {
    Split(TimeSum(answers), |answers|);
    if TimeSum(answers) >= |answers| {
      DivMonotone(|answers|, TimeSum(answers), |answers|);
      Unique(|answers|, |answers|, 1);
    } else {
      Unique(TimeSum(answers), |answers|, 0);
    }
  }
}
