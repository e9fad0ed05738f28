/** A question as the players see it (`managers/question.cpp`). */
module Questions {
  import opened Widths

  /** A row of the `questions` table. */
  datatype QuestionDb = QuestionDb(question: string, correct: string,
                                   incorrect1: string, incorrect2: string, incorrect3: string)

  datatype Question = Question(text: string, answers: seq<string>, correctIndex: u32)

  /** The texts in the order the constructor pushes them. */
  function Texts(source: QuestionDb): seq<string> {
    [source.correct, source.incorrect1, source.incorrect2, source.incorrect3]
  }

  /** What a game relies on: four answers, and the correct index is one of them. */
  predicate Sound(q: Question) {
    |q.answers| == 4 && q.correctIndex < 4
  }

  /**
   The constructor.  `shuffled` is whatever order `std::shuffle` leaves the four texts in.  Texts
   may repeat, so the index is that of the first text equal to the correct one.
   */
  method FromDatabase(source: QuestionDb, shuffled: seq<string>) returns (q: Question)
    requires multiset(shuffled) == multiset(Texts(source))
    ensures Sound(q) && q.text == source.question
    ensures multiset(q.answers) == multiset(Texts(source))
    ensures q.answers[q.correctIndex] == source.correct
    ensures forall i :: 0 <= i < q.correctIndex ==> q.answers[i] != source.correct
  {
    ShuffleKeepsSize(source, shuffled);
    assert source.correct in multiset(Texts(source));
    assert source.correct in shuffled;
    var found := 0;
    while found < |shuffled| && shuffled[found] != source.correct
      invariant 0 <= found <= |shuffled|
      invariant forall i :: 0 <= i < found ==> shuffled[i] != source.correct
    {
      found := found + 1;
    }
    q := Question(source.question, shuffled, found);
  }

  lemma ShuffleKeepsSize(source: QuestionDb, shuffled: seq<string>)
    requires multiset(shuffled) == multiset(Texts(source))
    ensures |shuffled| == 4
  {
    assert |multiset(shuffled)| == |multiset(Texts(source))|;
    assert |multiset(shuffled)| == |shuffled|;
  }
}
