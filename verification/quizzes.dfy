/** Quiz submission and results (`backend/controllers/quizController.js`):
    a quiz is submitted once, its in-range answers are graded against the
    stored questions, and the score is the rounded percentage of correct
    answers over the quiz's `totalQuestions`. */
module Quizzes {

  import opened Base
  import opened Domain

  /** One element of the request's `answers` array. */
  datatype Answer = Answer(questionIndex: nat, selectedAnswer: int)

  datatype SubmitError = AnswersNotArray | QuizNotFound | AlreadySubmitted | ScoreUndefined

  /** The updated quiz and the number of correct answers reported with it. */
  datatype Submission = Submission(quiz: Quiz, correctCount: nat)

  /** An answer the grading loop keeps: its index names a stored question. */
  function InRange(n: nat): Answer -> bool {
    (a: Answer) => a.questionIndex < n
  }

  predicate IsCorrect(u: UserAnswer) {
    u.isCorrect
  }

  /** The recorded form of an in-range answer. */
  function Grade(questions: seq<QuizQuestion>, a: Answer, now: Time): (u: UserAnswer)
    requires a.questionIndex < |questions|
    ensures u.questionIndex == a.questionIndex && u.selectedAnswer == a.selectedAnswer
    ensures u.isCorrect <==> questions[a.questionIndex].correctAnswer == a.selectedAnswer
  {
    UserAnswer(a.questionIndex, a.selectedAnswer, questions[a.questionIndex].correctAnswer == a.selectedAnswer, now)
  }

  /** The recorded answers: the in-range answers, graded, in submission order.
      Repeated indices are recorded again each time. */
  function GradeAll(questions: seq<QuizQuestion>, answers: seq<Answer>, now: Time): (recorded: seq<UserAnswer>)
    ensures |recorded| == Count(answers, InRange(|questions|))
  {
    if |answers| == 0 then []
    else if answers[0].questionIndex < |questions| then
      [Grade(questions, answers[0], now)] + GradeAll(questions, answers[1..], now)
    else GradeAll(questions, answers[1..], now)
  }

  /** Grading keeps exactly the in-range answers, in order, and grades each
      against its question. */
  lemma {:induction false} GradeAllSpec(questions: seq<QuizQuestion>, answers: seq<Answer>, now: Time)
    ensures forall k :: 0 <= k < |GradeAll(questions, answers, now)| ==>
      && Filter(answers, InRange(|questions|))[k].questionIndex < |questions|
      && GradeAll(questions, answers, now)[k] == Grade(questions, Filter(answers, InRange(|questions|))[k], now)
    decreases |answers|
  {
    if |answers| > 0 {
      var a, rest := answers[0], answers[1..];
      GradeAllSpec(questions, rest, now);
      var kept, recorded := Filter(rest, InRange(|questions|)), GradeAll(questions, rest, now);
      if a.questionIndex < |questions| {
        var kept', recorded' := [a] + kept, [Grade(questions, a, now)] + recorded;
        assert Filter(answers, InRange(|questions|)) == kept';
        assert GradeAll(questions, answers, now) == recorded';
        forall k | 0 <= k < |recorded'|
          ensures kept'[k].questionIndex < |questions| && recorded'[k] == Grade(questions, kept'[k], now)
        {
          if k > 0 {
            assert kept'[k] == kept[k - 1] && recorded'[k] == recorded[k - 1];
          }
        }
      } else {
        assert Filter(answers, InRange(|questions|)) == kept;
        assert GradeAll(questions, answers, now) == recorded;
      }
    }
  }

  /** A question no answer names is named by no recorded answer. */
  lemma {:induction false} GradeAllUnanswered(questions: seq<QuizQuestion>, answers: seq<Answer>, now: Time, x: nat)
    requires forall m :: 0 <= m < |answers| ==> answers[m].questionIndex != x
    ensures forall k :: 0 <= k < |GradeAll(questions, answers, now)| ==> GradeAll(questions, answers, now)[k].questionIndex != x
    decreases |answers|
  {
    if |answers| > 0 {
      var a, tail := answers[0], answers[1..];
      var rest := GradeAll(questions, tail, now);
      GradeAllUnanswered(questions, tail, now, x);
      if a.questionIndex < |questions| {
        var recorded := [Grade(questions, a, now)] + rest;
        assert GradeAll(questions, answers, now) == recorded;
        forall k | 0 <= k < |recorded| ensures recorded[k].questionIndex != x {
          if k > 0 {
            assert recorded[k] == rest[k - 1];
          }
        }
      } else {
        assert GradeAll(questions, answers, now) == rest;
      }
    }
  }

  /** Grading an answer sequence in two parts records the two parts in order. */
  lemma {:induction false} GradeAllAppend(questions: seq<QuizQuestion>, a: seq<Answer>, b: seq<Answer>, now: Time)
    ensures GradeAll(questions, a + b, now) == GradeAll(questions, a, now) + GradeAll(questions, b, now)
    decreases |a|
  {
    if |a| == 0 {
      assert a + b == b;
    } else {
      assert (a + b)[0] == a[0];
      assert (a + b)[1..] == a[1..] + b;
      GradeAllAppend(questions, a[1..], b, now);
    }
  }

  /** Grading one more answer appends its record when it is in range. */
  lemma GradeAllSnoc(questions: seq<QuizQuestion>, answers: seq<Answer>, i: nat, now: Time)
    requires i < |answers|
    ensures GradeAll(questions, answers[..i + 1], now) ==
      GradeAll(questions, answers[..i], now)
        + (if answers[i].questionIndex < |questions| then [Grade(questions, answers[i], now)] else [])
  {
    assert answers[..i + 1] == answers[..i] + [answers[i]];
    GradeAllAppend(questions, answers[..i], [answers[i]], now);
    assert [answers[i]][1..] == [];
  }

  /** The `answers.forEach` loop of `submitQuiz`: records the in-range answers
      and counts the correct ones as it goes. */
  method ProcessAnswers(questions: seq<QuizQuestion>, answers: seq<Answer>, now: Time)
    returns (recorded: seq<UserAnswer>, correctCount: nat)
    ensures recorded == GradeAll(questions, answers, now)
    ensures correctCount == Count(recorded, IsCorrect)
  {
    recorded := [];
    correctCount := 0;
    var i := 0;
    while i < |answers|
      invariant 0 <= i <= |answers|
      invariant recorded == GradeAll(questions, answers[..i], now)
      invariant correctCount == Count(recorded, IsCorrect)
    {
      var a := answers[i];
      GradeAllSnoc(questions, answers, i, now);
      if a.questionIndex < |questions| {
        var u := Grade(questions, a, now);
        CountSnoc(recorded, u, IsCorrect);
        if u.isCorrect {
          correctCount := correctCount + 1;
        }
        recorded := recorded + [u];
      }
      i := i + 1;
    }
    assert answers[..i] == answers;
  }

  /** `Math.round(correct / total * 100)`: the rounded percentage. */
  function Score(correct: nat, total: nat): (s: int)
    requires total > 0
    ensures 2 * total * s <= 200 * correct + total < 2 * total * (s + 1)
  {
    RoundDiv(100 * correct, total)
  }

  /** The score lies in [0, 100] whenever the correct answers do not exceed the total. */
  lemma ScoreRange(correct: nat, total: nat)
    requires 0 < total && correct <= total
    ensures 0 <= Score(correct, total) <= 100
  {
    var s, d := Score(correct, total), 2 * total;
    assert 200 * correct <= 200 * total;
    if s > 100 {
      MulLe(d, 101, s);
    }
    if s < 0 {
      MulLe(d, s + 1, 0);
    }
  }

  /** `submitQuiz` once the quiz has been found: refused when already
      submitted; otherwise the answers are graded and the quiz records them,
      the score and the submission time. */
  function Submit(quiz: Quiz, answers: seq<Answer>, now: Time): (r: Result<Submission, SubmitError>)
    ensures quiz.completedAt.Some? <==> r == Err(AlreadySubmitted)
    ensures quiz.completedAt.None? && quiz.totalQuestions == 0 <==> r == Err(ScoreUndefined)
    ensures r.Ok? <==> quiz.completedAt.None? && quiz.totalQuestions > 0
    ensures r.Ok? ==>
      var q := r.value.quiz;
      && q == quiz.(userAnswers := q.userAnswers, score := q.score, completedAt := Some(now))
      && q.userAnswers == GradeAll(quiz.questions, answers, now)
      && r.value.correctCount == Count(q.userAnswers, IsCorrect)
      && 2 * quiz.totalQuestions * q.score <= 200 * r.value.correctCount + quiz.totalQuestions
      && 200 * r.value.correctCount + quiz.totalQuestions < 2 * quiz.totalQuestions * (q.score + 1)
  {
    if quiz.completedAt.Some? then Err(AlreadySubmitted)
    else if quiz.totalQuestions == 0 then Err(ScoreUndefined)
    else
      var recorded := GradeAll(quiz.questions, answers, now);
      var correct := Count(recorded, IsCorrect);
      Ok(Submission(quiz.(userAnswers := recorded, score := Score(correct, quiz.totalQuestions), completedAt := Some(now)), correct))
  }

  /** The quiz `findOne({_id, userId})` selects. */
  function Owned(quizId: Id, userId: Id): Quiz -> bool {
    (q: Quiz) => q.id == quizId && q.userId == userId
  }

  /** The `submitQuiz` handler over the quiz collection. `answers` is `None`
      when the request body's `answers` is not an array. */
  function SubmitQuiz(quizzes: seq<Quiz>, userId: Id, quizId: Id, answers: Option<seq<Answer>>, now: Time)
    : (r: Result<(seq<Quiz>, Submission), SubmitError>)
    ensures answers.None? <==> r == Err(AnswersNotArray)
    ensures answers.Some? ==>
      (r == Err(QuizNotFound) <==> forall i :: 0 <= i < |quizzes| ==> !Owned(quizId, userId)(quizzes[i]))
    ensures answers.Some? && FindIndex(quizzes, Owned(quizId, userId)).Some? ==>
        var i := FindIndex(quizzes, Owned(quizId, userId)).value;
        var outcome := Submit(quizzes[i], answers.value, now);
        && (outcome.Err? ==> r == Err(outcome.error))
        && (outcome.Ok? ==> r == Ok((quizzes[i := outcome.value.quiz], outcome.value)))
    ensures r.Ok? ==>
      var (after, sub) := r.value;
      && |after| == |quizzes|
      && (exists i :: 0 <= i < |quizzes| && Owned(quizId, userId)(quizzes[i])
           && Submit(quizzes[i], answers.value, now) == Ok(sub)
           && after == quizzes[i := sub.quiz])
  {
    match answers
    case None => Err(AnswersNotArray)
    case Some(given) =>
      match FindIndex(quizzes, Owned(quizId, userId))
      case None => Err(QuizNotFound)
      case Some(i) =>
        match Submit(quizzes[i], given, now)
        case Err(e) => Err(e)
        case Ok(sub) => Ok((quizzes[i := sub.quiz], sub))
  }

  /** Submission is one-shot: after a successful submission the same user's
      next submission of that quiz is refused and changes nothing. */
  lemma ResubmitRejected(quizzes: seq<Quiz>, userId: Id, quizId: Id, answers: seq<Answer>, now: Time,
                         again: seq<Answer>, later: Time)
    requires SubmitQuiz(quizzes, userId, quizId, Some(answers), now).Ok?
    ensures var after := SubmitQuiz(quizzes, userId, quizId, Some(answers), now).value.0;
      SubmitQuiz(after, userId, quizId, Some(again), later) == Err(AlreadySubmitted)
  {
    var i := FindIndex(quizzes, Owned(quizId, userId)).value;
    var after := SubmitQuiz(quizzes, userId, quizId, Some(answers), now).value.0;
    var j := FindIndex(after, Owned(quizId, userId));
    assert Owned(quizId, userId)(after[i]);
    assert forall k :: 0 <= k < i ==> after[k] == quizzes[k];
    assert j == Some(i);
  }

  /** With distinct in-range question indices and `totalQuestions` equal to
      the number of questions, the score is a percentage. */
  lemma ScoreBounds(quiz: Quiz, answers: seq<Answer>, now: Time)
    requires quiz.completedAt.None? && quiz.totalQuestions == |quiz.questions| > 0
    requires forall i, j :: 0 <= i < j < |answers| ==> answers[i].questionIndex != answers[j].questionIndex
    ensures Submit(quiz, answers, now).Ok?
    ensures 0 <= Submit(quiz, answers, now).value.quiz.score <= 100
  {
    var n := |quiz.questions|;
    var recorded := GradeAll(quiz.questions, answers, now);
    GradeAllDistinct(quiz.questions, answers, now);
    var indices := set k | 0 <= k < |recorded| :: recorded[k].questionIndex;
    forall x | x in indices ensures x < n {
      var k :| 0 <= k < |recorded| && recorded[k].questionIndex == x;
      GradeAllEntry(quiz.questions, answers, now, k);
    }
    DistinctIndicesSize(recorded);
    BoundedSetSize(indices, n);
    ScoreRange(Count(recorded, IsCorrect), n);
  }

  /** Grading keeps distinct indices distinct. */
  lemma {:induction false} GradeAllDistinct(questions: seq<QuizQuestion>, answers: seq<Answer>, now: Time)
    requires forall i, j :: 0 <= i < j < |answers| ==> answers[i].questionIndex != answers[j].questionIndex
    ensures forall i, j :: 0 <= i < j < |GradeAll(questions, answers, now)| ==>
      GradeAll(questions, answers, now)[i].questionIndex != GradeAll(questions, answers, now)[j].questionIndex
    decreases |answers|
  {
    if |answers| > 0 {
      var a, tail := answers[0], answers[1..];
      var rest := GradeAll(questions, tail, now);
      GradeAllDistinct(questions, tail, now);
      if a.questionIndex < |questions| {
        GradeAllUnanswered(questions, tail, now, a.questionIndex);
        var recorded := [Grade(questions, a, now)] + rest;
        assert GradeAll(questions, answers, now) == recorded;
        forall i, j | 0 <= i < j < |recorded| ensures recorded[i].questionIndex != recorded[j].questionIndex {
          if i > 0 {
            assert recorded[i] == rest[i - 1] && recorded[j] == rest[j - 1];
          } else {
            assert recorded[j] == rest[j - 1];
          }
        }
      } else {
        assert GradeAll(questions, answers, now) == rest;
      }
    }
  }

  /** A sequence of records with distinct indices has as many indices as records. */
  lemma {:induction false} DistinctIndicesSize(recorded: seq<UserAnswer>)
    requires forall i, j :: 0 <= i < j < |recorded| ==> recorded[i].questionIndex != recorded[j].questionIndex
    ensures |set k | 0 <= k < |recorded| :: recorded[k].questionIndex| == |recorded|
    decreases |recorded|
  {
    if |recorded| > 0 {
      var last := |recorded| - 1;
      var front := recorded[..last];
      DistinctIndicesSize(front);
      var all := set k | 0 <= k < |recorded| :: recorded[k].questionIndex;
      var init := set k | 0 <= k < |front| :: front[k].questionIndex;
      assert all == init + {recorded[last].questionIndex};
      assert recorded[last].questionIndex !in init;
    }
  }

  /** Pigeonhole: a set of naturals below `n` has at most `n` elements. */
  lemma {:induction false} BoundedSetSize(s: set<nat>, n: nat)
    requires forall x :: x in s ==> x < n
    ensures |s| <= n
    decreases n
  {
    if n > 0 {
      var s' := s - {n - 1};
      BoundedSetSize(s', n - 1);
    } else {
      assert s == {};
    }
  }

  /** Repeated indices are counted again: one question answered correctly
      twice scores 200. */
  lemma RepeatedIndexCountsTwice(quiz: Quiz, now: Time)
    requires quiz.completedAt.None? && quiz.totalQuestions == |quiz.questions| == 1
    ensures var a := Answer(0, quiz.questions[0].correctAnswer);
      Submit(quiz, [a, a], now).value.quiz.score == 200
  {
    var a := Answer(0, quiz.questions[0].correctAnswer);
    var recorded := GradeAll(quiz.questions, [a, a], now);
    var g := Grade(quiz.questions, a, now);
    assert [a, a][1..] == [a];
    assert [a][1..] == [];
    assert GradeAll(quiz.questions, [a], now) == [g];
    assert recorded == [g, g];
    assert [g, g][1..] == [g];
    assert Count(recorded, IsCorrect) == 2;
  }

  // ---------------------------------------------------------------------------
  // Results (quizController.js lines 122-177)
  // ---------------------------------------------------------------------------

  datatype ResultsError = ResultsQuizNotFound | NotYetSubmitted

  /** One row of the detailed results; `selectedAnswer` is `None` for `null`. */
  datatype ResultRow = ResultRow(
    questionIndex: nat,
    question: string,
    options: seq<string>,
    correctAnswer: int,
    selectedAnswer: Option<int>,
    isCorrect: bool,
    explanation: string)

  function Asks(k: nat): Answer -> bool {
    (a: Answer) => a.questionIndex == k
  }

  function Answers(k: nat): UserAnswer -> bool {
    (u: UserAnswer) => u.questionIndex == k
  }

  /** The row for question `k`: the first recorded answer to it decides the
      selection and correctness; without one the selection is `null` and the
      row is not correct. */
  function Row(quiz: Quiz, k: nat): (row: ResultRow)
    requires k < |quiz.questions|
    ensures row.questionIndex == k
    ensures var q := quiz.questions[k];
      && row.question == q.question && row.options == q.options
      && row.correctAnswer == q.correctAnswer && row.explanation == q.explanation
    ensures row.selectedAnswer.None? <==> forall j :: 0 <= j < |quiz.userAnswers| ==> quiz.userAnswers[j].questionIndex != k
    ensures row.selectedAnswer.None? ==> !row.isCorrect
    ensures row.selectedAnswer.Some? ==>
      exists j ::
        && 0 <= j < |quiz.userAnswers| && quiz.userAnswers[j].questionIndex == k
        && (forall i :: 0 <= i < j ==> quiz.userAnswers[i].questionIndex != k)
        && row.selectedAnswer.value == quiz.userAnswers[j].selectedAnswer
        && row.isCorrect == quiz.userAnswers[j].isCorrect
  {
    var q := quiz.questions[k];
    match FindIndex(quiz.userAnswers, Answers(k))
    case None => ResultRow(k, q.question, q.options, q.correctAnswer, None, false, q.explanation)
    case Some(j) =>
      var u := quiz.userAnswers[j];
      ResultRow(k, q.question, q.options, q.correctAnswer, Some(u.selectedAnswer), u.isCorrect, q.explanation)
  }

  function Rows(quiz: Quiz): (rows: seq<ResultRow>)
    ensures |rows| == |quiz.questions|
    ensures forall k :: 0 <= k < |rows| ==> rows[k] == Row(quiz, k)
  {
    seq(|quiz.questions|, k requires 0 <= k < |quiz.questions| => Row(quiz, k))
  }

  /** The `getQuizResults` handler: refused for a missing or unsubmitted quiz. */
  function QuizResults(quizzes: seq<Quiz>, userId: Id, quizId: Id): (r: Result<(Quiz, seq<ResultRow>), ResultsError>)
    ensures r == Err(ResultsQuizNotFound) <==> forall i :: 0 <= i < |quizzes| ==> !Owned(quizId, userId)(quizzes[i])
    ensures r == Err(NotYetSubmitted) ==> exists i :: 0 <= i < |quizzes| && Owned(quizId, userId)(quizzes[i]) && quizzes[i].completedAt.None?
    ensures r.Ok? ==> r.value.0.completedAt.Some? && Owned(quizId, userId)(r.value.0) && r.value.0 in quizzes
    ensures r.Ok? ==> |r.value.1| == |r.value.0.questions|
    ensures r.Ok? ==> r.value.1 == Rows(r.value.0)
    ensures r.Ok? ==>
      exists i ::
        && 0 <= i < |quizzes| && quizzes[i] == r.value.0
        && (forall j :: 0 <= j < i ==> !Owned(quizId, userId)(quizzes[j]))
  {
    match FindIndex(quizzes, Owned(quizId, userId))
    case None => Err(ResultsQuizNotFound)
    case Some(i) =>
      var quiz := quizzes[i];
      if quiz.completedAt.None? then Err(NotYetSubmitted) else Ok((quiz, Rows(quiz)))
  }

  /** The first recorded answer to an in-range question is the first submitted
      answer to it. */
  lemma {:induction false} GradeAllFirst(questions: seq<QuizQuestion>, answers: seq<Answer>, now: Time, k: nat)
    requires k < |questions|
    ensures match FindIndex(answers, Asks(k))
      case None => FindIndex(GradeAll(questions, answers, now), Answers(k)).None?
      case Some(j) =>
        (FindIndex(GradeAll(questions, answers, now), Answers(k)).Some?
         && GradeAll(questions, answers, now)[FindIndex(GradeAll(questions, answers, now), Answers(k)).value].selectedAnswer
            == answers[j].selectedAnswer)
    decreases |answers|
  {
    if |answers| > 0 {
      GradeAllFirst(questions, answers[1..], now, k);
    }
  }

  /** What grading records about one entry: an in-range index, the
      selection, and correctness against that question. */
  lemma GradeAllEntry(questions: seq<QuizQuestion>, answers: seq<Answer>, now: Time, m: nat)
    requires m < |GradeAll(questions, answers, now)|
    ensures GradeAll(questions, answers, now)[m].questionIndex < |questions|
    ensures GradeAll(questions, answers, now)[m].isCorrect <==>
      questions[GradeAll(questions, answers, now)[m].questionIndex].correctAnswer == GradeAll(questions, answers, now)[m].selectedAnswer
  {
    GradeAllSpec(questions, answers, now);
  }

  /** Results read back a submission: after submitting, the row of each
      question shows the first submitted answer to it (or `null` when there is
      none), and is correct exactly when that answer is the question's correct
      answer. */
  lemma ResultsAfterSubmit(quiz: Quiz, answers: seq<Answer>, now: Time, k: nat)
    requires Submit(quiz, answers, now).Ok? && k < |quiz.questions|
    ensures Row(Submit(quiz, answers, now).value.quiz, k).selectedAnswer ==
      match FindIndex(answers, Asks(k))
      case None => None
      case Some(j) => Some(answers[j].selectedAnswer)
    ensures Row(Submit(quiz, answers, now).value.quiz, k).isCorrect <==>
      Row(Submit(quiz, answers, now).value.quiz, k).selectedAnswer == Some(quiz.questions[k].correctAnswer)
  {
    var q := Submit(quiz, answers, now).value.quiz;
    var recorded := GradeAll(quiz.questions, answers, now);
    assert q.userAnswers == recorded && q.questions == quiz.questions;
    GradeAllFirst(quiz.questions, answers, now, k);
    match FindIndex(recorded, Answers(k))
    case None =>
    case Some(m) =>
      GradeAllEntry(quiz.questions, answers, now, m);
  }
}
