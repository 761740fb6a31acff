/** The teacher's results screen: submissions fetched from the server, normalised, filtered per
    student and quiz, scored as a percentage, and checked question by question. */
module Results {
  import opened Common
  import opened Text
  import opened Schema
  import opened Front
  import Scoring

  /** An answer row as the server sends it, under either key spelling. */
  datatype RawAnswer = RawAnswer(questionId: Option<Id>, question_id: Option<Id>, optionId: Option<Id>, option_id: Option<Id>)

  /** A submission as the server sends it. `score` is the stored percentage in hundredths, absent
      while the attempt is not submitted. */
  datatype RawSubmission = RawSubmission(
    id: Id,
    quiz_id: Option<Id>,
    quizId: Option<Id>,
    student_id: Option<Id>,
    studentId: Option<Id>,
    submitted_at: Option<string>,
    submittedAt: Option<string>,
    started_at: Option<string>,
    startedAt: Option<string>,
    score: Option<Hundredths>,
    answers: Option<seq<RawAnswer>>)

  /** `normSub`: the camelCase fields take the snake_case value when there is one. */
  function NormSub(s: RawSubmission): (r: RawSubmission)
    ensures s.quiz_id.Some? ==> r.quizId == s.quiz_id
    ensures s.quiz_id.None? ==> r.quizId == s.quizId
    ensures s.student_id.Some? ==> r.studentId == s.student_id
    ensures s.student_id.None? ==> r.studentId == s.studentId
    ensures s.submitted_at.Some? ==> r.submittedAt == s.submitted_at
    ensures s.submitted_at.None? ==> r.submittedAt == s.submittedAt
    ensures s.started_at.Some? ==> r.startedAt == s.started_at
    ensures s.started_at.None? ==> r.startedAt == s.startedAt
    ensures r.(quizId := s.quizId, studentId := s.studentId, submittedAt := s.submittedAt, startedAt := s.startedAt) == s
  {
    s.(quizId := Coalesce(s.quiz_id, s.quizId), studentId := Coalesce(s.student_id, s.studentId),
       submittedAt := Coalesce(s.submitted_at, s.submittedAt), startedAt := Coalesce(s.started_at, s.startedAt))
  }

  /** Normalising twice is normalising once, so the screen may normalise data it fetched already
      normalised. */
  lemma NormSubIdempotent(s: RawSubmission)
    ensures NormSub(NormSub(s)) == NormSub(s)
  {
  }

  /** `Number(s.score)` in hundredths: a missing score reads as 0. */
  function ScorePoints(s: RawSubmission): Hundredths {
    if s.score.Some? then s.score.value else 0
  }

  /** The percentage as the screen computes it: it divides the score by the number of
      questions, as if the score counted correct answers. */
  function PercentAsWritten(score: Hundredths, total: nat): (r: int)
    ensures total == 0 ==> r == 0
    ensures total > 0 && score >= 0 ==> r >= 0
    ensures 0 < total < 100 && score == 10000 ==> r > 100
  {
    if total > 0 then
      if score >= 0 then
        RoundDivExact(0, total);
        RoundDivMonotone(0, score, total);
        assert score == 10000 && total < 100 ==> RoundDiv(score, total) > 100 by {
          if score == 10000 && total < 100 {
            RoundDivBetween(score, total, 101, 10000);
          }
        }
        RoundDiv(score, total)
      else RoundDiv(score, total)
    else 0
  }

  /** A submission with every answer right on a four-question quiz is shown as 2500%. */
  lemma PercentAsWrittenOverflows()
    ensures PercentAsWritten(Scoring.Percentage(4, 4), 4) == 2500
  {
    RoundDivExact(2500, 4);
  }

  /** The percentage the screen evidently means to show: the stored percentage, rounded to a
      whole number, and 0 for a quiz without questions. */
  function Percent(score: Hundredths, total: nat): (r: int)
    ensures total == 0 ==> r == 0
    ensures total > 0 && 0 <= score <= 10000 ==> 0 <= r <= 100
  {
    if total > 0 then
      if 0 <= score <= 10000 then
        RoundDivBetween(score, 100, 0, 100);
        RoundDiv(score, 100)
      else RoundDiv(score, 100)
    else 0
  }

  /** For every score the server stores, the screen's percentage lies between 0 and 100, is 100
      for a submission with every answer right and 0 for one with none. */
  lemma PercentOfStoredScore(correct: nat, total: nat)
    requires correct <= total && total > 0
    ensures 0 <= Percent(Scoring.Percentage(correct, total), total) <= 100
    ensures correct == total ==> Percent(Scoring.Percentage(correct, total), total) == 100
    ensures correct == 0 ==> Percent(Scoring.Percentage(correct, total), total) == 0
  {
    var p := Scoring.Percentage(correct, total);
    assert 0 <= p <= 10000;
    if correct == total {
      assert p == 100 * 100;
      RoundDivExact(100, 100);
    }
    if correct == 0 {
      assert p == 0 * 100;
      RoundDivExact(0, 100);
    }
  }

  /** A value as JavaScript's `===` compares it: a number is never strictly equal to a string. */
  datatype JsValue = JsNumber(n: int) | JsString(s: string) | JsUndefined

  /** `sub.quiz_id ?? sub.quizId` as it arrives from the server: a number. */
  function QuizKey(sub: RawSubmission): JsValue {
    var k := Coalesce(sub.quiz_id, sub.quizId);
    if k.Some? then JsNumber(k.value) else JsUndefined
  }

  /** `quizzes.find(q => q.id === key)`, the catalogue's ids being strings. */
  function FindQuizStrict(quizzes: seq<FrontQuiz>, key: JsValue): (r: Option<FrontQuiz>)
    ensures r.Some? ==> r.value in quizzes && JsString(r.value.id) == key
  {
    if quizzes == [] then None
    else if JsString(quizzes[0].id) == key then Some(quizzes[0])
    else FindQuizStrict(quizzes[1..], key)
  }

  /** The score the summary export hands to the report, as written: the quiz is looked up with
      `===`, so its question count is 0 whenever the lookup misses. */
  function ExportScoreAsWritten(quizzes: seq<FrontQuiz>, sub: RawSubmission): (r: int)
    ensures FindQuizStrict(quizzes, QuizKey(NormSub(sub))).None? ==> r == 0
  {
    var total := match FindQuizStrict(quizzes, QuizKey(NormSub(sub))) case Some(quiz) => |quiz.questions| case None => 0;
    PercentAsWritten(ScorePoints(sub), total)
  }

  /** A numeric quiz id never finds its quiz, so every exported score is 0. */
  lemma ExportScoreAlwaysZero(quizzes: seq<FrontQuiz>, sub: RawSubmission)
    ensures ExportScoreAsWritten(quizzes, sub) == 0
  {
    var key := QuizKey(NormSub(sub));
    assert !key.JsString?;
    assert FindQuizStrict(quizzes, key).None?;
  }

  /** The exported score with the quiz found by `String(id)` and the stored percentage kept. */
  function ExportScore(quizzes: seq<FrontQuiz>, sub: RawSubmission): (r: int)
    ensures FindQuiz(quizzes, OptIdString(NormSub(sub).quizId)).None? ==> r == 0
    ensures 0 <= ScorePoints(sub) <= 10000 ==> 0 <= r <= 100
  {
    var quiz := FindQuiz(quizzes, OptIdString(NormSub(sub).quizId));
    Percent(ScorePoints(sub), if quiz.Some? then |quiz.value.questions| else 0)
  }

  /** The submissions the per-quiz export keeps, as written: `(quiz_id ?? quizId) === quizId`
      with the catalogue's string id. */
  function ExportQuizSubmissionsAsWritten(subs: seq<RawSubmission>, quizId: string): (r: seq<RawSubmission>)
    ensures |r| <= |subs|
    ensures forall k :: 0 <= k < |r| ==> r[k] in subs && QuizKey(r[k]) == JsString(quizId)
  {
    Filter(subs, (s: RawSubmission) => QuizKey(s) == JsString(quizId))
  }

  /** The per-quiz export never keeps a submission, so the detailed report is always empty. */
  lemma ExportQuizSubmissionsAlwaysEmpty(subs: seq<RawSubmission>, quizId: string)
    ensures ExportQuizSubmissionsAsWritten(subs, quizId) == []
  {
    FilterNone(subs, (s: RawSubmission) => QuizKey(s) == JsString(quizId));
  }

  /** The submission is for quiz `quizId` once both ids are compared as strings. */
  predicate ForQuiz(s: RawSubmission, quizId: string) {
    OptIdString(Coalesce(s.quiz_id, s.quizId)) == quizId
  }

  /** The submissions the per-quiz export evidently means to keep: those of that quiz. */
  function ExportQuizSubmissions(subs: seq<RawSubmission>, quizId: string): (r: seq<RawSubmission>)
    ensures forall i :: 0 <= i < |r| ==> r[i] in subs && ForQuiz(r[i], quizId)
    ensures forall i :: 0 <= i < |subs| && ForQuiz(subs[i], quizId) ==> subs[i] in r
  {
    Filter(subs, (s: RawSubmission) => ForQuiz(s, quizId))
  }

  /** An attempt as the results screen lists it. */
  datatype ResultAttempt = ResultAttempt(
    id: Id,
    quizId: Option<Id>,
    studentId: Option<Id>,
    answers: seq<RawAnswer>,
    completedAt: string,
    score: Hundredths,
    scorePct: int,
    totalQuestions: nat,
    quiz: Option<FrontQuiz>)

  /** The submission belongs to the student and passes the quiz filter (`'all'` or a quiz id). */
  predicate Matching(sub: RawSubmission, studentId: string, selectedQuiz: string) {
    var s := NormSub(sub);
    OptIdString(s.studentId) == studentId && (selectedQuiz == "all" || OptIdString(s.quizId) == selectedQuiz)
  }

  /** `submittedAt || startedAt`. */
  function CompletedAt(sub: RawSubmission): Option<string> {
    OrText(NormSub(sub).submittedAt, NormSub(sub).startedAt)
  }

  /** The listed attempt for a submission, or nothing when it has neither date. */
  function AttemptOf(quizzes: seq<FrontQuiz>, sub: RawSubmission): (r: Option<ResultAttempt>)
    ensures r.Some? <==> CompletedAt(sub).Some?
    ensures r.Some? ==> r.value.id == sub.id && r.value.completedAt == CompletedAt(sub).value
    ensures r.Some? ==> r.value.quiz == FindQuiz(quizzes, OptIdString(NormSub(sub).quizId))
    ensures r.Some? ==> r.value.scorePct == PercentAsWritten(ScorePoints(sub), r.value.totalQuestions)
    ensures r.Some? && r.value.quiz.Some? ==> r.value.totalQuestions == |r.value.quiz.value.questions|
    ensures r.Some? && r.value.quiz.None? ==> r.value.totalQuestions == 0
  {
    var s := NormSub(sub);
    var quiz := FindQuiz(quizzes, OptIdString(s.quizId));
    var total := if quiz.Some? then |quiz.value.questions| else 0;
    var completed := CompletedAt(sub);
    if completed.None? then None
    else
      Some(ResultAttempt(s.id, s.quizId, s.studentId, if s.answers.Some? then s.answers.value else [],
                         completed.value, ScorePoints(s), PercentAsWritten(ScorePoints(s), total), total, quiz))
  }

  /** A submission with every answer right on a quiz of fewer than 100 questions is listed above
      100%. */
  lemma ListedFullScoreOverflows(quizzes: seq<FrontQuiz>, sub: RawSubmission)
    requires CompletedAt(sub).Some? && ScorePoints(sub) == 10000
    requires FindQuiz(quizzes, OptIdString(NormSub(sub).quizId)).Some?
    requires 0 < |FindQuiz(quizzes, OptIdString(NormSub(sub).quizId)).value.questions| < 100
    ensures AttemptOf(quizzes, sub).Some? && AttemptOf(quizzes, sub).value.scorePct > 100
  {
  }

  /** The listed attempt for one submission, when it passes the student and quiz filter. */
  function Listed(quizzes: seq<FrontQuiz>, sub: RawSubmission, studentId: string, selectedQuiz: string): Option<ResultAttempt> {
    if Matching(sub, studentId, selectedQuiz) then AttemptOf(quizzes, sub) else None
  }

  /** `getStudentAttempts`: the student's submissions that pass the quiz filter, in order, each
      as its listed attempt, without those that have neither date. */
  function StudentAttempts(subs: seq<RawSubmission>, quizzes: seq<FrontQuiz>, studentId: string, selectedQuiz: string)
    : (r: seq<ResultAttempt>)
    ensures |r| <= |subs|
  {
    if subs == [] then []
    else
      var here := Listed(quizzes, subs[0], studentId, selectedQuiz);
      var rest := StudentAttempts(subs[1..], quizzes, studentId, selectedQuiz);
      if here.Some? then [here.value] + rest else rest
  }

  /** Every listed attempt comes from a submission of the student that passes the quiz filter. */
  lemma {:induction false} StudentAttemptsSound(subs: seq<RawSubmission>, quizzes: seq<FrontQuiz>, studentId: string, selectedQuiz: string, k: nat)
    requires k < |StudentAttempts(subs, quizzes, studentId, selectedQuiz)|
    ensures exists i :: 0 <= i < |subs| && Matching(subs[i], studentId, selectedQuiz)
                        && AttemptOf(quizzes, subs[i]) == Some(StudentAttempts(subs, quizzes, studentId, selectedQuiz)[k])
  {
    var r := StudentAttempts(subs, quizzes, studentId, selectedQuiz);
    var here := Listed(quizzes, subs[0], studentId, selectedQuiz);
    var rest := StudentAttempts(subs[1..], quizzes, studentId, selectedQuiz);
    if here.Some? && k == 0 {
      assert AttemptOf(quizzes, subs[0]) == Some(r[0]);
    } else {
      var k' := if here.Some? then k - 1 else k;
      assert r[k] == rest[k'];
      StudentAttemptsSound(subs[1..], quizzes, studentId, selectedQuiz, k');
      var i :| 0 <= i < |subs[1..]| && Matching(subs[1..][i], studentId, selectedQuiz)
               && AttemptOf(quizzes, subs[1..][i]) == Some(rest[k']);
      assert subs[i + 1] == subs[1..][i];
    }
  }

  /** Every submission of the student that passes the quiz filter and has a date is listed. */
  lemma {:induction false} StudentAttemptsComplete(subs: seq<RawSubmission>, quizzes: seq<FrontQuiz>, studentId: string, selectedQuiz: string, i: nat)
    requires i < |subs| && Matching(subs[i], studentId, selectedQuiz) && CompletedAt(subs[i]).Some?
    ensures AttemptOf(quizzes, subs[i]).value in StudentAttempts(subs, quizzes, studentId, selectedQuiz)
  {
    var here := Listed(quizzes, subs[0], studentId, selectedQuiz);
    var rest := StudentAttempts(subs[1..], quizzes, studentId, selectedQuiz);
    if i > 0 {
      assert subs[1..][i - 1] == subs[i];
      StudentAttemptsComplete(subs[1..], quizzes, studentId, selectedQuiz, i - 1);
      assert AttemptOf(quizzes, subs[i]).value in rest;
    }
  }

  /** `answers.find(...)`: the first answer whose question id, under either key, is `qId`. */
  function FindAnswer(answers: seq<RawAnswer>, qId: string): (r: Option<RawAnswer>)
    ensures r.Some? ==> r.value in answers && Coalesce(r.value.questionId, r.value.question_id).Some?
                        && IdString(Coalesce(r.value.questionId, r.value.question_id).value) == qId
    ensures r.None? ==> forall k :: 0 <= k < |answers| ==>
              Coalesce(answers[k].questionId, answers[k].question_id).None?
              || IdString(Coalesce(answers[k].questionId, answers[k].question_id).value) != qId
  {
    if answers == [] then None
    else
      var key := Coalesce(answers[0].questionId, answers[0].question_id);
      if key.Some? && IdString(key.value) == qId then Some(answers[0])
      else FindAnswer(answers[1..], qId)
  }

  /** `String(opt.id)`: a legacy caption has no id. */
  function OptionIdText(o: OptionValue): string {
    if o.QuizOption? then o.id else "undefined"
  }

  /** `question.options.find(opt => opt.isCorrect ?? opt.is_correct)`: the first correct option. */
  function FirstCorrect(options: seq<OptionValue>): (r: Option<nat>)
    ensures r.Some? ==> r.value < |options| && options[r.value].QuizOption? && options[r.value].isCorrect
    ensures r.Some? ==> forall k :: 0 <= k < r.value ==> !(options[k].QuizOption? && options[k].isCorrect)
    ensures r.None? ==> forall k :: 0 <= k < |options| ==> !(options[k].QuizOption? && options[k].isCorrect)
  {
    if options == [] then None
    else if options[0].QuizOption? && options[0].isCorrect then Some(0)
    else
      var rest := FirstCorrect(options[1..]);
      if rest.Some? then Some(rest.value + 1) else None
  }

  /** `findIndex`: the first option with the given id, or -1. */
  function IndexOfOption(options: seq<OptionValue>, id: string): (r: int)
    ensures -1 <= r < |options|
    ensures r >= 0 ==> OptionIdText(options[r]) == id && forall k :: 0 <= k < r ==> OptionIdText(options[k]) != id
    ensures r == -1 ==> forall k :: 0 <= k < |options| ==> OptionIdText(options[k]) != id
  {
    if options == [] then -1
    else if OptionIdText(options[0]) == id then 0
    else
      var rest := IndexOfOption(options[1..], id);
      if rest >= 0 then rest + 1 else -1
  }

  /** The id of the option the student chose for `q`, when an answer names one. */
  function SelectedOptionId(q: FrontQuestion, answers: seq<RawAnswer>): Option<string> {
    var answer := FindAnswer(answers, q.id);
    if answer.Some? && Coalesce(answer.value.optionId, answer.value.option_id).Some? then
      Some(IdString(Coalesce(answer.value.optionId, answer.value.option_id).value))
    else None
  }

  /** The position of the chosen option, -1 when unanswered or when no option has that id. */
  function SelectedIndex(q: FrontQuestion, answers: seq<RawAnswer>): int {
    var sel := SelectedOptionId(q, answers);
    if sel.Some? then IndexOfOption(q.options, sel.value) else -1
  }

  /** The question is shown as right: a correct option exists and the chosen option's id is the
      id of the first correct option. */
  predicate QuestionIsCorrect(q: FrontQuestion, answers: seq<RawAnswer>) {
    var c := FirstCorrect(q.options);
    c.Some? && SelectedOptionId(q, answers).Some? && OptionIdText(q.options[c.value]) == SelectedOptionId(q, answers).value
  }

  /** Without any answer for the question it is shown as unanswered and not right. */
  lemma UnansweredQuestion(q: FrontQuestion, answers: seq<RawAnswer>)
    requires forall k :: 0 <= k < |answers| ==>
               Coalesce(answers[k].questionId, answers[k].question_id).None?
               || IdString(Coalesce(answers[k].questionId, answers[k].question_id).value) != q.id
    ensures SelectedIndex(q, answers) == -1 && !QuestionIsCorrect(q, answers)
  {
  }

  /** When the options have distinct ids, a question shown as right has its chosen position on
      the first correct option. */
  lemma CorrectQuestionShowsCorrectOption(q: FrontQuestion, answers: seq<RawAnswer>)
    requires forall a, b :: 0 <= a < b < |q.options| ==> OptionIdText(q.options[a]) != OptionIdText(q.options[b])
    requires QuestionIsCorrect(q, answers)
    ensures SelectedIndex(q, answers) == FirstCorrect(q.options).value
  {
    var c := FirstCorrect(q.options).value;
    var r := SelectedIndex(q, answers);
    assert r >= 0 && r <= c;
  }

  /** Only the first correct option is credited: choosing another correct option shows the
      question as wrong. */
  lemma SecondCorrectOptionNotCredited(q: FrontQuestion, answers: seq<RawAnswer>, j: nat)
    requires j < |q.options| && q.options[j].QuizOption? && q.options[j].isCorrect
    requires FirstCorrect(q.options).Some? && FirstCorrect(q.options).value != j
    requires OptionIdText(q.options[FirstCorrect(q.options).value]) != OptionIdText(q.options[j])
    requires SelectedOptionId(q, answers) == Some(OptionIdText(q.options[j]))
    ensures !QuestionIsCorrect(q, answers)
  {
  }
}
