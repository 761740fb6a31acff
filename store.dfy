/** The backend database as one mutable object: the authoring tables a teacher writes and the
    attempt tables a student writes, each a map keyed by primary key (submissions by their unique
    (quiz_id, student_id) pair), with the next auto-increment value of every table. */
module Store {
  import opened Common
  import opened Schema

  /** The authoring tables and their auto-increment counters. */
  datatype Catalog = Catalog(
    classes: map<Id, ClassRow>,
    quizzes: map<Id, QuizRow>,
    questions: map<Id, QuestionRow>,
    options: map<Id, OptionRow>,
    nextQuizId: Id,
    nextQuestionId: Id,
    nextOptionId: Id)

  /** The attempt tables: submissions keyed by (quiz_id, student_id) and the answer rows in
      insertion order. */
  datatype Attempts = Attempts(
    submissions: map<SubmissionKey, Submission>,
    answers: seq<AnswerRow>,
    nextSubmissionId: Id)

  /** Keys lie below their counters, and every question and option row points at an existing
      parent row. */
  predicate ValidCatalog(c: Catalog) {
    (forall q :: q in c.quizzes ==> q < c.nextQuizId)
    && (forall q :: q in c.questions ==> q < c.nextQuestionId && c.questions[q].quizId in c.quizzes)
    && (forall o :: o in c.options ==> o < c.nextOptionId && c.options[o].questionId in c.questions)
  }

  /** The submissions table's constraints; ids lie below the counter; and an attempt has a score
      exactly when it has been submitted (both are written by the same update). */
  predicate ValidAttempts(a: Attempts) {
    SubmissionsTable(a.submissions)
    && (forall k :: k in a.submissions ==> a.submissions[k].id < a.nextSubmissionId)
    && (forall k :: k in a.submissions ==> (IsSubmitted(a.submissions[k]) <==> a.submissions[k].score.Some?))
  }

  class Database {
    var classes: map<Id, ClassRow>
    var quizzes: map<Id, QuizRow>
    var questions: map<Id, QuestionRow>
    var options: map<Id, OptionRow>
    var nextQuizId: Id
    var nextQuestionId: Id
    var nextOptionId: Id
    var submissions: map<SubmissionKey, Submission>
    var answers: seq<AnswerRow>
    var nextSubmissionId: Id

    /** The authoring tables as a value. */
    function Authoring(): Catalog
      reads this
    {
      Catalog(classes, quizzes, questions, options, nextQuizId, nextQuestionId, nextOptionId)
    }

    /** The attempt tables as a value. */
    function AttemptState(): Attempts
      reads this
    {
      Attempts(submissions, answers, nextSubmissionId)
    }

    ghost predicate Valid()
      reads this
    {
      ValidCatalog(Authoring()) && ValidAttempts(AttemptState())
    }

    /** A database holding the given classes and nothing else; every counter starts at 1. */
    constructor (initialClasses: map<Id, ClassRow>)
      ensures Valid()
      ensures Authoring() == Catalog(initialClasses, map[], map[], map[], 1, 1, 1)
      ensures AttemptState() == Attempts(map[], [], 1)
    {
      classes := initialClasses;
      quizzes := map[];
      questions := map[];
      options := map[];
      nextQuizId := 1;
      nextQuestionId := 1;
      nextOptionId := 1;
      submissions := map[];
      answers := [];
      nextSubmissionId := 1;
    }
  }
}
