/** The student side of the backend: listing the quizzes of the student's class with a status
    label, starting an attempt and submitting it. Each action is a function from the current
    tables to a result and the new tables; `StartQuiz` and `SubmitQuiz` perform the same actions
    in place on a `Database`. */
module StudentController {
  import opened Common
  import opened Schema
  import opened Scoring
  import opened Store

  /** The error responses: 403, 404 (quiz or submission), 400 (not available, already submitted),
      422 and 500. */
  datatype Failure =
    | Unauthorized
    | QuizNotFound
    | SubmissionNotFound
    | NotAvailable
    | AlreadySubmitted
    | InvalidAnswers
    | ServerError

  function HttpStatus(f: Failure): nat {
    match f
    case Unauthorized => 403
    case QuizNotFound => 404
    case SubmissionNotFound => 404
    case NotAvailable => 400
    case AlreadySubmitted => 400
    case InvalidAnswers => 422
    case ServerError => 500
  }

  /** The `submissionStatus` label of a listed quiz. */
  datatype Status = Completed | InProgress | Late | Pending

  function Lookup(subs: map<SubmissionKey, Submission>, key: SubmissionKey): Option<Submission> {
    if key in subs then Some(subs[key]) else None
  }

  /** `!$user->class_id` is false: the student belongs to a class. */
  predicate HasClass(user: User) {
    user.classId.Some? && user.classId.value != 0
  }

  /** The quiz is assigned to the user's class (the `whereHas('classes', …)` filter). */
  predicate Assigned(quiz: QuizRow, user: User) {
    user.classId.Some? && user.classId.value in quiz.classIds
  }

  /** Both ends of the availability window are inclusive. */
  predicate InWindow(quiz: QuizRow, now: Time) {
    quiz.openAt <= now <= quiz.closeAt
  }

  /** The status of a quiz for a student: a submitted attempt is completed, an unsubmitted one in
      progress; without an attempt the quiz is late once `close_at` has strictly passed, and
      pending until then. */
  function StatusOf(sub: Option<Submission>, closeAt: Time, now: Time): (st: Status)
    ensures st == Completed <==> sub.Some? && IsSubmitted(sub.value)
    ensures st == InProgress <==> sub.Some? && !IsSubmitted(sub.value)
    ensures st == Late <==> sub.None? && now > closeAt
    ensures st == Pending <==> sub.None? && now <= closeAt
  {
    if sub.Some? && IsSubmitted(sub.value) then Completed
    else if sub.Some? then InProgress
    else if now > closeAt then Late
    else Pending
  }

  datatype Listing = ListRefused(failure: Failure) | Listed(statuses: map<Id, Status>)

  /** `getQuizzes`: the quizzes of the student's class that have opened, each with its status. */
  function ListQuizzes(quizzes: map<Id, QuizRow>, subs: map<SubmissionKey, Submission>, user: User, now: Time): (r: Listing)
    ensures r.ListRefused? <==> user.role != Student
    ensures r.ListRefused? ==> r.failure == Unauthorized
    ensures r.Listed? && !HasClass(user) ==> r.statuses == map[]
    ensures r.Listed? && HasClass(user) ==>
              forall q :: q in r.statuses <==> q in quizzes && Assigned(quizzes[q], user) && quizzes[q].openAt <= now
    ensures r.Listed? ==>
              forall q :: q in r.statuses ==> r.statuses[q] == StatusOf(Lookup(subs, (q, user.id)), quizzes[q].closeAt, now)
  {
    if user.role != Student then ListRefused(Unauthorized)
    else if !HasClass(user) then Listed(map[])
    else
      Listed(map q | q in quizzes && Assigned(quizzes[q], user) && quizzes[q].openAt <= now
                   :: StatusOf(Lookup(subs, (q, user.id)), quizzes[q].closeAt, now))
  }

  datatype StartResult =
    | Created(submission: Submission)
    | Resumed(submission: Submission)
    | StartRefused(failure: Failure)

  /** A fresh attempt: started now, due `duration_minutes` later, not submitted, no score. */
  function NewAttempt(id: Id, quizId: Id, studentId: Id, quiz: QuizRow, now: Time): Submission {
    Submission(id, quizId, studentId, now, now + 60 * quiz.durationMinutes, None, None)
  }

  /** `startQuiz`: the response and the attempt tables afterwards. */
  function Start(cat: Catalog, st: Attempts, user: User, quizId: Id, now: Time): (r: (StartResult, Attempts))
    ensures r.0.Created? <==> user.role == Student && quizId in cat.quizzes && Assigned(cat.quizzes[quizId], user)
                              && InWindow(cat.quizzes[quizId], now) && (quizId, user.id) !in st.submissions
    ensures !r.0.Created? ==> r.1 == st
    // The refusals, in the order the action checks them.
    ensures user.role != Student ==> r.0 == StartRefused(Unauthorized)
    ensures user.role == Student && !(quizId in cat.quizzes && Assigned(cat.quizzes[quizId], user))
            ==> r.0 == StartRefused(QuizNotFound)
    ensures user.role == Student && quizId in cat.quizzes && Assigned(cat.quizzes[quizId], user)
            && !InWindow(cat.quizzes[quizId], now)
            ==> r.0 == StartRefused(NotAvailable)
    ensures user.role == Student && quizId in cat.quizzes && Assigned(cat.quizzes[quizId], user)
            && InWindow(cat.quizzes[quizId], now) && (quizId, user.id) in st.submissions
            ==> r.0 == if IsSubmitted(st.submissions[(quizId, user.id)]) then StartRefused(AlreadySubmitted)
                       else Resumed(st.submissions[(quizId, user.id)])
    ensures r.0.StartRefused? ==> HttpStatus(r.0.failure) in {400, 403, 404}
  {
    if user.role != Student then (StartRefused(Unauthorized), st)
    else if quizId !in cat.quizzes || !Assigned(cat.quizzes[quizId], user) then (StartRefused(QuizNotFound), st)
    else if !InWindow(cat.quizzes[quizId], now) then (StartRefused(NotAvailable), st)
    else if (quizId, user.id) in st.submissions then
      var existing := st.submissions[(quizId, user.id)];
      if IsSubmitted(existing) then (StartRefused(AlreadySubmitted), st) else (Resumed(existing), st)
    else
      var s := NewAttempt(st.nextSubmissionId, quizId, user.id, cat.quizzes[quizId], now);
      (Created(s), st.(submissions := st.submissions[(quizId, user.id) := s], nextSubmissionId := st.nextSubmissionId + 1))
  }

  /** Starting an assigned quiz is refused as not available exactly when now lies outside
      [open_at, close_at]. */
  lemma StartWindow(cat: Catalog, st: Attempts, user: User, quizId: Id, now: Time)
    requires user.role == Student && quizId in cat.quizzes && Assigned(cat.quizzes[quizId], user)
    ensures Start(cat, st, user, quizId, now).0 == StartRefused(NotAvailable)
            <==> now < cat.quizzes[quizId].openAt || now > cat.quizzes[quizId].closeAt
  {
  }

  /** With an attempt already stored, start refuses a submitted attempt and returns an unsubmitted
      one unchanged; the tables stay as they were. */
  lemma StartExisting(cat: Catalog, st: Attempts, user: User, quizId: Id, now: Time)
    requires user.role == Student && quizId in cat.quizzes && Assigned(cat.quizzes[quizId], user)
    requires InWindow(cat.quizzes[quizId], now)
    requires (quizId, user.id) in st.submissions
    ensures Start(cat, st, user, quizId, now).1 == st
    ensures IsSubmitted(st.submissions[(quizId, user.id)]) ==>
              Start(cat, st, user, quizId, now).0 == StartRefused(AlreadySubmitted)
    ensures !IsSubmitted(st.submissions[(quizId, user.id)]) ==>
              Start(cat, st, user, quizId, now).0 == Resumed(st.submissions[(quizId, user.id)])
  {
  }

  /** A created attempt expires `duration_minutes` after it starts, is unsubmitted and unscored,
      and is the only new row. */
  lemma StartCreates(cat: Catalog, st: Attempts, user: User, quizId: Id, now: Time)
    requires Start(cat, st, user, quizId, now).0.Created?
    ensures var (r, st') := Start(cat, st, user, quizId, now);
            var s := r.submission;
            && s.startedAt == now
            && s.expiresAt == s.startedAt + 60 * cat.quizzes[quizId].durationMinutes
            && !IsSubmitted(s) && s.score.None?
            && (quizId, user.id) !in st.submissions
            && st'.submissions == st.submissions[(quizId, user.id) := s]
            && st'.answers == st.answers
  {
  }

  /** Starting keeps the submissions table's constraints: one row per (quiz, student), distinct
      ids, score present exactly when submitted. */
  lemma StartPreservesValid(cat: Catalog, st: Attempts, user: User, quizId: Id, now: Time)
    requires ValidAttempts(st)
    ensures ValidAttempts(Start(cat, st, user, quizId, now).1)
  {
    var (r, st') := Start(cat, st, user, quizId, now);
    if r.Created? {
      var key := (quizId, user.id);
      assert forall k :: k in st'.submissions && k != key ==> st'.submissions[k].id < st'.submissions[key].id;
    }
  }

  /** A second start of an attempt that is still open, at any moment inside the window, returns the
      very same row and changes nothing. */
  lemma StartTwice(cat: Catalog, st: Attempts, user: User, quizId: Id, now1: Time, now2: Time)
    requires Start(cat, st, user, quizId, now1).0.Created? || Start(cat, st, user, quizId, now1).0.Resumed?
    requires InWindow(cat.quizzes[quizId], now2)
    ensures var (r1, st1) := Start(cat, st, user, quizId, now1);
            Start(cat, st1, user, quizId, now2) == (Resumed(r1.submission), st1)
  {
  }

  /** One entry of the `answers` request array: its `questionId` and `optionId`, either absent. */
  datatype AnswerInput = AnswerInput(questionId: Option<Id>, optionId: Option<Id>)

  /** `questionId` names some question and `optionId` some option (any question, any quiz). */
  predicate AnswerExists(a: AnswerInput, cat: Catalog) {
    a.questionId.Some? && a.questionId.value in cat.questions
    && a.optionId.Some? && a.optionId.value in cat.options
  }

  /** The validation rules of `submitQuiz`: `answers` is present and non-empty, and every entry
      references an existing question and an existing option. */
  predicate ValidAnswers(answers: Option<seq<AnswerInput>>, cat: Catalog) {
    answers.Some? && |answers.value| > 0
    && forall i :: 0 <= i < |answers.value| ==> AnswerExists(answers.value[i], cat)
  }

  /** A missing or empty `answers` list is refused, one entry naming a missing question or option
      refuses the whole request, and a single entry passes exactly when its question and its
      option exist, whether or not the option belongs to that question. */
  lemma AnswerRules(answers: Option<seq<AnswerInput>>, cat: Catalog, i: int, q: Id, o: Id)
    ensures answers.None? || answers == Some([]) ==> !ValidAnswers(answers, cat)
    ensures answers.Some? && 0 <= i < |answers.value| && !AnswerExists(answers.value[i], cat)
            ==> !ValidAnswers(answers, cat)
    ensures ValidAnswers(Some([AnswerInput(Some(q), Some(o))]), cat) <==> q in cat.questions && o in cat.options
  {
    var single := [AnswerInput(Some(q), Some(o))];
    assert single[0] == AnswerInput(Some(q), Some(o));
  }

  /** The answer rows created for a submission, one per request entry, in request order. */
  function AnswerRows(submissionId: Id, answers: seq<AnswerInput>): (rows: seq<AnswerRow>)
    requires forall i :: 0 <= i < |answers| ==> answers[i].questionId.Some? && answers[i].optionId.Some?
    ensures |rows| == |answers|
    ensures forall i :: 0 <= i < |answers| ==>
              rows[i] == AnswerRow(submissionId, answers[i].questionId.value, answers[i].optionId.value)
  {
    if answers == [] then []
    else [AnswerRow(submissionId, answers[0].questionId.value, answers[0].optionId.value)]
         + AnswerRows(submissionId, answers[1..])
  }

  function OfSubmission(id: Id): AnswerRow -> bool {
    (r: AnswerRow) => r.submissionId == id
  }

  function NotOfSubmission(id: Id): AnswerRow -> bool {
    (r: AnswerRow) => r.submissionId != id
  }

  datatype SubmitResult = Submitted(submission: Submission, score: Hundredths) | SubmitRefused(failure: Failure)

  /** `submitQuiz`: the response and the attempt tables afterwards. `fault` stands for a database
      error inside the transaction, which rolls everything back. */
  function Submit(cat: Catalog, st: Attempts, user: User, quizId: Id, answers: Option<seq<AnswerInput>>,
                  now: Time, fault: bool): (r: (SubmitResult, Attempts))
    ensures r.0.Submitted? <==> user.role == Student && quizId in cat.quizzes && Assigned(cat.quizzes[quizId], user)
                                && (quizId, user.id) in st.submissions && !IsSubmitted(st.submissions[(quizId, user.id)])
                                && ValidAnswers(answers, cat) && !fault
    ensures r.0.SubmitRefused? ==> r.1 == st
    // The refusals, in the order the action checks them.
    ensures user.role != Student ==> r.0 == SubmitRefused(Unauthorized)
    ensures user.role == Student && !(quizId in cat.quizzes && Assigned(cat.quizzes[quizId], user))
            ==> r.0 == SubmitRefused(QuizNotFound)
    ensures user.role == Student && quizId in cat.quizzes && Assigned(cat.quizzes[quizId], user)
            && (quizId, user.id) !in st.submissions
            ==> r.0 == SubmitRefused(SubmissionNotFound)
    ensures user.role == Student && quizId in cat.quizzes && Assigned(cat.quizzes[quizId], user)
            && (quizId, user.id) in st.submissions && IsSubmitted(st.submissions[(quizId, user.id)])
            ==> r.0 == SubmitRefused(AlreadySubmitted)
    ensures user.role == Student && quizId in cat.quizzes && Assigned(cat.quizzes[quizId], user)
            && (quizId, user.id) in st.submissions && !IsSubmitted(st.submissions[(quizId, user.id)])
            && !ValidAnswers(answers, cat)
            ==> r.0 == SubmitRefused(InvalidAnswers)
    ensures user.role == Student && quizId in cat.quizzes && Assigned(cat.quizzes[quizId], user)
            && (quizId, user.id) in st.submissions && !IsSubmitted(st.submissions[(quizId, user.id)])
            && ValidAnswers(answers, cat) && fault
            ==> r.0 == SubmitRefused(ServerError)
  {
    if user.role != Student then (SubmitRefused(Unauthorized), st)
    else if quizId !in cat.quizzes || !Assigned(cat.quizzes[quizId], user) then (SubmitRefused(QuizNotFound), st)
    else if (quizId, user.id) !in st.submissions then (SubmitRefused(SubmissionNotFound), st)
    else
      var s := st.submissions[(quizId, user.id)];
      if IsSubmitted(s) then (SubmitRefused(AlreadySubmitted), st)
      else if !ValidAnswers(answers, cat) then (SubmitRefused(InvalidAnswers), st)
      else if fault then (SubmitRefused(ServerError), st)
      else
        var rows := Filter(st.answers, NotOfSubmission(s.id)) + AnswerRows(s.id, answers.value);
        var score := Score(AsWritten, cat.questions, cat.options, quizId, rows, s.id);
        var done := s.(submittedAt := Some(now), score := Some(score));
        (Submitted(done, score), st.(submissions := st.submissions[(quizId, user.id) := done], answers := rows))
  }

  /** A refused submission changes nothing (the transaction is all-or-nothing). */
  lemma SubmitRefusedChangesNothing(cat: Catalog, st: Attempts, user: User, quizId: Id,
                                    answers: Option<seq<AnswerInput>>, now: Time, fault: bool)
    requires Submit(cat, st, user, quizId, answers, now, fault).0.SubmitRefused?
    ensures Submit(cat, st, user, quizId, answers, now, fault).1 == st
  {
  }

  /** After a successful submission the attempt's answer rows are exactly the submitted list, the
      other submissions' rows are untouched, the attempt is submitted at `now`, and its score is
      the score of the submitted list alone. */
  lemma SubmitReplacesAnswers(cat: Catalog, st: Attempts, user: User, quizId: Id,
                              answers: Option<seq<AnswerInput>>, now: Time, fault: bool)
    requires Submit(cat, st, user, quizId, answers, now, fault).0.Submitted?
    ensures var (r, st') := Submit(cat, st, user, quizId, answers, now, fault);
            var id := st.submissions[(quizId, user.id)].id;
            && Filter(st'.answers, OfSubmission(id)) == AnswerRows(id, answers.value)
            && Filter(st'.answers, NotOfSubmission(id)) == Filter(st.answers, NotOfSubmission(id))
            && r.submission == st'.submissions[(quizId, user.id)]
            && r.submission.id == id
            && r.submission.submittedAt == Some(now)
            && r.submission.score == Some(r.score)
            && r.score == Score(AsWritten, cat.questions, cat.options, quizId, AnswerRows(id, answers.value), id)
            && 0 <= r.score <= 10000
  {
    var id := st.submissions[(quizId, user.id)].id;
    var added := AnswerRows(id, answers.value);
    ReplaceAnswers(st.answers, id, added);
    ScoreDependsOnSelection(AsWritten, cat.questions, cat.options, quizId,
                            Filter(st.answers, NotOfSubmission(id)) + added, added, id);
  }

  /** When the request names no (question, option) pair twice, the stored score is the score of
      the intended exact-match test: the two tests differ only on repeated options. */
  lemma SubmitScoreWhenDistinct(cat: Catalog, st: Attempts, user: User, quizId: Id,
                                answers: Option<seq<AnswerInput>>, now: Time, fault: bool)
    requires Submit(cat, st, user, quizId, answers, now, fault).0.Submitted?
    requires NoDuplicates(answers.value)
    ensures var id := st.submissions[(quizId, user.id)].id;
            Submit(cat, st, user, quizId, answers, now, fault).0.score
            == Score(Intended, cat.questions, cat.options, quizId, AnswerRows(id, answers.value), id)
  {
    var id := st.submissions[(quizId, user.id)].id;
    var added := AnswerRows(id, answers.value);
    SubmitReplacesAnswers(cat, st, user, quizId, answers, now, fault);
    forall q | q in QuestionsOf(cat.questions, quizId)
      ensures NoDuplicates(Selected(added, id, q))
    {
      SelectedDistinct(id, answers.value, q);
    }
    ScoreWhenDistinct(cat.questions, cat.options, quizId, added, id);
  }

  /** An option selected for question `q` comes from a request entry naming `q` and that option. */
  lemma {:induction false} SelectedFromEntry(id: Id, entries: seq<AnswerInput>, q: Id, x: Id)
    requires forall i :: 0 <= i < |entries| ==> entries[i].questionId.Some? && entries[i].optionId.Some?
    ensures x in Selected(AnswerRows(id, entries), id, q) ==> AnswerInput(Some(q), Some(x)) in entries
  {
    if entries != [] {
      var rows := AnswerRows(id, entries);
      assert rows[1..] == AnswerRows(id, entries[1..]);
      SelectedFromEntry(id, entries[1..], q, x);
    }
  }

  /** Distinct request entries select each option of a question at most once. */
  lemma {:induction false} SelectedDistinct(id: Id, entries: seq<AnswerInput>, q: Id)
    requires forall i :: 0 <= i < |entries| ==> entries[i].questionId.Some? && entries[i].optionId.Some?
    requires NoDuplicates(entries)
    ensures NoDuplicates(Selected(AnswerRows(id, entries), id, q))
  {
    if entries != [] {
      var rest := entries[1..];
      assert NoDuplicates(rest) by {
        forall i, j | 0 <= i < j < |rest| ensures rest[i] != rest[j] {
          assert rest[i] == entries[i + 1] && rest[j] == entries[j + 1];
        }
      }
      SelectedDistinct(id, rest, q);
      var rows := AnswerRows(id, entries);
      assert rows[1..] == AnswerRows(id, rest);
      var tail := Selected(AnswerRows(id, rest), id, q);
      var e := entries[0];
      if e.questionId == Some(q) {
        var x := e.optionId.value;
        assert e !in rest by {
          forall k | 0 <= k < |rest| ensures rest[k] != e {
            assert rest[k] == entries[k + 1];
          }
        }
        SelectedFromEntry(id, rest, q, x);
        NoDuplicatesCons(x, tail);
      }
    }
  }

  lemma NoDuplicatesCons(x: Id, s: seq<Id>)
    requires NoDuplicates(s) && x !in s
    ensures NoDuplicates([x] + s)
  {
    var xs := [x] + s;
    forall i, j | 0 <= i < j < |xs| ensures xs[i] != xs[j] {
      assert xs[j] == s[j - 1];
      if i > 0 { assert xs[i] == s[i - 1]; }
    }
  }

  /** Deleting a submission's rows and appending new rows of that submission leaves it exactly the
      new rows, and leaves every other submission's rows as they were. */
  lemma ReplaceAnswers(prior: seq<AnswerRow>, id: Id, added: seq<AnswerRow>)
    requires forall i :: 0 <= i < |added| ==> added[i].submissionId == id
    ensures var rows := Filter(prior, NotOfSubmission(id)) + added;
            && Filter(rows, OfSubmission(id)) == added
            && Filter(rows, NotOfSubmission(id)) == Filter(prior, NotOfSubmission(id))
            && forall q :: Selected(rows, id, q) == Selected(added, id, q)
  {
    var kept := Filter(prior, NotOfSubmission(id));
    FilterConcat(kept, added, OfSubmission(id));
    FilterNone(kept, OfSubmission(id));
    FilterAll(added, OfSubmission(id));
    FilterConcat(kept, added, NotOfSubmission(id));
    FilterAll(kept, NotOfSubmission(id));
    FilterNone(added, NotOfSubmission(id));
    assert Filter(kept, NotOfSubmission(id)) + [] == kept;
    forall q ensures Selected(kept + added, id, q) == Selected(added, id, q) {
      SelectedConcat(kept, added, id, q);
      SelectedNone(kept, id, q);
    }
  }

  /** An attempt is accepted at most once: any later submission is refused as already submitted
      and changes nothing. */
  lemma SubmitAtMostOnce(cat: Catalog, st: Attempts, user: User, quizId: Id,
                         answers: Option<seq<AnswerInput>>, now: Time, fault: bool,
                         answers2: Option<seq<AnswerInput>>, now2: Time, fault2: bool)
    requires Submit(cat, st, user, quizId, answers, now, fault).0.Submitted?
    ensures var st1 := Submit(cat, st, user, quizId, answers, now, fault).1;
            Submit(cat, st1, user, quizId, answers2, now2, fault2) == (SubmitRefused(AlreadySubmitted), st1)
  {
  }

  /** Expiry is never checked: whether a submission is accepted does not depend on the moment it
      arrives, so an attempt past `expires_at` is accepted like any other. */
  lemma SubmitAfterExpiry(cat: Catalog, st: Attempts, user: User, quizId: Id,
                          answers: Option<seq<AnswerInput>>, now: Time, fault: bool)
    requires user.role == Student && quizId in cat.quizzes && Assigned(cat.quizzes[quizId], user)
    requires (quizId, user.id) in st.submissions && !IsSubmitted(st.submissions[(quizId, user.id)])
    requires IsExpired(st.submissions[(quizId, user.id)], now)
    requires ValidAnswers(answers, cat) && !fault
    ensures Submit(cat, st, user, quizId, answers, now, fault).0.Submitted?
  {
  }

  /** Submission keeps the submissions table's constraints. */
  lemma SubmitPreservesValid(cat: Catalog, st: Attempts, user: User, quizId: Id,
                             answers: Option<seq<AnswerInput>>, now: Time, fault: bool)
    requires ValidAttempts(st)
    ensures ValidAttempts(Submit(cat, st, user, quizId, answers, now, fault).1)
  {
    var (r, st') := Submit(cat, st, user, quizId, answers, now, fault);
    if r.Submitted? {
      MarkSubmittedPreservesValid(st, (quizId, user.id), r.score, now, st'.answers);
    }
  }

  /** Marking a stored attempt submitted with a score in range keeps the table's constraints,
      whatever the answer rows become. */
  lemma MarkSubmittedPreservesValid(st: Attempts, key: SubmissionKey, score: Hundredths, now: Time, rows: seq<AnswerRow>)
    requires ValidAttempts(st) && key in st.submissions && 0 <= score <= 10000
    ensures ValidAttempts(st.(submissions := st.submissions[key := st.submissions[key].(submittedAt := Some(now), score := Some(score))],
                              answers := rows))
  {
    var m' := st.submissions[key := st.submissions[key].(submittedAt := Some(now), score := Some(score))];
    forall k1, k2 | k1 in m' && k2 in m' && m'[k1].id == m'[k2].id
      ensures k1 == k2
    {
      assert m'[k1].id == st.submissions[k1].id;
      assert m'[k2].id == st.submissions[k2].id;
    }
  }

  /** Once started, the quiz is listed as in progress; once submitted, as completed. */
  lemma StatusFollowsLifecycle(cat: Catalog, st: Attempts, user: User, quizId: Id, now: Time,
                               answers: Option<seq<AnswerInput>>, later: Time, fault: bool, closeAt: Time)
    requires Start(cat, st, user, quizId, now).0.Created? || Start(cat, st, user, quizId, now).0.Resumed?
    ensures var st1 := Start(cat, st, user, quizId, now).1;
            && StatusOf(Lookup(st1.submissions, (quizId, user.id)), closeAt, later) == InProgress
            && var (r2, st2) := Submit(cat, st1, user, quizId, answers, later, fault);
               r2.Submitted? ==> StatusOf(Lookup(st2.submissions, (quizId, user.id)), closeAt, later) == Completed
  {
  }

  /** A quiz listed as pending can be started right away, one listed as late is refused as not
      available, and one listed as completed is refused as already submitted while it is open. */
  lemma ListedStatusPredictsStart(cat: Catalog, st: Attempts, user: User, quizId: Id, now: Time)
    requires ListQuizzes(cat.quizzes, st.submissions, user, now).Listed?
    requires quizId in ListQuizzes(cat.quizzes, st.submissions, user, now).statuses
    ensures var status := ListQuizzes(cat.quizzes, st.submissions, user, now).statuses[quizId];
            var r := Start(cat, st, user, quizId, now).0;
            && (status == Pending ==> r.Created?)
            && (status == Late ==> r == StartRefused(NotAvailable))
            && (status == InProgress && now <= cat.quizzes[quizId].closeAt ==> r.Resumed?)
            && (status == Completed && now <= cat.quizzes[quizId].closeAt ==> r == StartRefused(AlreadySubmitted))
  {
    var listing := ListQuizzes(cat.quizzes, st.submissions, user, now);
    assert HasClass(user);
    assert quizId in cat.quizzes && Assigned(cat.quizzes[quizId], user) && cat.quizzes[quizId].openAt <= now;
  }

  /** `startQuiz` on the database. */
  method StartQuiz(db: Database, user: User, quizId: Id, now: Time) returns (r: StartResult)
    requires db.Valid()
    modifies db
    ensures db.Valid()
    ensures (r, db.AttemptState()) == Start(old(db.Authoring()), old(db.AttemptState()), user, quizId, now)
    ensures db.Authoring() == old(db.Authoring())
  {
    if user.role != Student {
      return StartRefused(Unauthorized);
    }
    if quizId !in db.quizzes || !Assigned(db.quizzes[quizId], user) {
      return StartRefused(QuizNotFound);
    }
    var quiz := db.quizzes[quizId];
    if now < quiz.openAt || now > quiz.closeAt {
      return StartRefused(NotAvailable);
    }
    var key := (quizId, user.id);
    if key in db.submissions {
      var existing := db.submissions[key];
      if existing.submittedAt.Some? {
        return StartRefused(AlreadySubmitted);
      }
      return Resumed(existing);
    }
    var startedAt := now;
    var expiresAt := startedAt + 60 * quiz.durationMinutes;
    var submission := Submission(db.nextSubmissionId, quizId, user.id, startedAt, expiresAt, None, None);
    ghost var cat, st := db.Authoring(), db.AttemptState();
    assert submission == NewAttempt(st.nextSubmissionId, quizId, user.id, quiz, now);
    StartPreservesValid(cat, st, user, quizId, now);
    InsertSubmission(db, key, submission);
    assert db.AttemptState() == Start(cat, st, user, quizId, now).1;
    r := Created(submission);
  }

  /** `Submission::create`: the row is stored under its key and takes the next id. */
  method InsertSubmission(db: Database, key: SubmissionKey, submission: Submission)
    modifies db
    ensures db.AttemptState() == old(db.AttemptState()).(submissions := old(db.submissions)[key := submission],
                                                         nextSubmissionId := old(db.nextSubmissionId) + 1)
    ensures db.Authoring() == old(db.Authoring())
  {
    db.submissions := db.submissions[key := submission];
    db.nextSubmissionId := db.nextSubmissionId + 1;
  }

  /** `submitQuiz` on the database: delete the attempt's answers, insert one row per request entry,
      count the correct questions, store the submission time and the score. */
  method SubmitQuiz(db: Database, user: User, quizId: Id, answers: Option<seq<AnswerInput>>, now: Time, fault: bool)
    returns (r: SubmitResult)
    requires db.Valid()
    modifies db
    ensures db.Valid()
    ensures (r, db.AttemptState()) == Submit(old(db.Authoring()), old(db.AttemptState()), user, quizId, answers, now, fault)
    ensures db.Authoring() == old(db.Authoring())
  {
    SubmitPreservesValid(db.Authoring(), db.AttemptState(), user, quizId, answers, now, fault);
    if user.role != Student {
      return SubmitRefused(Unauthorized);
    }
    if quizId !in db.quizzes || !Assigned(db.quizzes[quizId], user) {
      return SubmitRefused(QuizNotFound);
    }
    var key := (quizId, user.id);
    if key !in db.submissions {
      return SubmitRefused(SubmissionNotFound);
    }
    var submission := db.submissions[key];
    if submission.submittedAt.Some? {
      return SubmitRefused(AlreadySubmitted);
    }
    if !ValidAnswers(answers, db.Authoring()) {
      return SubmitRefused(InvalidAnswers);
    }
    if fault {
      return SubmitRefused(ServerError);
    }
    r := SaveSubmission(db, quizId, key, answers.value, now);
  }

  /** The transaction of `submitQuiz`: replace the attempt's answers, score them and mark the
      attempt submitted. */
  method SaveSubmission(db: Database, quizId: Id, key: SubmissionKey, entries: seq<AnswerInput>, now: Time)
    returns (r: SubmitResult)
    requires key in db.submissions
    requires forall i :: 0 <= i < |entries| ==> entries[i].questionId.Some? && entries[i].optionId.Some?
    modifies db
    ensures var id := old(db.submissions)[key].id;
            var rows := Filter(old(db.answers), NotOfSubmission(id)) + AnswerRows(id, entries);
            var score := Score(AsWritten, db.questions, db.options, quizId, rows, id);
            var done := old(db.submissions)[key].(submittedAt := Some(now), score := Some(score));
            && db.answers == rows
            && db.submissions == old(db.submissions)[key := done]
            && r == Submitted(done, score)
    ensures db.Authoring() == old(db.Authoring())
    ensures db.nextSubmissionId == old(db.nextSubmissionId)
  {
    var submission := db.submissions[key];
    ghost var kept := Filter(db.answers, NotOfSubmission(submission.id));
    db.answers := Filter(db.answers, NotOfSubmission(submission.id));
    InsertAnswers(db, submission.id, entries);
    var rows := db.answers;
    assert rows == kept + AnswerRows(submission.id, entries);
    var questions, options := db.questions, db.options;
    var totalQuestions := |QuestionsOf(questions, quizId)|;
    var correctAnswers := CountCorrectAnswers(questions, options, quizId, rows, submission.id);
    SubsetCard(CorrectQuestions(AsWritten, questions, options, quizId, rows, submission.id), QuestionsOf(questions, quizId));
    var score := Percentage(correctAnswers, totalQuestions);
    assert score == Score(AsWritten, questions, options, quizId, rows, submission.id);
    var done := submission.(submittedAt := Some(now), score := Some(score));
    db.submissions := db.submissions[key := done];
    r := Submitted(done, score);
  }

  /** The `foreach` that creates one answer row per request entry, appended in request order. */
  method InsertAnswers(db: Database, submissionId: Id, entries: seq<AnswerInput>)
    requires forall i :: 0 <= i < |entries| ==> entries[i].questionId.Some? && entries[i].optionId.Some?
    modifies db
    ensures db.answers == old(db.answers) + AnswerRows(submissionId, entries)
    ensures db.Authoring() == old(db.Authoring())
    ensures db.submissions == old(db.submissions) && db.nextSubmissionId == old(db.nextSubmissionId)
  {
    var i := 0;
    while i < |entries|
      invariant 0 <= i <= |entries|
      invariant db.answers == old(db.answers) + AnswerRows(submissionId, entries[..i])
      invariant db.Authoring() == old(db.Authoring())
      invariant db.submissions == old(db.submissions) && db.nextSubmissionId == old(db.nextSubmissionId)
    {
      assert entries[..i + 1] == entries[..i] + [entries[i]];
      AnswerRowsConcat(submissionId, entries[..i], [entries[i]]);
      db.answers := db.answers + [AnswerRow(submissionId, entries[i].questionId.value, entries[i].optionId.value)];
      i := i + 1;
    }
    assert entries[..i] == entries;
  }

  lemma {:induction false} AnswerRowsConcat(id: Id, a: seq<AnswerInput>, b: seq<AnswerInput>)
    requires forall i :: 0 <= i < |a| ==> a[i].questionId.Some? && a[i].optionId.Some?
    requires forall i :: 0 <= i < |b| ==> b[i].questionId.Some? && b[i].optionId.Some?
    ensures AnswerRows(id, a + b) == AnswerRows(id, a) + AnswerRows(id, b)
  {
    var ab := a + b;
    assert |AnswerRows(id, ab)| == |AnswerRows(id, a) + AnswerRows(id, b)|;
    forall k | 0 <= k < |ab| ensures AnswerRows(id, ab)[k] == (AnswerRows(id, a) + AnswerRows(id, b))[k] {
      if k < |a| { assert ab[k] == a[k]; } else { assert ab[k] == b[k - |a|]; }
    }
  }
}
