/** The rows the backend stores (quizzes, questions, options, classes, submissions, answers)
    and the constraints the submissions table declares. */
module Schema {
  import opened Common

  /** A primary key: an auto-increment integer. */
  type Id = nat

  /** A point in time, in seconds. */
  type Time = int

  /** A score held with two decimal places, counted in hundredths (50.25 is 5025). */
  type Hundredths = int

  datatype Role = Teacher | Student

  /** The authenticated user: `role` and the nullable `class_id` of a student. */
  datatype User = User(id: Id, role: Role, classId: Option<Id>)

  datatype ClassRow = ClassRow(name: string, teacherId: Id)

  /** A quiz row together with its `quiz_class` pivot rows, as the set of its class ids. */
  datatype QuizRow = QuizRow(
    title: string,
    description: Option<string>,
    createdBy: Id,
    durationMinutes: int,
    openAt: Time,
    closeAt: Time,
    classIds: set<Id>)

  datatype QuestionRow = QuestionRow(quizId: Id, text: string, order: nat)

  datatype OptionRow = OptionRow(questionId: Id, text: string, isCorrect: bool, order: nat)

  /** A submission (an attempt): `started_at` and `expires_at` are required datetimes;
      `submitted_at` and `score` are nullable. */
  datatype Submission = Submission(
    id: Id,
    quizId: Id,
    studentId: Id,
    startedAt: Time,
    expiresAt: Time,
    submittedAt: Option<Time>,
    score: Option<Hundredths>)

  datatype AnswerRow = AnswerRow(submissionId: Id, questionId: Id, optionId: Id)

  /** The unique index of the submissions table: (quiz_id, student_id). */
  type SubmissionKey = (Id, Id)

  /** `Submission::isSubmitted`. */
  predicate IsSubmitted(s: Submission) {
    s.submittedAt.Some?
  }

  /** `Submission::isExpired`: now is strictly after `expires_at`. */
  predicate IsExpired(s: Submission, now: Time) {
    now > s.expiresAt
  }

  /** Recording a submission time is what makes an attempt submitted, whatever its score. */
  lemma SubmittedByTime(s: Submission, t: Time)
    ensures IsSubmitted(s.(submittedAt := Some(t)))
    ensures !IsSubmitted(s.(submittedAt := None))
  {
  }

  /** At `expires_at` itself an attempt is not yet expired, one second later it is, and once
      expired it stays expired. */
  lemma ExpiryBoundary(s: Submission, now: Time, later: Time)
    ensures !IsExpired(s, s.expiresAt)
    ensures IsExpired(s, s.expiresAt + 1)
    ensures IsExpired(s, now) && now <= later ==> IsExpired(s, later)
  {
  }

  /** The largest magnitude a `decimal(5,2)` column holds: 999.99. */
  const MaxStoredScore: Hundredths := 99999

  predicate ScoreFits(s: Submission) {
    s.score.Some? ==> -MaxStoredScore <= s.score.value <= MaxStoredScore
  }

  /** Every row is stored under its own (quiz_id, student_id) pair. */
  predicate KeyedByPair(m: map<SubmissionKey, Submission>) {
    forall k :: k in m ==> m[k].quizId == k.0 && m[k].studentId == k.1
  }

  /** The primary key `id` is unique across rows. */
  predicate DistinctRowIds(m: map<SubmissionKey, Submission>) {
    forall k1, k2 :: k1 in m && k2 in m && m[k1].id == m[k2].id ==> k1 == k2
  }

  /** The constraints of the submissions table. */
  predicate SubmissionsTable(m: map<SubmissionKey, Submission>) {
    KeyedByPair(m) && DistinctRowIds(m) && forall k :: k in m ==> ScoreFits(m[k])
  }

  /** The unique index: two stored rows for the same quiz and student are the same row. */
  lemma AtMostOnePerPair(m: map<SubmissionKey, Submission>, s1: Submission, s2: Submission)
    requires SubmissionsTable(m)
    requires s1 in m.Values && s2 in m.Values
    requires s1.quizId == s2.quizId && s1.studentId == s2.studentId
    ensures s1 == s2
  {
    var k1 :| k1 in m && m[k1] == s1;
    var k2 :| k2 in m && m[k2] == s2;
    assert k1 == (s1.quizId, s1.studentId) == k2;
  }

  /** A cascading delete: the rows `keep` admits stay, unchanged, and the others go; the table's
      constraints survive it. */
  function DeleteUnless(m: map<SubmissionKey, Submission>, keep: Submission -> bool): (r: map<SubmissionKey, Submission>)
    requires SubmissionsTable(m)
    ensures SubmissionsTable(r)
    ensures forall k :: k in r ==> k in m && r[k] == m[k]
    ensures forall k :: k in m ==> (k in r <==> keep(m[k]))
  {
    map k | k in m && keep(m[k]) :: m[k]
  }

  /** `ON DELETE CASCADE` from quizzes: deleting a quiz deletes its submissions. */
  function DeleteQuizCascade(m: map<SubmissionKey, Submission>, quizId: Id): (r: map<SubmissionKey, Submission>)
    requires SubmissionsTable(m)
    ensures SubmissionsTable(r)
    ensures forall k :: k in r ==> k in m && r[k] == m[k]
    ensures forall k :: k in m ==> (k in r <==> m[k].quizId != quizId)
  {
    DeleteUnless(m, (s: Submission) => s.quizId != quizId)
  }

  /** `ON DELETE CASCADE` from users: deleting a student deletes their submissions. */
  function DeleteStudentCascade(m: map<SubmissionKey, Submission>, studentId: Id): (r: map<SubmissionKey, Submission>)
    requires SubmissionsTable(m)
    ensures SubmissionsTable(r)
    ensures forall k :: k in r ==> k in m && r[k] == m[k]
    ensures forall k :: k in m ==> (k in r <==> m[k].studentId != studentId)
  {
    DeleteUnless(m, (s: Submission) => s.studentId != studentId)
  }
}
