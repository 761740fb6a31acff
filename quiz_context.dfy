/** The client's shared quiz state: the mapping of server records to client records, the quiz
    list a student sees, and the locally kept list of finished attempts. */
module QuizContext {
  import opened Common
  import opened Schema
  import opened Front

  /** An option as the server sends it; either spelling of the correctness flag may be present. */
  datatype BackendOption = BackendOption(id: Id, text: string, is_correct: Option<bool>, isCorrect: Option<bool>)

  /** A question as the server sends it. */
  datatype BackendQuestion = BackendQuestion(id: Id, text: string, options: Option<seq<BackendOption>>)

  /** An entry of a quiz's `classes` relation: its own id and the class id of its pivot row. */
  datatype BackendClassRef = BackendClassRef(id: Option<Id>, pivotClassId: Option<Id>, pivotClassIdCamel: Option<Id>)

  /** A quiz as the server sends it, with the snake_case and camelCase spellings the client accepts. */
  datatype BackendQuiz = BackendQuiz(
    id: Id,
    title: string,
    description: Option<string>,
    questions: Option<seq<BackendQuestion>>,
    duration_minutes: Option<int>,
    durationMinutes: Option<int>,
    classIds: Option<seq<Id>>,
    classes: Option<seq<BackendClassRef>>,
    classId: Option<Id>,
    class_id: Option<Id>,
    open_at: Option<string>,
    openAt: Option<string>,
    close_at: Option<string>,
    closeAt: Option<string>,
    created_by: Option<Id>,
    createdBy: Option<Id>,
    created_at: Option<string>,
    createdAt: Option<string>)

  /** A user as the server sends it, with both spellings of the class field. */
  datatype BackendUser = BackendUser(id: Id, name: string, email: string, role: string,
                                     classId: Option<Id>, class_id: Option<Id>)

  /** JavaScript truthiness of an optional id: absent and `0` are false. */
  predicate TruthyId(x: Option<Id>) {
    x.Some? && x.value != 0
  }

  /** `a || b` on optional ids. */
  function OrId(a: Option<Id>, b: Option<Id>): Option<Id> {
    if TruthyId(a) then a else b
  }

  /** `c.id || c.pivot?.class_id || c.pivot?.classId`, kept only when truthy. */
  function RefId(c: BackendClassRef): (r: Option<Id>)
    ensures r.Some? ==> r.value != 0
    ensures r.None? <==> !TruthyId(c.id) && !TruthyId(c.pivotClassId) && !TruthyId(c.pivotClassIdCamel)
  {
    var id := OrId(OrId(c.id, c.pivotClassId), c.pivotClassIdCamel);
    if TruthyId(id) then id else None
  }

  /** `ids.map(id => String(id))`. */
  function IdStrings(ids: seq<Id>): (r: seq<string>)
    ensures |r| == |ids| && forall i :: 0 <= i < |ids| ==> r[i] == IdString(ids[i])
  {
    seq(|ids|, i requires 0 <= i < |ids| => IdString(ids[i]))
  }

  /** The string ids of the entries of a `classes` relation, entries without an id dropped. */
  function RefIdStrings(cs: seq<BackendClassRef>): (r: seq<string>)
    ensures |r| <= |cs|
    ensures forall i :: 0 <= i < |cs| && RefId(cs[i]).Some? ==> IdString(RefId(cs[i]).value) in r
    ensures forall i :: 0 <= i < |r| ==> exists j :: 0 <= j < |cs| && RefId(cs[j]).Some? && r[i] == IdString(RefId(cs[j]).value)
  {
    if cs == [] then []
    else
      var rest := RefIdStrings(cs[1..]);
      var head := if RefId(cs[0]).Some? then [IdString(RefId(cs[0]).value)] else [];
      assert forall i :: 0 < i < |cs| ==> cs[i] == cs[1..][i - 1];
      head + rest
  }

  /** The class ids of a quiz from the first source that is a non-empty list: the `classIds`
      array, then the `classes` relation (whose entries without an id are dropped, possibly leaving
      nothing), then the legacy `classId` / `class_id` field; otherwise no class. */
  function ClassIdsOf(b: BackendQuiz): (r: seq<string>)
    ensures b.classIds.Some? && |b.classIds.value| > 0 ==> r == IdStrings(b.classIds.value)
    ensures !(b.classIds.Some? && |b.classIds.value| > 0) && b.classes.Some? && |b.classes.value| > 0 ==>
              r == RefIdStrings(b.classes.value)
    ensures !(b.classIds.Some? && |b.classIds.value| > 0) && !(b.classes.Some? && |b.classes.value| > 0) ==>
              r == if TruthyId(OrId(b.classId, b.class_id)) then [IdString(OrId(b.classId, b.class_id).value)] else []
    ensures forall i :: 0 <= i < |r| ==> r[i] != ""
  {
    if b.classIds.Some? && |b.classIds.value| > 0 then IdStrings(b.classIds.value)
    else if b.classes.Some? && |b.classes.value| > 0 then RefIdStrings(b.classes.value)
    else if TruthyId(b.classId) || TruthyId(b.class_id) then [IdString(OrId(b.classId, b.class_id).value)]
    else []
  }

  /** An option's correctness is `is_correct || isCorrect || false`. */
  function MapOption(o: BackendOption): (r: OptionValue)
    ensures r.QuizOption? && r.id == IdString(o.id) && r.text == o.text
    ensures r.isCorrect <==> o.is_correct == Some(true) || o.isCorrect == Some(true)
  {
    QuizOption(IdString(o.id), o.text, o.is_correct == Some(true) || o.isCorrect == Some(true))
  }

  /** A mapped question keeps its options in order and has no legacy `correctAnswer`. */
  function MapQuestion(q: BackendQuestion): (r: FrontQuestion)
    ensures r.id == IdString(q.id) && r.text == q.text && r.correctAnswer == None
    ensures |r.options| == if q.options.Some? then |q.options.value| else 0
    ensures forall j :: 0 <= j < |r.options| ==> r.options[j] == MapOption(q.options.value[j])
  {
    var opts := if q.options.Some? then q.options.value else [];
    FrontQuestion(IdString(q.id), q.text, seq(|opts|, j requires 0 <= j < |opts| => MapOption(opts[j])), None)
  }

  /** `mapQuizFromBackend`. */
  function MapQuiz(b: BackendQuiz): (r: FrontQuiz)
    ensures r.id == IdString(b.id) && r.title == b.title
    ensures r.classIds == ClassIdsOf(b)
    ensures r.classId == if |r.classIds| > 0 then Some(r.classIds[0]) else None
    ensures r.description == if TruthyText(b.description) then b.description.value else ""
    ensures r.durationMinutes == OrNumber(b.duration_minutes, b.durationMinutes) && r.timeLimit == None
    ensures |r.questions| == if b.questions.Some? then |b.questions.value| else 0
    ensures forall i :: 0 <= i < |r.questions| ==> r.questions[i] == MapQuestion(b.questions.value[i])
    ensures r.openAt == if TruthyText(b.open_at) then b.open_at else b.openAt
    ensures r.closeAt == if TruthyText(b.close_at) then b.close_at else b.closeAt
    ensures r.createdAt == if TruthyText(b.created_at) then b.created_at else b.createdAt
    ensures TruthyId(b.created_by) ==> r.createdBy == IdString(b.created_by.value)
    ensures !TruthyId(b.created_by) && b.createdBy.Some? ==> r.createdBy == IdString(b.createdBy.value)
    ensures !TruthyId(b.created_by) && b.createdBy.None? ==> r.createdBy == "undefined"
  {
    var classIds := ClassIdsOf(b);
    var qs := if b.questions.Some? then b.questions.value else [];
    var questions := seq(|qs|, i requires 0 <= i < |qs| => MapQuestion(qs[i]));
    assert forall i :: 0 <= i < |qs| ==> questions[i] == MapQuestion(qs[i]);
    FrontQuiz(
      IdString(b.id),
      b.title,
      if TruthyText(b.description) then b.description.value else "",
      questions,
      OrNumber(b.duration_minutes, b.durationMinutes),
      None,
      classIds,
      if |classIds| > 0 then Some(classIds[0]) else None,
      OrText(b.open_at, b.openAt),
      OrText(b.close_at, b.closeAt),
      OptIdString(OrId(b.created_by, b.createdBy)),
      OrText(b.created_at, b.createdAt))
  }

  /** `mapUserFromBackend`: the class id is `classId ?? class_id`, stringified, and missing only
      when both fields are. */
  function MapUser(b: BackendUser): (r: FrontUser)
    ensures r.id == IdString(b.id) && r.name == b.name && r.email == b.email && r.role == b.role
    ensures r.classId.None? <==> b.classId.None? && b.class_id.None?
    ensures b.classId.Some? ==> r.classId == Some(IdString(b.classId.value))
    ensures b.classId.None? && b.class_id.Some? ==> r.classId == Some(IdString(b.class_id.value))
  {
    var classId := Coalesce(b.classId, b.class_id);
    FrontUser(IdString(b.id), b.name, b.email, b.role, if classId.Some? then Some(IdString(classId.value)) else None)
  }

  /** The quiz is assigned to the class, through its class list or its legacy class field. */
  predicate VisibleTo(q: FrontQuiz, classId: string) {
    classId in q.classIds || q.classId == Some(classId)
  }

  /** `getQuizzesForStudent`: the quizzes assigned to the student's class, in list order. The
      student id is not consulted. */
  function QuizzesForStudent(quizzes: seq<FrontQuiz>, studentId: string, classId: string): (r: seq<FrontQuiz>)
    ensures forall i :: 0 <= i < |r| ==> r[i] in quizzes && VisibleTo(r[i], classId)
    ensures forall i :: 0 <= i < |quizzes| && VisibleTo(quizzes[i], classId) ==> quizzes[i] in r
  {
    Filter(quizzes, (q: FrontQuiz) => VisibleTo(q, classId))
  }

  /** For a mapped quiz the legacy field adds nothing: a class sees it exactly when the class is in
      its class list. */
  lemma MappedQuizVisibility(b: BackendQuiz, classId: string)
    ensures VisibleTo(MapQuiz(b), classId) <==> classId in ClassIdsOf(b)
  {
  }

  /** Through both mappings, a student of class `k` sees a quiz whose server record lists its
      classes exactly when `k` is among them. */
  lemma StudentSeesAssignedQuiz(b: BackendQuiz, u: BackendUser, k: Id)
    requires b.classIds.Some? && |b.classIds.value| > 0
    requires MapUser(u).classId == Some(IdString(k))
    ensures VisibleTo(MapQuiz(b), MapUser(u).classId.value) <==> k in b.classIds.value
  {
    var ids := b.classIds.value;
    MappedQuizVisibility(b, IdString(k));
    if IdString(k) in IdStrings(ids) {
      var i :| 0 <= i < |ids| && IdStrings(ids)[i] == IdString(k);
      IdStringInjective(ids[i], k);
    }
    if k in ids {
      var i :| 0 <= i < |ids| && ids[i] == k;
      assert IdStrings(ids)[i] == IdString(k);
    }
  }

  /** The attempt belongs to the quiz and the student. */
  predicate AttemptOf(a: QuizAttempt, quizId: string, studentId: string) {
    a.quizId == quizId && a.studentId == studentId
  }

  /** `getAttemptsByStudent`: the attempts of a student, in list order. */
  function AttemptsByStudent(attempts: seq<QuizAttempt>, studentId: string): (r: seq<QuizAttempt>)
    ensures forall i :: 0 <= i < |r| ==> r[i] in attempts && r[i].studentId == studentId
    ensures forall i :: 0 <= i < |attempts| && attempts[i].studentId == studentId ==> attempts[i] in r
  {
    Filter(attempts, (a: QuizAttempt) => a.studentId == studentId)
  }

  /** `getAttemptsByQuiz`: the attempts at a quiz, in list order. */
  function AttemptsByQuiz(attempts: seq<QuizAttempt>, quizId: string): (r: seq<QuizAttempt>)
    ensures forall i :: 0 <= i < |r| ==> r[i] in attempts && r[i].quizId == quizId
    ensures forall i :: 0 <= i < |attempts| && attempts[i].quizId == quizId ==> attempts[i] in r
  {
    Filter(attempts, (a: QuizAttempt) => a.quizId == quizId)
  }

  /** The attempt list after `resetQuizForStudent`: every attempt except the student's attempts at
      the quiz, in their original order. */
  function WithoutAttempts(attempts: seq<QuizAttempt>, quizId: string, studentId: string): (r: seq<QuizAttempt>)
    ensures forall i :: 0 <= i < |r| ==> r[i] in attempts && !AttemptOf(r[i], quizId, studentId)
    ensures forall i :: 0 <= i < |attempts| && !AttemptOf(attempts[i], quizId, studentId) ==> attempts[i] in r
    ensures multiset(r) <= multiset(attempts)
  {
    Filter(attempts, (a: QuizAttempt) => !AttemptOf(a, quizId, studentId))
  }

  /** Resetting after an append removes the new attempt exactly when it is the student's attempt
      at the quiz, and treats the earlier attempts as before. */
  lemma ResetAfterAdd(attempts: seq<QuizAttempt>, a: QuizAttempt, quizId: string, studentId: string)
    ensures WithoutAttempts(attempts + [a], quizId, studentId)
            == WithoutAttempts(attempts, quizId, studentId) + (if AttemptOf(a, quizId, studentId) then [] else [a])
  {
    FilterConcat(attempts, [a], (x: QuizAttempt) => !AttemptOf(x, quizId, studentId));
  }

  /** A second reset of the same quiz and student changes nothing. */
  lemma ResetIdempotent(attempts: seq<QuizAttempt>, quizId: string, studentId: string)
    ensures WithoutAttempts(WithoutAttempts(attempts, quizId, studentId), quizId, studentId)
            == WithoutAttempts(attempts, quizId, studentId)
  {
    var r := WithoutAttempts(attempts, quizId, studentId);
    FilterAll(r, (x: QuizAttempt) => !AttemptOf(x, quizId, studentId));
  }

  /** A reset leaves every other student's attempts, and their order, as they were. */
  lemma ResetKeepsOtherStudents(attempts: seq<QuizAttempt>, quizId: string, studentId: string, other: string)
    requires other != studentId
    ensures AttemptsByStudent(WithoutAttempts(attempts, quizId, studentId), other) == AttemptsByStudent(attempts, other)
  {
    FilterImplied(attempts, (x: QuizAttempt) => !AttemptOf(x, quizId, studentId), (x: QuizAttempt) => x.studentId == other);
  }

  /** Adding an attempt appends it to its student's attempts and to its quiz's attempts. */
  lemma AddAppends(attempts: seq<QuizAttempt>, a: QuizAttempt)
    ensures AttemptsByStudent(attempts + [a], a.studentId) == AttemptsByStudent(attempts, a.studentId) + [a]
    ensures AttemptsByQuiz(attempts + [a], a.quizId) == AttemptsByQuiz(attempts, a.quizId) + [a]
  {
    FilterConcat(attempts, [a], (x: QuizAttempt) => x.studentId == a.studentId);
    FilterConcat(attempts, [a], (x: QuizAttempt) => x.quizId == a.quizId);
  }

  /** The attempt list the client keeps (and mirrors to local storage). */
  class AttemptLog {
    var attempts: seq<QuizAttempt>

    constructor()
      ensures attempts == []
    {
      attempts := [];
    }

    /** `addAttempt`: the attempt is appended at the end. */
    method AddAttempt(a: QuizAttempt)
      modifies this
      ensures attempts == old(attempts) + [a]
    {
      attempts := attempts + [a];
    }

    /** `resetQuizForStudent`. */
    method ResetQuizForStudent(quizId: string, studentId: string)
      modifies this
      ensures attempts == WithoutAttempts(old(attempts), quizId, studentId)
    {
      attempts := WithoutAttempts(attempts, quizId, studentId);
    }
  }
}
