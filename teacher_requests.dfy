/** The bodies of the teacher's create-quiz and update-quiz requests, the validation rules the
    controller applies to them, and the class-ownership check. */
module TeacherRequests {
  import opened Common
  import opened Text
  import opened Schema

  /** One option of a request question; any field may be missing. */
  datatype OptionInput = OptionInput(id: Option<Id>, text: Option<string>, isCorrect: Option<bool>)

  /** One question of a request; any field may be missing. */
  datatype QuestionInput = QuestionInput(id: Option<Id>, text: Option<string>, options: Option<seq<OptionInput>>)

  /** The request body of `createQuiz` and `updateQuiz`. */
  datatype QuizInput = QuizInput(
    title: Option<string>,
    description: Option<string>,
    durationMinutes: Option<int>,
    openAt: Option<Time>,
    closeAt: Option<Time>,
    classIds: Option<seq<Id>>,
    questions: Option<seq<QuestionInput>>)

  /** Laravel's `required|string`: present and not empty after trimming. */
  predicate RequiredText(s: Option<string>) {
    s.Some? && !IsBlank(s.value)
  }

  /** `questions.*.options.*.text` is required and `isCorrect` is a required boolean. */
  predicate ValidOption(o: OptionInput) {
    RequiredText(o.text) && o.isCorrect.Some?
  }

  /** `questions.*.text` is required and `questions.*.options` is an array of at least 2 options. */
  predicate ValidQuestion(q: QuestionInput) {
    RequiredText(q.text) && q.options.Some? && |q.options.value| >= 2
    && forall j :: 0 <= j < |q.options.value| ==> ValidOption(q.options.value[j])
  }

  /** The rules `createQuiz` and `updateQuiz` share: a title of at most 255 characters, a
      duration of 1 to 180 minutes, a close date strictly after the open date, at least one
      existing class and at least one valid question. */
  predicate ValidQuizFields(req: QuizInput, classes: map<Id, ClassRow>) {
    RequiredText(req.title) && |req.title.value| <= 255
    && req.durationMinutes.Some? && 1 <= req.durationMinutes.value <= 180
    && req.openAt.Some? && req.closeAt.Some? && req.closeAt.value > req.openAt.value
    && req.classIds.Some? && |req.classIds.value| >= 1
    && (forall i :: 0 <= i < |req.classIds.value| ==> req.classIds.value[i] in classes)
    && req.questions.Some? && |req.questions.value| >= 1
    && (forall i :: 0 <= i < |req.questions.value| ==> ValidQuestion(req.questions.value[i]))
  }

  /** `isCorrect` must be present, and `false` is as valid as `true`. */
  lemma OptionRules(o: OptionInput)
    ensures o.isCorrect.None? || o.text.None? ==> !ValidOption(o)
    ensures ValidOption(o) ==> ValidOption(o.(isCorrect := Some(!o.isCorrect.value)))
  {
  }

  /** A question is refused when its text is blank, when it has fewer than two options, or when
      one of its options is refused; its `id` plays no part in these rules. */
  lemma QuestionRules(q: QuestionInput, j: int, id: Option<Id>)
    ensures q.text.None? || (q.text.Some? && IsBlank(q.text.value)) ==> !ValidQuestion(q)
    ensures q.options.Some? && |q.options.value| < 2 ==> !ValidQuestion(q)
    ensures q.options.Some? && 0 <= j < |q.options.value| && !ValidOption(q.options.value[j]) ==> !ValidQuestion(q)
    ensures ValidQuestion(q.(id := id)) == ValidQuestion(q)
  {
  }

  /** The bounds of the quiz rules: every duration from 1 to 180 minutes is accepted and no other;
      a close date equal to the open date, an empty class or question list, and a title longer
      than 255 characters are refused; the description is optional. */
  lemma QuizFieldRules(req: QuizInput, classes: map<Id, ClassRow>, d: int, description: Option<string>)
    ensures ValidQuizFields(req, classes) && 1 <= d <= 180
            ==> ValidQuizFields(req.(durationMinutes := Some(d)), classes)
    ensures d < 1 || d > 180 ==> !ValidQuizFields(req.(durationMinutes := Some(d)), classes)
    ensures req.closeAt.Some? && req.closeAt == req.openAt ==> !ValidQuizFields(req, classes)
    ensures req.classIds == Some([]) || req.questions == Some([]) ==> !ValidQuizFields(req, classes)
    ensures req.title.Some? && |req.title.value| > 255 ==> !ValidQuizFields(req, classes)
    ensures ValidQuizFields(req.(description := description), classes) == ValidQuizFields(req, classes)
  {
  }

  /** A question id, when given, names an existing question, and an option id, when given, an
      existing option (of any quiz). */
  predicate IdsExist(q: QuestionInput, questions: map<Id, QuestionRow>, options: map<Id, OptionRow>) {
    (q.id.Some? ==> q.id.value in questions)
    && (q.options.Some? ==>
          forall j :: 0 <= j < |q.options.value| ==>
            (q.options.value[j].id.Some? ==> q.options.value[j].id.value in options))
  }

  /** The extra rules of `updateQuiz`: `questions.*.id` and `questions.*.options.*.id` are
      nullable and name existing rows. */
  predicate ValidIds(req: QuizInput, questions: map<Id, QuestionRow>, options: map<Id, OptionRow>) {
    req.questions.Some? ==>
      forall i :: 0 <= i < |req.questions.value| ==> IdsExist(req.questions.value[i], questions, options)
  }

  /** The classes owned by a teacher. */
  function TeacherClassIds(classes: map<Id, ClassRow>, teacherId: Id): set<Id> {
    set c | c in classes && classes[c].teacherId == teacherId
  }

  /** `array_diff($classIds, $teacherClassIds)`: the requested class ids the teacher does not own,
      in request order. */
  function NotOwned(classIds: seq<Id>, owned: set<Id>): (r: seq<Id>)
    ensures forall i :: 0 <= i < |r| ==> r[i] !in owned && r[i] in classIds
    ensures forall i :: 0 <= i < |classIds| && classIds[i] !in owned ==> classIds[i] in r
  {
    if classIds == [] then []
    else (if classIds[0] in owned then [] else [classIds[0]]) + NotOwned(classIds[1..], owned)
  }

  /** The ownership check passes exactly when every requested class belongs to the teacher. */
  lemma OwnershipCheck(classIds: seq<Id>, classes: map<Id, ClassRow>, teacherId: Id)
    ensures NotOwned(classIds, TeacherClassIds(classes, teacherId)) == []
            <==> forall i :: 0 <= i < |classIds| ==> classIds[i] in classes && classes[classIds[i]].teacherId == teacherId
  {
    var owned := TeacherClassIds(classes, teacherId);
    if NotOwned(classIds, owned) != [] {
      var c := NotOwned(classIds, owned)[0];
      var i :| 0 <= i < |classIds| && classIds[i] == c;
      assert c !in owned;
    }
  }

  /** A validated option, with its fields present. */
  datatype OptionSpec = OptionSpec(id: Option<Id>, text: string, isCorrect: bool)

  /** A validated question, with its fields present. */
  datatype QuestionSpec = QuestionSpec(id: Option<Id>, text: string, options: seq<OptionSpec>)

  function OptionSpecOf(o: OptionInput): (r: OptionSpec)
    requires ValidOption(o)
    ensures r.id == o.id && r.text == o.text.value && r.isCorrect == o.isCorrect.value
  {
    OptionSpec(o.id, o.text.value, o.isCorrect.value)
  }

  function QuestionSpecOf(q: QuestionInput): (r: QuestionSpec)
    requires ValidQuestion(q)
    ensures r.id == q.id && r.text == q.text.value
    ensures |r.options| == |q.options.value| >= 2
    ensures forall j :: 0 <= j < |r.options| ==> r.options[j] == OptionSpecOf(q.options.value[j])
  {
    var opts := q.options.value;
    QuestionSpec(q.id, q.text.value, seq(|opts|, j requires 0 <= j < |opts| => OptionSpecOf(opts[j])))
  }

  /** The validated questions of a request, in request order. */
  function QuestionSpecs(req: QuizInput): (r: seq<QuestionSpec>)
    requires req.questions.Some?
    requires forall i :: 0 <= i < |req.questions.value| ==> ValidQuestion(req.questions.value[i])
    ensures |r| == |req.questions.value|
    ensures forall i :: 0 <= i < |r| ==> r[i] == QuestionSpecOf(req.questions.value[i])
  {
    var qs := req.questions.value;
    seq(|qs|, i requires 0 <= i < |qs| => QuestionSpecOf(qs[i]))
  }
}
