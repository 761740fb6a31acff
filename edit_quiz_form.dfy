/** The teacher's edit-quiz form: the fields loaded from a client quiz, single-answer editing of
    the options, validation, and a submit handler that never saves. */
module EditQuiz {
  import opened Common
  import opened Schema
  import opened Front
  import opened QuizForm

  /** An option of the loaded quiz as the form edits it: a legacy caption becomes an option
      without id that is not correct. */
  function FormOptionOf(o: OptionValue): (r: FormOption)
    ensures o.LegacyOption? ==> r == FormOption(None, o.caption, false)
    ensures o.QuizOption? ==> r == FormOption(Some(o.id), o.text, o.isCorrect)
  {
    match o
    case LegacyOption(caption) => FormOption(None, caption, false)
    case QuizOption(id, text, isCorrect) => FormOption(Some(id), text, isCorrect)
  }

  /** A question of the loaded quiz as the form edits it. */
  function FormQuestionOf(q: FrontQuestion): (r: FormQuestion)
    ensures r.id == Some(q.id) && r.text == q.text && |r.options| == |q.options|
    ensures forall j :: 0 <= j < |q.options| ==> r.options[j] == FormOptionOf(q.options[j])
  {
    FormQuestion(Some(q.id), q.text, seq(|q.options|, j requires 0 <= j < |q.options| => FormOptionOf(q.options[j])))
  }

  /** The initial question list: the quiz's questions, or one blank question when it has none. */
  function InitialQuestions(quiz: FrontQuiz): (r: seq<FormQuestion>)
    ensures |quiz.questions| == 0 ==> r == [BlankQuestion]
    ensures |quiz.questions| > 0 ==>
              |r| == |quiz.questions| && forall i :: 0 <= i < |r| ==> r[i] == FormQuestionOf(quiz.questions[i])
  {
    if |quiz.questions| > 0 then seq(|quiz.questions|, i requires 0 <= i < |quiz.questions| => FormQuestionOf(quiz.questions[i]))
    else [BlankQuestion]
  }

  /** A legacy caption is loaded as an option that is not correct. */
  lemma LegacyOptionsStartIncorrect(quiz: FrontQuiz, i: nat, j: nat)
    requires i < |quiz.questions| && j < |quiz.questions[i].options| && quiz.questions[i].options[j].LegacyOption?
    ensures !InitialQuestions(quiz)[i].options[j].isCorrect
    ensures InitialQuestions(quiz)[i].options[j].text == quiz.questions[i].options[j].caption
  {
  }

  /** `quiz.durationMinutes || quiz.timeLimit || 15`. */
  function InitialDuration(quiz: FrontQuiz): (d: int)
    ensures d != 0
    ensures TruthyNumber(quiz.durationMinutes) ==> d == quiz.durationMinutes.value
    ensures !TruthyNumber(quiz.durationMinutes) && TruthyNumber(quiz.timeLimit) ==> d == quiz.timeLimit.value
    ensures !TruthyNumber(quiz.durationMinutes) && !TruthyNumber(quiz.timeLimit) ==> d == 15
  {
    OrNumber(OrNumber(quiz.durationMinutes, quiz.timeLimit), Some(15)).value
  }

  /** Every option of `options` cleared except option `j`, which becomes correct. */
  function OnlyCorrect(options: seq<FormOption>, j: nat): (r: seq<FormOption>)
    requires j < |options|
    ensures |r| == |options|
    ensures forall k :: 0 <= k < |r| ==> r[k] == options[k].(isCorrect := k == j)
  {
    seq(|options|, k requires 0 <= k < |options| => options[k].(isCorrect := k == j))
  }

  /** After choosing option `j`, exactly that option is correct, and texts and ids are kept. */
  lemma OnlyCorrectIsSingle(options: seq<FormOption>, j: nat)
    requires j < |options|
    ensures forall k :: 0 <= k < |options| ==> (OnlyCorrect(options, j)[k].isCorrect <==> k == j)
    ensures forall k :: 0 <= k < |options| ==>
              OnlyCorrect(options, j)[k].text == options[k].text && OnlyCorrect(options, j)[k].id == options[k].id
  {
  }

  /** Some option is marked correct (`options.some(opt => opt.isCorrect)`). */
  predicate SomeMarked(options: seq<FormOption>) {
    exists k :: 0 <= k < |options| && options[k].isCorrect
  }

  /** `removeOption`'s effect on an option list with more than three entries: the splice, then
      option 0 marked correct when no correct option is left. */
  function RemoveKeepingAnswer(options: seq<FormOption>, j: nat): (r: seq<FormOption>)
    requires |options| > 3
    ensures |r| == if j < |options| then |options| - 1 else |options|
    ensures SomeMarked(r)
    ensures SomeMarked(RemoveAt(options, j)) ==> r == RemoveAt(options, j)
    ensures !SomeMarked(RemoveAt(options, j)) ==>
              r == RemoveAt(options, j)[0 := RemoveAt(options, j)[0].(isCorrect := true)]
  {
    var spliced := RemoveAt(options, j);
    if SomeMarked(spliced) then spliced
    else
      var r := spliced[0 := spliced[0].(isCorrect := true)];
      assert r[0].isCorrect;
      r
  }

  /** Removing an option never leaves a question without a correct option, even when the removed
      option was the correct one. */
  lemma RemovingTheAnswerMarksTheFirst(options: seq<FormOption>, j: nat)
    requires |options| > 3 && j < |options|
    requires forall k :: 0 <= k < |options| ==> (options[k].isCorrect <==> k == j)
    ensures j > 0 ==> RemoveKeepingAnswer(options, j)[0].isCorrect
    ensures forall k :: 1 <= k < |RemoveKeepingAnswer(options, j)| ==> !RemoveKeepingAnswer(options, j)[k].isCorrect
  {
    var spliced := RemoveAt(options, j);
    assert !SomeMarked(spliced) by {
      forall k | 0 <= k < |spliced|
        ensures !spliced[k].isCorrect
      {
        if k < j {
          assert spliced[k] == options[k];
        } else {
          assert spliced[k] == options[k + 1];
        }
      }
    }
  }

  /** The state of the edit form. */
  class EditQuizForm {
    var title: string
    var description: string
    var durationMinutes: int
    var selectedClassId: string
    var openAt: Option<Time>
    var closeAt: Option<Time>
    var questions: seq<FormQuestion>
    var errors: seq<FormError>
    var isSubmitting: bool

    /** The fields `validateForm` reads. */
    function Fields(): FormFields
      reads this
    {
      FormFields(title, description, durationMinutes, selectedClassId, openAt, closeAt, questions)
    }

    /** The form loaded from `quiz`. A date input holds the quiz's date when there is one;
        `openValue` and `closeValue` are the instants those dates denote. */
    constructor(quiz: FrontQuiz, openValue: Time, closeValue: Time)
      ensures title == quiz.title && description == quiz.description
      ensures durationMinutes == InitialDuration(quiz)
      ensures selectedClassId == if TruthyText(quiz.classId) then quiz.classId.value else ""
      ensures openAt == (if TruthyText(quiz.openAt) then Some(openValue) else None)
      ensures closeAt == (if TruthyText(quiz.closeAt) then Some(closeValue) else None)
      ensures questions == InitialQuestions(quiz) && errors == [] && !isSubmitting
    {
      title, description := quiz.title, quiz.description;
      durationMinutes := InitialDuration(quiz);
      selectedClassId := if TruthyText(quiz.classId) then quiz.classId.value else "";
      openAt := if TruthyText(quiz.openAt) then Some(openValue) else None;
      closeAt := if TruthyText(quiz.closeAt) then Some(closeValue) else None;
      questions, errors, isSubmitting := InitialQuestions(quiz), [], false;
    }

    /** `handleCorrectAnswerChange`: every flag of the question cleared in a loop, then the chosen
        one set, so exactly the chosen option is correct. */
    method SetCorrect(i: nat, j: nat)
      requires i < |questions| && j < |questions[i].options|
      modifies this
      ensures questions == old(questions)[i := old(questions)[i].(options := OnlyCorrect(old(questions)[i].options, j))]
      ensures forall k :: 0 <= k < |questions[i].options| ==> (questions[i].options[k].isCorrect <==> k == j)
      ensures Fields() == old(Fields()).(questions := questions) && errors == old(errors)
    {
      var options := questions[i].options;
      var k := 0;
      while k < |options|
        invariant 0 <= k <= |options| && |options| == |old(questions)[i].options|
        invariant forall m :: 0 <= m < k ==> options[m] == old(questions)[i].options[m].(isCorrect := false)
        invariant forall m :: k <= m < |options| ==> options[m] == old(questions)[i].options[m]
      {
        options := options[k := options[k].(isCorrect := false)];
        k := k + 1;
      }
      options := options[j := options[j].(isCorrect := true)];
      assert options == OnlyCorrect(old(questions)[i].options, j);
      questions := questions[i := questions[i].(options := options)];
      OnlyCorrectIsSingle(old(questions)[i].options, j);
    }

    /** `addQuestion`: a blank question at the end. */
    method AddQuestion()
      modifies this
      ensures questions == old(questions) + [BlankQuestion]
      ensures Fields() == old(Fields()).(questions := questions) && errors == old(errors)
    {
      questions := questions + [BlankQuestion];
    }

    /** `removeQuestion`: acts only while there is more than one question. */
    method RemoveQuestion(index: nat)
      modifies this
      ensures questions == if |old(questions)| > 1 then RemoveAt(old(questions), index) else old(questions)
      ensures |old(questions)| >= 1 ==> |questions| >= 1
      ensures Fields() == old(Fields()).(questions := questions) && errors == old(errors)
    {
      if |questions| > 1 {
        questions := RemoveAt(questions, index);
      }
    }

    /** `addOption`: acts only below five options, so it never makes more than five. */
    method AddOption(i: nat)
      requires i < |questions|
      modifies this
      ensures questions == if |old(questions)[i].options| < 5
                           then old(questions)[i := old(questions)[i].(options := old(questions)[i].options + [BlankOption])]
                           else old(questions)
      ensures |old(questions)[i].options| < 5 ==> |questions[i].options| <= 5
      ensures Fields() == old(Fields()).(questions := questions) && errors == old(errors)
    {
      if |questions[i].options| < 5 {
        var q := questions[i];
        questions := questions[i := q.(options := q.options + [BlankOption])];
      }
    }

    /** `removeOption`: acts only above three options, so it never leaves fewer than three, and
        leaves a correct option behind. */
    method RemoveOption(i: nat, j: nat)
      requires i < |questions|
      modifies this
      ensures questions == if |old(questions)[i].options| > 3
                           then old(questions)[i := old(questions)[i].(options := RemoveKeepingAnswer(old(questions)[i].options, j))]
                           else old(questions)
      ensures |old(questions)[i].options| > 3 ==> |questions[i].options| >= 3 && SomeMarked(questions[i].options)
      ensures Fields() == old(Fields()).(questions := questions) && errors == old(errors)
    {
      if |questions[i].options| > 3 {
        var q := questions[i];
        questions := questions[i := q.(options := RemoveKeepingAnswer(q.options, j))];
      }
    }

    /** `validateForm`: the messages replace the previous ones; true when there are none. */
    method ValidateForm() returns (ok: bool)
      modifies this
      ensures errors == FormErrors(Fields()) && (ok <==> errors == [])
      ensures ok <==> FormValid(Fields())
      ensures Fields() == old(Fields()) && isSubmitting == old(isSubmitting)
    {
      var found: seq<FormError>;
      found, ok := CollectErrors(Fields());
      errors := found;
      FormErrorsEmptyIff(Fields());
    }

    /** `handleSubmit`: an invalid form shows its messages; a valid one only shows the notice that
        saving is not available. Nothing is ever sent. */
    method HandleSubmit()
      modifies this
      ensures errors == if FormValid(Fields()) then [NotImplemented] else FormErrors(Fields())
      ensures Fields() == old(Fields())
      ensures FormValid(Fields()) ==> !isSubmitting
      ensures !FormValid(Fields()) ==> isSubmitting == old(isSubmitting)
    {
      var ok := ValidateForm();
      if !ok {
        return;
      }
      isSubmitting := true;
      errors := [NotImplemented];
      isSubmitting := false;
    }
  }
}
