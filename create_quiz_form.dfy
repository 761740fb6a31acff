/** The teacher's create-quiz form: the fields, the editing handlers with their bounds on the
    number of questions and options, validation, and the request body it submits. */
module CreateQuiz {
  import opened Common
  import opened Schema
  import opened Front
  import opened QuizForm

  /** Flips the correctness flag of option `j` of `q` and of no other option. */
  function ToggleOption(q: FormQuestion, j: nat): (r: FormQuestion)
    requires j < |q.options|
    ensures r.id == q.id && r.text == q.text && |r.options| == |q.options|
    ensures r.options[j].isCorrect == !q.options[j].isCorrect
    ensures r.options[j].id == q.options[j].id && r.options[j].text == q.options[j].text
    ensures forall k :: 0 <= k < |q.options| && k != j ==> r.options[k] == q.options[k]
  {
    q.(options := q.options[j := q.options[j].(isCorrect := !q.options[j].isCorrect)])
  }

  /** Toggling the same option twice restores the question. */
  lemma ToggleTwice(q: FormQuestion, j: nat)
    requires j < |q.options|
    ensures ToggleOption(ToggleOption(q, j), j) == q
  {
    var r := ToggleOption(ToggleOption(q, j), j);
    assert r.options == q.options;
  }

  /** The state of the create form. */
  class CreateQuizForm {
    var title: string
    var description: string
    var durationMinutes: int
    var selectedClassId: string
    var openAt: Option<Time>
    var closeAt: Option<Time>
    var questions: seq<FormQuestion>
    var errors: seq<FormError>
    var isSubmitting: bool

    /** The editing handlers keep at least one question, and three to five options per question. */
    predicate Bounded()
      reads this
    {
      |questions| >= 1 && forall i :: 0 <= i < |questions| ==> 3 <= |questions[i].options| <= 5
    }

    /** The fields `validateForm` and `handleSubmit` read. */
    function Fields(): FormFields
      reads this
    {
      FormFields(title, description, durationMinutes, selectedClassId, openAt, closeAt, questions)
    }

    /** The initial state, after the mount effect has filled in the default dates: opening at the
        start of the current hour and closing at 23:59 seven days later, computed by the caller. */
    constructor(defaultOpen: Time, defaultClose: Time)
      ensures title == "" && description == "" && durationMinutes == 15 && selectedClassId == ""
      ensures openAt == Some(defaultOpen) && closeAt == Some(defaultClose)
      ensures questions == [BlankQuestion] && errors == [] && !isSubmitting
      ensures Bounded()
    {
      title, description, durationMinutes, selectedClassId := "", "", 15, "";
      openAt, closeAt := Some(defaultOpen), Some(defaultClose);
      questions, errors, isSubmitting := [BlankQuestion], [], false;
    }

    /** `handleQuestionChange`. */
    method SetQuestionText(i: nat, text: string)
      requires i < |questions|
      requires Bounded()
      modifies this
      ensures questions == old(questions)[i := old(questions)[i].(text := text)]
      ensures Bounded()
      ensures Fields() == old(Fields()).(questions := questions) && errors == old(errors)
    {
      questions := questions[i := questions[i].(text := text)];
    }

    /** `handleOptionChange`. */
    method SetOptionText(i: nat, j: nat, text: string)
      requires i < |questions| && j < |questions[i].options|
      requires Bounded()
      modifies this
      ensures questions == old(questions)[i := old(questions)[i].(options := old(questions)[i].options[j := old(questions)[i].options[j].(text := text)])]
      ensures Bounded()
      ensures Fields() == old(Fields()).(questions := questions) && errors == old(errors)
    {
      var q := questions[i];
      questions := questions[i := q.(options := q.options[j := q.options[j].(text := text)])];
    }

    /** `handleCorrectAnswerChange`: toggles the chosen option only. */
    method ToggleCorrect(i: nat, j: nat)
      requires i < |questions| && j < |questions[i].options|
      requires Bounded()
      modifies this
      ensures questions == old(questions)[i := ToggleOption(old(questions)[i], j)]
      ensures Bounded()
      ensures Fields() == old(Fields()).(questions := questions) && errors == old(errors)
    {
      questions := questions[i := ToggleOption(questions[i], j)];
    }

    /** `addQuestion`: a blank question at the end. */
    method AddQuestion()
      requires Bounded()
      modifies this
      ensures questions == old(questions) + [BlankQuestion]
      ensures Bounded()
      ensures Fields() == old(Fields()).(questions := questions) && errors == old(errors)
    {
      questions := questions + [BlankQuestion];
    }

    /** `removeQuestion`: acts only while there is more than one question. */
    method RemoveQuestion(index: nat)
      requires Bounded()
      modifies this
      ensures questions == if |old(questions)| > 1 then RemoveAt(old(questions), index) else old(questions)
      ensures Bounded()
      ensures Fields() == old(Fields()).(questions := questions) && errors == old(errors)
    {
      if |questions| > 1 {
        questions := RemoveAt(questions, index);
      }
    }

    /** `addOption`: acts only below five options. */
    method AddOption(i: nat)
      requires i < |questions|
      requires Bounded()
      modifies this
      ensures questions == if |old(questions)[i].options| < 5
                           then old(questions)[i := old(questions)[i].(options := old(questions)[i].options + [BlankOption])]
                           else old(questions)
      ensures Bounded()
      ensures Fields() == old(Fields()).(questions := questions) && errors == old(errors)
    {
      if |questions[i].options| < 5 {
        var q := questions[i];
        questions := questions[i := q.(options := q.options + [BlankOption])];
      }
    }

    /** `removeOption`: acts only above three options. */
    method RemoveOption(i: nat, j: nat)
      requires i < |questions|
      requires Bounded()
      modifies this
      ensures questions == if |old(questions)[i].options| > 3
                           then old(questions)[i := old(questions)[i].(options := RemoveAt(old(questions)[i].options, j))]
                           else old(questions)
      ensures Bounded()
      ensures Fields() == old(Fields()).(questions := questions) && errors == old(errors)
    {
      if |questions[i].options| > 3 {
        var q := questions[i];
        questions := questions[i := q.(options := RemoveAt(q.options, j))];
      }
    }

    /** `validateForm`: the messages replace the previous ones; true when there are none. */
    method ValidateForm() returns (ok: bool)
      modifies this
      ensures errors == FormErrors(Fields()) && (ok <==> errors == [])
      ensures ok <==> FormValid(Fields())
      ensures Fields() == old(Fields()) && isSubmitting == old(isSubmitting)
    {
      var found: seq<FormError>;
      found, ok := CollectErrors(Fields());
      errors := found;
      FormErrorsEmptyIff(Fields());
    }

    /** `handleSubmit`: nothing is sent unless the form is valid and a user is signed in;
        otherwise the body is built and handed to the create request. */
    method HandleSubmit(signedIn: bool) returns (sent: Option<QuizPayload>)
      modifies this
      ensures errors == FormErrors(Fields()) && Fields() == old(Fields())
      ensures sent.Some? <==> FormValid(Fields()) && signedIn
      ensures sent.Some? ==> Fields().openAt.Some? && Fields().closeAt.Some? && sent.value == Payload(Fields()) && isSubmitting
      ensures sent.None? ==> isSubmitting == old(isSubmitting)
    {
      var ok := ValidateForm();
      if !ok || !signedIn {
        return None;
      }
      isSubmitting := true;
      sent := Some(Payload(Fields()));
    }

    /** The success callback: every field back to its empty value. The dates become empty too;
        the mount effect that filled them in does not run again. */
    method OnCreated()
      modifies this
      ensures title == "" && description == "" && durationMinutes == 15 && selectedClassId == ""
      ensures openAt == None && closeAt == None && questions == [BlankQuestion] && errors == []
      ensures isSubmitting == old(isSubmitting)
      ensures Bounded()
    {
      title, description, durationMinutes, selectedClassId := "", "", 15, "";
      openAt, closeAt := None, None;
      questions, errors := [BlankQuestion], [];
    }

    /** The failure callback: the request's message, or a generic one when it has none. */
    method OnError(message: Option<string>)
      modifies this
      ensures errors == [RequestFailed(OrText(message, Some("Erreur lors de la création du quiz")).value)]
      ensures !isSubmitting && Fields() == old(Fields())
    {
      errors := [RequestFailed(OrText(message, Some("Erreur lors de la création du quiz")).value)];
      isSubmitting := false;
    }
  }
}
