/** What the create-quiz and edit-quiz forms share: their question and option records, the checks
    of `validateForm`, and the request body `handleSubmit` builds from the fields. */
module QuizForm {
  import opened Common
  import opened Text
  import opened Schema
  import opened Front
  import TeacherRequests

  /** An option being edited; `id` is present only for options loaded from an existing quiz. */
  datatype FormOption = FormOption(id: Option<string>, text: string, isCorrect: bool)

  /** A question being edited. */
  datatype FormQuestion = FormQuestion(id: Option<string>, text: string, options: seq<FormOption>)

  const BlankOption: FormOption := FormOption(None, "", false)

  /** The question `addQuestion` appends: no text and four blank options, none correct. */
  const BlankQuestion: FormQuestion := FormQuestion(None, "", [BlankOption, BlankOption, BlankOption, BlankOption])

  /** `list.splice(j, 1)` and `list.filter((_, i) => i !== j)`: the entry at `j` removed, or the
      list unchanged when there is none. */
  function RemoveAt<T>(s: seq<T>, j: nat): (r: seq<T>)
    ensures j < |s| ==> |r| == |s| - 1 && (forall k :: 0 <= k < j ==> r[k] == s[k]) && (forall k :: j <= k < |r| ==> r[k] == s[k + 1])
    ensures j >= |s| ==> r == s
  {
    if j < |s| then s[..j] + s[j + 1..] else s
  }

  /** The fields of a form. A date is `None` while its input is empty; otherwise it is the
      instant the input denotes. */
  datatype FormFields = FormFields(
    title: string,
    description: string,
    durationMinutes: int,
    selectedClassId: string,
    openAt: Option<Time>,
    closeAt: Option<Time>,
    questions: seq<FormQuestion>)

  /** The messages `validateForm` can report, one constructor per message; `index` is the
      position of the question concerned. The last two are not validation messages: the text of a
      failed request, and the edit form's notice that saving is not available. */
  datatype FormError =
    | TitleRequired
    | ClassRequired
    | DurationOutOfRange
    | OpenAtRequired
    | CloseAtRequired
    | CloseNotAfterOpen
    | QuestionTextRequired(index: nat)
    | TooFewOptions(index: nat)
    | NoCorrectOption(index: nat)
    | RequestFailed(message: string)
    | NotImplemented

  predicate IsQuestionError(e: FormError) {
    e.QuestionTextRequired? || e.TooFewOptions? || e.NoCorrectOption?
  }

  /** `o.text.trim()` is truthy. */
  predicate Filled(o: FormOption) {
    !IsBlank(o.text)
  }

  /** `q.options.filter(o => o.text.trim()).length`. */
  function FilledCount(options: seq<FormOption>): (n: nat)
    ensures n <= |options|
  {
    if options == [] then 0 else (if Filled(options[0]) then 1 else 0) + FilledCount(options[1..])
  }

  /** `q.options.some(opt => opt.isCorrect && opt.text.trim())`. */
  predicate HasCorrect(options: seq<FormOption>) {
    exists j :: 0 <= j < |options| && options[j].isCorrect && Filled(options[j])
  }

  /** The checks on one question, in the order they are reported. */
  function QuestionErrors(q: FormQuestion, i: nat): (r: seq<FormError>)
    ensures forall k :: 0 <= k < |r| ==> IsQuestionError(r[k]) && r[k].index == i
  {
    (if IsBlank(q.text) then [QuestionTextRequired(i)] else [])
    + (if FilledCount(q.options) < 2 then [TooFewOptions(i)] else [])
    + (if !HasCorrect(q.options) then [NoCorrectOption(i)] else [])
  }

  /** The question checks of the `forEach`, question after question. */
  function AllQuestionErrors(qs: seq<FormQuestion>): (r: seq<FormError>)
    ensures forall k :: 0 <= k < |r| ==> IsQuestionError(r[k]) && r[k].index < |qs|
  {
    if qs == [] then []
    else
      var n := |qs| - 1;
      AllQuestionErrors(qs[..n]) + QuestionErrors(qs[n], n)
  }

  /** The checks on the quiz fields, in the order they are reported. */
  function HeaderErrors(f: FormFields): (r: seq<FormError>)
    ensures forall k :: 0 <= k < |r| ==> !IsQuestionError(r[k])
  {
    (if IsBlank(f.title) then [TitleRequired] else [])
    + (if f.selectedClassId == "" then [ClassRequired] else [])
    + (if f.durationMinutes < 1 || f.durationMinutes > 180 then [DurationOutOfRange] else [])
    + (if f.openAt.None? then [OpenAtRequired] else [])
    + (if f.closeAt.None? then [CloseAtRequired] else [])
    + (if f.openAt.Some? && f.closeAt.Some? && f.openAt.value >= f.closeAt.value then [CloseNotAfterOpen] else [])
  }

  /** The question loop's result after one more question. */
  lemma QuestionErrorsStep(qs: seq<FormQuestion>, i: nat)
    requires i < |qs|
    ensures AllQuestionErrors(qs[..i + 1]) == AllQuestionErrors(qs[..i]) + QuestionErrors(qs[i], i)
  {
    assert qs[..i + 1][..i] == qs[..i];
  }

  /** Every error `validateForm` collects for the fields. */
  function FormErrors(f: FormFields): seq<FormError> {
    HeaderErrors(f) + AllQuestionErrors(f.questions)
  }

  /** The body of the question loop: the messages pushed for question `i`. */
  method CheckQuestion(q: FormQuestion, i: nat) returns (found: seq<FormError>)
    ensures found == QuestionErrors(q, i)
  {
    found := [];
    if IsBlank(q.text) {
      found := found + [QuestionTextRequired(i)];
    }
    if FilledCount(q.options) < 2 {
      found := found + [TooFewOptions(i)];
    }
    if !HasCorrect(q.options) {
      found := found + [NoCorrectOption(i)];
    }
  }

  /** `validateForm`: the header checks, then the loop over the questions. */
  method CollectErrors(f: FormFields) returns (errors: seq<FormError>, ok: bool)
    ensures errors == FormErrors(f)
    ensures ok <==> errors == []
  {
    errors := HeaderErrors(f);
    ghost var header := errors;
    var i := 0;
    while i < |f.questions|
      invariant 0 <= i <= |f.questions|
      invariant errors == header + AllQuestionErrors(f.questions[..i])
    {
      var q := f.questions[i];
      QuestionErrorsStep(f.questions, i);
      var found := CheckQuestion(q, i);
      AppendAssoc(header, AllQuestionErrors(f.questions[..i]), found);
      errors := errors + found;
      i := i + 1;
    }
    assert f.questions[..i] == f.questions;
    ok := |errors| == 0;
  }

  /** A question the form accepts: text, two filled options and a filled correct one. */
  predicate QuestionValid(q: FormQuestion) {
    !IsBlank(q.text) && FilledCount(q.options) >= 2 && HasCorrect(q.options)
  }

  /** A form the form accepts, stated field by field. */
  predicate FormValid(f: FormFields) {
    !IsBlank(f.title) && f.selectedClassId != "" && 1 <= f.durationMinutes <= 180
    && f.openAt.Some? && f.closeAt.Some? && f.openAt.value < f.closeAt.value
    && forall i :: 0 <= i < |f.questions| ==> QuestionValid(f.questions[i])
  }

  /** The question loop reports nothing exactly when every question is acceptable. */
  lemma {:induction false} NoQuestionErrors(qs: seq<FormQuestion>)
    ensures AllQuestionErrors(qs) == [] <==> forall i :: 0 <= i < |qs| ==> QuestionValid(qs[i])
  {
    if qs != [] {
      var n := |qs| - 1;
      NoQuestionErrors(qs[..n]);
      assert forall i :: 0 <= i < n ==> qs[..n][i] == qs[i];
    }
  }

  /** `validateForm` returns true exactly for the forms that meet every rule. */
  lemma FormErrorsEmptyIff(f: FormFields)
    ensures FormErrors(f) == [] <==> FormValid(f)
  {
    NoQuestionErrors(f.questions);
  }

  /** Each question message is reported exactly for the questions that break its rule. */
  lemma {:induction false} QuestionErrorsExact(qs: seq<FormQuestion>, i: nat)
    requires i < |qs|
    ensures QuestionTextRequired(i) in AllQuestionErrors(qs) <==> IsBlank(qs[i].text)
    ensures TooFewOptions(i) in AllQuestionErrors(qs) <==> FilledCount(qs[i].options) < 2
    ensures NoCorrectOption(i) in AllQuestionErrors(qs) <==> !HasCorrect(qs[i].options)
  {
    var n := |qs| - 1;
    if i < n {
      EarlierQuestionErrors(qs, i);
      QuestionErrorsExact(qs[..n], i);
      assert qs[..n][i] == qs[i];
    } else {
      LastQuestionErrors(qs);
    }
  }

  /** The messages about an earlier question all come from the questions before the last. */
  lemma EarlierQuestionErrors(qs: seq<FormQuestion>, i: nat)
    requires i < |qs| - 1
    ensures var prefix := AllQuestionErrors(qs[..|qs| - 1]);
            && (QuestionTextRequired(i) in AllQuestionErrors(qs) <==> QuestionTextRequired(i) in prefix)
            && (TooFewOptions(i) in AllQuestionErrors(qs) <==> TooFewOptions(i) in prefix)
            && (NoCorrectOption(i) in AllQuestionErrors(qs) <==> NoCorrectOption(i) in prefix)
  {
    var n := |qs| - 1;
    var own := QuestionErrors(qs[n], n);
    assert AllQuestionErrors(qs) == AllQuestionErrors(qs[..n]) + own;
    assert QuestionTextRequired(i) !in own && TooFewOptions(i) !in own && NoCorrectOption(i) !in own;
  }

  /** The messages about the last question are exactly its own checks. */
  lemma LastQuestionErrors(qs: seq<FormQuestion>)
    requires qs != []
    ensures var n := |qs| - 1;
            && (QuestionTextRequired(n) in AllQuestionErrors(qs) <==> IsBlank(qs[n].text))
            && (TooFewOptions(n) in AllQuestionErrors(qs) <==> FilledCount(qs[n].options) < 2)
            && (NoCorrectOption(n) in AllQuestionErrors(qs) <==> !HasCorrect(qs[n].options))
  {
    var n := |qs| - 1;
    var prefix := AllQuestionErrors(qs[..n]);
    var own := QuestionErrors(qs[n], n);
    assert AllQuestionErrors(qs) == prefix + own;
    assert QuestionTextRequired(n) !in prefix && TooFewOptions(n) !in prefix && NoCorrectOption(n) !in prefix;
    OwnQuestionErrors(qs[n], n, own);
  }

  /** Each of the three checks of one question reports its message exactly when it fails. */
  lemma OwnQuestionErrors(q: FormQuestion, i: nat, own: seq<FormError>)
    requires own == QuestionErrors(q, i)
    ensures QuestionTextRequired(i) in own <==> IsBlank(q.text)
    ensures TooFewOptions(i) in own <==> FilledCount(q.options) < 2
    ensures NoCorrectOption(i) in own <==> !HasCorrect(q.options)
  {
    var text := if IsBlank(q.text) then [QuestionTextRequired(i)] else [];
    var few := if FilledCount(q.options) < 2 then [TooFewOptions(i)] else [];
    var none := if !HasCorrect(q.options) then [NoCorrectOption(i)] else [];
    assert own == text + few + none;
  }

  /** An option of the request body. */
  datatype PayloadOption = PayloadOption(text: string, isCorrect: bool)

  /** A question of the request body. */
  datatype PayloadQuestion = PayloadQuestion(text: string, options: seq<PayloadOption>)

  /** The request body `handleSubmit` builds. */
  datatype QuizPayload = QuizPayload(
    title: string,
    description: string,
    durationMinutes: int,
    openAt: Time,
    closeAt: Time,
    questions: seq<PayloadQuestion>)

  /** A trimmed filled text is still filled, and trimming it again changes nothing. */
  lemma TrimFilled(s: string)
    requires !IsBlank(s)
    ensures !IsBlank(Trim(s)) && Trim(Trim(s)) == Trim(s)
  {
    TrimIdempotent(s);
    assert !IsSpace(Trim(s)[0]);
  }

  /** A body text: not blank, and already trimmed. */
  predicate Clean(o: PayloadOption) {
    !IsBlank(o.text) && Trim(o.text) == o.text
  }

  /** Every option text of a body is clean. */
  predicate AllClean(r: seq<PayloadOption>) {
    forall j :: 0 <= j < |r| ==> Clean(r[j])
  }

  /** The options of a question in the body: the filled ones, trimmed, in order, with their flag. */
  function PayloadOptions(options: seq<FormOption>): (r: seq<PayloadOption>)
    ensures |r| == FilledCount(options)
    ensures AllClean(r)
  {
    if options == [] then []
    else if Filled(options[0]) then
      TrimFilled(options[0].text);
      [PayloadOption(Trim(options[0].text), options[0].isCorrect)] + PayloadOptions(options[1..])
    else
      PayloadOptions(options[1..])
  }

  /** Some option of the body is marked correct. */
  predicate AnyCorrect(r: seq<PayloadOption>) {
    exists j :: 0 <= j < |r| && r[j].isCorrect
  }

  lemma HasCorrectCons(options: seq<FormOption>)
    requires options != []
    ensures HasCorrect(options) <==> (options[0].isCorrect && Filled(options[0])) || HasCorrect(options[1..])
  {
    if HasCorrect(options[1..]) {
      var j :| 0 <= j < |options[1..]| && options[1..][j].isCorrect && Filled(options[1..][j]);
      assert options[j + 1] == options[1..][j];
    }
    if HasCorrect(options) {
      var j :| 0 <= j < |options| && options[j].isCorrect && Filled(options[j]);
      if j > 0 {
        assert options[1..][j - 1] == options[j];
      }
    }
  }

  lemma AnyCorrectCons(head: PayloadOption, rest: seq<PayloadOption>)
    ensures AnyCorrect([head] + rest) <==> head.isCorrect || AnyCorrect(rest)
  {
    var r := [head] + rest;
    if head.isCorrect {
      assert r[0] == head;
    }
    if AnyCorrect(rest) {
      var j :| 0 <= j < |rest| && rest[j].isCorrect;
      assert r[j + 1] == rest[j];
    }
    if AnyCorrect(r) {
      var j :| 0 <= j < |r| && r[j].isCorrect;
      if j > 0 {
        assert rest[j - 1] == r[j];
      }
    }
  }

  /** The body has a correct option exactly when the form has a filled correct option. */
  lemma {:induction false} PayloadKeepsCorrect(options: seq<FormOption>)
    ensures AnyCorrect(PayloadOptions(options)) <==> HasCorrect(options)
  {
    if options != [] {
      PayloadKeepsCorrect(options[1..]);
      HasCorrectCons(options);
      var head := PayloadOption(Trim(options[0].text), options[0].isCorrect);
      if Filled(options[0]) {
        assert PayloadOptions(options) == [head] + PayloadOptions(options[1..]);
        AnyCorrectCons(head, PayloadOptions(options[1..]));
      } else {
        assert PayloadOptions(options) == PayloadOptions(options[1..]);
      }
    }
  }

  /** Building the options distributes over concatenation, so the body keeps the form's order. */
  lemma {:induction false} PayloadOptionsConcat(a: seq<FormOption>, b: seq<FormOption>)
    ensures PayloadOptions(a + b) == PayloadOptions(a) + PayloadOptions(b)
  {
    if a == [] {
      assert a + b == b;
    } else {
      assert (a + b)[0] == a[0] && (a + b)[1..] == a[1..] + b;
      PayloadOptionsConcat(a[1..], b);
      if Filled(a[0]) {
        AppendAssoc([PayloadOption(Trim(a[0].text), a[0].isCorrect)], PayloadOptions(a[1..]), PayloadOptions(b));
      }
    }
  }

  /** An option of the body, trimmed, blank or not. */
  function TrimOption(o: FormOption): PayloadOption {
    PayloadOption(Trim(o.text), o.isCorrect)
  }

  /** Every option trimmed, blank or not, with its flag. */
  function TrimAll(options: seq<FormOption>): seq<PayloadOption> {
    MapSeq(options, TrimOption)
  }

  /** With every option filled, the body's options are all of them, trimmed. */
  lemma {:induction false} PayloadOfFilledIsTrimAll(options: seq<FormOption>)
    requires forall j :: 0 <= j < |options| ==> Filled(options[j])
    ensures PayloadOptions(options) == TrimAll(options)
  {
    if options != [] {
      FilledTail(options);
      PayloadOfFilledIsTrimAll(options[1..]);
    }
  }

  /** When every option is filled, the body has all of them, position by position, trimmed and
      with their correctness flag. */
  lemma PayloadOfFilledOptions(options: seq<FormOption>)
    requires forall j :: 0 <= j < |options| ==> Filled(options[j])
    ensures |PayloadOptions(options)| == |options|
    ensures forall j :: 0 <= j < |options| ==>
              PayloadOptions(options)[j] == PayloadOption(Trim(options[j].text), options[j].isCorrect)
  {
    PayloadOfFilledIsTrimAll(options);
    if options != [] {
      MapSeqAt(options, TrimOption, 0);
    }
    forall j | 0 <= j < |options|
      ensures TrimAll(options)[j] == PayloadOption(Trim(options[j].text), options[j].isCorrect)
    {
      MapSeqAt(options, TrimOption, j);
    }
  }

  /** The tail of a list of filled options is filled. */
  lemma FilledTail(options: seq<FormOption>)
    requires options != [] && forall j :: 0 <= j < |options| ==> Filled(options[j])
    ensures Filled(options[0]) && forall j :: 0 <= j < |options[1..]| ==> Filled(options[1..][j])
  {
    forall j | 0 <= j < |options[1..]|
      ensures Filled(options[1..][j])
    {
      assert options[1..][j] == options[j + 1];
    }
  }

  /** Blank options never reach the body. */
  lemma {:induction false} PayloadDropsBlank(options: seq<FormOption>)
    requires forall j :: 0 <= j < |options| ==> !Filled(options[j])
    ensures PayloadOptions(options) == []
  {
    if options != [] {
      PayloadDropsBlank(options[1..]);
    }
  }

  /** The body of `handleSubmit`, which is only built once both dates are set. */
  function Payload(f: FormFields): (r: QuizPayload)
    requires f.openAt.Some? && f.closeAt.Some?
    ensures r.title == Trim(f.title) && r.description == Trim(f.description)
    ensures r.durationMinutes == f.durationMinutes && r.openAt == f.openAt.value && r.closeAt == f.closeAt.value
    ensures |r.questions| == |f.questions|
    ensures forall i :: 0 <= i < |r.questions| ==>
              r.questions[i].text == Trim(f.questions[i].text) && r.questions[i].options == PayloadOptions(f.questions[i].options)
  {
    QuizPayload(Trim(f.title), Trim(f.description), f.durationMinutes, f.openAt.value, f.closeAt.value,
                seq(|f.questions|, i requires 0 <= i < |f.questions| =>
                  PayloadQuestion(Trim(f.questions[i].text), PayloadOptions(f.questions[i].options))))
  }

  /** A body question with text and at least two filled options, one of them correct. */
  predicate Complete(q: PayloadQuestion) {
    !IsBlank(q.text) && |q.options| >= 2 && AnyCorrect(q.options)
    && AllClean(q.options)
  }

  /** An acceptable question's body has text, at least two options and a correct one. */
  lemma ValidQuestionPayload(q: FormQuestion)
    requires QuestionValid(q)
    ensures Complete(PayloadQuestion(Trim(q.text), PayloadOptions(q.options)))
  {
    TrimFilled(q.text);
    PayloadKeepsCorrect(q.options);
  }

  /** A valid form yields a body whose questions all have text and at least two options, one of
      them correct; the open date precedes the close date. */
  lemma PayloadOfValidForm(f: FormFields)
    requires FormValid(f)
    ensures Payload(f).openAt < Payload(f).closeAt && !IsBlank(Payload(f).title)
    ensures forall i :: 0 <= i < |Payload(f).questions| ==> Complete(Payload(f).questions[i])
  {
    var p := Payload(f);
    TrimFilled(f.title);
    forall i | 0 <= i < |p.questions|
      ensures Complete(p.questions[i])
    {
      ValidQuestionPayload(f.questions[i]);
    }
  }

  /** A body option as the server's validator reads it. */
  function OptionInputOf(o: PayloadOption): TeacherRequests.OptionInput {
    TeacherRequests.OptionInput(None, Some(o.text), Some(o.isCorrect))
  }

  /** A body question as the server's validator reads it. */
  function QuestionInputOf(q: PayloadQuestion): TeacherRequests.QuestionInput {
    TeacherRequests.QuestionInput(None, Some(q.text), Some(seq(|q.options|, j requires 0 <= j < |q.options| => OptionInputOf(q.options[j]))))
  }

  /** The request the create form sends, as written: the body carries no `classIds`; the class is
      only part of the URL, which the server's route does not pass on. */
  function SentRequest(p: QuizPayload): (r: TeacherRequests.QuizInput)
    ensures r.classIds.None?
    ensures r.title == Some(p.title) && r.description == Some(p.description)
    ensures r.durationMinutes == Some(p.durationMinutes) && r.openAt == Some(p.openAt) && r.closeAt == Some(p.closeAt)
    ensures r.questions.Some? && |r.questions.value| == |p.questions|
    ensures forall i :: 0 <= i < |p.questions| ==> r.questions.value[i] == QuestionInputOf(p.questions[i])
  {
    TeacherRequests.QuizInput(Some(p.title), Some(p.description), Some(p.durationMinutes), Some(p.openAt), Some(p.closeAt),
                              None, Some(seq(|p.questions|, i requires 0 <= i < |p.questions| => QuestionInputOf(p.questions[i]))))
  }

  /** No request the create form sends passes the server's `classIds` rule. */
  lemma SentRequestAlwaysRejected(p: QuizPayload, classes: map<Id, ClassRow>)
    ensures !TeacherRequests.ValidQuizFields(SentRequest(p), classes)
  {
  }

  /** The request the create form evidently means to send: the same body with the selected class
      as its only `classIds` entry. */
  function IntendedRequest(p: QuizPayload, classId: Id): (r: TeacherRequests.QuizInput)
    ensures r.classIds == Some([classId])
    ensures r.title == Some(p.title) && r.questions.Some? && |r.questions.value| == |p.questions|
    ensures r.(classIds := None) == SentRequest(p)
  {
    SentRequest(p).(classIds := Some([classId]))
  }

  /** A form the client accepts, with a title of at most 255 characters (a bound the client does
      not check), at least one question (which the create form always has) and an existing
      selected class, yields an intended request the server's rules accept. */
  lemma IntendedRequestAccepted(f: FormFields, classes: map<Id, ClassRow>, classId: Id)
    requires FormValid(f) && |Trim(f.title)| <= 255 && |f.questions| >= 1
    requires f.selectedClassId == IdString(classId) && classId in classes
    ensures TeacherRequests.ValidQuizFields(IntendedRequest(Payload(f), classId), classes)
  {
    var p := Payload(f);
    PayloadOfValidForm(f);
    var r := IntendedRequest(p, classId);
    forall k | 0 <= k < |r.classIds.value|
      ensures r.classIds.value[k] in classes
    {
      assert r.classIds.value == [classId];
    }
    forall i | 0 <= i < |r.questions.value|
      ensures TeacherRequests.ValidQuestion(r.questions.value[i])
    {
      assert r.questions.value[i] == QuestionInputOf(p.questions[i]);
      CompleteQuestionAccepted(p.questions[i]);
    }
  }

  /** The server's question rules accept a complete body question. */
  lemma CompleteQuestionAccepted(q: PayloadQuestion)
    requires Complete(q)
    ensures TeacherRequests.ValidQuestion(QuestionInputOf(q))
  {
    var input := QuestionInputOf(q);
    forall j | 0 <= j < |input.options.value|
      ensures TeacherRequests.ValidOption(input.options.value[j])
    {
      assert input.options.value[j] == OptionInputOf(q.options[j]);
      assert Clean(q.options[j]);
    }
  }
}
