/** The teacher side of the backend that writes quizzes: `createQuiz`, `updateQuiz` and the
    ownership guard of `getSubmission`. */
module TeacherController {
  import opened Common
  import opened Schema
  import opened Scoring
  import opened Store
  import opened TeacherRequests

  /** The error responses: 403 for a non-teacher, 404 for a quiz the teacher does not own,
      422 for a request that fails validation, 403 for a class the teacher does not own, and 500
      when the transaction fails. */
  datatype AuthoringFailure = Unauthorized | NotFound | ValidationFailed | ClassNotOwned | ServerError

  datatype AuthoringResult = Saved(quizId: Id) | AuthoringRefused(failure: AuthoringFailure)

  /** Every requested class belongs to the teacher (the `array_diff` check is empty). */
  predicate OwnsClasses(classIds: seq<Id>, classes: map<Id, ClassRow>, teacherId: Id) {
    NotOwned(classIds, TeacherClassIds(classes, teacherId)) == []
  }

  /** The response `createQuiz` gives. Attaching the same class twice breaks the unique
      (quiz_id, class_id) index of the pivot table, which fails the transaction. */
  function CreateOutcome(cat: Catalog, user: User, req: QuizInput, fault: bool): (r: AuthoringResult)
    ensures r.Saved? <==> user.role == Teacher && ValidQuizFields(req, cat.classes)
                          && OwnsClasses(req.classIds.value, cat.classes, user.id)
                          && !fault && NoDuplicates(req.classIds.value)
    ensures r.Saved? ==> r.quizId == cat.nextQuizId
    // The refusals, in the order the action checks them.
    ensures user.role != Teacher ==> r == AuthoringRefused(Unauthorized)
    ensures user.role == Teacher && !ValidQuizFields(req, cat.classes) ==> r == AuthoringRefused(ValidationFailed)
    ensures user.role == Teacher && ValidQuizFields(req, cat.classes)
            && !OwnsClasses(req.classIds.value, cat.classes, user.id)
            ==> r == AuthoringRefused(ClassNotOwned)
    ensures user.role == Teacher && ValidQuizFields(req, cat.classes)
            && OwnsClasses(req.classIds.value, cat.classes, user.id)
            && (fault || !NoDuplicates(req.classIds.value))
            ==> r == AuthoringRefused(ServerError)
  {
    if user.role != Teacher then AuthoringRefused(Unauthorized)
    else if !ValidQuizFields(req, cat.classes) then AuthoringRefused(ValidationFailed)
    else if !OwnsClasses(req.classIds.value, cat.classes, user.id) then AuthoringRefused(ClassNotOwned)
    else if fault || !NoDuplicates(req.classIds.value) then AuthoringRefused(ServerError)
    else Saved(cat.nextQuizId)
  }

  /** The response `updateQuiz` gives: the quiz lookup comes before validation. */
  function UpdateOutcome(cat: Catalog, user: User, quizId: Id, req: QuizInput, fault: bool): (r: AuthoringResult)
    ensures r.Saved? <==> user.role == Teacher && quizId in cat.quizzes && cat.quizzes[quizId].createdBy == user.id
                          && ValidQuizFields(req, cat.classes) && ValidIds(req, cat.questions, cat.options)
                          && OwnsClasses(req.classIds.value, cat.classes, user.id) && !fault
    ensures r.Saved? ==> r.quizId == quizId
    // The refusals, in the order the action checks them.
    ensures user.role != Teacher ==> r == AuthoringRefused(Unauthorized)
    ensures user.role == Teacher && (quizId !in cat.quizzes || cat.quizzes[quizId].createdBy != user.id)
            ==> r == AuthoringRefused(NotFound)
    ensures user.role == Teacher && quizId in cat.quizzes && cat.quizzes[quizId].createdBy == user.id
            && !(ValidQuizFields(req, cat.classes) && ValidIds(req, cat.questions, cat.options))
            ==> r == AuthoringRefused(ValidationFailed)
    ensures user.role == Teacher && quizId in cat.quizzes && cat.quizzes[quizId].createdBy == user.id
            && ValidQuizFields(req, cat.classes) && ValidIds(req, cat.questions, cat.options)
            && !OwnsClasses(req.classIds.value, cat.classes, user.id)
            ==> r == AuthoringRefused(ClassNotOwned)
    ensures user.role == Teacher && quizId in cat.quizzes && cat.quizzes[quizId].createdBy == user.id
            && ValidQuizFields(req, cat.classes) && ValidIds(req, cat.questions, cat.options)
            && OwnsClasses(req.classIds.value, cat.classes, user.id) && fault
            ==> r == AuthoringRefused(ServerError)
  {
    if user.role != Teacher then AuthoringRefused(Unauthorized)
    else if quizId !in cat.quizzes || cat.quizzes[quizId].createdBy != user.id then AuthoringRefused(NotFound)
    else if !ValidQuizFields(req, cat.classes) || !ValidIds(req, cat.questions, cat.options) then AuthoringRefused(ValidationFailed)
    else if !OwnsClasses(req.classIds.value, cat.classes, user.id) then AuthoringRefused(ClassNotOwned)
    else if fault then AuthoringRefused(ServerError)
    else Saved(quizId)
  }

  /** The quiz row a valid request describes. */
  function QuizRowOf(req: QuizInput, createdBy: Id): QuizRow
    requires req.title.Some? && req.durationMinutes.Some? && req.openAt.Some? && req.closeAt.Some? && req.classIds.Some?
  {
    QuizRow(req.title.value, req.description, createdBy, req.durationMinutes.value,
            req.openAt.value, req.closeAt.value, Elems(req.classIds.value))
  }

  /** Ids of the options that belong to a question. */
  function OptionsOf(options: map<Id, OptionRow>, questionId: Id): set<Id> {
    set o | o in options && options[o].questionId == questionId
  }

  /** Total number of options of the first `i` questions: where the option ids of question `i`
      start, counted from the first id the request allocates. */
  function OptionOffset(spec: seq<QuestionSpec>, i: nat): nat
    requires i <= |spec|
  {
    if i == 0 then 0 else OptionOffset(spec, i - 1) + |spec[i - 1].options|
  }

  /** No option row of a question outside `touched` changes, appears or disappears. */
  predicate OptionsKeptOutside(before: map<Id, OptionRow>, after: map<Id, OptionRow>, touched: set<Id>) {
    (forall o :: o in before && before[o].questionId !in touched ==> o in after && after[o] == before[o])
    && (forall o :: o in after && after[o].questionId !in touched ==> o in before && before[o] == after[o])
  }

  /** No question row of another quiz changes, appears or disappears. */
  predicate QuestionsKeptOutside(before: map<Id, QuestionRow>, after: map<Id, QuestionRow>, quizId: Id) {
    (forall q :: q in before && before[q].quizId != quizId ==> q in after && after[q] == before[q])
    && (forall q :: q in after && after[q].quizId != quizId ==> q in before && before[q] == after[q])
  }

  /** Position `k` is the last position of `ids` that holds `ids[k]`. */
  predicate LastOccurrence(ids: seq<Id>, k: int) {
    0 <= k < |ids| && forall m :: k < m < |ids| ==> ids[m] != ids[k]
  }

  /** The id a request entry was saved to is the entry's own id when that id already belongs to the
      parent (`prior`), and otherwise a new auto-increment id (at least `firstNew`, and distinct
      from the other new ones). */
  predicate IdsResolved(requested: seq<Option<Id>>, ids: seq<Id>, prior: set<Id>, firstNew: Id) {
    |ids| == |requested|
    && (forall k :: 0 <= k < |ids| && requested[k].Some? && requested[k].value in prior ==> ids[k] == requested[k].value)
    && (forall k :: 0 <= k < |ids| && !(requested[k].Some? && requested[k].value in prior) ==> ids[k] >= firstNew)
    && (forall k1, k2 ::
          (0 <= k1 < k2 < |ids|
           && !(requested[k1].Some? && requested[k1].value in prior)
           && !(requested[k2].Some? && requested[k2].value in prior)) ==> ids[k1] != ids[k2])
  }

  /** The ids a request names, entry by entry (`None` for an entry without one). */
  function IdsRequested<T>(spec: seq<T>, idOf: T -> Option<Id>): (r: seq<Option<Id>>)
    ensures |r| == |spec| && forall k :: 0 <= k < |spec| ==> r[k] == idOf(spec[k])
  {
    seq(|spec|, k requires 0 <= k < |spec| => idOf(spec[k]))
  }

  function OptionIdsRequested(spec: seq<OptionSpec>): (r: seq<Option<Id>>)
    ensures |r| == |spec| && forall k :: 0 <= k < |spec| ==> r[k] == spec[k].id
  {
    IdsRequested(spec, (o: OptionSpec) => o.id)
  }

  function QuestionIdsRequested(spec: seq<QuestionSpec>): (r: seq<Option<Id>>)
    ensures |r| == |spec| && forall k :: 0 <= k < |spec| ==> r[k] == spec[k].id
  {
    IdsRequested(spec, (q: QuestionSpec) => q.id)
  }

  /** Every position that holds the last occurrence of its id has been saved with the text, flag
      and position of that request entry. */
  predicate SavedOptionRows(options: map<Id, OptionRow>, questionId: Id, spec: seq<OptionSpec>, ids: seq<Id>) {
    |ids| <= |spec|
    && forall k :: 0 <= k < |ids| && LastOccurrence(ids, k) ==>
         ids[k] in options && options[ids[k]] == OptionRow(questionId, spec[k].text, spec[k].isCorrect, k)
  }

  /** Every position that holds the last occurrence of its id has been saved with the text and
      position of that request entry. */
  predicate SavedQuestionRows(questions: map<Id, QuestionRow>, quizId: Id, spec: seq<QuestionSpec>, ids: seq<Id>) {
    |ids| <= |spec|
    && forall k :: 0 <= k < |ids| && LastOccurrence(ids, k) ==>
         ids[k] in questions && questions[ids[k]] == QuestionRow(quizId, spec[k].text, k)
  }

  /** After reconciling a question's options with the request: its options are exactly the saved
      ids, each saved with the text, flag and position of the last entry saved to it. */
  predicate OptionsReconciled(options: map<Id, OptionRow>, questionId: Id, spec: seq<OptionSpec>,
                              ids: seq<Id>, prior: set<Id>, firstNew: Id)
  {
    IdsResolved(OptionIdsRequested(spec), ids, prior, firstNew)
    && OptionsOf(options, questionId) == Elems(ids)
    && SavedOptionRows(options, questionId, spec, ids)
  }

  /** After reconciling a quiz's questions with the request: its questions are exactly the saved
      ids, each saved with the text and position of the last entry saved to it. */
  predicate QuestionsReconciled(questions: map<Id, QuestionRow>, quizId: Id, spec: seq<QuestionSpec>,
                                ids: seq<Id>, prior: set<Id>, firstNew: Id)
  {
    IdsResolved(QuestionIdsRequested(spec), ids, prior, firstNew)
    && QuestionsOf(questions, quizId) == Elems(ids)
    && SavedQuestionRows(questions, quizId, spec, ids)
  }

  /** Resolving one more request entry: to its own id when the parent has it, else to a new id
      above every id resolved so far. */
  lemma ResolveStep(requested: seq<Option<Id>>, ids: seq<Id>, prior: set<Id>, firstNew: Id, r: Option<Id>, t: Id)
    requires IdsResolved(requested, ids, prior, firstNew)
    requires r.Some? && r.value in prior ==> t == r.value
    requires !(r.Some? && r.value in prior) ==> t >= firstNew && forall k :: 0 <= k < |ids| ==> ids[k] < t
    ensures IdsResolved(requested + [r], ids + [t], prior, firstNew)
  {
  }

  /** A row id below the first new id that a reconciliation loop holds is one the parent had. */
  lemma ResolvedBelowFirstNew(requested: seq<Option<Id>>, ids: seq<Id>, prior: set<Id>, firstNew: Id, x: Id)
    requires IdsResolved(requested, ids, prior, firstNew)
    requires x in prior + Elems(ids) && x < firstNew
    ensures x in prior
  {
    if x in Elems(ids) {
      var k :| 0 <= k < |ids| && ids[k] == x;
      assert requested[k].Some? && requested[k].value in prior;
    }
  }

  /** Saving request entry `|ids|` to `target` keeps every last occurrence saved. */
  lemma SaveOptionStep(options: map<Id, OptionRow>, questionId: Id, spec: seq<OptionSpec>, ids: seq<Id>, target: Id)
    requires SavedOptionRows(options, questionId, spec, ids) && |ids| < |spec|
    ensures SavedOptionRows(options[target := OptionRow(questionId, spec[|ids|].text, spec[|ids|].isCorrect, |ids|)],
                            questionId, spec, ids + [target])
  {
    var ids' := ids + [target];
    forall k | 0 <= k < |ids'| && LastOccurrence(ids', k)
      ensures k < |ids| ==> LastOccurrence(ids, k) && ids[k] != target
    {
      if k < |ids| {
        assert ids'[|ids|] == target;
        forall m | k < m < |ids|
          ensures ids[m] != ids[k]
        {
          assert ids'[m] == ids[m];
        }
      }
    }
  }

  /** Saving request entry `|ids|` to `target` keeps every last occurrence saved. */
  lemma SaveQuestionStep(questions: map<Id, QuestionRow>, quizId: Id, spec: seq<QuestionSpec>, ids: seq<Id>, target: Id)
    requires SavedQuestionRows(questions, quizId, spec, ids) && |ids| < |spec|
    ensures SavedQuestionRows(questions[target := QuestionRow(quizId, spec[|ids|].text, |ids|)], quizId, spec, ids + [target])
  {
    var ids' := ids + [target];
    forall k | 0 <= k < |ids'| && LastOccurrence(ids', k)
      ensures k < |ids| ==> LastOccurrence(ids, k) && ids[k] != target
    {
      if k < |ids| {
        assert ids'[|ids|] == target;
        forall m | k < m < |ids|
          ensures ids[m] != ids[k]
        {
          assert ids'[m] == ids[m];
        }
      }
    }
  }

  /** Writing a row of a question adds its id to the question's options and leaves the other
      questions' options alone. */
  lemma UpsertOption(before: map<Id, OptionRow>, current: map<Id, OptionRow>, questionId: Id, target: Id, row: OptionRow)
    requires OptionsKeptOutside(before, current, {questionId})
    requires row.questionId == questionId && (target in current ==> current[target].questionId == questionId)
    ensures OptionsKeptOutside(before, current[target := row], {questionId})
    ensures OptionsOf(current[target := row], questionId) == OptionsOf(current, questionId) + {target}
  {
  }

  /** The `updateOrCreate` loop over one question's request options, on the options table: an
      entry whose id names an option of this question overwrites that row, any other entry gets a
      new auto-increment id. */
  method UpsertOptions(options: map<Id, OptionRow>, nextId: Id, questions: set<Id>, questionId: Id, spec: seq<OptionSpec>)
    returns (options': map<Id, OptionRow>, nextId': Id, ids: seq<Id>)
    requires questionId in questions
    requires forall o :: o in options ==> o < nextId && options[o].questionId in questions
    requires forall k :: 0 <= k < |spec| && spec[k].id.Some? ==> spec[k].id.value < nextId
    ensures nextId' >= nextId
    ensures forall o :: o in options' ==> o < nextId' && options'[o].questionId in questions
    ensures OptionsKeptOutside(options, options', {questionId})
    ensures OptionsOf(options', questionId) == OptionsOf(options, questionId) + Elems(ids)
    ensures IdsResolved(OptionIdsRequested(spec), ids, OptionsOf(options, questionId), nextId)
    ensures SavedOptionRows(options', questionId, spec, ids)
  {
    options', nextId' := options, nextId;
    ghost var prior := OptionsOf(options, questionId);
    ghost var requested := OptionIdsRequested(spec);
    ids := [];
    var j := 0;
    while j < |spec|
      invariant 0 <= j <= |spec| && |ids| == j
      invariant nextId' >= nextId
      invariant forall o :: o in options' ==> o < nextId' && options'[o].questionId in questions
      invariant OptionsKeptOutside(options, options', {questionId})
      invariant OptionsOf(options', questionId) == prior + Elems(ids)
      invariant forall k :: 0 <= k < j ==> ids[k] < nextId'
      invariant IdsResolved(requested[..j], ids, prior, nextId)
      invariant SavedOptionRows(options', questionId, spec, ids)
    {
      var entry := spec[j];
      var row := OptionRow(questionId, entry.text, entry.isCorrect, j);
      var target: Id;
      if entry.id.Some? && entry.id.value in options' && options'[entry.id.value].questionId == questionId {
        target := entry.id.value;
        assert target in prior by {
          assert target in OptionsOf(options', questionId);
          ResolvedBelowFirstNew(requested[..j], ids, prior, nextId, target);
        }
      } else {
        assert !(entry.id.Some? && entry.id.value in prior) by {
          assert prior <= OptionsOf(options', questionId);
        }
        target := nextId';
        nextId' := nextId' + 1;
      }
      UpsertOption(options, options', questionId, target, row);
      SaveOptionStep(options', questionId, spec, ids, target);
      ResolveStep(requested[..j], ids, prior, nextId, entry.id, target);
      ElemsAppend(ids, target);
      assert requested[..j + 1] == requested[..j] + [entry.id];
      options' := options'[target := row];
      ids := ids + [target];
      j := j + 1;
    }
    assert requested[..j] == requested;
  }

  /** Deleting the options of a question that are not among `keep`. */
  function PruneOptions(options: map<Id, OptionRow>, questionId: Id, keep: seq<Id>): (r: map<Id, OptionRow>)
    ensures OptionsOf(r, questionId) == OptionsOf(options, questionId) * Elems(keep)
    ensures forall q :: q != questionId ==> OptionsOf(r, q) == OptionsOf(options, q)
    ensures forall o :: o in r ==> o in options && r[o] == options[o]
  {
    map o | o in options && (options[o].questionId != questionId || o in keep) :: options[o]
  }

  /** The option loop of `updateQuiz` for one question followed by the deletion of the question's
      options the request no longer lists. */
  method ReconcileOptions(options: map<Id, OptionRow>, nextId: Id, questions: set<Id>, questionId: Id, spec: seq<OptionSpec>)
    returns (options': map<Id, OptionRow>, nextId': Id, updatedOptionIds: seq<Id>)
    requires questionId in questions
    requires forall o :: o in options ==> o < nextId && options[o].questionId in questions
    requires forall k :: 0 <= k < |spec| && spec[k].id.Some? ==> spec[k].id.value < nextId
    ensures nextId' >= nextId
    ensures forall o :: o in options' ==> o < nextId' && options'[o].questionId in questions
    ensures OptionsKeptOutside(options, options', {questionId})
    ensures OptionsReconciled(options', questionId, spec, updatedOptionIds, OptionsOf(options, questionId), nextId)
  {
    var upserted;
    upserted, nextId', updatedOptionIds := UpsertOptions(options, nextId, questions, questionId, spec);
    options' := PruneOptions(upserted, questionId, updatedOptionIds);
  }

  /** Reconciled options stay reconciled while only options of other questions change. */
  lemma ReconciledOptionsKept(before: map<Id, OptionRow>, after: map<Id, OptionRow>, touched: set<Id>,
                              questionId: Id, spec: seq<OptionSpec>, ids: seq<Id>, prior: set<Id>, firstNew: Id)
    requires OptionsReconciled(before, questionId, spec, ids, prior, firstNew)
    requires OptionsKeptOutside(before, after, touched) && questionId !in touched
    ensures OptionsReconciled(after, questionId, spec, ids, prior, firstNew)
  {
    assert OptionsOf(after, questionId) == OptionsOf(before, questionId);
  }

  /** Writing a row of the quiz adds its id to the quiz's questions and leaves other quizzes alone. */
  lemma UpsertQuestion(before: map<Id, QuestionRow>, current: map<Id, QuestionRow>, quizId: Id, target: Id, row: QuestionRow)
    requires QuestionsKeptOutside(before, current, quizId)
    requires row.quizId == quizId && (target in current ==> current[target].quizId == quizId)
    ensures QuestionsKeptOutside(before, current[target := row], quizId)
    ensures QuestionsOf(current[target := row], quizId) == QuestionsOf(current, quizId) + {target}
  {
  }

  /** One more question's options reconciled: earlier questions keep their reconciled options when
      the question ids stay distinct, and nothing outside the saved questions moves. */
  lemma OptionsLoopStep(initial: map<Id, OptionRow>, before: map<Id, OptionRow>, after: map<Id, OptionRow>,
                        spec: seq<QuestionSpec>, ids: seq<Id>, optionIds: seq<seq<Id>>, t: Id, newIds: seq<Id>,
                        firstNew: Id, stepFirstNew: Id)
    requires |ids| == |optionIds| < |spec| && stepFirstNew >= firstNew
    requires OptionsKeptOutside(initial, before, Elems(ids))
    requires OptionsKeptOutside(before, after, {t})
    requires NoDuplicates(ids) ==>
               forall k :: 0 <= k < |ids| ==>
                 OptionsReconciled(before, ids[k], spec[k].options, optionIds[k], OptionsOf(initial, ids[k]), firstNew)
    requires OptionsReconciled(after, t, spec[|ids|].options, newIds, OptionsOf(before, t), stepFirstNew)
    ensures OptionsKeptOutside(initial, after, Elems(ids + [t]))
    ensures NoDuplicates(ids + [t]) ==>
              forall k :: 0 <= k < |ids| + 1 ==>
                OptionsReconciled(after, (ids + [t])[k], spec[k].options, (optionIds + [newIds])[k],
                                  OptionsOf(initial, (ids + [t])[k]), firstNew)
  {
    ElemsAppend(ids, t);
    KeptOutsideCompose(initial, before, after, Elems(ids), {t});
    var ids' := ids + [t];
    if NoDuplicates(ids') {
      NoDuplicatesPrefix(ids, t);
      assert OptionsOf(before, t) == OptionsOf(initial, t);
      ReconciledWeaken(after, t, spec[|ids|].options, newIds, OptionsOf(initial, t), stepFirstNew, firstNew);
      forall k | 0 <= k < |ids| + 1
        ensures OptionsReconciled(after, (ids + [t])[k], spec[k].options, (optionIds + [newIds])[k],
                                  OptionsOf(initial, (ids + [t])[k]), firstNew)
      {
        if k < |ids| {
          ReconciledEarlierEntry(initial, before, after, spec, ids, optionIds, t, newIds, firstNew, k);
        } else {
          ReconciledLastEntry(initial, after, spec, ids, optionIds, t, newIds, firstNew);
        }
      }
    }
  }

  /** An earlier question, other than `t`, keeps its reconciled options while `t`'s are reconciled. */
  lemma ReconciledEarlierEntry(initial: map<Id, OptionRow>, before: map<Id, OptionRow>, after: map<Id, OptionRow>,
                               spec: seq<QuestionSpec>, ids: seq<Id>, optionIds: seq<seq<Id>>, t: Id, newIds: seq<Id>,
                               firstNew: Id, k: nat)
    requires k < |ids| == |optionIds| < |spec| && ids[k] != t
    requires OptionsKeptOutside(before, after, {t})
    requires OptionsReconciled(before, ids[k], spec[k].options, optionIds[k], OptionsOf(initial, ids[k]), firstNew)
    ensures OptionsReconciled(after, (ids + [t])[k], spec[k].options, (optionIds + [newIds])[k],
                              OptionsOf(initial, (ids + [t])[k]), firstNew)
  {
    assert (ids + [t])[k] == ids[k] && (optionIds + [newIds])[k] == optionIds[k];
    ReconciledOptionsKept(before, after, {t}, ids[k], spec[k].options, optionIds[k], OptionsOf(initial, ids[k]), firstNew);
  }

  /** The question just reconciled, seen as the last entry of the extended sequences. */
  lemma ReconciledLastEntry(initial: map<Id, OptionRow>, after: map<Id, OptionRow>,
                            spec: seq<QuestionSpec>, ids: seq<Id>, optionIds: seq<seq<Id>>, t: Id, newIds: seq<Id>,
                            firstNew: Id)
    requires |ids| == |optionIds| < |spec|
    requires OptionsReconciled(after, t, spec[|ids|].options, newIds, OptionsOf(initial, t), firstNew)
    ensures OptionsReconciled(after, (ids + [t])[|ids|], spec[|ids|].options, (optionIds + [newIds])[|ids|],
                              OptionsOf(initial, (ids + [t])[|ids|]), firstNew)
  {
    assert (ids + [t])[|ids|] == t && (optionIds + [newIds])[|ids|] == newIds;
  }

  /** Rows kept outside `s1` and then outside `s2` are kept outside both. */
  lemma KeptOutsideCompose(a: map<Id, OptionRow>, b: map<Id, OptionRow>, c: map<Id, OptionRow>, s1: set<Id>, s2: set<Id>)
    requires OptionsKeptOutside(a, b, s1) && OptionsKeptOutside(b, c, s2)
    ensures OptionsKeptOutside(a, c, s1 + s2)
  {
  }

  /** A sequence without duplicates after appending `t`: the prefix has none, and `t` is not in it. */
  lemma NoDuplicatesPrefix<T>(ids: seq<T>, t: T)
    requires NoDuplicates(ids + [t])
    ensures NoDuplicates(ids) && t !in Elems(ids)
  {
    var ids' := ids + [t];
    forall i, j | 0 <= i < j < |ids| ensures ids[i] != ids[j] {
      assert ids'[i] == ids[i] && ids'[j] == ids[j];
    }
    forall k | 0 <= k < |ids| ensures ids[k] != t {
      assert ids'[k] == ids[k] && ids'[|ids|] == t;
    }
  }

  /** A reconciliation whose new ids start at `stepFirstNew` is one whose new ids start at any
      lower `firstNew`. */
  lemma ReconciledWeaken(options: map<Id, OptionRow>, questionId: Id, spec: seq<OptionSpec>, ids: seq<Id>,
                         prior: set<Id>, stepFirstNew: Id, firstNew: Id)
    requires OptionsReconciled(options, questionId, spec, ids, prior, stepFirstNew) && firstNew <= stepFirstNew
    ensures OptionsReconciled(options, questionId, spec, ids, prior, firstNew)
  {
  }

  /** Deleting the questions of a quiz that are not among `keep`. */
  function PruneQuestions(questions: map<Id, QuestionRow>, quizId: Id, keep: seq<Id>): (r: map<Id, QuestionRow>)
    ensures QuestionsOf(r, quizId) == QuestionsOf(questions, quizId) * Elems(keep)
    ensures forall z :: z != quizId ==> QuestionsOf(r, z) == QuestionsOf(questions, z)
    ensures forall q :: q in r ==> q in questions && r[q] == questions[q]
  {
    map q | q in questions && (questions[q].quizId != quizId || q in keep) :: questions[q]
  }

  /** The foreign-key cascade from questions to options: options whose question is gone go too. */
  function DropOrphanOptions(options: map<Id, OptionRow>, questions: map<Id, QuestionRow>): (r: map<Id, OptionRow>)
    ensures forall q :: q in questions ==> OptionsOf(r, q) == OptionsOf(options, q)
    ensures forall o :: o in r ==> r[o].questionId in questions
    ensures forall o :: o in r ==> o in options && r[o] == options[o]
  {
    map o | o in options && options[o].questionId in questions :: options[o]
  }

  /** Every question id a request names lies below the questions counter. */
  predicate QuestionIdsBelow(spec: seq<QuestionSpec>, nextQuestionId: Id) {
    forall i :: 0 <= i < |spec| && spec[i].id.Some? ==> spec[i].id.value < nextQuestionId
  }

  /** Every option id a request names lies below the options counter. */
  predicate OptionIdsBelow(spec: seq<QuestionSpec>, nextOptionId: Id) {
    forall i, j :: 0 <= i < |spec| && 0 <= j < |spec[i].options| && spec[i].options[j].id.Some? ==>
      spec[i].options[j].id.value < nextOptionId
  }

  /** What the question loop of `updateQuiz` has done to the questions table after `|ids|` entries. */
  ghost predicate QuestionLoop(cat: Catalog, quizId: Id, spec: seq<QuestionSpec>,
                               questions: map<Id, QuestionRow>, nextQ: Id, ids: seq<Id>)
  {
    |ids| <= |spec| && nextQ >= cat.nextQuestionId
    && (forall q :: q in questions ==> q < nextQ && questions[q].quizId in cat.quizzes)
    && QuestionsKeptOutside(cat.questions, questions, quizId)
    && QuestionsOf(questions, quizId) == QuestionsOf(cat.questions, quizId) + Elems(ids)
    && (forall k :: 0 <= k < |ids| ==> ids[k] < nextQ)
    && IdsResolved(QuestionIdsRequested(spec)[..|ids|], ids, QuestionsOf(cat.questions, quizId), cat.nextQuestionId)
    && SavedQuestionRows(questions, quizId, spec, ids)
  }

  /** What the option loops of `updateQuiz` have done to the options table after `|ids|` questions. */
  ghost predicate OptionLoop(cat: Catalog, spec: seq<QuestionSpec>, questions: set<Id>,
                             options: map<Id, OptionRow>, nextO: Id, ids: seq<Id>, optionIds: seq<seq<Id>>)
  {
    |optionIds| == |ids| <= |spec| && nextO >= cat.nextOptionId
    && (forall o :: o in options ==> o < nextO && options[o].questionId in questions)
    && OptionsKeptOutside(cat.options, options, Elems(ids))
    && (NoDuplicates(ids) ==>
          forall k :: 0 <= k < |ids| ==>
            OptionsReconciled(options, ids[k], spec[k].options, optionIds[k], OptionsOf(cat.options, ids[k]), cat.nextOptionId))
  }

  /** The option loop state does not depend on which further questions exist. */
  lemma OptionLoopWiden(cat: Catalog, spec: seq<QuestionSpec>, qs: set<Id>, qs': set<Id>,
                        options: map<Id, OptionRow>, nextO: Id, ids: seq<Id>, optionIds: seq<seq<Id>>)
    requires OptionLoop(cat, spec, qs, options, nextO, ids, optionIds) && qs <= qs'
    requires OptionIdsBelow(spec, cat.nextOptionId) && |ids| < |spec|
    ensures OptionLoop(cat, spec, qs', options, nextO, ids, optionIds)
    ensures forall o :: o in options ==> o < nextO && options[o].questionId in qs'
    ensures forall k :: 0 <= k < |spec[|ids|].options| && spec[|ids|].options[k].id.Some? ==>
              spec[|ids|].options[k].id.value < nextO
  {
  }

  /** Reconciling the options of one more question keeps the option loop state. */
  lemma OptionLoopStep(cat: Catalog, spec: seq<QuestionSpec>, qs: set<Id>,
                       options: map<Id, OptionRow>, options': map<Id, OptionRow>, nextO: Id, nextO': Id,
                       ids: seq<Id>, optionIds: seq<seq<Id>>, t: Id, newIds: seq<Id>)
    requires OptionLoop(cat, spec, qs, options, nextO, ids, optionIds) && |ids| < |spec|
    requires nextO' >= nextO
    requires forall o :: o in options' ==> o < nextO' && options'[o].questionId in qs
    requires OptionsKeptOutside(options, options', {t})
    requires OptionsReconciled(options', t, spec[|ids|].options, newIds, OptionsOf(options, t), nextO)
    ensures OptionLoop(cat, spec, qs, options', nextO', ids + [t], optionIds + [newIds])
  {
    OptionsLoopStep(cat.options, options, options', spec, ids, optionIds, t, newIds, cat.nextOptionId, nextO);
  }

  /** One `updateOrCreate` of the question loop: entry `|ids|` overwrites the quiz's question it
      names, or is saved under a new id. */
  method SaveQuestion(cat: Catalog, quizId: Id, spec: seq<QuestionSpec>,
                      questions: map<Id, QuestionRow>, nextQ: Id, ids: seq<Id>)
    returns (questions': map<Id, QuestionRow>, nextQ': Id, target: Id)
    requires quizId in cat.quizzes && QuestionIdsBelow(spec, cat.nextQuestionId)
    requires QuestionLoop(cat, quizId, spec, questions, nextQ, ids) && |ids| < |spec|
    ensures QuestionLoop(cat, quizId, spec, questions', nextQ', ids + [target])
    ensures target in questions' && questions.Keys <= questions'.Keys
  {
    var i := |ids|;
    var entry := spec[i];
    ghost var prior := QuestionsOf(cat.questions, quizId);
    ghost var requested := QuestionIdsRequested(spec);
    var row := QuestionRow(quizId, entry.text, i);
    nextQ' := nextQ;
    if entry.id.Some? && entry.id.value in questions && questions[entry.id.value].quizId == quizId {
      target := entry.id.value;
      assert target in prior by {
        assert target in QuestionsOf(questions, quizId);
        ResolvedBelowFirstNew(requested[..i], ids, prior, cat.nextQuestionId, target);
      }
    } else {
      assert !(entry.id.Some? && entry.id.value in prior) by {
        assert prior <= QuestionsOf(questions, quizId);
      }
      target := nextQ;
      nextQ' := nextQ + 1;
    }
    questions' := questions[target := row];
    ghost var ids' := ids + [target];
    UpsertQuestion(cat.questions, questions, quizId, target, row);
    SaveQuestionStep(questions, quizId, spec, ids, target);
    ResolveStep(requested[..i], ids, prior, cat.nextQuestionId, entry.id, target);
    assert requested[..i + 1] == requested[..i] + [entry.id];
    ElemsAppend(ids, target);
    UnionStep(prior, Elems(ids), target);
    RowsBelowStep(questions, cat.quizzes, nextQ, nextQ', target, row, questions');
    IdsBelowStep(ids, ids', nextQ, nextQ', target);
    QuestionLoopIntro(cat, quizId, spec, questions', nextQ', ids');
  }

  /** The question loop state, assembled from its parts. */
  lemma QuestionLoopIntro(cat: Catalog, quizId: Id, spec: seq<QuestionSpec>,
                          questions: map<Id, QuestionRow>, nextQ: Id, ids: seq<Id>)
    requires |ids| <= |spec| && nextQ >= cat.nextQuestionId
    requires forall q :: q in questions ==> q < nextQ && questions[q].quizId in cat.quizzes
    requires QuestionsKeptOutside(cat.questions, questions, quizId)
    requires QuestionsOf(questions, quizId) == QuestionsOf(cat.questions, quizId) + Elems(ids)
    requires forall k :: 0 <= k < |ids| ==> ids[k] < nextQ
    requires IdsResolved(QuestionIdsRequested(spec)[..|ids|], ids, QuestionsOf(cat.questions, quizId), cat.nextQuestionId)
    requires SavedQuestionRows(questions, quizId, spec, ids)
    ensures QuestionLoop(cat, quizId, spec, questions, nextQ, ids)
  {
  }

  /** Union is associative (stated for the step that adds one saved id). */
  lemma UnionStep<T>(a: set<T>, b: set<T>, x: T)
    ensures (a + b) + {x} == a + (b + {x})
  {
  }

  /** A row stored under an id below the counter keeps every row below the counter. */
  lemma RowsBelowStep(questions: map<Id, QuestionRow>, quizzes: map<Id, QuizRow>, nextQ: Id, nextQ': Id,
                      target: Id, row: QuestionRow, questions': map<Id, QuestionRow>)
    requires forall q :: q in questions ==> q < nextQ && questions[q].quizId in quizzes
    requires questions' == questions[target := row]
    requires row.quizId in quizzes && target < nextQ' && nextQ <= nextQ'
    ensures forall q :: q in questions' ==> q < nextQ' && questions'[q].quizId in quizzes
  {
  }

  /** An id below the counter appended to ids below the counter. */
  lemma IdsBelowStep(ids: seq<Id>, ids': seq<Id>, nextQ: Id, nextQ': Id, target: Id)
    requires forall k :: 0 <= k < |ids| ==> ids[k] < nextQ
    requires ids' == ids + [target] && target < nextQ' && nextQ <= nextQ'
    ensures forall k :: 0 <= k < |ids'| ==> ids'[k] < nextQ'
  {
  }

  /** The question loop of `updateQuiz` on the authoring tables: each entry is saved to a question
      row, and that question's options are reconciled with the entry's options. */
  method UpsertQuestions(cat: Catalog, quizId: Id, spec: seq<QuestionSpec>)
    returns (cat': Catalog, ids: seq<Id>, optionIds: seq<seq<Id>>)
    requires ValidCatalog(cat) && quizId in cat.quizzes
    requires QuestionIdsBelow(spec, cat.nextQuestionId) && OptionIdsBelow(spec, cat.nextOptionId)
    ensures ValidCatalog(cat')
    ensures cat'.classes == cat.classes && cat'.quizzes == cat.quizzes && cat'.nextQuizId == cat.nextQuizId
    ensures cat'.nextQuestionId >= cat.nextQuestionId && cat'.nextOptionId >= cat.nextOptionId
    ensures QuestionsKeptOutside(cat.questions, cat'.questions, quizId)
    ensures QuestionsOf(cat'.questions, quizId) == QuestionsOf(cat.questions, quizId) + Elems(ids)
    ensures IdsResolved(QuestionIdsRequested(spec), ids, QuestionsOf(cat.questions, quizId), cat.nextQuestionId)
    ensures SavedQuestionRows(cat'.questions, quizId, spec, ids)
    ensures OptionsKeptOutside(cat.options, cat'.options, Elems(ids))
    ensures |optionIds| == |spec| && |ids| == |spec|
    ensures NoDuplicates(ids) ==>
              forall k :: 0 <= k < |spec| ==>
                OptionsReconciled(cat'.options, ids[k], spec[k].options, optionIds[k],
                                  OptionsOf(cat.options, ids[k]), cat.nextOptionId)
  {
    var questions: map<Id, QuestionRow>, options: map<Id, OptionRow>, nextQ: Id, nextO: Id :=
      cat.questions, cat.options, cat.nextQuestionId, cat.nextOptionId;
    ids, optionIds := [], [];
    UpsertLoopInit(cat, quizId, spec);
    var i := 0;
    while i < |spec|
      invariant 0 <= i <= |spec| && |ids| == i
      invariant QuestionLoop(cat, quizId, spec, questions, nextQ, ids)
      invariant OptionLoop(cat, spec, questions.Keys, options, nextO, ids, optionIds)
    {
      var target, entryOptionIds;
      questions, options, nextQ, nextO, target, entryOptionIds :=
        UpsertEntry(cat, quizId, spec, questions, options, nextQ, nextO, ids, optionIds);
      ids := ids + [target];
      optionIds := optionIds + [entryOptionIds];
      i := i + 1;
    }
    cat' := Catalog(cat.classes, cat.quizzes, questions, options, cat.nextQuizId, nextQ, nextO);
    UpsertLoopExit(cat, cat', quizId, spec, ids, optionIds);
  }

  /** Before the first entry nothing has been saved. */
  lemma UpsertLoopInit(cat: Catalog, quizId: Id, spec: seq<QuestionSpec>)
    requires ValidCatalog(cat) && quizId in cat.quizzes
    ensures QuestionLoop(cat, quizId, spec, cat.questions, cat.nextQuestionId, [])
    ensures OptionLoop(cat, spec, cat.questions.Keys, cat.options, cat.nextOptionId, [], [])
  {
    assert QuestionIdsRequested(spec)[..0] == [];
  }

  /** One pass of the question loop of `updateQuiz`: entry `|ids|` is saved to a question row and
      that question's options are reconciled with the entry's options. */
  method UpsertEntry(cat: Catalog, quizId: Id, spec: seq<QuestionSpec>,
                     questions: map<Id, QuestionRow>, options: map<Id, OptionRow>, nextQ: Id, nextO: Id,
                     ids: seq<Id>, optionIds: seq<seq<Id>>)
    returns (questions': map<Id, QuestionRow>, options': map<Id, OptionRow>, nextQ': Id, nextO': Id,
             target: Id, entryOptionIds: seq<Id>)
    requires quizId in cat.quizzes && |ids| < |spec|
    requires QuestionIdsBelow(spec, cat.nextQuestionId) && OptionIdsBelow(spec, cat.nextOptionId)
    requires QuestionLoop(cat, quizId, spec, questions, nextQ, ids)
    requires OptionLoop(cat, spec, questions.Keys, options, nextO, ids, optionIds)
    ensures QuestionLoop(cat, quizId, spec, questions', nextQ', ids + [target])
    ensures OptionLoop(cat, spec, questions'.Keys, options', nextO', ids + [target], optionIds + [entryOptionIds])
  {
    questions', nextQ', target := SaveQuestion(cat, quizId, spec, questions, nextQ, ids);
    OptionLoopWiden(cat, spec, questions.Keys, questions'.Keys, options, nextO, ids, optionIds);
    options', nextO', entryOptionIds := ReconcileOptions(options, nextO, questions'.Keys, target, spec[|ids|].options);
    OptionLoopStep(cat, spec, questions'.Keys, options, options', nextO, nextO', ids, optionIds, target, entryOptionIds);
  }

  /** After the last entry, the loop state is what `UpsertQuestions` promises. */
  lemma UpsertLoopExit(cat: Catalog, cat': Catalog, quizId: Id, spec: seq<QuestionSpec>, ids: seq<Id>, optionIds: seq<seq<Id>>)
    requires ValidCatalog(cat) && |ids| == |spec|
    requires QuestionLoop(cat, quizId, spec, cat'.questions, cat'.nextQuestionId, ids)
    requires OptionLoop(cat, spec, cat'.questions.Keys, cat'.options, cat'.nextOptionId, ids, optionIds)
    requires cat'.classes == cat.classes && cat'.quizzes == cat.quizzes && cat'.nextQuizId == cat.nextQuizId
    ensures ValidCatalog(cat')
    ensures IdsResolved(QuestionIdsRequested(spec), ids, QuestionsOf(cat.questions, quizId), cat.nextQuestionId)
  {
    assert QuestionIdsRequested(spec)[..|ids|] == QuestionIdsRequested(spec);
  }

  /** What reconciling a quiz's questions and options with a request does to the authoring tables:
      the quiz's questions are exactly the saved ones, each holding its last entry's text and
      position; no other quiz's questions and no option of an untouched question changes; and,
      when the saved question ids are distinct, each saved question's options are exactly the
      saved ones, each holding its last entry's fields. */
  ghost predicate Reconciled(cat: Catalog, cat': Catalog, quizId: Id, spec: seq<QuestionSpec>,
                             updatedQuestionIds: seq<Id>, updatedOptionIds: seq<seq<Id>>)
  {
    cat'.classes == cat.classes && cat'.quizzes == cat.quizzes && cat'.nextQuizId == cat.nextQuizId
    && cat'.nextQuestionId >= cat.nextQuestionId && cat'.nextOptionId >= cat.nextOptionId
    && QuestionsReconciled(cat'.questions, quizId, spec, updatedQuestionIds,
                           QuestionsOf(cat.questions, quizId), cat.nextQuestionId)
    && QuestionsKeptOutside(cat.questions, cat'.questions, quizId)
    && OptionsKeptOutside(cat.options, cat'.options, QuestionsOf(cat.questions, quizId) + Elems(updatedQuestionIds))
    && |updatedOptionIds| == |spec|
    && (NoDuplicates(updatedQuestionIds) ==>
          forall k :: 0 <= k < |spec| ==>
            OptionsReconciled(cat'.options, updatedQuestionIds[k], spec[k].options, updatedOptionIds[k],
                              OptionsOf(cat.options, updatedQuestionIds[k]), cat.nextOptionId))
  }

  /** The question loop of `updateQuiz` followed by the deletion of the quiz's questions the
      request no longer lists, whose options the foreign key deletes with them. */
  method ReconcileQuiz(cat: Catalog, quizId: Id, spec: seq<QuestionSpec>)
    returns (cat': Catalog, updatedQuestionIds: seq<Id>, updatedOptionIds: seq<seq<Id>>)
    requires ValidCatalog(cat) && quizId in cat.quizzes
    requires QuestionIdsBelow(spec, cat.nextQuestionId) && OptionIdsBelow(spec, cat.nextOptionId)
    ensures ValidCatalog(cat')
    ensures Reconciled(cat, cat', quizId, spec, updatedQuestionIds, updatedOptionIds)
  {
    var upserted;
    upserted, updatedQuestionIds, updatedOptionIds := UpsertQuestions(cat, quizId, spec);
    var keptQuestions := PruneQuestions(upserted.questions, quizId, updatedQuestionIds);
    var keptOptions := DropOrphanOptions(upserted.options, keptQuestions);
    ghost var deleted := QuestionsOf(upserted.questions, quizId) - Elems(updatedQuestionIds);
    PruneStep(upserted.options, keptOptions, upserted.questions, keptQuestions, quizId, updatedQuestionIds);
    cat' := upserted.(questions := keptQuestions, options := keptOptions);
    if NoDuplicates(updatedQuestionIds) {
      forall k | 0 <= k < |spec|
        ensures OptionsReconciled(keptOptions, updatedQuestionIds[k], spec[k].options, updatedOptionIds[k],
                                  OptionsOf(cat.options, updatedQuestionIds[k]), cat.nextOptionId)
      {
        ReconciledOptionsKept(upserted.options, keptOptions, deleted, updatedQuestionIds[k], spec[k].options,
                              updatedOptionIds[k], OptionsOf(cat.options, updatedQuestionIds[k]), cat.nextOptionId);
      }
    }
  }

  /** The final deletions of `updateQuiz` touch only the options of the questions they delete. */
  lemma PruneStep(options: map<Id, OptionRow>, keptOptions: map<Id, OptionRow>,
                  questions: map<Id, QuestionRow>, keptQuestions: map<Id, QuestionRow>, quizId: Id, keep: seq<Id>)
    requires forall o :: o in options ==> options[o].questionId in questions
    requires forall q :: q in keptQuestions <==> q in questions && (questions[q].quizId != quizId || q in keep)
    requires forall o :: o in keptOptions <==> o in options && options[o].questionId in keptQuestions
    requires forall o :: o in keptOptions ==> keptOptions[o] == options[o]
    ensures OptionsKeptOutside(options, keptOptions, QuestionsOf(questions, quizId) - Elems(keep))
  {
  }

  /** The ids `updateQuiz` accepts name existing rows, so they lie below the counters. */
  lemma RequestIdsBelow(cat: Catalog, req: QuizInput)
    requires ValidCatalog(cat) && ValidQuizFields(req, cat.classes) && ValidIds(req, cat.questions, cat.options)
    ensures QuestionIdsBelow(QuestionSpecs(req), cat.nextQuestionId)
    ensures OptionIdsBelow(QuestionSpecs(req), cat.nextOptionId)
  {
    var spec := QuestionSpecs(req);
    forall i, j | 0 <= i < |spec| && 0 <= j < |spec[i].options| && spec[i].options[j].id.Some?
      ensures spec[i].options[j].id.value < cat.nextOptionId
    {
      assert IdsExist(req.questions.value[i], cat.questions, cat.options);
      assert spec[i].options[j].id == req.questions.value[i].options.value[j].id;
    }
  }

  /** The option `create` loop of `createQuiz` for one new question: option `j` of the request
      becomes a new row with id `nextId + j` and position `j`. */
  method CreateOptions(options: map<Id, OptionRow>, nextId: Id, questionId: Id, spec: seq<OptionSpec>)
    returns (options': map<Id, OptionRow>, nextId': Id)
    requires forall o :: o in options ==> o < nextId
    ensures nextId' == nextId + |spec|
    ensures OptionsAdded(options, options', nextId, questionId, spec)
    ensures forall o :: o in options' && o !in options ==> options'[o].questionId == questionId
  {
    options', nextId' := options, nextId;
    var j := 0;
    while j < |spec|
      invariant 0 <= j <= |spec| && nextId' == nextId + j
      invariant forall o :: o in options' <==> o in options || nextId <= o < nextId'
      invariant forall o :: o in options ==> options'[o] == options[o]
      invariant forall k :: 0 <= k < j ==>
                  options'[nextId + k] == OptionRow(questionId, spec[k].text, spec[k].isCorrect, k)
      invariant forall o :: o in options' && o !in options ==> options'[o].questionId == questionId
    {
      options' := options'[nextId' := OptionRow(questionId, spec[j].text, spec[j].isCorrect, j)];
      nextId' := nextId' + 1;
      j := j + 1;
    }
  }

  /** The rows `after` adds to `before`: option `j` of `spec` under id `start + j`, as an option
      of `questionId` at position `j`; no other row changes. */
  ghost predicate OptionsAdded(before: map<Id, OptionRow>, after: map<Id, OptionRow>, start: Id,
                               questionId: Id, spec: seq<OptionSpec>)
  {
    (forall o :: o in after <==> o in before || start <= o < start + |spec|)
    && (forall o :: o in before ==> after[o] == before[o])
    && (forall j :: 0 <= j < |spec| ==>
          after[start + j] == OptionRow(questionId, spec[j].text, spec[j].isCorrect, j))
  }

  /** The question rows `createQuiz` adds for the first `n` questions of a request: question `i`
      gets id `firstId + i` and position `i`; no other row changes. */
  ghost predicate QuestionsCreated(before: map<Id, QuestionRow>, after: map<Id, QuestionRow>, firstId: Id,
                                  quizId: Id, spec: seq<QuestionSpec>, n: nat)
    requires n <= |spec|
  {
    (forall q :: q in after <==> q in before || firstId <= q < firstId + n)
    && (forall q :: q in before ==> after[q] == before[q])
    && (forall i :: 0 <= i < n ==> after[firstId + i] == QuestionRow(quizId, spec[i].text, i))
  }

  /** The option rows `createQuiz` adds for the first `n` questions of a request: option `j` of
      question `i` gets the id after the options of the questions before it, and position `j`; no
      other row changes. */
  ghost predicate OptionsCreated(before: map<Id, OptionRow>, after: map<Id, OptionRow>, firstQuestionId: Id,
                                 firstId: Id, spec: seq<QuestionSpec>, n: nat)
    requires n <= |spec|
  {
    (forall o :: o in after <==> o in before || firstId <= o < firstId + OptionOffset(spec, n))
    && (forall o :: o in before ==> after[o] == before[o])
    && (forall i, j :: 0 <= i < n && 0 <= j < |spec[i].options| ==> OptionCreatedAt(after, firstQuestionId, firstId, spec, i, j))
  }

  /** Option `j` of question `i` is stored under its id with its request fields. */
  ghost predicate OptionCreatedAt(after: map<Id, OptionRow>, firstQuestionId: Id, firstId: Id,
                                  spec: seq<QuestionSpec>, i: nat, j: nat)
    requires i < |spec| && j < |spec[i].options|
  {
    var o := firstId + OptionOffset(spec, i) + j;
    o in after && after[o] == OptionRow(firstQuestionId + i, spec[i].options[j].text, spec[i].options[j].isCorrect, j)
  }

  /** What `createQuiz` adds to the authoring tables for the first `n` questions of a request. */
  ghost predicate Created(cat: Catalog, cat': Catalog, quizId: Id, spec: seq<QuestionSpec>, n: nat)
    requires n <= |spec|
  {
    cat'.classes == cat.classes && cat'.quizzes == cat.quizzes && cat'.nextQuizId == cat.nextQuizId
    && cat'.nextQuestionId == cat.nextQuestionId + n
    && cat'.nextOptionId == cat.nextOptionId + OptionOffset(spec, n)
    && QuestionsCreated(cat.questions, cat'.questions, cat.nextQuestionId, quizId, spec, n)
    && OptionsCreated(cat.options, cat'.options, cat.nextQuestionId, cat.nextOptionId, spec, n)
  }

  /** The offsets of the questions' options grow with the question index. */
  lemma {:induction false} OffsetMonotone(spec: seq<QuestionSpec>, i: nat, k: nat)
    requires i < k <= |spec|
    ensures OptionOffset(spec, i) + |spec[i].options| <= OptionOffset(spec, k)
    decreases k
  {
    if i < k - 1 {
      OffsetMonotone(spec, i, k - 1);
    }
  }

  /** The state of the question loop of `createQuiz` after `i` questions. */
  ghost predicate CreateLoop(cat: Catalog, quizId: Id, spec: seq<QuestionSpec>, i: nat,
                             questions: map<Id, QuestionRow>, options: map<Id, OptionRow>, nextQ: Id, nextO: Id)
  {
    i <= |spec|
    && nextQ == cat.nextQuestionId + i && nextO == cat.nextOptionId + OptionOffset(spec, i)
    && ValidCatalog(Catalog(cat.classes, cat.quizzes, questions, options, cat.nextQuizId, nextQ, nextO))
    && QuestionsCreated(cat.questions, questions, cat.nextQuestionId, quizId, spec, i)
    && OptionsCreated(cat.options, options, cat.nextQuestionId, cat.nextOptionId, spec, i)
  }

  /** The question `create` loop of `createQuiz`, each new question followed by its options. */
  method CreateQuestions(cat: Catalog, quizId: Id, spec: seq<QuestionSpec>) returns (cat': Catalog)
    requires ValidCatalog(cat) && quizId in cat.quizzes
    ensures ValidCatalog(cat')
    ensures Created(cat, cat', quizId, spec, |spec|)
  {
    var questions, options, nextQ, nextO := cat.questions, cat.options, cat.nextQuestionId, cat.nextOptionId;
    var i := 0;
    CreateLoopInit(cat, quizId, spec);
    while i < |spec|
      invariant 0 <= i <= |spec|
      invariant CreateLoop(cat, quizId, spec, i, questions, options, nextQ, nextO)
    {
      questions, options, nextQ, nextO := CreateQuestion(cat, quizId, spec, i, questions, options, nextQ, nextO);
      i := i + 1;
    }
    cat' := Catalog(cat.classes, cat.quizzes, questions, options, cat.nextQuizId, nextQ, nextO);
  }

  /** Before the first question nothing has been created. */
  lemma CreateLoopInit(cat: Catalog, quizId: Id, spec: seq<QuestionSpec>)
    requires ValidCatalog(cat)
    ensures CreateLoop(cat, quizId, spec, 0, cat.questions, cat.options, cat.nextQuestionId, cat.nextOptionId)
  {
    assert Catalog(cat.classes, cat.quizzes, cat.questions, cat.options, cat.nextQuizId, cat.nextQuestionId, cat.nextOptionId) == cat;
  }

  /** One `Question::create` of `createQuiz`, followed by the creation of its options. */
  method CreateQuestion(cat: Catalog, quizId: Id, spec: seq<QuestionSpec>, i: nat,
                        questions: map<Id, QuestionRow>, options: map<Id, OptionRow>, nextQ: Id, nextO: Id)
    returns (questions': map<Id, QuestionRow>, options': map<Id, OptionRow>, nextQ': Id, nextO': Id)
    requires ValidCatalog(cat) && quizId in cat.quizzes
    requires i < |spec| && CreateLoop(cat, quizId, spec, i, questions, options, nextQ, nextO)
    ensures CreateLoop(cat, quizId, spec, i + 1, questions', options', nextQ', nextO')
  {
    var row := QuestionRow(quizId, spec[i].text, i);
    assert forall o :: o in options ==> o < nextO;
    options', nextO' := CreateOptions(options, nextO, nextQ, spec[i].options);
    CreateLoopStep(cat, quizId, spec, i, questions, options, nextQ, nextO, options', nextO');
    questions', nextQ' := questions[nextQ := row], nextQ + 1;
  }

  /** Creating question `i` and its options advances the loop state by one question. */
  lemma CreateLoopStep(cat: Catalog, quizId: Id, spec: seq<QuestionSpec>, i: nat,
                       questions: map<Id, QuestionRow>, options: map<Id, OptionRow>, nextQ: Id, nextO: Id,
                       options': map<Id, OptionRow>, nextO': Id)
    requires ValidCatalog(cat) && quizId in cat.quizzes
    requires i < |spec| && CreateLoop(cat, quizId, spec, i, questions, options, nextQ, nextO)
    requires nextO' == nextO + |spec[i].options| && OptionsAdded(options, options', nextO, nextQ, spec[i].options)
    requires forall o :: o in options' && o !in options ==> options'[o].questionId == nextQ
    ensures CreateLoop(cat, quizId, spec, i + 1, questions[nextQ := QuestionRow(quizId, spec[i].text, i)],
                       options', nextQ + 1, nextO')
  {
    var row := QuestionRow(quizId, spec[i].text, i);
    var c := Catalog(cat.classes, cat.quizzes, questions, options, cat.nextQuizId, nextQ, nextO);
    assert OptionOffset(spec, i + 1) == OptionOffset(spec, i) + |spec[i].options|;
    QuestionsCreatedStep(cat.questions, questions, cat.nextQuestionId, quizId, spec, i, nextQ);
    OptionsCreatedStep(cat.options, options, options', cat.nextQuestionId, cat.nextOptionId, spec, i, nextO, nextQ);
    CreateValidStep(c, row, options', nextO');
  }

  /** Adding question `i` extends `QuestionsCreated` by that question. */
  lemma QuestionsCreatedStep(before: map<Id, QuestionRow>, current: map<Id, QuestionRow>, firstId: Id,
                             quizId: Id, spec: seq<QuestionSpec>, i: nat, id: Id)
    requires i < |spec| && QuestionsCreated(before, current, firstId, quizId, spec, i) && id == firstId + i
    requires forall q :: q in before ==> q < firstId
    ensures QuestionsCreated(before, current[id := QuestionRow(quizId, spec[i].text, i)], firstId, quizId, spec, i + 1)
  {
  }

  /** Adding the options of question `i` extends `OptionsCreated` by them. */
  lemma OptionsCreatedStep(before: map<Id, OptionRow>, current: map<Id, OptionRow>, after: map<Id, OptionRow>,
                           firstQuestionId: Id, firstId: Id, spec: seq<QuestionSpec>, i: nat, start: Id, questionId: Id)
    requires i < |spec| && OptionsCreated(before, current, firstQuestionId, firstId, spec, i)
    requires forall o :: o in before ==> o < firstId
    requires start == firstId + OptionOffset(spec, i) && questionId == firstQuestionId + i
    requires OptionsAdded(current, after, start, questionId, spec[i].options)
    ensures OptionsCreated(before, after, firstQuestionId, firstId, spec, i + 1)
  {
    assert OptionOffset(spec, i + 1) == OptionOffset(spec, i) + |spec[i].options|;
    forall k, j | 0 <= k < i + 1 && 0 <= j < |spec[k].options|
      ensures OptionCreatedAt(after, firstQuestionId, firstId, spec, k, j)
    {
      var o := firstId + OptionOffset(spec, k) + j;
      if k < i {
        OffsetMonotone(spec, k, i);
        assert OptionCreatedAt(current, firstQuestionId, firstId, spec, k, j);
      } else {
        assert o == firstId + OptionOffset(spec, i) + j;
      }
    }
  }

  /** Adding a question of an existing quiz under the next id, with options of that question under
      new ids, keeps the catalog valid. */
  lemma CreateValidStep(c: Catalog, row: QuestionRow, options': map<Id, OptionRow>, nextO': Id)
    requires ValidCatalog(c) && row.quizId in c.quizzes && nextO' >= c.nextOptionId
    requires forall o :: o in options' <==> o in c.options || c.nextOptionId <= o < nextO'
    requires forall o :: o in c.options ==> options'[o] == c.options[o]
    requires forall o :: o in options' && o !in c.options ==> options'[o].questionId == c.nextQuestionId
    ensures ValidCatalog(Catalog(c.classes, c.quizzes, c.questions[c.nextQuestionId := row], options', c.nextQuizId,
                                 c.nextQuestionId + 1, nextO'))
  {
  }

  /** The ids `first`, `first + 1`, ..., `first + n - 1`. */
  function Consecutive(first: Id, n: nat): (r: seq<Id>)
    ensures |r| == n && forall k :: 0 <= k < n ==> r[k] == first + k
  {
    seq(n, k requires 0 <= k < n => first + k)
  }

  /** Every position below the total option count belongs to one question's options. */
  lemma {:induction false} OffsetLocate(spec: seq<QuestionSpec>, n: nat, x: nat) returns (i: nat, j: nat)
    requires n <= |spec| && x < OptionOffset(spec, n)
    ensures i < n && j < |spec[i].options| && x == OptionOffset(spec, i) + j
  {
    if x < OptionOffset(spec, n - 1) {
      i, j := OffsetLocate(spec, n - 1, x);
    } else {
      i, j := n - 1, x - OptionOffset(spec, n - 1);
    }
  }

  /** Distinct questions' options occupy distinct positions. */
  lemma OffsetInjective(spec: seq<QuestionSpec>, i: nat, j: nat, i': nat, j': nat)
    requires i < |spec| && j < |spec[i].options| && i' < |spec| && j' < |spec[i'].options|
    requires OptionOffset(spec, i) + j == OptionOffset(spec, i') + j'
    ensures i == i' && j == j'
  {
    if i < i' {
      OffsetMonotone(spec, i, i');
    } else if i' < i {
      OffsetMonotone(spec, i', i);
    }
  }

  /** Creating a quiz saves the same rows as reconciling a quiz without questions with the same
      request: every question and option gets a new id, and each question's options are exactly
      its new option rows. */
  lemma CreateIsReconcileOfEmptyQuiz(cat: Catalog, cat': Catalog, quizId: Id, spec: seq<QuestionSpec>)
    requires ValidCatalog(cat) && QuestionsOf(cat.questions, quizId) == {}
    requires Created(cat, cat', quizId, spec, |spec|)
    ensures QuestionsReconciled(cat'.questions, quizId, spec, Consecutive(cat.nextQuestionId, |spec|), {}, cat.nextQuestionId)
    ensures AllOptionsReconciled(cat'.options, cat.nextQuestionId, cat.nextOptionId, spec)
  {
    CreatedQuestionsOf(cat.questions, cat'.questions, cat.nextQuestionId, quizId, spec);
    assert forall o :: o in cat.options ==> cat.options[o].questionId < cat.nextQuestionId;
    CreatedAllOptionsOf(cat.options, cat'.options, cat.nextQuestionId, cat.nextOptionId, spec);
  }

  /** The options of each question `i` created from `spec` are exactly the new rows made from its
      request options, numbered after the options of the questions before it. */
  predicate AllOptionsReconciled(options: map<Id, OptionRow>, firstQuestionId: Id, firstId: Id, spec: seq<QuestionSpec>) {
    forall i: nat :: i < |spec| ==>
      OptionsReconciled(options, firstQuestionId + i, spec[i].options,
                        Consecutive(firstId + OptionOffset(spec, i), |spec[i].options|), {}, firstId)
  }

  /** `CreatedOptionsOf` for every question of the request. */
  lemma CreatedAllOptionsOf(before: map<Id, OptionRow>, after: map<Id, OptionRow>, firstQuestionId: Id, firstId: Id,
                            spec: seq<QuestionSpec>)
    requires OptionsCreated(before, after, firstQuestionId, firstId, spec, |spec|)
    requires forall o :: o in before ==> before[o].questionId < firstQuestionId
    ensures AllOptionsReconciled(after, firstQuestionId, firstId, spec)
  {
    forall i: nat | i < |spec| {
      CreatedOptionsOf(before, after, firstQuestionId, firstId, spec, i);
    }
  }

  /** After creating a quiz that had no questions, its questions are exactly the new rows. */
  lemma CreatedQuestionsOf(before: map<Id, QuestionRow>, after: map<Id, QuestionRow>, firstId: Id,
                           quizId: Id, spec: seq<QuestionSpec>)
    requires QuestionsCreated(before, after, firstId, quizId, spec, |spec|) && QuestionsOf(before, quizId) == {}
    ensures QuestionsReconciled(after, quizId, spec, Consecutive(firstId, |spec|), {}, firstId)
  {
    var ids := Consecutive(firstId, |spec|);
    assert QuestionsOf(after, quizId) == Elems(ids) by {
      forall q | q in after && after[q].quizId == quizId
        ensures q in Elems(ids)
      {
        assert q in before ==> q in QuestionsOf(before, quizId);
        assert ids[q - firstId] == q;
      }
      forall k | 0 <= k < |ids|
        ensures ids[k] in QuestionsOf(after, quizId)
      {
        assert after[firstId + k] == QuestionRow(quizId, spec[k].text, k);
      }
    }
  }

  /** After creating a quiz, the options of its question `i` are exactly the new rows made from
      that question's request options. */
  lemma CreatedOptionsOf(before: map<Id, OptionRow>, after: map<Id, OptionRow>, firstQuestionId: Id, firstId: Id,
                         spec: seq<QuestionSpec>, i: nat)
    requires i < |spec| && OptionsCreated(before, after, firstQuestionId, firstId, spec, |spec|)
    requires forall o :: o in before ==> before[o].questionId < firstQuestionId
    ensures OptionsReconciled(after, firstQuestionId + i, spec[i].options,
                              Consecutive(firstId + OptionOffset(spec, i), |spec[i].options|), {}, firstId)
  {
    var qid := firstQuestionId + i;
    var ids := Consecutive(firstId + OptionOffset(spec, i), |spec[i].options|);
    forall j | 0 <= j < |spec[i].options|
      ensures ids[j] in after && after[ids[j]] == OptionRow(qid, spec[i].options[j].text, spec[i].options[j].isCorrect, j)
    {
      assert OptionCreatedAt(after, firstQuestionId, firstId, spec, i, j);
    }
    CreatedOptionsAreNew(before, after, firstQuestionId, firstId, spec, i);
  }

  /** The only options of a created question are the ones made from its request options. */
  lemma CreatedOptionsAreNew(before: map<Id, OptionRow>, after: map<Id, OptionRow>, firstQuestionId: Id, firstId: Id,
                             spec: seq<QuestionSpec>, i: nat)
    requires i < |spec| && OptionsCreated(before, after, firstQuestionId, firstId, spec, |spec|)
    requires forall o :: o in before ==> before[o].questionId < firstQuestionId
    ensures OptionsOf(after, firstQuestionId + i) <= Elems(Consecutive(firstId + OptionOffset(spec, i), |spec[i].options|))
  {
    var ids := Consecutive(firstId + OptionOffset(spec, i), |spec[i].options|);
    forall o | o in after && after[o].questionId == firstQuestionId + i
      ensures o in Elems(ids)
    {
      assert o !in before;
      assert firstId <= o < firstId + OptionOffset(spec, |spec|);
      CreatedOptionPosition(after, firstQuestionId, firstId, spec, i, o);
      assert ids[o - firstId - OptionOffset(spec, i)] == o;
    }
  }

  /** A new option row of question `i` sits among the positions of that question's options. */
  lemma CreatedOptionPosition(after: map<Id, OptionRow>, firstQuestionId: Id, firstId: Id, spec: seq<QuestionSpec>,
                              i: nat, o: Id)
    requires i < |spec| && firstId <= o < firstId + OptionOffset(spec, |spec|)
    requires forall k, j :: 0 <= k < |spec| && 0 <= j < |spec[k].options| ==>
               OptionCreatedAt(after, firstQuestionId, firstId, spec, k, j)
    requires o in after && after[o].questionId == firstQuestionId + i
    ensures OptionOffset(spec, i) <= o - firstId < OptionOffset(spec, i) + |spec[i].options|
  {
    var k, j := OffsetLocate(spec, |spec|, o - firstId);
    OptionOwner(after, firstQuestionId, firstId, spec, k, j);
  }

  /** The option stored at a created position belongs to the question of that position. */
  lemma OptionOwner(after: map<Id, OptionRow>, firstQuestionId: Id, firstId: Id, spec: seq<QuestionSpec>,
                    i: nat, j: nat)
    requires i < |spec| && j < |spec[i].options|
    requires OptionCreatedAt(after, firstQuestionId, firstId, spec, i, j)
    ensures after[firstId + OptionOffset(spec, i) + j].questionId == firstQuestionId + i
  {
  }

  /** Replaces the authoring tables with `cat`. */
  method SetAuthoring(db: Database, cat: Catalog)
    modifies db
    ensures db.Authoring() == cat && db.AttemptState() == old(db.AttemptState())
  {
    db.classes, db.quizzes, db.questions, db.options := cat.classes, cat.quizzes, cat.questions, cat.options;
    db.nextQuizId, db.nextQuestionId, db.nextOptionId := cat.nextQuizId, cat.nextQuestionId, cat.nextOptionId;
  }

  /** `createQuiz`: after the role check, validation and the class-ownership check, the quiz row,
      its class links and its questions and options are written in one transaction. The id of the
      new quiz is the next value of the quizzes counter. */
  method CreateQuiz(db: Database, user: User, req: QuizInput, fault: bool) returns (r: AuthoringResult)
    requires db.Valid()
    modifies db
    ensures db.Valid()
    ensures r == CreateOutcome(old(db.Authoring()), user, req, fault)
    ensures r.AuthoringRefused? ==> db.Authoring() == old(db.Authoring())
    ensures r.Saved? ==>
              ValidQuizFields(req, old(db.classes)) && r.quizId !in old(db.quizzes)
              && Created(old(db.Authoring()).(quizzes := old(db.quizzes)[r.quizId := QuizRowOf(req, user.id)],
                                              nextQuizId := r.quizId + 1),
                         db.Authoring(), r.quizId, QuestionSpecs(req), |QuestionSpecs(req)|)
    ensures db.AttemptState() == old(db.AttemptState())
  {
    var cat := db.Authoring();
    if user.role != Teacher {
      return AuthoringRefused(Unauthorized);
    }
    if !ValidQuizFields(req, cat.classes) {
      return AuthoringRefused(ValidationFailed);
    }
    if !OwnsClasses(req.classIds.value, cat.classes, user.id) {
      return AuthoringRefused(ClassNotOwned);
    }
    if fault || !NoDuplicates(req.classIds.value) {
      return AuthoringRefused(ServerError);
    }
    var quizId := cat.nextQuizId;
    var withQuiz := cat.(quizzes := cat.quizzes[quizId := QuizRowOf(req, user.id)], nextQuizId := quizId + 1);
    var cat' := CreateQuestions(withQuiz, quizId, QuestionSpecs(req));
    SetAuthoring(db, cat');
    r := Saved(quizId);
  }

  /** `updateQuiz`: after the role check, the ownership lookup of the quiz, validation and the
      class-ownership check, the quiz row is updated, its class links are replaced, and its
      questions and options are reconciled with the request in one transaction. */
  method UpdateQuiz(db: Database, user: User, quizId: Id, req: QuizInput, fault: bool)
    returns (r: AuthoringResult, updatedQuestionIds: seq<Id>, updatedOptionIds: seq<seq<Id>>)
    requires db.Valid()
    modifies db
    ensures db.Valid()
    ensures r == UpdateOutcome(old(db.Authoring()), user, quizId, req, fault)
    ensures r.AuthoringRefused? ==> db.Authoring() == old(db.Authoring())
    ensures r.Saved? ==>
              ValidQuizFields(req, old(db.classes))
              && Reconciled(old(db.Authoring()).(quizzes := old(db.quizzes)[quizId := QuizRowOf(req, user.id)]),
                            db.Authoring(), quizId, QuestionSpecs(req), updatedQuestionIds, updatedOptionIds)
    ensures db.AttemptState() == old(db.AttemptState())
  {
    var cat := db.Authoring();
    updatedQuestionIds, updatedOptionIds := [], [];
    if user.role != Teacher {
      return AuthoringRefused(Unauthorized), [], [];
    }
    if quizId !in cat.quizzes || cat.quizzes[quizId].createdBy != user.id {
      return AuthoringRefused(NotFound), [], [];
    }
    if !ValidQuizFields(req, cat.classes) || !ValidIds(req, cat.questions, cat.options) {
      return AuthoringRefused(ValidationFailed), [], [];
    }
    if !OwnsClasses(req.classIds.value, cat.classes, user.id) {
      return AuthoringRefused(ClassNotOwned), [], [];
    }
    if fault {
      return AuthoringRefused(ServerError), [], [];
    }
    RequestIdsBelow(cat, req);
    var withQuiz := cat.(quizzes := cat.quizzes[quizId := QuizRowOf(req, user.id)]);
    var cat';
    cat', updatedQuestionIds, updatedOptionIds := ReconcileQuiz(withQuiz, quizId, QuestionSpecs(req));
    SetAuthoring(db, cat');
    r := Saved(quizId);
  }

  /** The response of `getSubmission`. */
  datatype SubmissionView = Found(submission: Submission) | ViewRefused(failure: AuthoringFailure)

  /** `getSubmission`: a teacher sees a submission, looked up by its row id, only when they created
      its quiz. A submission whose quiz row is missing makes the ownership check read a property of
      null, which is a server error. */
  function GetSubmission(cat: Catalog, submissions: map<SubmissionKey, Submission>, user: User, submissionId: Id): (r: SubmissionView)
    requires SubmissionsTable(submissions)
    ensures r.Found? <==>
              user.role == Teacher
              && exists k :: k in submissions && submissions[k].id == submissionId
                             && submissions[k].quizId in cat.quizzes
                             && cat.quizzes[submissions[k].quizId].createdBy == user.id
    ensures r.Found? ==> r.submission in submissions.Values && r.submission.id == submissionId
    ensures r == ViewRefused(NotFound) <==>
              user.role == Teacher && forall k :: k in submissions ==> submissions[k].id != submissionId
    ensures user.role != Teacher ==> r == ViewRefused(Unauthorized)
    ensures user.role == Teacher
            && (exists k :: k in submissions && submissions[k].id == submissionId
                            && submissions[k].quizId in cat.quizzes
                            && cat.quizzes[submissions[k].quizId].createdBy != user.id)
            ==> r == ViewRefused(Unauthorized)
  {
    if user.role != Teacher then ViewRefused(Unauthorized)
    else if forall k :: k in submissions ==> submissions[k].id != submissionId then ViewRefused(NotFound)
    else
      var k :| k in submissions && submissions[k].id == submissionId;
      var s := submissions[k];
      if s.quizId !in cat.quizzes then ViewRefused(ServerError)
      else if cat.quizzes[s.quizId].createdBy != user.id then ViewRefused(Unauthorized)
      else Found(s)
  }
}
