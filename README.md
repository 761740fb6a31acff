# Quiz platform — a Dafny model of its core

The system is a quiz platform for a school. Teachers own classes, write timed multiple-choice
quizzes, assign them to classes, and look at their students' results. Students start an assigned
quiz inside its opening window, answer it, and submit it once. The backend is a Laravel
application and the frontend is a React application. This project models both sides of the
core.

**Backend**
- The submissions store: one attempt per (quiz, student), with the `isSubmitted` and
  `isExpired` predicates and the table's constraints. See `schema.dfy` and `store.dfy`.
- The student endpoints, in `student_controller.dfy`:
  - the quiz list and its status labels;
  - `startQuiz`;
  - `submitQuiz`, which replaces the answers and scores them with the controller's own test
    (`scoring.dfy`). A question counts when the number of selected rows equals the number of
    correct options and every selected row is correct. The exact-set test that the controller's
    comments describe (`StudentController.php:221-230`) is kept alongside; the two agree
    whenever no option is selected twice.
- The teacher endpoints, in `teacher_requests.dfy` and `teacher_controller.dfy`:
  - request validation and the class-ownership check;
  - `createQuiz`'s ordered creation of questions and options;
  - `updateQuiz`'s reconciliation of questions and options with the request;
  - the ownership guard of `getSubmission`.
- The CORS middleware, in `cors.dfy`.

**Frontend**
- JavaScript's `||`, `??`, `String(id)` and `find` as used on the client
  (`front.dfy`).
- The quiz context, in `quiz_context.dfy`: the mapping of server records and the attempt list.
- The quiz-taking screen, in `quiz_taking.dfy`: legacy scoring, navigation, the countdown and
  `formatTime`.
- The create and edit forms. Their shared validation and request body are in `quiz_form.dfy`.
  The forms themselves are in `create_quiz_form.dfy` and `edit_quiz_form.dfy`.
- The results screen, in `quiz_results.dfy`.
- The student roster, in `student_list.dfy`.
- The PDF reports, in `pdf_export.dfy`.

**How the model is built**
- The database is one object, `Store.Database`. Its tables are maps keyed by primary key. The
  submissions table is keyed by the (quiz_id, student_id) pair its unique index declares.
- Controller actions are methods on the database.
  - Each method is proved equal to a pure function of the old tables; for example `Start` and
    `Submit` give the response and the new tables.
  - Each transaction is all-or-nothing.
  - `fault` stands for a database exception inside the transaction, which the code rolls back
    and answers with 500.
- Time is an integer number of seconds, and the current time is a parameter.
- Scores are exact integers counted in hundredths. PHP's `round(x, 2)` and JavaScript's
  `Math.round` are both modelled as exact half-up rounding (`Common.RoundDiv`).
- Form and screen state that the source updates through setters becomes classes with those
  fields:
  - `CreateQuiz.CreateQuizForm`, `EditQuiz.EditQuizForm`, `StudentList.StudentForm`;
  - `QuizTaking.QuizSession`, `QuizContext.AttemptLog`.
- The source's loops are methods with loop invariants. Examples are the scoring loop, the
  answer insertion, the create and reconcile loops, the validation loop, and the report's row
  loops.

The model follows the code:
- `submitQuiz` stores the percentage of correct questions, rounded to two decimals, and decides
  each question with the count test.
- `required|array` refuses an empty `answers` list with 422.
- An answer whose option belongs to another question is stored. It only fails to match.
- Expiry is not checked on submit: the check is commented out
  (`StudentController.php:180-184`), so a late submission is accepted.

## Model

| member | source | states |
|---|---|---|
| `Schema.AtMostOnePerPair` | backend/database/migrations/2024_01_01_000005_create_submissions_table.php:25 | two stored submissions with the same quiz and student are the same row |
| `Schema.SubmittedByTime` | backend/app/Models/Submission.php:65-68 | `isSubmitted` holds exactly once a submission time is recorded, whatever the score |
| `Schema.ExpiryBoundary` | backend/app/Models/Submission.php:57-60 | `isExpired` is strict: at `expires_at` itself the attempt is not expired, one second later it is, and it stays expired |
| `Schema.DeleteQuizCascade` | backend/database/migrations/2024_01_01_000005_create_submissions_table.php:16 | deleting a quiz removes exactly its submissions, keeps every other row unchanged, and keeps the table's constraints |
| `Schema.DeleteStudentCascade` | backend/database/migrations/2024_01_01_000005_create_submissions_table.php:17 | deleting a student removes exactly their submissions and keeps the table's constraints |
| `Store.Database.constructor` | backend/database/migrations/2024_01_01_000005_create_submissions_table.php:14-26 | an empty database is valid: no quiz, no submission, every counter at 1 |
| `Scoring.DuplicateAnswerAccepted` | backend/app/Http/Controllers/StudentController.php:222-235 | the written test accepts the selection [1, 1] against the correct set {1, 2}, which is not an exact match |
| `Scoring.DuplicateAnswerRejected` | backend/app/Http/Controllers/StudentController.php:231-233 | the written test refuses [1, 2, 2] against {1, 2}, although the selected set is exact |
| `Scoring.MatchesAsWrittenWhenDistinct` | backend/app/Http/Controllers/StudentController.php:221-235 | without repeated options, the written test holds exactly when the selected set equals the correct set and is non-empty |
| `Scoring.MatchesAsWritten` | backend/app/Http/Controllers/StudentController.php:221-235 | the controller's test passes only with a non-empty correct set, as many selected rows as correct options, and every selected option correct |
| `Scoring.ScoreWhenDistinct` | backend/app/Http/Controllers/StudentController.php:208-243 | when no question's selection repeats an option, the controller's score equals the exact-set score |
| `Scoring.RepeatedAnswerScoresFull` | backend/app/Http/Controllers/StudentController.php:221-235 | on a one-question quiz with correct options {1, 2}, the answers 1, 1 score 100.00 as written and 0 by exact set match |
| `Scoring.RepeatedCorrectAnswerScoresZero` | backend/app/Http/Controllers/StudentController.php:221-235 | on the same quiz, the answers 1, 2, 2 score 0 as written and 100.00 by exact set match |
| `Scoring.Percentage` | backend/app/Http/Controllers/StudentController.php:243 | the score lies in 0..100.00; it is 0 with no correct question and 100.00 with all of them; it is 100·correct/total rounded half-up to two decimals |
| `Scoring.PercentageMonotone` | backend/app/Http/Controllers/StudentController.php:243 | more correct questions never give a lower percentage |
| `Scoring.Score` | backend/app/Http/Controllers/StudentController.php:208-243 | under either test (the controller's count test or the exact-set test), the score is 0 when no question passes, 100.00 when every question of a non-empty quiz passes, and always within 0..100.00 |
| `Scoring.ScoreFitsColumn` | backend/database/migrations/2024_01_01_000005_create_submissions_table.php:21 | every score fits the `decimal(5,2)` column |
| `Scoring.ForeignAnswersIgnored` | backend/app/Http/Controllers/StudentController.php:211-219 | answer rows naming questions outside the quiz, or rows of other submissions, never change the score |
| `Scoring.ScoreDependsOnSelection` | backend/app/Http/Controllers/StudentController.php:216-219 | the score depends on the answer rows only through each question's selected option list |
| `Scoring.MoreCorrectNeverLower` | backend/app/Http/Controllers/StudentController.php:231-243 | answering one more question exactly, without changing the others, never lowers the score |
| `Scoring.CountCorrectAnswers` | backend/app/Http/Controllers/StudentController.php:208-241 | the loop's three counts (selected rows, correct selected rows, wrong selected rows) count exactly the questions that pass the controller's test |
| `StudentController.StatusOf` | backend/app/Http/Controllers/StudentController.php:44-62 | the status is completed iff the attempt is submitted, in progress iff it exists unsubmitted, and late or pending, by `close_at`, when there is none |
| `StudentController.ListQuizzes` | backend/app/Http/Controllers/StudentController.php:21-78 | non-students get 403; a student without a class gets an empty list; otherwise exactly the assigned quizzes whose `open_at` has passed are listed, each with its status |
| `StudentController.Start` | backend/app/Http/Controllers/StudentController.php:84-153 | an attempt is created exactly for a student, an existing quiz assigned to their class, inside its window, with no attempt stored yet; every other outcome leaves the table as it was; the refusals, in order, are 403 for a non-student, 404 for a quiz not assigned, 400 outside the window, then an existing attempt is refused as already submitted (400) or returned |
| `StudentController.StartWindow` | backend/app/Http/Controllers/StudentController.php:100-102 | start is refused as not available exactly when now is before `open_at` or after `close_at`; both ends are inclusive |
| `StudentController.StartExisting` | backend/app/Http/Controllers/StudentController.php:109-126 | with an attempt stored, start refuses a submitted one and returns an unsubmitted one unchanged; no row is added |
| `StudentController.StartCreates` | backend/app/Http/Controllers/StudentController.php:128-137 | a created attempt starts now, expires `duration_minutes` later, has no submission time or score, and is the only new row |
| `StudentController.StartPreservesValid` | backend/app/Http/Controllers/StudentController.php:84-153 | starting keeps one row per (quiz, student), distinct ids, and a score exactly on submitted rows |
| `StudentController.StartTwice` | backend/app/Http/Controllers/StudentController.php:109-126 | a second start inside the window returns the same row and changes nothing |
| `StudentController.AnswerRules` | backend/app/Http/Controllers/StudentController.php:186-190 | a missing or empty `answers` list is refused, one entry naming a missing question or option refuses the request, and a single entry passes exactly when its question and option exist, even when the option is another question's |
| `StudentController.AnswerRows` | backend/app/Http/Controllers/StudentController.php:199-205 | one answer row per request entry, in request order, carrying the entry's question and option |
| `StudentController.Submit` | backend/app/Http/Controllers/StudentController.php:159-263 | a submission is accepted exactly for a student, an assigned quiz, a stored unsubmitted attempt, answers passing the rules, and no database fault; a refusal leaves the table as it was; the refusals, in order, are 403 for a non-student, 404 for a quiz not assigned, 404 without a started attempt, 400 when already submitted, 422 for answers failing the rules, and 500 on a fault |
| `StudentController.SubmitScoreWhenDistinct` | backend/app/Http/Controllers/StudentController.php:196-243 | when the request lists no answer twice, the stored score equals the exact-set score of the submitted rows |
| `StudentController.SubmitRefusedChangesNothing` | backend/app/Http/Controllers/StudentController.php:259-262 | a refused submission leaves the tables as they were |
| `StudentController.SubmitReplacesAnswers` | backend/app/Http/Controllers/StudentController.php:196-249 | after a submission, the attempt's answers are exactly the submitted list and other attempts' answers are unchanged; it is marked submitted now, its score is the controller's count-test score of that list, and the score lies in 0..100.00 |
| `StudentController.ReplaceAnswers` | backend/app/Http/Controllers/StudentController.php:196-205 | deleting a submission's rows and appending new ones leaves exactly the new rows for it and every other submission's rows untouched |
| `StudentController.SubmitAtMostOnce` | backend/app/Http/Controllers/StudentController.php:177-179 | once a submission is accepted, every later one is refused as already submitted and changes nothing |
| `StudentController.SubmitAfterExpiry` | backend/app/Http/Controllers/StudentController.php:181-185 | an unsubmitted attempt past `expires_at` with valid answers is accepted |
| `StudentController.SubmitPreservesValid` | backend/app/Http/Controllers/StudentController.php:159-263 | submitting keeps the submissions table's constraints |
| `StudentController.StatusFollowsLifecycle` | backend/app/Http/Controllers/StudentController.php:44-62 | after a start the quiz is listed in progress; after an accepted submission it is listed completed |
| `StudentController.ListedStatusPredictsStart` | backend/app/Http/Controllers/StudentController.php:44-62 | a pending quiz starts, a late one is refused as not available, and inside the window an in-progress one resumes and a completed one is refused as already submitted |
| `StudentController.StartQuiz` | backend/app/Http/Controllers/StudentController.php:84-153 | the database method gives the response and new tables of `Start`, keeps the database valid, and leaves the quiz tables alone |
| `StudentController.SubmitQuiz` | backend/app/Http/Controllers/StudentController.php:159-263 | the database method gives the response and new tables of `Submit`, with the count-test score, keeps the database valid, and leaves the quiz tables alone |
| `StudentController.SaveSubmission` | backend/app/Http/Controllers/StudentController.php:193-249 | the transaction replaces the attempt's answers with the new rows and stores the submission time and the count-test score of those rows |
| `StudentController.InsertAnswers` | backend/app/Http/Controllers/StudentController.php:199-205 | the insertion loop appends exactly `AnswerRows` of the entries and changes nothing else |
| `TeacherRequests.NotOwned` | backend/app/Http/Controllers/TeacherController.php:138-139 | `array_diff` keeps exactly the requested class ids the teacher does not own |
| `TeacherRequests.OwnershipCheck` | backend/app/Http/Controllers/TeacherController.php:137-142 | the check passes exactly when every requested class exists and belongs to the teacher |
| `TeacherRequests.OptionRules` | backend/app/Http/Controllers/TeacherController.php:133-134 | an option without text or `isCorrect` is refused, and `false` is as valid as `true` |
| `TeacherRequests.QuestionRules` | backend/app/Http/Controllers/TeacherController.php:131-134 | a question with a blank text, fewer than two options or one refused option is refused; its id plays no part |
| `TeacherRequests.QuizFieldRules` | backend/app/Http/Controllers/TeacherController.php:122-130 | every duration from 1 to 180 is accepted and no other; a close date equal to the open date, an empty class or question list, and a title over 255 characters are refused; the description is optional |
| `TeacherRequests.OptionSpecOf` | backend/app/Http/Controllers/TeacherController.php:133-134 | a validated option keeps its id, its text and its flag |
| `TeacherRequests.QuestionSpecOf` | backend/app/Http/Controllers/TeacherController.php:131-134 | a validated question keeps its id, its text and its options, at least two, each position the validated option of the request's |
| `TeacherRequests.QuestionSpecs` | backend/app/Http/Controllers/TeacherController.php:130-134 | the validated questions, one per request question, in request order |
| `TeacherController.CreateOutcome` | backend/app/Http/Controllers/TeacherController.php:114-188 | the quiz is saved, under the next quiz id, exactly for a teacher with valid fields, only their own classes, no repeated class and no fault; the refusals, in order, are 403 for a non-teacher, 422, 403 for a class not owned, and 500 on a fault or a repeated class |
| `TeacherController.UpdateOutcome` | backend/app/Http/Controllers/TeacherController.php:194-282 | the quiz is saved, under its own id, exactly for its creating teacher with valid fields and ids, only their own classes and no fault; the refusals, in order, are 403 for a non-teacher, 404 for a missing or foreign quiz, 422, 403 for a class not owned, and 500 on a fault |
| `TeacherController.UpsertOptions` | backend/app/Http/Controllers/TeacherController.php:256-262 | an option entry naming an option of this question overwrites it, any other entry gets a new id, each kept position holds its entry's text, flag and order, and no other question's options change |
| `TeacherController.PruneOptions` | backend/app/Http/Controllers/TeacherController.php:264 | the question's options become those of them the loop saved; every other question keeps its options; no row is added or changed |
| `TeacherController.ReconcileOptions` | backend/app/Http/Controllers/TeacherController.php:253-264 | after the loop and the deletion, the question's options are exactly the saved ones, each with its last entry's fields |
| `TeacherController.PruneQuestions` | backend/app/Http/Controllers/TeacherController.php:267 | the quiz's questions become those of them the loop saved; every other quiz keeps its questions; no row is added or changed |
| `TeacherController.DropOrphanOptions` | backend/app/Http/Controllers/TeacherController.php:267 | by the foreign key cascade, every kept option belongs to a kept question, each kept question keeps all its options, and no row is added or changed |
| `TeacherController.SaveQuestion` | backend/app/Http/Controllers/TeacherController.php:247-251 | an entry naming a question of this quiz overwrites it with the entry's text and order; any other entry is saved under a new id |
| `TeacherController.UpsertQuestions` | backend/app/Http/Controllers/TeacherController.php:243-265 | each question entry is saved to a question row of the quiz, and that question's options are reconciled with the entry's options |
| `TeacherController.ReconcileQuiz` | backend/app/Http/Controllers/TeacherController.php:243-267 | the quiz's questions are exactly the saved ones, with their last entry's text and order; other quizzes and untouched questions are unchanged; with distinct saved ids, each question's options are exactly the saved ones |
| `TeacherController.CreateOptions` | backend/app/Http/Controllers/TeacherController.php:165-172 | option `j` of a new question becomes a new row with the next id, its text and flag, and order `j` |
| `TeacherController.CreateQuestions` | backend/app/Http/Controllers/TeacherController.php:158-173 | question `i` becomes a row with order `i` under consecutive new ids, each followed by its options; no other row changes |
| `TeacherController.CreateQuestion` | backend/app/Http/Controllers/TeacherController.php:159-172 | one `Question::create` followed by the creation of its options, each in request order |
| `TeacherController.CreateIsReconcileOfEmptyQuiz` | backend/app/Http/Controllers/TeacherController.php:158-173 | creating a quiz stores the same rows as reconciling a quiz with no questions against the same request |
| `TeacherController.CreatedQuestionsOf` | backend/app/Http/Controllers/TeacherController.php:158-163 | after creation, the quiz's questions are exactly the new rows |
| `TeacherController.CreatedOptionsOf` | backend/app/Http/Controllers/TeacherController.php:165-172 | after creation, each question's options are exactly the rows made from its request options |
| `TeacherController.CreatedOptionsAreNew` | backend/app/Http/Controllers/TeacherController.php:165-172 | a created question has no options other than the ones made from its request options |
| `TeacherController.CreatedOptionPosition` | backend/app/Http/Controllers/TeacherController.php:170 | a new option of question `i` sits at one of that question's positions |
| `TeacherController.OptionOwner` | backend/app/Http/Controllers/TeacherController.php:167 | the option stored at a created position belongs to that question |
| `TeacherController.CreateQuiz` | backend/app/Http/Controllers/TeacherController.php:114-188 | the responses, in order, are 403 for a non-teacher, 422, 403 for a foreign class, and 500 on a fault or a repeated class (pivot index); a refusal writes nothing; a save adds the quiz under the next id with its classes, questions and options in request order |
| `TeacherController.UpdateQuiz` | backend/app/Http/Controllers/TeacherController.php:194-282 | the responses, in order, are 403, 404 for a quiz the teacher did not create, 422, 403 for a foreign class, and 500; a refusal writes nothing; a save replaces the quiz fields and exactly its class set, and reconciles its questions and options |
| `TeacherController.GetSubmission` | backend/app/Http/Controllers/TeacherController.php:311-329 | a teacher sees a submission exactly when it exists and they created its quiz; a missing id gives 404; a non-teacher, and a teacher who did not create the submission's quiz, get 403 |
| `Cors.AllowedOrigin` | backend/app/Http/Middleware/HandleCors.php:41-62 | the result is the request's origin when it is in the list, else the first entry; it is always in the list and never `*` |
| `Cors.Handle` | backend/app/Http/Middleware/HandleCors.php:16-36 | an OPTIONS request gets 200 with the headers and `Max-Age` without reaching the next handler; every other request reaches it and gets its response plus the four headers |
| `Cors.SameCorsHeadersOnBothPaths` | backend/app/Http/Middleware/HandleCors.php:19-35 | a preflight and a normal request from the same origin carry the same four headers, and the allowed origin is never `*` |
| `Front.IdString` | frontend/src/contexts/QuizContext.tsx:76 | `String(id)` of a numeric id is a non-empty digit string |
| `Front.IdStringInjective` | frontend/src/components/admin/QuizResults.tsx:149 | two ids compare equal as strings exactly when they are equal |
| `Front.UndefinedIsNoId` | frontend/src/components/admin/QuizResults.tsx:149-150 | `String(undefined)` never equals a present id |
| `Front.OrText` | frontend/src/components/admin/QuizResults.tsx:166 | `a \|\| b` on strings is `a` when it is truthy and `b` otherwise |
| `Front.OrNumber` | frontend/src/contexts/QuizContext.tsx:88 | `a \|\| b` on numbers is `a` when it is truthy and `b` otherwise |
| `Front.Coalesce` | frontend/src/components/admin/QuizResults.tsx:47-50 | `a ?? b` is `a` when it is present and `b` otherwise |
| `Front.ScoreOrZero` | frontend/src/utils/pdfExport.ts:68 | `score \|\| 0` keeps a number and reads a missing score or `NaN` as 0 |
| `Front.StudentsInClass` | frontend/src/components/admin/QuizResults.tsx:141-143 | exactly the students the class filter admits, and everyone under `'all'` |
| `Front.FindUser` | frontend/src/utils/pdfExport.ts:112 | a user with that id from the list, or none when no user has it |
| `Front.FindClass` | frontend/src/utils/pdfExport.ts:49 | a class with that id from the list, or none when no class has it |
| `Front.FindQuiz` | frontend/src/utils/pdfExport.ts:66 | a quiz with that id from the list, or none when no quiz has it |
| `QuizContext.RefId` | frontend/src/contexts/QuizContext.tsx:55-56 | a relation entry's id is its first truthy id field, and missing only when all three are falsy |
| `QuizContext.IdStrings` | frontend/src/contexts/QuizContext.tsx:48 | `classIds.map(String)` keeps length and order |
| `QuizContext.RefIdStrings` | frontend/src/contexts/QuizContext.tsx:52-58 | the string ids of the relation entries that have one; entries without an id are dropped |
| `QuizContext.ClassIdsOf` | frontend/src/contexts/QuizContext.tsx:44-63 | a non-empty `classIds` wins, then a non-empty `classes` relation, then a truthy legacy `classId`/`class_id`, else none; no entry is empty |
| `QuizContext.MapOption` | frontend/src/contexts/QuizContext.tsx:82-86 | an option keeps its id and text and is correct iff `is_correct` or `isCorrect` is true |
| `QuizContext.MapQuestion` | frontend/src/contexts/QuizContext.tsx:79-87 | a question keeps id, text and its options in order, and has no `correctAnswer` |
| `QuizContext.MapQuiz` | frontend/src/contexts/QuizContext.tsx:42-97 | the mapped quiz's class list is `ClassIdsOf`; its legacy class is the first entry or undefined; its description, duration, questions, open and close dates, creator and creation date follow the `\|\|` fallbacks, with `String(undefined)` for a missing creator |
| `QuizContext.MapUser` | frontend/src/contexts/QuizContext.tsx:111-120 | the class id is `classId ?? class_id` stringified, and undefined only when both are missing |
| `QuizContext.QuizzesForStudent` | frontend/src/contexts/QuizContext.tsx:249-254 | exactly the quizzes whose class list contains the class, or whose legacy class equals it, in order |
| `QuizContext.MappedQuizVisibility` | frontend/src/contexts/QuizContext.tsx:95 | on a mapped quiz the legacy field adds nothing; a class sees it iff the class is in its class list |
| `QuizContext.StudentSeesAssignedQuiz` | frontend/src/contexts/QuizContext.tsx:249-254 | through both mappings, a student of class `k` sees a quiz iff its server `classIds` contain `k` |
| `QuizContext.AttemptsByStudent` | frontend/src/contexts/QuizContext.tsx:256-258 | exactly the student's attempts |
| `QuizContext.AttemptsByQuiz` | frontend/src/contexts/QuizContext.tsx:260-262 | exactly the quiz's attempts |
| `QuizContext.WithoutAttempts` | frontend/src/contexts/QuizContext.tsx:264-266 | every attempt except the student's attempts at the quiz, and nothing new |
| `QuizContext.ResetAfterAdd` | frontend/src/contexts/QuizContext.tsx:237-266 | resetting after an append drops the new attempt exactly when it is the student's attempt at that quiz |
| `QuizContext.ResetIdempotent` | frontend/src/contexts/QuizContext.tsx:264-266 | a second reset changes nothing |
| `QuizContext.ResetKeepsOtherStudents` | frontend/src/contexts/QuizContext.tsx:264-266 | a reset leaves every other student's attempts, in order |
| `QuizContext.AddAppends` | frontend/src/contexts/QuizContext.tsx:237-239 | an appended attempt comes last among its student's and its quiz's attempts, after the earlier ones unchanged |
| `QuizContext.AttemptLog.constructor` | frontend/src/contexts/QuizContext.tsx:195 | the attempt list starts empty |
| `QuizContext.AttemptLog.AddAttempt` | frontend/src/contexts/QuizContext.tsx:237-239 | the attempt is appended at the end |
| `QuizContext.AttemptLog.ResetQuizForStudent` | frontend/src/contexts/QuizContext.tsx:264-266 | the list becomes `WithoutAttempts` of the old list |
| `QuizTaking.CorrectCount` | frontend/src/components/student/QuizTaking.tsx:35-40 | the number of correct answers is at most the number of questions |
| `QuizTaking.CountCorrect` | frontend/src/components/student/QuizTaking.tsx:35-40 | the `forEach` counts exactly `CorrectCount` |
| `QuizTaking.AllCorrect` | frontend/src/components/student/QuizTaking.tsx:36-40 | every question counts exactly when every answer equals its `correctAnswer` |
| `QuizTaking.MappedQuizNeverCorrect` | frontend/src/components/student/QuizTaking.tsx:37 | on quizzes mapped from the server, which have no `correctAnswer`, nothing counts once every question has an answer entry |
| `QuizTaking.LegacyScore` | frontend/src/components/student/QuizTaking.tsx:41 | `NaN` exactly for a quiz without questions; otherwise 0..100, with 100 for all correct and 0 for none |
| `QuizTaking.PercentBounds` | frontend/src/components/student/QuizTaking.tsx:41 | a share of at most the whole rounds into 0..100 |
| `QuizTaking.LegacyScoreMonotone` | frontend/src/components/student/QuizTaking.tsx:122 | more correct answers never give a lower score |
| `QuizTaking.Unanswered` | frontend/src/components/student/QuizTaking.tsx:27 | -1 for every question |
| `QuizTaking.FormatTime` | frontend/src/components/student/QuizTaking.tsx:88-92 | digits, a colon, and two digits |
| `QuizTaking.PadKeepsDigits` | frontend/src/components/student/QuizTaking.tsx:91 | `padStart(2, '0')` keeps a digit string and its value |
| `QuizTaking.FormatTimeRoundTrip` | frontend/src/components/student/QuizTaking.tsx:88-92 | reading `mm:ss` back gives the seconds it came from, and the seconds field is below 60 |
| `QuizTaking.HasCompleted` | frontend/src/components/student/QuizTaking.tsx:70-78 | true iff the student has an attempt at the quiz |
| `QuizTaking.RecordedAttemptCompletes` | frontend/src/components/student/QuizTaking.tsx:70-78 | once an attempt is recorded, reopening the quiz redirects |
| `QuizTaking.NoAnswersMappedQuizScoresFull` | frontend/src/components/student/QuizTaking.tsx:35-41 | on a mapped quiz with questions, finishing with no answer entry scores 100, since a missing answer `===` a missing `correctAnswer` |
| `QuizTaking.LoadedTime` | frontend/src/components/student/QuizTaking.tsx:26 | the loading effect sets a time exactly when the quiz has a time limit, and it is `timeLimit * 60` |
| `QuizTaking.OpenFinishesAtOnce` | frontend/src/components/student/QuizTaking.tsx:17-66 | as written, the screen mounted with its quiz and a user records one attempt with no answers at once and is marked finished |
| `QuizTaking.OpenStartsCountdown` | frontend/src/components/student/QuizTaking.tsx:24-66 | when the timer effect sees the loaded state, opening a quiz with a time limit records nothing and starts the countdown at `timeLimit * 60` with every question unanswered |
| `QuizTaking.QuizSession.constructor` | frontend/src/components/student/QuizTaking.tsx:17-22 | the screen starts at question 0 with no answers, no selection, zero time, not finished |
| `QuizTaking.QuizSession.Load` | frontend/src/components/student/QuizTaking.tsx:24-29 | with a quiz, `timeLimit * 60` seconds and -1 for every question; without one, nothing changes |
| `QuizTaking.QuizSession.FinishQuiz` | frontend/src/components/student/QuizTaking.tsx:31-54 | without quiz or user, or once finished, nothing happens; otherwise exactly one attempt, scored from the answers, is appended and the screen finishes |
| `QuizTaking.QuizSession.FirstCommit` | frontend/src/components/student/QuizTaking.tsx:24-66 | the effects of the first render, each on the state that render saw: the timer check on zero time finishes the quiz with the state's answers, then the load sets time and answers |
| `QuizTaking.QuizSession.FirstCommitIntended` | frontend/src/components/student/QuizTaking.tsx:24-66 | the load's effects come first and the timer check sees them, so a quiz with a positive limit is not finished |
| `QuizTaking.QuizSession.Tick` | frontend/src/components/student/QuizTaking.tsx:56-67 | at or below zero on an unfinished quiz, the quiz is finished; otherwise one second passes |
| `QuizTaking.QuizSession.SelectAnswer` | frontend/src/components/student/QuizTaking.tsx:94-96 | only the pending selection changes |
| `QuizTaking.QuizSession.NextQuestion` | frontend/src/components/student/QuizTaking.tsx:98-135 | the pending selection is stored, then the cursor advances, or on the last question the stored answers are scored and exactly one attempt is recorded |
| `QuizTaking.QuizSession.GoToQuestion` | frontend/src/components/student/QuizTaking.tsx:271-279 | the pending selection is stored and the cursor jumps, picking up the answer recorded there |
| `QuizTaking.QuizSession.PrevQuestion` | frontend/src/components/student/QuizTaking.tsx:137-148 | the pending selection is stored, and the cursor moves back unless it is on question 0 |
| `QuizForm.RemoveAt` | frontend/src/components/admin/CreateQuizForm.tsx:127-131 | the entry at the index is removed and the others keep their order; an index past the end changes nothing |
| `QuizForm.QuestionErrors` | frontend/src/components/admin/CreateQuizForm.tsx:171-183 | one question's messages, in order: missing text, fewer than two filled options, no filled correct option |
| `QuizForm.HeaderErrors` | frontend/src/components/admin/CreateQuizForm.tsx:152-169 | the quiz-field messages in order: title, class, duration outside 1..180, missing dates, close not after open |
| `QuizForm.CollectErrors` | frontend/src/components/admin/CreateQuizForm.tsx:149-187 | the loop collects exactly the form's messages and returns true iff there are none |
| `QuizForm.FormErrorsEmptyIff` | frontend/src/components/admin/EditQuizForm.tsx:139-177 | the form has no message exactly when it meets every rule |
| `QuizForm.QuestionErrorsExact` | frontend/src/components/admin/CreateQuizForm.tsx:171-183 | each question message is reported exactly for the questions that break its rule |
| `QuizForm.PayloadOptions` | frontend/src/components/admin/CreateQuizForm.tsx:199-204 | blank options are dropped; the others keep their order, trimmed, with their flag |
| `QuizForm.PayloadKeepsCorrect` | frontend/src/components/admin/CreateQuizForm.tsx:199-204 | the body has a correct option exactly when the form has a filled correct option |
| `QuizForm.PayloadOfFilledOptions` | frontend/src/components/admin/CreateQuizForm.tsx:199-204 | when every option is filled, the body has all of them, position by position |
| `QuizForm.PayloadDropsBlank` | frontend/src/components/admin/CreateQuizForm.tsx:200 | no blank option reaches the body |
| `QuizForm.Payload` | frontend/src/components/admin/CreateQuizForm.tsx:196-214 | title and description trimmed, one body question per form question with trimmed text |
| `QuizForm.PayloadOfValidForm` | frontend/src/components/admin/CreateQuizForm.tsx:189-214 | a valid form gives questions with text and at least two options, one correct, and an open date before the close date |
| `QuizForm.SentRequest` | frontend/src/components/admin/CreateQuizForm.tsx:207-214 | the body the form sends has no `classIds`; its title, description, duration, dates and questions are the payload's, question by question |
| `QuizForm.IntendedRequest` | frontend/src/components/admin/CreateQuizForm.tsx:207-214 | the corrected body adds the selected class as the only `classIds` entry and is otherwise the sent one |
| `QuizForm.SentRequestAlwaysRejected` | frontend/src/components/admin/CreateQuizForm.tsx:207-214 | the server's `classIds` rule refuses every request the create form sends |
| `QuizForm.IntendedRequestAccepted` | backend/app/Http/Controllers/TeacherController.php:122-135 | a valid form, sent with the selected class as its only `classIds` entry, passes the server's rules when that class exists |
| `QuizForm.CompleteQuestionAccepted` | backend/app/Http/Controllers/TeacherController.php:131-134 | the server's question rules accept a complete body question |
| `CreateQuiz.ToggleOption` | frontend/src/components/admin/CreateQuizForm.tsx:108-113 | only the chosen option's flag flips, so several correct options are allowed |
| `CreateQuiz.ToggleTwice` | frontend/src/components/admin/CreateQuizForm.tsx:108-113 | toggling the same option twice restores the question |
| `CreateQuiz.CreateQuizForm.constructor` | frontend/src/components/admin/CreateQuizForm.tsx:44-61 | empty fields, duration 15, one blank question with four options, and the default dates the mount effect sets |
| `CreateQuiz.CreateQuizForm.SetQuestionText` | frontend/src/components/admin/CreateQuizForm.tsx:96-100 | only that question's text changes |
| `CreateQuiz.CreateQuizForm.SetOptionText` | frontend/src/components/admin/CreateQuizForm.tsx:102-106 | only that option's text changes |
| `CreateQuiz.CreateQuizForm.ToggleCorrect` | frontend/src/components/admin/CreateQuizForm.tsx:108-113 | the question becomes `ToggleOption` of it; the bounds are kept |
| `CreateQuiz.CreateQuizForm.AddQuestion` | frontend/src/components/admin/CreateQuizForm.tsx:115-125 | a blank question is appended; the bounds are kept |
| `CreateQuiz.CreateQuizForm.RemoveQuestion` | frontend/src/components/admin/CreateQuizForm.tsx:127-131 | a question is removed only while more than one exists, so at least one remains |
| `CreateQuiz.CreateQuizForm.AddOption` | frontend/src/components/admin/CreateQuizForm.tsx:133-139 | an option is added only below five, so there are never more than five |
| `CreateQuiz.CreateQuizForm.RemoveOption` | frontend/src/components/admin/CreateQuizForm.tsx:141-147 | an option is removed only above three, so there are never fewer than three |
| `CreateQuiz.CreateQuizForm.ValidateForm` | frontend/src/components/admin/CreateQuizForm.tsx:149-187 | the messages become the form's messages and the result is true iff the form is valid |
| `CreateQuiz.CreateQuizForm.HandleSubmit` | frontend/src/components/admin/CreateQuizForm.tsx:189-216 | a body is sent exactly when the form is valid and a user is signed in, and it is `Payload` of the fields |
| `CreateQuiz.CreateQuizForm.OnCreated` | frontend/src/components/admin/CreateQuizForm.tsx:69-89 | every field is reset; the dates become empty |
| `CreateQuiz.CreateQuizForm.OnError` | frontend/src/components/admin/CreateQuizForm.tsx:90-93 | the only message is the error's own, or the generic one, and submitting stops |
| `EditQuiz.FormOptionOf` | frontend/src/components/admin/EditQuizForm.tsx:63-72 | a legacy caption becomes an option without id that is not correct; an option keeps id, text and flag |
| `EditQuiz.FormQuestionOf` | frontend/src/components/admin/EditQuizForm.tsx:60-74 | a question keeps id, text and its options in order |
| `EditQuiz.InitialQuestions` | frontend/src/components/admin/EditQuizForm.tsx:58-77 | the quiz's questions, or one blank question when it has none |
| `EditQuiz.LegacyOptionsStartIncorrect` | frontend/src/components/admin/EditQuizForm.tsx:64-67 | a legacy caption is loaded with its text and not correct |
| `EditQuiz.InitialDuration` | frontend/src/components/admin/EditQuizForm.tsx:50 | `durationMinutes \|\| timeLimit \|\| 15`, never 0 |
| `EditQuiz.OnlyCorrect` | frontend/src/components/admin/EditQuizForm.tsx:92-99 | every option's flag cleared except the chosen one's, which is set |
| `EditQuiz.OnlyCorrectIsSingle` | frontend/src/components/admin/EditQuizForm.tsx:92-99 | exactly the chosen option is correct, and texts and ids are kept |
| `EditQuiz.RemoveKeepingAnswer` | frontend/src/components/admin/EditQuizForm.tsx:127-137 | the splice, then option 0 marked correct when no correct option is left; some option is always correct afterwards |
| `EditQuiz.RemovingTheAnswerMarksTheFirst` | frontend/src/components/admin/EditQuizForm.tsx:131-135 | removing the only correct option makes option 0 the only correct one |
| `EditQuiz.EditQuizForm.constructor` | frontend/src/components/admin/EditQuizForm.tsx:48-78 | the fields are loaded from the quiz with their fallbacks |
| `EditQuiz.EditQuizForm.SetCorrect` | frontend/src/components/admin/EditQuizForm.tsx:92-99 | the clearing loop and the final set leave exactly the chosen option correct |
| `EditQuiz.EditQuizForm.AddQuestion` | frontend/src/components/admin/EditQuizForm.tsx:101-111 | a blank question is appended |
| `EditQuiz.EditQuizForm.RemoveQuestion` | frontend/src/components/admin/EditQuizForm.tsx:113-117 | a question is removed only while more than one exists |
| `EditQuiz.EditQuizForm.AddOption` | frontend/src/components/admin/EditQuizForm.tsx:119-125 | an option is added only below five |
| `EditQuiz.EditQuizForm.RemoveOption` | frontend/src/components/admin/EditQuizForm.tsx:127-137 | an option is removed only above three; at least three remain and one is correct |
| `EditQuiz.EditQuizForm.ValidateForm` | frontend/src/components/admin/EditQuizForm.tsx:139-177 | the messages become the form's messages and the result is true iff the form is valid |
| `EditQuiz.EditQuizForm.HandleSubmit` | frontend/src/components/admin/EditQuizForm.tsx:181-188 | nothing is ever saved; a valid form ends with the "not implemented" message only |
| `Results.NormSub` | frontend/src/components/admin/QuizResults.tsx:46-52 | each camelCase field takes the snake_case value when present, else keeps its own; nothing else changes |
| `Results.NormSubIdempotent` | frontend/src/components/admin/QuizResults.tsx:46-52 | normalising twice equals normalising once |
| `Results.PercentAsWrittenOverflows` | frontend/src/components/admin/QuizResults.tsx:88-90 | the percentage as written shows 2500 for a full score on four questions |
| `Results.PercentAsWritten` | frontend/src/components/admin/QuizResults.tsx:159-160 | `Math.round(100 * score / total)`: 0 without questions, never negative, and above 100 for a full score on fewer than 100 questions |
| `Results.Percent` | frontend/src/components/admin/QuizResults.tsx:159-160 | the corrected percentage, the stored score read as a percentage: 0 without questions, and 0..100 for every score in the column's range |
| `Results.PercentOfStoredScore` | frontend/src/components/admin/QuizResults.tsx:159-160 | for every score the server stores, the shown percentage is 0..100, 100 for all correct and 0 for none |
| `Results.FindQuizStrict` | frontend/src/components/admin/QuizResults.tsx:87 | `find` with `===` only returns a quiz whose string id is strictly equal to the key |
| `Results.ExportScoreAlwaysZero` | frontend/src/components/admin/QuizResults.tsx:87-90 | as written, every exported score is 0, since a numeric id never `===` a string id |
| `Results.ExportScoreAsWritten` | frontend/src/components/admin/QuizResults.tsx:87-90 | the exported score when the strict lookup finds no quiz is 0 |
| `Results.ExportScore` | frontend/src/components/admin/QuizResults.tsx:87-90 | with the ids compared as strings, an unknown quiz gives 0 and every stored score gives 0..100 |
| `Results.ExportQuizSubmissionsAlwaysEmpty` | frontend/src/components/admin/QuizResults.tsx:116 | as written, the per-quiz export keeps no submission |
| `Results.ExportQuizSubmissionsAsWritten` | frontend/src/components/admin/QuizResults.tsx:116 | the per-quiz export, as written, keeps only submissions whose `quiz_id` is strictly the key |
| `Results.ExportQuizSubmissions` | frontend/src/components/admin/QuizResults.tsx:116 | with the ids compared as strings, exactly the submissions for the quiz |
| `Results.AttemptOf` | frontend/src/components/admin/QuizResults.tsx:153-172 | an attempt exists iff `submittedAt \|\| startedAt` is set; it shows the catalogue quiz found by `String(id)`, its question count, and the score divided again by that count, `PercentAsWritten` |
| `Results.ListedFullScoreOverflows` | frontend/src/components/admin/QuizResults.tsx:153-172 | a completed attempt with a full score at a quiz of fewer than 100 questions is listed above 100% |
| `Results.StudentAttempts` | frontend/src/components/admin/QuizResults.tsx:145-174 | there are never more listed attempts than submissions |
| `Results.StudentAttemptsSound` | frontend/src/components/admin/QuizResults.tsx:147-152 | every listed attempt comes from a submission of the student that passes the quiz filter |
| `Results.StudentAttemptsComplete` | frontend/src/components/admin/QuizResults.tsx:173 | every dated submission of the student that passes the filter is listed |
| `Results.FindAnswer` | frontend/src/components/admin/QuizResults.tsx:366-370 | the answer found names the question under either key; none is found only when no answer names it |
| `Results.FirstCorrect` | frontend/src/components/admin/QuizResults.tsx:383 | the first correct option, or none when no option is correct |
| `Results.IndexOfOption` | frontend/src/components/admin/QuizResults.tsx:377 | the first position whose option has the id, or -1 |
| `Results.UnansweredQuestion` | frontend/src/components/admin/QuizResults.tsx:372-381 | without an answer, the selected index stays -1 and the question is not shown correct |
| `Results.CorrectQuestionShowsCorrectOption` | frontend/src/components/admin/QuizResults.tsx:383-384 | with distinct option ids, a question shown correct has the first correct option selected |
| `Results.SecondCorrectOptionNotCredited` | frontend/src/components/admin/QuizResults.tsx:383-384 | choosing a correct option other than the first shows the question as wrong |
| `StudentList.FilteredStudents` | frontend/src/components/admin/StudentList.tsx:119-124 | exactly the students whose name or email contains the query, ignoring ASCII case, and who pass the class filter |
| `StudentList.EmptySearchFiltersByClassOnly` | frontend/src/components/admin/StudentList.tsx:119-124 | an empty search filters by class only |
| `StudentList.EmptySearchListsEveryone` | frontend/src/components/admin/StudentList.tsx:119-124 | an empty search with `'all'` lists the whole roster in order |
| `StudentList.SearchIgnoresQueryCase` | frontend/src/components/admin/StudentList.tsx:121-122 | lower-casing the query does not change the result |
| `StudentList.NewStudentOf` | frontend/src/components/admin/StudentList.tsx:132-137 | name and email trimmed, password as typed |
| `StudentList.UpdateOf` | frontend/src/components/admin/StudentList.tsx:152-163 | the password is sent iff it is not blank; the class iff one is chosen |
| `StudentList.StudentForm.constructor` | frontend/src/components/admin/StudentList.tsx:126-130 | an empty form with nobody being edited |
| `StudentList.StudentForm.AddStudent` | frontend/src/components/admin/StudentList.tsx:126-138 | a body is sent exactly when name, email and password are not blank and a class is chosen |
| `StudentList.StudentForm.OnCreated` | frontend/src/components/admin/StudentList.tsx:71-79 | the four fields are emptied and the dialog closes |
| `StudentList.StudentForm.EditStudent` | frontend/src/components/admin/StudentList.tsx:140-147 | the form is loaded from the student, with an empty password and `classId \|\| ''` |
| `StudentList.StudentForm.UpdateStudent` | frontend/src/components/admin/StudentList.tsx:149-169 | a body is sent exactly when a student is being edited; it is that student's id with `UpdateOf` of the fields |
| `StudentList.StudentForm.OnUpdated` | frontend/src/components/admin/StudentList.tsx:91-97 | editing ends and the password is cleared |
| `StudentList.DeleteRequest` | frontend/src/components/admin/StudentList.tsx:171-175 | the delete goes out exactly when the teacher confirms |
| `PdfExport.ClassCell` | frontend/src/utils/pdfExport.ts:49-59 | the class's name, or `-` when the class is unknown |
| `PdfExport.MatchingAttempts` | frontend/src/utils/pdfExport.ts:50-54 | exactly the student's attempts that pass the quiz filter |
| `PdfExport.AttemptRows` | frontend/src/utils/pdfExport.ts:65-77 | at most one row per attempt, each naming the student and the class |
| `PdfExport.StudentRows` | frontend/src/utils/pdfExport.ts:48-79 | one "Non passé" row when the student has no matching attempt, else the attempt rows |
| `PdfExport.PushAttemptRows` | frontend/src/utils/pdfExport.ts:65-77 | the inner `forEach` appends exactly `AttemptRows` |
| `PdfExport.PushStudentRows` | frontend/src/utils/pdfExport.ts:56-78 | one student's pushes append exactly `StudentRows` |
| `PdfExport.PushRowsOf` | frontend/src/utils/pdfExport.ts:56-79 | the outer `forEach` over any student list builds exactly `RowsOf` that list |
| `PdfExport.BuildSummaryTable` | frontend/src/utils/pdfExport.ts:41-79 | the nested loops build exactly `SummaryTable` of the filtered students |
| `PdfExport.NoAttemptsOneRow` | frontend/src/utils/pdfExport.ts:56-63 | a student without a matching attempt yields exactly one "Non passé" row |
| `PdfExport.AttemptRowsSound` | frontend/src/utils/pdfExport.ts:65-77 | every attempt row comes from a matching attempt whose quiz is in the catalogue |
| `PdfExport.AttemptRowsComplete` | frontend/src/utils/pdfExport.ts:66-67 | every attempt whose quiz is in the catalogue yields a row |
| `PdfExport.RowsNameListedStudents` | frontend/src/utils/pdfExport.ts:41-48 | every row names a student the class filter admits |
| `PdfExport.AllScores` | frontend/src/utils/pdfExport.ts:109-116 | at most one score per attempt |
| `PdfExport.AllScoresComplete` | frontend/src/utils/pdfExport.ts:109-116 | every attempt that passes the filters contributes its score |
| `PdfExport.AllScoresEmpty` | frontend/src/utils/pdfExport.ts:109-118 | without an attempt passing the filters there is no score, hence no statistics |
| `PdfExport.Highest` | frontend/src/utils/pdfExport.ts:120 | `Math.max` is a score and no score exceeds it |
| `PdfExport.Lowest` | frontend/src/utils/pdfExport.ts:121 | `Math.min` is a score and no score is below it |
| `PdfExport.PassCount` | frontend/src/utils/pdfExport.ts:122 | at most the number of scores |
| `PdfExport.SumBetween` | frontend/src/utils/pdfExport.ts:119 | scores between two bounds add up to between `n` times each |
| `PdfExport.PercentOfCount` | frontend/src/utils/pdfExport.ts:122 | a count out of `n` rounds to 0..100, with 100 for all and 0 for none |
| `PdfExport.Statistics` | frontend/src/utils/pdfExport.ts:118-122 | present iff there is a score; the extremes are scores bounding all others; the average is the rounded mean between them; the pass rate is 0..100 |
| `PdfExport.QuizAttemptsOf` | frontend/src/utils/pdfExport.ts:185 | exactly the attempts at the report's quiz |
| `PdfExport.BuildDetailTable` | frontend/src/utils/pdfExport.ts:187-206 | one row per attempt at the quiz, in order, with correct answers never more than the question count |
| `PdfExport.BuildDetailRows` | frontend/src/utils/pdfExport.ts:187-206 | the `map` builds, per attempt, the student's name or "Inconnu", the class or `-`, and the correct count from the quiz screen's counting loop |
| `PdfExport.CorrectFor` | frontend/src/utils/pdfExport.ts:236 | at most the number of attempts |
| `PdfExport.CorrectForAll` | frontend/src/utils/pdfExport.ts:236 | when every attempt answers right, all are counted |
| `PdfExport.SuccessRate` | frontend/src/utils/pdfExport.ts:237-239 | 0 without attempts; otherwise 100·correct/attempts rounded half-up, 0..100 |
| `PdfExport.BuildBreakdown` | frontend/src/utils/pdfExport.ts:228-251 | one line per question, numbered from 1, its success rate 0..100 |
| `PdfExport.SkipSpaces` | frontend/src/utils/pdfExport.ts:254 | the rest of a white-space run is skipped |
| `PdfExport.DashSpaces` | frontend/src/utils/pdfExport.ts:254 | `replace(/\s+/g, '-')` leaves no white space |
| `PdfExport.DashSpacesKeepsPlain` | frontend/src/utils/pdfExport.ts:254 | a string without white space is left as it is |
| `PdfExport.Slug` | frontend/src/utils/pdfExport.ts:254 | the slug has no white space and no upper-case ASCII letter |
| `PdfExport.SlugIdempotent` | frontend/src/utils/pdfExport.ts:254 | the slug of a slug is the slug |
| `PdfExport.DetailedFileName` | frontend/src/utils/pdfExport.ts:254 | starts `resultats-`, ends `.pdf`, and has no white space when the date has none |
| `PdfExport.SummaryFileName` | frontend/src/utils/pdfExport.ts:155 | starts `resultats-quiz-` and ends `.pdf` |

## Left out

- Time, the network and the database engine are parameters or left out:
  - the server clock and the browser's `Date` are a parameter `now` (or `stamp`);
  - the server's date parsing and the date formatting (`toISOString`, `toLocaleDateString`) are
    left out;
  - report dates are kept as the strings they are built from;
  - database exceptions are the `fault` flag.
- Concurrency is not modelled, for example two requests racing on the unique key. React's
  scheduling is modelled only for the quiz screen's first render (`QuizSession.FirstCommit`);
  later renders are the single steps `Tick`, `FinishQuiz` and the navigation methods.
- Not modelled: HTTP routing, authentication and the JSON responses; the query libraries' fetches, caching
  and invalidation; `localStorage`; `alert`/`confirm` dialogs.
- `getQuizSubmissions` (`TeacherController.php:288-305`) is not modelled: it is a lookup with
  the same 404 guard as `updateQuiz`, and its result only feeds the results screen, whose input
  is a parameter here.
- Relation loading and the JSON shape of responses are not modelled, for example the `classIds` list added to
  the create/update response.
- Floating point is not modelled. Every division-and-round is exact rational rounding half-up.
  JavaScript's `Math.round` agrees with it for non-negative values, which is all it meets here.
- Text:
  - `trim` and `\s` treat the ASCII white-space characters and the no-break space as white
    space, not every Unicode separator;
  - lower-casing covers ASCII letters only;
  - the server's `required` rule (`TeacherRequests.RequiredText`) trims with PHP's `trim`, which
    strips NUL and not form feed or the no-break space. The model judges blankness with the
    client's set on both sides, so a title made only of NUL, form feed or no-break space is
    not told apart.
- The PDF drawing is not modelled: jsPDF layout, fonts, the `yPos` counter and page breaks, the footer and the caption
  of the filters. Each table is the sequence of its rows.
- The detailed report's "Bonne réponse" line and the 80-character truncation of question
  texts are layout and are not modelled.
- The report module reads attempts through the declared
  `QuizAttempt` type (answers as option indices, string ids). The objects the results screen
  actually hands it, with answer objects and numeric ids, are not modelled there.
- `quizFromSub` (`QuizResults.tsx:156`) is not modelled: the quiz embedded in a submission, used when the
  catalogue lookup misses. A missed lookup counts as no quiz.
- The numeric-answer branch of the per-question view (`QuizResults.tsx:378-381`) is left out.
  It is unreachable for the answer objects the server sends.
- The edit form's validation messages are modelled as the same message kinds as the create
  form's. Their French wording differs slightly and is not modelled.
- `TeacherController.UpdateQuiz`: the option contract (each saved question's options are
  exactly the saved ones) is proved only when the saved question ids are distinct. A request
  naming the same question twice reconciles that question's options twice, and only the last
  pass's result is described.
- `TeacherController.GetSubmission`: the `!==` comparison of `created_by` with the user id
  is modelled as a comparison of integers. That holds when the database driver returns
  integers.
- Option rows of deleted questions go with them through a foreign-key cascade. The options
  migration is not part of this model, so this is an assumption.
- `QuizTaking.QuizSession.NextQuestion`: requires an unfinished screen with a quiz and a
  user. The finished screen shows no navigation, and the source dereferences `user!`.
- `CreateQuiz.CreateQuizForm.constructor`: takes the two default dates the mount effect
  computes as parameters. The effect's date arithmetic is not modelled.
- The routes also name `deleteClass` and `resetSubmission` handlers. They are not in the
  controller, so they are not modelled.

## Findings

| source | as written | input that shows it | evidently intended | confidence | as-written member | corrected member |
|---|---|---|---|---|---|---|
| backend/app/Http/Controllers/StudentController.php:222-235 | a question scores when the selected list and the correct set have the same size and every selected entry is correct; repeats count | two answer rows for option 1 on a question whose correct options are {1, 2} score the question | the selected set must equal the correct set: `Score` with `Intended`. The stored score keeps the test as written; `Scoring.ScoreWhenDistinct` and `StudentController.SubmitScoreWhenDistinct` show the two agree when no answer is repeated. Answers 1, 2, 2 score 0 as written (`Scoring.RepeatedCorrectAnswerScoresZero`) | high, not executed | `Scoring.RepeatedAnswerScoresFull` | `Scoring.Score` |
| frontend/src/components/admin/QuizResults.tsx:88-90 | the stored score, already a percentage, is divided by the question count again: `Math.round(100 * score / total)`; the same formula is at lines 119-120 and 159-160, where the attempt list shows it (`Results.AttemptOf`, `Results.ListedFullScoreOverflows`) | a full score (100.00) on a four-question quiz shows 2500% | show the stored percentage (`Results.PercentOfStoredScore`: 0..100) | high, not executed | `Results.PercentAsWrittenOverflows` | `Results.Percent` |
| frontend/src/components/admin/CreateQuizForm.tsx:207-214 | the create body has no `classIds`, which the server requires | any valid form: the server answers 422 | send the selected class as `classIds` (`QuizForm.IntendedRequestAccepted`) | high, not executed | `QuizForm.SentRequestAlwaysRejected` | `QuizForm.IntendedRequest` |
| frontend/src/components/admin/QuizResults.tsx:87 | the export looks quizzes up with `===` between the submission's numeric `quiz_id` and the catalogue's string id | any submission: the quiz is never found, so every exported score is 0; the same comparison at line 116 makes the per-quiz export empty (`Results.ExportQuizSubmissionsAlwaysEmpty`) | compare as strings, as `getStudentAttempts` does | medium (holds when the server sends numeric ids), not executed | `Results.ExportScoreAlwaysZero` | `Results.ExportScore` |
| frontend/src/components/student/QuizTaking.tsx:24-29, 56-60 | the first render's timer effect reads the initial `timeLeft` of 0, before the loading effect's update is seen, and calls `finishQuiz` | `QuizTaking` mounted with its quiz present in the context and a user: one attempt with no answers is recorded at once; on a mapped quiz it scores 100 (`QuizTaking.NoAnswersMappedQuizScoresFull`). As the app is wired this mount may not happen: `pages/Quiz.tsx:16` admits only the role `'student'` while the server's roles are upper case, and the context fetches quizzes only for teachers (`QuizContext.tsx:146-163`) | the countdown starts from `timeLimit * 60` and nothing is recorded | medium (the component's own behaviour; its reachability in the app is doubtful), not executed | `QuizTaking.OpenFinishesAtOnce` | `QuizTaking.OpenStartsCountdown` |
