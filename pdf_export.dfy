/** The PDF reports of the results screen: the rows of the summary table, its statistics, the
    rows and per-question breakdown of the detailed report of one quiz, and the file names. The
    drawing itself is not modelled; each table is the sequence of its rows. */
module PdfExport {
  import opened Common
  import opened Text
  import opened Front
  import QuizTaking

  // ---------------------------------------------------------------- summary table

  /** A row of the summary table: student, class, quiz, score, date. */
  datatype SummaryRow = SummaryRow(student: string, className: string, quiz: string, score: string, date: string)

  /** The date cell of a student who has not taken any matching quiz. */
  const NotTaken: string := "Non passé"

  /** `studentClass?.name || '-'`. */
  function ClassCell(classes: seq<FrontClass>, student: FrontUser): (r: string)
    ensures FindClass(classes, student.classId).None? ==> r == "-"
    ensures FindClass(classes, student.classId).Some? && FindClass(classes, student.classId).value.name != "" ==>
              r == FindClass(classes, student.classId).value.name
  {
    var c := FindClass(classes, student.classId);
    OrText(if c.Some? then Some(c.value.name) else None, Some("-")).value
  }

  /** `${attempt.score || 0}%`. */
  function ScoreCell(s: ScoreValue): string {
    IntToString(ScoreOrZero(s)) + "%"
  }

  /** The attempt is the student's and passes the quiz filter. */
  predicate Matches(a: QuizAttempt, student: FrontUser, selectedQuiz: string) {
    a.studentId == student.id && (selectedQuiz == "all" || a.quizId == selectedQuiz)
  }

  /** The student's attempts that pass the quiz filter. */
  function MatchingAttempts(attempts: seq<QuizAttempt>, student: FrontUser, selectedQuiz: string): (r: seq<QuizAttempt>)
    ensures forall k :: 0 <= k < |r| ==> r[k] in attempts && Matches(r[k], student, selectedQuiz)
    ensures forall k :: 0 <= k < |attempts| && Matches(attempts[k], student, selectedQuiz) ==> attempts[k] in r
  {
    Filter(attempts, (a: QuizAttempt) => Matches(a, student, selectedQuiz))
  }

  /** The row of one attempt whose quiz is known. */
  function AttemptRow(student: FrontUser, className: string, quiz: FrontQuiz, a: QuizAttempt): SummaryRow {
    SummaryRow(student.name, className, quiz.title, ScoreCell(a.score), a.completedAt)
  }

  /** One row per attempt whose quiz is in the catalogue, in order. */
  function AttemptRows(quizzes: seq<FrontQuiz>, student: FrontUser, className: string, attempts: seq<QuizAttempt>)
    : (r: seq<SummaryRow>)
    ensures |r| <= |attempts|
    ensures forall k :: 0 <= k < |r| ==> r[k].student == student.name && r[k].className == className
  {
    if attempts == [] then []
    else
      var k := |attempts| - 1;
      var quiz := FindQuiz(quizzes, attempts[k].quizId);
      AttemptRows(quizzes, student, className, attempts[..k])
        + (if quiz.Some? then [AttemptRow(student, className, quiz.value, attempts[k])] else [])
  }

  /** The rows of one student: a single "not taken" row without matching attempts, otherwise
      the rows of the matching attempts. */
  function StudentRows(quizzes: seq<FrontQuiz>, classes: seq<FrontClass>, attempts: seq<QuizAttempt>,
                       student: FrontUser, selectedQuiz: string): (r: seq<SummaryRow>)
    ensures forall k :: 0 <= k < |r| ==> r[k].student == student.name && r[k].className == ClassCell(classes, student)
  {
    var mine := MatchingAttempts(attempts, student, selectedQuiz);
    var className := ClassCell(classes, student);
    if |mine| == 0 then [SummaryRow(student.name, className, "-", "-", NotTaken)]
    else AttemptRows(quizzes, student, className, mine)
  }

  /** The rows of the given students, one block per student, in order. */
  function RowsOf(quizzes: seq<FrontQuiz>, classes: seq<FrontClass>, attempts: seq<QuizAttempt>,
                  students: seq<FrontUser>, selectedQuiz: string): seq<SummaryRow>
  {
    if students == [] then []
    else
      var k := |students| - 1;
      RowsOf(quizzes, classes, attempts, students[..k], selectedQuiz)
        + StudentRows(quizzes, classes, attempts, students[k], selectedQuiz)
  }

  /** The body of the summary table: the rows of the students that pass the class filter. */
  function SummaryTable(quizzes: seq<FrontQuiz>, classes: seq<FrontClass>, attempts: seq<QuizAttempt>,
                        students: seq<FrontUser>, selectedQuiz: string, selectedClass: string): seq<SummaryRow>
  {
    RowsOf(quizzes, classes, attempts, StudentsInClass(students, selectedClass), selectedQuiz)
  }

  /** The inner `forEach` of `exportResultsToPDF`: a row is pushed for each attempt whose quiz is
      in the catalogue. */
  method PushAttemptRows(quizzes: seq<FrontQuiz>, student: FrontUser, className: string, mine: seq<QuizAttempt>,
                         table: seq<SummaryRow>) returns (table': seq<SummaryRow>)
    ensures table' == table + AttemptRows(quizzes, student, className, mine)
  {
    table' := table;
    var j := 0;
    while j < |mine|
      invariant 0 <= j <= |mine|
      invariant table' == table + AttemptRows(quizzes, student, className, mine[..j])
    {
      AttemptRowsStep(quizzes, student, className, mine, j);
      var quiz := FindQuiz(quizzes, mine[j].quizId);
      ghost var before := table';
      if quiz.Some? {
        table' := table' + [AttemptRow(student, className, quiz.value, mine[j])];
      }
      AppendAssoc(table, AttemptRows(quizzes, student, className, mine[..j]), table' [|before|..]);
      assert table' == before + table'[|before|..];
      j := j + 1;
    }
    assert mine[..j] == mine;
  }

  /** The rows of one more attempt are appended after the rows of the attempts before it. */
  lemma AttemptRowsStep(quizzes: seq<FrontQuiz>, student: FrontUser, className: string, mine: seq<QuizAttempt>, j: nat)
    requires j < |mine|
    ensures var quiz := FindQuiz(quizzes, mine[j].quizId);
            AttemptRows(quizzes, student, className, mine[..j + 1])
            == AttemptRows(quizzes, student, className, mine[..j])
               + (if quiz.Some? then [AttemptRow(student, className, quiz.value, mine[j])] else [])
  {
    assert mine[..j + 1][..j] == mine[..j] && mine[..j + 1][j] == mine[j];
  }

  /** The rows pushed for one student of the outer `forEach`. */
  method PushStudentRows(quizzes: seq<FrontQuiz>, classes: seq<FrontClass>, attempts: seq<QuizAttempt>,
                         student: FrontUser, selectedQuiz: string, table: seq<SummaryRow>) returns (table': seq<SummaryRow>)
    ensures table' == table + StudentRows(quizzes, classes, attempts, student, selectedQuiz)
  {
    var className := ClassCell(classes, student);
    var mine := MatchingAttempts(attempts, student, selectedQuiz);
    if |mine| == 0 {
      table' := table + [SummaryRow(student.name, className, "-", "-", NotTaken)];
    } else {
      table' := PushAttemptRows(quizzes, student, className, mine, table);
    }
  }

  /** The nested `forEach` loops of `exportResultsToPDF` that push the table rows. */
  method BuildSummaryTable(quizzes: seq<FrontQuiz>, classes: seq<FrontClass>, attempts: seq<QuizAttempt>,
                           students: seq<FrontUser>, selectedQuiz: string, selectedClass: string)
    returns (table: seq<SummaryRow>)
    ensures table == SummaryTable(quizzes, classes, attempts, students, selectedQuiz, selectedClass)
  {
    table := PushRowsOf(quizzes, classes, attempts, StudentsInClass(students, selectedClass), selectedQuiz);
  }

  /** The outer `forEach` of `exportResultsToPDF` over the students that pass the class filter. */
  method PushRowsOf(quizzes: seq<FrontQuiz>, classes: seq<FrontClass>, attempts: seq<QuizAttempt>,
                    filtered: seq<FrontUser>, selectedQuiz: string) returns (table: seq<SummaryRow>)
    ensures table == RowsOf(quizzes, classes, attempts, filtered, selectedQuiz)
  {
    table := [];
    var i := 0;
    while i < |filtered|
      invariant 0 <= i <= |filtered|
      invariant table == RowsOf(quizzes, classes, attempts, filtered[..i], selectedQuiz)
    {
      RowsOfStep(quizzes, classes, attempts, filtered, selectedQuiz, i);
      table := PushStudentRows(quizzes, classes, attempts, filtered[i], selectedQuiz, table);
      i := i + 1;
    }
    assert filtered[..i] == filtered;
  }

  /** The rows of one more student are appended after the rows of the students before them. */
  lemma RowsOfStep(quizzes: seq<FrontQuiz>, classes: seq<FrontClass>, attempts: seq<QuizAttempt>,
                   students: seq<FrontUser>, selectedQuiz: string, i: nat)
    requires i < |students|
    ensures RowsOf(quizzes, classes, attempts, students[..i + 1], selectedQuiz)
            == RowsOf(quizzes, classes, attempts, students[..i], selectedQuiz)
               + StudentRows(quizzes, classes, attempts, students[i], selectedQuiz)
  {
    assert students[..i + 1][..i] == students[..i] && students[..i + 1][i] == students[i];
  }

  /** A student without matching attempts has exactly one row, marked as not taken. */
  lemma NoAttemptsOneRow(quizzes: seq<FrontQuiz>, classes: seq<FrontClass>, attempts: seq<QuizAttempt>,
                         student: FrontUser, selectedQuiz: string)
    requires forall k :: 0 <= k < |attempts| ==> !Matches(attempts[k], student, selectedQuiz)
    ensures StudentRows(quizzes, classes, attempts, student, selectedQuiz)
            == [SummaryRow(student.name, ClassCell(classes, student), "-", "-", NotTaken)]
  {
  }

  /** Every attempt row comes from an attempt whose quiz is in the catalogue. */
  lemma {:induction false} AttemptRowsSound(quizzes: seq<FrontQuiz>, student: FrontUser, className: string,
                                            attempts: seq<QuizAttempt>, k: nat)
    requires k < |AttemptRows(quizzes, student, className, attempts)|
    ensures exists j :: 0 <= j < |attempts| && FindQuiz(quizzes, attempts[j].quizId).Some?
                        && AttemptRows(quizzes, student, className, attempts)[k]
                           == AttemptRow(student, className, FindQuiz(quizzes, attempts[j].quizId).value, attempts[j])
  {
    var n := |attempts| - 1;
    var prefix := AttemptRows(quizzes, student, className, attempts[..n]);
    var r := AttemptRows(quizzes, student, className, attempts);
    if k < |prefix| {
      AttemptRowsSound(quizzes, student, className, attempts[..n], k);
      var j :| 0 <= j < |attempts[..n]| && FindQuiz(quizzes, attempts[..n][j].quizId).Some?
               && prefix[k] == AttemptRow(student, className, FindQuiz(quizzes, attempts[..n][j].quizId).value, attempts[..n][j]);
      assert attempts[..n][j] == attempts[j];
      assert r[k] == prefix[k];
    } else {
      assert r[k] == AttemptRow(student, className, FindQuiz(quizzes, attempts[n].quizId).value, attempts[n]);
    }
  }

  /** Every attempt whose quiz is in the catalogue has its row. */
  lemma {:induction false} AttemptRowsComplete(quizzes: seq<FrontQuiz>, student: FrontUser, className: string,
                                               attempts: seq<QuizAttempt>, j: nat)
    requires j < |attempts| && FindQuiz(quizzes, attempts[j].quizId).Some?
    ensures AttemptRow(student, className, FindQuiz(quizzes, attempts[j].quizId).value, attempts[j])
            in AttemptRows(quizzes, student, className, attempts)
  {
    var n := |attempts| - 1;
    if j < n {
      assert attempts[..n][j] == attempts[j];
      AttemptRowsComplete(quizzes, student, className, attempts[..n], j);
    }
  }

  /** Every row of the table names a student that passes the class filter. */
  lemma {:induction false} RowsNameListedStudents(quizzes: seq<FrontQuiz>, classes: seq<FrontClass>, attempts: seq<QuizAttempt>,
                                                  students: seq<FrontUser>, selectedQuiz: string, k: nat)
    requires k < |RowsOf(quizzes, classes, attempts, students, selectedQuiz)|
    ensures exists i :: 0 <= i < |students| && RowsOf(quizzes, classes, attempts, students, selectedQuiz)[k].student == students[i].name
  {
    var n := |students| - 1;
    var prefix := RowsOf(quizzes, classes, attempts, students[..n], selectedQuiz);
    var r := RowsOf(quizzes, classes, attempts, students, selectedQuiz);
    if k < |prefix| {
      RowsNameListedStudents(quizzes, classes, attempts, students[..n], selectedQuiz, k);
      var i :| 0 <= i < |students[..n]| && prefix[k].student == students[..n][i].name;
      assert students[..n][i] == students[i];
      assert r[k] == prefix[k];
    } else {
      assert r[k] == StudentRows(quizzes, classes, attempts, students[n], selectedQuiz)[k - |prefix|];
    }
  }

  // ---------------------------------------------------------------- statistics

  /** The attempt enters the statistics: it passes the quiz filter, its student (looked up in
      the roster) passes the class filter, and it has a score. */
  predicate Scored(a: QuizAttempt, students: seq<FrontUser>, selectedQuiz: string, selectedClass: string) {
    var student := FindUser(students, a.studentId);
    (selectedQuiz == "all" || a.quizId == selectedQuiz)
    && (selectedClass == "all" || (student.Some? && student.value.classId == Some(selectedClass)))
    && a.score != NoScore
  }

  /** `allScores`: the scores of the attempts that enter the statistics, `NaN` read as 0. */
  function AllScores(attempts: seq<QuizAttempt>, students: seq<FrontUser>, selectedQuiz: string, selectedClass: string)
    : (r: seq<int>)
    ensures |r| <= |attempts|
  {
    if attempts == [] then []
    else
      var rest := AllScores(attempts[1..], students, selectedQuiz, selectedClass);
      if Scored(attempts[0], students, selectedQuiz, selectedClass) then [ScoreOrZero(attempts[0].score)] + rest else rest
  }

  /** Every attempt that enters the statistics contributes its score. */
  lemma {:induction false} AllScoresComplete(attempts: seq<QuizAttempt>, students: seq<FrontUser>,
                                             selectedQuiz: string, selectedClass: string, i: nat)
    requires i < |attempts| && Scored(attempts[i], students, selectedQuiz, selectedClass)
    ensures ScoreOrZero(attempts[i].score) in AllScores(attempts, students, selectedQuiz, selectedClass)
  {
    if i > 0 {
      assert attempts[1..][i - 1] == attempts[i];
      AllScoresComplete(attempts[1..], students, selectedQuiz, selectedClass, i - 1);
    }
  }

  /** Without any attempt that enters the statistics there is no score, hence no statistics. */
  lemma {:induction false} AllScoresEmpty(attempts: seq<QuizAttempt>, students: seq<FrontUser>,
                                          selectedQuiz: string, selectedClass: string)
    requires forall i :: 0 <= i < |attempts| ==> !Scored(attempts[i], students, selectedQuiz, selectedClass)
    ensures AllScores(attempts, students, selectedQuiz, selectedClass) == []
  {
    if attempts != [] {
      assert forall i :: 0 <= i < |attempts[1..]| ==> attempts[1..][i] == attempts[i + 1];
      AllScoresEmpty(attempts[1..], students, selectedQuiz, selectedClass);
    }
  }

  /** `reduce((a, b) => a + b, 0)`. */
  function Sum(s: seq<int>): int {
    if s == [] then 0 else Sum(s[..|s| - 1]) + s[|s| - 1]
  }

  /** `Math.max(...s)`. */
  function Highest(s: seq<int>): (r: int)
    requires |s| > 0
    ensures r in s && forall k :: 0 <= k < |s| ==> s[k] <= r
  {
    if |s| == 1 then s[0]
    else
      var m := Highest(s[..|s| - 1]);
      assert forall k :: 0 <= k < |s| - 1 ==> s[..|s| - 1][k] == s[k];
      if s[|s| - 1] > m then s[|s| - 1] else m
  }

  /** `Math.min(...s)`. */
  function Lowest(s: seq<int>): (r: int)
    requires |s| > 0
    ensures r in s && forall k :: 0 <= k < |s| ==> r <= s[k]
  {
    if |s| == 1 then s[0]
    else
      var m := Lowest(s[..|s| - 1]);
      assert forall k :: 0 <= k < |s| - 1 ==> s[..|s| - 1][k] == s[k];
      if s[|s| - 1] < m then s[|s| - 1] else m
  }

  /** The number of scores of at least 50. */
  function PassCount(s: seq<int>): (n: nat)
    ensures n <= |s|
  {
    if s == [] then 0 else PassCount(s[..|s| - 1]) + (if s[|s| - 1] >= 50 then 1 else 0)
  }

  /** Between the lowest and the highest score, `|s|` scores add up to between `|s|` times each. */
  lemma {:induction false} SumBetween(s: seq<int>, lo: int, hi: int)
    requires forall k :: 0 <= k < |s| ==> lo <= s[k] <= hi
    ensures |s| * lo <= Sum(s) <= |s| * hi
  {
    if s != [] {
      var n := |s| - 1;
      assert forall k :: 0 <= k < n ==> s[..n][k] == s[k];
      SumBetween(s[..n], lo, hi);
      assert |s| * lo == n * lo + lo && |s| * hi == n * hi + hi;
    }
  }

  /** A count out of `n` as a rounded percentage lies between 0 and 100, and is exactly 100 or 0
      at the two ends. */
  lemma PercentOfCount(k: nat, n: nat)
    requires 0 < n && k <= n
    ensures 0 <= RoundDiv(100 * k, n) <= 100
    ensures k == n ==> RoundDiv(100 * k, n) == 100
    ensures k == 0 ==> RoundDiv(100 * k, n) == 0
  {
    RoundDivBetween(100 * k, n, 0, 100);
    if k == n {
      assert 100 * k == 100 * n;
      RoundDivExact(100, n);
    }
    if k == 0 {
      RoundDivExact(0, n);
    }
  }

  /** The statistics section: average, highest, lowest, pass rate and number of attempts. */
  datatype Stats = Stats(average: int, highest: int, lowest: int, passRate: int, attempts: nat)

  /** The statistics, emitted only when at least one score passes the filters. */
  function Statistics(scores: seq<int>): (r: Option<Stats>)
    ensures r.Some? <==> |scores| > 0
    ensures r.Some? ==> r.value.attempts == |scores|
    ensures r.Some? ==> r.value.highest in scores && forall k :: 0 <= k < |scores| ==> scores[k] <= r.value.highest
    ensures r.Some? ==> r.value.lowest in scores && forall k :: 0 <= k < |scores| ==> r.value.lowest <= scores[k]
    ensures r.Some? ==> r.value.lowest <= r.value.average <= r.value.highest
    ensures r.Some? ==> 2 * r.value.average * |scores| <= 2 * Sum(scores) + |scores| < 2 * (r.value.average + 1) * |scores|
    ensures r.Some? ==> 0 <= r.value.passRate <= 100
    ensures r.Some? && PassCount(scores) == |scores| ==> r.value.passRate == 100
    ensures r.Some? && PassCount(scores) == 0 ==> r.value.passRate == 0
  {
    if |scores| == 0 then None
    else
      var n := |scores|;
      var hi, lo := Highest(scores), Lowest(scores);
      SumBetween(scores, lo, hi);
      RoundDivBetween(Sum(scores), n, lo, hi);
      var k := PassCount(scores);
      PercentOfCount(k, n);
      Some(Stats(RoundDiv(Sum(scores), n), hi, lo, RoundDiv(100 * k, n), n))
  }

  // ---------------------------------------------------------------- detailed report

  /** The attempts of the quiz the detailed report is about. */
  function QuizAttemptsOf(attempts: seq<QuizAttempt>, quiz: FrontQuiz): (r: seq<QuizAttempt>)
    ensures forall k :: 0 <= k < |r| ==> r[k] in attempts && r[k].quizId == quiz.id
    ensures forall k :: 0 <= k < |attempts| && attempts[k].quizId == quiz.id ==> attempts[k] in r
  {
    Filter(attempts, (a: QuizAttempt) => a.quizId == quiz.id)
  }

  /** A row of the detailed table: student, class, correct answers out of the question count,
      score, date. */
  datatype DetailRow = DetailRow(student: string, className: string, correct: nat, total: nat, score: string, date: string)

  /** The row of one attempt with `correct` correct answers: an unknown student reads "Inconnu"
      and has no class. */
  function DetailRowWith(quiz: FrontQuiz, students: seq<FrontUser>, classes: seq<FrontClass>, a: QuizAttempt, correct: nat): DetailRow {
    var student := FindUser(students, a.studentId);
    var cls := FindClass(classes, if student.Some? then student.value.classId else None);
    DetailRow(OrText(if student.Some? then Some(student.value.name) else None, Some("Inconnu")).value,
              OrText(if cls.Some? then Some(cls.value.name) else None, Some("-")).value,
              correct, |quiz.questions|, ScoreCell(a.score), a.completedAt)
  }

  /** The row of one attempt, counting its correct answers against the quiz's questions. */
  function DetailRowOf(quiz: FrontQuiz, students: seq<FrontUser>, classes: seq<FrontClass>, a: QuizAttempt): (r: DetailRow)
    ensures r.correct <= r.total == |quiz.questions|
  {
    DetailRowWith(quiz, students, classes, a, QuizTaking.CorrectCount(quiz.questions, a.answers))
  }

  /** `exportDetailedResultsToPDF`'s table: one row per attempt at the quiz. */
  method BuildDetailTable(quiz: FrontQuiz, attempts: seq<QuizAttempt>, students: seq<FrontUser>, classes: seq<FrontClass>)
    returns (rows: seq<DetailRow>)
    ensures |rows| == |QuizAttemptsOf(attempts, quiz)|
    ensures forall k :: 0 <= k < |rows| ==> rows[k] == DetailRowOf(quiz, students, classes, QuizAttemptsOf(attempts, quiz)[k])
    ensures forall k :: 0 <= k < |rows| ==> rows[k].correct <= rows[k].total == |quiz.questions|
  {
    rows := BuildDetailRows(quiz, QuizAttemptsOf(attempts, quiz), students, classes);
  }

  /** The `map` over the quiz's attempts, each row counting its correct answers with the same
      loop as the quiz screen. */
  method BuildDetailRows(quiz: FrontQuiz, mine: seq<QuizAttempt>, students: seq<FrontUser>, classes: seq<FrontClass>)
    returns (rows: seq<DetailRow>)
    ensures |rows| == |mine|
    ensures forall k :: 0 <= k < |rows| ==> rows[k] == DetailRowOf(quiz, students, classes, mine[k])
  {
    ghost var rowOf := (a: QuizAttempt) => DetailRowOf(quiz, students, classes, a);
    rows := [];
    var i := 0;
    while i < |mine|
      invariant 0 <= i <= |mine| && |rows| == i
      invariant forall k :: 0 <= k < i ==> rows[k] == rowOf(mine[k])
    {
      var a := mine[i];
      var correct := QuizTaking.CountCorrect(quiz.questions, a.answers);
      var row := DetailRowWith(quiz, students, classes, a, correct);
      assert row == rowOf(mine[i]);
      PointwiseAppend(mine, rows, row, rowOf);
      rows := rows + [row];
      i := i + 1;
    }
  }

  /** The number of attempts whose answer to question `qIndex` is the question's `correctAnswer`. */
  function CorrectFor(attempts: seq<QuizAttempt>, qIndex: nat, q: FrontQuestion): (n: nat)
    ensures n <= |attempts|
  {
    if attempts == [] then 0
    else
      var k := |attempts| - 1;
      CorrectFor(attempts[..k], qIndex, q) + (if QuizTaking.AnswerCorrect(attempts[k].answers, qIndex, q) then 1 else 0)
  }

  /** When every attempt answers the question right, all of them are counted. */
  lemma {:induction false} CorrectForAll(attempts: seq<QuizAttempt>, qIndex: nat, q: FrontQuestion)
    requires forall k :: 0 <= k < |attempts| ==> QuizTaking.AnswerCorrect(attempts[k].answers, qIndex, q)
    ensures CorrectFor(attempts, qIndex, q) == |attempts|
  {
    if attempts != [] {
      var n := |attempts| - 1;
      assert forall k :: 0 <= k < n ==> attempts[..n][k] == attempts[k];
      CorrectForAll(attempts[..n], qIndex, q);
    }
  }

  /** `Math.round((correct / attempts) * 100)`, and 0 without attempts. */
  function SuccessRate(correct: nat, attempts: nat): (r: int)
    requires correct <= attempts
    ensures attempts == 0 ==> r == 0
    ensures 0 <= r <= 100
    ensures attempts > 0 && correct == attempts ==> r == 100
    ensures correct == 0 ==> r == 0
    ensures attempts > 0 ==> 2 * r * attempts <= 200 * correct + attempts < 2 * (r + 1) * attempts
  {
    if attempts > 0 then
      PercentOfCount(correct, attempts);
      RoundDiv(100 * correct, attempts)
    else 0
  }

  /** The per-question section: question number, correct answers, attempts, success rate. */
  datatype QuestionLine = QuestionLine(number: nat, correct: nat, attempts: nat, successRate: int)

  /** The line of question `i` over the attempts of the quiz. */
  function LineOf(quiz: FrontQuiz, mine: seq<QuizAttempt>, i: nat): QuestionLine
    requires i < |quiz.questions|
  {
    var c := CorrectFor(mine, i, quiz.questions[i]);
    QuestionLine(i + 1, c, |mine|, SuccessRate(c, |mine|))
  }

  /** The `forEach` over the questions of `exportDetailedResultsToPDF`. */
  method BuildBreakdown(quiz: FrontQuiz, attempts: seq<QuizAttempt>) returns (lines: seq<QuestionLine>)
    ensures |lines| == |quiz.questions|
    ensures forall i :: 0 <= i < |lines| ==> lines[i] == LineOf(quiz, QuizAttemptsOf(attempts, quiz), i)
    ensures forall i :: 0 <= i < |lines| ==>
              lines[i].number == i + 1 && lines[i].attempts == |QuizAttemptsOf(attempts, quiz)|
              && lines[i].correct <= lines[i].attempts && 0 <= lines[i].successRate <= 100
  {
    var mine := QuizAttemptsOf(attempts, quiz);
    lines := [];
    var i := 0;
    while i < |quiz.questions|
      invariant 0 <= i <= |quiz.questions| && |lines| == i
      invariant forall k :: 0 <= k < i ==> lines[k] == LineOf(quiz, mine, k)
    {
      var c := CorrectFor(mine, i, quiz.questions[i]);
      lines := lines + [QuestionLine(i + 1, c, |mine|, SuccessRate(c, |mine|))];
      i := i + 1;
    }
  }

  // ---------------------------------------------------------------- file names

  /** `s` without its leading white space. */
  function SkipSpaces(s: string): (r: string)
    ensures |r| <= |s|
    ensures r == [] || !IsSpace(r[0])
  {
    if s == [] || !IsSpace(s[0]) then s else SkipSpaces(s[1..])
  }

  /** `s.replace(/\s+/g, '-')`: every maximal run of white space becomes one dash. */
  function DashSpaces(s: string): (r: string)
    ensures |r| <= |s|
    ensures forall k :: 0 <= k < |r| ==> !IsSpace(r[k])
    decreases |s|
  {
    if s == [] then []
    else if IsSpace(s[0]) then "-" + DashSpaces(SkipSpaces(s[1..]))
    else [s[0]] + DashSpaces(s[1..])
  }

  /** A string without white space is left as it is. */
  lemma {:induction false} DashSpacesKeepsPlain(s: string)
    requires forall k :: 0 <= k < |s| ==> !IsSpace(s[k])
    ensures DashSpaces(s) == s
    decreases |s|
  {
    if s != [] {
      assert forall k :: 0 <= k < |s[1..]| ==> s[1..][k] == s[k + 1];
      DashSpacesKeepsPlain(s[1..]);
    }
  }

  /** The title part of the detailed report's file name. */
  function Slug(title: string): (r: string)
    ensures |r| <= |title|
    ensures forall k :: 0 <= k < |r| ==> !IsSpace(r[k]) && !('A' <= r[k] <= 'Z')
  {
    Lower(DashSpaces(title))
  }

  /** Taking the slug of a slug changes nothing. */
  lemma SlugIdempotent(title: string)
    ensures Slug(Slug(title)) == Slug(title)
  {
    var s := Slug(title);
    DashSpacesKeepsPlain(s);
    assert Lower(s) == s;
  }

  /** `resultats-<slug>-<date>.pdf`, the date being the current day in ISO form. */
  function DetailedFileName(title: string, today: string): (r: string)
    ensures |r| >= 15 && r[..10] == "resultats-" && r[|r| - 4..] == ".pdf"
    ensures (forall k :: 0 <= k < |today| ==> !IsSpace(today[k])) ==> forall k :: 0 <= k < |r| ==> !IsSpace(r[k])
  {
    var slug := Slug(title);
    var r := "resultats-" + slug + "-" + today + ".pdf";
    FileNameShape(slug, today, r);
    r
  }

  /** The detailed file name starts with `resultats-`, ends with `.pdf`, and has a space only
      where the date has one. */
  lemma FileNameShape(slug: string, today: string, r: string)
    requires forall k :: 0 <= k < |slug| ==> !IsSpace(slug[k])
    requires r == "resultats-" + slug + "-" + today + ".pdf"
    ensures |r| >= 15 && r[..10] == "resultats-" && r[|r| - 4..] == ".pdf"
    ensures (forall k :: 0 <= k < |today| ==> !IsSpace(today[k])) ==> forall k :: 0 <= k < |r| ==> !IsSpace(r[k])
  {
    var head := "resultats-" + slug + "-";
    assert r == head + (today + ".pdf");
    assert forall k :: 0 <= k < |head| ==> !IsSpace(head[k]);
  }

  /** `resultats-quiz-<date>.pdf`. */
  function SummaryFileName(today: string): (r: string)
    ensures |r| >= 19 && r[..15] == "resultats-quiz-" && r[|r| - 4..] == ".pdf"
  {
    "resultats-quiz-" + today + ".pdf"
  }
}
