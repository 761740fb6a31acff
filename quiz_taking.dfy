/** The student's quiz-taking screen in the legacy client format: one chosen option index per
    question, a countdown, question-by-question navigation and a locally computed score that is
    recorded in the attempt list. */
module QuizTaking {
  import opened Common
  import opened Text
  import opened Front
  import opened QuizContext

  /** `answers[i]`: undefined beyond the end of the array. */
  function AnswerAt(answers: seq<int>, i: nat): Option<int> {
    if i < |answers| then Some(answers[i]) else None
  }

  /** `answers[i] === q.correctAnswer`; two undefined values are equal. */
  predicate AnswerCorrect(answers: seq<int>, i: nat, q: FrontQuestion) {
    AnswerAt(answers, i) == q.correctAnswer
  }

  /** The number of questions whose recorded answer is the question's `correctAnswer`. */
  function CorrectCount(questions: seq<FrontQuestion>, answers: seq<int>): (c: nat)
    ensures c <= |questions|
  {
    if questions == [] then 0
    else
      var k := |questions| - 1;
      CorrectCount(questions[..k], answers) + (if AnswerCorrect(answers, k, questions[k]) then 1 else 0)
  }

  /** The counting `forEach` of `finishQuiz` (and of the report's "correct answers" column). */
  method CountCorrect(questions: seq<FrontQuestion>, answers: seq<int>) returns (c: nat)
    ensures c == CorrectCount(questions, answers)
  {
    c := 0;
    var i := 0;
    while i < |questions|
      invariant 0 <= i <= |questions|
      invariant c == CorrectCount(questions[..i], answers)
    {
      assert questions[..i + 1][..i] == questions[..i];
      if AnswerAt(answers, i) == questions[i].correctAnswer {
        c := c + 1;
      }
      i := i + 1;
    }
    assert questions[..i] == questions;
  }

  /** Every answer matches exactly when it equals its question's `correctAnswer`. */
  lemma {:induction false} AllCorrect(questions: seq<FrontQuestion>, answers: seq<int>)
    ensures CorrectCount(questions, answers) == |questions|
            <==> forall i :: 0 <= i < |questions| ==> AnswerCorrect(answers, i, questions[i])
  {
    if questions != [] {
      var k := |questions| - 1;
      AllCorrect(questions[..k], answers);
      assert forall i :: 0 <= i < k ==> questions[..k][i] == questions[i];
    }
  }

  /** Quizzes mapped from the server carry no `correctAnswer`, so once the answer array covers
      every question nothing ever counts as correct. */
  lemma {:induction false} MappedQuizNeverCorrect(questions: seq<FrontQuestion>, answers: seq<int>)
    requires forall i :: 0 <= i < |questions| ==> questions[i].correctAnswer == None
    requires |answers| >= |questions|
    ensures CorrectCount(questions, answers) == 0
  {
    if questions != [] {
      var k := |questions| - 1;
      MappedQuizNeverCorrect(questions[..k], answers);
      assert AnswerAt(answers, k).Some?;
    }
  }

  /** `Math.round((correct / n) * 100)`: `NaN` for a quiz without questions. */
  function LegacyScore(correct: nat, n: nat): (s: ScoreValue)
    ensures n == 0 <==> s == NotANumber
    ensures n > 0 && correct <= n ==> s.Points? && 0 <= s.value <= 100
    ensures n > 0 && correct == n ==> s == Points(100)
    ensures n > 0 && correct == 0 ==> s == Points(0)
  {
    if n == 0 then NotANumber
    else
      PercentBounds(correct, n);
      RoundDivExact(100, n);
      RoundDivExact(0, n);
      Points(RoundDiv(100 * correct, n))
  }

  /** A share of at most the whole rounds to a percentage between 0 and 100. */
  lemma PercentBounds(correct: nat, n: nat)
    requires n > 0
    ensures correct <= n ==> 0 <= RoundDiv(100 * correct, n) <= 100
  {
    if correct <= n {
      RoundDivBetween(100 * correct, n, 0, 100);
    }
  }

  /** More correct answers never give a lower score. */
  lemma LegacyScoreMonotone(c1: nat, c2: nat, n: nat)
    requires n > 0 && c1 <= c2
    ensures LegacyScore(c1, n).value <= LegacyScore(c2, n).value
  {
    RoundDivMonotone(100 * c1, 100 * c2, n);
  }

  /** The attempt `finishQuiz` records for the given answers. */
  function AttemptFor(quiz: FrontQuiz, user: FrontUser, answers: seq<int>, stamp: nat, now: string): QuizAttempt {
    QuizAttempt("attempt-" + NatToString(stamp), quiz.id, user.id, answers, now,
                LegacyScore(CorrectCount(quiz.questions, answers), |quiz.questions|))
  }

  /** With no answer recorded, every question without a `correctAnswer` counts as correct, since
      `undefined === undefined`; a quiz mapped from the server therefore scores 100. */
  lemma {:induction false} NoAnswersMappedQuizScoresFull(quiz: FrontQuiz, user: FrontUser, stamp: nat, now: string)
    requires |quiz.questions| > 0
    requires forall i :: 0 <= i < |quiz.questions| ==> quiz.questions[i].correctAnswer == None
    ensures AttemptFor(quiz, user, [], stamp, now).score == Points(100)
  {
    AllCorrect(quiz.questions, []);
    assert forall i :: 0 <= i < |quiz.questions| ==> AnswerAt([], i) == None;
  }

  /** The countdown the loading effect sets: `timeLimit * 60`, `NaN` (`None`) without a limit. */
  function LoadedTime(quiz: FrontQuiz): (t: Option<int>)
    ensures t.Some? <==> quiz.timeLimit.Some?
    ensures t.Some? ==> t.value == 60 * quiz.timeLimit.value
  {
    if quiz.timeLimit.Some? then Some(quiz.timeLimit.value * 60) else None
  }

  /** The screen mounted with its quiz present in the context and a user finishes the quiz in
      the first commit: the attempt is recorded with no answers and the screen is marked
      finished. */
  method OpenFinishesAtOnce(quiz: FrontQuiz, user: FrontUser, log: AttemptLog, stamp: nat, now: string)
    returns (session: QuizSession)
    modifies log
    ensures session.isFinished && session.log == log
    ensures log.attempts == old(log.attempts) + [AttemptFor(quiz, user, [], stamp, now)]
  {
    session := new QuizSession(Some(quiz), Some(user), log);
    session.FirstCommit(stamp, now);
  }

  /** With the timer test reading the loaded time, a quiz with a positive time limit starts its
      countdown at `timeLimit * 60` and records nothing. */
  method OpenStartsCountdown(quiz: FrontQuiz, user: FrontUser, log: AttemptLog, stamp: nat, now: string)
    returns (session: QuizSession)
    requires quiz.timeLimit.Some? && quiz.timeLimit.value > 0
    modifies log
    ensures !session.isFinished && session.log == log && log.attempts == old(log.attempts)
    ensures session.timeLeft == Some(60 * quiz.timeLimit.value) && session.answers == Unanswered(|quiz.questions|)
  {
    session := new QuizSession(Some(quiz), Some(user), log);
    session.FirstCommitIntended(stamp, now);
  }

  /** `new Array(n).fill(-1)`. */
  function Unanswered(n: nat): (r: seq<int>)
    ensures |r| == n && forall i :: 0 <= i < n ==> r[i] == -1
  {
    seq(n, _ => -1)
  }

  /** `formatTime`: minutes and seconds, each padded to two digits, separated by a colon. */
  function FormatTime(seconds: nat): (r: string)
    ensures |r| >= 5 && r[|r| - 3] == ':'
    ensures IsDigits(r[..|r| - 3]) && IsDigits(r[|r| - 2..])
  {
    var m, s := PadStart2(NatToString(seconds / 60)), PadStart2(NatToString(seconds % 60));
    PadKeepsDigits(NatToString(seconds / 60));
    PadKeepsDigits(NatToString(seconds % 60));
    var r := m + ":" + s;
    assert r[..|r| - 3] == m && r[|r| - 2..] == s;
    r
  }

  /** Padding a digit string with zeros keeps it a digit string of the same value. */
  lemma PadKeepsDigits(s: string)
    requires IsDigits(s)
    ensures IsDigits(PadStart2(s)) && DigitsValue(PadStart2(s)) == DigitsValue(s)
  {
    if |s| == 1 {
      LeadingZero(s);
    } else if |s| == 0 {
      assert "00"[..1] == "0" && "0"[..0] == "";
    }
  }

  /** Reading an `mm:ss` display back: the minutes before the colon, the seconds after it. */
  function ParseTime(r: string): nat
    requires |r| >= 5 && r[|r| - 3] == ':' && IsDigits(r[..|r| - 3]) && IsDigits(r[|r| - 2..])
  {
    DigitsValue(r[..|r| - 3]) * 60 + DigitsValue(r[|r| - 2..])
  }

  /** The redirect effect: the student has already recorded an attempt at this quiz. */
  function HasCompleted(attempts: seq<QuizAttempt>, studentId: string, quizId: string): (r: bool)
    ensures r <==> exists i :: 0 <= i < |attempts| && attempts[i].studentId == studentId && attempts[i].quizId == quizId
  {
    var mine := AttemptsByStudent(attempts, studentId);
    if exists j :: 0 <= j < |mine| && mine[j].quizId == quizId then
      var j :| 0 <= j < |mine| && mine[j].quizId == quizId;
      assert mine[j] in attempts;
      true
    else
      assert forall i :: 0 <= i < |attempts| && attempts[i].studentId == studentId ==> attempts[i] in mine;
      false
  }

  /** Once an attempt is recorded, reopening the quiz redirects the student away. */
  lemma RecordedAttemptCompletes(attempts: seq<QuizAttempt>, a: QuizAttempt)
    ensures HasCompleted(attempts + [a], a.studentId, a.quizId)
  {
    assert (attempts + [a])[|attempts|] == a;
  }

  /** The display reads back as the number of seconds it was made from, and its seconds field is
      always below 60 in two digits. */
  lemma FormatTimeRoundTrip(seconds: nat)
    ensures ParseTime(FormatTime(seconds)) == seconds
    ensures DigitsValue(FormatTime(seconds)[|FormatTime(seconds)| - 2..]) < 60
  {
    var m, s := PadStart2(NatToString(seconds / 60)), PadStart2(NatToString(seconds % 60));
    PadKeepsDigits(NatToString(seconds / 60));
    PadKeepsDigits(NatToString(seconds % 60));
    var r := FormatTime(seconds);
    assert r == m + ":" + s;
    assert r[..|r| - 3] == m && r[|r| - 2..] == s;
  }

  /** The state of the quiz-taking screen. `timeLeft` is `None` when it is `NaN`, which happens
      when the quiz has no legacy `timeLimit`. */
  class QuizSession {
    const quiz: Option<FrontQuiz>
    const user: Option<FrontUser>
    const log: AttemptLog
    var currentQuestion: nat
    var answers: seq<int>
    var selectedAnswer: Option<int>
    var timeLeft: Option<int>
    var isFinished: bool

    /** The screen for `quiz` (absent when the id is unknown) and `user`, before its effects run. */
    constructor(quiz: Option<FrontQuiz>, user: Option<FrontUser>, log: AttemptLog)
      ensures this.quiz == quiz && this.user == user && this.log == log
      ensures currentQuestion == 0 && answers == [] && selectedAnswer == None && timeLeft == Some(0) && !isFinished
    {
      this.quiz, this.user, this.log := quiz, user, log;
      currentQuestion, answers, selectedAnswer, timeLeft, isFinished := 0, [], None, Some(0), false;
    }

    /** The screen is showing a question that can be answered. */
    predicate Ready()
      reads this
    {
      quiz.Some? && user.Some? && !isFinished && |quiz.value.questions| > 0
      && currentQuestion < |quiz.value.questions| && |answers| == |quiz.value.questions|
    }

    /** The loading effect: `timeLimit * 60` seconds and an unanswered mark, -1, per question. */
    method Load()
      modifies this
      ensures quiz.Some? ==> answers == Unanswered(|quiz.value.questions|)
                             && timeLeft == (if quiz.value.timeLimit.Some? then Some(quiz.value.timeLimit.value * 60) else None)
      ensures quiz.None? ==> answers == old(answers) && timeLeft == old(timeLeft)
      ensures currentQuestion == old(currentQuestion) && selectedAnswer == old(selectedAnswer) && isFinished == old(isFinished)
    {
      if quiz.Some? {
        timeLeft := if quiz.value.timeLimit.Some? then Some(quiz.value.timeLimit.value * 60) else None;
        answers := Unanswered(|quiz.value.questions|);
      }
    }

    /** The effects of the commit in which `quiz` is first defined, in source order. Both read the
        values of that render: the loading effect only queues its updates, so the timer effect
        still sees the earlier `timeLeft` and `answers`, and when that time is at or below zero
        it finishes the quiz with those answers. */
    method FirstCommit(stamp: nat, now: string)
      modifies this, log
      ensures var due := old(timeLeft).Some? && old(timeLeft).value <= 0 && quiz.Some? && !old(isFinished) && user.Some?;
              && (due ==> isFinished && log.attempts == old(log.attempts) + [AttemptFor(quiz.value, user.value, old(answers), stamp, now)])
              && (!due ==> isFinished == old(isFinished) && log.attempts == old(log.attempts))
      ensures quiz.Some? ==> answers == Unanswered(|quiz.value.questions|) && timeLeft == LoadedTime(quiz.value)
      ensures quiz.None? ==> answers == old(answers) && timeLeft == old(timeLeft)
      ensures currentQuestion == old(currentQuestion) && selectedAnswer == old(selectedAnswer)
    {
      if timeLeft.Some? && timeLeft.value <= 0 && quiz.Some? && !isFinished {
        FinishQuiz(stamp, now);
      }
      Load();
    }

    /** The same commit as evidently intended: the timer test reads the time the loading effect
        sets, so the quiz finishes at once only when that time is not positive. */
    method FirstCommitIntended(stamp: nat, now: string)
      modifies this, log
      ensures quiz.Some? ==> answers == Unanswered(|quiz.value.questions|) && timeLeft == LoadedTime(quiz.value)
      ensures quiz.None? ==> answers == old(answers) && timeLeft == old(timeLeft)
      ensures var due := timeLeft.Some? && timeLeft.value <= 0 && quiz.Some? && !old(isFinished) && user.Some?;
              && (due ==> isFinished && log.attempts == old(log.attempts) + [AttemptFor(quiz.value, user.value, answers, stamp, now)])
              && (!due ==> isFinished == old(isFinished) && log.attempts == old(log.attempts))
      ensures currentQuestion == old(currentQuestion) && selectedAnswer == old(selectedAnswer)
    {
      Load();
      if timeLeft.Some? && timeLeft.value <= 0 && quiz.Some? && !isFinished {
        FinishQuiz(stamp, now);
      }
    }

    /** `finishQuiz`: without a quiz or a user, or once finished, nothing happens; otherwise the
        attempt with the recorded answers and their score is appended and the screen finishes. */
    method FinishQuiz(stamp: nat, now: string)
      modifies this, log
      ensures quiz.None? || user.None? || old(isFinished) ==>
                log.attempts == old(log.attempts) && isFinished == old(isFinished)
      ensures !(quiz.None? || user.None? || old(isFinished)) ==>
                log.attempts == old(log.attempts) + [AttemptFor(quiz.value, user.value, answers, stamp, now)] && isFinished
      ensures currentQuestion == old(currentQuestion) && answers == old(answers)
      ensures selectedAnswer == old(selectedAnswer) && timeLeft == old(timeLeft)
    {
      if quiz.None? || user.None? || isFinished {
        return;
      }
      var correct := CountCorrect(quiz.value.questions, answers);
      var score := LegacyScore(correct, |quiz.value.questions|);
      log.AddAttempt(QuizAttempt("attempt-" + NatToString(stamp), quiz.value.id, user.value.id, answers, now, score));
      isFinished := true;
    }

    /** One step of the countdown: at or below zero on an unfinished quiz the quiz is finished,
        otherwise a second passes (`NaN` stays `NaN`, and no comparison with it holds). */
    method Tick(stamp: nat, now: string)
      modifies this, log
      ensures var due := old(timeLeft).Some? && old(timeLeft).value <= 0 && quiz.Some? && !old(isFinished);
              (due ==> timeLeft == old(timeLeft) && (user.Some? ==> isFinished)
                       && log.attempts == old(log.attempts) + (if user.Some? then [AttemptFor(quiz.value, user.value, answers, stamp, now)] else []))
              && (!due ==> timeLeft == (if old(timeLeft).Some? then Some(old(timeLeft).value - 1) else None)
                           && log.attempts == old(log.attempts) && isFinished == old(isFinished))
      ensures currentQuestion == old(currentQuestion) && answers == old(answers) && selectedAnswer == old(selectedAnswer)
    {
      if timeLeft.Some? && timeLeft.value <= 0 && quiz.Some? && !isFinished {
        FinishQuiz(stamp, now);
      } else {
        timeLeft := if timeLeft.Some? then Some(timeLeft.value - 1) else None;
      }
    }

    /** `handleSelectAnswer`: the pending selection. */
    method SelectAnswer(index: int)
      modifies this
      ensures selectedAnswer == Some(index)
      ensures currentQuestion == old(currentQuestion) && answers == old(answers)
      ensures timeLeft == old(timeLeft) && isFinished == old(isFinished)
    {
      selectedAnswer := Some(index);
    }

    /** `handleNextQuestion`: the pending selection is stored at the current question; then the
        cursor moves on, picking up the answer already recorded there, or, on the last question,
        the quiz is scored with the stored answers and exactly one attempt is recorded. */
    method NextQuestion(stamp: nat, now: string)
      requires Ready()
      modifies this, log
      ensures var stored := if old(selectedAnswer).Some? then old(answers)[old(currentQuestion) := old(selectedAnswer).value]
                            else old(answers);
              answers == stored
              && (old(currentQuestion) < |quiz.value.questions| - 1 ==>
                    currentQuestion == old(currentQuestion) + 1 && Ready()
                    && selectedAnswer == (if old(answers)[currentQuestion] != -1 then Some(old(answers)[currentQuestion]) else None)
                    && log.attempts == old(log.attempts))
              && (old(currentQuestion) == |quiz.value.questions| - 1 ==>
                    currentQuestion == old(currentQuestion) && isFinished
                    && log.attempts == old(log.attempts) + [AttemptFor(quiz.value, user.value, stored, stamp, now)])
      ensures timeLeft == old(timeLeft)
    {
      var stored := answers;
      if selectedAnswer.Some? {
        stored := stored[currentQuestion := selectedAnswer.value];
      }
      var previous := answers;
      answers := stored;
      var n := |quiz.value.questions|;
      if currentQuestion < n - 1 {
        currentQuestion := currentQuestion + 1;
        selectedAnswer := if previous[currentQuestion] != -1 then Some(previous[currentQuestion]) else None;
      } else {
        var correct := CountCorrect(quiz.value.questions, stored);
        var score := LegacyScore(correct, n);
        log.AddAttempt(QuizAttempt("attempt-" + NatToString(stamp), quiz.value.id, user.value.id, stored, now, score));
        isFinished := true;
      }
    }

    /** A click on the indicator of question `index`: the pending selection is stored and the
        cursor jumps there, picking up the answer already recorded. */
    method GoToQuestion(index: nat)
      requires Ready() && index < |quiz.value.questions|
      modifies this
      ensures answers == if old(selectedAnswer).Some? then old(answers)[old(currentQuestion) := old(selectedAnswer).value]
                         else old(answers)
      ensures currentQuestion == index
      ensures selectedAnswer == (if old(answers)[index] != -1 then Some(old(answers)[index]) else None)
      ensures Ready() && timeLeft == old(timeLeft)
    {
      var previous := answers;
      if selectedAnswer.Some? {
        answers := answers[currentQuestion := selectedAnswer.value];
      }
      currentQuestion := index;
      selectedAnswer := if previous[index] != -1 then Some(previous[index]) else None;
    }

    /** `handlePrevQuestion`: the pending selection is stored, and the cursor moves back unless it
        is on the first question. */
    method PrevQuestion()
      requires Ready()
      modifies this
      ensures answers == if old(selectedAnswer).Some? then old(answers)[old(currentQuestion) := old(selectedAnswer).value]
                         else old(answers)
      ensures old(currentQuestion) == 0 ==> currentQuestion == 0 && selectedAnswer == old(selectedAnswer)
      ensures old(currentQuestion) > 0 ==>
                currentQuestion == old(currentQuestion) - 1
                && selectedAnswer == (if old(answers)[currentQuestion] != -1 then Some(old(answers)[currentQuestion]) else None)
      ensures Ready() && timeLeft == old(timeLeft)
    {
      var previous := answers;
      if selectedAnswer.Some? {
        answers := answers[currentQuestion := selectedAnswer.value];
      }
      if currentQuestion > 0 {
        currentQuestion := currentQuestion - 1;
        selectedAnswer := if previous[currentQuestion] != -1 then Some(previous[currentQuestion]) else None;
      }
    }
  }
}
