/** How a submitted attempt is scored: a question counts when the options the student selected
    pass the controller's three counts (as many selected entries as correct options, every
    selected entry correct), and the score is the percentage of the quiz's questions that count,
    rounded to two decimals. The intended test, an exact match of the selected set, is kept
    beside it for comparison. */
module Scoring {
  import opened Common
  import opened Schema

  /** Ids of the questions that belong to a quiz (`$quiz->questions`). */
  function QuestionsOf(questions: map<Id, QuestionRow>, quizId: Id): set<Id> {
    set q | q in questions && questions[q].quizId == quizId
  }

  /** Ids of the options of a question whose `is_correct` flag is set. */
  function CorrectOptionIds(options: map<Id, OptionRow>, questionId: Id): set<Id> {
    set o | o in options && options[o].questionId == questionId && options[o].isCorrect
  }

  /** The `option_id`s of the answer rows a submission holds for one question, in row order. */
  function Selected(rows: seq<AnswerRow>, submissionId: Id, questionId: Id): seq<Id> {
    if rows == [] then []
    else
      (if rows[0].submissionId == submissionId && rows[0].questionId == questionId
       then [rows[0].optionId] else [])
      + Selected(rows[1..], submissionId, questionId)
  }

  /** Selection distributes over concatenation of answer lists. */
  lemma {:induction false} SelectedConcat(a: seq<AnswerRow>, b: seq<AnswerRow>, submissionId: Id, questionId: Id)
    ensures Selected(a + b, submissionId, questionId)
         == Selected(a, submissionId, questionId) + Selected(b, submissionId, questionId)
  {
    if a == [] {
      assert a + b == b;
    } else {
      assert (a + b)[1..] == a[1..] + b;
      SelectedConcat(a[1..], b, submissionId, questionId);
    }
  }

  /** Rows of other submissions, or of other questions, select nothing. */
  lemma {:induction false} SelectedNone(rows: seq<AnswerRow>, submissionId: Id, questionId: Id)
    requires forall i :: 0 <= i < |rows| ==> rows[i].submissionId != submissionId || rows[i].questionId != questionId
    ensures Selected(rows, submissionId, questionId) == []
  {
    if rows != [] {
      SelectedNone(rows[1..], submissionId, questionId);
    }
  }

  /** `count(array_intersect($selected, $correct))`: entries of `sel` that are correct, duplicates included. */
  function CountIn(sel: seq<Id>, correct: set<Id>): nat {
    if sel == [] then 0 else (if sel[0] in correct then 1 else 0) + CountIn(sel[1..], correct)
  }

  /** `count(array_diff($selected, $correct))`: entries of `sel` that are not correct. */
  function CountNotIn(sel: seq<Id>, correct: set<Id>): nat {
    if sel == [] then 0 else (if sel[0] in correct then 0 else 1) + CountNotIn(sel[1..], correct)
  }

  /** Every entry of `sel` is either correct or not. */
  lemma {:induction false} CountSplit(sel: seq<Id>, correct: set<Id>)
    ensures CountIn(sel, correct) + CountNotIn(sel, correct) == |sel|
    ensures CountNotIn(sel, correct) == 0 <==> forall i :: 0 <= i < |sel| ==> sel[i] in correct
  {
    if sel != [] {
      CountSplit(sel[1..], correct);
      assert forall i :: 1 <= i < |sel| ==> sel[i] == sel[1..][i - 1];
    }
  }

  /** The per-question test as the controller writes it: both lists non-empty, every selected
      entry correct, and as many selected entries as correct options. */
  predicate MatchesAsWritten(sel: seq<Id>, correct: set<Id>): (b: bool)
    ensures b ==> correct != {} && |sel| == |correct| && Elems(sel) <= correct
  {
    CountSplit(sel, correct);
    |correct| > 0 && |sel| > 0
    && CountIn(sel, correct) == |correct|
    && CountNotIn(sel, correct) == 0
    && |sel| == |correct|
  }

  /** The per-question test as intended: at least one option is correct, and the set of selected
      options is exactly the set of correct ones. */
  predicate Matches(sel: seq<Id>, correct: set<Id>) {
    correct != {} && Elems(sel) == correct
  }

  /** Selecting the same option twice passes the written test for a question with two correct
      options, although the second correct option was never selected. */
  lemma DuplicateAnswerAccepted()
    ensures MatchesAsWritten([1, 1], {1, 2})
    ensures !Matches([1, 1], {1, 2})
  {
    var sel: seq<Id> := [1, 1];
    assert CountIn(sel, {1, 2}) == 2 by {
      assert sel[1..] == [1];
    }
    assert CountNotIn(sel, {1, 2}) == 0 by {
      assert sel[1..] == [1];
    }
    assert Elems(sel) == {1};
  }

  /** Selecting a correct option twice fails the written test although the selected set is exact. */
  lemma DuplicateAnswerRejected()
    ensures !MatchesAsWritten([1, 2, 2], {1, 2})
    ensures Matches([1, 2, 2], {1, 2})
  {
    var sel: seq<Id> := [1, 2, 2];
    assert Elems(sel) == {1, 2};
  }

  lemma {:induction false} DistinctSetSize(s: seq<Id>)
    requires NoDuplicates(s)
    ensures |Elems(s)| == |s|
  {
    if s != [] {
      var rest := s[1..];
      assert NoDuplicates(rest) by {
        forall i, j | 0 <= i < j < |rest| ensures rest[i] != rest[j] {
          assert rest[i] == s[i + 1] && rest[j] == s[j + 1];
        }
      }
      DistinctSetSize(rest);
      var t := Elems(rest);
      assert s[0] !in t by {
        forall i | 0 <= i < |rest| ensures rest[i] != s[0] {
          assert rest[i] == s[i + 1];
        }
      }
      assert s == [s[0]] + rest;
      assert Elems(s) == t + {s[0]};
    }
  }

  lemma SubsetSameSize(a: set<Id>, b: set<Id>)
    requires a <= b && |a| == |b|
    ensures a == b
  {
    assert b == a + (b - a);
    assert |b - a| == 0;
  }

  /** When no option is selected twice, the written test and the intended test agree. */
  lemma MatchesAsWrittenWhenDistinct(sel: seq<Id>, correct: set<Id>)
    requires NoDuplicates(sel)
    ensures MatchesAsWritten(sel, correct) <==> Matches(sel, correct)
  {
    CountSplit(sel, correct);
    DistinctSetSize(sel);
    var chosen := Elems(sel);
    if MatchesAsWritten(sel, correct) {
      assert chosen <= correct;
      SubsetSameSize(chosen, correct);
    }
    if Matches(sel, correct) {
      assert forall i :: 0 <= i < |sel| ==> sel[i] in chosen;
    }
  }

  /** Which per-question test a score is computed with: the controller's three counts, or the
      intended exact set match. */
  datatype Test = AsWritten | Intended

  predicate Passes(t: Test, sel: seq<Id>, correct: set<Id>) {
    match t
    case AsWritten => MatchesAsWritten(sel, correct)
    case Intended => Matches(sel, correct)
  }

  /** The submission's answer rows for question `q` pass test `t`. */
  predicate AnsweredCorrectly(t: Test, options: map<Id, OptionRow>, rows: seq<AnswerRow>, submissionId: Id, q: Id) {
    Passes(t, Selected(rows, submissionId, q), CorrectOptionIds(options, q))
  }

  /** The questions among `qs` that the submission answers correctly. */
  function CorrectAmong(t: Test, qs: set<Id>, options: map<Id, OptionRow>, rows: seq<AnswerRow>, submissionId: Id): set<Id> {
    set q | q in qs && AnsweredCorrectly(t, options, rows, submissionId, q)
  }

  /** The quiz's questions that the submission answers correctly. */
  function CorrectQuestions(t: Test, questions: map<Id, QuestionRow>, options: map<Id, OptionRow>, quizId: Id,
                            rows: seq<AnswerRow>, submissionId: Id): set<Id>
  {
    CorrectAmong(t, QuestionsOf(questions, quizId), options, rows, submissionId)
  }

  /** `round($correct / $total * 100, 2)` in hundredths, and 0 for a quiz without questions. */
  function Percentage(correct: nat, total: nat): (p: Hundredths)
    requires correct <= total
    ensures 0 <= p <= 10000
    ensures correct == 0 ==> p == 0
    ensures total > 0 && correct == total ==> p == 10000
    ensures total > 0 ==> 2 * p * total <= 20000 * correct + total < 2 * (p + 1) * total
  {
    if total > 0 then
      assert 0 * total <= 10000 * correct <= 10000 * total;
      RoundDivBetween(10000 * correct, total, 0, 10000);
      assert correct == total ==> RoundDiv(10000 * correct, total) == 10000 by {
        if correct == total { RoundDivExact(10000, total); }
      }
      assert correct == 0 ==> RoundDiv(10000 * correct, total) == 0 by {
        if correct == 0 { RoundDivExact(0, total); }
      }
      RoundDiv(10000 * correct, total)
    else 0
  }

  /** More correct answers never lower the percentage. */
  lemma PercentageMonotone(c1: nat, c2: nat, total: nat)
    requires c1 <= c2 <= total
    ensures Percentage(c1, total) <= Percentage(c2, total)
  {
    if total > 0 {
      RoundDivMonotone(10000 * c1, 10000 * c2, total);
    }
  }

  lemma SubsetCard(a: set<Id>, b: set<Id>)
    requires a <= b
    ensures |a| <= |b|
  {
    assert b == a + (b - a);
  }

  /** The score of a submission's answer rows for a quiz under test `t`. */
  function Score(t: Test, questions: map<Id, QuestionRow>, options: map<Id, OptionRow>, quizId: Id,
                 rows: seq<AnswerRow>, submissionId: Id): (p: Hundredths)
    ensures 0 <= p <= 10000
    ensures CorrectQuestions(t, questions, options, quizId, rows, submissionId) == {} ==> p == 0
    ensures QuestionsOf(questions, quizId) != {}
            && CorrectQuestions(t, questions, options, quizId, rows, submissionId) == QuestionsOf(questions, quizId)
            ==> p == 10000
  {
    var c := CorrectQuestions(t, questions, options, quizId, rows, submissionId);
    SubsetCard(c, QuestionsOf(questions, quizId));
    Percentage(|c|, |QuestionsOf(questions, quizId)|)
  }

  /** A score always fits the `decimal(5,2)` column. */
  lemma ScoreFitsColumn(t: Test, questions: map<Id, QuestionRow>, options: map<Id, OptionRow>, quizId: Id,
                        rows: seq<AnswerRow>, submissionId: Id)
    ensures -MaxStoredScore <= Score(t, questions, options, quizId, rows, submissionId) <= MaxStoredScore
  {
  }

  /** Answer rows naming questions outside the quiz, or rows of other submissions, never change
      the score. */
  lemma ForeignAnswersIgnored(t: Test, questions: map<Id, QuestionRow>, options: map<Id, OptionRow>, quizId: Id,
                              rows: seq<AnswerRow>, extra: seq<AnswerRow>, submissionId: Id)
    requires forall i :: 0 <= i < |extra| ==>
               extra[i].submissionId != submissionId || extra[i].questionId !in QuestionsOf(questions, quizId)
    ensures Score(t, questions, options, quizId, rows + extra, submissionId)
         == Score(t, questions, options, quizId, rows, submissionId)
  {
    forall q | q in QuestionsOf(questions, quizId)
      ensures Selected(rows + extra, submissionId, q) == Selected(rows, submissionId, q)
    {
      SelectedConcat(rows, extra, submissionId, q);
      SelectedNone(extra, submissionId, q);
    }
    assert CorrectQuestions(t, questions, options, quizId, rows + extra, submissionId)
        == CorrectQuestions(t, questions, options, quizId, rows, submissionId);
  }

  /** The score depends on the answer rows only through what they select for each question. */
  lemma ScoreDependsOnSelection(t: Test, questions: map<Id, QuestionRow>, options: map<Id, OptionRow>, quizId: Id,
                                rows1: seq<AnswerRow>, rows2: seq<AnswerRow>, submissionId: Id)
    requires forall q :: Selected(rows1, submissionId, q) == Selected(rows2, submissionId, q)
    ensures Score(t, questions, options, quizId, rows1, submissionId)
         == Score(t, questions, options, quizId, rows2, submissionId)
  {
    assert CorrectQuestions(t, questions, options, quizId, rows1, submissionId)
        == CorrectQuestions(t, questions, options, quizId, rows2, submissionId);
  }

  /** Answering one more question correctly, without touching the others, never lowers the score. */
  lemma MoreCorrectNeverLower(t: Test, questions: map<Id, QuestionRow>, options: map<Id, OptionRow>, quizId: Id,
                              rows1: seq<AnswerRow>, rows2: seq<AnswerRow>, submissionId: Id)
    requires CorrectQuestions(t, questions, options, quizId, rows1, submissionId)
          <= CorrectQuestions(t, questions, options, quizId, rows2, submissionId)
    ensures Score(t, questions, options, quizId, rows1, submissionId)
         <= Score(t, questions, options, quizId, rows2, submissionId)
  {
    var c1 := CorrectQuestions(t, questions, options, quizId, rows1, submissionId);
    var c2 := CorrectQuestions(t, questions, options, quizId, rows2, submissionId);
    SubsetCard(c1, c2);
    SubsetCard(c2, QuestionsOf(questions, quizId));
    PercentageMonotone(|c1|, |c2|, |QuestionsOf(questions, quizId)|);
  }

  /** Visiting one more question adds it to the correctly answered ones exactly when it is answered
      correctly. */
  lemma CorrectAmongStep(t: Test, visited: set<Id>, q: Id, options: map<Id, OptionRow>, rows: seq<AnswerRow>, submissionId: Id)
    requires q !in visited
    ensures AnsweredCorrectly(t, options, rows, submissionId, q) ==>
              |CorrectAmong(t, visited + {q}, options, rows, submissionId)| == |CorrectAmong(t, visited, options, rows, submissionId)| + 1
    ensures !AnsweredCorrectly(t, options, rows, submissionId, q) ==>
              CorrectAmong(t, visited + {q}, options, rows, submissionId) == CorrectAmong(t, visited, options, rows, submissionId)
  {
    var before := CorrectAmong(t, visited, options, rows, submissionId);
    if AnsweredCorrectly(t, options, rows, submissionId, q) {
      assert CorrectAmong(t, visited + {q}, options, rows, submissionId) == before + {q};
    }
  }

  /** The scoring loop of `submitQuiz`: visits the quiz's questions one at a time and counts
      those whose selected options pass the three counts of the controller. */
  method CountCorrectAnswers(questions: map<Id, QuestionRow>, options: map<Id, OptionRow>, quizId: Id,
                             rows: seq<AnswerRow>, submissionId: Id)
    returns (correctAnswers: nat)
    ensures correctAnswers == |CorrectQuestions(AsWritten, questions, options, quizId, rows, submissionId)|
  {
    var remaining := QuestionsOf(questions, quizId);
    ghost var visited: set<Id> := {};
    correctAnswers := 0;
    while remaining != {}
      invariant remaining + visited == QuestionsOf(questions, quizId)
      invariant remaining !! visited
      invariant correctAnswers == |CorrectAmong(AsWritten, visited, options, rows, submissionId)|
      decreases |remaining|
    {
      var question :| question in remaining;
      var correctOptions := CorrectOptionIds(options, question);
      var studentAnswers := Selected(rows, submissionId, question);
      var counts := false;
      if correctOptions != {} && studentAnswers != [] {
        var selectedCorrect := CountIn(studentAnswers, correctOptions);
        var selectedIncorrect := CountNotIn(studentAnswers, correctOptions);
        counts := selectedCorrect == |correctOptions| && selectedIncorrect == 0
                  && |studentAnswers| == |correctOptions|;
      }
      assert counts <==> AnsweredCorrectly(AsWritten, options, rows, submissionId, question);
      CorrectAmongStep(AsWritten, visited, question, options, rows, submissionId);
      if counts {
        correctAnswers := correctAnswers + 1;
      }
      remaining := remaining - {question};
      visited := visited + {question};
    }
    assert visited == QuestionsOf(questions, quizId);
  }

  /** When no question's answer rows repeat an option, the score the controller stores equals the
      score of the intended exact-match test. */
  lemma ScoreWhenDistinct(questions: map<Id, QuestionRow>, options: map<Id, OptionRow>, quizId: Id,
                          rows: seq<AnswerRow>, submissionId: Id)
    requires forall q :: q in QuestionsOf(questions, quizId) ==> NoDuplicates(Selected(rows, submissionId, q))
    ensures Score(AsWritten, questions, options, quizId, rows, submissionId)
         == Score(Intended, questions, options, quizId, rows, submissionId)
  {
    forall q | q in QuestionsOf(questions, quizId)
      ensures AnsweredCorrectly(AsWritten, options, rows, submissionId, q)
          <==> AnsweredCorrectly(Intended, options, rows, submissionId, q)
    {
      MatchesAsWrittenWhenDistinct(Selected(rows, submissionId, q), CorrectOptionIds(options, q));
    }
    assert CorrectQuestions(AsWritten, questions, options, quizId, rows, submissionId)
        == CorrectQuestions(Intended, questions, options, quizId, rows, submissionId);
  }

  /** A one-question quiz whose two options are both correct, answered by selecting the first
      option twice: the controller stores 100.00, the intended test 0. */
  lemma RepeatedAnswerScoresFull(questions: map<Id, QuestionRow>, options: map<Id, OptionRow>, rows: seq<AnswerRow>)
    requires questions == map[1 := QuestionRow(1, "q", 0)]
    requires options == map[1 := OptionRow(1, "a", true, 0), 2 := OptionRow(1, "b", true, 1)]
    requires rows == [AnswerRow(7, 1, 1), AnswerRow(7, 1, 1)]
    ensures Score(AsWritten, questions, options, 1, rows, 7) == 10000
    ensures Score(Intended, questions, options, 1, rows, 7) == 0
  {
    OneQuestionQuiz(questions, options);
    assert Selected(rows, 7, 1) == [1, 1] by {
      var tail := rows[1..];
      assert tail == [AnswerRow(7, 1, 1)] && tail[1..] == [];
      assert Selected(tail, 7, 1) == [1] + Selected(tail[1..], 7, 1) == [1];
    }
    DuplicateAnswerAccepted();
    assert CorrectQuestions(AsWritten, questions, options, 1, rows, 7) == {1};
    assert CorrectQuestions(Intended, questions, options, 1, rows, 7) == {};
    RoundDivExact(10000, 1);
  }

  /** The same quiz answered with the first option once and the second twice: the controller
      stores 0, the intended test 100.00. */
  lemma RepeatedCorrectAnswerScoresZero(questions: map<Id, QuestionRow>, options: map<Id, OptionRow>, rows: seq<AnswerRow>)
    requires questions == map[1 := QuestionRow(1, "q", 0)]
    requires options == map[1 := OptionRow(1, "a", true, 0), 2 := OptionRow(1, "b", true, 1)]
    requires rows == [AnswerRow(7, 1, 1), AnswerRow(7, 1, 2), AnswerRow(7, 1, 2)]
    ensures Score(AsWritten, questions, options, 1, rows, 7) == 0
    ensures Score(Intended, questions, options, 1, rows, 7) == 10000
  {
    OneQuestionQuiz(questions, options);
    assert Selected(rows, 7, 1) == [1, 2, 2] by {
      var t1 := rows[1..];
      var t2 := t1[1..];
      assert t1 == [AnswerRow(7, 1, 2), AnswerRow(7, 1, 2)];
      assert t2 == [AnswerRow(7, 1, 2)] && t2[1..] == [];
      assert Selected(t2, 7, 1) == [2] + Selected(t2[1..], 7, 1) == [2];
      assert Selected(t1, 7, 1) == [2] + Selected(t2, 7, 1) == [2, 2];
    }
    DuplicateAnswerRejected();
    assert CorrectQuestions(AsWritten, questions, options, 1, rows, 7) == {};
    assert CorrectQuestions(Intended, questions, options, 1, rows, 7) == {1};
    RoundDivExact(10000, 1);
  }

  /** The catalogue of the two examples above: quiz 1 has question 1, whose correct options are 1 and 2. */
  lemma OneQuestionQuiz(questions: map<Id, QuestionRow>, options: map<Id, OptionRow>)
    requires questions == map[1 := QuestionRow(1, "q", 0)]
    requires options == map[1 := OptionRow(1, "a", true, 0), 2 := OptionRow(1, "b", true, 1)]
    ensures QuestionsOf(questions, 1) == {1}
    ensures CorrectOptionIds(options, 1) == {1, 2}
  {
  }
}
