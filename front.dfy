/** The values the single-page client works with: its quiz, user and attempt records, and the
    JavaScript conversions and truthiness tests its components apply to them. Ids are strings on
    the client, obtained with `String(id)` from the server's numeric ids. */
module Front {
  import opened Common
  import opened Text
  import opened Schema

  /** `String(id)` for a numeric id. */
  function IdString(n: Id): (r: string)
    ensures IsDigits(r) && r != ""
  {
    NatToString(n)
  }

  /** `String(x)` for an optional id: `"undefined"` when it is missing. */
  function OptIdString(x: Option<Id>): string {
    if x.Some? then IdString(x.value) else "undefined"
  }

  /** Distinct ids have distinct string forms, so comparing `String(a) === String(b)` compares
      the ids. */
  lemma IdStringInjective(a: Id, b: Id)
    ensures IdString(a) == IdString(b) <==> a == b
  {
    if IdString(a) == IdString(b) {
      assert DigitsValue(NatToString(a)) == a;
    }
  }

  /** A missing id never looks like a present one. */
  lemma UndefinedIsNoId(n: Id)
    ensures OptIdString(None) != IdString(n)
  {
    assert IsDigits(IdString(n));
    assert "undefined"[0] == 'u';
  }

  /** JavaScript truthiness of an optional number: absent and `0` are false. */
  predicate TruthyNumber(x: Option<int>) {
    x.Some? && x.value != 0
  }

  /** JavaScript truthiness of an optional string: absent and `""` are false. */
  predicate TruthyText(x: Option<string>) {
    x.Some? && x.value != ""
  }

  /** `a || b` on optional strings. */
  function OrText(a: Option<string>, b: Option<string>): (r: Option<string>)
    ensures TruthyText(a) ==> r == a
    ensures !TruthyText(a) ==> r == b
  {
    if TruthyText(a) then a else b
  }

  /** `a || b` on optional numbers. */
  function OrNumber(a: Option<int>, b: Option<int>): (r: Option<int>)
    ensures TruthyNumber(a) ==> r == a
    ensures !TruthyNumber(a) ==> r == b
  {
    if TruthyNumber(a) then a else b
  }

  /** `a ?? b`: the first value that is neither null nor undefined. */
  function Coalesce<T>(a: Option<T>, b: Option<T>): (r: Option<T>)
    ensures a.Some? ==> r == a
    ensures a.None? ==> r == b
  {
    if a.Some? then a else b
  }

  /** An option of a client quiz: the structured form the server mapping produces, or a bare caption,
      the legacy format of locally stored quizzes. */
  datatype OptionValue = LegacyOption(caption: string) | QuizOption(id: string, text: string, isCorrect: bool)

  /** A client question. `correctAnswer`, the index of the right option, exists only in the legacy
      format. */
  datatype FrontQuestion = FrontQuestion(id: string, text: string, options: seq<OptionValue>, correctAnswer: Option<int>)

  /** A client quiz. `classId` and `timeLimit` are the legacy single-class and duration fields. */
  datatype FrontQuiz = FrontQuiz(
    id: string,
    title: string,
    description: string,
    questions: seq<FrontQuestion>,
    durationMinutes: Option<int>,
    timeLimit: Option<int>,
    classIds: seq<string>,
    classId: Option<string>,
    openAt: Option<string>,
    closeAt: Option<string>,
    createdBy: string,
    createdAt: Option<string>)

  /** A client user. */
  datatype FrontUser = FrontUser(id: string, name: string, email: string, role: string, classId: Option<string>)

  /** A client class. */
  datatype FrontClass = FrontClass(id: string, name: string, teacherId: string)

  /** A JavaScript score field: missing, `NaN`, or a number. */
  datatype ScoreValue = NoScore | NotANumber | Points(value: int)

  /** `score || 0`: missing, `NaN` and `0` read as 0. */
  function ScoreOrZero(s: ScoreValue): (r: int)
    ensures s.Points? ==> r == s.value
    ensures !s.Points? ==> r == 0
  {
    if s.Points? then s.value else 0
  }

  /** A finished attempt as the client records it: the chosen option index per question. */
  datatype QuizAttempt = QuizAttempt(
    id: string,
    quizId: string,
    studentId: string,
    answers: seq<int>,
    completedAt: string,
    score: ScoreValue)

  /** The class filter of the results screen and of the report: `'all'` or a class id. */
  predicate InClass(s: FrontUser, selectedClass: string) {
    selectedClass == "all" || s.classId == Some(selectedClass)
  }

  /** `students.filter(s => selectedClass === 'all' || s.classId === selectedClass)`. */
  function StudentsInClass(students: seq<FrontUser>, selectedClass: string): (r: seq<FrontUser>)
    ensures forall i :: 0 <= i < |r| ==> r[i] in students && InClass(r[i], selectedClass)
    ensures forall i :: 0 <= i < |students| && InClass(students[i], selectedClass) ==> students[i] in r
    ensures selectedClass == "all" ==> r == students
  {
    var p := (s: FrontUser) => InClass(s, selectedClass);
    if selectedClass == "all" then FilterAll(students, p); Filter(students, p)
    else Filter(students, p)
  }

  /** `list.find(x => x.id === id)` on users. */
  function FindUser(users: seq<FrontUser>, id: string): (r: Option<FrontUser>)
    ensures r.Some? ==> r.value in users && r.value.id == id
    ensures r.None? ==> forall i :: 0 <= i < |users| ==> users[i].id != id
  {
    if users == [] then None
    else if users[0].id == id then Some(users[0])
    else FindUser(users[1..], id)
  }

  /** `list.find(x => x.id === id)` on classes. */
  function FindClass(classes: seq<FrontClass>, id: Option<string>): (r: Option<FrontClass>)
    ensures r.Some? ==> r.value in classes && Some(r.value.id) == id
    ensures r.None? ==> forall i :: 0 <= i < |classes| ==> Some(classes[i].id) != id
  {
    if classes == [] then None
    else if Some(classes[0].id) == id then Some(classes[0])
    else FindClass(classes[1..], id)
  }

  /** `list.find(x => x.id === id)` on quizzes. */
  function FindQuiz(quizzes: seq<FrontQuiz>, id: string): (r: Option<FrontQuiz>)
    ensures r.Some? ==> r.value in quizzes && r.value.id == id
    ensures r.None? ==> forall i :: 0 <= i < |quizzes| ==> quizzes[i].id != id
  {
    if quizzes == [] then None
    else if quizzes[0].id == id then Some(quizzes[0])
    else FindQuiz(quizzes[1..], id)
  }
}
