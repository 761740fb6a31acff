/** The teacher's student roster: the search and class filter, and the form that builds the
    bodies of the create, update and delete requests. */
module StudentList {
  import opened Common
  import opened Text
  import opened Front

  /** `name` or `email` contains the query, ignoring the case of ASCII letters. */
  predicate MatchesSearch(s: FrontUser, query: string) {
    Contains(Lower(s.name), Lower(query)) || Contains(Lower(s.email), Lower(query))
  }

  /** The student is listed: the search matches and the class filter is `'all'` or the
      student's class. */
  predicate Shown(s: FrontUser, query: string, filterClass: string) {
    MatchesSearch(s, query) && InClass(s, filterClass)
  }

  /** `filteredStudents`: the listed students, in roster order. */
  function FilteredStudents(students: seq<FrontUser>, query: string, filterClass: string): (r: seq<FrontUser>)
    ensures |r| <= |students|
    ensures forall i :: 0 <= i < |r| ==> r[i] in students && Shown(r[i], query, filterClass)
    ensures forall i :: 0 <= i < |students| && Shown(students[i], query, filterClass) ==> students[i] in r
  {
    Filter(students, (s: FrontUser) => Shown(s, query, filterClass))
  }

  /** An empty search lists exactly the students of the chosen class. */
  lemma EmptySearchFiltersByClassOnly(s: FrontUser, filterClass: string)
    ensures Shown(s, "", filterClass) <==> InClass(s, filterClass)
  {
    ContainsEmpty(Lower(s.name));
  }

  /** With an empty search and the filter on `'all'`, the whole roster is listed. */
  lemma EmptySearchListsEveryone(students: seq<FrontUser>)
    ensures FilteredStudents(students, "", "all") == students
  {
    forall i | 0 <= i < |students|
      ensures Shown(students[i], "", "all")
    {
      EmptySearchFiltersByClassOnly(students[i], "all");
    }
    FilterAll(students, (s: FrontUser) => Shown(s, "", "all"));
  }

  /** The search ignores the case of the query. */
  lemma SearchIgnoresQueryCase(s: FrontUser, query: string)
    ensures MatchesSearch(s, Lower(query)) <==> MatchesSearch(s, query)
  {
    assert Lower(Lower(query)) == Lower(query);
  }

  /** The body of the create request. */
  datatype NewStudent = NewStudent(name: string, email: string, password: string, classId: string)

  /** The body of the update request: the password and the class only when given. */
  datatype StudentUpdate = StudentUpdate(name: string, email: string, password: Option<string>, classId: Option<string>)

  /** The create form is complete: name, email and password are not blank and a class is chosen. */
  predicate AddComplete(name: string, email: string, password: string, classId: string) {
    !IsBlank(name) && !IsBlank(email) && !IsBlank(password) && classId != ""
  }

  /** The create body: name and email trimmed, the password as typed. */
  function NewStudentOf(name: string, email: string, password: string, classId: string): (r: NewStudent)
    ensures r.name == Trim(name) && r.email == Trim(email) && r.password == password && r.classId == classId
    ensures !IsBlank(name) && !IsBlank(email) ==> r.name != "" && r.email != ""
  {
    NewStudent(Trim(name), Trim(email), password, classId)
  }

  /** The update body built field by field. */
  function UpdateOf(name: string, email: string, password: string, classId: string): (r: StudentUpdate)
    ensures r.name == Trim(name) && r.email == Trim(email)
    ensures r.password.Some? <==> !IsBlank(password)
    ensures r.password.Some? ==> r.password.value == password
    ensures r.classId.Some? <==> classId != ""
    ensures r.classId.Some? ==> r.classId.value == classId
  {
    StudentUpdate(Trim(name), Trim(email),
                  if Trim(password) != "" then Some(password) else None,
                  if classId != "" then Some(classId) else None)
  }

  /** The state of the roster's form. */
  class StudentForm {
    var name: string
    var email: string
    var password: string
    var classId: string
    var editing: Option<FrontUser>
    var dialogOpen: bool
    var showPassword: bool

    /** An empty form with no student being edited. */
    constructor()
      ensures name == "" && email == "" && password == "" && classId == ""
      ensures editing == None && !dialogOpen && !showPassword
    {
      name, email, password, classId := "", "", "", "";
      editing, dialogOpen, showPassword := None, false, false;
    }

    /** `handleAddStudent`: nothing is sent when a field is missing; otherwise the create body. */
    method AddStudent() returns (sent: Option<NewStudent>)
      ensures sent.Some? <==> AddComplete(name, email, password, classId)
      ensures sent.Some? ==> sent.value == NewStudentOf(name, email, password, classId)
    {
      if Trim(name) == "" || Trim(email) == "" || Trim(password) == "" || classId == "" {
        return None;
      }
      sent := Some(NewStudentOf(name, email, password, classId));
    }

    /** The create request's success callback: the four fields emptied and the dialog closed. */
    method OnCreated()
      modifies this
      ensures name == "" && email == "" && password == "" && classId == ""
      ensures !dialogOpen && editing == old(editing) && showPassword == old(showPassword)
    {
      name, email, password, classId := "", "", "", "";
      dialogOpen := false;
    }

    /** `handleEditStudent`: the form loaded from the student, with an empty password. */
    method EditStudent(student: FrontUser)
      modifies this
      ensures editing == Some(student) && name == student.name && email == student.email && password == ""
      ensures classId == OrText(student.classId, Some("")).value
      ensures !showPassword && dialogOpen == old(dialogOpen)
    {
      editing := Some(student);
      name, email, password := student.name, student.email, "";
      classId := OrText(student.classId, Some("")).value;
      showPassword := false;
    }

    /** `handleUpdateStudent`: the edited student's id and the update body, nothing when no one
        is being edited. */
    method UpdateStudent() returns (sent: Option<(string, StudentUpdate)>)
      ensures sent.Some? <==> editing.Some?
      ensures sent.Some? ==> sent.value == (editing.value.id, UpdateOf(name, email, password, classId))
    {
      if editing.None? {
        return None;
      }
      var update := StudentUpdate(Trim(name), Trim(email), None, None);
      if Trim(password) != "" {
        update := update.(password := Some(password));
      }
      if classId != "" {
        update := update.(classId := Some(classId));
      }
      sent := Some((editing.value.id, update));
    }

    /** The update request's success callback. */
    method OnUpdated()
      modifies this
      ensures editing == None && password == "" && !showPassword
      ensures name == old(name) && email == old(email) && classId == old(classId) && dialogOpen == old(dialogOpen)
    {
      editing, password, showPassword := None, "", false;
    }
  }

  /** `handleDeleteStudent`: the delete request goes out only when the teacher confirms. */
  function DeleteRequest(studentId: string, confirmed: bool): (r: Option<string>)
    ensures r.Some? <==> confirmed
    ensures r.Some? ==> r.value == studentId
  {
    if confirmed then Some(studentId) else None
  }
}
