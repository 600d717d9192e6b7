/** The student directory page: the column sort buttons (which share one
    direction flag), the unclamped ten-row pages, the local removal after a
    delete, and the student form's submit. */
module StudentPage {
  import opened Wrappers
  import opened Text
  import opened Sequences
  import opened Sorting
  import opened Paging

  /** A row of the student list, with the field names the service sends. */
  datatype Student = Student(
    idnum: string,
    firstname: string,
    lastname: string,
    sex: string,
    yearlevel: string,
    programcode: string)

  /** The columns with a working sort button (the year-level one is not wired). */
  datatype Column = IdNumColumn | FirstNameColumn | LastNameColumn | SexColumn | ProgramColumn

  /** `sortOrder`: "asc", or anything else, which sorts descending. */
  datatype Direction = Asc | Desc

  function Flip(d: Direction): Direction {
    if d == Asc then Desc else Asc
  }

  function ColumnText(s: Student, c: Column): string {
    match c
    case IdNumColumn => s.idnum
    case FirstNameColumn => s.firstname
    case LastNameColumn => s.lastname
    case SexColumn => s.sex
    case ProgramColumn => s.programcode
  }

  /** `a` may stay before `b` when sorting column `c` in direction `d`; the
      values are compared as they are, without case folding. */
  predicate StudentPrecedes(c: Column, d: Direction, a: Student, b: Student) {
    if d == Asc then StrLe(ColumnText(a, c), ColumnText(b, c)) else StrLe(ColumnText(b, c), ColumnText(a, c))
  }

  function ColumnOrder(c: Column, d: Direction): (Student, Student) -> bool {
    (a: Student, b: Student) => StudentPrecedes(c, d, a, b)
  }

  lemma ColumnOrderIsTotalPreorder(c: Column, d: Direction)
    ensures TotalPreorder(ColumnOrder(c, d))
  {
    forall a: Student, b: Student ensures StudentPrecedes(c, d, a, b) || StudentPrecedes(c, d, b, a) {
      StrLeTotal(ColumnText(a, c), ColumnText(b, c));
    }
    forall a: Student, b: Student, e: Student | StudentPrecedes(c, d, a, b) && StudentPrecedes(c, d, b, e)
      ensures StudentPrecedes(c, d, a, e)
    {
      if d == Asc {
        StrLeTransitive(ColumnText(a, c), ColumnText(b, c), ColumnText(e, c));
      } else {
        StrLeTransitive(ColumnText(e, c), ColumnText(b, c), ColumnText(a, c));
      }
    }
  }

  /** `[...students].sort(...)` for one column and direction: the same rows,
      ordered by that column. */
  function SortStudents(students: seq<Student>, c: Column, d: Direction): (r: seq<Student>)
    ensures multiset(r) == multiset(students)
    ensures forall i, j :: 0 <= i < j < |r| ==> StudentPrecedes(c, d, r[i], r[j])
  {
    ColumnOrderIsTotalPreorder(c, d);
    SortBySorted(students, ColumnOrder(c, d));
    SortBy(students, ColumnOrder(c, d))
  }

  /** The filter `handleDelete` writes: it reads `s.idNum`, a property the
      rows do not have, so every row's value is undefined (None here). */
  function DeleteFilterAsWritten(students: seq<Student>, idNum: Option<string>): (r: seq<Student>)
    ensures IsSubsequence(r, students)
  {
    Filter(students, (s: Student) => MissingIdNum(s) != idNum)
  }

  /** `s.idNum` on a row: the rows carry `idnum`, so this is always undefined. */
  function MissingIdNum(s: Student): Option<string> {
    None
  }

  /** As written, deleting a defined id removes nothing from the list, even the
      row that carries it. */
  lemma AsWrittenDeleteKeepsEveryRow(students: seq<Student>, idNum: string)
    ensures DeleteFilterAsWritten(students, Some(idNum)) == students
  {
    FilterKeepsAll(students, (s: Student) => MissingIdNum(s) != Some(idNum));
  }

  /** The removal evidently intended: drop the rows whose `idnum` is the
      deleted one, keep the others in order. */
  function RemoveStudent(students: seq<Student>, idnum: string): (r: seq<Student>)
    ensures forall s :: s in r <==> s in students && s.idnum != idnum
    ensures IsSubsequence(r, students)
  {
    Filter(students, (s: Student) => s.idnum != idnum)
  }

  /** The concrete case: one row, deleted by its own id. */
  lemma DeleteFilterCounterexample()
    ensures var row := Student("2023-0001", "Ana", "Cruz", "Female", "1", "BSCS");
      && DeleteFilterAsWritten([row], Some("2023-0001")) == [row]
      && RemoveStudent([row], "2023-0001") == []
  {
    var row := Student("2023-0001", "Ana", "Cruz", "Female", "1", "BSCS");
    AsWrittenDeleteKeepsEveryRow([row], "2023-0001");
    assert row !in RemoveStudent([row], "2023-0001");
  }

  /** The last page the Next button reaches: `Math.ceil(students.length / 10)`,
      which is 0 for an empty list. */
  function LastStudentPage(n: nat): nat {
    CeilDiv(n, RowsPerPage)
  }

  /** The page is sliced without clamping: a page past the last one is empty,
      which the program directory prevents and this one does not. */
  lemma PastLastPageIsEmpty(students: seq<Student>, page: int)
    requires page > LastStudentPage(|students|)
    ensures PageSlice(students, page) == []
  {
    assert (page - 1) * RowsPerPage >= LastStudentPage(|students|) * RowsPerPage;
  }

  class StudentDirectory {
    var students: seq<Student>
    var sortOrder: Direction
    var currentPage: int

    ghost predicate Valid()
      reads this
    {
      currentPage >= 1
    }

    constructor ()
      ensures Valid() && students == [] && sortOrder == Asc && currentPage == 1
    {
      students, sortOrder, currentPage := [], Asc, 1;
    }

    /** `currentStudents`. */
    function Visible(): (r: seq<Student>)
      reads this
      requires Valid()
      ensures |r| <= RowsPerPage
      ensures r == students[Min((currentPage - 1) * RowsPerPage, |students|)..Min(currentPage * RowsPerPage, |students|)]
    {
      PageSliceBounds(students, currentPage);
      PageSlice(students, currentPage)
    }

    /** The load effect: the list is what the service returned. */
    method Loaded(data: seq<Student>)
      requires Valid()
      modifies this
      ensures Valid()
      ensures students == data && sortOrder == old(sortOrder) && currentPage == old(currentPage)
    {
      students := data;
    }

    /** A column's sort button: sorts by that column in the current direction,
        then flips the one direction every column shares. */
    method ToggleSort(c: Column)
      requires Valid()
      modifies this
      ensures Valid()
      ensures students == SortStudents(old(students), c, old(sortOrder))
      ensures multiset(students) == multiset(old(students))
      ensures forall i, j :: 0 <= i < j < |students| ==> StudentPrecedes(c, old(sortOrder), students[i], students[j])
      ensures sortOrder == Flip(old(sortOrder)) && currentPage == old(currentPage)
    {
      students := SortStudents(students, c, sortOrder);
      sortOrder := Flip(sortOrder);
    }

    /** The Prev button. */
    method Prev()
      requires Valid()
      modifies this
      ensures Valid()
      ensures currentPage == PrevPage(old(currentPage)) && currentPage <= old(currentPage)
      ensures students == old(students) && sortOrder == old(sortOrder)
    {
      currentPage := PrevPage(currentPage);
    }

    /** The Next button: it advances only while the page is before the last. */
    method Next()
      requires Valid()
      modifies this
      ensures Valid()
      ensures currentPage == NextPage(old(currentPage), LastStudentPage(|students|))
      ensures old(currentPage) <= LastStudentPage(|students|) ==> currentPage <= LastStudentPage(|students|)
      ensures students == old(students) && sortOrder == old(sortOrder)
    {
      currentPage := NextPage(currentPage, LastStudentPage(|students|));
    }

    /** `handleDelete` with the removal it evidently means: nothing happens
        unless the user confirms and the service answers ok. */
    method HandleDelete(idnum: string, confirmed: bool, reply: Attempt)
      requires Valid()
      modifies this
      ensures Valid()
      ensures confirmed && reply.Succeeds? ==> students == RemoveStudent(old(students), idnum)
      ensures !confirmed || reply.Raises? ==> students == old(students)
      ensures sortOrder == old(sortOrder) && currentPage == old(currentPage)
    {
      if !confirmed {
        return;
      }
      if reply.Succeeds? {
        students := RemoveStudent(students, idnum);
      }
    }

    /** `handleDelete` as written: after a confirmed, successful delete the
        list goes through the `s.idNum` filter, which keeps every row, so the
        deleted student stays on the page. */
    method HandleDeleteAsWritten(idnum: string, confirmed: bool, reply: Attempt)
      requires Valid()
      modifies this
      ensures Valid()
      ensures confirmed && reply.Succeeds? ==> students == DeleteFilterAsWritten(old(students), Some(idnum))
      ensures students == old(students)
      ensures sortOrder == old(sortOrder) && currentPage == old(currentPage)
    {
      if !confirmed {
        return;
      }
      if reply.Succeeds? {
        AsWrittenDeleteKeepsEveryRow(students, idnum);
        students := DeleteFilterAsWritten(students, Some(idnum));
      }
    }
  }

  /** Two different columns clicked in a row: the second sorts in the
      direction the first one flipped to. */
  method SecondColumnSortsOtherWay(dir: StudentDirectory, first: Column, second: Column)
    requires dir.Valid() && dir.sortOrder == Asc
    modifies dir
    ensures dir.Valid() && dir.sortOrder == Asc
    ensures forall i, j :: 0 <= i < j < |dir.students| ==> StudentPrecedes(second, Desc, dir.students[i], dir.students[j])
  {
    dir.ToggleSort(first);
    dir.ToggleSort(second);
  }

  // ---------------------------------------------------------------------
  // The student form.

  datatype StudentPayload = StudentPayload(
    idnum: string,
    firstname: string,
    lastname: string,
    sex: string,
    yearlevel: string,
    programcode: string)

  /** The request the form sends: an update of the edited student's id, or an add. */
  datatype StudentRequest = Put(idnum: string, payload: StudentPayload) | Post(payload: StudentPayload)

  class StudentForm {
    var idNum: string
    var firstName: string
    var lastName: string
    var sex: string
    var yearLevel: string
    var program: string

    constructor ()
      ensures idNum == "" && firstName == "" && lastName == "" && sex == "" && yearLevel == "" && program == ""
    {
      idNum, firstName, lastName, sex, yearLevel, program := "", "", "", "", "", "";
    }

    predicate Complete()
      reads this
    {
      idNum != "" && firstName != "" && lastName != "" && sex != "" && yearLevel != "" && program != ""
    }

    predicate Empty()
      reads this
    {
      idNum == "" && firstName == "" && lastName == "" && sex == "" && yearLevel == "" && program == ""
    }

    /** The effect on `editingStudent`: its fields fill the form, or the form
        empties when nothing is being edited. */
    method StartEditing(editing: Option<Student>)
      modifies this
      ensures editing.None? ==> Empty()
      ensures editing.Some? ==>
        var s := editing.value;
        idNum == s.idnum && firstName == s.firstname && lastName == s.lastname
        && sex == s.sex && yearLevel == s.yearlevel && program == s.programcode
    {
      if editing.Some? {
        var s := editing.value;
        idNum, firstName, lastName, sex, yearLevel, program := s.idnum, s.firstname, s.lastname, s.sex, s.yearlevel, s.programcode;
      } else {
        idNum, firstName, lastName, sex, yearLevel, program := "", "", "", "", "", "";
      }
    }

    /** `handleSubmit`: no request unless all six fields are filled; the
        payload carries them under the service's names; an ok reply resets
        the form, a failed one leaves it as it was. */
    method Submit(editing: Option<Student>, reply: Attempt) returns (sent: Option<StudentRequest>)
      modifies this
      ensures !old(Complete()) ==> sent.None? && unchanged(this)
      ensures old(Complete()) ==>
        var payload := StudentPayload(old(idNum), old(firstName), old(lastName), old(sex), old(yearLevel), old(program));
        sent == Some(if editing.Some? then Put(editing.value.idnum, payload) else Post(payload))
      ensures old(Complete()) && reply.Succeeds? ==> Empty()
      ensures old(Complete()) && reply.Raises? ==> unchanged(this)
    {
      if !Complete() {
        return None;
      }
      var payload := StudentPayload(idNum, firstName, lastName, sex, yearLevel, program);
      sent := Some(if editing.Some? then Put(editing.value.idnum, payload) else Post(payload));
      if reply.Succeeds? {
        idNum, firstName, lastName, sex, yearLevel, program := "", "", "", "", "", "";
      }
    }
  }

  /** The placeholder options of the three selects have the value "null", a
      non-empty string, so choosing one passes the emptiness check and the
      word itself is sent. */
  method PlaceholderPassesCheck(form: StudentForm, editing: Option<Student>)
    requires form.idNum != "" && form.firstName != "" && form.lastName != ""
    modifies form
    ensures form.Empty()
  {
    form.sex, form.yearLevel, form.program := "null", "null", "null";
    var sent := form.Submit(editing, Succeeds);
    assert sent.Some? && sent.value.payload.sex == "null" && sent.value.payload.programcode == "null";
  }
}
