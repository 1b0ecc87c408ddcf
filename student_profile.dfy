/**
 * The student browser: a searchable list of students on the left, the
 * selected student's profile on the right, and an "Add Student" form that can
 * be shown or hidden. The search term, the selected student and the form's
 * visibility are the screen's state; the student list is fixed when the
 * screen is created and no handler changes it.
 */
module StudentProfile {
  import opened Wrappers
  import opened Text
  import opened EntityList
  import opened Palette

  datatype Student = Student(
    id: int,
    name: string,
    email: string,
    phone: string,
    address: string,
    dateOfBirth: string,
    studentId: string,
    major: string,
    year: string,
    gpa: string,
    status: string,
    enrolledCourses: int,
    avatar: string)

  function SearchFields(s: Student): seq<string>
  {
    [s.name, s.studentId, s.email]
  }

  function Id(s: Student): int
  {
    s.id
  }

  /**
   * `filteredStudents`: the students whose name, student id or email contains
   * the term (ASCII case ignored, term not trimmed), in their original order.
   * There is no categorical filter on this screen.
   */
  function FilteredStudents(students: seq<Student>, searchTerm: string): (r: seq<Student>)
    ensures forall s :: s in r <==>
      s in students
      && (Includes(Lower(s.name), Lower(searchTerm)) || Includes(Lower(s.studentId), Lower(searchTerm))
          || Includes(Lower(s.email), Lower(searchTerm)))
    ensures IsSubsequence(r, students)
  {
    KeepIsSubsequence(students, MatchesSearch(SearchFields, searchTerm));
    assert forall s :: SearchMatch(SearchFields(s), searchTerm) <==>
      (Includes(Lower(s.name), Lower(searchTerm)) || Includes(Lower(s.studentId), Lower(searchTerm))
       || Includes(Lower(s.email), Lower(searchTerm))) by {
      forall s {
        SearchMatchThree(SearchFields(s), searchTerm);
      }
    }
    Search(students, SearchFields, searchTerm)
  }

  /** An empty search term lists every student, unchanged. */
  lemma EmptyTermListsEveryone(students: seq<Student>)
    ensures FilteredStudents(students, "") == students
  {
    EmptyTermSearch(students, SearchFields);
  }

  /**
   * Typing more can only shorten the list: when `t1` is a substring of `t2`,
   * the list for `t2` is a subsequence of the list for `t1`.
   */
  lemma ExtendingTheTermShrinksTheList(students: seq<Student>, t1: string, t2: string)
    requires IsSubstring(t1, t2)
    ensures IsSubsequence(FilteredStudents(students, t2), FilteredStudents(students, t1))
    ensures forall s :: s in FilteredStudents(students, t2) ==> s in FilteredStudents(students, t1)
  {
    LongerTermNarrows(students, SearchFields, t1, t2);
    KeepIsSubsequence(FilteredStudents(students, t1), MatchesSearch(SearchFields, t2));
  }

  /** `getStatusColor` of this screen: Active green, Inactive red, Graduated blue, anything else gray. */
  function StatusColor(status: string): (r: Tone)
    ensures r == Green <==> status == "Active"
    ensures r == Red <==> status == "Inactive"
    ensures r == Blue <==> status == "Graduated"
    ensures r == Gray <==> status != "Active" && status != "Inactive" && status != "Graduated"
  {
    match status
    case "Active" => Green
    case "Inactive" => Red
    case "Graduated" => Blue
    case _ => Gray
  }

  /** A listed entry is marked when the selected student has the entry's id. */
  predicate Highlighted(selected: Option<Student>, s: Student)
  {
    selected.Some? && selected.value.id == s.id
  }

  /** With unique ids, the entry marked after clicking listed entry `i` is entry `i` alone. */
  lemma ClickedEntryIsTheHighlight(students: seq<Student>, searchTerm: string, i: nat)
    requires UniqueKeys(students, Id)
    requires i < |FilteredStudents(students, searchTerm)|
    ensures var v := FilteredStudents(students, searchTerm);
      forall j :: 0 <= j < |v| ==> (Highlighted(Some(v[i]), v[j]) <==> j == i)
  {
  }

  /** The screen's state: the selected student, the search box and the add form's visibility. */
  class StudentBrowser {
    const students: seq<Student>
    var selectedStudent: Option<Student>
    var searchTerm: string
    var showAddForm: bool

    /** The selected student, if any, is one of the screen's students. */
    ghost predicate Valid()
      reads this
    {
      selectedStudent.Some? ==> selectedStudent.value in students
    }

    /** Initial state: nothing selected, empty search, form hidden. */
    constructor (students: seq<Student>)
      ensures Valid()
      ensures this.students == students
      ensures selectedStudent == None && searchTerm == "" && !showAddForm
    {
      this.students := students;
      selectedStudent := None;
      searchTerm := "";
      showAddForm := false;
    }

    /** The entries currently listed. */
    function Listed(): seq<Student>
      reads this
    {
      FilteredStudents(students, searchTerm)
    }

    /** Typing in the search box: only the term changes; the selection is kept. */
    method SetSearchTerm(term: string)
      requires Valid()
      modifies this
      ensures Valid()
      ensures searchTerm == term
      ensures selectedStudent == old(selectedStudent) && showAddForm == old(showAddForm)
    {
      searchTerm := term;
    }

    /** Clicking the `i`-th listed entry selects that student. */
    method ClickStudent(i: nat)
      requires Valid()
      requires i < |Listed()|
      modifies this
      ensures Valid()
      ensures selectedStudent == Some(old(Listed())[i])
      ensures searchTerm == old(searchTerm) && showAddForm == old(showAddForm)
      ensures UniqueKeys(students, Id) ==> forall j :: 0 <= j < |Listed()| ==> (IsHighlighted(Listed()[j]) <==> j == i)
    {
      var listed := FilteredStudents(students, searchTerm);
      assert listed[i] in listed;
      selectedStudent := Some(listed[i]);
      if UniqueKeys(students, Id) {
        ClickedEntryIsTheHighlight(students, searchTerm, i);
      }
    }

    /** Whether the entry of `s` carries the selection mark. */
    predicate IsHighlighted(s: Student)
      reads this
    {
      Highlighted(selectedStudent, s)
    }

    /** The header's "Add Student" button shows the form. */
    method OpenAddForm()
      requires Valid()
      modifies this
      ensures Valid()
      ensures showAddForm
      ensures selectedStudent == old(selectedStudent) && searchTerm == old(searchTerm)
    {
      showAddForm := true;
    }

    /** The form's "Cancel" button hides it. */
    method CancelAddForm()
      requires Valid()
      modifies this
      ensures Valid()
      ensures !showAddForm
      ensures selectedStudent == old(selectedStudent) && searchTerm == old(searchTerm)
    {
      showAddForm := false;
    }

    /**
     * `handleAddStudent`: hides the form. The student list is not extended
     * (only a notification is raised), so the listed entries stay the same.
     */
    method AddStudent()
      requires Valid()
      modifies this
      ensures Valid()
      ensures !showAddForm
      ensures selectedStudent == old(selectedStudent) && searchTerm == old(searchTerm)
      ensures Listed() == old(Listed())
    {
      showAddForm := false;
    }
  }
}
