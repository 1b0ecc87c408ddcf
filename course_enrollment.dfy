/**
 * The course browser: a searchable, department-filtered list of course cards
 * on the left and the details of the selected course on the right. The search
 * term, the department select and the selected course are the screen's state;
 * the course list is fixed when the screen is created.
 */
module CourseEnrollment {
  import opened Wrappers
  import opened Text
  import opened EntityList
  import opened Palette

  datatype Course = Course(
    id: int,
    code: string,
    name: string,
    department: string,
    instructor: string,
    credits: int,
    capacity: int,
    enrolled: int,
    schedule: string,
    semester: string,
    description: string,
    prerequisites: string,
    status: string)

  function SearchFields(c: Course): seq<string>
  {
    [c.name, c.code, c.instructor]
  }

  function Department(c: Course): string
  {
    c.department
  }

  /**
   * `filteredCourses`: name, code or instructor contains the term (ASCII case
   * ignored) and the department select is "all" or names the course's
   * department; original order kept.
   */
  function FilteredCourses(courses: seq<Course>, searchTerm: string, filterDepartment: string): (r: seq<Course>)
    ensures forall c :: c in r <==>
      c in courses
      && (Includes(Lower(c.name), Lower(searchTerm)) || Includes(Lower(c.code), Lower(searchTerm))
          || Includes(Lower(c.instructor), Lower(searchTerm)))
      && (filterDepartment == "all" || c.department == filterDepartment)
    ensures IsSubsequence(r, courses)
  {
    var q := Query(searchTerm, filterDepartment);
    VisibleOrder(courses, SearchFields, Department, q);
    assert forall c :: SearchMatch(SearchFields(c), searchTerm) <==>
      (Includes(Lower(c.name), Lower(searchTerm)) || Includes(Lower(c.code), Lower(searchTerm))
       || Includes(Lower(c.instructor), Lower(searchTerm))) by {
      forall c {
        SearchMatchThree(SearchFields(c), searchTerm);
      }
    }
    Visible(courses, SearchFields, Department, q)
  }

  /** Filtering an already filtered list with the same query returns it unchanged. */
  lemma FilterIdempotent(courses: seq<Course>, searchTerm: string, filterDepartment: string)
    ensures FilteredCourses(FilteredCourses(courses, searchTerm, filterDepartment), searchTerm, filterDepartment)
         == FilteredCourses(courses, searchTerm, filterDepartment)
  {
    VisibleIdempotent(courses, SearchFields, Department, Query(searchTerm, filterDepartment));
  }

  /** `getStatusColor` of this screen: Open green, Full red, Closed gray, anything else blue. */
  function StatusColor(status: string): (r: Tone)
    ensures r == Green <==> status == "Open"
    ensures r == Red <==> status == "Full"
    ensures r == Gray <==> status == "Closed"
    ensures r == Blue <==> status != "Open" && status != "Full" && status != "Closed"
  {
    match status
    case "Open" => Green
    case "Full" => Red
    case "Closed" => Gray
    case _ => Blue
  }

  /** The detail pane's "Enroll Student" button is disabled for a full course. */
  predicate EnrollDisabled(c: Course)
  {
    c.status == "Full"
  }

  /** The button is disabled exactly when the course's status badge is red. */
  lemma EnrollDisabledIffRedBadge(c: Course)
    ensures EnrollDisabled(c) <==> StatusColor(c.status) == Red
  {
  }

  /** A card is ringed when the selected course has the card's id. */
  predicate Highlighted(selected: Option<Course>, c: Course)
  {
    selected.Some? && selected.value.id == c.id
  }

  function Id(c: Course): int
  {
    c.id
  }

  ghost predicate UniqueIds(courses: seq<Course>)
  {
    UniqueKeys(courses, Id)
  }

  /** With unique ids at most one visible card is highlighted, whatever is selected. */
  lemma AtMostOneHighlighted(courses: seq<Course>, searchTerm: string, filterDepartment: string, selected: Option<Course>)
    requires UniqueIds(courses)
    ensures var v := FilteredCourses(courses, searchTerm, filterDepartment);
      forall i, j :: 0 <= i < |v| && 0 <= j < |v| && Highlighted(selected, v[i]) && Highlighted(selected, v[j]) ==> i == j
  {
  }

  /** After clicking visible card `i`, with unique ids, card `i` is the only highlighted card. */
  lemma ClickedCardIsTheHighlight(courses: seq<Course>, searchTerm: string, filterDepartment: string, i: nat)
    requires UniqueIds(courses)
    requires i < |FilteredCourses(courses, searchTerm, filterDepartment)|
    ensures var v := FilteredCourses(courses, searchTerm, filterDepartment);
      forall j :: 0 <= j < |v| ==> (Highlighted(Some(v[i]), v[j]) <==> j == i)
  {
  }

  /** The screen's state: the search box, the department select and the selected course. */
  class CourseBrowser {
    const courses: seq<Course>
    var searchTerm: string
    var selectedCourse: Option<Course>
    var filterDepartment: string

    /** The selected course, if any, is one of the screen's courses. */
    ghost predicate Valid()
      reads this
    {
      selectedCourse.Some? ==> selectedCourse.value in courses
    }

    /** Initial state: empty search, all departments, nothing selected. */
    constructor (courses: seq<Course>)
      ensures Valid()
      ensures this.courses == courses
      ensures searchTerm == "" && filterDepartment == "all" && selectedCourse == None
    {
      this.courses := courses;
      searchTerm := "";
      selectedCourse := None;
      filterDepartment := "all";
    }

    /** The cards currently listed. */
    function Listed(): seq<Course>
      reads this
    {
      FilteredCourses(courses, searchTerm, filterDepartment)
    }

    /** Typing in the search box: only the term changes; the selection is kept. */
    method SetSearchTerm(term: string)
      requires Valid()
      modifies this
      ensures Valid()
      ensures searchTerm == term
      ensures filterDepartment == old(filterDepartment) && selectedCourse == old(selectedCourse)
    {
      searchTerm := term;
    }

    /** Choosing a department: only the filter changes; the selection is kept. */
    method SetFilterDepartment(department: string)
      requires Valid()
      modifies this
      ensures Valid()
      ensures filterDepartment == department
      ensures searchTerm == old(searchTerm) && selectedCourse == old(selectedCourse)
    {
      filterDepartment := department;
    }

    /** Clicking the `i`-th listed card selects that course. */
    method ClickCourse(i: nat)
      requires Valid()
      requires i < |Listed()|
      modifies this
      ensures Valid()
      ensures selectedCourse == Some(old(Listed())[i])
      ensures searchTerm == old(searchTerm) && filterDepartment == old(filterDepartment)
      ensures UniqueIds(courses) ==> forall j :: 0 <= j < |Listed()| ==> (IsHighlighted(Listed()[j]) <==> j == i)
    {
      var listed := FilteredCourses(courses, searchTerm, filterDepartment);
      assert listed[i] in listed;
      selectedCourse := Some(listed[i]);
      if UniqueIds(courses) {
        ClickedCardIsTheHighlight(courses, searchTerm, filterDepartment, i);
      }
    }

    /** Whether the card of `c` carries the selection ring. */
    predicate IsHighlighted(c: Course)
      reads this
    {
      Highlighted(selectedCourse, c)
    }
  }
}
