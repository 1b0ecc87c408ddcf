/**
 * The course catalogue screen of the course-management section: search and
 * department filter over the course cards, the four statistics cards, the
 * department list of the filter select, the enrolment colour of each card
 * and the rule that disables enrolling into a full course. The course list
 * itself is never modified by this screen.
 */
module CourseManagement {
  import opened Text
  import opened EntityList
  import opened Palette

  datatype Course = Course(
    id: int,
    code: string,
    name: string,
    department: string,
    credits: int,
    instructor: string,
    schedule: string,
    location: string,
    enrolledStudents: int,
    maxCapacity: int,
    status: string,
    semester: string,
    description: string)

  /** The fields the search box looks in, in the order the source tests them. */
  function SearchFields(c: Course): seq<string>
  {
    [c.name, c.code, c.instructor]
  }

  function Department(c: Course): string
  {
    c.department
  }

  function Status(c: Course): string
  {
    c.status
  }

  function Enrolled(c: Course): int
  {
    c.enrolledStudents
  }

  /**
   * `filteredCourses`: the courses whose name, code or instructor contains the
   * search term (ASCII case ignored, term not trimmed) and whose department
   * passes the department select, in their original order.
   */
  function FilteredCourses(courses: seq<Course>, searchTerm: string, filterDepartment: string): (r: seq<Course>)
    ensures forall c :: c in r <==>
      c in courses
      && (Includes(Lower(c.name), Lower(searchTerm)) || Includes(Lower(c.code), Lower(searchTerm))
          || Includes(Lower(c.instructor), Lower(searchTerm)))
      && (filterDepartment == "all" || c.department == filterDepartment)
    ensures IsSubsequence(r, courses)
  {
    var q := Query(searchTerm, filterDepartment);
    VisibleOrder(courses, SearchFields, Department, q);
    assert forall c :: SearchMatch(SearchFields(c), searchTerm) <==>
      (Includes(Lower(c.name), Lower(searchTerm)) || Includes(Lower(c.code), Lower(searchTerm))
       || Includes(Lower(c.instructor), Lower(searchTerm))) by {
      forall c {
        SearchMatchThree(SearchFields(c), searchTerm);
      }
    }
    Visible(courses, SearchFields, Department, q)
  }

  /** An empty search with "All Departments" shows every course, unchanged and in order. */
  lemma EmptyQueryShowsAllCourses(courses: seq<Course>)
    ensures FilteredCourses(courses, "", "all") == courses
  {
    EmptyQueryShowsAll(courses, SearchFields, Department);
  }

  /**
   * Search and department filter combine with AND: the visible list is the
   * department filter applied to the search result, and the other way round.
   */
  lemma SearchAndDepartmentCombine(courses: seq<Course>, searchTerm: string, filterDepartment: string)
    ensures FilteredCourses(courses, searchTerm, filterDepartment)
         == Categorize(Search(courses, SearchFields, searchTerm), Department, filterDepartment)
    ensures FilteredCourses(courses, searchTerm, filterDepartment)
         == Search(Categorize(courses, Department, filterDepartment), SearchFields, searchTerm)
  {
    VisibleIsBothFilters(courses, SearchFields, Department, Query(searchTerm, filterDepartment));
  }

  /**
   * The search ignores ASCII case, while the department filter is exact: a
   * course whose department differs from the selected one in case only is hidden.
   */
  lemma OnlyTheSearchIgnoresCase(courses: seq<Course>, searchTerm: string, filterDepartment: string, c: Course)
    ensures FilteredCourses(courses, Upper(searchTerm), filterDepartment) == FilteredCourses(courses, searchTerm, filterDepartment)
    ensures filterDepartment != "all" && c.department != filterDepartment ==> c !in FilteredCourses(courses, searchTerm, filterDepartment)
  {
    SearchIgnoresCase(courses, SearchFields, Department, Query(searchTerm, filterDepartment));
  }

  /** "No courses found" is shown exactly when no course passes both the search and the filter. */
  lemma NoCoursesFoundWhenNothingMatches(courses: seq<Course>, searchTerm: string, filterDepartment: string)
    ensures FilteredCourses(courses, searchTerm, filterDepartment) == []
        <==> forall c :: c in courses ==> !MatchesQuery(SearchFields, Department, Query(searchTerm, filterDepartment))(c)
  {
    KeepEmpty(courses, MatchesQuery(SearchFields, Department, Query(searchTerm, filterDepartment)));
  }

  /**
   * `departments = [...new Set(courses.map(course => course.department))]`:
   * every department of some course, once, in the order of its first course.
   */
  function Departments(courses: seq<Course>): (r: seq<string>)
    ensures forall i, j :: 0 <= i < j < |r| ==> r[i] != r[j]
    ensures forall d :: d in r <==> exists i :: 0 <= i < |courses| && courses[i].department == d
    ensures forall d :: d in r <==> d in Column(courses, Department)
    ensures forall i, j :: 0 <= i < j < |r| ==>
              FirstIndex(Column(courses, Department), r[i]) < FirstIndex(Column(courses, Department), r[j])
  {
    var column := Column(courses, Department);
    DistinctFacts(column);
    assert forall d :: d in column <==> exists i :: 0 <= i < |courses| && courses[i].department == d by {
      forall d | d in column
        ensures exists i :: 0 <= i < |courses| && courses[i].department == d
      {
        var i :| 0 <= i < |column| && column[i] == d;
        assert courses[i].department == d;
      }
    }
    Distinct(column)
  }

  /** The four statistics cards. */
  datatype CourseStats = CourseStats(totalCourses: nat, openCourses: nat, fullCourses: nat, totalEnrolled: int)

  /**
   * Total courses, courses whose status is exactly "Open", courses whose status
   * is exactly "Full", and the enrolled students summed over all courses.
   */
  function Statistics(courses: seq<Course>): (s: CourseStats)
    ensures s.totalCourses == |courses|
    ensures s.openCourses + s.fullCourses <= s.totalCourses
    ensures (forall c :: c in courses ==> c.status != "Open") ==> s.openCourses == 0
    ensures (forall c :: c in courses ==> c.status != "Full") ==> s.fullCourses == 0
    ensures s.openCourses == multiset(Column(courses, Status))["Open"]
    ensures s.fullCourses == multiset(Column(courses, Status))["Full"]
    ensures s.totalEnrolled == Sum(courses, Enrolled)
  {
    WhereCount(courses, Status, "Open");
    WhereCount(courses, Status, "Full");
    DisjointCounts(courses, Is(Status, "Open"), Is(Status, "Full"));
    var open := Where(courses, Status, "Open");
    var full := Where(courses, Status, "Full");
    KeepEmpty(courses, Is(Status, "Open"));
    KeepEmpty(courses, Is(Status, "Full"));
    CourseStats(|courses|, |open|, |full|, Sum(courses, Enrolled))
  }

  /**
   * "Total Enrolled" is taken over all courses, whatever the search and the
   * filter: it is the sum over the visible courses plus the sum over the hidden ones.
   */
  lemma TotalEnrolledIgnoresQuery(courses: seq<Course>, searchTerm: string, filterDepartment: string)
    ensures Statistics(courses).totalEnrolled
         == Sum(FilteredCourses(courses, searchTerm, filterDepartment), Enrolled)
          + Sum(Keep(courses, Not(MatchesQuery(SearchFields, Department, Query(searchTerm, filterDepartment)))), Enrolled)
  {
    SumPartition(courses, Enrolled, MatchesQuery(SearchFields, Department, Query(searchTerm, filterDepartment)));
  }

  /**
   * `getCapacityColor`: the card's enrolment figure is red from 100% of the
   * capacity, yellow from 80%, green below. The percentage
   * `(enrolled / max) * 100` is compared exactly, after multiplying by `max`.
   */
  function CapacityColor(enrolled: int, max: int): (r: Tone)
    requires max > 0
    ensures r == Red <==> enrolled >= max
    ensures r == Yellow <==> enrolled < max && 5 * enrolled >= 4 * max
    ensures r == Green <==> 5 * enrolled < 4 * max
  {
    if 100 * enrolled >= 100 * max then Red
    else if 100 * enrolled >= 80 * max then Yellow
    else Green
  }

  /** How alarming a capacity colour is: green, then yellow, then red. */
  function Severity(t: Tone): nat
  {
    match t
    case Green => 0
    case Yellow => 1
    case _ => 2
  }

  /** More enrolled students never make the colour less alarming. */
  lemma CapacityColorMonotone(e1: int, e2: int, max: int)
    requires max > 0 && e1 <= e2
    ensures Severity(CapacityColor(e1, max)) <= Severity(CapacityColor(e2, max))
  {
  }

  /** `getStatusColor` of this screen: Open green, Full red, Waitlist yellow, Closed and anything else gray. */
  function StatusColor(status: string): (r: Tone)
    ensures r == Red <==> status == "Full"
    ensures r == Green <==> status == "Open"
    ensures r == Yellow <==> status == "Waitlist"
    ensures r == Gray <==> status != "Full" && status != "Open" && status != "Waitlist"
  {
    match status
    case "Open" => Green
    case "Full" => Red
    case "Closed" => Gray
    case "Waitlist" => Yellow
    case _ => Gray
  }

  /** The card's "Enroll Student" button is disabled when the course is full. */
  predicate EnrollDisabled(c: Course)
  {
    c.status == "Full"
  }

  /** The button is disabled exactly on the cards whose status badge is red. */
  lemma EnrollDisabledIffRedBadge(c: Course)
    ensures EnrollDisabled(c) <==> StatusColor(c.status) == Red
  {
  }
}
