/**
 * The student directory of the student-management section: a grid of student
 * cards filtered by a search box and a status select, each card showing an
 * avatar whose fallback is the student's initials and a coloured status badge.
 * The search term and the status select are the inputs of the functions below.
 */
module StudentManagement {
  import opened Text
  import opened EntityList
  import opened Palette

  datatype Student = Student(
    id: int,
    name: string,
    email: string,
    phone: string,
    address: string,
    dateOfBirth: string,
    enrollmentDate: string,
    status: string,
    major: string,
    year: string,
    gpa: string,
    credits: int,
    avatar: string)

  function SearchFields(s: Student): seq<string>
  {
    [s.name, s.email, s.major]
  }

  function Status(s: Student): string
  {
    s.status
  }

  /**
   * `filteredStudents`: name, email or major contains the term (ASCII case
   * ignored, term not trimmed) and the status select is "all" or equals the
   * student's status; original order kept.
   */
  function FilteredStudents(students: seq<Student>, searchTerm: string, filterStatus: string): (r: seq<Student>)
    ensures forall s :: s in r <==>
      s in students
      && (Includes(Lower(s.name), Lower(searchTerm)) || Includes(Lower(s.email), Lower(searchTerm))
          || Includes(Lower(s.major), Lower(searchTerm)))
      && (filterStatus == "all" || s.status == filterStatus)
    ensures IsSubsequence(r, students)
  {
    var q := Query(searchTerm, filterStatus);
    VisibleOrder(students, SearchFields, Status, q);
    assert forall s :: SearchMatch(SearchFields(s), searchTerm) <==>
      (Includes(Lower(s.name), Lower(searchTerm)) || Includes(Lower(s.email), Lower(searchTerm))
       || Includes(Lower(s.major), Lower(searchTerm))) by {
      forall s {
        SearchMatchThree(SearchFields(s), searchTerm);
      }
    }
    Visible(students, SearchFields, Status, q)
  }

  /**
   * With an empty term and a status other than "all", the grid shows exactly
   * the students with that status, in their original order; with "all", everyone.
   */
  lemma EmptyTermFiltersByStatusOnly(students: seq<Student>, filterStatus: string)
    ensures filterStatus != "all" ==> FilteredStudents(students, "", filterStatus) == Where(students, Status, filterStatus)
    ensures filterStatus == "all" ==> FilteredStudents(students, "", filterStatus) == students
  {
    EmptyTermVisible(students, SearchFields, Status, filterStatus);
    if filterStatus != "all" {
      CategorizeIsWhere(students, Status, filterStatus);
    } else {
      EmptyQueryShowsAll(students, SearchFields, Status);
    }
  }

  /** Upper-casing the search term (ASCII) leaves the grid unchanged. */
  lemma SearchIsCaseInsensitive(students: seq<Student>, searchTerm: string, filterStatus: string)
    ensures FilteredStudents(students, Upper(searchTerm), filterStatus) == FilteredStudents(students, searchTerm, filterStatus)
  {
    SearchIgnoresCase(students, SearchFields, Status, Query(searchTerm, filterStatus));
  }

  /** "No students found" is shown exactly when no student passes the search and the status select. */
  lemma NoStudentsFoundWhenNothingMatches(students: seq<Student>, searchTerm: string, filterStatus: string)
    ensures FilteredStudents(students, searchTerm, filterStatus) == []
        <==> forall s :: s in students ==> !MatchesQuery(SearchFields, Status, Query(searchTerm, filterStatus))(s)
  {
    KeepEmpty(students, MatchesQuery(SearchFields, Status, Query(searchTerm, filterStatus)));
  }

  /** `getStatusColor` of this screen: Active green, On Leave yellow, Graduated blue, Inactive and anything else gray. */
  function StatusColor(status: string): (r: Tone)
    ensures r == Green <==> status == "Active"
    ensures r == Yellow <==> status == "On Leave"
    ensures r == Blue <==> status == "Graduated"
    ensures r == Gray <==> status != "Active" && status != "On Leave" && status != "Graduated"
  {
    match status
    case "Active" => Green
    case "On Leave" => Yellow
    case "Graduated" => Blue
    case "Inactive" => Gray
    case _ => Gray
  }

  // ---------------------------------------------------------------------------
  // Avatar initials: name.split(' ').map(n => n[0]).join('')

  /** Number of spaces in `s`. */
  function SpaceCount(s: string): nat
  {
    if s == [] then 0 else (if s[0] == ' ' then 1 else 0) + SpaceCount(s[1..])
  }

  /** `s.split(' ')`: the segments between spaces, empty ones included. */
  function SplitOnSpace(s: string): (r: seq<string>)
    ensures |r| == SpaceCount(s) + 1
    ensures forall k :: 0 <= k < |r| ==> ' ' !in r[k]
  {
    if s == [] then [""]
    else
      var rest := SplitOnSpace(s[1..]);
      if s[0] == ' ' then [""] + rest
      else
        assert forall k :: 1 <= k < |rest| ==> rest[1..][k - 1] == rest[k];
        [[s[0]] + rest[0]] + rest[1..]
  }

  /** `segments.join(' ')`: one space between neighbouring segments. */
  function JoinWithSpace(segments: seq<string>): (r: string)
    requires segments != []
    ensures segments[0] <= r
    ensures (forall k :: 0 <= k < |segments| ==> ' ' !in segments[k]) ==> SpaceCount(r) == |segments| - 1
  {
    NoSpaceNoCount(segments[0]);
    if |segments| == 1 then segments[0]
    else
      var rest := JoinWithSpace(segments[1..]);
      SpaceCountAppend(segments[0] + " ", rest);
      SpaceCountAppend(segments[0], " ");
      assert forall k :: 1 <= k < |segments| ==> segments[1..][k - 1] == segments[k];
      segments[0] + " " + rest
  }

  /** The spaces of a concatenation are the spaces of its parts. */
  lemma {:induction false} SpaceCountAppend(a: string, b: string)
    ensures SpaceCount(a + b) == SpaceCount(a) + SpaceCount(b)
  {
    if a != [] {
      assert (a + b)[1..] == a[1..] + b;
      SpaceCountAppend(a[1..], b);
    } else {
      assert a + b == b;
    }
  }

  /** A segment without a space counts none. */
  lemma {:induction false} NoSpaceNoCount(s: string)
    ensures ' ' !in s ==> SpaceCount(s) == 0
  {
    if s != [] {
      NoSpaceNoCount(s[1..]);
    }
  }

  /** Splitting on spaces loses nothing: joining the segments with spaces gives the name back. */
  lemma {:induction false} SplitJoinRoundTrip(s: string)
    ensures JoinWithSpace(SplitOnSpace(s)) == s
  {
    if s != [] {
      SplitJoinRoundTrip(s[1..]);
      var rest := SplitOnSpace(s[1..]);
      if s[0] == ' ' {
        assert ([""] + rest)[1..] == rest;
        assert s == [' '] + s[1..];
      } else {
        var segs := [[s[0]] + rest[0]] + rest[1..];
        if |rest| == 1 {
          assert s == [s[0]] + s[1..];
        } else {
          assert segs[1..] == rest[1..];
          assert JoinWithSpace(rest) == rest[0] + " " + JoinWithSpace(rest[1..]);
          assert s == [s[0]] + s[1..];
        }
      }
    }
  }

  /** `n[0]` joined as text: the first character, or nothing for an empty segment. */
  function FirstChar(segment: string): (r: string)
    ensures |r| <= 1 && (r == [] <==> segment == [])
    ensures segment != [] ==> r[0] == segment[0]
  {
    if segment == [] then [] else [segment[0]]
  }

  /** The first characters of the segments, concatenated. */
  function Heads(segments: seq<string>): (r: string)
    ensures |r| <= |segments|
    ensures |r| == |segments| <==> forall k :: 0 <= k < |segments| ==> segments[k] != []
  {
    if segments == [] then [] else FirstChar(segments[0]) + Heads(segments[1..])
  }

  /** The avatar fallback of a student card. */
  function Initials(name: string): (r: string)
    ensures |r| <= |SplitOnSpace(name)|
    ensures forall k :: 0 <= k < |r| ==> r[k] != ' '
  {
    HeadsBound(SplitOnSpace(name));
    Heads(SplitOnSpace(name))
  }

  lemma {:induction false} HeadsBound(segments: seq<string>)
    requires forall k :: 0 <= k < |segments| ==> ' ' !in segments[k]
    ensures |Heads(segments)| <= |segments|
    ensures forall k :: 0 <= k < |Heads(segments)| ==> Heads(segments)[k] != ' '
  {
    if segments != [] {
      HeadsBound(segments[1..]);
      if segments[0] != [] {
        assert segments[0][0] in segments[0];
      }
    }
  }

  /**
   * Reference reading of the initials: every non-space character that starts
   * the name or follows a space. `atStart` says whether the previous character
   * was a space (or there was none).
   */
  function WordStarts(s: string, atStart: bool): string
  {
    if s == [] then []
    else (if atStart && s[0] != ' ' then [s[0]] else []) + WordStarts(s[1..], s[0] == ' ')
  }

  /** The initials are exactly the characters that begin a space-separated word of the name. */
  lemma InitialsAreWordStarts(name: string)
    ensures Initials(name) == WordStarts(name, true)
  {
    HeadsOfSplit(name);
  }

  lemma {:induction false} HeadsOfSplit(t: string)
    ensures Heads(SplitOnSpace(t)) == WordStarts(t, true)
    ensures Heads(SplitOnSpace(t)[1..]) == WordStarts(t, false)
  {
    if t != [] {
      HeadsOfSplit(t[1..]);
      var rest := SplitOnSpace(t[1..]);
      if t[0] == ' ' {
        assert SplitOnSpace(t) == [""] + rest;
        assert SplitOnSpace(t)[1..] == rest;
      } else {
        var segs := [[t[0]] + rest[0]] + rest[1..];
        assert SplitOnSpace(t) == segs;
        assert segs[1..] == rest[1..];
        assert FirstChar(segs[0]) == [t[0]];
      }
    }
  }
}
