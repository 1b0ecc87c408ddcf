/**
 * The registration tracking screen: the five status overview cards, the
 * registration table filtered by a search box and a status select, and the
 * status, priority and payment badges of each row. The registration list is
 * never modified; the search term and the status select are inputs.
 */
module RegistrationTracking {
  import opened Text
  import opened EntityList
  import opened Palette

  datatype Registration = Registration(
    id: int,
    studentName: string,
    studentId: string,
    courseName: string,
    registrationDate: string,
    status: string,
    priority: string,
    semester: string,
    paymentStatus: string,
    documents: seq<string>)

  function SearchFields(r: Registration): seq<string>
  {
    [r.studentName, r.studentId, r.courseName]
  }

  function Status(r: Registration): string
  {
    r.status
  }

  /**
   * `filteredRegistrations`: student name, student id or course name contains
   * the term (ASCII case ignored, term not trimmed) and the status select is
   * "all" or equals the registration's status; original order kept.
   */
  function FilteredRegistrations(registrations: seq<Registration>, searchTerm: string, statusFilter: string): (r: seq<Registration>)
    ensures forall x :: x in r <==>
      x in registrations
      && (Includes(Lower(x.studentName), Lower(searchTerm)) || Includes(Lower(x.studentId), Lower(searchTerm))
          || Includes(Lower(x.courseName), Lower(searchTerm)))
      && (statusFilter == "all" || x.status == statusFilter)
    ensures IsSubsequence(r, registrations)
  {
    var q := Query(searchTerm, statusFilter);
    VisibleOrder(registrations, SearchFields, Status, q);
    assert forall x :: SearchMatch(SearchFields(x), searchTerm) <==>
      (Includes(Lower(x.studentName), Lower(searchTerm)) || Includes(Lower(x.studentId), Lower(searchTerm))
       || Includes(Lower(x.courseName), Lower(searchTerm))) by {
      forall x {
        SearchMatchThree(SearchFields(x), searchTerm);
      }
    }
    Visible(registrations, SearchFields, Status, q)
  }

  /** The four statuses the overview cards count. */
  predicate Tracked(status: string)
  {
    status == "Completed" || status == "Pending" || status == "In Review" || status == "Rejected"
  }

  /** The five overview cards. */
  datatype StatusCounts = StatusCounts(total: nat, completed: nat, pending: nat, inReview: nat, rejected: nat)

  /** Number of registrations whose status is exactly `status`. */
  function CountOf(registrations: seq<Registration>, status: string): (n: nat)
    ensures n <= |registrations|
    ensures n == 0 <==> forall x :: x in registrations ==> x.status != status
    ensures n == multiset(Column(registrations, Status))[status]
  {
    WhereCount(registrations, Status, status);
    KeepEmpty(registrations, Is(Status, status));
    |Where(registrations, Status, status)|
  }

  /** `statusCounts`: the length of the list and, per tracked status, how many registrations have it. */
  function Counts(registrations: seq<Registration>): (s: StatusCounts)
    ensures s.total == |registrations|
    ensures s.completed == CountOf(registrations, "Completed")
    ensures s.pending == CountOf(registrations, "Pending")
    ensures s.inReview == CountOf(registrations, "In Review")
    ensures s.rejected == CountOf(registrations, "Rejected")
  {
    StatusCounts(
      |registrations|,
      |Where(registrations, Status, "Completed")|,
      |Where(registrations, Status, "Pending")|,
      |Where(registrations, Status, "In Review")|,
      |Where(registrations, Status, "Rejected")|)
  }

  /** Counting one more registration adds one to the count of its own status only. */
  lemma CountOfStep(registrations: seq<Registration>, status: string)
    requires registrations != []
    ensures CountOf(registrations, status)
         == (if registrations[0].status == status then 1 else 0) + CountOf(registrations[1..], status)
  {
  }

  /** What the four tracked cards add up to. */
  function TrackedSum(s: StatusCounts): nat
  {
    s.completed + s.pending + s.inReview + s.rejected
  }

  /** One more registration adds one to the tracked sum exactly when its status is tracked. */
  lemma TrackedSumStep(registrations: seq<Registration>)
    requires registrations != []
    ensures TrackedSum(Counts(registrations))
         == (if Tracked(registrations[0].status) then 1 else 0) + TrackedSum(Counts(registrations[1..]))
  {
    CountOfStep(registrations, "Completed");
    CountOfStep(registrations, "Pending");
    CountOfStep(registrations, "In Review");
    CountOfStep(registrations, "Rejected");
  }

  /** Every registration has one of the four tracked statuses. */
  predicate AllTracked(registrations: seq<Registration>)
  {
    forall x :: x in registrations ==> Tracked(x.status)
  }

  lemma AllTrackedStep(registrations: seq<Registration>)
    requires registrations != []
    ensures AllTracked(registrations) <==> Tracked(registrations[0].status) && AllTracked(registrations[1..])
  {
  }

  /**
   * The four tracked counts never exceed the total, and they add up to it
   * exactly when every registration has one of the four tracked statuses.
   */
  lemma {:induction false} CountsAddUp(registrations: seq<Registration>)
    ensures TrackedSum(Counts(registrations)) <= |registrations|
    ensures TrackedSum(Counts(registrations)) == |registrations| <==> AllTracked(registrations)
  {
    if registrations != [] {
      CountsAddUp(registrations[1..]);
      TrackedSumStep(registrations);
      AllTrackedStep(registrations);
    }
  }

  /**
   * With an empty search term the table heading's count is the overview card
   * of the selected status, or the total under "All Status".
   */
  lemma EmptyTermTableMatchesCard(registrations: seq<Registration>, statusFilter: string)
    ensures var n := |FilteredRegistrations(registrations, "", statusFilter)|;
      var s := Counts(registrations);
      (statusFilter == "all" ==> n == s.total)
      && (statusFilter == "Completed" ==> n == s.completed)
      && (statusFilter == "Pending" ==> n == s.pending)
      && (statusFilter == "In Review" ==> n == s.inReview)
      && (statusFilter == "Rejected" ==> n == s.rejected)
  {
    EmptyTermVisible(registrations, SearchFields, Status, statusFilter);
    if statusFilter == "all" {
      EmptyQueryShowsAll(registrations, SearchFields, Status);
    } else {
      CategorizeIsWhere(registrations, Status, statusFilter);
    }
  }

  /** The lucide icons of the status column. */
  datatype Glyph = CheckCircle | Clock | AlertCircle | XCircle

  /** An icon and its colour. */
  datatype Icon = Icon(glyph: Glyph, tone: Tone)

  /** `getStatusColor`: Completed green, Pending yellow, In Review blue, Rejected red, anything else gray. */
  function StatusColor(status: string): (r: Tone)
    ensures r == Green <==> status == "Completed"
    ensures r == Yellow <==> status == "Pending"
    ensures r == Blue <==> status == "In Review"
    ensures r == Red <==> status == "Rejected"
    ensures r == Gray <==> !Tracked(status)
  {
    match status
    case "Completed" => Green
    case "Pending" => Yellow
    case "In Review" => Blue
    case "Rejected" => Red
    case _ => Gray
  }

  /**
   * `getStatusIcon`: a check for Completed, a clock for Pending, an alert for
   * In Review, a cross for Rejected and a gray clock otherwise; the icon is
   * always coloured like the status badge beside it.
   */
  function StatusIcon(status: string): (r: Icon)
    ensures r.tone == StatusColor(status)
    ensures r.glyph == CheckCircle <==> status == "Completed"
    ensures r.glyph == AlertCircle <==> status == "In Review"
    ensures r.glyph == XCircle <==> status == "Rejected"
    ensures r.glyph == Clock <==> status == "Pending" || !Tracked(status)
  {
    match status
    case "Completed" => Icon(CheckCircle, Green)
    case "Pending" => Icon(Clock, Yellow)
    case "In Review" => Icon(AlertCircle, Blue)
    case "Rejected" => Icon(XCircle, Red)
    case _ => Icon(Clock, Gray)
  }

  /** The four tracked statuses get four different icons, none of them the default one. */
  lemma TrackedIconsDistinct(s1: string, s2: string)
    requires Tracked(s1) && Tracked(s2) && s1 != s2
    ensures StatusIcon(s1) != StatusIcon(s2)
    ensures StatusIcon(s1) != StatusIcon("")
  {
  }

  /** `getPriorityColor`: High red, Normal blue, Low and anything else gray. */
  function PriorityColor(priority: string): (r: Tone)
    ensures r == Red <==> priority == "High"
    ensures r == Blue <==> priority == "Normal"
    ensures r == Gray <==> priority != "High" && priority != "Normal"
  {
    match priority
    case "High" => Red
    case "Normal" => Blue
    case "Low" => Gray
    case _ => Gray
  }

  /** The payment badge: green when paid, yellow for every other payment status. */
  function PaymentColor(paymentStatus: string): (r: Tone)
    ensures r == Green <==> paymentStatus == "Paid"
    ensures r == Yellow <==> paymentStatus != "Paid"
  {
    if paymentStatus == "Paid" then Green else Yellow
  }
}
