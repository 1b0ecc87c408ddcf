# Student administration dashboard — list and record logic

This project models the logic underneath the markup of a React admin dashboard
for a student administration office. The dashboard has six screens that hold
logic:

- **Course catalogue** (`CourseManagement`): course cards filtered by a search box and
  a department select. It also has four statistics cards, the department list of the
  select, an enrolment colour per card, and an "Enroll" button that is disabled for
  full courses.
- **Course browser** (`CourseEnrollment`): the same filter. Clicking a card selects a
  course, the selected card is ringed, and a detail pane shows the selected course.
- **Student browser** (`StudentProfile`): a searchable student list with a selected
  student and a show/hide "Add Student" form.
- **Student directory** (`StudentManagement`): student cards filtered by search and
  status. Each card has an avatar that falls back to the student's initials.
- **Registration tracking** (`RegistrationTracking`): the registration table with
  search and status filter, five status-count cards, and status, icon, priority and
  payment badges.
- **Affiliates editor** (`AffiliatesManagement`): five student-count inputs whose year
  fields keep the total in step, and a year-wise spreadsheet table where an upload
  replaces the sheet of its year.

Five of these screens search their records by one rule: some field, lower-cased,
contains the lower-cased search term. Four of them also have a categorical select,
which is `"all"` or must equal the record's field. The student browser has no select
and searches only. The rule lives once, generically, in `EntityList`. Each screen
supplies its three search fields, and the four with a select supply the category
field too.

- `Text` holds ASCII case mapping and JavaScript's `String.prototype.includes`.
- `Palette` holds the colour families the badge classes stand for.
- The screens whose state the source overwrites in handlers are classes:
  - `CourseEnrollment.CourseBrowser` holds the search term, department select and
    selected course;
  - `StudentProfile.StudentBrowser` holds the selected student, search term and form
    visibility;
  - `AffiliatesManagement.AffiliatesBoard` holds the counts and the sheet table.
- Everything else is functions and lemmas.

Modelling choices:

- The search term is not trimmed. A term of spaces matches only fields that contain
  those spaces.
- A record is selected by clicking a rendered row, so selection takes a position in
  the visible list. No id lookup can fail.
- Records are not checked for unique ids when loaded. Where uniqueness matters (the
  highlight, the year lookup), it is a precondition of the lemma that needs it.
- Statuses, departments and priorities are free strings, not closed enumerations.
  Every colour function has the source's default branch for values it does not list.

## Model

| member | source | states |
|---|---|---|
| Text.Lower | src/components/course-management/CourseEnrollment.tsx:114-116 | `toLowerCase` keeps the length and maps each character on its own: A–Z to a–z, everything else unchanged |
| Text.Upper | src/components/student-management/StudentProfile.tsx:94-96 | ASCII upper-casing keeps the length and maps a–z to A–Z |
| Text.Includes | src/components/course-management/CourseEnrollment.tsx:114-116 | `hay.includes(needle)` holds exactly when the needle occurs at some position of the haystack |
| Text.EmptyIsEverywhere | src/components/course-management/CourseEnrollment.tsx:114 | `includes("")` is always true |
| Text.SubstringTransitive | src/components/StudentProfile.tsx:67-71 | a substring of a substring is a substring |
| Text.LowerKeepsSubstring | src/components/StudentProfile.tsx:67-71 | if `a` occurs in `b`, lower(a) occurs in lower(b) |
| Text.LowerOfUpper | src/components/student-management/StudentProfile.tsx:94-96 | lower-casing an upper-cased string equals lower-casing the original |
| EntityList.Keep | src/components/course-management/CourseEnrollment.tsx:113-119 | `Array.filter`: never longer than the input; a record is in it iff it is in the input and passes the predicate |
| EntityList.KeepIsSubsequence | src/components/course-management/CourseEnrollment.tsx:113-119 | the filtered list is an order-preserving subsequence of the input, with an index embedding as witness |
| EntityList.KeepMultiset | src/components/course-management/CourseEnrollment.tsx:113-119 | each passing record is kept exactly as often as it occurs, each failing one never |
| EntityList.KeepEverything | src/components/course-management/CourseEnrollment.tsx:113-119 | when every record passes, the filter returns the list unchanged |
| EntityList.KeepEmpty | src/components/course-management/CourseEnrollment.tsx:342 | the filtered list is empty iff no record passes |
| EntityList.KeepNarrowing | src/components/StudentProfile.tsx:67-71 | filtering by a stronger predicate after a weaker one equals filtering by the stronger one alone |
| EntityList.KeepBoth | src/components/course-management/CourseEnrollment.tsx:117-118 | two filters in a row, in either order, equal one filter by the conjunction |
| EntityList.KeepIdempotent | src/components/CourseEnrollment.tsx:86-92 | filtering twice by the same predicate equals filtering once |
| EntityList.KeepPartition | src/components/course-management/CourseEnrollment.tsx:240-252 | kept plus dropped records number exactly the input |
| EntityList.DisjointCounts | src/components/course-management/CourseEnrollment.tsx:240-252 | counts of two exclusive predicates add up to at most the list length |
| EntityList.Sum | src/components/course-management/CourseEnrollment.tsx:264 | `reduce((sum, c) => sum + value(c), 0)`; its left-to-right reading is stated by SumSnoc |
| EntityList.SumSnoc | src/components/course-management/CourseEnrollment.tsx:264 | one more record at the end of the list adds exactly its value to the sum, as `reduce` accumulates |
| EntityList.SumPartition | src/components/course-management/CourseEnrollment.tsx:264 | the `reduce` sum over a list is the sum over the kept records plus the sum over the dropped ones |
| EntityList.KeepKeepsUniqueKeys | src/components/CourseEnrollment.tsx:160-162 | a filter keeps unique ids unique |
| EntityList.SearchMatch | src/components/course-management/CourseEnrollment.tsx:114-116 | the `\|\|` chain of `includes` tests over the searchable fields; characterised by SearchMatchMeaning |
| EntityList.SearchMatchMeaning | src/components/course-management/CourseEnrollment.tsx:114-116 | the search matches iff some searchable field, lower-cased, contains the lower-cased term |
| EntityList.SearchMatchThree | src/components/course-management/CourseEnrollment.tsx:114-116 | for three fields the search is the three-way `\|\|` of `includes` tests |
| EntityList.Visible | src/components/course-management/CourseEnrollment.tsx:113-119 | never longer than the list; a record is visible iff it is in the list, some field contains the term (case ignored) and the select is `"all"` or equals its category |
| EntityList.VisibleOrder | src/components/course-management/CourseEnrollment.tsx:113-119 | the visible records are a subsequence of the list |
| EntityList.VisibleIsBothFilters | src/components/course-management/CourseEnrollment.tsx:117-118 | visible = category filter of the search result = search of the category filter result |
| EntityList.EmptyTermMatches | src/components/course-management/CourseEnrollment.tsx:114-116 | the empty term matches any record with at least one searchable field |
| EntityList.EmptyTermVisible | src/components/student-management/StudentProfile.tsx:93-99 | with an empty term only the categorical filter remains |
| EntityList.EmptyQueryShowsAll | src/components/course-management/CourseEnrollment.tsx:113-119 | empty term and `"all"` show the list unchanged |
| EntityList.VisibleIdempotent | src/components/CourseEnrollment.tsx:86-92 | applying the same query to the visible list changes nothing |
| EntityList.SearchMatchSameLower | src/components/student-management/StudentProfile.tsx:94-96 | the search sees the term only through its lower-cased form |
| EntityList.SearchIgnoresCase | src/components/student-management/StudentProfile.tsx:94-96 | upper-casing the term leaves the visible list unchanged |
| EntityList.LongerTermNarrows | src/components/StudentProfile.tsx:67-71 | the result for a longer term (containing the shorter) is the result for the shorter, filtered again |
| EntityList.EmptyTermSearch | src/components/StudentProfile.tsx:67-71 | text search alone with the empty term returns everything |
| EntityList.CategorizeIsWhere | src/components/registration/RegistrationTracking.tsx:98 | a categorical filter other than `"all"` is exact equality on the field |
| EntityList.KeepExtensional | src/components/course-management/CourseEnrollment.tsx:113-119 | filters by predicates that agree on every record give the same list |
| EntityList.WhereCount | src/components/course-management/CourseEnrollment.tsx:240 | the length of `rs.filter(x => key(x) === v)` is the number of times v occurs in the key column |
| EntityList.FirstIndex | src/components/course-management/CourseEnrollment.tsx:121 | the first position of a value: it holds the value and no earlier position does |
| EntityList.Distinct | src/components/course-management/CourseEnrollment.tsx:121 | `[...new Set(xs)]` is never longer than `xs` and holds exactly the values of `xs` |
| EntityList.DistinctFacts | src/components/course-management/CourseEnrollment.tsx:121 | `[...new Set(xs)]` has no duplicates, exactly the values of `xs`, ordered by first occurrence |
| CourseManagement.FilteredCourses | src/components/course-management/CourseEnrollment.tsx:113-119 | course visible iff name, code or instructor contains the term (ASCII case ignored) and department filter passes; order kept |
| CourseManagement.EmptyQueryShowsAllCourses | src/components/course-management/CourseEnrollment.tsx:113-119 | empty term with `"all"` shows every course unchanged |
| CourseManagement.SearchAndDepartmentCombine | src/components/course-management/CourseEnrollment.tsx:117-118 | search and department filter combine by AND, in either order |
| CourseManagement.OnlyTheSearchIgnoresCase | src/components/course-management/CourseEnrollment.tsx:114-117 | upper-casing the term changes nothing; a department differing from the filter, even only in case, is hidden |
| CourseManagement.NoCoursesFoundWhenNothingMatches | src/components/course-management/CourseEnrollment.tsx:342-350 | "No courses found" shows iff no course passes search and filter |
| CourseManagement.Departments | src/components/course-management/CourseEnrollment.tsx:121 | department list: no duplicates, exactly the departments of some course, in order of first course |
| CourseManagement.Statistics | src/components/course-management/CourseEnrollment.tsx:228-264 | total is the course count; Open and Full are the number of times "Open" and "Full" occur in the status column, together never more than the total, 0 when no course has the status; Total Enrolled is the `reduce` sum of enrolled students over all courses |
| CourseManagement.TotalEnrolledIgnoresQuery | src/components/course-management/CourseEnrollment.tsx:264 | "Total Enrolled" is over all courses: visible sum plus hidden sum, whatever the query |
| CourseManagement.CapacityColor | src/components/course-management/CourseEnrollment.tsx:106-111 | for max > 0: red iff enrolled ≥ max, yellow iff below max and 5·enrolled ≥ 4·max, green iff 5·enrolled < 4·max |
| CourseManagement.CapacityColorMonotone | src/components/course-management/CourseEnrollment.tsx:106-111 | more enrolled students never make the colour less alarming |
| CourseManagement.StatusColor | src/components/course-management/CourseEnrollment.tsx:96-104 | Open green, Full red, Waitlist yellow, Closed and anything else gray, each as an iff |
| CourseManagement.EnrollDisabled | src/components/course-management/CourseEnrollment.tsx:332 | `disabled={course.status === 'Full'}`; related to the badge by EnrollDisabledIffRedBadge |
| CourseManagement.EnrollDisabledIffRedBadge | src/components/course-management/CourseEnrollment.tsx:332 | the card's Enroll button is disabled exactly for the cards whose badge is red (status Full) |
| CourseEnrollment.FilteredCourses | src/components/CourseEnrollment.tsx:86-92 | course visible iff name, code or instructor contains the term and department filter passes; order kept |
| CourseEnrollment.FilterIdempotent | src/components/CourseEnrollment.tsx:86-92 | filtering the filtered list with the same query returns it unchanged |
| CourseEnrollment.StatusColor | src/components/CourseEnrollment.tsx:94-101 | Open green, Full red, Closed gray, anything else blue, each as an iff |
| CourseEnrollment.EnrollDisabled | src/components/CourseEnrollment.tsx:254 | the detail pane's button is disabled for a Full course; related to the badge by EnrollDisabledIffRedBadge |
| CourseEnrollment.Highlighted | src/components/CourseEnrollment.tsx:160-162 | the ring condition `selectedCourse?.id === course.id`; its uniqueness is stated by AtMostOneHighlighted and ClickedCardIsTheHighlight |
| CourseEnrollment.EnrollDisabledIffRedBadge | src/components/CourseEnrollment.tsx:254 | the detail pane's Enroll button is disabled iff the status badge is red (status Full) |
| CourseEnrollment.AtMostOneHighlighted | src/components/CourseEnrollment.tsx:160-162 | with unique ids, at most one visible card is ringed, whatever is selected |
| CourseEnrollment.ClickedCardIsTheHighlight | src/components/CourseEnrollment.tsx:160-163 | after clicking visible card i, with unique ids, card i and only card i is ringed |
| CourseEnrollment.CourseBrowser.constructor | src/components/CourseEnrollment.tsx:13-15 | starts with empty search, `"all"`, nothing selected |
| CourseEnrollment.CourseBrowser.SetSearchTerm | src/components/CourseEnrollment.tsx:132 | sets the term; selection and department filter unchanged |
| CourseEnrollment.CourseBrowser.SetFilterDepartment | src/components/CourseEnrollment.tsx:136 | sets the department filter; selection and term unchanged |
| CourseEnrollment.CourseBrowser.ClickCourse | src/components/CourseEnrollment.tsx:160-163 | selects the clicked visible course; term and filter unchanged; the selection stays one of the courses; with unique ids the clicked card, and no other listed card, carries the ring |
| StudentProfile.FilteredStudents | src/components/StudentProfile.tsx:67-71 | student listed iff name, student id or email contains the term (ASCII case ignored); order kept |
| StudentProfile.EmptyTermListsEveryone | src/components/StudentProfile.tsx:67-71 | no categorical filter: the empty term lists every student unchanged |
| StudentProfile.ExtendingTheTermShrinksTheList | src/components/StudentProfile.tsx:67-71 | if t1 occurs in t2, the list for t2 is a subsequence (and subset) of the list for t1 |
| StudentProfile.StatusColor | src/components/StudentProfile.tsx:88-95 | Active green, Inactive red, Graduated blue, anything else gray, each as an iff |
| StudentProfile.Highlighted | src/components/StudentProfile.tsx:134-136 | the mark condition `selectedStudent?.id === student.id`; its uniqueness is stated by ClickedEntryIsTheHighlight |
| StudentProfile.ClickedEntryIsTheHighlight | src/components/StudentProfile.tsx:133-136 | after clicking listed entry i, with unique ids, entry i alone carries the highlight |
| StudentProfile.StudentBrowser.constructor | src/components/StudentProfile.tsx:15-17 | starts with nothing selected, empty search, form hidden |
| StudentProfile.StudentBrowser.SetSearchTerm | src/components/StudentProfile.tsx:123 | sets the term; selection and form visibility unchanged |
| StudentProfile.StudentBrowser.ClickStudent | src/components/StudentProfile.tsx:133-136 | selects the clicked listed student; term and form unchanged; with unique ids the clicked entry, and no other listed entry, carries the mark |
| StudentProfile.StudentBrowser.OpenAddForm | src/components/StudentProfile.tsx:105 | shows the form; selection and term unchanged |
| StudentProfile.StudentBrowser.CancelAddForm | src/components/StudentProfile.tsx:329 | hides the form; selection and term unchanged |
| StudentProfile.StudentBrowser.AddStudent | src/components/StudentProfile.tsx:73-79 | hides the form and leaves the student list, hence the listed entries, unchanged |
| StudentManagement.FilteredStudents | src/components/student-management/StudentProfile.tsx:93-99 | student shown iff name, email or major contains the term and status filter passes; order kept |
| StudentManagement.EmptyTermFiltersByStatusOnly | src/components/student-management/StudentProfile.tsx:97-98 | with an empty term and status S ≠ `"all"`, exactly the students with status S in order; with `"all"`, everyone |
| StudentManagement.SearchIsCaseInsensitive | src/components/student-management/StudentProfile.tsx:94-96 | upper-casing the term leaves the grid unchanged |
| StudentManagement.NoStudentsFoundWhenNothingMatches | src/components/student-management/StudentProfile.tsx:249 | "No students found" shows iff no student passes search and status filter |
| StudentManagement.StatusColor | src/components/student-management/StudentProfile.tsx:83-91 | Active green, On Leave yellow, Graduated blue, Inactive and anything else gray, each as an iff |
| StudentManagement.SplitOnSpace | src/components/student-management/StudentProfile.tsx:204 | `split(' ')`: one segment more than there are spaces, no segment contains a space |
| StudentManagement.JoinWithSpace | src/components/student-management/StudentProfile.tsx:204 | `join(' ')`, the inverse of the split: it starts with the first segment and, for space-free segments, holds exactly one space fewer than there are segments |
| StudentManagement.SplitJoinRoundTrip | src/components/student-management/StudentProfile.tsx:204 | joining the segments with spaces gives the name back |
| StudentManagement.Initials | src/components/student-management/StudentProfile.tsx:204 | the initials are at most one per segment and contain no space |
| StudentManagement.FirstChar | src/components/student-management/StudentProfile.tsx:204 | `n[0]` as text: at most one character, empty only for an empty segment, otherwise the segment's first character |
| StudentManagement.Heads | src/components/student-management/StudentProfile.tsx:204 | `map(n => n[0]).join('')`: at most one character per segment, exactly one each iff no segment is empty |
| StudentManagement.HeadsBound | src/components/student-management/StudentProfile.tsx:204 | first characters of space-free segments: at most one per segment, none a space |
| StudentManagement.InitialsAreWordStarts | src/components/student-management/StudentProfile.tsx:204 | initials = every non-space character at the start of the name or right after a space |
| StudentManagement.HeadsOfSplit | src/components/student-management/StudentProfile.tsx:204 | heads of the split segments equal the word starts, both from the start and after the first segment |
| RegistrationTracking.FilteredRegistrations | src/components/registration/RegistrationTracking.tsx:94-100 | registration shown iff student name, student id or course name contains the term and status filter passes; order kept |
| RegistrationTracking.CountOf | src/components/registration/RegistrationTracking.tsx:104-107 | a per-status count is the number of times the status occurs in the status column; at most the list length; 0 iff no registration has that status |
| RegistrationTracking.Counts | src/components/registration/RegistrationTracking.tsx:102-108 | total is the list length; each named card counts the registrations with exactly that status |
| RegistrationTracking.CountOfStep | src/components/registration/RegistrationTracking.tsx:104-107 | one more registration adds one to the count of its own status only |
| RegistrationTracking.TrackedSumStep | src/components/registration/RegistrationTracking.tsx:104-107 | one more registration adds one to the four-card sum iff its status is one of the four |
| RegistrationTracking.AllTrackedStep | src/components/registration/RegistrationTracking.tsx:102-108 | every status is tracked iff the first is and every later one is |
| RegistrationTracking.CountsAddUp | src/components/registration/RegistrationTracking.tsx:102-108 | completed + pending + inReview + rejected ≤ total, with equality iff every status is one of the four |
| RegistrationTracking.EmptyTermTableMatchesCard | src/components/registration/RegistrationTracking.tsx:94-108 | with an empty term the table count is the card of the selected status, or the total under `"all"` |
| RegistrationTracking.StatusColor | src/components/registration/RegistrationTracking.tsx:75-83 | Completed green, Pending yellow, In Review blue, Rejected red, anything else gray, each as an iff |
| RegistrationTracking.StatusIcon | src/components/registration/RegistrationTracking.tsx:65-73 | check / clock / alert / cross for the four statuses, gray clock otherwise; icon colour always equals the badge colour |
| RegistrationTracking.TrackedIconsDistinct | src/components/registration/RegistrationTracking.tsx:65-73 | the four tracked statuses get four different icons, none equal to the default |
| RegistrationTracking.PriorityColor | src/components/registration/RegistrationTracking.tsx:85-92 | High red, Normal blue, Low and anything else gray, each as an iff |
| RegistrationTracking.PaymentColor | src/components/registration/RegistrationTracking.tsx:265 | payment badge green iff status is Paid, yellow otherwise |
| AffiliatesManagement.TrimStart | src/components/affiliates/AffiliatesManagement.tsx:63 | `parseInt` drops leading JavaScript white space: a suffix whose first character is not white space |
| AffiliatesManagement.DigitPrefix | src/components/affiliates/AffiliatesManagement.tsx:63 | the longest prefix of digits of the radix: all digits, and the next character is not one |
| AffiliatesManagement.Magnitude | src/components/affiliates/AffiliatesManagement.tsx:63 | the unsigned part of `parseInt`: never negative, only from a leading decimal digit (a `0` before `x` included), NaN when the input does not start with a hexadecimal digit |
| AffiliatesManagement.ParseSigned | src/components/affiliates/AffiliatesManagement.tsx:63 | an optional sign then the magnitude: a negative result only after a leading `-`; a number only if the text holds a decimal digit |
| AffiliatesManagement.ParseInt | src/components/affiliates/AffiliatesManagement.tsx:63 | `parseInt(value)`: negative only if the input has a `-`, a number only if it holds a decimal digit; round trip in ParseDecimal, NaN case in NoDigitsGivesZero |
| AffiliatesManagement.ParseIntOrZero | src/components/affiliates/AffiliatesManagement.tsx:63 | `parseInt(value) \|\| 0`: non-zero only for an input holding a decimal digit, negative only for one holding a `-` |
| AffiliatesManagement.Digits | src/components/affiliates/AffiliatesManagement.tsx:63 | decimal rendering of a natural number: non-empty, all digits, leading 0 only for 0 |
| AffiliatesManagement.ValueOfDigits | src/components/affiliates/AffiliatesManagement.tsx:63 | the digits of n denote n |
| AffiliatesManagement.TrimStartSpaces | src/components/affiliates/AffiliatesManagement.tsx:63 | white space before a non-space start is all that is trimmed |
| AffiliatesManagement.DigitPrefixStops | src/components/affiliates/AffiliatesManagement.tsx:63 | the digit run ends where the first non-digit is |
| AffiliatesManagement.MagnitudeOfDigits | src/components/affiliates/AffiliatesManagement.tsx:63 | the decimal digits of m followed by a non-continuation read as m (a lone 0 before x would start hex) |
| AffiliatesManagement.ParseIntSkipsSpaces | src/components/affiliates/AffiliatesManagement.tsx:63 | leading white space does not change what `parseInt` reads |
| AffiliatesManagement.SignedDecimal | src/components/affiliates/AffiliatesManagement.tsx:63 | a signed decimal followed by a non-continuation reads back as the number |
| AffiliatesManagement.NegativeDecimal | src/components/affiliates/AffiliatesManagement.tsx:63 | `-` then the digits of m > 0 reads as −m |
| AffiliatesManagement.UnsignedDecimal | src/components/affiliates/AffiliatesManagement.tsx:63 | the digits of m read as m |
| AffiliatesManagement.ParseDecimal | src/components/affiliates/AffiliatesManagement.tsx:63 | round trip: white space, the decimal form of n, then a non-continuation parse to n, and `\|\| 0` keeps n |
| AffiliatesManagement.NoDigitsGivesZero | src/components/affiliates/AffiliatesManagement.tsx:63 | an input with no decimal digit is NaN, so the stored value is 0 |
| AffiliatesManagement.WithField | src/components/affiliates/AffiliatesManagement.tsx:65 | `{...prev, [field]: n}`: the field becomes n, every other field is copied |
| AffiliatesManagement.Updated | src/components/affiliates/AffiliatesManagement.tsx:64-71 | the edited field becomes n and the other year fields keep their value; after a year edit the total is the year sum; after a total edit the counts agree iff n is the year sum |
| AffiliatesManagement.UpdateIdempotent | src/components/affiliates/AffiliatesManagement.tsx:62-72 | repeating the same edit changes nothing more |
| AffiliatesManagement.YearEditOverridesTotal | src/components/affiliates/AffiliatesManagement.tsx:67-69 | after a year edit the total no longer depends on its previous value |
| AffiliatesManagement.Upserted | src/components/affiliates/AffiliatesManagement.tsx:83 | the new sheet is last, no other sheet has its year, others are exactly the old sheets of other years in their order, at most one sheet added |
| AffiliatesManagement.FindByYear | src/components/affiliates/AffiliatesManagement.tsx:209 | `find` returns a sheet iff some sheet has that year, and it is the FIRST such sheet of the table |
| AffiliatesManagement.FindUnique | src/components/affiliates/AffiliatesManagement.tsx:209 | with unique years the lookup returns the one sheet of that year |
| AffiliatesManagement.UpsertKeepsYearsUnique | src/components/affiliates/AffiliatesManagement.tsx:83 | unique years stay unique after an upload |
| AffiliatesManagement.FindLast | src/components/affiliates/AffiliatesManagement.tsx:209 | when only the last sheet has the year, the lookup returns it |
| AffiliatesManagement.FindUploaded | src/components/affiliates/AffiliatesManagement.tsx:74-85 | after an upload the lookup of its year returns the new sheet |
| AffiliatesManagement.FindAppend | src/components/affiliates/AffiliatesManagement.tsx:83 | appending a sheet of another year does not change a lookup |
| AffiliatesManagement.FindInOtherYears | src/components/affiliates/AffiliatesManagement.tsx:83 | dropping the sheets of one year does not change the lookup of another |
| AffiliatesManagement.FindOtherYear | src/components/affiliates/AffiliatesManagement.tsx:83 | an upload leaves the lookup of every other year as it was |
| AffiliatesManagement.AffiliatesBoard.constructor | src/components/affiliates/AffiliatesManagement.tsx:27-38 | initial counts 150/120/100/80/450 (consistent) and two sheets; the table starts with unique years (`Valid`) |
| AffiliatesManagement.AffiliatesBoard.UpdateStat | src/components/affiliates/AffiliatesManagement.tsx:62-72 | the counts become `Updated(old counts, field, parseInt(value) \|\| 0)`; the sheets are untouched, so their years stay unique |
| AffiliatesManagement.AffiliatesBoard.UploadSheet | src/components/affiliates/AffiliatesManagement.tsx:74-85 | no file: nothing changes; otherwise the table becomes the upsert of the new sheet named after the first file, and the years stay unique; the lookup of the uploaded year is the new sheet, every other year's lookup is as before, and each sheet of the table is what the lookup of its year returns; counts untouched |

## Left out

- Rendering: JSX, Tailwind class strings, dialogs, tabs, progress bars and icons. Only their role as colour and icon families is modelled.
- Notifications: `handleEnrollStudent` (src/components/CourseEnrollment.tsx:103-108) and `handleUpdateStudent` (src/components/StudentProfile.tsx:81-86) only raise a notification and are not modelled. `AddStudent` models only the form being hidden.
- The add-student and enroll dialogs' open/close state on the catalogue and directory screens is presentation only.
- The benefits editor of the affiliates screen (`benefitsContent`, `isEditingBenefits`) is free-text editing with no logic.
- Both analytics dashboards and the page shell (src/pages/Index.tsx) are static data and routing. They are not part of this model.
- The browser supplies the upload date (`new Date()`) and the download URL (`URL.createObjectURL`). They are parameters of `AffiliatesBoard.UploadSheet`. A file is reduced to its name.
- CourseManagement.CapacityColor: requires max > 0. The source divides by `max` in floating point, and a zero capacity would give Infinity or NaN. The progress-bar width percentage is not modelled.
- Text.Lower: ASCII only. `toLowerCase` also maps non-ASCII letters.
- StudentManagement.Initials: a Dafny `char` is a whole Unicode scalar value, while `n[0]` in JavaScript takes one UTF-16 code unit. For a word that starts with a character outside the Basic Multilingual Plane, the source shows half a surrogate pair and the model shows the whole character.
- AffiliatesManagement.ParseInt: numbers are unbounded integers. JavaScript's `parseInt` returns a double that loses precision beyond 2^53. The sign of `-0` is not kept, but `|| 0` makes it 0 anyway.
- Sums and counts are unbounded integers, not JavaScript numbers.
- The initial literal records of each screen are not modelled, except the affiliates editor's initial counts and sheets.

