# Online-learning pages: the computations, modelled in Dafny

The platform is a set of React pages. Most of each page fetches data and
renders markup. Several pure computations sit inside them, and this project
models those computations as pure functions over immutable records and
proves properties of them:

- **Instructor analytics** (`Analytics`). These are the rollups `fetchAnalytics` builds from the
  per-course, per-quiz and per-lesson statistic records:
  - the total enrollments and the enrollment rate;
  - the average quiz score and the quiz completion rate;
  - the completed-lesson count and the lesson completion rate.

  `Math.round` is modelled exactly over integer ratios (`JsNumber`). Ties go
  toward +infinity. An empty list gives NaN, as `0/0` does.
- **Quiz-draft editor** (`QuizAuthoring`). These are the handlers of the instructor's quiz form:
  - initial draft;
  - title, question and option edits;
  - mark-correct, which stores the option's text rather than its index;
  - add question;
  - successful or failed create;
  - cancel.

  Each handler is a total function on the draft.
- **Dashboard** (`Dashboard`). It covers the student's enrolled courses, the progress lookup
  with default 0, the completed count and the guarded average. It also covers the instructor's own courses,
  the admin's count and first-three slice, the role sections, and the
  precedence of the loading, error, sign-in and dashboard screens.
- **Catalog search** (`Courses`). A course is kept when its title or description contains the search term,
  ignoring case, and its category matches the chosen category.
- **Public lectures** (`Lectures`, `YouTube`). This covers:
  - the drop-down's course titles, de-duplicated in first-seen order;
  - the per-course filter;
  - the default selection;
  - `getYouTubeId`, which models the regular expression's backtracking.
    The greedy `^.*` makes the rightmost marker on the first line decide.

The JavaScript built-ins these pages use are modelled once:
- `JsArray`: `reduce` with `+`, `map`, `filter`, `slice(0, n)` and `[...new Set(xs)]`.
- `JsString`: `toLowerCase` and `includes`.
- `JsNumber`: `Math.round` over a quotient.
- `JsValue`: `null`.

## Model

| member | source | states |
|---|---|---|
| JsNumber.RoundRatio | app/instructor/page.jsx:42-47 | `Math.round(a/b)` is the integer r with r - 1/2 <= a/b < r + 1/2: the nearest integer, ties upward |
| JsNumber.RoundRatioUnique | app/instructor/page.jsx:42-47 | no other integer satisfies the nearest-integer condition, so the condition fully determines the rounded mean |
| JsNumber.RoundRatioBounds | app/dashboard/page.jsx:141-146 | a ratio lying in [lo, hi] rounds to an integer in [lo, hi], so a rounded mean of percentages is a percentage |
| JsNumber.RoundHalfGoesUp | app/dashboard/page.jsx:141-146 | an exact half rounds toward +infinity, for negative values too |
| JsNumber.RoundDiv | app/instructor/page.jsx:55-59 | rounding a quotient by a length is finite iff the length is positive; dividing by zero gives NaN exactly when the numerator is 0, +Infinity for a positive numerator and -Infinity for a negative one |
| JsArray.ReduceSum | app/instructor/page.jsx:38-41 | the `reduce` accumulator loop ends with the sum of all elements |
| JsArray.SumAppend | app/instructor/page.jsx:38-41 | a reduced total of a concatenation is the sum of the two totals |
| JsArray.SumBounds | app/dashboard/page.jsx:142-145 | a sum of n values in [lo, hi] lies in [n*lo, n*hi] |
| JsArray.Map | app/lectures/page.jsx:31 | `map` keeps the length and applies the callback at every index |
| JsArray.MapAppend | app/lectures/page.jsx:31 | `map` of a concatenation is the concatenation of the maps |
| JsArray.MapMembership | app/lectures/page.jsx:31 | a value is in the mapped list iff it is the image of some element |
| JsArray.Filter | app/courses/page.jsx:38-45 | `filter` never lengthens, and an element is in the result iff it is in the input and passes |
| JsArray.FilterIsSubsequence | app/courses/page.jsx:38-45 | `filter` only deletes: the result is a subsequence of the input, so input order is kept |
| JsArray.FilterCount | app/dashboard/page.jsx:109-111 | each passing element keeps its multiplicity and every other element disappears |
| JsArray.FilterAppend | app/courses/page.jsx:38-45 | filtering distributes over concatenation |
| JsArray.FilterAllPass | app/courses/page.jsx:38-45 | when every element passes, `filter` returns the input unchanged |
| JsArray.FilterLength | app/dashboard/page.jsx:132-135 | `filter(...).length` is the number of indices whose element passes |
| JsArray.FilterKeepsAllIff | app/dashboard/page.jsx:132-135 | the filtered length equals the input length iff every element passes |
| JsArray.FilterIdempotent | app/courses/page.jsx:38-45 | filtering twice with one predicate equals filtering once |
| JsArray.FilterNarrower | app/courses/page.jsx:39-41 | a stronger predicate selects a subsequence of what a weaker one selects |
| JsArray.Take | app/dashboard/page.jsx:262 | `slice(0, n)` has min(n, length) elements, and they are the input's leading ones |
| JsArray.Dedupe | app/lectures/page.jsx:30-32 | `[...new Set(xs)]` has no duplicates and contains exactly the values of xs |
| JsArray.DedupeFirstSeenOrder | app/lectures/page.jsx:30-32 | the de-duplicated values are ordered by the index of their first occurrence |
| JsString.LowerChar | app/courses/page.jsx:40-41 | lower-casing changes exactly the letters A-Z, each to its lower-case letter |
| JsString.ToLower | app/courses/page.jsx:40-41 | `toLowerCase` keeps the length and lower-cases character by character |
| JsString.ToLowerAppend | app/courses/page.jsx:40-41 | lower-casing commutes with concatenation |
| JsString.ToLowerIdempotent | app/courses/page.jsx:40-41 | lower-casing twice equals lower-casing once |
| JsString.Includes | app/courses/page.jsx:40-41 | `includes` is true iff the needle occurs at some position of the haystack |
| JsString.IncludesEmpty | app/courses/page.jsx:40-41 | every string includes the empty string |
| JsString.IncludesPrefix | app/courses/page.jsx:40-41 | if a string includes a+b, it includes a |
| Courses.FilterCourses | app/courses/page.jsx:38-45 | a course is shown iff it is in the catalog, its lower-cased title or description contains the lower-cased term, and the filter is "all" or equals its category; the result is a subsequence of the catalog with unchanged multiplicities |
| Courses.EmptySearchMatchesAll | app/courses/page.jsx:39-41 | every course matches the empty search term |
| Courses.EmptySearchAllIsIdentity | app/courses/page.jsx:38-43 | an empty term with category "all" shows the catalog unchanged |
| Courses.FilterCoursesIdempotent | app/courses/page.jsx:38-45 | filtering the shown courses again with the same settings changes nothing |
| Courses.MatchesSearchPrefix | app/courses/page.jsx:39-41 | a course that matches a longer term matches each of the term's prefixes |
| Courses.ExtendingSearchNarrows | app/courses/page.jsx:39-41 | typing more into the search box yields a subsequence of the previous result, so it never adds a course |
| Dashboard.EnrolledCourses | app/dashboard/page.jsx:109-111 | a course is enrolled iff it is in the catalog and some enrollment has its id; catalog order is kept; a course appears as often as in the catalog, however many enrollments match it |
| Dashboard.ProgressOf | app/dashboard/page.jsx:113-116 | the progress is that of the first enrollment with the course id, or 0 if there is none; the user id plays no part |
| Dashboard.ProgressInRange | app/dashboard/page.jsx:113-116 | a looked-up progress is a percentage when every stored progress is |
| Dashboard.CompletedCount | app/dashboard/page.jsx:132-135 | the completed count is the number of positions in the enrolled list whose looked-up progress is exactly 100; it never exceeds the enrolled count, and equals it iff every enrolled course is at 100 |
| Dashboard.CompletedCountOfProgresses | app/dashboard/page.jsx:132-135 | the completed count equals the number of entries equal to 100 in the progress list shown beside the courses |
| Dashboard.AverageProgress | app/dashboard/page.jsx:141-146 | the average is 0 with no enrolled course; otherwise it is the nearest integer to the mean progress; it is in [0, 100] when every progress is |
| Dashboard.MeanProgressInRange | app/dashboard/page.jsx:141-146 | the progress total divided by the enrolled count, or by 1 when nothing is enrolled, rounds to a percentage when every stored progress is |
| Dashboard.StudentDashboard | app/dashboard/page.jsx:108-150 | the student body lists the enrolled courses in catalog order, each as often as in the catalog (so a duplicated catalog course counts twice), each with its looked-up progress; the completed count is the number of listed progresses equal to 100; the average is 0 when nothing is enrolled, otherwise the nearest integer to the mean of the listed progresses, and a percentage when progresses are |
| Dashboard.InstructorCourses | app/dashboard/page.jsx:220-221 | the instructor sees exactly the catalog courses whose instructor id is theirs, in catalog order, each as often as in the catalog; no other course appears |
| Dashboard.AdminDashboard | app/dashboard/page.jsx:240-262 | the admin total is the catalog length, and the recent courses are its first min(3, n) courses in catalog order |
| Dashboard.RoleDispatch | app/dashboard/page.jsx:283-285 | at most one role section renders; one renders iff the role is "student", "instructor" or "admin"; it is the student dashboard of the catalog and enrollments, the instructor's own courses, or the admin dashboard of the catalog respectively |
| Dashboard.Render | app/dashboard/page.jsx:71-106 | the spinner shows iff something is loading; otherwise the error shows iff an error is set; otherwise the sign-in prompt shows iff there is no user; otherwise the role sections show |
| Dashboard.StudentExample | app/dashboard/page.jsx:108-146 | one enrollment at 60% yields one enrolled course at 60%, none completed and an average of 60 |
| Analytics.RoundedMean | app/instructor/page.jsx:42-47 | a rounded mean is NaN for an empty list; otherwise it is finite and the nearest integer to the exact mean, ties upward |
| Analytics.RoundedMeanBounds | app/instructor/page.jsx:67-70 | the rounded mean of values in [lo, hi] lies in [lo, hi] |
| Analytics.CourseStats | app/instructor/page.jsx:37-48 | with no courses the total is 0 and the enrollment rate NaN; with n courses the rate is the integer r with n·r - n/2 <= total average progress < n·r + n/2, the nearest integer to the mean average progress, rounded once |
| Analytics.QuizMetrics | app/instructor/page.jsx:50-60 | the score mean is NaN with no quizzes and otherwise the nearest integer to the mean quiz average score; the completion rate is finite iff there are courses, and is then the nearest integer to 100 x total attempts / number of courses |
| Analytics.LessonMetrics | app/instructor/page.jsx:62-71 | with no lessons the count is 0 and the rate NaN; with lessons the rate is the nearest integer to the mean per-lesson completion rate |
| Analytics.TotalEnrollmentsAdditive | app/instructor/page.jsx:38-41 | the total enrollment adds over any split of the course list, and one course contributes exactly its own enrollments |
| Analytics.AverageScoreIsPercentage | app/instructor/page.jsx:51-54 | whatever the course list, the average quiz score is in [0, 100] when every quiz's average score is |
| Analytics.RoundedOnceAtTheEnd | app/instructor/page.jsx:42-54 | the mean is rounded once, after the division: courses at 0% and 1% give an enrollment rate of 1, quizzes scored 70 and 75 give 73 |
| Analytics.EnrollmentRateIsPercentage | app/instructor/page.jsx:42-47 | the enrollment rate is in [0, 100] when every course's average progress is |
| Analytics.QuizCompletionIgnoresQuizCount | app/instructor/page.jsx:55-59 | appending a quiz without attempts leaves the completion rate unchanged: the divisor is the course count, not the quiz count |
| Analytics.QuizCompletionExceeds100 | app/instructor/page.jsx:55-59 | the completion rate is not bounded by 100: one course with two attempts gives 200 |
| Analytics.QuizCompletionWithoutCourses | app/instructor/page.jsx:55-59 | attempts with no courses give an infinite completion rate |
| Analytics.CompletedLessonsAdditive | app/instructor/page.jsx:63-66 | the completed-lesson count adds over any split, and one lesson contributes its own count, unrounded |
| Analytics.LessonRateIsPercentage | app/instructor/page.jsx:67-70 | the lesson completion rate is in [0, 100] when every lesson's rate is |
| Analytics.EmptyReportIsNaN | app/instructor/page.jsx:42-70 | an empty report yields NaN for every mean, never 0: no mean is guarded |
| QuizAuthoring.SetTitle | app/instructor/page.jsx:282-284 | a title edit sets the title and leaves the questions untouched |
| QuizAuthoring.AddQuestion | app/instructor/page.jsx:144-152 | adding a question appends exactly one blank question with three empty options, and the title and earlier questions stay the same |
| QuizAuthoring.EditQuestionText | app/instructor/page.jsx:295-302 | a question-text edit changes only that question's text |
| QuizAuthoring.EditOption | app/instructor/page.jsx:311-319 | an option edit changes only that one option string; the stored correct answer is not updated |
| QuizAuthoring.MarkCorrect | app/instructor/page.jsx:323-335 | mark-correct stores the option's current text; the answer is then one of the options; an option is highlighted iff its text equals the marked option's text, so equal texts are all highlighted |
| QuizAuthoring.OpenForm | app/instructor/page.jsx:206-209 | "Add Quiz" shows the form for the chosen course and keeps the draft |
| QuizAuthoring.SubmitResult | app/instructor/page.jsx:130-141 | a successful create closes the form and restores the initial draft; a failed create keeps the draft and sets the error message |
| QuizAuthoring.Cancel | app/instructor/page.jsx:353-356 | cancel only hides the form; the draft stays as it is |
| QuizAuthoring.WellShapedPreserved | app/instructor/page.jsx:130-152 | the initial draft and every handler keep every question at exactly three options |
| QuizAuthoring.EditAfterMarkLeavesStaleAnswer | app/instructor/page.jsx:311-335 | editing the text of the marked option keeps the old answer; that option is no longer highlighted; if no other option had that text, the answer matches no option |
| QuizAuthoring.AuthoringExample | app/instructor/page.jsx:144-152 | two adds from the initial draft give three blank questions; marking "B" and then renaming it "B2" keeps the answer "B", which then matches no option |
| Lectures.UniqueCourses | app/lectures/page.jsx:30-33 | the course list has no duplicates; a title is in it iff some lecture has it; titles are ordered by first occurrence |
| Lectures.FilterLectures | app/lectures/page.jsx:59-64 | "all" returns the lectures unchanged; any other value returns exactly the lectures with that course title, in order, with multiplicities kept |
| Lectures.DefaultSelection | app/lectures/page.jsx:36-38 | a lecture is selected iff the list is non-empty, and it is the first lecture |
| Lectures.OfferedTitlesAreNonEmpty | app/lectures/page.jsx:59-64 | every offered course title other than "all" selects at least one lecture |
| YouTube.Utf16Length | app/lectures/page.jsx:56 | JavaScript's `length` is at least the character count and at most twice it |
| YouTube.Utf16LengthOfChar | app/lectures/page.jsx:56 | one character is one code unit inside the Basic Multilingual Plane and two outside it |
| YouTube.Utf16LengthAppend | app/lectures/page.jsx:56 | `length` adds over concatenation, so a mixed string's length is the sum of its characters' code units |
| YouTube.Utf16LengthIsCountIffBmp | app/lectures/page.jsx:56 | the code-unit count equals the character count iff every character is in the Basic Multilingual Plane |
| YouTube.MarkerAt | app/lectures/page.jsx:54 | a marker alternative found at k fits inside the URL |
| YouTube.MarkerAtIsAlternation | app/lectures/page.jsx:54 | a marker of length m is found at k iff the m characters there are one of `youtu`+any non-line-terminator+`be/` (9), `v/` (2), `u/`+word character+`/` (4), `embed/` (6), `watch?v=` (8) or `&v=` (3) |
| YouTube.LineEnd | app/lectures/page.jsx:53-54 | `^.*` reaches up to the first line terminator, or to the end of the URL |
| YouTube.Backtrack | app/lectures/page.jsx:53-55 | the chosen marker position is the greatest one at or below the start with a marker |
| YouTube.RunLength | app/lectures/page.jsx:54 | the second group is the longest run without `#`, `&` or `?` |
| YouTube.GetYouTubeId | app/lectures/page.jsx:51-57 | a missing or empty URL gives null; any id is exactly 11 UTF-16 code units long and has none of `#`, `&`, `?` |
| YouTube.BacktrackFindsRightmost | app/lectures/page.jsx:53-55 | backtracking stops at the rightmost marker |
| YouTube.CaptureAfterMarker | app/lectures/page.jsx:54-55 | once backtracking settles on a marker, the second group is the run of non-stop characters right after it |
| YouTube.IdAfterMarker | app/lectures/page.jsx:55-56 | once a marker is chosen, the id is the run after it if that run is 11 UTF-16 code units long, and null otherwise |
| YouTube.RightmostMarkerDecides | app/lectures/page.jsx:53-56 | the rightmost marker on the first line decides: the id is the run after it when that is 11 code units long, or null, whatever earlier markers give |
| YouTube.NoMarkerNoId | app/lectures/page.jsx:55-56 | a URL with no marker on its first line has no id, whatever follows the first line terminator |
| YouTube.MarkerAfterLineBreakIgnored | app/lectures/page.jsx:53-56 | `\nv/dQw4w9WgXcQ` has no id: `.` stops at the line break, so the `v/` marker after it is never reached |
| YouTube.MarkerEndsInSlashOrEquals | app/lectures/page.jsx:54 | every alternative is at least two characters long and ends in `/` or `=` |
| YouTube.StartsWithVSlash | app/lectures/page.jsx:53-56 | a URL starting with `v/` and with no `#`, `&`, `?`, `/` or `=` after it has the rest of the URL as its id exactly when that is 11 code units long |
| YouTube.VSlashForm | app/lectures/page.jsx:53-56 | `v/` followed by a segment g free of `#`, `&`, `?`, `/`, `=` gives g iff g is 11 code units long, and null otherwise |
| YouTube.AmpVIsRightmost | app/lectures/page.jsx:54 | `&v=` is the marker at its position, and no marker starts after it when no `/` or `=` follows |
| YouTube.LastMarkerIsAmpV | app/lectures/page.jsx:53-56 | a last `&v=` on the first line with a clean tail decides the id, whatever markers come before it |
| YouTube.PlainIdExtracted | app/lectures/page.jsx:51-57 | `v/dQw4w9WgXcQ` gives the id `dQw4w9WgXcQ` |
| YouTube.AstralRunIsNotAnId | app/lectures/page.jsx:56 | `v/` followed by eleven characters outside the Basic Multilingual Plane gives null: they are 22 code units |
| YouTube.LaterMarkerShadowsEarlierId | app/lectures/page.jsx:53-56 | `youtu.be/dQw4w9WgXcQ&v=x` has no id, because the later `&v=` marker shadows the valid `youtu.be/` id |

## Behaviour worth noting

- No mean is guarded. An empty list divides 0 by 0, so every analytics mean of an empty report is NaN, never 0 (`Analytics.EmptyReportIsNaN`). The quiz completion rate divides by the number of courses, so attempts with no courses give an infinity (`Analytics.QuizCompletionWithoutCourses`).
- The student's completed count counts enrolled catalog courses whose first-found progress is 100, not enrollments at 100 (`Dashboard.CompletedCount`).
- Cancel only hides the quiz form. The draft is still there when the form is reopened (`QuizAuthoring.Cancel`).
- There is no way to add an option and no validity check before a create. Every question keeps exactly three options (`QuizAuthoring.WellShapedPreserved`).

## Left out

- Fetching and async code is left out: `fetch`, `useEffect`, the loading and error flags and how they interleave. The dashboard's `loading` is cleared only by the enrollment fetch, and concurrent failures overwrite `error` last-writer-wins. This is I/O and concurrency. `Dashboard.Render` takes the flags as inputs.
- JSX markup and external components and hooks are left out: `Navigation1`, `CourseCard`, `VideoPlayer`, `useUser`, `useAuth`. Their source is not part of this model.
- Request payloads are left out, such as the quiz create's `lessonId: selectedCourse.id`. This is wire plumbing. `QuizAuthoring.SubmitResult` takes the request's outcome as a boolean.
- The course-creation form is left out. It is a two-field record that resets on success and adds nothing beyond the quiz draft.
- app/home/page.jsx and app/course/page.jsx are not part of this model. Their computations are the first-three slice (`JsArray.Take`), the default first lesson and a `parseInt`.
- Analytics.QuizMetrics: computes the exact `round(100 * attempts / courses)`. The page computes `(attempts / courses) * 100` in doubles, which can differ at .5 ties: 29/200 * 100 is 14.499… and gives 14, where exact arithmetic gives 15.
- JsNumber.RoundRatio: rounds exact integer ratios. The statistic fields are modelled as integers, and no double-precision arithmetic is modelled.
- JsString.ToLower: lower-cases the ASCII letters only. Full Unicode `toLowerCase` is not modelled.
- React state plumbing is left out. The question and option handlers write into a shallow copy of the question list, which mutates the shared question objects. They also read the draft from the render closure rather than from `prev`. Each handler is modelled as a pure update of the current draft.
- Selecting a lecture by clicking it is left out. It only stores the clicked lecture.
- Missing or non-array `lessons` in the lectures response is left out. It makes `map` throw, and the page shows its error message.
- YouTube.MarkerAt: the `.` inside `youtu.be` accepts any character other than a line terminator, including one outside the Basic Multilingual Plane. Without the `u` flag JavaScript's `.` matches one UTF-16 code unit, so such a character there gives no match in JavaScript. Characters are Unicode scalar values, and surrogate halves are not modelled. The id's length is counted in code units (`YouTube.Utf16Length`).
- Identifiers are modelled as integers, and JavaScript's cross-type `===` is not modelled. The role is an optional string.
