/**
 * The dashboard page: which of the loading, error, sign-in and dashboard
 * views is shown, and the role-specific body the dashboard holds. The
 * student body lists the enrolled courses with their progress, the number
 * completed and the average progress; the instructor body lists the
 * instructor's own courses; the admin body shows the catalog size and the
 * first three courses.
 */
module Dashboard {
  import opened JsArray
  import opened JsNumber
  import opened JsValue
  import opened Courses

  /** An enrollment record as the enrollment API returns it. */
  datatype Enrollment = Enrollment(userId: int, courseId: int, progress: int)

  /** The signed-in user (only the id is read by the computations). */
  datatype User = User(id: int, name: string)

  /** `enrollments.some(e => e.course_id === courseId)` */
  predicate HasEnrollment(enrollments: seq<Enrollment>, courseId: int)
  {
    exists i :: 0 <= i < |enrollments| && enrollments[i].courseId == courseId
  }

  /** `enrolledCourses`: the catalog courses with at least one matching
      enrollment, in catalog order. */
  function EnrolledCourses(courses: seq<Course>, enrollments: seq<Enrollment>): (r: seq<Course>)
    ensures forall c :: c in r <==> c in courses && HasEnrollment(enrollments, c.id)
    ensures IsSubsequence(r, courses)
    // a course appears as often as in the catalog, however many enrollments match it
    ensures forall c: Course :: HasEnrollment(enrollments, c.id) ==> multiset(r)[c] == multiset(courses)[c]
  {
    var p := (c: Course) => HasEnrollment(enrollments, c.id);
    FilterIsSubsequence(courses, p);
    forall c ensures multiset(Filter(courses, p))[c] == if p(c) then multiset(courses)[c] else 0 {
      FilterCount(courses, p, c);
    }
    Filter(courses, p)
  }

  /** Enrollment i is the first one for the course. */
  predicate IsFirstFor(enrollments: seq<Enrollment>, courseId: int, i: int)
  {
    && 0 <= i < |enrollments|
    && enrollments[i].courseId == courseId
    && forall j :: 0 <= j < i ==> enrollments[j].courseId != courseId
  }

  /** `getEnrollmentProgress`: the progress of the first enrollment for the
      course (`find`), or 0 when there is none. The user id is not checked. */
  function ProgressOf(enrollments: seq<Enrollment>, courseId: int): (r: int)
    ensures !HasEnrollment(enrollments, courseId) ==> r == 0
    ensures HasEnrollment(enrollments, courseId) ==>
      exists i :: IsFirstFor(enrollments, courseId, i) && r == enrollments[i].progress
  {
    if |enrollments| == 0 then 0
    else if enrollments[0].courseId == courseId then
      assert IsFirstFor(enrollments, courseId, 0);
      enrollments[0].progress
    else
      var rest := enrollments[1..];
      assert forall i :: 1 <= i < |enrollments| ==> enrollments[i] == rest[i - 1];
      assert HasEnrollment(enrollments, courseId) ==> HasEnrollment(rest, courseId);
      var r := ProgressOf(rest, courseId);
      assert HasEnrollment(rest, courseId) ==>
        exists i :: IsFirstFor(enrollments, courseId, i) && r == enrollments[i].progress
      by {
        if HasEnrollment(rest, courseId) {
          var k :| IsFirstFor(rest, courseId, k) && r == rest[k].progress;
          assert IsFirstFor(enrollments, courseId, k + 1);
        }
      }
      r
  }

  predicate ValidProgress(enrollments: seq<Enrollment>)
  {
    forall i :: 0 <= i < |enrollments| ==> 0 <= enrollments[i].progress <= 100
  }

  /** A looked-up progress is a stored progress or the default 0, so it is a
      percentage whenever every stored progress is. */
  lemma ProgressInRange(enrollments: seq<Enrollment>, courseId: int)
    requires ValidProgress(enrollments)
    ensures 0 <= ProgressOf(enrollments, courseId) <= 100
  {
  }

  /** The progress shown next to each enrolled course. */
  function Progresses(enrolled: seq<Course>, enrollments: seq<Enrollment>): seq<int>
  {
    Map(enrolled, (c: Course) => ProgressOf(enrollments, c.id))
  }

  /** "Completed Courses": enrolled courses whose progress is exactly 100. */
  function CompletedCount(enrolled: seq<Course>, enrollments: seq<Enrollment>): (r: nat)
    // the number of positions in the enrolled list whose progress is 100
    ensures r == |set i | 0 <= i < |enrolled| && ProgressOf(enrollments, enrolled[i].id) == 100|
    ensures r <= |enrolled|
    ensures r == |enrolled| <==> forall i :: 0 <= i < |enrolled| ==> ProgressOf(enrollments, enrolled[i].id) == 100
  {
    var done := (c: Course) => ProgressOf(enrollments, c.id) == 100;
    FilterKeepsAllIff(enrolled, done);
    FilterLength(enrolled, done);
    assert PassingIndices(enrolled, done)
        == set i | 0 <= i < |enrolled| && ProgressOf(enrollments, enrolled[i].id) == 100;
    |Filter(enrolled, done)|
  }

  /** The completed count is the number of 100s in the progress column. */
  lemma CompletedCountOfProgresses(enrolled: seq<Course>, enrollments: seq<Enrollment>)
    ensures var ps := Progresses(enrolled, enrollments);
      CompletedCount(enrolled, enrollments) == |set i | 0 <= i < |ps| && ps[i] == 100|
  {
    var ps := Progresses(enrolled, enrollments);
    var byProgress := set i | 0 <= i < |ps| && ps[i] == 100;
    var byCourse := set i | 0 <= i < |enrolled| && ProgressOf(enrollments, enrolled[i].id) == 100;
    assert CompletedCount(enrolled, enrollments) == |byCourse|;
    assert byProgress == byCourse;
  }

  /** "Average Progress": `Math.round(sum / (enrolled.length || 1))`. */
  function AverageProgress(enrolled: seq<Course>, enrollments: seq<Enrollment>): (r: int)
    ensures |enrolled| == 0 ==> r == 0
    ensures ValidProgress(enrollments) ==> 0 <= r <= 100
    ensures |enrolled| > 0 ==>
      var total := Sum(Progresses(enrolled, enrollments));
      2 * |enrolled| * r <= 2 * total + |enrolled| < 2 * |enrolled| * r + 2 * |enrolled|
  {
    MeanProgressInRange(enrolled, enrollments);
    var n := |enrolled|;
    RoundRatio(Sum(Progresses(enrolled, enrollments)), if n == 0 then 1 else n)  // `n || 1`
  }

  /** The rounded mean of looked-up progresses is a percentage whenever every
      stored progress is. */
  lemma MeanProgressInRange(enrolled: seq<Course>, enrollments: seq<Enrollment>)
    ensures var n := |enrolled|;
      ValidProgress(enrollments) ==>
      0 <= RoundRatio(Sum(Progresses(enrolled, enrollments)), if n == 0 then 1 else n) <= 100
  {
    if ValidProgress(enrollments) {
      var ps := Progresses(enrolled, enrollments);
      forall i | 0 <= i < |ps| ensures 0 <= ps[i] <= 100 {
        ProgressInRange(enrollments, enrolled[i].id);
      }
      SumBounds(ps, 0, 100);
      RoundRatioBounds(Sum(ps), if |enrolled| == 0 then 1 else |enrolled|, 0, 100);
    }
  }

  /** What the student dashboard displays. */
  datatype StudentView = StudentView(enrolled: seq<Course>, progress: seq<int>, completed: nat, average: int)

  /** One of the three role bodies. */
  datatype RoleView =
    | StudentBody(student: StudentView)
    | InstructorBody(ownCourses: seq<Course>)
    | AdminBody(totalCourses: nat, recentCourses: seq<Course>)

  function StudentDashboard(courses: seq<Course>, enrollments: seq<Enrollment>): (v: StudentView)
    ensures v.enrolled == EnrolledCourses(courses, enrollments)
    ensures forall c :: c in v.enrolled <==> c in courses && HasEnrollment(enrollments, c.id)
    // catalog order and catalog multiplicity: `[c, c]` lists c twice
    ensures IsSubsequence(v.enrolled, courses)
    ensures forall c: Course :: HasEnrollment(enrollments, c.id) ==> multiset(v.enrolled)[c] == multiset(courses)[c]
    ensures |v.progress| == |v.enrolled|
    ensures forall i :: 0 <= i < |v.enrolled| ==> v.progress[i] == ProgressOf(enrollments, v.enrolled[i].id)
    ensures v.completed == |set i | 0 <= i < |v.progress| && v.progress[i] == 100|
    ensures |v.enrolled| == 0 ==> v.average == 0
    ensures |v.enrolled| > 0 ==>
      var n := |v.enrolled|;
      2 * n * v.average <= 2 * Sum(v.progress) + n < 2 * n * v.average + 2 * n
    ensures ValidProgress(enrollments) ==> 0 <= v.average <= 100
  {
    var enrolled := EnrolledCourses(courses, enrollments);
    CompletedCountOfProgresses(enrolled, enrollments);
    StudentView(enrolled, Progresses(enrolled, enrollments),
      CompletedCount(enrolled, enrollments), AverageProgress(enrolled, enrollments))
  }

  /** The instructor body: courses whose `instructor_id` is the user's id. */
  function InstructorCourses(courses: seq<Course>, user: User): (r: seq<Course>)
    ensures forall c :: c in r <==> c in courses && c.instructorId == user.id
    ensures IsSubsequence(r, courses)
    ensures forall c: Course :: multiset(r)[c] == if c.instructorId == user.id then multiset(courses)[c] else 0
  {
    var p := (c: Course) => c.instructorId == user.id;
    FilterIsSubsequence(courses, p);
    forall c ensures multiset(Filter(courses, p))[c] == if p(c) then multiset(courses)[c] else 0 {
      FilterCount(courses, p, c);
    }
    Filter(courses, p)
  }

  function AdminDashboard(courses: seq<Course>): (v: RoleView)
    ensures v.AdminBody? && v.totalCourses == |courses|
    ensures |v.recentCourses| == if |courses| < 3 then |courses| else 3
    ensures forall i :: 0 <= i < |v.recentCourses| ==> v.recentCourses[i] == courses[i]
  {
    AdminBody(|courses|, Take(courses, 3))
  }

  /** The three `role === "..." && <...Dashboard />` sections, in page order;
      a section whose condition fails renders nothing. */
  function RoleSections(role: Option<string>, user: User, courses: seq<Course>, enrollments: seq<Enrollment>): seq<RoleView>
  {
    (if role == Some("student") then [StudentBody(StudentDashboard(courses, enrollments))] else [])
    + (if role == Some("instructor") then [InstructorBody(InstructorCourses(courses, user))] else [])
    + (if role == Some("admin") then [AdminDashboard(courses)] else [])
  }

  /** Each recognised role renders exactly its own body; any other role,
      null included, renders no body. */
  lemma RoleDispatch(role: Option<string>, user: User, courses: seq<Course>, enrollments: seq<Enrollment>)
    ensures var body := RoleSections(role, user, courses, enrollments);
      && |body| <= 1
      && (|body| == 1 <==> role in {Some("student"), Some("instructor"), Some("admin")})
      && (role == Some("student") ==> body == [StudentBody(StudentDashboard(courses, enrollments))])
      && (role == Some("instructor") ==> body == [InstructorBody(InstructorCourses(courses, user))])
      && (role == Some("admin") ==> body == [AdminDashboard(courses)])
  {
  }

  /** Which screen the dashboard page renders. */
  datatype Screen =
    | Spinner
    | ErrorMessage(message: string)
    | SignInPrompt
    | Welcome(user: User, body: seq<RoleView>)

  /** A JavaScript string in a condition: null and "" are false. */
  predicate Truthy(s: Option<string>)
  {
    s.Some? && s.value != ""
  }

  /** The page's early returns, in order: loading, then error, then no user,
      then the dashboard. */
  function Render(userLoading: bool, loading: bool, error: Option<string>, user: Option<User>,
                  role: Option<string>, courses: seq<Course>, enrollments: seq<Enrollment>): (s: Screen)
    ensures (userLoading || loading) <==> s.Spinner?
    ensures s.ErrorMessage? <==> !userLoading && !loading && Truthy(error)
    ensures s.ErrorMessage? ==> Some(s.message) == error
    ensures s.SignInPrompt? <==> !userLoading && !loading && !Truthy(error) && user.None?
    ensures s.Welcome? ==> Some(s.user) == user && s.body == RoleSections(role, s.user, courses, enrollments)
  {
    if userLoading || loading then Spinner
    else if Truthy(error) then ErrorMessage(error.value)
    else if user.None? then SignInPrompt
    else Welcome(user.value, RoleSections(role, user.value, courses, enrollments))
  }

  /** The student example: one course, one enrollment at 60% gives one
      enrolled course at 60%, none completed, average 60. */
  lemma StudentExample()
    ensures var v := StudentDashboard([Course(1, "T", "D", "programming", 7)], [Enrollment(42, 1, 60)]);
      v.enrolled == [Course(1, "T", "D", "programming", 7)] && v.progress == [60] && v.completed == 0 && v.average == 60
  {
    var c := Course(1, "T", "D", "programming", 7);
    var es := [Enrollment(42, 1, 60)];
    assert es[0].courseId == 1;
    assert EnrolledCourses([c], es) == [c];
    assert Progresses([c], es) == [60];
    assert Sum([60]) == Sum([]) + 60;
    var done := (x: Course) => ProgressOf(es, x.id) == 100;
    assert Filter([c], done) == [];
  }
}
