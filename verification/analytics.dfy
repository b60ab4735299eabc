/**
 * The instructor page's analytics rollups: the statistics service returns one
 * record per course, per quiz and per lesson, and the page reduces them to
 * three groups of summary numbers. Every mean is rounded once, with
 * `Math.round`, after the division. No mean guards against an empty list:
 * an empty list yields NaN (0/0), and the quiz completion rate, which divides
 * by the number of courses, yields an infinity when there are attempts but
 * no courses.
 */
module Analytics {
  import opened JsNumber
  import opened JsArray

  datatype CourseStat = CourseStat(enrollments: int, averageProgress: int)
  datatype QuizStat = QuizStat(averageScore: int, totalAttempts: int)
  datatype LessonStat = LessonStat(studentsCompleted: int, completionRate: int)

  /** The body of the analytics response. */
  datatype Report = Report(courses: seq<CourseStat>, quizzes: seq<QuizStat>, lessons: seq<LessonStat>)

  datatype CourseSummary = CourseSummary(totalEnrollments: int, enrollmentRate: Number)
  datatype QuizSummary = QuizSummary(averageScore: Number, completionRate: Number)
  datatype LessonSummary = LessonSummary(completedLessons: int, completionRate: Number)
  datatype Analytics = Analytics(courseStats: CourseSummary, quizMetrics: QuizSummary, completionRates: LessonSummary)

  /** `Math.round(xs.reduce(+, 0) / xs.length)`. */
  function RoundedMean(xs: seq<int>): (r: Number)
    ensures |xs| == 0 ==> r == NaN
    ensures |xs| > 0 ==> r.Finite?
    // within half a unit of the exact mean, ties upward
    ensures |xs| > 0 ==> 2 * |xs| * r.n <= 2 * Sum(xs) + |xs| < 2 * |xs| * r.n + 2 * |xs|
  {
    RoundDiv(Sum(xs), |xs|)
  }

  /** A mean of values in [lo, hi] rounds into [lo, hi]. */
  lemma RoundedMeanBounds(xs: seq<int>, lo: int, hi: int)
    requires |xs| > 0
    requires forall i :: 0 <= i < |xs| ==> lo <= xs[i] <= hi
    ensures lo <= RoundedMean(xs).n <= hi
  {
    SumBounds(xs, lo, hi);
    RoundRatioBounds(Sum(xs), |xs|, lo, hi);
  }

  function Enrollments(cs: seq<CourseStat>): seq<int> { Map(cs, (c: CourseStat) => c.enrollments) }
  function AverageProgresses(cs: seq<CourseStat>): seq<int> { Map(cs, (c: CourseStat) => c.averageProgress) }
  function AverageScores(qs: seq<QuizStat>): seq<int> { Map(qs, (q: QuizStat) => q.averageScore) }
  function TotalAttempts(qs: seq<QuizStat>): seq<int> { Map(qs, (q: QuizStat) => q.totalAttempts) }
  function StudentsCompleted(ls: seq<LessonStat>): seq<int> { Map(ls, (l: LessonStat) => l.studentsCompleted) }
  function CompletionRates(ls: seq<LessonStat>): seq<int> { Map(ls, (l: LessonStat) => l.completionRate) }

  /** `courseStats`. */
  function CourseStats(courses: seq<CourseStat>): (s: CourseSummary)
    ensures |courses| == 0 ==> s == CourseSummary(0, NaN)
    ensures |courses| > 0 ==> s.enrollmentRate.Finite?
    // the mean of the per-course average progress, rounded once at the end
    ensures |courses| > 0 ==>
      var n := |courses|;
      var total := Sum(AverageProgresses(courses));
      2 * n * s.enrollmentRate.n <= 2 * total + n < 2 * n * s.enrollmentRate.n + 2 * n
  {
    CourseSummary(Sum(Enrollments(courses)), RoundedMean(AverageProgresses(courses)))
  }

  /** `quizMetrics`: the completion rate divides the total attempts by the
      number of COURSES, then scales by 100. */
  function QuizMetrics(courses: seq<CourseStat>, quizzes: seq<QuizStat>): (s: QuizSummary)
    ensures s.averageScore.Finite? <==> |quizzes| > 0
    ensures |quizzes| == 0 ==> s.averageScore == NaN
    // the mean of the per-quiz average scores, rounded once at the end
    ensures |quizzes| > 0 ==>
      var n := |quizzes|;
      var total := Sum(AverageScores(quizzes));
      2 * n * s.averageScore.n <= 2 * total + n < 2 * n * s.averageScore.n + 2 * n
    ensures s.completionRate.Finite? <==> |courses| > 0
    ensures |courses| > 0 ==>
      var attempts := Sum(TotalAttempts(quizzes));
      2 * |courses| * s.completionRate.n <= 200 * attempts + |courses| < 2 * |courses| * s.completionRate.n + 2 * |courses|
  {
    QuizSummary(RoundedMean(AverageScores(quizzes)), RoundDiv(100 * Sum(TotalAttempts(quizzes)), |courses|))
  }

  /** `completionRates`: an unrounded total and a rounded mean. */
  function LessonMetrics(lessons: seq<LessonStat>): (s: LessonSummary)
    ensures |lessons| == 0 ==> s == LessonSummary(0, NaN)
    ensures |lessons| > 0 ==> s.completionRate.Finite?
    // the mean of the per-lesson completion rates, rounded once at the end
    ensures |lessons| > 0 ==>
      var n := |lessons|;
      var total := Sum(CompletionRates(lessons));
      2 * n * s.completionRate.n <= 2 * total + n < 2 * n * s.completionRate.n + 2 * n
  {
    LessonSummary(Sum(StudentsCompleted(lessons)), RoundedMean(CompletionRates(lessons)))
  }

  /** The object `fetchAnalytics` stores. */
  function Summarize(report: Report): Analytics
  {
    Analytics(CourseStats(report.courses), QuizMetrics(report.courses, report.quizzes), LessonMetrics(report.lessons))
  }

  /** The total enrollment is the per-course enrollments added up: it is
      additive over any split of the course list, and one course contributes
      exactly its own count. */
  lemma TotalEnrollmentsAdditive(a: seq<CourseStat>, b: seq<CourseStat>, c: CourseStat)
    ensures CourseStats(a + b).totalEnrollments == CourseStats(a).totalEnrollments + CourseStats(b).totalEnrollments
    ensures CourseStats([c]).totalEnrollments == c.enrollments
  {
    MapAppend(a, b, (x: CourseStat) => x.enrollments);
    SumAppend(Enrollments(a), Enrollments(b));
    assert Enrollments([c]) == [c.enrollments];
    assert Sum([c.enrollments]) == Sum([]) + c.enrollments;
  }

  /** The enrollment rate is a percentage when every course's average
      progress is. */
  lemma EnrollmentRateIsPercentage(courses: seq<CourseStat>)
    requires |courses| > 0
    requires forall i :: 0 <= i < |courses| ==> 0 <= courses[i].averageProgress <= 100
    ensures 0 <= CourseStats(courses).enrollmentRate.n <= 100
  {
    RoundedMeanBounds(AverageProgresses(courses), 0, 100);
  }

  /** The average quiz score is a score when every quiz's average is. */
  lemma AverageScoreIsPercentage(courses: seq<CourseStat>, quizzes: seq<QuizStat>)
    requires |quizzes| > 0
    requires forall i :: 0 <= i < |quizzes| ==> 0 <= quizzes[i].averageScore <= 100
    ensures 0 <= QuizMetrics(courses, quizzes).averageScore.n <= 100
  {
    RoundedMeanBounds(AverageScores(quizzes), 0, 100);
  }

  /** The mean is rounded once, after the division, not per item: two courses
      at 0% and 1% average 0.5%, which `Math.round` takes to 1; a quiz list
      scored 70 and 75 averages 72.5, which becomes 73. */
  lemma RoundedOnceAtTheEnd()
    ensures CourseStats([CourseStat(3, 0), CourseStat(4, 1)]) == CourseSummary(7, Finite(1))
    ensures QuizMetrics([CourseStat(1, 0)], [QuizStat(70, 1), QuizStat(75, 1)]).averageScore == Finite(73)
  {
    assert AverageProgresses([CourseStat(3, 0), CourseStat(4, 1)]) == [0, 1];
    assert Enrollments([CourseStat(3, 0), CourseStat(4, 1)]) == [3, 4];
    assert AverageScores([QuizStat(70, 1), QuizStat(75, 1)]) == [70, 75];
    assert [0, 1][..1] == [0] && [3, 4][..1] == [3] && [70, 75][..1] == [70];
    assert Sum([0, 1]) == 1 && Sum([3, 4]) == 7 && Sum([70, 75]) == 145;
  }

  /** The quiz completion rate depends on the number of courses, not of
      quizzes: a further quiz without attempts leaves it unchanged, while its
      average score does count towards the score mean. */
  lemma QuizCompletionIgnoresQuizCount(courses: seq<CourseStat>, quizzes: seq<QuizStat>, score: int)
    ensures QuizMetrics(courses, quizzes + [QuizStat(score, 0)]).completionRate
         == QuizMetrics(courses, quizzes).completionRate
  {
    MapAppend(quizzes, [QuizStat(score, 0)], (q: QuizStat) => q.totalAttempts);
    SumAppend(TotalAttempts(quizzes), [0]);
    assert Sum([0]) == Sum([]) + 0;
  }

  /** The quiz completion rate is not a percentage: one course whose quizzes
      were attempted twice gives 200. */
  lemma QuizCompletionExceeds100()
    ensures QuizMetrics([CourseStat(1, 50)], [QuizStat(80, 2)]).completionRate == Finite(200)
  {
  }

  /** With attempts recorded but no courses the completion rate is Infinity. */
  lemma QuizCompletionWithoutCourses(quizzes: seq<QuizStat>)
    requires Sum(TotalAttempts(quizzes)) > 0
    ensures QuizMetrics([], quizzes).completionRate == PosInfinity
  {
  }

  /** The completed-lesson count is the per-lesson counts added up, with no
      rounding: additive over any split, one lesson contributes its own count. */
  lemma CompletedLessonsAdditive(a: seq<LessonStat>, b: seq<LessonStat>, l: LessonStat)
    ensures LessonMetrics(a + b).completedLessons == LessonMetrics(a).completedLessons + LessonMetrics(b).completedLessons
    ensures LessonMetrics([l]).completedLessons == l.studentsCompleted
  {
    MapAppend(a, b, (x: LessonStat) => x.studentsCompleted);
    SumAppend(StudentsCompleted(a), StudentsCompleted(b));
    assert StudentsCompleted([l]) == [l.studentsCompleted];
    assert Sum([l.studentsCompleted]) == Sum([]) + l.studentsCompleted;
  }

  /** The lesson completion rate is a percentage when every lesson's rate is. */
  lemma LessonRateIsPercentage(lessons: seq<LessonStat>)
    requires |lessons| > 0
    requires forall i :: 0 <= i < |lessons| ==> 0 <= lessons[i].completionRate <= 100
    ensures 0 <= LessonMetrics(lessons).completionRate.n <= 100
  {
    RoundedMeanBounds(CompletionRates(lessons), 0, 100);
  }

  /** No rollup guards against an empty list: an empty report yields NaN for
      every mean, never 0. */
  lemma EmptyReportIsNaN()
    ensures var a := Summarize(Report([], [], []));
      && a.courseStats.enrollmentRate == NaN
      && a.quizMetrics == QuizSummary(NaN, NaN)
      && a.completionRates.completionRate == NaN
  {
  }
}
