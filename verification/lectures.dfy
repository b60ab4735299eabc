/**
 * The public-lectures page: the course-title choices of the filter
 * drop-down, the lectures shown for the chosen filter, and the lecture
 * selected when the list arrives.
 */
module Lectures {
  import opened JsValue
  import opened JsArray

  /** A public lesson as the lessons API returns it. */
  datatype Lecture = Lecture(id: int, title: string, courseTitle: string, videoUrl: Option<string>)

  /** The drop-down value that shows every lecture. */
  const AllCourses: string := "all"

  function CourseTitleOf(l: Lecture): string { l.courseTitle }

  /** `uniqueCourses`: `[...new Set(lessons.map(l => l.course_title))]`. */
  function UniqueCourses(lectures: seq<Lecture>): (r: seq<string>)
    ensures NoDuplicates(r)
    ensures forall i :: 0 <= i < |r| ==> r[i] in Map(lectures, CourseTitleOf)
    ensures forall t :: t in r <==> exists l :: l in lectures && l.courseTitle == t
    // titles are listed in the order in which they first occur
    ensures forall i, j :: 0 <= i < j < |r| ==>
      FirstIndex(Map(lectures, CourseTitleOf), r[i]) < FirstIndex(Map(lectures, CourseTitleOf), r[j])
  {
    var titles := Map(lectures, CourseTitleOf);
    var r := Dedupe(titles);
    DedupeFirstSeenOrder(titles);
    forall t ensures t in r <==> exists l :: l in lectures && l.courseTitle == t {
      MapMembership(lectures, CourseTitleOf, t);
      assert t in r <==> t in titles;
    }
    r
  }

  /** `filteredLectures`. */
  function FilterLectures(lectures: seq<Lecture>, courseFilter: string): (r: seq<Lecture>)
    ensures courseFilter == AllCourses ==> r == lectures
    ensures courseFilter != AllCourses ==>
      && (forall l :: l in r <==> l in lectures && l.courseTitle == courseFilter)
      && IsSubsequence(r, lectures)
      && (forall l :: multiset(r)[l] == if l.courseTitle == courseFilter then multiset(lectures)[l] else 0)
  {
    if courseFilter == AllCourses then lectures
    else
      var p := (l: Lecture) => l.courseTitle == courseFilter;
      FilterIsSubsequence(lectures, p);
      forall l ensures multiset(Filter(lectures, p))[l] == if p(l) then multiset(lectures)[l] else 0 {
        FilterCount(lectures, p, l);
      }
      Filter(lectures, p)
  }

  /** The lecture selected once the list arrives: the first one, if any. */
  function DefaultSelection(lectures: seq<Lecture>): (r: Option<Lecture>)
    ensures r.Some? <==> |lectures| > 0
    ensures r.Some? ==> r.value in lectures && r.value == lectures[0]
  {
    if |lectures| > 0 then Some(lectures[0]) else None
  }

  /** Every title offered in the drop-down selects at least one lecture; a
      course literally titled "all" is the exception, since that value shows
      every lecture. */
  lemma OfferedTitlesAreNonEmpty(lectures: seq<Lecture>, t: string)
    requires t in UniqueCourses(lectures) && t != AllCourses
    ensures |FilterLectures(lectures, t)| > 0
  {
  }
}
