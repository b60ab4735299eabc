/**
 * The course record shared by the pages, and the catalog page's search:
 * a course is shown when its title or description contains the search term,
 * ignoring case, and its category matches the selected category
 * ("all" matches every category).
 */
module Courses {
  import opened JsArray
  import opened JsString

  /** A course as the course API returns it (fields the pages read). */
  datatype Course = Course(
    id: int,
    title: string,
    description: string,
    category: string,
    instructorId: int)

  /** The category selector's value that disables the category test. */
  const AllCategories: string := "all"

  /** The search half of the predicate: case-insensitive substring test on
      the title, then on the description. */
  predicate MatchesSearch(c: Course, searchTerm: string)
  {
    Includes(ToLower(c.title), ToLower(searchTerm)) ||
    Includes(ToLower(c.description), ToLower(searchTerm))
  }

  /** The callback passed to `courses.filter`. */
  predicate Keep(c: Course, searchTerm: string, filter: string)
  {
    if filter == AllCategories then MatchesSearch(c, searchTerm)
    else MatchesSearch(c, searchTerm) && c.category == filter
  }

  /** `filteredCourses`: the courses that pass, in catalog order. */
  function FilterCourses(courses: seq<Course>, searchTerm: string, filter: string): (r: seq<Course>)
    ensures forall c :: c in r <==>
      c in courses && MatchesSearch(c, searchTerm) && (filter == AllCategories || c.category == filter)
    ensures filter != AllCategories ==> forall i :: 0 <= i < |r| ==> r[i].category == filter
    ensures IsSubsequence(r, courses)
    ensures forall c :: multiset(r)[c] == if Keep(c, searchTerm, filter) then multiset(courses)[c] else 0
  {
    var p := (c: Course) => Keep(c, searchTerm, filter);
    FilterIsSubsequence(courses, p);
    forall c ensures multiset(Filter(courses, p))[c] == if p(c) then multiset(courses)[c] else 0 {
      FilterCount(courses, p, c);
    }
    Filter(courses, p)
  }

  /** Every course contains the empty search term. */
  lemma EmptySearchMatchesAll(c: Course)
    ensures MatchesSearch(c, "")
  {
  }

  /** With an empty search term and category "all" the catalog is shown unchanged. */
  lemma EmptySearchAllIsIdentity(courses: seq<Course>)
    ensures FilterCourses(courses, "", AllCategories) == courses
  {
    var p := (c: Course) => Keep(c, "", AllCategories);
    forall i | 0 <= i < |courses| ensures p(courses[i]) {
      EmptySearchMatchesAll(courses[i]);
    }
    FilterAllPass(courses, p);
  }

  /** Filtering the filtered list again with the same settings changes nothing. */
  lemma FilterCoursesIdempotent(courses: seq<Course>, searchTerm: string, filter: string)
    ensures FilterCourses(FilterCourses(courses, searchTerm, filter), searchTerm, filter)
         == FilterCourses(courses, searchTerm, filter)
  {
    FilterIdempotent(courses, (c: Course) => Keep(c, searchTerm, filter));
  }

  /** A course that matches a longer search term matches every prefix of it. */
  lemma MatchesSearchPrefix(c: Course, term: string, more: string)
    requires MatchesSearch(c, term + more)
    ensures MatchesSearch(c, term)
  {
    ToLowerAppend(term, more);
    if Includes(ToLower(c.title), ToLower(term + more)) {
      IncludesPrefix(ToLower(c.title), ToLower(term), ToLower(more));
    } else {
      IncludesPrefix(ToLower(c.description), ToLower(term), ToLower(more));
    }
  }

  /** Typing more characters into the search box never adds a course: the new
      result is a subsequence of the old one. */
  lemma ExtendingSearchNarrows(courses: seq<Course>, term: string, more: string, filter: string)
    ensures IsSubsequence(FilterCourses(courses, term + more, filter), FilterCourses(courses, term, filter))
  {
    var p := (c: Course) => Keep(c, term + more, filter);
    var q := (c: Course) => Keep(c, term, filter);
    forall i | 0 <= i < |courses| && p(courses[i]) ensures q(courses[i]) {
      MatchesSearchPrefix(courses[i], term, more);
    }
    FilterNarrower(courses, p, q);
  }
}
