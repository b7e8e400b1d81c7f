/**
 * The course catalogue's filter: a course is listed when the search text
 * occurs, ignoring case, in its title or its description, and it passes the
 * language and the level pickers, where "all" lets every course through.
 */
module Courses {
  import opened Text
  import opened Seqs

  /** The fields of a catalogue entry the filter looks at. */
  datatype Course = Course(id: string, title: string, description: string, language: string, level: string)

  /** The picker value that switches a picker's test off. */
  const AnyValue: string := "all"

  predicate MatchesSearch(c: Course, query: string)
  {
    Includes(Lower(c.title), Lower(query)) || Includes(Lower(c.description), Lower(query))
  }

  predicate MatchesLanguage(c: Course, languageFilter: string)
  {
    languageFilter == AnyValue || c.language == languageFilter
  }

  predicate MatchesLevel(c: Course, levelFilter: string)
  {
    levelFilter == AnyValue || c.level == levelFilter
  }

  /** The test of `courses.filter(...)`. */
  function Shown(query: string, languageFilter: string, levelFilter: string): Course -> bool
  {
    c => MatchesSearch(c, query) && MatchesLanguage(c, languageFilter) && MatchesLevel(c, levelFilter)
  }

  /** `filteredCourses`: the listed courses, in catalogue order. */
  function FilteredCourses(courses: seq<Course>, query: string, languageFilter: string, levelFilter: string)
    : (shown: seq<Course>)
    ensures Subseq(shown, courses)
    ensures forall c :: c in shown ==>
      c in courses && MatchesSearch(c, query) && MatchesLanguage(c, languageFilter) && MatchesLevel(c, levelFilter)
    ensures forall c :: c in courses ==>
      (MatchesSearch(c, query) && MatchesLanguage(c, languageFilter) && MatchesLevel(c, levelFilter) ==> c in shown)
  {
    Filter(courses, Shown(query, languageFilter, levelFilter))
  }

  /** A listed course appears as often as in the catalogue; an unlisted one not at all. */
  lemma FilteredCoursesMultiplicity(courses: seq<Course>, query: string, languageFilter: string, levelFilter: string,
                                    c: Course)
    ensures multiset(FilteredCourses(courses, query, languageFilter, levelFilter))[c]
         == if Shown(query, languageFilter, levelFilter)(c) then multiset(courses)[c] else 0
  {
    FilterMultiplicity(courses, Shown(query, languageFilter, levelFilter), c);
  }

  /** The empty search text matches every course. */
  lemma EmptyQueryMatches(c: Course)
    ensures MatchesSearch(c, "")
  {
    IncludesEmpty(Lower(c.title));
  }

  /** The search ignores ASCII case: two queries that lower to the same text match the same courses. */
  lemma SearchIgnoresCase(c: Course, query: string, query': string)
    requires Lower(query) == Lower(query')
    ensures MatchesSearch(c, query) <==> MatchesSearch(c, query')
  {
  }

  /** Text copied from a course's title or description always finds that course, in any case. */
  lemma SearchFindsOwnText(c: Course, query: string, query': string)
    requires Includes(c.title, query) || Includes(c.description, query)
    requires Lower(query') == Lower(query)
    ensures MatchesSearch(c, query')
  {
    if Includes(c.title, query) {
      IncludesLower(c.title, query);
    } else {
      IncludesLower(c.description, query);
    }
  }

  /** After "Clear Filters" (empty search, both pickers on "all") the whole catalogue is listed, in order. */
  lemma ClearFiltersShowsAll(courses: seq<Course>)
    ensures FilteredCourses(courses, "", AnyValue, AnyValue) == courses
  {
    forall c | c in courses
      ensures Shown("", AnyValue, AnyValue)(c)
    {
      EmptyQueryMatches(c);
    }
    FilterAll(courses, Shown("", AnyValue, AnyValue));
  }
}
