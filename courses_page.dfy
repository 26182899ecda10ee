/**
 * The course catalogue page (`Courses`): the facet lists taken from the
 * courses, the search-filter-sort pipeline, the facet toggle reducer, the
 * sort toggle and the reset button. The courses are those `getAllCourses`
 * returns. `toLowerCase` is the Latin-only lower-casing of `Text.Lower`.
 */
module CoursesPage {
  import opened Text
  import opened Sorting
  import opened Catalog

  datatype SortOrder = Newest | Shortest

  /** The facet selection. Values come from the filter sidebar: category
      titles, instructor ids and levels. */
  datatype Filters = Filters(categories: seq<Id>, instructors: seq<Id>, level: Option<Id>)

  const NoFilters: Filters := Filters([], [], None)

  // ---------------------------------------------------------------------
  // Facet lists
  // ---------------------------------------------------------------------

  /** `c.categoryTitle || c.categoryId` */
  function CategoryValue(c: Course): Option<string> {
    if c.categoryTitle.Some? && c.categoryTitle.value != "" then c.categoryTitle else c.categoryId
  }

  /** `[...new Set(courses.map(c => c.categoryTitle || c.categoryId))].filter(Boolean)` */
  function Categories(cs: seq<CourseSummary>): seq<string> {
    PresentNonEmpty(Dedupe(seq(|cs|, i requires 0 <= i < |cs| => CategoryValue(cs[i].course))))
  }

  /** `[...new Set(courses.map(c => c.level))].filter(Boolean)` */
  function Levels(cs: seq<CourseSummary>): seq<string> {
    PresentNonEmpty(Dedupe(seq(|cs|, i requires 0 <= i < |cs| => cs[i].course.level)))
  }

  /** A facet list holds each present, non-empty value once. */
  lemma {:induction false} FacetSpec(vs: seq<Option<string>>)
    ensures Distinct(PresentNonEmpty(Dedupe(vs)))
    ensures forall x :: x in PresentNonEmpty(Dedupe(vs)) <==> x != "" && Some(x) in vs
  {
    DedupeSpec(vs);
    PresentNonEmptyDistinct(Dedupe(vs));
    forall x {
      PresentNonEmptyMembers(Dedupe(vs), x);
    }
  }

  lemma CategoriesSpec(cs: seq<CourseSummary>)
    ensures Distinct(Categories(cs))
    ensures forall x :: x in Categories(cs) <==>
              x != "" && exists i :: 0 <= i < |cs| && CategoryValue(cs[i].course) == Some(x)
  {
    var vs := seq(|cs|, i requires 0 <= i < |cs| => CategoryValue(cs[i].course));
    FacetSpec(vs);
    forall x ensures Some(x) in vs <==> exists i :: 0 <= i < |cs| && CategoryValue(cs[i].course) == Some(x) {
      if Some(x) in vs {
        var i :| 0 <= i < |vs| && vs[i] == Some(x);
        assert CategoryValue(cs[i].course) == Some(x);
      }
      if exists i :: 0 <= i < |cs| && CategoryValue(cs[i].course) == Some(x) {
        var i :| 0 <= i < |cs| && CategoryValue(cs[i].course) == Some(x);
        assert vs[i] == Some(x);
      }
    }
  }

  lemma LevelsSpec(cs: seq<CourseSummary>)
    ensures Distinct(Levels(cs))
    ensures forall x :: x in Levels(cs) <==>
              x != "" && exists i :: 0 <= i < |cs| && cs[i].course.level == Some(x)
  {
    var vs := seq(|cs|, i requires 0 <= i < |cs| => cs[i].course.level);
    FacetSpec(vs);
    forall x ensures Some(x) in vs <==> exists i :: 0 <= i < |cs| && cs[i].course.level == Some(x) {
      if Some(x) in vs {
        var i :| 0 <= i < |vs| && vs[i] == Some(x);
        assert cs[i].course.level == Some(x);
      }
      if exists i :: 0 <= i < |cs| && cs[i].course.level == Some(x) {
        var i :| 0 <= i < |cs| && cs[i].course.level == Some(x);
        assert vs[i] == Some(x);
      }
    }
  }

  // ---------------------------------------------------------------------
  // Filtering and sorting
  // ---------------------------------------------------------------------

  /** Case-insensitive search over the title, the instructor's name and the
      description. */
  predicate MatchesSearch(c: Course, query: string) {
    var q := Lower(query);
    Contains(Lower(c.title), q) ||
    (c.instructorName.Some? && Contains(Lower(c.instructorName.value), q)) ||
    Contains(Lower(c.description), q)
  }

  /** The filter callback. A category selection is compared with
      `categoryTitle` only. */
  predicate Keep(s: CourseSummary, query: string, f: Filters) {
    var c := s.course;
    MatchesSearch(c, query) &&
    (|f.categories| == 0 || (c.categoryTitle.Some? && Str(c.categoryTitle.value) in f.categories)) &&
    (|f.instructors| == 0 || (c.instructorId.Some? && c.instructorId.value in f.instructors)) &&
    (!(f.level.Some? && IdTruthy(f.level.value)) || (c.level.Some? && f.level.value == Str(c.level.value)))
  }

  /** `b.id.localeCompare(a.id)` */
  function NewestFirst(a: CourseSummary, b: CourseSummary): int {
    CompareText(b.course.id, a.course.id)
  }

  /** `(a.lessonsCount || 0) - (b.lessonsCount || 0)` */
  function FewestLessons(a: CourseSummary, b: CourseSummary): int {
    a.lessonsCount - b.lessonsCount
  }

  function Comparator(order: SortOrder): (CourseSummary, CourseSummary) -> int {
    match order
    case Newest => NewestFirst
    case Shortest => FewestLessons
  }

  lemma ComparatorConsistent(order: SortOrder)
    ensures Consistent(Comparator(order))
  {
    forall a, b ensures NewestFirst(a, b) > 0 ==> NewestFirst(b, a) <= 0 {
      CompareTextFlip(b.course.id, a.course.id);
    }
  }

  /** `filteredCourses` */
  function Visible(cs: seq<CourseSummary>, query: string, f: Filters, order: SortOrder): seq<CourseSummary> {
    SortBy(Filter(cs, (s: CourseSummary) => Keep(s, query, f)), Comparator(order))
  }

  /** The visible courses are the courses that pass the search and the set
      filters, each as often as in the list, ordered by the chosen order. */
  lemma VisibleSpec(cs: seq<CourseSummary>, query: string, f: Filters, order: SortOrder)
    ensures var v := Visible(cs, query, f, order);
      multiset(v) == multiset(Filter(cs, (s: CourseSummary) => Keep(s, query, f))) &&
      (forall s :: s in v <==> s in cs && Keep(s, query, f)) &&
      Sorted(v, Comparator(order))
  {
    var p := (s: CourseSummary) => Keep(s, query, f);
    var fs := Filter(cs, p);
    var v := SortBy(fs, Comparator(order));
    FilterSpec(cs, p);
    forall s ensures s in v <==> s in fs {
      assert s in v <==> s in multiset(v);
      assert s in fs <==> s in multiset(fs);
    }
    ComparatorConsistent(order);
    SortBySorted(fs, Comparator(order));
  }

  /** Sorted by "shortest", the lesson counts ascend along the whole list. */
  lemma ShortestAscending(cs: seq<CourseSummary>, query: string, f: Filters)
    ensures var v := Visible(cs, query, f, Shortest);
      forall i, j :: 0 <= i <= j < |v| ==> v[i].lessonsCount <= v[j].lessonsCount
  {
    VisibleSpec(cs, query, f, Shortest);
    SortedByKey(Visible(cs, query, f, Shortest), FewestLessons, (s: CourseSummary) => s.lessonsCount);
  }

  /** Sorted by "newest", no id comes before a greater one. */
  lemma NewestDescending(cs: seq<CourseSummary>, query: string, f: Filters)
    ensures var v := Visible(cs, query, f, Newest);
      forall i, j :: 0 <= i < j < |v| ==> CompareText(v[j].course.id, v[i].course.id) <= 0
  {
    VisibleSpec(cs, query, f, Newest);
    forall a, b, c | NewestFirst(a, b) <= 0 && NewestFirst(b, c) <= 0
      ensures NewestFirst(a, c) <= 0
    {
      CompareTextTransitive(c.course.id, b.course.id, a.course.id);
    }
    SortedAllPairs(Visible(cs, query, f, Newest), NewestFirst);
  }

  /** An empty query with no filters shows every course. */
  lemma VisibleUnfiltered(cs: seq<CourseSummary>, order: SortOrder)
    ensures multiset(Visible(cs, "", NoFilters, order)) == multiset(cs)
  {
    forall i | 0 <= i < |cs| ensures Keep(cs[i], "", NoFilters) {
      ContainsReflexiveAndEmpty(Lower(cs[i].course.title));
    }
    FilterAll(cs, (s: CourseSummary) => Keep(s, "", NoFilters));
  }

  /** The category facet offers a course's `categoryId` when it has no
      title, but selecting it hides that course, since the filter compares
      titles only. */
  lemma CategoryFacetMismatch(s: CourseSummary)
    requires s.course.categoryTitle == None && s.course.categoryId == Some("fiqh")
    ensures "fiqh" in Categories([s])
    ensures !Keep(s, "", NoFilters.(categories := [Str("fiqh")]))
  {
    CategoriesSpec([s]);
    assert CategoryValue([s][0].course) == Some("fiqh");
  }

  // ---------------------------------------------------------------------
  // The reducers
  // ---------------------------------------------------------------------

  /** Toggle a value in a selection list. */
  function Toggle(xs: seq<Id>, value: Id): seq<Id> {
    if value in xs then RemoveAll(xs, value) else xs + [value]
  }

  /** `handleFilterChange(type, value)` */
  function FilterChanged(f: Filters, kind: string, value: Id): Filters {
    if kind == "categories" then f.(categories := Toggle(f.categories, value))
    else if kind == "instructors" then f.(instructors := Toggle(f.instructors, value))
    else if kind == "level" then f.(level := if f.level == Some(value) then None else Some(value))
    else f
  }

  /** A toggle adds the value at the end when absent and removes every copy
      when present; other values keep their membership, and toggling an
      absent value twice restores the list. */
  lemma ToggleSpec(xs: seq<Id>, value: Id)
    ensures value !in xs ==> Toggle(xs, value) == xs + [value]
    ensures value in xs ==> value !in Toggle(xs, value)
    ensures forall y :: y != value ==> (y in Toggle(xs, value) <==> y in xs)
    ensures value !in xs ==> Toggle(Toggle(xs, value), value) == xs
  {
    forall y {
      RemoveAllMembers(xs, value, y);
    }
    if value !in xs {
      RemoveAllConcat(xs, [value], value);
      RemoveAllAbsent(xs, value);
      assert RemoveAll([value], value) == [];
    }
  }

  /** The level toggle clears a selected level and otherwise selects the
      value; twice is the identity from no level or the same level. Unknown
      kinds change nothing. */
  lemma FilterChangedSpec(f: Filters, value: Id)
    ensures FilterChanged(f, "level", value).level == (if f.level == Some(value) then None else Some(value))
    ensures f.level == None || f.level == Some(value) ==>
              FilterChanged(FilterChanged(f, "level", value), "level", value) == f
    ensures FilterChanged(f, "categories", value).instructors == f.instructors
    ensures FilterChanged(f, "instructors", value).categories == f.categories
    ensures forall kind :: kind != "categories" && kind != "instructors" && kind != "level" ==>
              FilterChanged(f, kind, value) == f
  {
  }

  /** The sort button alternates between the two orders. */
  function SortToggled(order: SortOrder): (r: SortOrder)
    ensures r != order
  {
    if order == Newest then Shortest else Newest
  }

  lemma SortToggleTwice(order: SortOrder)
    ensures SortToggled(SortToggled(order)) == order
  {
  }

  /** The page state. */
  class CoursesView {
    var searchQuery: string
    var sortOrder: SortOrder
    var filters: Filters

    constructor ()
      ensures searchQuery == "" && sortOrder == Newest && filters == NoFilters
    {
      searchQuery, sortOrder, filters := "", Newest, NoFilters;
    }

    function Shown(cs: seq<CourseSummary>): seq<CourseSummary>
      reads this
    {
      Visible(cs, searchQuery, filters, sortOrder)
    }

    method SetSearchQuery(text: string)
      modifies this
      ensures searchQuery == text && sortOrder == old(sortOrder) && filters == old(filters)
    {
      searchQuery := text;
    }

    method HandleFilterChange(kind: string, value: Id)
      modifies this
      ensures filters == FilterChanged(old(filters), kind, value)
      ensures searchQuery == old(searchQuery) && sortOrder == old(sortOrder)
    {
      filters := FilterChanged(filters, kind, value);
    }

    method ToggleSort()
      modifies this
      ensures sortOrder == SortToggled(old(sortOrder))
      ensures searchQuery == old(searchQuery) && filters == old(filters)
    {
      sortOrder := if sortOrder == Newest then Shortest else Newest;
    }

    /** The reset button of the empty result; the sort order is kept. */
    method Reset()
      modifies this
      ensures searchQuery == "" && filters == NoFilters && sortOrder == old(sortOrder)
    {
      searchQuery := "";
      filters := NoFilters;
    }
  }
}
