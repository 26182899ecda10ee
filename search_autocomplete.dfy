/**
 * The navbar's search box (`SearchAutocomplete`): the typed query, up to
 * five suggestions from the data service's `search`, and whether the
 * dropdown is open. Navigation is returned as the path it would go to;
 * `encodeURIComponent` is the parameter `encode`.
 */
module SearchAutocomplete {
  import opened Text
  import opened Catalog

  /** At most this many suggestions are shown. */
  const MaxSuggestions: nat := 5

  datatype Box = Box(query: string, results: seq<Hit>, isOpen: bool)

  const Initial: Box := Box("", [], false)

  /** A query is searched once its trimmed text has two characters or more. */
  predicate LongEnough(query: string) {
    |Trim(query)| > 1
  }

  /** What the effect keyed on the query stores as results. */
  function Suggestions(d: Data, query: string): seq<Hit> {
    if LongEnough(query) then
      var hits := Search(d, query);
      if |hits| <= MaxSuggestions then hits else hits[..MaxSuggestions]
    else []
  }

  /** The suggestions are the first hits of the search, as many as there
      are up to five, and none for a short query. */
  lemma SuggestionsSpec(d: Data, query: string)
    ensures var r := Suggestions(d, query);
      |r| <= MaxSuggestions && r <= Search(d, query) &&
      (LongEnough(query) ==> |r| == if |Search(d, query)| < MaxSuggestions then |Search(d, query)| else MaxSuggestions) &&
      (!LongEnough(query) ==> r == [])
  {
  }

  /** Every suggestion is a search hit: a course, lecture or book of the
      data that matches the query. */
  lemma SuggestionsMatch(d: Data, query: string)
    ensures forall c :: CourseHit(c) in Suggestions(d, query) ==> c in d.courses && CourseMatches(c, query)
    ensures forall l :: LectureHit(l) in Suggestions(d, query) ==> l in d.lectures && LectureMatches(l, query)
    ensures forall b :: BookHit(b) in Suggestions(d, query) ==> b in d.books && BookMatches(b, query)
  {
    SearchMembers(d, query);
    var r := Suggestions(d, query);
    assert forall h :: h in r ==> h in Search(d, query);
  }

  /** The effect keyed on `query`. */
  function QueryEffect(s: Box, d: Data): Box {
    s.(results := Suggestions(d, s.query), isOpen := LongEnough(s.query))
  }

  /** `setQuery(q)`: React skips the update, and so the effect, when the
      value is unchanged. */
  function Typed(s: Box, d: Data, q: string): Box {
    if q == s.query then s else QueryEffect(s.(query := q), d)
  }

  /** The clear button: query emptied and dropdown closed. */
  function Cleared(s: Box, d: Data): Box {
    Typed(s.(isOpen := false), d, "")
  }

  /** `onFocus` reopens the dropdown for a long enough query. */
  function Focused(s: Box): Box {
    if LongEnough(s.query) then s.(isOpen := true) else s
  }

  /** A mouse press outside the box closes the dropdown. */
  function ClickedOutside(s: Box, inside: bool): Box {
    if inside then s else s.(isOpen := false)
  }

  /** `handleSearchSubmit`: the new state and the path navigated to. */
  function Submitted(s: Box, encode: string -> string): (Box, Option<string>) {
    if Trim(s.query) != "" then (s.(isOpen := false), Some("/search?q=" + encode(s.query)))
    else (s, None)
  }

  /** The path a selected suggestion leads to. */
  function Route(item: Hit): string {
    match item
    case CourseHit(c) => "/course/" + c.id
    case LectureHit(l) =>
      var first := if l.courseId.Some? && IdTruthy(l.courseId.value) then IdText(l.courseId.value) else IdText(l.id);
      "/lesson/" + first + "/" + IdText(l.id)
    case BookHit(_) => "/books"
  }

  /** `handleSelect(item)`: the box is cleared, then the route is followed. */
  function Selected(s: Box, d: Data, item: Hit): (Box, string) {
    (Cleared(s, d), Route(item))
  }

  /** `getTypeLabel(type)` */
  function TypeLabel(t: string): string {
    if t == "course" then "دورة"
    else if t == "lecture" then "درس"
    else if t == "book" then "كتاب"
    else ""
  }

  /** The dropdown is drawn when open and non-empty. */
  predicate DropdownShown(s: Box) {
    s.isOpen && |s.results| > 0
  }

  /** The results always belong to the query, and the dropdown is only open
      for a query long enough to search. */
  predicate Valid(s: Box, d: Data) {
    s.results == Suggestions(d, s.query) && (s.isOpen ==> LongEnough(s.query))
  }

  lemma InitialValid(d: Data)
    ensures Valid(Initial, d)
  {
    assert Trim("") == "";
  }

  /** Every handler keeps the results in step with the query. */
  lemma HandlersPreserveValid(s: Box, d: Data, q: string, inside: bool, encode: string -> string, item: Hit)
    requires Valid(s, d)
    ensures Valid(Typed(s, d, q), d)
    ensures Valid(Cleared(s, d), d)
    ensures Valid(Focused(s), d)
    ensures Valid(ClickedOutside(s, inside), d)
    ensures Valid(Submitted(s, encode).0, d)
    ensures Valid(Selected(s, d, item).0, d)
  {
  }

  /** Typing opens the dropdown exactly for a long enough query, with its
      suggestions. */
  lemma TypedSpec(s: Box, d: Data, q: string)
    requires Valid(s, d) && q != s.query
    ensures var r := Typed(s, d, q);
      r.query == q && r.results == Suggestions(d, q) && (r.isOpen <==> LongEnough(q))
  {
  }

  /** A drawn dropdown holds between one and five hits of the current query. */
  lemma DropdownSpec(s: Box, d: Data)
    requires Valid(s, d) && DropdownShown(s)
    ensures LongEnough(s.query)
    ensures 0 < |s.results| <= MaxSuggestions && s.results <= Search(d, s.query)
  {
    SuggestionsSpec(d, s.query);
  }

  /** After a selection or the clear button the box is empty and closed. */
  lemma ClearedSpec(s: Box, d: Data, item: Hit)
    requires Valid(s, d)
    ensures Cleared(s, d) == Initial
    ensures Selected(s, d, item).0 == Initial
  {
    assert Trim("") == "";
  }

  /** Submitting navigates exactly when the trimmed query is not empty, with
      the untrimmed query encoded, and closes the dropdown; otherwise nothing
      changes. */
  lemma SubmittedSpec(s: Box, encode: string -> string)
    ensures var (r, target) := Submitted(s, encode);
      (target.Some? <==> Trim(s.query) != "") &&
      (target.Some? ==> target.value == "/search?q=" + encode(s.query) && r == s.(isOpen := false)) &&
      (target.None? ==> r == s)
  {
  }

  /** A single letter can be submitted although it opens no dropdown. */
  lemma SingleLetterSubmits(d: Data, encode: string -> string)
    ensures var s := Typed(Initial, d, "a");
      !s.isOpen && Submitted(s, encode).1 == Some("/search?q=" + encode("a"))
  {
    assert TrimStart("a") == "a";
    assert TrimEnd("a") == "a" by { assert "a"[..0] == ""; }
  }

  /** A course goes to its page, a book to the books page, and a lecture to
      its lesson page under its course, or under its own id when it has no
      truthy course id. The route tells the kinds of hit apart and reads
      back: a course route ends with the course id, so two courses share a
      route only when they share an id, and a lesson route ends with the
      lecture's own id. */
  lemma RouteSpec(item: Hit, other: Hit)
    ensures item.CourseHit? ==> Route(item) == "/course/" + item.course.id
    ensures item.BookHit? ==> Route(item) == "/books"
    ensures item.LectureHit? && item.lecture.courseId.Some? && IdTruthy(item.lecture.courseId.value) ==>
              Route(item) == "/lesson/" + IdText(item.lecture.courseId.value) + "/" + IdText(item.lecture.id)
    ensures item.LectureHit? && !(item.lecture.courseId.Some? && IdTruthy(item.lecture.courseId.value)) ==>
              Route(item) == "/lesson/" + IdText(item.lecture.id) + "/" + IdText(item.lecture.id)
    ensures item.CourseHit? ==> StartsWith(Route(item), "/course/") && Route(item)[8..] == item.course.id
    ensures item.LectureHit? ==>
              (var tail := "/" + IdText(item.lecture.id);
               StartsWith(Route(item), "/lesson/") &&
               |Route(item)| >= 8 + |tail| && Route(item)[|Route(item)| - |tail|..] == tail)
    ensures item.Type() != other.Type() ==> Route(item) != Route(other)
    ensures item.CourseHit? && other.CourseHit? && Route(item) == Route(other) ==> item.course.id == other.course.id
  {
    var r, q := Route(item), Route(other);
    if item.Type() != other.Type() {
      assert |r| > 1 && |q| > 1 && r[1] != q[1];
    }
    if item.CourseHit? && other.CourseHit? && r == q {
      assert r[8..] == q[8..];
    }
  }

  /** Every hit has its own label; an unknown type has none. */
  lemma TypeLabelSpec(a: Hit, b: Hit)
    ensures TypeLabel(a.Type()) != ""
    ensures TypeLabel(a.Type()) == TypeLabel(b.Type()) <==> a.Type() == b.Type()
    ensures TypeLabel("video") == ""
  {
  }

  /** The search box of one mounted navbar. */
  class SearchBox {
    var query: string
    var results: seq<Hit>
    var isOpen: bool

    function State(): Box
      reads this
    {
      Box(query, results, isOpen)
    }

    /** The first render and the effect's first run. */
    constructor ()
      ensures State() == Initial
    {
      query, results, isOpen := "", [], false;
    }

    /** `onChange`: the new value, then the effect when it changed. */
    method SetQuery(d: Data, q: string)
      modifies this
      ensures State() == Typed(old(State()), d, q)
    {
      if q != query {
        query := q;
        results := Suggestions(d, q);
        isOpen := LongEnough(q);
      }
    }

    method HandleSearchSubmit(encode: string -> string) returns (target: Option<string>)
      modifies this
      ensures (State(), target) == Submitted(old(State()), encode)
    {
      target := None;
      if Trim(query) != "" {
        target := Some("/search?q=" + encode(query));
        isOpen := false;
      }
    }

    method HandleSelect(d: Data, item: Hit) returns (target: string)
      modifies this
      ensures (State(), target) == Selected(old(State()), d, item)
    {
      isOpen := false;
      SetQuery(d, "");
      target := Route(item);
    }

    method HandleClear(d: Data)
      modifies this
      ensures State() == Cleared(old(State()), d)
    {
      isOpen := false;
      SetQuery(d, "");
    }

    method HandleFocus()
      modifies this
      ensures State() == Focused(old(State()))
    {
      if LongEnough(query) {
        isOpen := true;
      }
    }

    method HandleClickOutside(inside: bool)
      modifies this
      ensures State() == ClickedOutside(old(State()), inside)
    {
      if !inside {
        isOpen := false;
      }
    }
  }
}
