/**
 * The data service (`dataService`): read-only queries over the bundled
 * course, lecture, book and short lists. The bundled lists are the
 * parameter `data`; every query builds fresh records and changes nothing.
 */
module Catalog {
  import opened Text
  import opened Sorting

  /** An id as it appears in the data: a string or a number. */
  datatype Id = Str(s: string) | Num(n: int)

  /** `String(id)` */
  function IdText(id: Id): string {
    match id
    case Str(s) => s
    case Num(n) => IntToString(n)
  }

  /** JavaScript truthiness of an id. */
  predicate IdTruthy(id: Id) {
    match id
    case Str(s) => s != ""
    case Num(n) => n != 0
  }

  datatype Course = Course(
    id: string,
    title: string,
    instructor: string,
    instructorName: Option<string>,
    instructorId: Option<Id>,
    description: string,
    bookId: Option<Id>,
    thumbnail: Option<string>,
    categoryTitle: Option<string>,
    categoryId: Option<string>,
    level: Option<string>)

  datatype Lecture = Lecture(id: Id, courseId: Option<Id>, title: string, index: int, thumbnail: Option<string>)

  datatype Book = Book(id: Id, title: string, author: string)

  datatype Short = Short(id: Id, title: string, videoUrl: string)

  /** The bundled lists. */
  datatype Data = Data(courses: seq<Course>, lectures: seq<Lecture>, books: seq<Book>, shorts: seq<Short>)

  /** A course with the derived `lessonsCount` and `book`. */
  datatype CourseSummary = CourseSummary(course: Course, lessonsCount: nat, book: Option<Book>)

  /** A course with its sorted lessons and its book. */
  datatype CourseDetail = CourseDetail(course: Course, lessons: seq<Lecture>, book: Option<Book>)

  /** A lecture with the course fields `getAllLectures` copies in. */
  datatype LectureListing = LectureListing(lecture: Lecture, courseTitle: Option<string>)

  /** `l.courseId === id` */
  predicate OfCourse(l: Lecture, id: string) {
    l.courseId == Some(Str(id))
  }

  function CourseLectures(lectures: seq<Lecture>, id: string): seq<Lecture> {
    Filter(lectures, (l: Lecture) => OfCourse(l, id))
  }

  /** `booksData.find((b) => b.id === bookId)` */
  function BookFor(books: seq<Book>, bookId: Option<Id>): (r: Option<Book>)
    ensures r.Some? ==> r.value in books && Some(r.value.id) == bookId
    ensures r.None? <==> forall i :: 0 <= i < |books| ==> Some(books[i].id) != bookId
  {
    Find(books, (b: Book) => Some(b.id) == bookId)
  }

  /** `getAllCourses()` */
  function GetAllCourses(d: Data): (r: seq<CourseSummary>)
    ensures |r| == |d.courses|
    ensures forall i :: 0 <= i < |r| ==> r[i].course == d.courses[i]
  {
    seq(|d.courses|, i requires 0 <= i < |d.courses| =>
      CourseSummary(d.courses[i], |CourseLectures(d.lectures, d.courses[i].id)|, BookFor(d.books, d.courses[i].bookId)))
  }

  /** Each summary counts exactly the lectures of its course, a lecture
      listed twice counting twice, and its book is the first book whose id is
      the course's `bookId`. */
  lemma GetAllCoursesSpec(d: Data, i: int, l: Lecture)
    requires 0 <= i < |d.courses|
    ensures var s := GetAllCourses(d)[i];
      (l in CourseLectures(d.lectures, s.course.id) <==> l in d.lectures && OfCourse(l, s.course.id)) &&
      multiset(CourseLectures(d.lectures, s.course.id))[l] == (if OfCourse(l, s.course.id) then multiset(d.lectures)[l] else 0) &&
      s.lessonsCount == |CourseLectures(d.lectures, s.course.id)| &&
      s.book == Find(d.books, (b: Book) => Some(b.id) == s.course.bookId)
  {
    FilterSpec(d.lectures, (l: Lecture) => OfCourse(l, d.courses[i].id));
    FilterMultiset(d.lectures, (l: Lecture) => OfCourse(l, d.courses[i].id), l);
  }

  /** `getCourseById` sorts lessons with `(a, b) => a.index - b.index`. */
  function ByIndex(a: Lecture, b: Lecture): int {
    a.index - b.index
  }

  /** `getCourseById(id)`; `None` is `null`. */
  function GetCourseById(d: Data, id: string): (r: Option<CourseDetail>)
    ensures r.None? <==> forall i :: 0 <= i < |d.courses| ==> d.courses[i].id != id
    ensures r.Some? ==> r.value.course in d.courses && r.value.course.id == id
  {
    var c := Find(d.courses, (c: Course) => c.id == id);
    if c.None? then None
    else
      Some(CourseDetail(c.value, SortBy(CourseLectures(d.lectures, id), ByIndex), BookFor(d.books, c.value.bookId)))
  }

  /** The lessons of a found course are exactly its lectures, each as often
      as it occurs in the data, in ascending `index` order. */
  lemma GetCourseByIdLessons(d: Data, id: string)
    requires GetCourseById(d, id).Some?
    ensures var ls := GetCourseById(d, id).value.lessons;
      multiset(ls) == multiset(CourseLectures(d.lectures, id)) &&
      (forall l :: l in ls <==> l in d.lectures && OfCourse(l, id)) &&
      (forall i, j :: 0 <= i <= j < |ls| ==> ls[i].index <= ls[j].index)
  {
    var fs := CourseLectures(d.lectures, id);
    var ls := SortBy(fs, ByIndex);
    FilterSpec(d.lectures, (l: Lecture) => OfCourse(l, id));
    forall l
      ensures l in ls <==> l in fs
    {
      assert l in ls <==> l in multiset(ls);
      assert l in fs <==> l in multiset(fs);
    }
    SortBySorted(fs, ByIndex);
    SortedByKey(ls, ByIndex, (l: Lecture) => l.index);
  }

  /** `getAllLectures()`: the matching course's title, thumbnail and id are
      copied in, and all three are `undefined` when no course matches. */
  function GetAllLectures(d: Data): (r: seq<LectureListing>)
    ensures |r| == |d.lectures|
  {
    seq(|d.lectures|, i requires 0 <= i < |d.lectures| =>
      var l := d.lectures[i];
      var c := Find(d.courses, (c: Course) => l.courseId == Some(Str(c.id)));
      if c.Some? then
        LectureListing(l.(thumbnail := c.value.thumbnail, courseId := Some(Str(c.value.id))), Some(c.value.title))
      else
        LectureListing(l.(thumbnail := None, courseId := None), None))
  }

  lemma GetAllLecturesSpec(d: Data, i: int)
    requires 0 <= i < |d.lectures|
    ensures var r := GetAllLectures(d)[i]; var l := d.lectures[i];
      r.lecture.id == l.id && r.lecture.title == l.title && r.lecture.index == l.index &&
      ((exists c :: c in d.courses && l.courseId == Some(Str(c.id))) ==>
         r.lecture.courseId == l.courseId && r.courseTitle.Some?) &&
      (forall k ::
         (0 <= k < |d.courses| && l.courseId == Some(Str(d.courses[k].id)) &&
          forall j :: 0 <= j < k ==> l.courseId != Some(Str(d.courses[j].id))) ==>
         r.courseTitle == Some(d.courses[k].title) && r.lecture.thumbnail == d.courses[k].thumbnail) &&
      ((forall c :: c in d.courses ==> l.courseId != Some(Str(c.id))) ==>
         r.lecture.courseId == None && r.courseTitle == None && r.lecture.thumbnail == None)
  {
    var l := d.lectures[i];
    var p := (c: Course) => l.courseId == Some(Str(c.id));
    if exists c :: c in d.courses && p(c) {
      var c :| c in d.courses && p(c);
      var k :| 0 <= k < |d.courses| && d.courses[k] == c;
      assert !(forall j :: 0 <= j < |d.courses| ==> !p(d.courses[j]));
    }
    forall k | 0 <= k < |d.courses| && p(d.courses[k]) && (forall j :: 0 <= j < k ==> !p(d.courses[j]))
      ensures FindIndex(d.courses, p) == Some(k)
    {
      FindIndexFirst(d.courses, p, k);
    }
  }

  /** `getShortById(id)`: the first short with that id, or `undefined`. */
  function GetShortById(d: Data, id: Id): (r: Option<Short>)
    ensures r.Some? ==> r.value in d.shorts && r.value.id == id
    ensures r.None? <==> forall i :: 0 <= i < |d.shorts| ==> d.shorts[i].id != id
  {
    Find(d.shorts, (s: Short) => s.id == id)
  }

  /** `getShortById` picks the first of several shorts with the same id. */
  lemma GetShortByIdFirst(d: Data, id: Id, i: int)
    requires 0 <= i < |d.shorts| && d.shorts[i].id == id
    requires forall j :: 0 <= j < i ==> d.shorts[j].id != id
    ensures GetShortById(d, id) == Some(d.shorts[i])
  {
    var k := FindIndex(d.shorts, (s: Short) => s.id == id);
    assert k.Some?;
    assert k.value == i;
  }

  /** A search result, tagged with its type. */
  datatype Hit = CourseHit(course: Course) | LectureHit(lecture: Lecture) | BookHit(book: Book) {
    /** The `type` field. */
    function Type(): string {
      match this
      case CourseHit(_) => "course"
      case LectureHit(_) => "lecture"
      case BookHit(_) => "book"
    }
  }

  /** The case-sensitive matching rules of `search`. */
  predicate CourseMatches(c: Course, query: string) {
    Contains(c.title, query) || Contains(c.instructor, query) || Contains(c.description, query)
  }

  predicate LectureMatches(l: Lecture, query: string) {
    Contains(l.title, query)
  }

  predicate BookMatches(b: Book, query: string) {
    Contains(b.title, query) || Contains(b.author, query)
  }

  function CourseHits(cs: seq<Course>): (r: seq<Hit>)
    ensures |r| == |cs| && forall i :: 0 <= i < |r| ==> r[i] == CourseHit(cs[i])
  {
    seq(|cs|, i requires 0 <= i < |cs| => CourseHit(cs[i]))
  }

  function LectureHits(ls: seq<Lecture>): (r: seq<Hit>)
    ensures |r| == |ls| && forall i :: 0 <= i < |r| ==> r[i] == LectureHit(ls[i])
  {
    seq(|ls|, i requires 0 <= i < |ls| => LectureHit(ls[i]))
  }

  function BookHits(bs: seq<Book>): (r: seq<Hit>)
    ensures |r| == |bs| && forall i :: 0 <= i < |r| ==> r[i] == BookHit(bs[i])
  {
    seq(|bs|, i requires 0 <= i < |bs| => BookHit(bs[i]))
  }

  /** `search(query)`: matching courses, then lectures, then books. The
      lower-cased query the function computes is never used. */
  function Search(d: Data, query: string): seq<Hit> {
    CourseHits(Filter(d.courses, (c: Course) => CourseMatches(c, query))) +
    LectureHits(Filter(d.lectures, (l: Lecture) => LectureMatches(l, query))) +
    BookHits(Filter(d.books, (b: Book) => BookMatches(b, query)))
  }

  lemma CourseHitsMembers(cs: seq<Course>)
    ensures forall c :: CourseHit(c) in CourseHits(cs) <==> c in cs
    ensures forall h :: h in CourseHits(cs) ==> h.CourseHit?
  {
    forall c | c in cs ensures CourseHit(c) in CourseHits(cs) {
      var k :| 0 <= k < |cs| && cs[k] == c;
      assert CourseHits(cs)[k] == CourseHit(c);
    }
  }

  lemma LectureHitsMembers(ls: seq<Lecture>)
    ensures forall l :: LectureHit(l) in LectureHits(ls) <==> l in ls
    ensures forall h :: h in LectureHits(ls) ==> h.LectureHit?
  {
    forall l | l in ls ensures LectureHit(l) in LectureHits(ls) {
      var k :| 0 <= k < |ls| && ls[k] == l;
      assert LectureHits(ls)[k] == LectureHit(l);
    }
  }

  lemma BookHitsMembers(bs: seq<Book>)
    ensures forall b :: BookHit(b) in BookHits(bs) <==> b in bs
    ensures forall h :: h in BookHits(bs) ==> h.BookHit?
  {
    forall b | b in bs ensures BookHit(b) in BookHits(bs) {
      var k :| 0 <= k < |bs| && bs[k] == b;
      assert BookHits(bs)[k] == BookHit(b);
    }
  }

  /** An item is a hit exactly when it matches. */
  lemma SearchMembers(d: Data, query: string)
    ensures forall c :: CourseHit(c) in Search(d, query) <==> c in d.courses && CourseMatches(c, query)
    ensures forall l :: LectureHit(l) in Search(d, query) <==> l in d.lectures && LectureMatches(l, query)
    ensures forall b :: BookHit(b) in Search(d, query) <==> b in d.books && BookMatches(b, query)
  {
    var cs := Filter(d.courses, (c: Course) => CourseMatches(c, query));
    var ls := Filter(d.lectures, (l: Lecture) => LectureMatches(l, query));
    var bs := Filter(d.books, (b: Book) => BookMatches(b, query));
    FilterSpec(d.courses, (c: Course) => CourseMatches(c, query));
    FilterSpec(d.lectures, (l: Lecture) => LectureMatches(l, query));
    FilterSpec(d.books, (b: Book) => BookMatches(b, query));
    CourseHitsMembers(cs);
    LectureHitsMembers(ls);
    BookHitsMembers(bs);
  }

  /** Every course hit comes before every lecture hit, and every lecture hit
      before every book hit. */
  lemma SearchOrder(d: Data, query: string)
    ensures forall i, j :: 0 <= i < j < |Search(d, query)| ==>
              (Search(d, query)[j].CourseHit? ==> Search(d, query)[i].CourseHit?) &&
              (Search(d, query)[j].LectureHit? ==> !Search(d, query)[i].BookHit?)
  {
    var ch := CourseHits(Filter(d.courses, (c: Course) => CourseMatches(c, query)));
    var lh := LectureHits(Filter(d.lectures, (l: Lecture) => LectureMatches(l, query)));
    var bh := BookHits(Filter(d.books, (b: Book) => BookMatches(b, query)));
    var r := Search(d, query);
    forall i, j | 0 <= i < j < |r|
      ensures (r[j].CourseHit? ==> r[i].CourseHit?) && (r[j].LectureHit? ==> !r[i].BookHit?)
    {
      if j >= |ch| + |lh| {
        assert r[j] == bh[j - |ch| - |lh|];
      } else if j >= |ch| {
        assert r[j] == lh[j - |ch|];
        if i >= |ch| {
          assert r[i] == lh[i - |ch|];
        } else {
          assert r[i] == ch[i];
        }
      } else {
        assert r[i] == ch[i];
      }
    }
  }

  /** The empty query matches everything: every course, lecture and book, in order. */
  lemma SearchEmptyQuery(d: Data)
    ensures Search(d, "") == CourseHits(d.courses) + LectureHits(d.lectures) + BookHits(d.books)
  {
    FilterAll(d.courses, (c: Course) => CourseMatches(c, ""));
    FilterAll(d.lectures, (l: Lecture) => LectureMatches(l, ""));
    FilterAll(d.books, (b: Book) => BookMatches(b, ""));
  }

  /** Matching is case-sensitive: "abc" does not find a course titled "ABC"
      that has no "abc" elsewhere. */
  lemma SearchCaseSensitive()
    ensures !CourseMatches(Course("1", "ABC", "", None, None, "", None, None, None, None, None), "abc")
  {
    AbsentCharNotContained("ABC", "abc", 'a');
    AbsentCharNotContained("", "abc", 'a');
  }
}
