/**
 * The `useLesson(courseId, lessonId)` hook: finds the course, then the
 * lesson by a tolerant id match, with its neighbours in the sorted lesson
 * list. Route parameters are strings; an absent parameter is `None`.
 */
module LessonLookup {
  import opened Text
  import opened Sorting
  import opened Catalog

  const CourseNotFound: string := "الدورة غير موجودة"
  const LessonNotFound: string := "الدرس غير موجود"

  /** `id == param` for a data id and a route string: strings compare as
      strings, numbers with `Number(param)`. */
  predicate LooseEqual(id: Id, param: string) {
    match id
    case Str(s) => s == param
    case Num(n) => StringToNumber(param) == Finite(n as real)
  }

  /** The `findIndex` callback: strict, loose, or one of the legacy prefixes. */
  predicate IdMatches(l: Lecture, lessonId: string) {
    l.id == Str(lessonId) ||
    LooseEqual(l.id, lessonId) ||
    IdText(l.id) == "cw-" + lessonId ||
    IdText(l.id) == "dd-" + lessonId
  }

  function MatchIndex(lessons: seq<Lecture>, lessonId: string): Option<nat> {
    FindIndex(lessons, (l: Lecture) => IdMatches(l, lessonId))
  }

  /** A number id matches its own text, and the text with a leading zero or
      surrounding blanks, because loose equality converts the string. */
  lemma NumberIdsMatchLoosely(n: nat)
    ensures LooseEqual(Num(n), NatToString(n))
    ensures LooseEqual(Num(n), "0" + NatToString(n))
    ensures LooseEqual(Num(n), " " + NatToString(n) + " ")
  {
    StringToNumberOfIntToString(n);
    var s := NatToString(n);
    NatToStringDigits(n);
    LeadingZero(s);
    StringToNumberOfDigits("0" + s);
    BlankPadded(s);
  }

  /** Blanks around a digit string are trimmed away by the conversion. */
  lemma BlankPadded(s: string)
    requires |s| > 0 && AllDigits(s)
    ensures StringToNumber(" " + s + " ") == StringToNumber(s)
  {
    var b := " " + s + " ";
    assert b[1..] == s + " ";
    TrimStartOfTrimmed(s + " ");
    assert TrimStart(b) == s + " ";
    assert (s + " ")[..|s|] == s;
    TrimEndOfTrimmed(s);
    assert TrimEnd(s + " ") == s;
    TrimStartOfTrimmed(s);
    assert Trim(b) == s;
    assert IsTrimmed(s);
    TrimOfTrimmed(s);
  }

  /** Number ids also match the other spellings `Number` accepts: with a
      zero fraction, an exponent, a trailing point, all digits after a
      leading point with an exponent that moves them back, a minus sign, and
      a single digit as a hexadecimal literal. */
  lemma NumberFormsMatch(n: nat)
    ensures LooseEqual(Num(n), NatToString(n) + ".0")
    ensures LooseEqual(Num(n), NatToString(n) + "e0")
    ensures LooseEqual(Num(n), NatToString(n) + ".")
    ensures LooseEqual(Num(n), "." + NatToString(n) + "e" + NatToString(|NatToString(n)|))
    ensures LooseEqual(Num(-(n as int)), "-" + NatToString(n))
    ensures n < 10 ==> LooseEqual(Num(n), "0x" + NatToString(n))
  {
    PointForms(n);
    ExponentForms(n);
    SignAndHexForms(n);
  }

  lemma PointForms(n: nat)
    ensures LooseEqual(Num(n), NatToString(n) + ".0")
    ensures LooseEqual(Num(n), NatToString(n) + ".")
  {
    NatToStringDigits(n);
    PointZeroOfDigits(NatToString(n));
    TrailingPointOfDigits(NatToString(n));
  }

  lemma ExponentForms(n: nat)
    ensures LooseEqual(Num(n), NatToString(n) + "e0")
    ensures LooseEqual(Num(n), "." + NatToString(n) + "e" + NatToString(|NatToString(n)|))
  {
    var ds := NatToString(n);
    NatToStringDigits(n);
    NatToStringDigits(|ds|);
    ExponentZeroOfDigits(ds);
    LeadingPointOfDigits(ds, NatToString(|ds|));
  }

  lemma SignAndHexForms(n: nat)
    ensures LooseEqual(Num(-(n as int)), "-" + NatToString(n))
    ensures n < 10 ==> LooseEqual(Num(n), "0x" + NatToString(n))
  {
    var ds := NatToString(n);
    NatToStringDigits(n);
    StringToNumberOfIntToString(-(n as int));
    if n == 0 {
      StringToNumberSigned("-", ds);
      StringToNumberOfDigits(ds);
      assert "" + ds == ds;
      StringToNumberSigned("", ds);
    }
    if n < 10 {
      StringToNumberRadix('x', ds);
      assert ['0', 'x'] + ds == "0x" + ds;
      assert RadixValue(ds, 16) == n by { assert ds[..0] == ""; }
    }
  }

  /** A leading zero does not change a digit string's value. */
  lemma {:induction false} LeadingZero(s: string)
    requires AllDigits(s)
    ensures AllDigits("0" + s) && DigitsValue("0" + s) == DigitsValue(s)
    decreases |s|
  {
    if |s| > 0 {
      var p := s[..|s| - 1];
      LeadingZero(p);
      assert ("0" + s)[..|"0" + s| - 1] == "0" + p;
    }
  }

  /** The previous lesson, `null` at the first. */
  function Prev(lessons: seq<Lecture>, idx: nat): (r: Option<Lecture>)
    requires idx < |lessons|
    ensures r.None? <==> idx == 0
    ensures r.Some? ==> r.value == lessons[idx - 1]
  {
    if idx > 0 then Some(lessons[idx - 1]) else None
  }

  /** The next lesson, `null` at the last. */
  function Next(lessons: seq<Lecture>, idx: nat): (r: Option<Lecture>)
    requires idx < |lessons|
    ensures r.None? <==> idx == |lessons| - 1
    ensures r.Some? ==> r.value == lessons[idx + 1]
  {
    if idx < |lessons| - 1 then Some(lessons[idx + 1]) else None
  }

  /** The two neighbour links agree: the lesson after the previous one is
      the lesson itself, and so is the one before the next; a lesson alone in
      its course has neither. */
  lemma NeighboursInverse(lessons: seq<Lecture>, idx: nat)
    requires idx < |lessons|
    ensures Prev(lessons, idx).Some? ==> Next(lessons, idx - 1) == Some(lessons[idx])
    ensures Next(lessons, idx).Some? ==> Prev(lessons, idx + 1) == Some(lessons[idx])
    ensures |lessons| == 1 ==> Prev(lessons, idx).None? && Next(lessons, idx).None?
  {
  }

  /** In a found course the neighbours are lectures of that course, the
      previous one with an `index` no greater and the next with one no
      smaller than the lesson's, since the lessons are sorted by `index`. */
  lemma NeighboursInLessonOrder(d: Data, courseId: string, idx: nat)
    requires GetCourseById(d, courseId).Some?
    requires idx < |GetCourseById(d, courseId).value.lessons|
    ensures var ls := GetCourseById(d, courseId).value.lessons;
      var p, n := Prev(ls, idx), Next(ls, idx);
      (p.Some? ==> p.value in d.lectures && OfCourse(p.value, courseId) && p.value.index <= ls[idx].index) &&
      (n.Some? ==> n.value in d.lectures && OfCourse(n.value, courseId) && ls[idx].index <= n.value.index)
  {
    var ls := GetCourseById(d, courseId).value.lessons;
    GetCourseByIdLessons(d, courseId);
    if idx > 0 {
      assert ls[idx - 1] in ls;
    }
    if idx < |ls| - 1 {
      assert ls[idx + 1] in ls;
    }
  }

  /** The hook's state. */
  datatype LessonState = LessonState(
    course: Option<CourseDetail>,
    lesson: Option<Lecture>,
    prevLesson: Option<Lecture>,
    nextLesson: Option<Lecture>,
    loading: bool,
    error: Option<string>)

  const Initial: LessonState := LessonState(None, None, None, None, true, None)

  /** `!courseId || !lessonId` for route parameters. */
  predicate Missing(id: Option<string>) {
    id.None? || id.value == ""
  }

  /** One run of the lookup effect. */
  function Looked(s: LessonState, d: Data, courseId: Option<string>, lessonId: Option<string>): LessonState {
    if Missing(courseId) || Missing(lessonId) then s
    else
      match GetCourseById(d, courseId.value)
      case None => s.(error := Some(CourseNotFound), loading := false)
      case Some(found) =>
        var lessons := found.lessons;
        match MatchIndex(lessons, lessonId.value)
        case Some(idx) =>
          s.(course := Some(found), lesson := Some(lessons[idx]),
             prevLesson := Prev(lessons, idx), nextLesson := Next(lessons, idx), loading := false)
        case None => s.(error := Some(LessonNotFound), loading := false)
  }

  /** Without both ids nothing is loaded, and loading stays as it was. */
  lemma LookedMissing(s: LessonState, d: Data, courseId: Option<string>, lessonId: Option<string>)
    requires Missing(courseId) || Missing(lessonId)
    ensures Looked(s, d, courseId, lessonId) == s
    ensures Looked(Initial, d, courseId, lessonId).loading
  {
  }

  /** Once both ids are given, loading is over whatever the outcome. */
  lemma LookedEndsLoading(s: LessonState, d: Data, courseId: string, lessonId: string)
    requires courseId != "" && lessonId != ""
    ensures !Looked(s, d, Some(courseId), Some(lessonId)).loading
  {
  }

  /** An unknown course sets only the course error. */
  lemma LookedUnknownCourse(s: LessonState, d: Data, courseId: string, lessonId: string)
    requires courseId != "" && lessonId != ""
    requires forall i :: 0 <= i < |d.courses| ==> d.courses[i].id != courseId
    ensures Looked(s, d, Some(courseId), Some(lessonId)) == s.(error := Some(CourseNotFound), loading := false)
  {
  }

  /** A known course without a matching lesson sets only the lesson error;
      the course is not stored. */
  lemma LookedUnknownLesson(s: LessonState, d: Data, courseId: string, lessonId: string)
    requires courseId != "" && lessonId != ""
    requires GetCourseById(d, courseId).Some?
    requires var ls := GetCourseById(d, courseId).value.lessons;
             forall i :: 0 <= i < |ls| ==> !IdMatches(ls[i], lessonId)
    ensures Looked(s, d, Some(courseId), Some(lessonId)) == s.(error := Some(LessonNotFound), loading := false)
  {
  }

  /** Otherwise the lesson is the first of the course whose id matches, and
      its neighbours are the lessons next to it, `null` at either end. The
      earlier error, if any, is kept. */
  lemma LookedFound(s: LessonState, d: Data, courseId: string, lessonId: string, i: nat)
    requires courseId != "" && lessonId != ""
    requires GetCourseById(d, courseId).Some?
    requires var ls := GetCourseById(d, courseId).value.lessons;
             i < |ls| && IdMatches(ls[i], lessonId) && forall j :: 0 <= j < i ==> !IdMatches(ls[j], lessonId)
    ensures var ls := GetCourseById(d, courseId).value.lessons;
            var r := Looked(s, d, Some(courseId), Some(lessonId));
      r.lesson == Some(ls[i]) && r.course == GetCourseById(d, courseId) &&
      (r.prevLesson.None? <==> i == 0) && (i > 0 ==> r.prevLesson == Some(ls[i - 1])) &&
      (r.nextLesson.None? <==> i == |ls| - 1) && (i < |ls| - 1 ==> r.nextLesson == Some(ls[i + 1])) &&
      r.error == s.error
  {
    var found := GetCourseById(d, courseId).value;
    MatchIndexFirst(found.lessons, lessonId, i);
    LookedAt(s, d, courseId, lessonId, found, i);
  }

  /** The match index is the first lesson that matches. */
  lemma MatchIndexFirst(ls: seq<Lecture>, lessonId: string, i: nat)
    requires i < |ls| && IdMatches(ls[i], lessonId) && forall j :: 0 <= j < i ==> !IdMatches(ls[j], lessonId)
    ensures MatchIndex(ls, lessonId) == Some(i)
  {
    FindIndexFirst(ls, (l: Lecture) => IdMatches(l, lessonId), i);
  }

  /** The lookup's outcome once the course and the lesson's index are known. */
  lemma LookedAt(s: LessonState, d: Data, courseId: string, lessonId: string, found: CourseDetail, i: nat)
    requires courseId != "" && lessonId != ""
    requires GetCourseById(d, courseId) == Some(found)
    requires MatchIndex(found.lessons, lessonId) == Some(i) && i < |found.lessons|
    ensures Looked(s, d, Some(courseId), Some(lessonId)) ==
      s.(course := Some(found), lesson := Some(found.lessons[i]),
         prevLesson := Prev(found.lessons, i), nextLesson := Next(found.lessons, i), loading := false)
  {
    assert !Missing(Some(courseId)) && !Missing(Some(lessonId));
  }

  /** The first lesson satisfying any of the rules wins, even when a later
      lesson matches exactly: with lessons "cw-5" then "5", asking for "5"
      finds "cw-5". */
  lemma FirstMatchWins(a: Lecture, b: Lecture)
    requires a.id == Str("cw-5") && b.id == Str("5")
    ensures MatchIndex([a, b], "5") == Some(0)
  {
    assert IdText(a.id) == "cw-" + "5";
  }

  /** The hook; the bundled data is passed to the effect. */
  class UseLesson {
    var course: Option<CourseDetail>
    var lesson: Option<Lecture>
    var prevLesson: Option<Lecture>
    var nextLesson: Option<Lecture>
    var loading: bool
    var error: Option<string>

    function State(): LessonState
      reads this
    {
      LessonState(course, lesson, prevLesson, nextLesson, loading, error)
    }

    constructor ()
      ensures State() == Initial
    {
      course, lesson, prevLesson, nextLesson := None, None, None, None;
      loading, error := true, None;
    }

    /** The effect keyed on both ids. */
    method Effect(d: Data, courseId: Option<string>, lessonId: Option<string>)
      modifies this
      ensures State() == Looked(old(State()), d, courseId, lessonId)
    {
      if Missing(courseId) || Missing(lessonId) {
        return;
      }
      var foundCourse := GetCourseById(d, courseId.value);
      if foundCourse.None? {
        error := Some(CourseNotFound);
        loading := false;
        return;
      }
      var lessons := foundCourse.value.lessons;
      var idx := MatchIndex(lessons, lessonId.value);
      if idx.Some? {
        course := foundCourse;
        lesson := Some(lessons[idx.value]);
        prevLesson := Prev(lessons, idx.value);
        nextLesson := Next(lessons, idx.value);
      } else {
        error := Some(LessonNotFound);
      }
      loading := false;
    }
  }
}
