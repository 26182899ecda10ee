/**
 * The `useCourseProgress(courseId, lessons = [])` hook: the completed list
 * loaded for the course, the totals derived from it, and `markCompleted`.
 * A route parameter that is absent is `None`; JavaScript truthiness of an
 * id is "present and not empty".
 */
module CourseProgressHook {
  import opened Text
  import opened Storage
  import Progress

  /** `if (courseId)` for a route parameter. */
  predicate Given(id: Option<string>) {
    id.Some? && id.value != ""
  }

  /** `!lessonId` fails for absent and falsy ids. */
  predicate GivenLesson(id: Option<JsonValue>) {
    id.Some? && Truthy(id.value)
  }

  /** `lessons ? lessons.length : 0`; `None` is `null` (an omitted argument
      is the default `[]`). */
  function Total<L>(lessons: Option<seq<L>>): (r: nat)
    ensures lessons.None? ==> r == 0
    ensures lessons.Some? ==> r == |lessons.value|
  {
    if lessons.Some? then |lessons.value| else 0
  }

  /** The values the hook returns. */
  datatype Summary = Summary(progressPercent: nat, completedCount: nat, total: nat)

  /** The hook's numbers: the percentage is the count over the total,
      rounded; it is 0 with no lessons, within 0..100 while the count does
      not pass the total, and 100 exactly when every lesson is counted. */
  function Summarize<L>(completed: seq<JsonValue>, lessons: Option<seq<L>>): (r: Summary)
    ensures r.completedCount == |completed| && r.total == Total(lessons)
    ensures r.progressPercent == Progress.CalculatePercent(|completed|, Total(lessons))
    ensures r.total == 0 ==> r.progressPercent == 0
    ensures r.total > 0 ==> Progress.RoundsTo(r.completedCount, r.total, r.progressPercent)
    ensures r.completedCount <= r.total ==> r.progressPercent <= 100
    ensures 0 < r.total == r.completedCount ==> r.progressPercent == 100
  {
    var c, t := |completed|, Total(lessons);
    assert t > 0 ==> Progress.RoundsTo(c, t, Progress.CalculatePercent(c, t)) by {
      if t > 0 {
        Progress.CalculatePercentRounds(c, t);
      }
    }
    assert c <= t ==> Progress.CalculatePercent(c, t) <= 100 && (t > 0 && c == t ==> Progress.CalculatePercent(c, t) == 100) by {
      if c <= t {
        Progress.PercentRange(c, t);
      }
    }
    Summary(Progress.CalculatePercent(c, t), c, t)
  }

  /** The count is not matched against the lessons: ids stored for lessons
      that are no longer listed still count, so the count can pass the total
      and the percentage can pass 100. */
  lemma CountNotBoundedByTotal()
    ensures var s := Summarize([JStr("1"), JStr("2"), JStr("3")], Some([JStr("1")]));
      s.completedCount > s.total && s.progressPercent == 300
  {
  }

  /** Marking one more lesson never lowers the percentage. */
  lemma MarkingNeverLowers<L>(slot: Option<Stored>, lessonId: JsonValue, lessons: Option<seq<L>>)
    ensures Summarize(Progress.Completed(slot), lessons).progressPercent <=
            Summarize(Progress.Saved(slot, lessonId).0, lessons).progressPercent
  {
    Progress.SavedSpec(slot, lessonId);
    Progress.PercentMonotone(|Progress.Completed(slot)|, |Progress.Saved(slot, lessonId).0|, Total(lessons));
  }

  /** The hook's state for one mounted component. */
  class CourseProgress<L> {
    var courseId: Option<string>
    var lessons: Option<seq<L>>
    var completedLessons: seq<JsonValue>

    /** The first render: nothing completed yet, and the effect for the
        course runs next. */
    constructor (courseId: Option<string>, lessons: Option<seq<L>>)
      ensures this.courseId == courseId && this.lessons == lessons && completedLessons == []
    {
      this.courseId := courseId;
      this.lessons := lessons;
      completedLessons := [];
    }

    /** The effect keyed on `courseId`: loads the stored list when the id is
        given, and keeps the previous list otherwise. */
    method LoadEffect(store: LocalStorage)
      modifies this
      ensures courseId == old(courseId) && lessons == old(lessons)
      ensures completedLessons == if Given(courseId) then Progress.GetCompletedLessons(store, courseId.value)
                                  else old(completedLessons)
    {
      if Given(courseId) {
        completedLessons := Progress.GetCompletedLessons(store, courseId.value);
      }
    }

    /** A later render with new arguments; the effect re-runs only when the
        course id changed. */
    method Rerender(newCourseId: Option<string>, newLessons: Option<seq<L>>, store: LocalStorage)
      modifies this
      ensures courseId == newCourseId && lessons == newLessons
      ensures completedLessons == if newCourseId != old(courseId) && Given(newCourseId)
                                  then Progress.GetCompletedLessons(store, newCourseId.value)
                                  else old(completedLessons)
    {
      var changed := newCourseId != courseId;
      courseId := newCourseId;
      lessons := newLessons;
      if changed {
        LoadEffect(store);
      }
    }

    function Result(): (r: Summary)
      reads this
      ensures r == Summarize(completedLessons, lessons)
    {
      Summary(Progress.CalculatePercent(|completedLessons|, Total(lessons)), |completedLessons|, Total(lessons))
    }

    /** `markCompleted(lessonId)`: nothing without both ids; otherwise the
        list becomes what `saveCompletion` returns. */
    method MarkCompleted(store: LocalStorage, lessonId: Option<JsonValue>)
      modifies this, store
      ensures courseId == old(courseId) && lessons == old(lessons)
      ensures !Given(courseId) || !GivenLesson(lessonId) ==>
                completedLessons == old(completedLessons) && store.items == old(store.items)
      ensures Given(courseId) && GivenLesson(lessonId) ==>
                var key := Progress.StorageKey(courseId.value);
                var (list, written) := Progress.Saved(old(store.GetItem(key)), lessonId.value);
                completedLessons == list &&
                store.items == (if written.Some? then old(store.items)[key := written.value] else old(store.items))
    {
      if !Given(courseId) || !GivenLesson(lessonId) {
        return;
      }
      var updated := Progress.SaveCompletion(store, courseId.value, lessonId.value);
      completedLessons := updated;
    }
  }
}
