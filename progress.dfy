/**
 * The course-progress service (`progressService`): the completed lesson ids
 * of a course kept under one storage key as `{completedLessons: [...]}`,
 * an idempotent append, and the rounded completion percentage.
 */
module Progress {
  import opened Text
  import opened Storage

  const KeyPrefix: string := "progress_course_"
  const Field: string := "completedLessons"

  /** `getStorageKey(courseId)` */
  function StorageKey(courseId: string): (k: string)
    ensures KeyPrefix <= k && k[|KeyPrefix|..] == courseId
  {
    KeyPrefix + courseId
  }

  /** Different courses never share a key. */
  lemma StorageKeyInjective(a: string, b: string)
    ensures StorageKey(a) == StorageKey(b) <==> a == b
  {
    if StorageKey(a) == StorageKey(b) {
      assert a == StorageKey(a)[|KeyPrefix|..];
    }
  }

  /** The document `saveCompletion` writes. */
  function ProgressDoc(ids: seq<JsonValue>): Stored {
    Doc(Single(Field, JArr(ids)))
  }

  /** `getCompletedLessons` on the slot's content: `[]` when the slot is
      absent or empty, when parsing throws, when reading the field throws,
      and when the field is missing or falsy; otherwise the stored array. */
  function Completed(slot: Option<Stored>): (r: seq<JsonValue>)
    ensures !Present(slot) ==> r == []
    ensures Present(slot) && Parse(slot.value).None? ==> r == []
  {
    if !Present(slot) then []
    else
      match Parse(slot.value)
      case None => []
      case Some(v) =>
        match Get(v, Field)
        case Found(JArr(items)) => items
        case _ => []
  }

  /** What `saveCompletion(courseId, lessonId)` returns and what it writes
      (`None`: nothing). */
  function Saved(slot: Option<Stored>, lessonId: JsonValue): (seq<JsonValue>, Option<Stored>) {
    var completed := Completed(slot);
    if lessonId in completed then (completed, None)
    else (completed + [lessonId], Some(ProgressDoc(completed + [lessonId])))
  }

  /** Reading back what was written gives exactly the written list. */
  lemma CompletedOfProgressDoc(ids: seq<JsonValue>)
    ensures Completed(Some(ProgressDoc(ids))) == ids
  {
    DocTextNonEmpty(Single(Field, JArr(ids)));
    GetSingle(Field, JArr(ids));
  }

  /** `saveCompletion` returns the old list, or the old list with the id
      appended; the id is then in the list and in what storage reads back;
      a duplicate-free list stays duplicate-free. */
  lemma SavedSpec(slot: Option<Stored>, lessonId: JsonValue)
    ensures var (list, written) := Saved(slot, lessonId);
      lessonId in list &&
      (lessonId in Completed(slot) <==> written.None?) &&
      (written.None? ==> list == Completed(slot)) &&
      (written.Some? ==> list == Completed(slot) + [lessonId] && Completed(written) == list) &&
      (Distinct(Completed(slot)) ==> Distinct(list))
  {
    var completed := Completed(slot);
    if lessonId !in completed {
      CompletedOfProgressDoc(completed + [lessonId]);
      assert (completed + [lessonId])[|completed|] == lessonId;
    }
  }

  /** The slot after a save. */
  function After(slot: Option<Stored>, lessonId: JsonValue): Option<Stored> {
    var written := Saved(slot, lessonId).1;
    if written.Some? then written else slot
  }

  /** Saving the same id twice is the same as saving it once: the second
      save writes nothing and returns the same list. */
  lemma SaveIdempotent(slot: Option<Stored>, lessonId: JsonValue)
    ensures Saved(After(slot, lessonId), lessonId) == (Saved(slot, lessonId).0, None)
  {
    SavedSpec(slot, lessonId);
  }

  /** `calculatePercent(completedCount, total)`: 0 for no lessons, otherwise
      `Math.round(completedCount / total * 100)` taken on the exact quotient.
      The source divides and multiplies in doubles, whose rounding error can
      put an exact half just below it (23 of 40 gives 57.49999999999999), so
      there the source rounds down where this rounds up. */
  function CalculatePercent(completedCount: nat, total: nat): nat {
    if total == 0 then 0 else (200 * completedCount + total) / (2 * total)
  }

  /** The percentage is `100 * c / t` rounded to the nearest integer, halves up. */
  predicate RoundsTo(c: nat, t: nat, r: int)
    requires t > 0
  {
    2 * t * r - t <= 200 * c < 2 * t * r + t
  }

  lemma CalculatePercentRounds(c: nat, t: nat)
    requires t > 0
    ensures RoundsTo(c, t, CalculatePercent(c, t))
  {
    var n, d := 200 * c + t, 2 * t;
    var q := n / d;
    assert n == d * q + n % d;
  }

  /** Only one integer is `100 * c / t` rounded that way. */
  lemma RoundingUnique(c: nat, t: nat, r1: int, r2: int)
    requires t > 0 && RoundsTo(c, t, r1) && RoundsTo(c, t, r2)
    ensures r1 == r2
  {
    MulLess(2 * t, r1, r2 + 1);
    MulLess(2 * t, r2, r1 + 1);
  }

  lemma MulLess(k: int, a: int, b: int)
    requires k > 0 && k * a < k * b
    ensures a < b
  {
    if a >= b {
      MulMono(k, b, a);
    }
  }

  lemma MulMono(k: int, a: int, b: int)
    requires k > 0 && a <= b
    ensures k * a <= k * b
  {
  }

  /** With at most `t` lessons done the percentage is within 0..100, and all
      lessons done is exactly 100. */
  lemma PercentRange(c: nat, t: nat)
    requires c <= t
    ensures 0 <= CalculatePercent(c, t) <= 100
    ensures t > 0 && c == t ==> CalculatePercent(c, t) == 100
  {
    if t > 0 {
      CalculatePercentRounds(c, t);
      var r := CalculatePercent(c, t);
      MulLess(2 * t, r, 101);
      if c == t {
        CalculatePercentRounds(t, t);
        assert RoundsTo(t, t, 100);
        RoundingUnique(t, t, r, 100);
      }
    }
  }

  /** Completing more lessons never lowers the percentage, and none
      completed gives 0. */
  lemma PercentMonotone(c1: nat, c2: nat, t: nat)
    requires c1 <= c2
    ensures CalculatePercent(c1, t) <= CalculatePercent(c2, t)
    ensures CalculatePercent(0, t) == 0
  {
    if t > 0 {
      var r1, r2 := CalculatePercent(c1, t), CalculatePercent(c2, t);
      CalculatePercentRounds(c1, t);
      CalculatePercentRounds(c2, t);
      assert 2 * t * r1 - t <= 200 * c1 <= 200 * c2 < 2 * t * r2 + t;
      assert (2 * t) * (r2 + 1) == 2 * t * r2 + 2 * t;
      MulLess(2 * t, r1, r2 + 1);
      assert CalculatePercent(0, t) == t / (2 * t);
    }
  }

  /** `getCompletedLessons(courseId)` */
  function GetCompletedLessons(store: LocalStorage, courseId: string): seq<JsonValue>
    reads store
  {
    Completed(store.GetItem(StorageKey(courseId)))
  }

  /** `saveCompletion(courseId, lessonId)`: read, and append and write only
      when the id is new. */
  method SaveCompletion(store: LocalStorage, courseId: string, lessonId: JsonValue) returns (list: seq<JsonValue>)
    modifies store
    ensures list == Saved(old(store.GetItem(StorageKey(courseId))), lessonId).0
    ensures store.items == match Saved(old(store.GetItem(StorageKey(courseId))), lessonId).1
                           case Some(w) => old(store.items)[StorageKey(courseId) := w]
                           case None => old(store.items)
  {
    var completed := GetCompletedLessons(store, courseId);
    if lessonId in completed {
      return completed;
    }
    list := completed + [lessonId];
    store.SetItem(StorageKey(courseId), ProgressDoc(list));
  }
}
