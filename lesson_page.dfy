/**
 * The lesson page's reader controls (`Lesson`): the font-size stepper and
 * the reading-width toggle with their persisted values, the per-lesson note
 * kept in storage, and the note export as a Word document. A number that
 * may be NaN is an `Option<int>` whose `None` is NaN, as `ParseInt` gives.
 */
module LessonPage {
  import opened Text
  import opened Storage

  const InitialFontSize: int := 20
  const MinFontSize: int := 14
  const MaxFontSize: int := 36
  const InitialMaxWidth: int := 680

  const FontSizeKey: string := "reader-font-size"
  const MaxWidthKey: string := "reader-max-width"

  // ---------------------------------------------------------------------
  // Steppers
  // ---------------------------------------------------------------------

  /** `Math.max(14, f - 2)`; NaN stays NaN. */
  function Smaller(f: Option<int>): Option<int> {
    match f
    case None => None
    case Some(v) => Some(if v - 2 < MinFontSize then MinFontSize else v - 2)
  }

  /** `Math.min(36, f + 2)`; NaN stays NaN. */
  function Larger(f: Option<int>): Option<int> {
    match f
    case None => None
    case Some(v) => Some(if v + 2 > MaxFontSize then MaxFontSize else v + 2)
  }

  predicate InFontRange(f: Option<int>) {
    f.Some? && MinFontSize <= f.value <= MaxFontSize
  }

  /** The steppers move by two within the range and stop at its ends; a size
      in the range stays there. */
  lemma SteppersSpec(f: Option<int>)
    ensures f.Some? ==> Smaller(f).Some? && Smaller(f).value >= MinFontSize
    ensures f.Some? ==> Larger(f).Some? && Larger(f).value <= MaxFontSize
    ensures f.Some? && f.value - 2 >= MinFontSize ==> Smaller(f) == Some(f.value - 2)
    ensures f.Some? && f.value + 2 <= MaxFontSize ==> Larger(f) == Some(f.value + 2)
    ensures InFontRange(f) ==> InFontRange(Smaller(f)) && InFontRange(Larger(f))
  {
  }

  /** The default size is in the range. */
  lemma InitialInRange()
    ensures InFontRange(Some(InitialFontSize))
  {
  }

  /** Each step keeps an even size even, so from the default only even sizes
      14..36 are reached. */
  lemma SteppersKeepParity(f: Option<int>)
    requires InFontRange(f) && f.value % 2 == 0
    ensures Smaller(f).value % 2 == 0 && Larger(f).value % 2 == 0
  {
  }

  /** A NaN size cannot be stepped back to a number. */
  lemma NaNSticks()
    ensures Smaller(None) == None && Larger(None) == None
  {
  }

  /** `w <= 700 ? 1100 : 700`; NaN compares false. */
  function WidthToggled(w: Option<int>): (r: Option<int>)
    ensures r == Some(700) || r == Some(1100)
  {
    if w.Some? && w.value <= 700 then Some(1100) else Some(700)
  }

  /** From either result the toggle swaps between the two widths, and the
      default 680 widens to 1100. */
  lemma WidthToggleSpec(w: Option<int>)
    ensures WidthToggled(WidthToggled(w)) != WidthToggled(w)
    ensures WidthToggled(WidthToggled(WidthToggled(w))) == WidthToggled(w)
    ensures WidthToggled(Some(InitialMaxWidth)) == Some(1100)
  {
  }

  // ---------------------------------------------------------------------
  // Persistence of the reader settings
  // ---------------------------------------------------------------------

  /** `String(n)` as `setItem` stores a number. */
  function NumberText(v: Option<int>): string {
    match v
    case None => "NaN"
    case Some(i) => IntToString(i)
  }

  /** The value the mount effect restores: `parseInt` of a saved non-empty
      text, or the current value when there is none. */
  function Restored(slot: Option<Stored>, current: Option<int>): Option<int> {
    if Present(slot) then ParseInt(RawText(slot.value)) else current
  }

  /** What is written is what is read back, NaN included. */
  lemma RestoreRoundTrip(v: Option<int>, current: Option<int>)
    ensures Restored(Some(Str(NumberText(v))), current) == v
  {
    match v
    case None =>
      ParseIntOfNonNumber("NaN");
    case Some(i) =>
      ParseIntOfIntToString(i);
      var n: nat := if i < 0 then -i else i;
      NatToStringDigits(n);
  }

  /** The restored size is not checked: a saved "100" gives a size outside
      the stepper range, a saved "big" gives NaN, and a saved "0x10" is read
      as hexadecimal. */
  lemma RestoredUnchecked(current: Option<int>)
    ensures Restored(Some(Str("100")), current) == Some(100)
    ensures Restored(Some(Str("big")), current) == None
    ensures Restored(Some(Str("0x10")), current) == Some(16)
    ensures Restored(None, current) == current && Restored(Some(Str("")), current) == current
  {
    HundredParses();
    ParseIntOfNonNumber("big");
    ParseIntHexForms();
    RestoredPresent("100", current);
    RestoredPresent("big", current);
    RestoredPresent("0x10", current);
  }

  /** A saved non-empty text restores as its `parseInt`. */
  lemma RestoredPresent(t: string, current: Option<int>)
    requires t != ""
    ensures Restored(Some(Str(t)), current) == ParseInt(t)
  {
  }

  lemma HundredParses()
    ensures ParseInt("100") == Some(100)
  {
    ParseIntOfIntToString(100);
    assert IntToString(100) == "100" by {
      assert NatToString(10) == "10";
    }
  }

  // ---------------------------------------------------------------------
  // Notes
  // ---------------------------------------------------------------------

  function NoteKey(lessonId: string): (r: string)
    ensures StartsWith(r, "note-") && r[5..] == lessonId
  {
    "note-" + lessonId
  }

  /** Different lessons keep their notes apart. */
  lemma NoteKeyInjective(a: string, b: string)
    ensures NoteKey(a) == NoteKey(b) ==> a == b
  {
    if NoteKey(a) == NoteKey(b) {
      assert NoteKey(a)[5..] == NoteKey(b)[5..];
    }
  }

  /** The note the effect loads: the saved text, or "" when there is none. */
  function LoadedNote(slot: Option<Stored>): string {
    if Present(slot) then RawText(slot.value) else ""
  }

  /** A saved note loads back as itself, the empty note too, and a missing
      one loads as the empty note. */
  lemma NoteRoundTrip(text: string)
    ensures LoadedNote(Some(Str(text))) == text
    ensures LoadedNote(None) == ""
  {
  }

  // ---------------------------------------------------------------------
  // Export
  // ---------------------------------------------------------------------

  const ExportHeader: string :=
    "<html xmlns:o='urn:schemas-microsoft-com:office:office' xmlns:w='urn:schemas-microsoft-com:office:word' xmlns='http://www.w3.org/TR/REC-html40'><head><meta charset='utf-8'><title>Export Notes</title></head><body>"
  const ExportFooter: string := "</body></html>"
  const WordDataPrefix: string := "data:application/vnd.ms-word;charset=utf-8,"

  /** The exported document, which holds the note between the two halves. */
  function ExportDocument(note: string): (r: string)
    ensures StartsWith(r, ExportHeader) && |r| == |ExportHeader| + |note| + |ExportFooter|
    ensures r[|ExportHeader|..|ExportHeader| + |note|] == note
    ensures r[|ExportHeader| + |note|..] == ExportFooter
  {
    ExportHeader + note + ExportFooter
  }

  /** Different notes export to different documents. */
  lemma ExportInjective(a: string, b: string)
    requires ExportDocument(a) == ExportDocument(b)
    ensures a == b
  {
    assert |a| == |b|;
  }

  function ExportFileName(lessonId: string): (r: string)
    ensures |r| == |lessonId| + 10 && StartsWith(r, "notes-") && r[6..|r| - 4] == lessonId && r[|r| - 4..] == ".doc"
  {
    "notes-" + lessonId + ".doc"
  }

  /** The link's `href` and `download`; `encode` is `encodeURIComponent`. */
  function Export(note: string, lessonId: string, encode: string -> string): (string, string) {
    (WordDataPrefix + encode(ExportDocument(note)), ExportFileName(lessonId))
  }

  /** The page's reader state for one lesson; line height and the split pane
      are not modelled. */
  class LessonReader {
    const lessonId: string
    var fontSize: Option<int>
    var maxWidth: Option<int>
    var note: string

    constructor (lessonId: string)
      ensures this.lessonId == lessonId
      ensures fontSize == Some(InitialFontSize) && maxWidth == Some(InitialMaxWidth) && note == ""
    {
      this.lessonId := lessonId;
      fontSize := Some(InitialFontSize);
      maxWidth := Some(InitialMaxWidth);
      note := "";
    }

    /** The mount effect reading the saved reader settings. */
    method RestoreSettings(store: LocalStorage)
      modifies this
      ensures fontSize == Restored(store.GetItem(FontSizeKey), old(fontSize))
      ensures maxWidth == Restored(store.GetItem(MaxWidthKey), old(maxWidth))
      ensures note == old(note)
    {
      var savedSize := store.GetItem(FontSizeKey);
      var savedWidth := store.GetItem(MaxWidthKey);
      if Present(savedSize) {
        fontSize := ParseInt(RawText(savedSize.value));
      }
      if Present(savedWidth) {
        maxWidth := ParseInt(RawText(savedWidth.value));
      }
    }

    /** The effect writing the settings after each change. */
    method PersistSettings(store: LocalStorage)
      modifies store
      ensures store.items == old(store.items)[FontSizeKey := Str(NumberText(fontSize))][MaxWidthKey := Str(NumberText(maxWidth))]
    {
      store.SetItem(FontSizeKey, Str(NumberText(fontSize)));
      store.SetItem(MaxWidthKey, Str(NumberText(maxWidth)));
    }

    method DecreaseFont()
      modifies this
      ensures fontSize == Smaller(old(fontSize)) && maxWidth == old(maxWidth) && note == old(note)
    {
      fontSize := Smaller(fontSize);
    }

    method IncreaseFont()
      modifies this
      ensures fontSize == Larger(old(fontSize)) && maxWidth == old(maxWidth) && note == old(note)
    {
      fontSize := Larger(fontSize);
    }

    method ToggleWidth()
      modifies this
      ensures maxWidth == WidthToggled(old(maxWidth)) && fontSize == old(fontSize) && note == old(note)
    {
      maxWidth := WidthToggled(maxWidth);
    }

    /** The effect keyed on the lesson id. */
    method LoadNote(store: LocalStorage)
      modifies this
      ensures note == LoadedNote(store.GetItem(NoteKey(lessonId)))
      ensures fontSize == old(fontSize) && maxWidth == old(maxWidth)
    {
      var saved := store.GetItem(NoteKey(lessonId));
      if Present(saved) {
        note := RawText(saved.value);
      } else {
        note := "";
      }
    }

    method SaveNote(store: LocalStorage, text: string)
      modifies this, store
      ensures note == text && store.items == old(store.items)[NoteKey(lessonId) := Str(text)]
      ensures fontSize == old(fontSize) && maxWidth == old(maxWidth)
    {
      note := text;
      store.SetItem(NoteKey(lessonId), Str(text));
    }
  }

  /** Saving a note and reloading the page's note for the same lesson gives
      the saved text back. */
  method SaveThenLoad(store: LocalStorage, lessonId: string, text: string) returns (loaded: string)
    modifies store
    ensures loaded == text
  {
    var reader := new LessonReader(lessonId);
    reader.SaveNote(store, text);
    reader.LoadNote(store);
    NoteRoundTrip(text);
    loaded := reader.note;
  }

  /** The persisted reader settings come back unchanged on the next mount,
      NaN included. */
  method PersistThenRestore(store: LocalStorage, reader: LessonReader, next: LessonReader)
    requires reader != next
    modifies store, next
    ensures next.fontSize == reader.fontSize && next.maxWidth == reader.maxWidth
  {
    reader.PersistSettings(store);
    next.RestoreSettings(store);
    RestoreRoundTrip(reader.fontSize, old(next.fontSize));
    RestoreRoundTrip(reader.maxWidth, old(next.maxWidth));
  }
}
