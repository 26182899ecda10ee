/**
 * The note editor's pattern suggestion (`StudyEditor`): `analyzeContent`
 * classifies the editor's plain text by keyword rules and stores a
 * suggested note pattern; `insertPattern` builds the marker for a pattern
 * and clears the suggestion. The rich-text editor itself is outside the
 * model: the marker is returned as the HTML it would insert.
 */
module StudyNotes {
  import opened Text

  /** The five note patterns, by their `id`. */
  datatype Pattern = Benefit | Warning | Evidence | Summary | Question {
    function Id(): string {
      match this
      case Benefit => "benefit"
      case Warning => "warning"
      case Evidence => "evidence"
      case Summary => "summary"
      case Question => "question"
    }
  }

  /** `PATTERNS`, in display order. */
  const Patterns: seq<Pattern> := [Benefit, Warning, Evidence, Summary, Question]

  /** Every pattern is listed once, and ids tell patterns apart, so
      `PATTERNS.find(p => p.id === id)` finds the pattern with that id. */
  lemma PatternsSpec(p: Pattern, q: Pattern)
    ensures p in Patterns
    ensures p.Id() == q.Id() <==> p == q
  {
  }

  // ---------------------------------------------------------------------
  // The keyword rules
  // ---------------------------------------------------------------------

  /** One alternative of a rule's regular expression: a literal word, or
      two words with white space (`\s+`) between them. */
  datatype Alternative = Lit(word: string) | Spaced(first: string, second: string)

  /** `s` starts with one or more white-space characters followed by `b`. */
  predicate SpacesThen(s: string, b: string)
    decreases |s|
  {
    |s| > 0 && IsSpace(s[0]) && (StartsWith(s[1..], b) || SpacesThen(s[1..], b))
  }

  /** `a\s+b` matches at the start of `t`. */
  predicate SpacedPrefix(t: string, a: string, b: string) {
    StartsWith(t, a) && SpacesThen(t[|a|..], b)
  }

  /** `a\s+b` matches somewhere in `t`. */
  predicate ContainsSpaced(t: string, a: string, b: string)
    decreases |t|
  {
    SpacedPrefix(t, a, b) || (|t| > 0 && ContainsSpaced(t[1..], a, b))
  }

  predicate AlternativeMatches(t: string, alt: Alternative) {
    match alt
    case Lit(w) => Contains(t, w)
    case Spaced(a, b) => ContainsSpaced(t, a, b)
  }

  /** `regex.test(text)` for a regular expression of alternatives. */
  predicate Test(t: string, rule: seq<Alternative>) {
    exists i :: 0 <= i < |rule| && AlternativeMatches(t, rule[i])
  }

  /** `/\?|ما\s+(حكم|معنى|تعريف|الفرق)|هل|كيف|لماذا|متى|أين/` */
  const QuestionRule: seq<Alternative> := [
    Lit("?"),
    Spaced("ما", "حكم"), Spaced("ما", "معنى"), Spaced("ما", "تعريف"), Spaced("ما", "الفرق"),
    Lit("هل"), Lit("كيف"), Lit("لماذا"), Lit("متى"), Lit("أين")]

  /** `/قال\s+الله|قال\s+تعالى|قال\s+النبي|قال\s+رسول|صلى\s+الله|عليه\s+وسلم|رواه|أخرجه/` */
  const EvidenceRule: seq<Alternative> := [
    Spaced("قال", "الله"), Spaced("قال", "تعالى"), Spaced("قال", "النبي"), Spaced("قال", "رسول"),
    Spaced("صلى", "الله"), Spaced("عليه", "وسلم"), Lit("رواه"), Lit("أخرجه")]

  /** `/تنبيه|انتبه|احذر|خطأ|لا\s+يجوز|محرم|بدعة|شرك/` */
  const WarningRule: seq<Alternative> := [
    Lit("تنبيه"), Lit("انتبه"), Lit("احذر"), Lit("خطأ"), Spaced("لا", "يجوز"),
    Lit("محرم"), Lit("بدعة"), Lit("شرك")]

  /** `/خلاصة|الخلاصة|باختصار|المهم|الحاصل|وعليه/` */
  const SummaryRule: seq<Alternative> := [
    Lit("خلاصة"), Lit("الخلاصة"), Lit("باختصار"), Lit("المهم"), Lit("الحاصل"), Lit("وعليه")]

  /** The notes the default rule calls short: more than 15 and fewer than
      200 characters. */
  predicate ShortNote(t: string) {
    15 < |t| < 200
  }

  /** The pattern the rules pick for a text, if any: the first rule that
      matches in the order question, evidence, warning, summary, and
      otherwise a benefit for a short note. */
  function Classify(t: string): Option<Pattern> {
    if Test(t, QuestionRule) then Some(Question)
    else if Test(t, EvidenceRule) then Some(Evidence)
    else if Test(t, WarningRule) then Some(Warning)
    else if Test(t, SummaryRule) then Some(Summary)
    else if ShortNote(t) then Some(Benefit)
    else None
  }

  /** The keyword rule behind each pattern; the benefit has none. */
  function RuleOf(p: Pattern): seq<Alternative> {
    match p
    case Question => QuestionRule
    case Evidence => EvidenceRule
    case Warning => WarningRule
    case Summary => SummaryRule
    case Benefit => []
  }

  /** The order in which the rules are tried, the first highest. */
  function Priority(p: Pattern): nat {
    match p
    case Question => 4
    case Evidence => 3
    case Warning => 2
    case Summary => 1
    case Benefit => 0
  }

  /** The suggestion is the highest-priority pattern whose rule fires: a
      keyword pattern is suggested only when its rule fires, a firing rule
      always yields that pattern or a higher one, no higher rule fires than
      the one suggested, and the benefit (or nothing) is left for notes no
      rule fires on, decided by length. */
  lemma ClassifySpec(t: string, p: Pattern)
    ensures Classify(t) == Some(p) && p != Benefit ==> Test(t, RuleOf(p))
    ensures Test(t, RuleOf(p)) ==> Classify(t).Some? && Priority(Classify(t).value) >= Priority(p)
    ensures Classify(t) == Some(p) && Priority(p) < Priority(Question) ==>
              forall q :: Priority(q) > Priority(p) ==> !Test(t, RuleOf(q))
    ensures Classify(t) == Some(Benefit) <==> ShortNote(t) && forall q :: !Test(t, RuleOf(q))
    ensures Classify(t).None? <==> !ShortNote(t) && forall q :: !Test(t, RuleOf(q))
  {
    forall q: Pattern
      ensures Test(t, RuleOf(q)) ==> Classify(t).Some? && Priority(Classify(t).value) >= Priority(q)
      ensures Classify(t).Some? && Priority(q) > Priority(Classify(t).value) ==> !Test(t, RuleOf(q))
    {
      match q
      case Benefit =>
      case Summary =>
      case Warning =>
      case Evidence =>
      case Question =>
    }
    if !Test(t, QuestionRule) && !Test(t, EvidenceRule) && !Test(t, WarningRule) && !Test(t, SummaryRule) {
      forall q: Pattern
        ensures !Test(t, RuleOf(q))
      {
        match q
        case Benefit =>
        case Summary =>
        case Warning =>
        case Evidence =>
        case Question =>
      }
    } else {
      assert Test(t, RuleOf(Question)) || Test(t, RuleOf(Evidence)) || Test(t, RuleOf(Warning)) || Test(t, RuleOf(Summary));
    }
  }

  /** A match of a rule's alternative survives text added on either side. */
  lemma AlternativeInContext(a: string, t: string, b: string, alt: Alternative)
    requires AlternativeMatches(t, alt)
    ensures AlternativeMatches(a + t + b, alt)
  {
    match alt
    case Lit(w) =>
      ContainsInConcat(a, t, b, w);
    case Spaced(x, y) =>
      ContainsSpacedAfter(t, b, x, y);
      ContainsSpacedBefore(a, t + b, x, y);
      assert a + t + b == a + (t + b);
  }

  lemma {:induction false} SpacesThenAfter(s: string, b: string, y: string)
    requires SpacesThen(s, y)
    ensures SpacesThen(s + b, y)
    decreases |s|
  {
    assert (s + b)[1..] == s[1..] + b;
    if !StartsWith(s[1..], y) {
      SpacesThenAfter(s[1..], b, y);
    }
  }

  lemma {:induction false} ContainsSpacedAfter(t: string, b: string, x: string, y: string)
    requires ContainsSpaced(t, x, y)
    ensures ContainsSpaced(t + b, x, y)
    decreases |t|
  {
    if SpacedPrefix(t, x, y) {
      assert (t + b)[|x|..] == t[|x|..] + b;
      SpacesThenAfter(t[|x|..], b, y);
    } else {
      ContainsSpacedAfter(t[1..], b, x, y);
      assert (t + b)[1..] == t[1..] + b;
    }
  }

  lemma {:induction false} ContainsSpacedBefore(a: string, t: string, x: string, y: string)
    requires ContainsSpaced(t, x, y)
    ensures ContainsSpaced(a + t, x, y)
    decreases |a|
  {
    if |a| == 0 {
      assert a + t == t;
    } else {
      ContainsSpacedBefore(a[1..], t, x, y);
      assert (a + t)[1..] == a[1..] + t;
    }
  }

  /** Writing more around a note never demotes a keyword suggestion: the
      longer text is suggested the same pattern or one of higher priority. */
  lemma ClassifyInContext(a: string, t: string, b: string)
    requires Classify(t).Some? && Classify(t) != Some(Benefit)
    ensures Classify(a + t + b).Some?
    ensures Priority(Classify(a + t + b).value) >= Priority(Classify(t).value)
  {
    var p := Classify(t).value;
    ClassifySpec(t, p);
    var rule := RuleOf(p);
    var i :| 0 <= i < |rule| && AlternativeMatches(t, rule[i]);
    AlternativeInContext(a, t, b, rule[i]);
    ClassifySpec(a + t + b, p);
  }

  /** A match of `a\s+b` contains `a`. */
  lemma {:induction false} SpacedContainsFirst(t: string, a: string, b: string)
    requires ContainsSpaced(t, a, b)
    ensures Contains(t, a)
    decreases |t|
  {
    if !SpacedPrefix(t, a, b) {
      SpacedContainsFirst(t[1..], a, b);
    }
  }

  /** A text lacking the first character of every alternative's first word
      matches no alternative of the rule. */
  lemma NoWordNoMatch(t: string, rule: seq<Alternative>)
    requires forall i :: 0 <= i < |rule| ==> |AltWord(rule[i])| > 0 && AltWord(rule[i])[0] !in t
    ensures !Test(t, rule)
  {
    forall i | 0 <= i < |rule|
      ensures !AlternativeMatches(t, rule[i])
    {
      var c := AltWord(rule[i])[0];
      AbsentCharNotContained(t, AltWord(rule[i]), c);
      if rule[i].Spaced? && ContainsSpaced(t, rule[i].first, rule[i].second) {
        SpacedContainsFirst(t, rule[i].first, rule[i].second);
      }
    }
  }

  /** The literal word, or the first word of a spaced pair. */
  function AltWord(alt: Alternative): string {
    match alt
    case Lit(w) => w
    case Spaced(a, _) => a
  }

  /** A keyword inside an unrelated word counts: "أهل" ("people") contains
      "هل", so any text mentioning it, such as a quotation of scholars
      ending in "رواه", is taken for a question ahead of the evidence rule. */
  lemma AhlReadsAsQuestion(before: string, after: string)
    ensures Classify(before + "أهل" + after) == Some(Question)
  {
    var t := before + "أهل" + after;
    assert t == (before + "أ") + "هل" + after;
    ContainsReflexiveAndEmpty("هل");
    ContainsInConcat(before + "أ", "هل", after, "هل");
    assert AlternativeMatches(t, QuestionRule[5]);
  }

  /** "قال" and "الله" with several blanks between them still match the
      evidence rule. */
  lemma SpacedEvidence()
    ensures Test("قال  الله", EvidenceRule)
  {
    var t := "قال  الله";
    assert t[3..] == "  الله";
    assert "  الله"[1..] == " الله";
    assert " الله"[1..] == "الله";
    assert SpacedPrefix(t, "قال", "الله");
    assert AlternativeMatches(t, EvidenceRule[0]);
  }

  /** Every alternative of a rule starts with a letter that is not a digit. */
  predicate StartsWithNonDigits(rule: seq<Alternative>) {
    forall i :: 0 <= i < |rule| ==> |AltWord(rule[i])| > 0 && !IsDigit(AltWord(rule[i])[0])
  }

  lemma RulesStartWithNonDigits()
    ensures StartsWithNonDigits(QuestionRule) && StartsWithNonDigits(EvidenceRule)
    ensures StartsWithNonDigits(WarningRule) && StartsWithNonDigits(SummaryRule)
  {
  }

  /** A text of digits matches no rule whose words start with other
      characters. */
  lemma DigitsNoMatch(t: string, rule: seq<Alternative>)
    requires AllDigits(t) && StartsWithNonDigits(rule)
    ensures !Test(t, rule)
  {
    NoWordNoMatch(t, rule);
  }

  /** Digits alone match no keyword, so a 16-digit note is a benefit and a
      10-digit one gets no suggestion. */
  lemma DigitsByLength()
    ensures Classify("1234567890123456") == Some(Benefit)
    ensures Classify("1234567890").None?
  {
    RulesStartWithNonDigits();
    var t, u := "1234567890123456", "1234567890";
    assert AllDigits(t) && AllDigits(u);
    DigitsNoMatch(t, QuestionRule);
    DigitsNoMatch(t, EvidenceRule);
    DigitsNoMatch(t, WarningRule);
    DigitsNoMatch(t, SummaryRule);
    DigitsNoMatch(u, QuestionRule);
    DigitsNoMatch(u, EvidenceRule);
    DigitsNoMatch(u, WarningRule);
    DigitsNoMatch(u, SummaryRule);
  }

  // ---------------------------------------------------------------------
  // The editor's state
  // ---------------------------------------------------------------------

  datatype Notes = Notes(lastAnalyzedText: string, suggestion: Option<Pattern>)

  const Initial: Notes := Notes("", None)

  /** The early return of `analyzeContent`. */
  predicate Skipped(s: Notes, text: string) {
    text == "" || |text| < 10 || text == s.lastAnalyzedText
  }

  /** `analyzeContent(text)` */
  function Analyzed(s: Notes, text: string): Notes {
    if Skipped(s, text) then s
    else
      match Classify(text)
      case Some(p) => Notes(text, Some(p))
      case None => s.(lastAnalyzedText := text)
  }

  /** Skipped texts change nothing; any other text is recorded before it is
      classified, and replaces the suggestion only when a rule picks one. */
  lemma AnalyzedSpec(s: Notes, text: string)
    ensures Skipped(s, text) ==> Analyzed(s, text) == s
    ensures !Skipped(s, text) ==> Analyzed(s, text).lastAnalyzedText == text
    ensures !Skipped(s, text) && Classify(text).Some? ==> Analyzed(s, text).suggestion == Classify(text)
    ensures !Skipped(s, text) && Classify(text).None? ==> Analyzed(s, text).suggestion == s.suggestion
  {
  }

  /** The same text twice is analysed once. */
  lemma AnalyzedIdempotent(s: Notes, text: string)
    ensures Analyzed(Analyzed(s, text), text) == Analyzed(s, text)
  {
  }

  /** A 200-character note with no keyword keeps an earlier suggestion. */
  lemma LongNoteKeepsSuggestion(s: Notes, text: string)
    requires |text| >= 200 && text != s.lastAnalyzedText
    requires !Test(text, QuestionRule) && !Test(text, EvidenceRule) && !Test(text, WarningRule) && !Test(text, SummaryRule)
    ensures Analyzed(s, text) == s.(lastAnalyzedText := text)
  {
  }

  /** The label `insertPattern` writes for each pattern. */
  function Symbol(p: Pattern): string {
    match p
    case Benefit => "📌 [فائدة]: "
    case Warning => "⚠️ [تنبيه]: "
    case Evidence => "📖 [دليل شرعي]: "
    case Summary => "💡 [الخلاصة]: "
    case Question => "❓ [سؤال وجواب]: "
  }

  /** The block inserted for a pattern. */
  function Marker(p: Pattern): string {
    "<div class=\"study-pattern pattern-" + p.Id() + "\"><strong>" + Symbol(p) + "</strong> </div>"
  }

  /** `insertPattern(pattern)`: the marker to insert, and the state with the
      suggestion cleared. */
  function Inserted(s: Notes, p: Pattern): (Notes, string) {
    (s.(suggestion := None), Marker(p))
  }

  /** Inserting clears only the suggestion, and the marker names the
      pattern's class and label. */
  lemma InsertedSpec(s: Notes, p: Pattern)
    ensures Inserted(s, p).0 == Notes(s.lastAnalyzedText, None)
    ensures StartsWith(Inserted(s, p).1, "<div class=\"study-pattern pattern-" + p.Id() + "\">")
    ensures Contains(Inserted(s, p).1, Symbol(p))
  {
    var pre := "<div class=\"study-pattern pattern-" + p.Id() + "\"><strong>";
    var post := "</strong> </div>";
    assert Marker(p) == pre + Symbol(p) + post;
    ContainsReflexiveAndEmpty(Symbol(p));
    ContainsInConcat(pre, Symbol(p), post, Symbol(p));
  }

  /** The editor component's own state. */
  class StudyEditor {
    var isSummarized: bool
    var suggestion: Option<Pattern>
    var lastAnalyzedText: string

    function State(): Notes
      reads this
    {
      Notes(lastAnalyzedText, suggestion)
    }

    constructor ()
      ensures State() == Initial && !isSummarized
    {
      isSummarized, suggestion, lastAnalyzedText := false, None, "";
    }

    method AnalyzeContent(text: string)
      modifies this
      ensures State() == Analyzed(old(State()), text) && isSummarized == old(isSummarized)
    {
      if text == "" || |text| < 10 || text == lastAnalyzedText {
        return;
      }
      lastAnalyzedText := text;
      if Test(text, QuestionRule) {
        suggestion := Some(Question);
        return;
      }
      if Test(text, EvidenceRule) {
        suggestion := Some(Evidence);
        return;
      }
      if Test(text, WarningRule) {
        suggestion := Some(Warning);
        return;
      }
      if Test(text, SummaryRule) {
        suggestion := Some(Summary);
        return;
      }
      if |text| < 200 && |text| > 15 {
        suggestion := Some(Benefit);
      }
    }

    /** Returns the HTML handed to the editor. */
    method InsertPattern(p: Pattern) returns (html: string)
      modifies this
      ensures (State(), html) == Inserted(old(State()), p) && isSummarized == old(isSummarized)
    {
      html := Marker(p);
      suggestion := None;
    }

    /** The suggestion's dismiss button: the suggestion goes, as after an
        insertion, but nothing is inserted. */
    method DismissSuggestion()
      modifies this
      ensures State() == old(State()).(suggestion := None) && isSummarized == old(isSummarized)
      ensures forall p :: State() == Inserted(old(State()), p).0
    {
      suggestion := None;
    }

    method ToggleSummaryMode()
      modifies this
      ensures isSummarized == !old(isSummarized) && State() == old(State())
    {
      isSummarized := !isSummarized;
    }
  }
}
