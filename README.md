# Hoda study app: a verified model of its decision rules

Hoda is a React single-page application for Islamic study: courses, lessons, books, short videos, notes and a "focus mode". This project models in Dafny the decision rules and state updates inside those views and proves properties about them:

- **Focus mode.** The session store and its mutators. The remaining-time arithmetic. The expiry tick and the route confinement. The link-admission rule for clicks and the shortcut classifier for key presses. The saved allow-list. The two-step exit dialog. The settings dialog that edits the allow-list and the duration. The countdown bar.
- **Course progress.** The per-course completed-lesson list kept in `localStorage`, its idempotent append, and the rounded percentage. The `useCourseProgress` hook over it.
- **The catalogue.** The data service's joins, lookups and search. The tolerant lesson lookup of `useLesson`. The course page's facets, filters, sort orders and reducers. The navbar's autocomplete.
- **Small state machines.** The story viewer's slide index. The study editor's note-type suggestion. The lesson page's reader steppers, per-lesson note and Word export. The shorts feed's likes and embed URLs. The colour theme hook.

Each core source file becomes one module:

| module | file | source |
|---|---|---|
| `FocusMode` | focus_mode.dfy | src/contexts/FocusModeContext.jsx |
| `ExitModal` | exit_modal.dfy | src/components/ExitConfirmationModal.jsx |
| `FocusSettings` | focus_settings.dfy | src/components/FocusModeSettings.jsx |
| `FocusBar` | focus_bar.dfy | src/components/FocusModeBar.jsx |
| `Progress` | progress.dfy | src/services/progressService.js |
| `CourseProgressHook` | course_progress.dfy | src/hooks/useCourseProgress.js |
| `Catalog` | catalog.dfy | src/services/dataService.js |
| `LessonLookup` | use_lesson.dfy | src/hooks/useLesson.js |
| `CoursesPage` | courses_page.dfy | src/pages/Courses.jsx |
| `SearchAutocomplete` | search_autocomplete.dfy | src/components/SearchAutocomplete.jsx |
| `Story` | story_view.dfy | src/components/StoryView.jsx |
| `StudyNotes` | study_editor.dfy | src/components/StudyEditor.jsx |
| `LessonPage` | lesson_page.dfy | src/pages/Lesson.jsx |
| `ShortsFeed` | shorts.dfy | src/pages/Shorts.jsx |
| `Theme` | theme.dfy | src/hooks/useTheme.js |

Three shared modules model the JavaScript runtime:

- `Text` (text.dfy) has substring search, `trim`, `toLowerCase`, decimal printing and `split("/").pop()`. It also has `parseInt` without a radix, which reads a `0x` prefix as hexadecimal and stops at the first non-digit. And it has `Number()` on strings, with its whole grammar: surrounding blanks, a sign, a decimal point, an exponent, `0x`/`0o`/`0b` literals and `Infinity`. Values are exact reals.
- `Storage` (storage.dfy) has JSON values, truthiness, property access, `JSON.stringify`/`JSON.parse`, and a `LocalStorage` class over a map.
- `Sorting` (sorting.dfy) has `find`, `findIndex` and `filter`. It also has a stable `sort` with a comparator and code-point string comparison.

The modelling follows one pattern throughout:

- **Components and hooks become classes.** A component's or hook's `useState` fields become a `class` whose methods are its handlers and effects. Each method's `ensures` ties the new state to a pure transition function of the old state. The properties the source promises are lemmas about those functions.
- **Services become functions.** Pure services are datatypes and functions.
- **Outside inputs become parameters.** The clock (`Date.now()`), the current route, the answer to `confirm`, the host parsed by `new URL`, the argument order of `encodeURIComponent`, the system colour preference and the bundled JSON data are all parameters.
- **NaN is `None`.** A number that may be NaN is an `Option<int>` whose `None` is NaN.
- **Ids keep their two types.** An id from the data is `Str(s)` or `Num(n)`, so strict and loose equality can be told apart.

Where the code and its written description disagree, the model follows the code:

- `requestExit` opens the dialog even with no active session.
- `activate` does not refuse a second activation; it restarts the session.
- The custom duration is `parseInt(v) || 30` with no clamping to 5..180.
- `confirmExit` is exactly `deactivate`.

## Model

| member | source | states |
|---|---|---|
| FocusMode.RemainingTime | src/contexts/FocusModeContext.jsx:104-109 | The remaining time is never negative, and is 0 when no (non-zero) start time is set. |
| FocusMode.RemainingValue | src/contexts/FocusModeContext.jsx:104-109 | Once started, the remaining time is 0 exactly when the elapsed time has reached the duration in milliseconds. Otherwise remaining plus elapsed equals the duration in milliseconds. |
| FocusMode.RemainingNonIncreasing | src/contexts/FocusModeContext.jsx:104-109 | The remaining time never grows as the clock advances. |
| FocusMode.RemainingAtStart | src/contexts/FocusModeContext.jsx:104-109 | At the start time the whole duration is left. |
| FocusMode.ActivatedState | src/contexts/FocusModeContext.jsx:52-58 | Activation sets the session active, with the given duration (30 when omitted), the current time and the current route. It keeps the allow-list and the dialog flag, whatever state came before. |
| FocusMode.ActivateThenRemaining | src/contexts/FocusModeContext.jsx:52-58 | Right after activating for d >= 0 minutes, exactly d·60000 ms remain. |
| FocusMode.DeactivatedSpec | src/contexts/FocusModeContext.jsx:81-86 | Deactivation leaves the session off (not active, no start, no locked route, dialog closed). It keeps duration and allow-list, and is idempotent. |
| FocusMode.RemainingZeroAfterDeactivate | src/contexts/FocusModeContext.jsx:81-86 | After deactivation no time remains at any clock reading. |
| FocusMode.ExitFlagOnly | src/contexts/FocusModeContext.jsx:89-101 | `requestExit` sets and `cancelExit` clears the dialog flag, whether or not a session is active. Neither changes any other field. |
| FocusMode.TickedSpec | src/contexts/FocusModeContext.jsx:112-126 | A tick ends the session exactly when it is active, started and out of time; it then deactivates. Otherwise the tick changes nothing. |
| FocusMode.ExpiryScenario | src/contexts/FocusModeContext.jsx:112-126 | A five-minute session has ended by the tick at 5 min 1 s. No later tick reports the end again. |
| FocusMode.RedirectSettles | src/contexts/FocusModeContext.jsx:129-136 | Confinement settles in one step: the route it sends to is never redirected again. Nothing is confined when the session is off, after deactivation, or with an empty locked route. A session just started sends every other route to the one it started on and leaves that one alone. |
| FocusMode.RedirectScenario | src/contexts/FocusModeContext.jsx:129-136 | With `/lesson/1/2` locked, `/about` is sent back and the locked route itself is left alone. |
| FocusMode.SettingsRoundTrip | src/contexts/FocusModeContext.jsx:32-49 | Loading what `saveSettings` stored gives exactly the saved list. An absent key leaves the in-memory list unchanged. |
| FocusMode.SettingsWithoutMember | src/contexts/FocusModeContext.jsx:32-38 | A stored document without `allowedDomains` loads as the empty list (`|| []`). |
| FocusMode.ClickNonLinksAndFragments | src/contexts/FocusModeContext.jsx:156-166 | Clicks outside anchors or on anchors without href are ignored. Fragment links are never cancelled. |
| FocusMode.ClickInternal | src/contexts/FocusModeContext.jsx:168-180 | A `/…` link is cancelled exactly when it is not string-equal to the locked route. |
| FocusMode.ClickExternal | src/contexts/FocusModeContext.jsx:183-211 | Any other link passes exactly when its URL parses and its host contains `youtube.com`, `youtu.be` or some allow-list entry. Unparsable URLs are blocked. |
| FocusMode.LookalikeHostAdmitted | src/contexts/FocusModeContext.jsx:194-196 | Any host that merely contains an allowed domain as a substring is admitted. |
| FocusMode.ClickEmptyEntryAdmitsAll | src/contexts/FocusModeContext.jsx:194-196 | An empty allow-list entry admits every host that parses. |
| FocusMode.PrivateWindowBranchUnreachable | src/contexts/FocusModeContext.jsx:225-250 | The Ctrl/Cmd+Shift+N branch never fires, because the new-tab branch already catches that key. |
| FocusMode.ClassifyKeyCases | src/contexts/FocusModeContext.jsx:223-266 | Ctrl/Cmd with t, n or w in either case is blocked as a new tab. Otherwise F5, or Ctrl/Cmd with r or R, prompts for reload. |
| FocusMode.FocusModeProvider.constructor | src/contexts/FocusModeContext.jsx:21-26 | The provider starts inactive, 30 minutes, no start, empty allow-list, no locked route, dialog closed. |
| FocusMode.FocusModeProvider.LoadSettings | src/contexts/FocusModeContext.jsx:32-38 | The mount effect sets the allow-list to the string items of a stored array `allowedDomains`, or to `[]` when the member is absent. It changes nothing when the key is absent or empty, and reports the exception when the settings cannot be read. |
| FocusMode.FocusModeProvider.SaveSettings | src/contexts/FocusModeContext.jsx:41-49 | Stores `{allowedDomains: ds}` under `focus-mode-settings`, sets the in-memory list to `ds`, and changes nothing else. |
| FocusMode.FocusModeProvider.Activate | src/contexts/FocusModeContext.jsx:52-58 | The new state is the activation transition of the old one. |
| FocusMode.FocusModeProvider.Deactivate | src/contexts/FocusModeContext.jsx:81-86 | The new state is the deactivation transition of the old one. |
| FocusMode.FocusModeProvider.RequestExit | src/contexts/FocusModeContext.jsx:89-91 | Only the dialog flag is set. |
| FocusMode.FocusModeProvider.ConfirmExit | src/contexts/FocusModeContext.jsx:94-96 | Confirming the exit is exactly deactivation. |
| FocusMode.FocusModeProvider.CancelExit | src/contexts/FocusModeContext.jsx:99-101 | Only the dialog flag is cleared. |
| FocusMode.FocusModeProvider.GetRemainingTime | src/contexts/FocusModeContext.jsx:104-109 | Never negative, and 0 whenever the session is off. |
| FocusMode.FocusModeProvider.Tick | src/contexts/FocusModeContext.jsx:112-126 | The interval's firing follows the tick transition and reports whether it ended the session. |
| FocusMode.FocusModeProvider.HandleClick | src/contexts/FocusModeContext.jsx:153-217 | Without an active session no click is cancelled; with one, the link decision applies. |
| FocusMode.FocusModeProvider.HandleKeyDown | src/contexts/FocusModeContext.jsx:220-266 | Active sessions classify the key. A confirmed reload prompt deactivates the session; a declined one, or any other key, changes nothing. |
| ExitModal.StepSpec | src/components/ExitConfirmationModal.jsx:12-28 | Each drawn, enabled action keeps "step is 1 or 2, checked only at step 2". Only the final button calls `confirmExit`, only from step 2 when checked, and it returns to the start. Cancel always returns to the start. |
| ExitModal.RunSpec | src/components/ExitConfirmationModal.jsx:7-28 | The invariant holds along any run of available actions. A run that ends the session passed the final button. |
| ExitModal.SessionNeedsAcknowledgement | src/components/ExitConfirmationModal.jsx:16-22 | Without ever checking the box, no sequence of clicks ends the session. |
| ExitModal.ExitConfirmationModal.constructor | src/components/ExitConfirmationModal.jsx:7-8 | The dialog starts at step 1, unchecked. |
| ExitModal.ExitConfirmationModal.FinalButton | src/components/ExitConfirmationModal.jsx:112-131 | The buttons drawn match the actions available: "continue" exactly at step 1, and the final button past it, enabled exactly when that action is available. Pressing it ends the session exactly when enabled, and then the dialog is back at the start; disabled, it changes nothing. |
| ExitModal.ExitConfirmationModal.HandleFirstConfirm | src/components/ExitConfirmationModal.jsx:12-14 | Moves to step 2 and keeps the checkbox. |
| ExitModal.ExitConfirmationModal.HandleCheckbox | src/components/ExitConfirmationModal.jsx:90 | Sets the checkbox to the new value and keeps the step. |
| ExitModal.ExitConfirmationModal.HandleFinalConfirm | src/components/ExitConfirmationModal.jsx:16-22 | When checked, deactivates the session and resets to step 1 unchecked. When unchecked, changes neither the dialog nor the session. |
| ExitModal.ExitConfirmationModal.HandleCancel | src/components/ExitConfirmationModal.jsx:24-28 | Resets to step 1 unchecked and clears only the session's dialog flag. |
| FocusSettings.CustomDuration | src/components/FocusModeSettings.jsx:107-112 | The typed duration is its `parseInt` unless that is NaN or 0, which fall back to 30. The result is never 0. |
| FocusSettings.DomainAddedSpec | src/components/FocusModeSettings.jsx:11-17 | Adding keeps the allow-list duplicate-free and made of trimmed, non-empty entries. It appends at most the trimmed entry and keeps the old entries as a prefix. The field is cleared exactly when something is added. |
| FocusSettings.AddTwice | src/components/FocusModeSettings.jsx:12 | The same text added again adds nothing. |
| FocusSettings.DomainRemovedSpec | src/components/FocusModeSettings.jsx:19-21 | Removal drops exactly the entries equal to the domain and keeps the list duplicate-free. An absent domain changes nothing. |
| FocusSettings.RemoveUndoesAdd | src/components/FocusModeSettings.jsx:11-21 | Removing the entry just added restores the list. |
| FocusSettings.PresetHighlight | src/components/FocusModeSettings.jsx:78-95 | After a preset is chosen, exactly that preset is highlighted. |
| FocusSettings.NegativeDurationEndsAtOnce | src/components/FocusModeSettings.jsx:107-112 | A typed "-10" is kept as -10 minutes, and such a session ends at its first tick. |
| FocusSettings.FocusModeSettings.constructor | src/components/FocusModeSettings.jsx:7-9 | The dialog opens with 30 minutes, the session's allow-list and an empty field. |
| FocusSettings.FocusModeSettings.ChoosePreset | src/components/FocusModeSettings.jsx:81 | A preset sets the duration exactly. |
| FocusSettings.FocusModeSettings.TypeDuration | src/components/FocusModeSettings.jsx:112 | The custom field sets the fallback-corrected duration. |
| FocusSettings.FocusModeSettings.TypeDomain | src/components/FocusModeSettings.jsx:142 | Typing sets only the field. |
| FocusSettings.FocusModeSettings.HandleAddDomain | src/components/FocusModeSettings.jsx:11-17 | The new state is the add transition. |
| FocusSettings.FocusModeSettings.HandleKeyPress | src/components/FocusModeSettings.jsx:143 | Enter adds; every other key changes nothing. |
| FocusSettings.FocusModeSettings.HandleRemoveDomain | src/components/FocusModeSettings.jsx:19-21 | The new state is the remove transition. |
| FocusSettings.FocusModeSettings.HandleActivate | src/components/FocusModeSettings.jsx:23-27 | Saves the edited list, then activates with the chosen duration on the current route. |
| FocusBar.Split | src/components/FocusModeBar.jsx:14-15 | Seconds are below 60, and minutes·60000 + seconds·1000 <= r < minutes·60000 + seconds·1000 + 1000. |
| FocusBar.TwoDigitSeconds | src/components/FocusModeBar.jsx:16 | The seconds always render as exactly two digits. |
| FocusBar.ClockReadsBack | src/components/FocusModeBar.jsx:14-16 | The clock text is unpadded minute digits, a colon and two second digits, which read back as the split's minutes and seconds. |
| FocusBar.ClockDenotes | src/components/FocusModeBar.jsx:14-16 | The time the text denotes is the remaining time rounded down to the second. |
| FocusBar.ClockNonIncreasing | src/components/FocusModeBar.jsx:14-15 | Less remaining time never shows a later clock. |
| FocusBar.WidthRange | src/components/FocusModeBar.jsx:74 | The strip fits its track exactly while at most 30 minutes remain. It is exactly full at 30 minutes and empty exactly when no time is left. |
| FocusBar.WidthAtStart | src/components/FocusModeBar.jsx:74 | A d-minute session starts at d/30 of the track, so it overflows for d > 30. |
| FocusBar.FocusModeBar.constructor | src/components/FocusModeBar.jsx:7 | The time text starts empty. |
| FocusBar.FocusModeBar.UpdateTime | src/components/FocusModeBar.jsx:9-23 | While active, the text becomes the clock of the remaining time. While inactive, nothing changes. |
| FocusBar.FocusModeBar.Render | src/components/FocusModeBar.jsx:25-77 | Nothing is drawn exactly when inactive. Otherwise the bar shows the stored text and a non-negative strip. |
| FocusBar.FocusModeBar.HandleExitClick | src/components/FocusModeBar.jsx:58 | The emergency button only opens the exit dialog. |
| Progress.StorageKey | src/services/progressService.js:1 | The key is `progress_course_` followed by the course id. |
| Progress.StorageKeyInjective | src/services/progressService.js:1 | Two courses share a key exactly when their ids are equal. |
| Progress.Completed | src/services/progressService.js:4-12 | An absent or empty slot, or an unparsable one, reads as `[]`. |
| Progress.CompletedOfProgressDoc | src/services/progressService.js:4-20 | The document `saveCompletion` writes reads back as exactly the written list. |
| Progress.SavedSpec | src/services/progressService.js:14-20 | The result always holds the id. Nothing is written exactly when the id was present; the list is then unchanged. Otherwise the id is appended, what is written reads back as the result, and no duplicate is introduced. |
| Progress.SaveIdempotent | src/services/progressService.js:14-20 | A second save of the same id writes nothing and returns the same list. |
| Progress.CalculatePercentRounds | src/services/progressService.js:22-25 | For t > 0 the result is 100·c/t in exact arithmetic, rounded to nearest with halves up (see Left out for doubles). |
| Progress.RoundingUnique | src/services/progressService.js:22-25 | Only one integer is that rounding. |
| Progress.PercentRange | src/services/progressService.js:22-25 | With c <= t the result is within 0..100, and all lessons done is exactly 100. |
| Progress.PercentMonotone | src/services/progressService.js:22-25 | More completed lessons never lower the percentage, and 0 completed gives 0 for any total. |
| Progress.SaveCompletion | src/services/progressService.js:14-20 | Returns the list and writes the slot as the save transition says, and touches no other key. |
| CourseProgressHook.Summarize | src/hooks/useCourseProgress.js:19-23 | The count is the stored list's length and the total the lesson count (0 for `null`). The percentage is 0 without lessons and otherwise the rounding of count over total. It is at most 100 while the count does not pass the total, and exactly 100 when all lessons are counted. |
| CourseProgressHook.CountNotBoundedByTotal | src/hooks/useCourseProgress.js:20 | Stored ids are not intersected with the lessons: three stored ids over one lesson give 300 %. |
| CourseProgressHook.MarkingNeverLowers | src/hooks/useCourseProgress.js:13-21 | Marking a lesson never lowers the percentage. |
| CourseProgressHook.CourseProgress.constructor | src/hooks/useCourseProgress.js:4-5 | The hook starts with no completed lessons. |
| CourseProgressHook.CourseProgress.LoadEffect | src/hooks/useCourseProgress.js:7-11 | A given course id loads its stored list; otherwise the list is kept. |
| CourseProgressHook.CourseProgress.Rerender | src/hooks/useCourseProgress.js:7-11 | The effect re-runs only when the course id changed. |
| CourseProgressHook.CourseProgress.Result | src/hooks/useCourseProgress.js:19-23 | The hook's numbers are the summary of its state. |
| CourseProgressHook.CourseProgress.MarkCompleted | src/hooks/useCourseProgress.js:13-17 | Without both ids nothing changes. Otherwise the list and the storage follow `saveCompletion`. |
| Catalog.BookFor | src/services/dataService.js:16 | The book found has the course's book id. No book is found exactly when none has that id. |
| Catalog.GetAllCourses | src/services/dataService.js:8-19 | One summary per course, in order. |
| Catalog.GetAllCoursesSpec | src/services/dataService.js:9-18 | Each lesson count counts the course's lectures in the data, a lecture listed twice counting twice, and no other lecture. The book is the first one with the course's book id. |
| Catalog.GetCourseById | src/services/dataService.js:21-36 | `null` exactly for an unknown id; otherwise a course with that id. |
| Catalog.GetCourseByIdLessons | src/services/dataService.js:25-27 | The lessons are exactly the course's lectures, with multiplicity, in ascending `index` order. |
| Catalog.GetAllLectures | src/services/dataService.js:38-48 | One listing per lecture. |
| Catalog.GetAllLecturesSpec | src/services/dataService.js:39-47 | Each listing keeps the lecture's id, title and index. With a matching course it keeps the course id and takes the title and thumbnail of the first course whose id is the lecture's `courseId`. Without a match, courseId, courseTitle and thumbnail are all `undefined`. |
| Catalog.GetShortById | src/services/dataService.js:54-56 | The short found has the id. `undefined` exactly when no short has it. |
| Catalog.GetShortByIdFirst | src/services/dataService.js:55 | The first short with the id is returned. |
| Catalog.SearchMembers | src/services/dataService.js:58-79 | An item is a hit exactly when it is in the data and matches its own fields, case-sensitively. |
| Catalog.SearchOrder | src/services/dataService.js:61-78 | All course hits come before lecture hits, and lecture hits before book hits. |
| Catalog.SearchEmptyQuery | src/services/dataService.js:61-78 | The empty query returns every course, lecture and book, in order. |
| Catalog.SearchCaseSensitive | src/services/dataService.js:59-68 | The lower-cased query is unused: "abc" does not find "ABC". |
| LessonLookup.NumberIdsMatchLoosely | src/hooks/useLesson.js:33 | A number id matches its text, and also that text with a leading zero or with surrounding blanks, since `==` converts the string with `Number`. |
| LessonLookup.NumberFormsMatch | src/hooks/useLesson.js:33 | A number id n also matches "n.0", "ne0", "n.", a leading-point form with a compensating exponent, "-n" for -n, and for one digit the hexadecimal "0xn". |
| LessonLookup.FirstMatchWins | src/hooks/useLesson.js:28-38 | The first lesson meeting any rule wins; "cw-5" before "5" is found for "5". |
| LessonLookup.NeighboursInverse | src/hooks/useLesson.js:43-44 | The neighbour links agree: the next of the previous lesson, and the previous of the next, is the lesson itself. A lesson alone in its course has neither. |
| LessonLookup.NeighboursInLessonOrder | src/hooks/useLesson.js:23-44 | In a found course both neighbours are lectures of that course, the previous with an `index` no greater and the next with one no smaller than the lesson's. |
| LessonLookup.LookedMissing | src/hooks/useLesson.js:13 | Without both ids nothing changes, so loading stays true. |
| LessonLookup.LookedEndsLoading | src/hooks/useLesson.js:12-54 | With both ids, loading ends in every branch. |
| LessonLookup.LookedUnknownCourse | src/hooks/useLesson.js:16-21 | An unknown course sets only "الدورة غير موجودة" and ends loading. |
| LessonLookup.LookedUnknownLesson | src/hooks/useLesson.js:45-47 | A known course with no matching lesson sets only "الدرس غير موجود" and ends loading. |
| LessonLookup.LookedFound | src/hooks/useLesson.js:40-44 | A match sets the course, the first matching lesson and both neighbours (`null` at the ends). It keeps any earlier error. |
| LessonLookup.UseLesson.constructor | src/hooks/useLesson.js:5-10 | The hook starts empty and loading. |
| LessonLookup.UseLesson.Effect | src/hooks/useLesson.js:12-54 | The effect's new state is the lookup transition. |
| CoursesPage.CategoriesSpec | src/pages/Courses.jsx:30-36 | Each non-empty `categoryTitle || categoryId` appears in the category facet exactly once. |
| CoursesPage.LevelsSpec | src/pages/Courses.jsx:38-41 | Each non-empty level appears in the level facet exactly once. |
| CoursesPage.ComparatorConsistent | src/pages/Courses.jsx:68-73 | Both sort comparators are antisymmetric in sign. |
| CoursesPage.VisibleSpec | src/pages/Courses.jsx:44-74 | The visible courses are a permutation of those that pass the search and the set filters, sorted by the chosen comparator. |
| CoursesPage.ShortestAscending | src/pages/Courses.jsx:70-71 | "Shortest" orders lesson counts ascending along the whole list. |
| CoursesPage.NewestDescending | src/pages/Courses.jsx:69 | "Newest" puts no id before a greater one, across all pairs. |
| CoursesPage.VisibleUnfiltered | src/pages/Courses.jsx:47-66 | The empty query with no filters shows every course. |
| CoursesPage.CategoryFacetMismatch | src/pages/Courses.jsx:30-58 | A course with only a `categoryId` is offered in the category facet. Selecting that facet hides the course. |
| CoursesPage.ToggleSpec | src/pages/Courses.jsx:78-89 | A toggle appends an absent value and removes every copy of a present one. Other values keep their membership. Twice from absent is the identity. |
| CoursesPage.FilterChangedSpec | src/pages/Courses.jsx:76-95 | The level toggles between the value and `null`. Each facet toggle leaves the other facets alone. Unknown kinds change nothing. |
| CoursesPage.SortToggled | src/pages/Courses.jsx:165-169 | The sort button always changes the order. |
| CoursesPage.SortToggleTwice | src/pages/Courses.jsx:165-169 | Two presses restore the order. |
| CoursesPage.CoursesView.constructor | src/pages/Courses.jsx:19-27 | The page starts with an empty query, "newest" and no filters. |
| CoursesPage.CoursesView.SetSearchQuery | src/pages/Courses.jsx:150 | Only the query changes. |
| CoursesPage.CoursesView.HandleFilterChange | src/pages/Courses.jsx:76-95 | Only the filters change, by the reducer. |
| CoursesPage.CoursesView.ToggleSort | src/pages/Courses.jsx:164-169 | Only the order changes, by the toggle. |
| CoursesPage.CoursesView.Reset | src/pages/Courses.jsx:272-275 | The query and filters are cleared; the order is kept. |
| SearchAutocomplete.SuggestionsSpec | src/components/SearchAutocomplete.jsx:23-32 | A long-enough query (trimmed length above 1) gets the first min(5, hits) search hits. A shorter one gets none. |
| SearchAutocomplete.SuggestionsMatch | src/components/SearchAutocomplete.jsx:25 | Every suggestion is an item of the data that matches the query. |
| SearchAutocomplete.InitialValid | src/components/SearchAutocomplete.jsx:7-9 | The initial box keeps the invariant: results belong to the query, and the box is open only for a long-enough query. |
| SearchAutocomplete.HandlersPreserveValid | src/components/SearchAutocomplete.jsx:13-100 | Every handler keeps that invariant. |
| SearchAutocomplete.TypedSpec | src/components/SearchAutocomplete.jsx:23-32 | A changed query gets its suggestions and is open exactly when long enough. |
| SearchAutocomplete.DropdownSpec | src/components/SearchAutocomplete.jsx:109 | A drawn dropdown holds 1 to 5 leading hits of a long-enough query. |
| SearchAutocomplete.ClearedSpec | src/components/SearchAutocomplete.jsx:97-100 | Clearing, and selecting, leave the box empty and closed. |
| SearchAutocomplete.SubmittedSpec | src/components/SearchAutocomplete.jsx:34-40 | Submit navigates exactly when the trimmed query is non-empty, to `/search?q=` plus the untrimmed query encoded, and closes. Otherwise nothing changes. |
| SearchAutocomplete.SingleLetterSubmits | src/components/SearchAutocomplete.jsx:24-40 | A one-letter query opens no dropdown but is still submitted. |
| SearchAutocomplete.RouteSpec | src/components/SearchAutocomplete.jsx:71-74 | A course goes to `/course/{id}`, a lecture to `/lesson/{courseId, or its own id without a truthy one}/{id}`, a book to `/books`. Routes of different kinds of hit differ, a course route reads back its id (so equal course routes mean equal ids), and a lesson route ends with the lecture's id. |
| SearchAutocomplete.TypeLabelSpec | src/components/SearchAutocomplete.jsx:55-66 | Each hit type has its own non-empty label; any other type has none. |
| SearchAutocomplete.SearchBox.constructor | src/components/SearchAutocomplete.jsx:7-9 | The box starts empty and closed. |
| SearchAutocomplete.SearchBox.SetQuery | src/components/SearchAutocomplete.jsx:91 | Typing follows the typed transition, which skips an unchanged value. |
| SearchAutocomplete.SearchBox.HandleSearchSubmit | src/components/SearchAutocomplete.jsx:34-40 | Follows the submit transition and returns its target. |
| SearchAutocomplete.SearchBox.HandleSelect | src/components/SearchAutocomplete.jsx:68-75 | Follows the select transition and returns the route. |
| SearchAutocomplete.SearchBox.HandleClear | src/components/SearchAutocomplete.jsx:97-100 | Follows the clear transition. |
| SearchAutocomplete.SearchBox.HandleFocus | src/components/SearchAutocomplete.jsx:92 | Focus reopens only for a long-enough query. |
| SearchAutocomplete.SearchBox.HandleClickOutside | src/components/SearchAutocomplete.jsx:14-18 | A press outside closes; one inside changes nothing. |
| Story.NextSpec | src/components/StoryView.jsx:34-40 | Next advances one slide, or on the last slide (or with none) closes and keeps the index. |
| Story.PrevSpec | src/components/StoryView.jsx:42-46 | Prev goes back one slide from above 0 and otherwise stays. It never moves forward, never leaves the slides, and next undoes it without closing. |
| Story.NextThenPrev | src/components/StoryView.jsx:34-46 | Prev undoes a next that did not close. |
| Story.RunInRange | src/components/StoryView.jsx:17-46 | Any mix of next, prev and timer steps keeps the index within [0, max(len-1, 0)]. |
| Story.StartInRange | src/components/StoryView.jsx:13 | The initial index 0 is in range. |
| Story.SegmentsFilled | src/components/StoryView.jsx:71-77 | The bar fills from the left: a full segment has only full ones before it, next never empties a segment, and on slide k of n exactly k + 1 segments are full. |
| Story.FinishWhereNextCloses | src/components/StoryView.jsx:131 | The finish button is shown exactly where next would close, and the counter reads 1..len. |
| Story.EmptyStory | src/components/StoryView.jsx:34-40 | With no items, next closes at once, no finish button is shown and the counter reads "1 / 0". |
| Story.StoryView.constructor | src/components/StoryView.jsx:12-14 | The viewer starts at slide 0, unpaused. |
| Story.StoryView.HandleNext | src/components/StoryView.jsx:34-40 | Follows the next step, reports whether it closed, and keeps the index in range. |
| Story.StoryView.HandlePrev | src/components/StoryView.jsx:42-46 | Follows the prev step and keeps the index in range. |
| Story.StoryView.TimerFired | src/components/StoryView.jsx:17-32 | The auto-advance advances like next but never closes. |
| Story.StoryView.CurrentContent | src/components/StoryView.jsx:48 | Under the index invariant the slide on show is one of the items, the current one, and `undefined` exactly when there are none. |
| StudyNotes.PatternsSpec | src/components/StudyEditor.jsx:24-55 | The five patterns are listed and have distinct ids. |
| StudyNotes.ClassifySpec | src/components/StudyEditor.jsx:99-130 | The suggestion is the highest-priority pattern whose rule fires. A keyword pattern is suggested only when its rule fires, and a firing rule gives it or a higher one. The benefit, or nothing, is left for notes on which no rule fires, by length 15 < length < 200. |
| StudyNotes.ClassifyInContext | src/components/StudyEditor.jsx:99-125 | Text written around a note with a keyword suggestion never demotes it: the longer note gets the same or a higher-priority pattern. |
| StudyNotes.AhlReadsAsQuestion | src/components/StudyEditor.jsx:100 | Any text containing "أهل" is a question, because it contains "هل". |
| StudyNotes.SpacedEvidence | src/components/StudyEditor.jsx:107 | "قال" and "الله" separated by several blanks is evidence. |
| StudyNotes.DigitsNoMatch | src/components/StudyEditor.jsx:100-125 | A text of digits fires no keyword rule. |
| StudyNotes.DigitsByLength | src/components/StudyEditor.jsx:127-130 | Sixteen digits are a benefit; ten digits get no suggestion. |
| StudyNotes.AnalyzedSpec | src/components/StudyEditor.jsx:95-130 | Empty, short (< 10) or repeated text changes nothing. Other text is recorded, and replaces the suggestion only when a rule picks one. |
| StudyNotes.AnalyzedIdempotent | src/components/StudyEditor.jsx:95-97 | The same text analysed twice is analysed once. |
| StudyNotes.LongNoteKeepsSuggestion | src/components/StudyEditor.jsx:128-130 | A keyword-free note of 200 characters or more keeps the earlier suggestion. |
| StudyNotes.InsertedSpec | src/components/StudyEditor.jsx:133-151 | Inserting clears only the suggestion. The marker carries the pattern's class and label. |
| StudyNotes.StudyEditor.constructor | src/components/StudyEditor.jsx:58-60 | The editor starts with no suggestion, nothing analysed and not summarised. |
| StudyNotes.StudyEditor.AnalyzeContent | src/components/StudyEditor.jsx:94-131 | Follows the analysis transition. |
| StudyNotes.StudyEditor.InsertPattern | src/components/StudyEditor.jsx:133-151 | Follows the insert transition and returns the marker. |
| StudyNotes.StudyEditor.DismissSuggestion | src/components/StudyEditor.jsx:203 | Only the suggestion is cleared; the state is the one an insertion leaves, without the marker. |
| StudyNotes.StudyEditor.ToggleSummaryMode | src/components/StudyEditor.jsx:153-155 | Flips only the summary flag. |
| LessonPage.SteppersSpec | src/pages/Lesson.jsx:319-328 | The steppers move by 2 and stop at 14 and 36. A size in 14..36 stays there. |
| LessonPage.InitialInRange | src/pages/Lesson.jsx:38 | The default size 20 is in range. |
| LessonPage.SteppersKeepParity | src/pages/Lesson.jsx:319-328 | An even in-range size stays even. |
| LessonPage.NaNSticks | src/pages/Lesson.jsx:319-328 | A NaN size stays NaN under both steppers. |
| LessonPage.WidthToggled | src/pages/Lesson.jsx:349 | The width toggle always gives 700 or 1100. |
| LessonPage.WidthToggleSpec | src/pages/Lesson.jsx:349 | From either result the toggle swaps the two; the default 680 widens to 1100. |
| LessonPage.RestoreRoundTrip | src/pages/Lesson.jsx:60-74 | A written size or width restores as itself, NaN included. |
| LessonPage.RestoredUnchecked | src/pages/Lesson.jsx:65 | The restored size is unchecked: "100" gives 100, "big" gives NaN and "0x10" is read as hexadecimal 16. An absent or empty slot keeps the current value. |
| LessonPage.NoteKey | src/pages/Lesson.jsx:77 | The note key is `note-` followed by the lesson id. |
| LessonPage.NoteKeyInjective | src/pages/Lesson.jsx:77 | Different lessons have different note keys. |
| LessonPage.NoteRoundTrip | src/pages/Lesson.jsx:76-80 | A saved note loads as itself, and a missing one as "". |
| LessonPage.ExportDocument | src/pages/Lesson.jsx:88-91 | The document is the Word header, then the note, then the footer. |
| LessonPage.ExportInjective | src/pages/Lesson.jsx:88-91 | Different notes give different documents. |
| LessonPage.ExportFileName | src/pages/Lesson.jsx:99 | The file name is `notes-`, then the lesson id, then `.doc`. |
| LessonPage.LessonReader.constructor | src/pages/Lesson.jsx:38-47 | The reader starts at size 20, width 680 and an empty note. |
| LessonPage.LessonReader.RestoreSettings | src/pages/Lesson.jsx:60-68 | Size and width become the restored values of their slots. |
| LessonPage.LessonReader.PersistSettings | src/pages/Lesson.jsx:70-74 | Both values are written as their number text. |
| LessonPage.LessonReader.DecreaseFont | src/pages/Lesson.jsx:319 | Only the size changes, by the smaller step. |
| LessonPage.LessonReader.IncreaseFont | src/pages/Lesson.jsx:328 | Only the size changes, by the larger step. |
| LessonPage.LessonReader.ToggleWidth | src/pages/Lesson.jsx:349 | Only the width changes, by the toggle. |
| LessonPage.LessonReader.LoadNote | src/pages/Lesson.jsx:76-80 | The note becomes what is saved under the lesson's key, or "". |
| LessonPage.LessonReader.SaveNote | src/pages/Lesson.jsx:82-85 | The note and its slot both become the text. |
| LessonPage.SaveThenLoad | src/pages/Lesson.jsx:76-85 | Saving and then loading a lesson's note returns the saved text. |
| LessonPage.PersistThenRestore | src/pages/Lesson.jsx:60-74 | Persisted settings come back unchanged on the next mount. |
| ShortsFeed.ToggleLikeSpec | src/pages/Shorts.jsx:44-46 | A toggle flips that short's flag. Every other key keeps its presence and value. |
| ShortsFeed.ToggleTwice | src/pages/Shorts.jsx:45 | Two toggles restore whether a short is liked; an un-liked one ends with an explicit `false`. |
| ShortsFeed.SameTextSameFlag | src/pages/Shorts.jsx:45 | Ids `3` and `"3"` share one flag, since object keys are text. |
| ShortsFeed.LikeAddsOne | src/pages/Shorts.jsx:45-182 | Liking adds exactly one to the shown count, taking the like back removes exactly one, and two toggles show the first count again. |
| ShortsFeed.EmbedAutoplay | src/pages/Shorts.jsx:81 | The URL starts with the video URL, and autoplay is 1 exactly for the active short while playing. |
| ShortsFeed.EmbedPlaylist | src/pages/Shorts.jsx:81 | The URL ends with the playlist of the video URL's last path segment, which holds no slash. |
| ShortsFeed.EmbedPlaylistExample | src/pages/Shorts.jsx:81 | `embed/ab` gives the playlist `ab`. |
| ShortsFeed.InitialFeed | src/pages/Shorts.jsx:18-20 | The first short is active (`undefined` for none), playing, with nothing liked. |
| ShortsFeed.InitialActive | src/pages/Shorts.jsx:18-69 | At first a short is active exactly when it has the first short's id. |
| ShortsFeed.SeenActivates | src/pages/Shorts.jsx:29-31 | Scrolling to a short with a text id activates and plays it. A number id is never active after the observer fires, because `data-id` is text and the comparison is strict. |
| ShortsFeed.ShortsPage.constructor | src/pages/Shorts.jsx:17-20 | The page starts in the initial feed. |
| ShortsFeed.ShortsPage.HandleToggleLike | src/pages/Shorts.jsx:44-46 | Only the likes change, by the toggle. |
| ShortsFeed.ShortsPage.HandleIntersection | src/pages/Shorts.jsx:29-31 | The reported short becomes active and playing. |
| ShortsFeed.ShortsPage.Src | src/pages/Shorts.jsx:81 | Each iframe's source is the embed URL for that short's activity and the play state. |
| Theme.InitialThemeSpec | src/hooks/useTheme.js:10-20 | A saved non-empty text wins whatever the system prefers, even "sepia", which then matches neither theme class. With nothing saved the theme is light or dark, dark exactly when the system prefers it. The theme is never empty. |
| Theme.Toggled | src/hooks/useTheme.js:38 | The toggle always gives "dark" or "light". |
| Theme.ToggledSpec | src/hooks/useTheme.js:38 | Light and dark swap, and two toggles return to either; any other theme becomes light. |
| Theme.ToggleDarkness | src/hooks/useTheme.js:38-43 | The toggle turns `isDark` on exactly from light and flips it for either theme. Any other theme is not dark, before or after. |
| Theme.SyncedSpec | src/hooks/useTheme.js:29-30 | After sync the body keeps its other classes and holds `theme-{theme}`. For light or dark it holds exactly one theme class, and for any other theme neither. |
| Theme.ThemeHook.constructor | src/hooks/useTheme.js:22 | The hook starts with the initial theme. |
| Theme.ThemeHook.ToggleTheme | src/hooks/useTheme.js:37-39 | The theme becomes the toggled one. |
| Theme.ThemeHook.SetTheme | src/hooks/useTheme.js:45 | The theme becomes the given text. |
| Theme.ThemeHook.Sync | src/hooks/useTheme.js:25-34 | Returns the synced classes and writes the theme under `hoda-theme`. |
| Theme.SyncThenReload | src/hooks/useTheme.js:10-34 | A synced non-empty theme is the initial theme of the next load, whatever the system prefers. |
| Text.ParseIntOfIntToString | src/pages/Lesson.jsx:65 | `parseInt` of a written integer gives that integer back. |
| Text.ParseIntOfNonNumber | src/components/FocusModeSettings.jsx:112 | Text whose first character is not a blank, a digit or a sign parses to NaN. |
| Text.ParseIntHex | src/pages/Lesson.jsx:65 | After an optional sign, `0x` or `0X` reads the hexadecimal digits that follow, as many as there are, and gives NaN when none follows. |
| Text.ParseIntStopsAtLetter | src/components/FocusModeSettings.jsx:112 | `parseInt("12px")` stops at the letter and gives 12. |
| Text.StringToNumberSigned | src/hooks/useLesson.js:33 | After an optional sign, text with no blanks at its ends and no base prefix converts as an unsigned decimal literal, negated after a minus. |
| Text.StringToNumberRadix | src/hooks/useLesson.js:33 | `0x`, `0o` or `0b` followed by digits of that base converts to their value. |
| Text.StringToNumberOfDigits | src/hooks/useLesson.js:33 | A digit string converts to its decimal value. |
| Text.PointZeroOfDigits | src/hooks/useLesson.js:33 | Digits followed by `.0` convert to the digits' value. |
| Text.LeadingPointOfDigits | src/hooks/useLesson.js:33 | A point, then digits, then an exponent equal to their count, converts to the digits' value. |
| Sorting.FindIndexFirst | src/hooks/useLesson.js:28 | `findIndex` gives exactly the first position whose element passes. |
| Sorting.FilterMultiset | src/services/dataService.js:10-12 | `filter` keeps every passing element as often as it occurs and drops every other one. |

## Left out

- Browser plumbing is not modelled. This covers listener registration, the capture phase, `history.pushState` and `popstate`, the `window.open` patch, `beforeunload`, and the middle-click and context-menu suppression. It also covers `IntersectionObserver`, `navigator.share` and `window.location.reload`. Each guard is modelled only as a decision over an event record.
- `alert` is not modelled. `confirm` is the boolean parameter `confirmReload`.
- Timers are explicit tick methods over a `now` parameter (`Tick`, `UpdateTime`, `TimerFired`), not `setInterval` or `setTimeout`.
- `new URL(href, origin).hostname` is the parameter `hostOf`, and `encodeURIComponent` is the parameter `encode`; both are libraries.
- `localeCompare` is modelled as code-point lexicographic order, a total order.
- `toLowerCase` lowers Latin letters only.
- String lengths count code points, not UTF-16 units.
- JSON is simplified:
  - numbers are integers;
  - `JSON.parse` of text that `setItem` wrote as plain text is treated as a parse error.
- Progress.CalculatePercentRounds: the percentage is exact rational rounding, not `Math.round` of a double product. Where the double product falls just below a half the source rounds down: (23, 40) gives 57 in the source and 58 here, and (29, 200) and (113, 200) differ the same way.
- FocusMode.SettingsLoad: a truthy `allowedDomains` that is not an array loads as `[]`, where the source keeps it and a later click then throws in `.some`. Items that are not strings are dropped, where the source keeps them and `includes` converts them to text.
- LessonLookup.LooseEqual: `Number` is exact, with no double rounding. So texts that name the same double only after rounding (beyond 17 significant digits or 2^53) are not equal to it here, and "1e400" is a large finite value, not `Infinity`.
- Progress.Completed: a truthy `completedLessons` that is not an array, which the source would return as is, reads as `[]`.
- Floating point is left out:
  - the line-height cycle (src/pages/Lesson.jsx:340);
  - the split-pane percentage;
  - the story tap zone;
  - the CSS string of the strip width (FocusBar.Width is a real).
- The rich-text editor is left out: tiptap, its formatting commands and `setContent`. So is the stale-closure question of which `analyzeContent` its `onUpdate` calls. `AnalyzeContent` is the handler as written.
- `useLesson`'s `catch` branch ("حدث خطأ") is not modelled; nothing in the modelled lookup throws.
- StoryView's `isPaused` is modelled as a field, but no handler in the source sets it. Shorts' `isPlaying` is set only by the intersection handler, as modelled.
- SearchAutocomplete.RouteSpec: the "no navigation for another type" case does not arise, since every hit is a course, lecture or book.
- Theme.ThemeHook.Sync: `classList.add` throws on a theme holding a space; that case is not modelled.
- StudyNotes.ClassifySpec: only the regular-expression forms used (literals and `a\s+b`) are modelled, not general regular expressions.
- JSX rendering, animation, styling and icons are left out, and so are the presentational pages and components.
