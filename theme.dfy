/**
 * The colour theme hook (`useTheme`): the initial choice from storage or the
 * system preference, the toggle, and the effect that puts the theme's class
 * on the page body and saves the theme. The body's class list is a set of
 * class names.
 */
module Theme {
  import opened Text
  import opened Storage

  const ThemeKey: string := "hoda-theme"
  const LightClass: string := "theme-light"
  const DarkClass: string := "theme-dark"

  /** `getInitialTheme()`: a saved non-empty text wins, then the system
      preference. */
  function InitialTheme(saved: Option<Stored>, prefersDark: bool): string {
    if Present(saved) then RawText(saved.value)
    else if prefersDark then "dark" else "light"
  }

  /** The saved text is used as it is, even when it is neither theme, and
      then the system preference does not matter; with nothing saved the
      theme is one of the two, dark exactly when the system prefers it. The
      initial theme is never empty, and a saved "sepia" makes neither theme
      class apply. */
  lemma InitialThemeSpec(saved: Option<Stored>, prefersDark: bool)
    ensures Present(saved) ==> InitialTheme(saved, prefersDark) == RawText(saved.value)
    ensures Present(saved) ==> InitialTheme(saved, true) == InitialTheme(saved, false)
    ensures !Present(saved) ==> IsDark(InitialTheme(saved, prefersDark)) == prefersDark
    ensures !Present(saved) ==> InitialTheme(saved, prefersDark) in {"light", "dark"}
    ensures InitialTheme(saved, prefersDark) != ""
    ensures var t := InitialTheme(Some(Str("sepia")), true);
      t == "sepia" && Synced({}, t) * {LightClass, DarkClass} == {}
  {
    SyncedSpec({}, "sepia");
  }

  /** `prev === "light" ? "dark" : "light"` */
  function Toggled(theme: string): (r: string)
    ensures r == "dark" || r == "light"
  {
    if theme == "light" then "dark" else "light"
  }

  /** Light and dark swap and two toggles return to either; any other theme
      becomes light. */
  lemma ToggledSpec(theme: string)
    ensures Toggled("light") == "dark" && Toggled("dark") == "light"
    ensures theme == "light" || theme == "dark" ==> Toggled(Toggled(theme)) == theme
    ensures theme != "light" ==> Toggled(theme) == "light"
  {
  }

  /** `theme === "dark"` */
  function IsDark(theme: string): (r: bool)
    ensures r <==> theme == "dark"
  {
    theme == "dark"
  }

  /** The toggle turns dark mode on exactly from light, flips `isDark` for
      either of the two themes, and leaves any other theme light. */
  lemma ToggleDarkness(theme: string)
    ensures IsDark(Toggled(theme)) <==> theme == "light"
    ensures theme == "light" || theme == "dark" ==> (IsDark(Toggled(theme)) <==> !IsDark(theme))
    ensures theme != "light" && theme != "dark" ==> !IsDark(theme) && !IsDark(Toggled(theme))
  {
  }

  /** The class the effect adds. */
  function ThemeClass(theme: string): string {
    "theme-" + theme
  }

  /** `remove("theme-light", "theme-dark")` then `add("theme-" + theme)` */
  function Synced(body: set<string>, theme: string): set<string> {
    (body - {LightClass, DarkClass}) + {ThemeClass(theme)}
  }

  /** After the effect the body keeps its other classes and holds the
      theme's class; for light or dark it holds exactly one of the two
      theme classes, and for any other theme neither. */
  lemma SyncedSpec(body: set<string>, theme: string)
    ensures ThemeClass(theme) in Synced(body, theme)
    ensures forall c :: c != LightClass && c != DarkClass && c != ThemeClass(theme) ==>
              (c in Synced(body, theme) <==> c in body)
    ensures theme == "light" || theme == "dark" ==>
              Synced(body, theme) * {LightClass, DarkClass} == {ThemeClass(theme)}
    ensures theme != "light" && theme != "dark" ==>
              Synced(body, theme) * {LightClass, DarkClass} == {}
  {
    if theme == "light" {
      assert ThemeClass(theme) == LightClass;
    } else if theme == "dark" {
      assert ThemeClass(theme) == DarkClass;
    } else {
      assert ThemeClass(theme)[6..] == theme;
      assert LightClass[6..] == "light" && DarkClass[6..] == "dark";
    }
  }

  /** The hook's state with the body and storage it writes. */
  class ThemeHook {
    var theme: string

    /** The first render, before the effect. */
    constructor (store: LocalStorage, prefersDark: bool)
      ensures theme == InitialTheme(store.GetItem(ThemeKey), prefersDark)
    {
      var saved := store.GetItem(ThemeKey);
      if Present(saved) {
        theme := RawText(saved.value);
      } else if prefersDark {
        theme := "dark";
      } else {
        theme := "light";
      }
    }

    method ToggleTheme()
      modifies this
      ensures theme == Toggled(old(theme))
    {
      theme := if theme == "light" then "dark" else "light";
    }

    method SetTheme(t: string)
      modifies this
      ensures theme == t
    {
      theme := t;
    }

    /** The effect keyed on the theme; returns the new body classes. */
    method Sync(body: set<string>, store: LocalStorage) returns (classes: set<string>)
      modifies store
      ensures classes == Synced(body, theme)
      ensures store.items == old(store.items)[ThemeKey := Str(theme)]
    {
      classes := body - {LightClass, DarkClass};
      classes := classes + {"theme-" + theme};
      store.SetItem(ThemeKey, Str(theme));
    }
  }

  /** A synced theme comes back as the initial theme on the next load,
      whatever the system prefers, as long as it is not empty. */
  method SyncThenReload(store: LocalStorage, hook: ThemeHook, body: set<string>, prefersDark: bool)
      returns (next: ThemeHook)
    requires hook.theme != ""
    modifies store
    ensures next.theme == hook.theme
  {
    var _ := hook.Sync(body, store);
    next := new ThemeHook(store, prefersDark);
  }
}
