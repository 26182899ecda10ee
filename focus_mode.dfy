/**
 * The focus-mode session store (`FocusModeProvider`): one session record,
 * its mutators, the remaining-time computation, the settings kept in
 * storage, and the decisions its guards take on clicks, key presses, timer
 * ticks and route changes. The clock (`Date.now()`) and the current route
 * are parameters; URL parsing (`new URL(href, origin).hostname`) is the
 * parameter `hostOf`, whose `None` is a thrown parse error.
 */
module FocusMode {
  import opened Text
  import opened Storage

  const SettingsKey: string := "focus-mode-settings"
  const DefaultDuration: int := 30
  const MillisPerMinute: int := 60000

  /** The state the provider keeps with `useState`. */
  datatype Session = Session(
    isActive: bool,
    duration: int,
    startTime: Option<int>,
    allowedDomains: seq<string>,
    lockedPath: Option<string>,
    showExitModal: bool)

  const Initial: Session := Session(false, DefaultDuration, None, [], None, false)

  /** `!!startTime`: a start time is set and is not 0. */
  predicate Started(startTime: Option<int>) {
    startTime.Some? && startTime.value != 0
  }

  /** `getRemainingTime()` at clock reading `now`, in milliseconds. */
  function RemainingTime(startTime: Option<int>, duration: int, now: int): (r: int)
    ensures r >= 0
    ensures !Started(startTime) ==> r == 0
  {
    if !Started(startTime) then 0
    else
      var remaining := duration * MillisPerMinute - (now - startTime.value);
      if remaining > 0 then remaining else 0
  }

  /** Right after starting, the whole duration is left. */
  lemma RemainingAtStart(start: int, duration: int)
    requires start != 0 && duration >= 0
    ensures RemainingTime(Some(start), duration, start) == duration * MillisPerMinute
  {
  }

  /** Remaining time never grows as the clock advances. */
  lemma RemainingNonIncreasing(startTime: Option<int>, duration: int, now1: int, now2: int)
    requires now1 <= now2
    ensures RemainingTime(startTime, duration, now2) <= RemainingTime(startTime, duration, now1)
  {
  }

  /** Remaining time is the positive part of what is left of the duration. */
  lemma RemainingValue(start: int, duration: int, now: int)
    requires start != 0
    ensures RemainingTime(Some(start), duration, now) == 0 <==> now - start >= duration * MillisPerMinute
    ensures RemainingTime(Some(start), duration, now) > 0 ==>
              RemainingTime(Some(start), duration, now) + (now - start) == duration * MillisPerMinute
  {
  }

  // ---------------------------------------------------------------------
  // Transitions of the session record
  // ---------------------------------------------------------------------

  /** `activate(durationMinutes = 30)` at time `now` on route `pathname`. */
  function Activated(s: Session, durationMinutes: Option<int>, now: int, pathname: string): Session {
    s.(isActive := true, duration := durationMinutes.GetOr(DefaultDuration),
       startTime := Some(now), lockedPath := Some(pathname))
  }

  /** `deactivate()` */
  function Deactivated(s: Session): Session {
    s.(isActive := false, startTime := None, lockedPath := None, showExitModal := false)
  }

  /** `requestExit()` */
  function ExitRequested(s: Session): Session {
    s.(showExitModal := true)
  }

  /** `cancelExit()` */
  function ExitCancelled(s: Session): Session {
    s.(showExitModal := false)
  }

  /** One firing of the one-second expiry interval; the flag is whether the
      session ended (and the completion notice is shown). The interval only
      runs while the session is active with a start time. */
  function Ticked(s: Session, now: int): (Session, bool) {
    if s.isActive && Started(s.startTime) && RemainingTime(s.startTime, s.duration, now) <= 0
    then (Deactivated(s), true)
    else (s, false)
  }

  /** The session is off: no start time, no locked route, no exit dialog. */
  predicate IsOff(s: Session) {
    !s.isActive && s.startTime == None && s.lockedPath == None && !s.showExitModal
  }

  /** Activation sets every session field, whatever the previous state,
      including an already running session. */
  lemma ActivatedState(s: Session, d: Option<int>, now: int, pathname: string)
    ensures var a := Activated(s, d, now, pathname);
      a.isActive && a.startTime == Some(now) && a.lockedPath == Some(pathname) &&
      a.duration == (if d.Some? then d.value else 30) &&
      a.allowedDomains == s.allowedDomains && a.showExitModal == s.showExitModal
  {
  }

  /** Activating for `d >= 0` minutes leaves exactly `d` minutes at the start time. */
  lemma ActivateThenRemaining(s: Session, d: int, now: int, pathname: string)
    requires now != 0 && d >= 0
    ensures var a := Activated(s, Some(d), now, pathname);
      RemainingTime(a.startTime, a.duration, now) == d * 60000
  {
  }

  /** Deactivation switches the session off, keeps the rest, and is idempotent. */
  lemma DeactivatedSpec(s: Session)
    ensures IsOff(Deactivated(s))
    ensures Deactivated(s).duration == s.duration && Deactivated(s).allowedDomains == s.allowedDomains
    ensures Deactivated(Deactivated(s)) == Deactivated(s)
  {
  }

  /** After deactivation no time is left, at any clock reading. */
  lemma RemainingZeroAfterDeactivate(s: Session, now: int)
    ensures RemainingTime(Deactivated(s).startTime, Deactivated(s).duration, now) == 0
  {
  }

  /** `requestExit` opens the dialog whether or not a session is active, and
      `cancelExit` closes it; neither touches the session itself. */
  lemma ExitFlagOnly(s: Session)
    ensures ExitRequested(s).showExitModal && !ExitCancelled(s).showExitModal
    ensures ExitRequested(s).(showExitModal := s.showExitModal) == s
    ensures ExitCancelled(s).(showExitModal := s.showExitModal) == s
  {
  }

  /** A tick ends the session exactly when it is active, started and out of time. */
  lemma {:induction false} TickedSpec(s: Session, now: int)
    ensures Ticked(s, now).1 <==> s.isActive && Started(s.startTime) && now - s.startTime.value >= s.duration * 60000
    ensures Ticked(s, now).1 ==> Ticked(s, now).0 == Deactivated(s)
    ensures !Ticked(s, now).1 ==> Ticked(s, now).0 == s
  {
    if Started(s.startTime) {
      RemainingValue(s.startTime.value, s.duration, now);
    }
  }

  /** A five-minute session started at `t` has ended by the tick at five
      minutes and one second, and the completion notice comes only once. */
  lemma ExpiryScenario(s: Session, t: int, pathname: string, later: int)
    requires t > 0 && later >= t + 301000
    ensures var a := Activated(s, Some(5), t, pathname);
      var (b, ended) := Ticked(a, t + 301000);
      ended && IsOff(b) && !Ticked(b, later).1
  {
    var a := Activated(s, Some(5), t, pathname);
    TickedSpec(a, t + 301000);
  }

  // ---------------------------------------------------------------------
  // Route confinement
  // ---------------------------------------------------------------------

  /** The route the confinement effect replaces `pathname` with, if any. */
  function Redirect(s: Session, pathname: string): (r: Option<string>)
    ensures r.Some? <==> s.isActive && s.lockedPath.Some? && s.lockedPath.value != "" && pathname != s.lockedPath.value
    ensures r.Some? ==> r == s.lockedPath
  {
    if s.isActive && s.lockedPath.Some? && s.lockedPath.value != "" && pathname != s.lockedPath.value
    then s.lockedPath
    else None
  }

  /** Confinement settles in one step: the route it sends to is never sent
      on again. Nothing is confined when the session is off or the locked
      route is empty; a session just started confines every other route to
      the one it started on, and leaves that one alone. */
  lemma RedirectSettles(s: Session, pathname: string, other: string, minutes: Option<int>, t: int)
    ensures Redirect(s, pathname).Some? ==> Redirect(s, Redirect(s, pathname).value).None?
    ensures !s.isActive || s.lockedPath.None? || s.lockedPath == Some("") ==> Redirect(s, pathname).None?
    ensures Redirect(Deactivated(s), pathname).None?
    ensures Redirect(Activated(s, minutes, t, pathname), pathname).None?
    ensures pathname != "" && other != pathname ==> Redirect(Activated(s, minutes, t, pathname), other) == Some(pathname)
  {
  }

  /** With `/lesson/1/2` locked, navigating to `/about` is sent back. */
  lemma RedirectScenario(s: Session, t: int)
    ensures Redirect(Activated(s, None, t, "/lesson/1/2"), "/about") == Some("/lesson/1/2")
    ensures Redirect(Activated(s, None, t, "/lesson/1/2"), "/lesson/1/2") == None
  {
  }

  // ---------------------------------------------------------------------
  // Settings persistence
  // ---------------------------------------------------------------------

  /** The stored settings document `{ allowedDomains: domains }`. */
  function SettingsDoc(domains: seq<string>): Stored {
    Doc(Single("allowedDomains", JArr(StringItems(domains))))
  }

  function StringItems(ss: seq<string>): (r: seq<JsonValue>)
    ensures |r| == |ss| && forall i :: 0 <= i < |ss| ==> r[i] == JStr(ss[i])
  {
    seq(|ss|, i requires 0 <= i < |ss| => JStr(ss[i]))
  }

  /** The strings among the items of a JSON array, in order. */
  function Strings(items: seq<JsonValue>): seq<string>
    decreases |items|
  {
    if |items| == 0 then []
    else (if items[0].JStr? then [items[0].s] else []) + Strings(items[1..])
  }

  lemma {:induction false} StringsOfStringItems(ss: seq<string>)
    ensures Strings(StringItems(ss)) == ss
    decreases |ss|
  {
    if |ss| > 0 {
      StringsOfStringItems(ss[1..]);
      assert StringItems(ss)[1..] == StringItems(ss[1..]);
    }
  }

  /** What the mount effect does to the in-memory allow-list. */
  datatype LoadOutcome = Unchanged | Loaded(domains: seq<string>) | Threw

  /** The mount effect: nothing when the key is absent or empty; otherwise
      `JSON.parse(saved).allowedDomains || []`, where a parse error or a
      `null` document throws out of the effect. */
  function SettingsLoad(slot: Option<Stored>): LoadOutcome {
    if !Present(slot) then Unchanged
    else match Parse(slot.value)
      case None => Threw
      case Some(v) =>
        match Get(v, "allowedDomains")
        case TypeError => Threw
        case Undefined => Loaded([])
        case Found(x) =>
          if Truthy(x) && x.JArr? then Loaded(Strings(x.items)) else Loaded([])
  }

  /** Saving then loading gives back the saved list; an absent key leaves the list alone. */
  lemma SettingsRoundTrip(domains: seq<string>)
    ensures SettingsLoad(Some(SettingsDoc(domains))) == Loaded(domains)
    ensures SettingsLoad(None) == Unchanged
  {
    StringsOfStringItems(domains);
    DocTextNonEmpty(Single("allowedDomains", JArr(StringItems(domains))));
  }

  /** A document without the member loads as the empty list. */
  lemma SettingsWithoutMember(members: seq<(string, JsonValue)>)
    requires Member(members, "allowedDomains") == None
    ensures SettingsLoad(Some(Doc(JObj(members)))) == Loaded([])
  {
    DocTextNonEmpty(JObj(members));
  }

  // ---------------------------------------------------------------------
  // Link clicks
  // ---------------------------------------------------------------------

  /** The nearest enclosing `<a>` of a click target and its `href` attribute. */
  datatype Anchor = NoAnchor | Anchor(href: Option<string>)

  datatype ClickOutcome =
    | NotALink            // no anchor, or no (or an empty) href
    | Fragment            // `#...`: allowed
    | LockedRoute         // `/...` equal to the locked route: allowed
    | OtherRouteBlocked   // `/...` elsewhere: blocked with a notice
    | VideoHost           // host contains youtube.com or youtu.be: allowed
    | AllowedHost         // host contains an allow-list entry: allowed
    | HostBlocked(host: string)
    | InvalidUrl          // `new URL` threw: blocked

  /** The click is cancelled (`preventDefault` and `stopPropagation`). */
  predicate Prevented(o: ClickOutcome) {
    o.OtherRouteBlocked? || o.HostBlocked? || o.InvalidUrl?
  }

  /** `allowedDomains.some(domain => hostname.includes(domain))` */
  predicate AnyContained(host: string, domains: seq<string>) {
    exists i :: 0 <= i < |domains| && Contains(host, domains[i])
  }

  predicate IsVideoHost(host: string) {
    Contains(host, "youtube.com") || Contains(host, "youtu.be")
  }

  /** The capture-phase click handler's decision. */
  function ClickDecision(target: Anchor, lockedPath: Option<string>, allowed: seq<string>,
                         hostOf: string -> Option<string>): ClickOutcome {
    if target.NoAnchor? || target.href.None? || target.href.value == "" then NotALink
    else
      var href := target.href.value;
      if StartsWith(href, "#") then Fragment
      else if StartsWith(href, "/") then
        (if lockedPath == Some(href) then LockedRoute else OtherRouteBlocked)
      else match hostOf(href)
        case None => InvalidUrl
        case Some(host) =>
          if IsVideoHost(host) then VideoHost
          else if AnyContained(host, allowed) then AllowedHost
          else HostBlocked(host)
  }

  /** Clicks outside anchors, and anchors without an href, are left alone;
      fragment links always pass. */
  lemma ClickNonLinksAndFragments(target: Anchor, lockedPath: Option<string>, allowed: seq<string>,
                                  hostOf: string -> Option<string>)
    ensures (target.NoAnchor? || target.href == None) ==> ClickDecision(target, lockedPath, allowed, hostOf) == NotALink
    ensures target.Anchor? && target.href.Some? && StartsWith(target.href.value, "#") ==>
              !Prevented(ClickDecision(target, lockedPath, allowed, hostOf))
  {
  }

  /** An internal link is cancelled exactly when it is not the locked route,
      compared as strings. */
  lemma ClickInternal(href: string, lockedPath: Option<string>, allowed: seq<string>,
                      hostOf: string -> Option<string>)
    requires StartsWith(href, "/")
    ensures Prevented(ClickDecision(Anchor(Some(href)), lockedPath, allowed, hostOf)) <==> lockedPath != Some(href)
  {
    assert href[0] == '/';
    assert !StartsWith(href, "#");
  }

  /** Any other link is allowed exactly when its URL parses and its host
      contains a video host or some allow-list entry. */
  lemma ClickExternal(href: string, lockedPath: Option<string>, allowed: seq<string>,
                      hostOf: string -> Option<string>)
    requires href != "" && !StartsWith(href, "#") && !StartsWith(href, "/")
    ensures !Prevented(ClickDecision(Anchor(Some(href)), lockedPath, allowed, hostOf)) <==>
              hostOf(href).Some? && (IsVideoHost(hostOf(href).value) || AnyContained(hostOf(href).value, allowed))
  {
  }

  /** The allow-list is plain substring containment: a look-alike host that
      merely contains an allowed domain, such as
      "notwikipedia.org.evil.com", is admitted like the domain itself. */
  lemma LookalikeHostAdmitted(before: string, after: string, domain: string)
    ensures AnyContained(before + domain + after, [domain])
  {
    ContainsReflexiveAndEmpty(domain);
    ContainsInConcat(before, domain, after, domain);
    assert Contains(before + domain + after, [domain][0]);
  }

  /** An empty allow-list entry admits every host that parses. */
  lemma ClickEmptyEntryAdmitsAll(href: string, lockedPath: Option<string>, allowed: seq<string>,
                                 hostOf: string -> Option<string>)
    requires href != "" && !StartsWith(href, "#") && !StartsWith(href, "/")
    requires "" in allowed && hostOf(href).Some?
    ensures !Prevented(ClickDecision(Anchor(Some(href)), lockedPath, allowed, hostOf))
  {
    var i :| 0 <= i < |allowed| && allowed[i] == "";
    assert Contains(hostOf(href).value, allowed[i]);
  }

  // ---------------------------------------------------------------------
  // Key presses
  // ---------------------------------------------------------------------

  datatype KeyEvent = KeyEvent(key: string, ctrlKey: bool, metaKey: bool, shiftKey: bool)

  datatype KeyOutcome =
    | KeyIgnored
    | NewTabBlocked          // Ctrl/Cmd + t, n or w
    | PrivateWindowBlocked   // Ctrl/Cmd + Shift + n
    | ReloadPrompt           // F5 or Ctrl/Cmd + r: asks before reloading

  /** The capture-phase keydown handler's classification, branch by branch. */
  function ClassifyKey(e: KeyEvent): KeyOutcome {
    var modifier := e.ctrlKey || e.metaKey;
    var k := Lower(e.key);
    if modifier && (k == "t" || k == "n" || k == "w") then NewTabBlocked
    else if modifier && e.shiftKey && k == "n" then PrivateWindowBlocked
    else if e.key == "F5" || (modifier && k == "r") then ReloadPrompt
    else KeyIgnored
  }

  /** The private-window branch can never be taken: Ctrl/Cmd+Shift+N is
      already caught as a new-tab shortcut. */
  lemma PrivateWindowBranchUnreachable(e: KeyEvent)
    ensures ClassifyKey(e) != PrivateWindowBlocked
    ensures (e.ctrlKey || e.metaKey) && e.shiftKey && Lower(e.key) == "n" ==> ClassifyKey(e) == NewTabBlocked
  {
  }

  /** The keys whose `toLowerCase()` is the one-letter string `[c]`. */
  lemma LowerIsLetter(key: string, c: char)
    requires 'a' <= c <= 'z'
    ensures Lower(key) == [c] <==> key == [c] || key == [(c as int - 32) as char]
  {
    if |key| == 1 {
      assert Lower(key) == [LowerChar(key[0])];
    }
  }

  /** New-tab shortcuts, in either case, are blocked; reload shortcuts prompt. */
  lemma ClassifyKeyCases(e: KeyEvent)
    ensures ClassifyKey(e) == NewTabBlocked <==>
              (e.ctrlKey || e.metaKey) && e.key in {"t", "T", "n", "N", "w", "W"}
    ensures ClassifyKey(e) == ReloadPrompt <==>
              !(ClassifyKey(e) == NewTabBlocked) && (e.key == "F5" || ((e.ctrlKey || e.metaKey) && e.key in {"r", "R"}))
  {
    LowerIsLetter(e.key, 't');
    LowerIsLetter(e.key, 'n');
    LowerIsLetter(e.key, 'w');
    LowerIsLetter(e.key, 'r');
  }

  // ---------------------------------------------------------------------
  // The provider
  // ---------------------------------------------------------------------

  class FocusModeProvider {
    var isActive: bool
    var duration: int
    var startTime: Option<int>
    var allowedDomains: seq<string>
    var lockedPath: Option<string>
    var showExitModal: bool

    /** The state as a record. */
    function State(): Session
      reads this
    {
      Session(isActive, duration, startTime, allowedDomains, lockedPath, showExitModal)
    }

    constructor ()
      ensures State() == Initial
    {
      isActive, duration, startTime := false, DefaultDuration, None;
      allowedDomains, lockedPath, showExitModal := [], None, false;
    }

    /** The mount effect that reads the saved allow-list; `threw` reports the
        exception that leaves the effect on unreadable settings. */
    method LoadSettings(store: LocalStorage) returns (threw: bool)
      modifies this
      ensures threw <==> SettingsLoad(old(store.GetItem(SettingsKey))) == Threw
      ensures State() == old(match SettingsLoad(store.GetItem(SettingsKey))
                             case Loaded(ds) => State().(allowedDomains := ds)
                             case _ => State())
    {
      var outcome := SettingsLoad(store.GetItem(SettingsKey));
      threw := outcome == Threw;
      if outcome.Loaded? {
        allowedDomains := outcome.domains;
      }
    }

    /** `saveSettings(domains)` */
    method SaveSettings(domains: seq<string>, store: LocalStorage)
      modifies this, store
      ensures store.items == old(store.items)[SettingsKey := SettingsDoc(domains)]
      ensures State() == old(State()).(allowedDomains := domains)
    {
      store.SetItem(SettingsKey, SettingsDoc(domains));
      allowedDomains := domains;
    }

    /** `activate(durationMinutes)`; `None` is the omitted argument. */
    method Activate(durationMinutes: Option<int>, now: int, pathname: string)
      modifies this
      ensures State() == Activated(old(State()), durationMinutes, now, pathname)
    {
      isActive := true;
      duration := durationMinutes.GetOr(DefaultDuration);
      startTime := Some(now);
      lockedPath := Some(pathname);
    }

    method Deactivate()
      modifies this
      ensures State() == Deactivated(old(State()))
    {
      isActive := false;
      startTime := None;
      lockedPath := None;
      showExitModal := false;
    }

    method RequestExit()
      modifies this
      ensures State() == ExitRequested(old(State()))
    {
      showExitModal := true;
    }

    /** `confirmExit` is `deactivate`. */
    method ConfirmExit()
      modifies this
      ensures State() == Deactivated(old(State()))
    {
      Deactivate();
    }

    method CancelExit()
      modifies this
      ensures State() == ExitCancelled(old(State()))
    {
      showExitModal := false;
    }

    function GetRemainingTime(now: int): (r: int)
      reads this
      ensures r >= 0
      ensures IsOff(State()) ==> r == 0
    {
      RemainingTime(startTime, duration, now)
    }

    /** One firing of the expiry interval. */
    method Tick(now: int) returns (ended: bool)
      modifies this
      ensures (State(), ended) == Ticked(old(State()), now)
    {
      ended := false;
      if isActive && Started(startTime) {
        var remaining := GetRemainingTime(now);
        if remaining <= 0 {
          Deactivate();
          ended := true;
        }
      }
    }

    /** The click guard, installed only while the session is active. */
    function HandleClick(target: Anchor, hostOf: string -> Option<string>): (r: ClickOutcome)
      reads this
      ensures !isActive ==> !Prevented(r)
    {
      if isActive then ClickDecision(target, lockedPath, allowedDomains, hostOf) else NotALink
    }

    /** The keydown guard, installed only while the session is active;
        `confirmReload` is the answer to the reload prompt. Confirming ends
        the session before the page reloads. */
    method HandleKeyDown(e: KeyEvent, confirmReload: bool) returns (o: KeyOutcome)
      modifies this
      ensures o == (if old(isActive) then ClassifyKey(e) else KeyIgnored)
      ensures State() == (if o == ReloadPrompt && confirmReload then Deactivated(old(State())) else old(State()))
    {
      o := KeyIgnored;
      if isActive {
        o := ClassifyKey(e);
        if o == ReloadPrompt && confirmReload {
          Deactivate();
        }
      }
    }
  }
}
