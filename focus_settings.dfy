/**
 * The settings dialog that starts a focus session (`FocusModeSettings`): a
 * duration picked from presets or typed in, an editable copy of the
 * allow-list, and the button that saves the list and activates the session.
 */
module FocusSettings {
  import opened Text
  import opened Storage
  import FocusMode

  /** The duration the dialog starts with, in minutes. */
  const InitialDuration := 30

  /** The preset buttons, in minutes. */
  const Presets: seq<int> := [15, 30, 45, 60, 90]

  /** The dialog's state: the chosen duration, the edited allow-list and the
      text of the "add" field. */
  datatype Draft = Draft(duration: int, domains: seq<string>, newDomain: string)

  /** The state on opening: the list starts as the session's list. */
  function Opened(allowed: seq<string>): Draft {
    Draft(InitialDuration, allowed, "")
  }

  /** The custom field's `parseInt(value) || 30`: NaN and 0 fall back to 30.
      The field's `min` and `max` are not enforced on what is typed. */
  function CustomDuration(input: string): (r: int)
    ensures r != 0
    ensures ParseInt(input).Some? && ParseInt(input).value != 0 ==> r == ParseInt(input).value
    ensures ParseInt(input).None? || ParseInt(input) == Some(0) ==> r == InitialDuration
  {
    match ParseInt(input)
    case Some(n) => if n == 0 then InitialDuration else n
    case None => InitialDuration
  }

  function DurationChosen(d: Draft, minutes: int): Draft {
    d.(duration := minutes)
  }

  function NewDomainTyped(d: Draft, text: string): Draft {
    d.(newDomain := text)
  }

  /** `handleAddDomain`: the trimmed entry is appended when it is non-empty
      and not yet listed, and then the field is cleared. */
  function DomainAdded(d: Draft): Draft {
    var t := Trim(d.newDomain);
    if t != "" && t !in d.domains then d.(domains := d.domains + [t], newDomain := "") else d
  }

  /** The field's key handler: only Enter adds. */
  function KeyPressed(d: Draft, key: string): Draft {
    if key == "Enter" then DomainAdded(d) else d
  }

  /** `handleRemoveDomain(domain)` */
  function DomainRemoved(d: Draft, domain: string): Draft {
    d.(domains := RemoveAll(d.domains, domain))
  }

  /** What an allow-list entry added through the field looks like. */
  predicate CleanEntry(x: string) {
    x != "" && IsTrimmed(x)
  }

  predicate AllClean(ds: seq<string>) {
    forall i :: 0 <= i < |ds| ==> CleanEntry(ds[i])
  }

  /** Adding keeps the list duplicate-free and clean, extends it by at most the
      trimmed entry, and clears the field exactly when something was added. */
  lemma DomainAddedSpec(d: Draft)
    ensures Distinct(d.domains) ==> Distinct(DomainAdded(d).domains)
    ensures AllClean(d.domains) ==> AllClean(DomainAdded(d).domains)
    ensures d.domains <= DomainAdded(d).domains
    ensures |DomainAdded(d).domains| <= |d.domains| + 1
    ensures forall x :: x in DomainAdded(d).domains <==> x in d.domains || (x == Trim(d.newDomain) && x != "")
    ensures DomainAdded(d).domains != d.domains <==> DomainAdded(d).newDomain != d.newDomain
    ensures DomainAdded(d).domains != d.domains ==> DomainAdded(d).newDomain == ""
    ensures DomainAdded(d).duration == d.duration
  {
    var t := Trim(d.newDomain);
    TrimIsTrimmed(d.newDomain);
    if t != "" && t !in d.domains {
      var r := DomainAdded(d).domains;
      assert r == d.domains + [t];
      assert r[|d.domains|] == t;
      assert d.newDomain != "";
    }
  }

  /** Typing the same text again after adding it adds nothing. */
  lemma AddTwice(d: Draft)
    ensures DomainAdded(NewDomainTyped(DomainAdded(d), d.newDomain)).domains == DomainAdded(d).domains
  {
  }

  /** Removal keeps the other entries in their order and the list duplicate-free. */
  lemma DomainRemovedSpec(d: Draft, domain: string)
    ensures forall x :: x in DomainRemoved(d, domain).domains <==> x in d.domains && x != domain
    ensures Distinct(d.domains) ==> Distinct(DomainRemoved(d, domain).domains)
    ensures domain !in d.domains ==> DomainRemoved(d, domain) == d
  {
    forall x {
      RemoveAllMembers(d.domains, domain, x);
    }
    if Distinct(d.domains) {
      RemoveAllDistinct(d.domains, domain);
    }
    if domain !in d.domains {
      RemoveAllAbsent(d.domains, domain);
    }
  }

  /** Removing an entry just added restores the list. */
  lemma {:induction false} RemoveUndoesAdd(d: Draft)
    requires Trim(d.newDomain) != "" && Trim(d.newDomain) !in d.domains
    ensures DomainRemoved(DomainAdded(d), Trim(d.newDomain)).domains == d.domains
  {
    var t := Trim(d.newDomain);
    RemoveAllConcat(d.domains, [t], t);
    RemoveAllAbsent(d.domains, t);
    assert RemoveAll([t], t) == [];
  }

  /** Exactly one preset is highlighted after choosing it. */
  lemma PresetHighlight(i: int)
    requires 0 <= i < |Presets|
    ensures forall j :: 0 <= j < |Presets| ==> (DurationChosen(Opened([]), Presets[i]).duration == Presets[j] <==> i == j)
  {
  }

  /** A typed negative duration is kept, and such a session ends at the
      first tick after it starts. */
  lemma NegativeDurationEndsAtOnce(now: int)
    requires now > 0
    ensures CustomDuration("-10") == -10
    ensures var s := FocusMode.Activated(FocusMode.Initial, Some(CustomDuration("-10")), now, "/");
            FocusMode.Ticked(s, now).1
  {
    MinusTenParses();
    var d := CustomDuration("-10");
    assert d == -10;
    var s := FocusMode.Activated(FocusMode.Initial, Some(d), now, "/");
    assert s.isActive && s.startTime == Some(now) && s.duration == -10;
  }

  /** `parseInt("-10")` is -10. */
  lemma MinusTenParses()
    ensures ParseInt("-10") == Some(-10)
  {
    ParseIntOfIntToString(-10);
    assert IntToString(-10) == "-10" by { assert NatToString(1) == "1"; }
  }

  /** The settings dialog; the provider and the store it writes are passed in. */
  class FocusModeSettings {
    var duration: int
    var domains: seq<string>
    var newDomain: string

    function State(): Draft
      reads this
    {
      Draft(duration, domains, newDomain)
    }

    constructor (provider: FocusMode.FocusModeProvider)
      ensures State() == Opened(provider.allowedDomains)
    {
      duration := InitialDuration;
      domains := provider.allowedDomains;
      newDomain := "";
    }

    /** A preset button. */
    method ChoosePreset(minutes: int)
      modifies this
      ensures State() == DurationChosen(old(State()), minutes)
    {
      duration := minutes;
    }

    /** The custom field's `onChange`. */
    method TypeDuration(input: string)
      modifies this
      ensures State() == DurationChosen(old(State()), CustomDuration(input))
    {
      duration := CustomDuration(input);
    }

    method TypeDomain(text: string)
      modifies this
      ensures State() == NewDomainTyped(old(State()), text)
    {
      newDomain := text;
    }

    method HandleAddDomain()
      modifies this
      ensures State() == DomainAdded(old(State()))
    {
      var t := Trim(newDomain);
      if t != "" && t !in domains {
        domains := domains + [t];
        newDomain := "";
      }
    }

    method HandleKeyPress(key: string)
      modifies this
      ensures State() == KeyPressed(old(State()), key)
    {
      if key == "Enter" {
        HandleAddDomain();
      }
    }

    method HandleRemoveDomain(domain: string)
      modifies this
      ensures State() == DomainRemoved(old(State()), domain)
    {
      domains := RemoveAll(domains, domain);
    }

    /** `handleActivate`: saves the edited list, then activates with the
        chosen duration on the current route. */
    method HandleActivate(provider: FocusMode.FocusModeProvider, store: LocalStorage, now: int, pathname: string)
      modifies provider, store
      ensures store.items == old(store.items)[FocusMode.SettingsKey := FocusMode.SettingsDoc(domains)]
      ensures provider.State() == FocusMode.Activated(old(provider.State()).(allowedDomains := domains),
                                                      Some(duration), now, pathname)
    {
      provider.SaveSettings(domains, store);
      provider.Activate(Some(duration), now, pathname);
    }
  }
}
