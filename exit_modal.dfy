/**
 * The two-step exit dialog (`ExitConfirmationModal`). Its own state is the
 * step (1 or 2) and the acknowledgement checkbox; the session flag
 * `showExitModal` decides whether it is drawn. Only its two handlers reset
 * the step and the checkbox: when the session hides the dialog by other
 * means (expiry, a confirmed reload), both keep their values.
 */
module ExitModal {
  import FocusMode
  import opened Text

  /** The dialog's own state. */
  datatype Gate = Gate(step: int, confirmed: bool)

  const Start: Gate := Gate(1, false)

  /** `handleFirstConfirm` */
  function FirstConfirmed(g: Gate): Gate {
    g.(step := 2)
  }

  /** The checkbox's `onChange`. */
  function Checked(g: Gate, checked: bool): Gate {
    g.(confirmed := checked)
  }

  /** `handleFinalConfirm`: the new state and whether `confirmExit` was called. */
  function FinalConfirmed(g: Gate): (Gate, bool) {
    if g.confirmed then (Start, true) else (g, false)
  }

  /** `handleCancel` always returns to the start; it calls `cancelExit`. */
  function Cancelled(g: Gate): Gate {
    Start
  }

  /** What the user can do in the drawn dialog. */
  datatype Action = ClickContinue | SetChecked(checked: bool) | ClickFinal | ClickCancel

  /** Whether an action's control is drawn and enabled: "continue" only at
      step 1; the checkbox and the final button otherwise, the final button
      only when checked; "stay" always. */
  predicate Available(g: Gate, a: Action) {
    match a
    case ClickContinue => g.step == 1
    case SetChecked(_) => g.step != 1
    case ClickFinal => g.step != 1 && g.confirmed
    case ClickCancel => true
  }

  /** The effect of one action: the new state and whether `confirmExit` was called. */
  function Step(g: Gate, a: Action): (Gate, bool) {
    match a
    case ClickContinue => (FirstConfirmed(g), false)
    case SetChecked(c) => (Checked(g, c), false)
    case ClickFinal => FinalConfirmed(g)
    case ClickCancel => (Cancelled(g), false)
  }

  /** The invariant of any run of the dialog: the step is 1 or 2, and the box
      can be checked only at step 2. */
  predicate Reachable(g: Gate) {
    (g.step == 1 || g.step == 2) && (g.confirmed ==> g.step == 2)
  }

  /** The step and the checkbox after a run of available actions from `g`,
      and whether `confirmExit` was called on the way. */
  function Run(g: Gate, actions: seq<Action>): (Gate, bool)
    decreases |actions|
  {
    if |actions| == 0 then (g, false)
    else
      var (g1, fired) := Step(g, actions[0]);
      var (g2, later) := Run(g1, actions[1..]);
      (g2, fired || later)
  }

  predicate AllAvailable(g: Gate, actions: seq<Action>)
    decreases |actions|
  {
    |actions| == 0 || (Available(g, actions[0]) && AllAvailable(Step(g, actions[0]).0, actions[1..]))
  }

  /** Each available action keeps the invariant, and `confirmExit` is called
      only by the final button at step 2 with the box checked, after which the
      dialog is back at the start. */
  lemma StepSpec(g: Gate, a: Action)
    requires Reachable(g) && Available(g, a)
    ensures Reachable(Step(g, a).0)
    ensures Step(g, a).1 <==> a == ClickFinal
    ensures Step(g, a).1 ==> g == Gate(2, true) && Step(g, a).0 == Start
    ensures a == ClickCancel ==> Step(g, a).0 == Start
  {
  }

  /** Along any run of drawn, enabled controls from the start, the invariant
      holds at the end, and a run that ends the session passes the final
      button at step 2 with the box checked. */
  lemma {:induction false} RunSpec(g: Gate, actions: seq<Action>)
    requires Reachable(g) && AllAvailable(g, actions)
    ensures Reachable(Run(g, actions).0)
    ensures Run(g, actions).1 ==> exists i :: 0 <= i < |actions| && actions[i] == ClickFinal
    decreases |actions|
  {
    if |actions| > 0 {
      StepSpec(g, actions[0]);
      RunSpec(Step(g, actions[0]).0, actions[1..]);
      if Run(Step(g, actions[0]).0, actions[1..]).1 {
        var i :| 0 <= i < |actions[1..]| && actions[1..][i] == ClickFinal;
        assert actions[i + 1] == ClickFinal;
      }
    }
  }

  /** Without checking the box, no sequence of clicks ends the session. */
  lemma {:induction false} SessionNeedsAcknowledgement(g: Gate, actions: seq<Action>)
    requires Reachable(g) && !g.confirmed && AllAvailable(g, actions)
    requires forall i :: 0 <= i < |actions| ==> actions[i] != SetChecked(true)
    ensures !Run(g, actions).1 && !Run(g, actions).0.confirmed
    decreases |actions|
  {
    if |actions| > 0 {
      SessionNeedsAcknowledgement(Step(g, actions[0]).0, actions[1..]);
    }
  }

  /** The dialog component; the session provider it calls is passed in. */
  class ExitConfirmationModal {
    var step: int
    var confirmed: bool

    function State(): Gate
      reads this
    {
      Gate(step, confirmed)
    }

    constructor ()
      ensures State() == Start
    {
      step, confirmed := 1, false;
    }

    /** Nothing is drawn while the session does not ask for the dialog. */
    function Drawn(session: FocusMode.FocusModeProvider): bool
      reads session
    {
      session.showExitModal
    }

    /** The final button replaces "continue" once past step 1, and is enabled
        only when the box is checked: the drawn buttons are exactly the
        available actions, and the enabled final button is the one control
        that ends the session, after which the dialog is back at the start. */
    function FinalButton(): (r: Option<bool>)
      reads this
      ensures r.Some? <==> step != 1
      ensures r.Some? ==> r.value == confirmed
      ensures r.None? <==> Available(State(), ClickContinue)
      ensures r == Some(true) <==> Available(State(), ClickFinal)
      ensures r.Some? ==> (r.value <==> Step(State(), ClickFinal).1)
      ensures r == Some(true) ==> Step(State(), ClickFinal).0 == Start
      ensures r == Some(false) ==> Step(State(), ClickFinal) == (State(), false)
    {
      if step == 1 then None else Some(confirmed)
    }

    method HandleFirstConfirm()
      modifies this
      ensures State() == FirstConfirmed(old(State()))
    {
      step := 2;
    }

    method HandleCheckbox(checked: bool)
      modifies this
      ensures State() == Checked(old(State()), checked)
    {
      confirmed := checked;
    }

    method HandleFinalConfirm(session: FocusMode.FocusModeProvider)
      modifies this, session
      ensures State() == FinalConfirmed(old(State())).0
      ensures session.State() == if old(confirmed) then FocusMode.Deactivated(old(session.State()))
                                 else old(session.State())
    {
      if confirmed {
        session.ConfirmExit();
        step := 1;
        confirmed := false;
      }
    }

    method HandleCancel(session: FocusMode.FocusModeProvider)
      modifies this, session
      ensures State() == Start
      ensures session.State() == FocusMode.ExitCancelled(old(session.State()))
    {
      session.CancelExit();
      step := 1;
      confirmed := false;
    }
  }

  /** The dialog's step and checkbox survive the session ending on its own:
      after the expiry tick hides it, asking to exit again shows it at the
      final step, already checked. */
  method ExpiryKeepsDialogState(now: int, later: int)
    requires now > 0 && later >= now + 5 * 60000
  {
    var session := new FocusMode.FocusModeProvider();
    var dialog := new ExitConfirmationModal();
    session.Activate(Some(5), now, "/lesson/1/2");
    session.RequestExit();
    dialog.HandleFirstConfirm();
    dialog.HandleCheckbox(true);
    FocusMode.TickedSpec(session.State(), later);
    var ended := session.Tick(later);
    assert ended && !dialog.Drawn(session);
    session.Activate(Some(5), later, "/lesson/1/2");
    session.RequestExit();
    assert dialog.Drawn(session) && dialog.FinalButton() == Some(true);
  }
}
