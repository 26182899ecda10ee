/**
 * The bar shown during a focus session (`FocusModeBar`): the remaining time
 * as `m:ss`, refreshed every second, and a progress strip whose width is the
 * remaining time measured against a fixed 30-minute scale.
 */
module FocusBar {
  import opened Text
  import FocusMode

  const MillisPerSecond: nat := 1000
  const MillisPerMinute: nat := 60000

  /** The scale of the progress strip: always 30 minutes, whatever the
      session's duration. */
  const ScaleMillis: nat := 60 * 1000 * 30

  /** Whole minutes and the leftover whole seconds of `remaining` milliseconds. */
  function Split(remaining: nat): (r: (nat, nat))
    ensures r.1 < 60
    ensures r.0 * MillisPerMinute + r.1 * MillisPerSecond <= remaining
    ensures remaining < r.0 * MillisPerMinute + r.1 * MillisPerSecond + MillisPerSecond
  {
    (remaining / MillisPerMinute, (remaining % MillisPerMinute) / MillisPerSecond)
  }

  /** `${minutes}:${seconds.toString().padStart(2, "0")}` */
  function Clock(remaining: nat): string {
    var (m, s) := Split(remaining);
    NatToString(m) + ":" + PadStart2(NatToString(s))
  }

  /** The seconds of a split always render as exactly two digits. */
  lemma TwoDigitSeconds(s: nat)
    requires s < 60
    ensures PadStart2(NatToString(s)) == [DigitChar(s / 10), DigitChar(s % 10)]
  {
  }

  /** Two digits read back as the number they render. */
  lemma TwoDigitValue(s: nat)
    requires s < 100
    ensures AllDigits([DigitChar(s / 10), DigitChar(s % 10)])
    ensures DigitsValue([DigitChar(s / 10), DigitChar(s % 10)]) == s
  {
    var ss := [DigitChar(s / 10), DigitChar(s % 10)];
    assert DigitValue(ss[0]) == s / 10 && DigitValue(ss[1]) == s % 10;
    TwoDigitRadixValue(ss, 10);
  }

  /** The clock text reads back into the time it shows: digits for the
      minutes, a colon, two digits for the seconds. */
  lemma ClockReadsBack(remaining: nat)
    ensures var c := Clock(remaining);
      |c| >= 4 && c[|c| - 3] == ':' &&
      AllDigits(c[..|c| - 3]) && AllDigits(c[|c| - 2..]) &&
      DigitsValue(c[..|c| - 3]) == Split(remaining).0 &&
      DigitsValue(c[|c| - 2..]) == Split(remaining).1
  {
    var (m, s) := Split(remaining);
    var ms := NatToString(m);
    NatToStringDigits(m);
    TwoDigitSeconds(s);
    TwoDigitValue(s);
    var ss := [DigitChar(s / 10), DigitChar(s % 10)];
    var c := Clock(remaining);
    assert c == ms + ":" + ss;
    assert c[..|c| - 3] == ms;
    assert c[|c| - 2..] == ss;
  }

  /** So the clock shows the remaining time rounded down to the second. */
  lemma ClockDenotes(remaining: nat)
    ensures var c := Clock(remaining);
      |c| >= 4 && AllDigits(c[..|c| - 3]) && AllDigits(c[|c| - 2..]) &&
      DigitsValue(c[..|c| - 3]) * MillisPerMinute + DigitsValue(c[|c| - 2..]) * MillisPerSecond <= remaining <
      DigitsValue(c[..|c| - 3]) * MillisPerMinute + DigitsValue(c[|c| - 2..]) * MillisPerSecond + MillisPerSecond
  {
    ClockReadsBack(remaining);
  }

  /** The shown time never goes up while the clock advances. */
  lemma ClockNonIncreasing(r1: nat, r2: nat)
    requires r1 <= r2
    ensures Split(r1).0 < Split(r2).0 || (Split(r1).0 == Split(r2).0 && Split(r1).1 <= Split(r2).1)
  {
  }

  /** The strip's width in percent: `(remaining / (60 * 1000 * 30)) * 100`. */
  function Width(remaining: nat): real {
    (remaining as real / ScaleMillis as real) * 100.0
  }

  /** The strip is within its track exactly while at most 30 minutes remain,
      full exactly at 30 minutes, and empty exactly when no time is left. */
  lemma WidthRange(remaining: nat)
    ensures Width(remaining) >= 0.0
    ensures Width(remaining) <= 100.0 <==> remaining <= ScaleMillis
    ensures Width(remaining) == 100.0 <==> remaining == ScaleMillis
    ensures Width(remaining) == 0.0 <==> remaining == 0
  {
  }

  /** At the start of a `d`-minute session the strip is `d / 30` of its track,
      so any session longer than 30 minutes starts overflowing it. */
  lemma WidthAtStart(start: int, d: nat)
    requires start != 0
    ensures Width(FocusMode.RemainingTime(Some(start), d, start)) == (d as real / 30.0) * 100.0
    ensures Width(FocusMode.RemainingTime(Some(start), d, start)) > 100.0 <==> d > 30
  {
    FocusMode.RemainingAtStart(start, d);
  }

  /** What the bar draws. */
  datatype View = View(timeLeft: string, width: real)

  /** The bar; the provider it reads is passed in. */
  class FocusModeBar {
    var timeLeft: string

    constructor ()
      ensures timeLeft == ""
    {
      timeLeft := "";
    }

    /** `updateTime`, run at once and then every second while the session is
        active. */
    method UpdateTime(provider: FocusMode.FocusModeProvider, now: int)
      modifies this
      ensures timeLeft == (if provider.isActive then Clock(provider.GetRemainingTime(now)) else old(timeLeft))
    {
      if provider.isActive {
        var remaining := provider.GetRemainingTime(now);
        timeLeft := Clock(remaining);
      }
    }

    /** Nothing is drawn while the session is inactive; otherwise the text
        last computed and the strip at the current time. */
    function Render(provider: FocusMode.FocusModeProvider, now: int): (r: Option<View>)
      reads this, provider
      ensures r.Some? <==> provider.isActive
      ensures r.Some? ==> r.value.timeLeft == timeLeft && 0.0 <= r.value.width
    {
      if provider.isActive then Some(View(timeLeft, Width(provider.GetRemainingTime(now)))) else None
    }

    /** The emergency-exit button calls `requestExit`. */
    method HandleExitClick(provider: FocusMode.FocusModeProvider)
      modifies provider
      ensures provider.State() == FocusMode.ExitRequested(old(provider.State()))
    {
      provider.RequestExit();
    }
  }
}
