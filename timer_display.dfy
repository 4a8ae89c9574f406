/**
 * The countdown shown while a round's timer runs. Once a second the display
 * steps the remaining time down; at the last second it stops its interval,
 * reports completion and shows zero. Switching the timer off puts the full
 * duration back. The remaining time is shown as minutes and two-digit seconds.
 */
module TimerDisplay {
  import opened Wrappers
  import opened Numerals

  /**
   * The display's state: seconds left, whether its one-second interval is
   * scheduled, and how many times it has reported completion.
   */
  datatype Countdown = Countdown(timeLeft: nat, intervalRunning: bool, completions: nat)

  /** One firing of the interval. */
  function Tick(c: Countdown): (r: Countdown)
    ensures !c.intervalRunning ==> r == c
    ensures c.intervalRunning && c.timeLeft <= 1 ==> r == Countdown(0, false, c.completions + 1)
    ensures c.intervalRunning && c.timeLeft > 1 ==> r == Countdown(c.timeLeft - 1, true, c.completions)
  {
    if !c.intervalRunning then c
    else if c.timeLeft <= 1 then Countdown(0, false, c.completions + 1)
    else Countdown(c.timeLeft - 1, true, c.completions)
  }

  /**
   * The effect that runs whenever `isActive` or `duration` changes: an inactive
   * timer shows the full duration again and has no interval; an active one
   * replaces its interval and keeps the time it shows.
   */
  function Sync(c: Countdown, duration: nat, isActive: bool): (r: Countdown)
    ensures !isActive ==> r == Countdown(duration, false, c.completions)
    ensures isActive ==> r == Countdown(c.timeLeft, true, c.completions)
  {
    if !isActive then Countdown(duration, false, c.completions)
    else c.(intervalRunning := true)
  }

  /** `n` firings of the interval in a row. */
  function Ticks(c: Countdown, n: nat): Countdown
    decreases n
  {
    if n == 0 then c else Ticks(Tick(c), n - 1)
  }

  /** A stopped countdown stays as it is, however long one waits. */
  lemma {:induction false} StoppedStaysPut(c: Countdown, n: nat)
    requires !c.intervalRunning
    ensures Ticks(c, n) == c
  {
    if n > 0 {
      StoppedStaysPut(Tick(c), n - 1);
    }
  }

  /**
   * Started with `d` seconds left, the countdown shows `d - n` after `n < d`
   * seconds, and from second `d` on it shows zero, has stopped and has
   * reported completion exactly once.
   */
  lemma {:induction false} CountdownCompletesOnce(d: nat, k: nat, n: nat)
    requires d >= 1
    ensures n < d ==> Ticks(Countdown(d, true, k), n) == Countdown(d - n, true, k)
    ensures n >= d ==> Ticks(Countdown(d, true, k), n) == Countdown(0, false, k + 1)
  {
    if n > 0 {
      if d == 1 {
        StoppedStaysPut(Countdown(0, false, k + 1), n - 1);
      } else {
        CountdownCompletesOnce(d - 1, k, n - 1);
      }
    }
  }

  /** Time shown never goes up between resets, and completions are never taken back. */
  lemma {:induction false} TicksNeverRaise(c: Countdown, n: nat)
    ensures Ticks(c, n).timeLeft <= c.timeLeft
    ensures Ticks(c, n).completions >= c.completions
    ensures Ticks(c, n).completions <= c.completions + 1
    decreases n
  {
    if n > 0 {
      var next := Tick(c);
      if c.intervalRunning && c.timeLeft <= 1 {
        StoppedStaysPut(next, n - 1);
      } else {
        TicksNeverRaise(next, n - 1);
      }
    }
  }

  /** Switching the timer off always shows the full duration, whatever came before. */
  lemma ResetRestoresDuration(c: Countdown, duration: nat, n: nat)
    ensures Ticks(Sync(c, duration, false), n).timeLeft == duration
  {
    StoppedStaysPut(Sync(c, duration, false), n);
  }

  /** `s` left-padded with `pad` up to `width` characters. */
  function PadStart(s: string, width: nat, pad: char): (r: string)
    ensures |r| == if |s| < width then width else |s|
    ensures r[|r| - |s|..] == s
    ensures forall i :: 0 <= i < |r| - |s| ==> r[i] == pad
  {
    if |s| < width then seq(width - |s|, _ => pad) + s else s
  }

  /** The shown time: whole minutes, a colon, then seconds padded to two digits. */
  function FormatTime(timeLeft: nat): string {
    NatToString(timeLeft / 60) + ":" + PadStart(NatToString(timeLeft % 60), 2, '0')
  }

  /** A reading of the shown text: minutes before the colon, two-digit seconds below 60 after it. */
  function ParseTime(s: string): (r: Option<nat>)
    ensures r.Some? ==> |s| >= 4 && s[|s| - 3] == ':'
  {
    if |s| < 4 || s[|s| - 3] != ':' then None
    else
      match (ParseNat(s[..|s| - 3]), ParseNat(s[|s| - 2..]))
      case (Some(m), Some(sec)) => if sec < 60 then Some(m * 60 + sec) else None
      case _ => None
  }

  /** Two digits, a leading zero allowed, denote the number they spell. */
  lemma TwoDigitsValue(s: string)
    requires |s| == 2 && IsDigit(s[0]) && IsDigit(s[1])
    ensures ParseNat(s) == Some(DigitValue(s[0]) * 10 + DigitValue(s[1]))
  {
    var hi := s[..1];
    assert hi[..0] == [];
    assert DigitsValue(hi) == DigitValue(s[0]);
    assert s[..|s| - 1] == hi;
  }

  /** The seconds field is always two digits and reads back as the seconds. */
  lemma SecondsField(sec: nat)
    requires sec < 60
    ensures var p := PadStart(NatToString(sec), 2, '0');
      |p| == 2 && ParseNat(p) == Some(sec)
  {
    var t := NatToString(sec);
    var p := PadStart(t, 2, '0');
    if sec < 10 {
      assert p == ['0', t[0]];
      assert t[..0] == [];
      TwoDigitsValue(p);
    } else {
      assert p == t;
    }
  }

  /** Minutes, a colon and a two-digit seconds field read back as their total. */
  lemma ParseTimeParts(m: string, p: string, sec: nat)
    requires IsDigits(m) && |p| == 2 && ParseNat(p) == Some(sec) && sec < 60
    ensures ParseTime(m + ":" + p) == Some(DigitsValue(m) * 60 + sec)
  {
    var s := m + ":" + p;
    assert s[..|s| - 3] == m;
    assert s[|s| - 3] == ':';
    assert s[|s| - 2..] == p;
  }

  /** The shown text determines the time: reading it back gives the seconds left. */
  lemma FormatTimeRoundTrip(timeLeft: nat)
    ensures ParseTime(FormatTime(timeLeft)) == Some(timeLeft)
  {
    var minutes := timeLeft / 60;
    var seconds := timeLeft % 60;
    var m := NatToString(minutes);
    var p := PadStart(NatToString(seconds), 2, '0');
    assert ParseTime(m + ":" + p) == Some(DigitsValue(m) * 60 + seconds) by {
      SecondsField(seconds);
      ParseTimeParts(m, p, seconds);
    }
    assert DigitsValue(m) * 60 + seconds == timeLeft by {
      MinutesAndSeconds(timeLeft);
    }
    assert FormatTime(timeLeft) == m + ":" + p;
  }

  lemma MinutesAndSeconds(t: nat)
    ensures (t / 60) * 60 + t % 60 == t
  {
  }

  lemma FormatTimeExamples()
    ensures FormatTime(65) == "1:05"
    ensures FormatTime(600) == "10:00"
  {
    assert NatToString(1) == "1";
    assert NatToString(5) == "5";
    assert NatToString(10) == "10";
    assert NatToString(0) == "0";
  }

  /**
   * The low-time warning: under a quarter of the duration left while the
   * timer is active. With a zero duration the shown percentage is not a
   * number and the warning stays off.
   */
  predicate ShowsWarning(timeLeft: nat, duration: nat, isActive: bool) {
    isActive && duration > 0 && 4 * timeLeft < duration
  }

  /** The warning comes on once and for all during a countdown. */
  lemma WarningStaysOn(c: Countdown, duration: nat)
    requires ShowsWarning(c.timeLeft, duration, true)
    ensures ShowsWarning(Tick(c).timeLeft, duration, true)
  {
  }

  /** The timer component: its props, the state it keeps and the interval it schedules. */
  class Display {
    var duration: nat
    var isActive: bool
    var timeLeft: nat
    var intervalRunning: bool
    var completions: nat

    function State(): Countdown
      reads this
    {
      Countdown(timeLeft, intervalRunning, completions)
    }

    /** First render: the state starts at the duration, then the effect runs once. */
    constructor (duration: nat, isActive: bool)
      ensures this.duration == duration && this.isActive == isActive
      ensures State() == Sync(Countdown(duration, false, 0), duration, isActive)
    {
      this.duration := duration;
      this.isActive := isActive;
      timeLeft := duration;
      intervalRunning := isActive;
      completions := 0;
    }

    /** New props: the effect re-runs, clearing the old interval first. */
    method SetProps(newDuration: nat, newActive: bool)
      modifies this
      ensures duration == newDuration && isActive == newActive
      ensures State() == Sync(old(State()), newDuration, newActive)
    {
      duration := newDuration;
      isActive := newActive;
      if !newActive {
        timeLeft := newDuration;
        intervalRunning := false;
      } else {
        intervalRunning := true;
      }
    }

    /** One second passes. */
    method OnInterval()
      modifies this
      ensures State() == Tick(old(State()))
      ensures duration == old(duration) && isActive == old(isActive)
    {
      if intervalRunning {
        if timeLeft <= 1 {
          intervalRunning := false;
          completions := completions + 1;
          timeLeft := 0;
        } else {
          timeLeft := timeLeft - 1;
        }
      }
    }

    method Render() returns (text: string, warning: bool)
      ensures text == FormatTime(timeLeft)
      ensures warning == ShowsWarning(timeLeft, duration, isActive)
    {
      var minutes := timeLeft / 60;
      var seconds := timeLeft % 60;
      text := NatToString(minutes) + ":" + PadStart(NatToString(seconds), 2, '0');
      warning := isActive && duration > 0 && 4 * timeLeft < duration;
    }
  }
}
