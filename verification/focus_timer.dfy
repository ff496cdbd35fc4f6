/** The Pomodoro focus timer of the web client: a countdown of minutes and
    seconds that alternates between a 25-minute focus phase and a 5-minute
    break, advanced by a once-per-second tick while it is running. */
module FocusTimer {
  import opened Wrappers
  import opened Text

  const FocusMinutes: nat := 25
  const BreakMinutes: nat := 5

  datatype TimerState = TimerState(minutes: int, seconds: int, isActive: bool, isBreak: bool)

  /** The state the timer starts in, and the one `Reset` returns to. */
  const Initial := TimerState(FocusMinutes, 0, false, false)

  /** Seconds left on the clock. */
  function Remaining(s: TimerState): int {
    s.minutes * 60 + s.seconds
  }

  /** Length in seconds of the phase selected by `isBreak`. */
  function PhaseSeconds(isBreak: bool): nat {
    (if isBreak then BreakMinutes else FocusMinutes) * 60
  }

  /** A well-formed clock: seconds in [0, 59] and no more time left than the phase holds. */
  predicate Valid(s: TimerState) {
    && 0 <= s.seconds <= 59
    && 0 <= s.minutes
    && Remaining(s) <= PhaseSeconds(s.isBreak)
  }

  /** One second of wall-clock time. The interval runs only while the timer is
      active; it counts down, borrowing a minute when the seconds are at zero,
      and at 00:00 stops the timer and switches phase. */
  function Tick(s: TimerState): (r: TimerState)
    ensures !s.isActive ==> r == s
    ensures s.isActive && Remaining(s) != 0 && Valid(s) ==>
      r.isActive && r.isBreak == s.isBreak && Remaining(r) == Remaining(s) - 1 && Valid(r)
    ensures s.isActive && s.minutes == 0 && s.seconds == 0 ==>
      !r.isActive && r.isBreak == !s.isBreak && Remaining(r) == PhaseSeconds(r.isBreak) && Valid(r)
  {
    if !s.isActive then s
    else if s.seconds == 0 then
      if s.minutes == 0 then
        TimerState(if s.isBreak then FocusMinutes else BreakMinutes, 0, false, !s.isBreak)
      else
        s.(minutes := s.minutes - 1, seconds := 59)
    else
      s.(seconds := s.seconds - 1)
  }

  /** The three branches of a running tick, field by field: counting moves only
      the clock, and completion stops the timer at the other phase's full length. */
  lemma TickCounts(s: TimerState)
    requires s.isActive
    ensures s.seconds != 0 ==> Tick(s) == s.(seconds := s.seconds - 1)
    ensures s.seconds == 0 && s.minutes != 0 ==> Tick(s) == s.(minutes := s.minutes - 1, seconds := 59)
    ensures !(s.seconds == 0 && s.minutes == 0) ==> Remaining(Tick(s)) == Remaining(s) - 1
    ensures s.seconds == 0 && s.minutes == 0 ==>
      Tick(s) == TimerState(PhaseMinutes(!s.isBreak), 0, false, !s.isBreak)
  {
  }

  /** The start/pause button. */
  function Toggle(s: TimerState): (r: TimerState)
    ensures r.isActive == !s.isActive
    ensures r.(isActive := s.isActive) == s
  {
    s.(isActive := !s.isActive)
  }

  lemma ToggleInvolution(s: TimerState)
    ensures Toggle(Toggle(s)) == s
    ensures Valid(Toggle(s)) == Valid(s)
  {
  }

  /** The reset button: a stopped, full focus phase, whatever the state was. */
  function Reset(s: TimerState): (r: TimerState)
    ensures !r.isActive && !r.isBreak
    ensures r.seconds == 0 && Remaining(r) == PhaseSeconds(false)
  {
    Initial
  }

  lemma InitialIsFullFocusPhase()
    ensures Valid(Initial) && !Initial.isActive && !Initial.isBreak
    ensures Remaining(Initial) == PhaseSeconds(false) == 1500
  {
  }

  // ---------------------------------------------------------------------------
  // Reachable states
  // ---------------------------------------------------------------------------

  /** What can happen to the timer: a second elapses, or a button is pressed. */
  datatype Event = Second | StartPause | ResetPressed

  function Step(s: TimerState, e: Event): TimerState {
    match e
    case Second => Tick(s)
    case StartPause => Toggle(s)
    case ResetPressed => Reset(s)
  }

  function Run(s: TimerState, events: seq<Event>): TimerState
    decreases |events|
  {
    if events == [] then s else Run(Step(s, events[0]), events[1..])
  }

  /** Every state reachable from the initial one is well formed; in particular
      seconds stay in [0, 59] and minutes in [0, 25]. */
  lemma {:induction false} ReachableValid(s: TimerState, events: seq<Event>)
    requires Valid(s)
    ensures Valid(Run(s, events))
    ensures 0 <= Run(s, events).seconds <= 59 && 0 <= Run(s, events).minutes <= FocusMinutes
    decreases |events|
  {
    if events != [] {
      ReachableValid(Step(s, events[0]), events[1..]);
    } else {
      assert Run(s, events).minutes * 60 <= 1500;
    }
  }

  lemma ReachableFromInitialValid(events: seq<Event>)
    ensures Valid(Run(Initial, events))
    ensures 0 <= Run(Initial, events).seconds <= 59 && 0 <= Run(Initial, events).minutes <= FocusMinutes
  {
    ReachableValid(Initial, events);
  }

  // ---------------------------------------------------------------------------
  // Counting down a whole phase
  // ---------------------------------------------------------------------------

  /** `n` consecutive seconds. */
  function Ticks(s: TimerState, n: nat): TimerState
    decreases n
  {
    if n == 0 then s else Tick(Ticks(s, n - 1))
  }

  /** The clock showing `t` seconds, with the other fields of `s`. */
  function ShowingSeconds(s: TimerState, t: nat): (r: TimerState)
    ensures Remaining(r) == t && 0 <= r.seconds <= 59
  {
    s.(minutes := t / 60, seconds := t % 60)
  }

  /** Running from a well-formed active state, after `k` ticks (at most the
      time remaining) the timer is still active in the same phase and shows
      exactly `k` seconds less. */
  lemma {:induction false} CountDown(s: TimerState, k: nat)
    requires Valid(s) && s.isActive
    requires k <= Remaining(s)
    ensures Ticks(s, k) == ShowingSeconds(s, Remaining(s) - k)
    decreases k
  {
    if k == 0 {
      ClockFields(Remaining(s), s.minutes, s.seconds);
    } else {
      CountDown(s, k - 1);
      TickShowing(s, Remaining(s) - (k - 1));
    }
  }

  /** One tick of a running clock that shows `t > 0` seconds shows `t - 1`. */
  lemma TickShowing(s: TimerState, t: nat)
    requires Valid(s) && s.isActive
    requires 0 < t <= Remaining(s)
    ensures Tick(ShowingSeconds(s, t)) == ShowingSeconds(s, t - 1)
  {
    var prev := ShowingSeconds(s, t);
    assert Valid(prev) && prev.isActive && Remaining(prev) != 0;
    var next := Tick(prev);
    assert Remaining(next) == t - 1 && Valid(next);
    ClockFields(t - 1, next.minutes, next.seconds);
  }

  /** The minutes and seconds of a well-formed clock are determined by the time left. */
  lemma ClockFields(t: int, minutes: int, seconds: int)
    requires t == minutes * 60 + seconds && 0 <= seconds <= 59
    ensures minutes == t / 60 && seconds == t % 60
  {
  }

  /** From an active m:s, exactly m*60+s ticks reach 00:00 and the next one
      stops the timer and starts the other phase at its full length. */
  lemma PhaseCompletes(s: TimerState)
    requires Valid(s) && s.isActive
    ensures var atZero := Ticks(s, Remaining(s));
      atZero.minutes == 0 && atZero.seconds == 0 && atZero.isActive && atZero.isBreak == s.isBreak
    ensures Ticks(s, Remaining(s) + 1) ==
      TimerState(if s.isBreak then FocusMinutes else BreakMinutes, 0, false, !s.isBreak)
  {
    CountDown(s, Remaining(s));
  }

  /** No tick before the last one completes the phase: the timer runs through
      every count from m*60+s down to 1 without stopping. */
  lemma NoEarlyCompletion(s: TimerState, k: nat)
    requires Valid(s) && s.isActive
    requires k < Remaining(s)
    ensures Ticks(s, k).isActive && Ticks(s, k).isBreak == s.isBreak
    ensures Remaining(Ticks(s, k)) == Remaining(s) - k > 0
  {
    CountDown(s, k);
  }

  /** Once stopped, the timer does not move until started again. */
  lemma {:induction false} StoppedStaysPut(s: TimerState, n: nat)
    requires !s.isActive
    ensures Ticks(s, n) == s
    decreases n
  {
    if n > 0 {
      StoppedStaysPut(s, n - 1);
    }
  }

  /** Minutes on the clock at the start of the phase selected by `isBreak`. */
  function PhaseMinutes(isBreak: bool): nat {
    if isBreak then BreakMinutes else FocusMinutes
  }

  /** Starting a phase at its full length, one tick per second of it reaches
      00:00 and one more stops the timer at the full length of the other phase. */
  lemma FullPhase(isBreak: bool)
    ensures var start := TimerState(PhaseMinutes(isBreak), 0, true, isBreak);
      Ticks(start, Remaining(start) + 1) == TimerState(PhaseMinutes(!isBreak), 0, false, !isBreak)
  {
    PhaseCompletes(TimerState(PhaseMinutes(isBreak), 0, true, isBreak));
  }

  /** A started focus phase is still running after 1500 ticks and completes on
      the 1501st, stopped at a full break. */
  lemma FocusTickCount()
    ensures Ticks(Toggle(Initial), 1500).isActive
    ensures Ticks(Toggle(Initial), 1501) == TimerState(BreakMinutes, 0, false, true)
  {
    var focus := Toggle(Initial);
    assert Remaining(focus) == 1500;
    PhaseCompletes(focus);
  }

  /** A break started from there completes on its 301st tick, back at the
      initial state. */
  lemma BreakTickCount()
    ensures Ticks(Toggle(TimerState(BreakMinutes, 0, false, true)), 300).isActive
    ensures Ticks(Toggle(TimerState(BreakMinutes, 0, false, true)), 301) == Initial
  {
    var rest := Toggle(TimerState(BreakMinutes, 0, false, true));
    assert Remaining(rest) == 300;
    PhaseCompletes(rest);
  }

  // ---------------------------------------------------------------------------
  // Display
  // ---------------------------------------------------------------------------

  /** One field of the display: the number zero-padded to at least two characters. */
  function Field(n: int): string {
    PadStart(Decimal(n), 2, '0')
  }

  /** The `MM:SS` display. */
  function FormatTime(mins: int, secs: int): string {
    Field(mins) + ":" + Field(secs)
  }

  /** Reads a display back: two runs of digits around the first colon. */
  function ParseTime(t: string): Option<(nat, nat)> {
    match Find(t, ":", 0)
    case None => None
    case Some(i) =>
      var mm := t[..i];
      var ss := t[i + 1..];
      if mm != [] && ss != [] && AllDigits(mm) && AllDigits(ss)
      then Some((ParseDigits(mm), ParseDigits(ss)))
      else None
  }

  /** A field is at least two characters, and exactly two below 100. */
  lemma FieldWidth(n: nat)
    ensures |Field(n)| >= 2 && (n <= 99 ==> |Field(n)| == 2)
  {
    if 10 <= n <= 99 {
      assert n / 10 < 10;
      assert |Digits(n)| == |Digits(n / 10)| + 1 == 2;
    }
  }

  /** A field of a non-negative number is all digits and parses back to it. */
  lemma FieldValue(n: nat)
    ensures AllDigits(Field(n)) && ParseDigits(Field(n)) == n
  {
    ParseDigitsZeroPadded(Digits(n), 2);
    ParseDigitsOfDigits(n);
  }

  /** The first colon after a run of digits is the one right after it. */
  lemma ColonAfterDigits(a: string, b: string)
    requires AllDigits(a)
    ensures Find(a + ":" + b, ":", 0) == Some(|a|)
  {
    var t := a + ":" + b;
    assert OccursAt(t, ":", |a|) by {
      assert t[|a|..|a| + 1] == ":";
    }
    forall j | 0 <= j < |a|
      ensures !OccursAt(t, ":", j)
    {
      assert t[j..j + 1][0] == a[j];
    }
  }

  /** For fields below 100 the display is exactly five characters, `MM:SS`. */
  lemma FormatTimeShape(mins: nat, secs: nat)
    requires mins <= 99 && secs <= 99
    ensures var r := FormatTime(mins, secs);
      |r| == 5 && r[2] == ':' && IsDigit(r[0]) && IsDigit(r[1]) && IsDigit(r[3]) && IsDigit(r[4])
  {
    FieldWidth(mins);
    FieldWidth(secs);
    FieldValue(mins);
    FieldValue(secs);
    TwoDigitFields(Field(mins), Field(secs));
  }

  lemma TwoDigitFields(m: string, s: string)
    requires |m| == 2 && |s| == 2 && AllDigits(m) && AllDigits(s)
    ensures var r := m + ":" + s;
      |r| == 5 && r[2] == ':' && IsDigit(r[0]) && IsDigit(r[1]) && IsDigit(r[3]) && IsDigit(r[4])
  {
  }

  /** Every display of non-negative fields parses back to the same fields. */
  lemma FormatTimeRoundTrip(mins: nat, secs: nat)
    ensures ParseTime(FormatTime(mins, secs)) == Some((mins, secs))
  {
    FieldValue(mins);
    FieldValue(secs);
    FieldWidth(mins);
    FieldWidth(secs);
    ParseDisplay(Field(mins), Field(secs));
  }

  lemma ParseDisplay(m: string, s: string)
    requires m != [] && s != [] && AllDigits(m) && AllDigits(s)
    ensures ParseTime(m + ":" + s) == Some((ParseDigits(m), ParseDigits(s)))
  {
    var t := m + ":" + s;
    ColonAfterDigits(m, s);
    assert t[..|m|] == m;
    assert t[|m| + 1..] == s;
  }
}
