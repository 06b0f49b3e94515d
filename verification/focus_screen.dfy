/** The focus screen's own countdown (`FocusScreen`): a mode, the seconds
    left and a running flag held as screen state, a one-second loop that
    runs while the flag is set, a start/pause button and the mode
    selector. A tick is one pass of the loop; the delay is not modelled. */
module Focus {
  import Text

  datatype TimerMode = Pomodoro | Countdown

  /** `TimerMode.entries`, in declaration order. */
  const Modes: seq<TimerMode> := [Pomodoro, Countdown]

  /** Twenty-five minutes. */
  const InitialSeconds := 25 * 60

  /** A mode button's text. */
  function ModeLabel(mode: TimerMode): (text: string)
    ensures text == "番茄钟" <==> mode == Pomodoro
    ensures text == "倒计时" <==> mode == Countdown
  {
    match mode
    case Pomodoro => "番茄钟"
    case Countdown => "倒计时"
  }

  /** A mode button is enabled unless it is the current mode's. */
  function ModeButtonEnabled(current: TimerMode, mode: TimerMode): (enabled: bool)
    ensures enabled <==> mode != current
  {
    current != mode
  }

  /** Exactly one of the two buttons is disabled: the current mode's. */
  lemma OneButtonDisabled(current: TimerMode)
    ensures forall i :: 0 <= i < |Modes| ==> (!ModeButtonEnabled(current, Modes[i]) <==> Modes[i] == current)
    ensures exists i :: 0 <= i < |Modes| && !ModeButtonEnabled(current, Modes[i])
  {
    if current == Pomodoro {
      assert !ModeButtonEnabled(current, Modes[0]);
    } else {
      assert !ModeButtonEnabled(current, Modes[1]);
    }
  }

  class FocusScreen {
    var timerMode: TimerMode
    var remainingTime: int
    var isRunning: bool

    /** The seconds left stay between 0 and the initial 25 minutes: nothing
        but the loop changes them, and it stops at 0. */
    predicate Valid()
      reads this
    {
      0 <= remainingTime <= InitialSeconds
    }

    constructor ()
      ensures Valid() && timerMode == Pomodoro && remainingTime == InitialSeconds && !isRunning
    {
      timerMode := Pomodoro;
      remainingTime := InitialSeconds;
      isRunning := false;
    }

    /** The big clock: `%02d:%02d` of the minutes and seconds left, which
        within 25 minutes is `MM:SS` and reads back as the seconds left. */
    function Display(): (text: string)
      requires Valid()
      reads this
      ensures |text| == 5 && text[2] == ':'
      ensures Text.AllDigits(text[..2]) && Text.AllDigits(text[3..])
      ensures Text.ParseDigits(text[..2]) * 60 + Text.ParseDigits(text[3..]) == remainingTime
    {
      Text.ClockFaceRoundTrip(remainingTime);
      Text.ClockFace(remainingTime)
    }

    /** One pass of the loop: a second less. */
    method Tick()
      requires Valid() && isRunning && remainingTime > 0
      modifies this
      ensures Valid() && isRunning && remainingTime == old(remainingTime) - 1 && timerMode == old(timerMode)
    {
      remainingTime := remainingTime - 1;
    }

    /** The effect keyed on the running flag, run to its end: while running
        it counts down to 0 and then clears the flag; when not running it
        does nothing. Pressing pause cancels it part-way, which `Tick`
        and `ToggleRunning` model step by step. */
    method RunEffect()
      requires Valid()
      modifies this
      ensures Valid() && timerMode == old(timerMode)
      ensures old(isRunning) ==> remainingTime == 0 && !isRunning
      ensures !old(isRunning) ==> remainingTime == old(remainingTime) && !isRunning
    {
      if isRunning {
        while remainingTime > 0
          invariant Valid() && isRunning && timerMode == old(timerMode)
        {
          Tick();
        }
        isRunning := false;
      }
    }

    /** The start/pause button: only the flag flips. */
    method ToggleRunning()
      requires Valid()
      modifies this
      ensures Valid() && isRunning == !old(isRunning)
      ensures remainingTime == old(remainingTime) && timerMode == old(timerMode)
    {
      isRunning := !isRunning;
    }

    /** A mode button: the disabled one ignores the tap, an enabled one
        selects its mode; either way the mode is then the tapped one and
        neither the time nor the running flag changes. */
    method ClickModeButton(mode: TimerMode)
      requires Valid()
      modifies this
      ensures Valid() && timerMode == mode
      ensures remainingTime == old(remainingTime) && isRunning == old(isRunning)
    {
      if ModeButtonEnabled(timerMode, mode) {
        timerMode := mode;
      }
    }
  }
}
