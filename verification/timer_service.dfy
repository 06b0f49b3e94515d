/** The focus timer service (`TimerService`): its state, running flag and
    remaining seconds, changed by start, pause, resume and stop and by the
    one-second tick loops. `startTimer` launches a new loop without
    cancelling the one `timerJob` held before, and pause and stop cancel only
    the loop `timerJob` holds, so earlier loops can go on ticking. They are
    kept here as `orphans`. Notifications, the foreground service and the
    coroutine scheduling are not modelled; a tick is one pass of one loop,
    and any interleaving of ticks and calls is a sequence of method calls. */
module Timer {
  import opened Wrappers
  import Text

  datatype TimerState = Idle | Running | Paused

  class TimerService {
    var remainingSeconds: int
    var isRunning: bool
    var timerState: TimerState
    /** The tick loop `timerJob` holds while it is not cancelled, by its
        `isCountDown` flag; `None` when it is null or cancelled. */
    var timerJob: Option<bool>
    /** Loops launched earlier whose job was replaced in `timerJob` before it
        was cancelled: nothing cancels them, and they tick until a countdown
        among them runs out. */
    var orphans: seq<bool>

    /** The running flag mirrors the state, and the loop `timerJob` holds is
        live exactly while running. Orphaned loops are not bound by this. */
    predicate Valid()
      reads this
    {
      (isRunning <==> timerState == Running) && (timerJob.Some? <==> isRunning)
    }

    /** Every loop still ticking: the orphans, then the one `timerJob` holds. */
    function Loops(): (loops: seq<bool>)
      reads this
      ensures |loops| == |orphans| + (if timerJob.Some? then 1 else 0)
      ensures timerJob.Some? ==> loops[|orphans|] == timerJob.value
    {
      orphans + (if timerJob.Some? then [timerJob.value] else [])
    }

    constructor ()
      ensures Valid() && remainingSeconds == 0 && !isRunning && timerState == Idle
      ensures timerJob == None && orphans == []
    {
      remainingSeconds := 0;
      isRunning := false;
      timerState := Idle;
      timerJob := None;
      orphans := [];
    }

    /** `startTimer`: running, counting down from `totalSeconds` or up from 0,
        under a new loop; a loop that was live in `timerJob` is not cancelled
        and becomes an orphan. */
    method StartTimer(totalSeconds: int, isCountDown: bool)
      modifies this
      ensures Valid() && timerState == Running && isRunning
      ensures remainingSeconds == if isCountDown then totalSeconds else 0
      ensures timerJob == Some(isCountDown)
      ensures orphans == old(Loops())
      ensures Loops() == old(Loops()) + [isCountDown]
    {
      orphans := Loops();
      timerState := Running;
      isRunning := true;
      remainingSeconds := if isCountDown then totalSeconds else 0;
      timerJob := Some(isCountDown);
    }

    /** `pauseTimer`: the loop `timerJob` holds is cancelled and the time
        kept; orphaned loops are untouched. */
    method PauseTimer()
      modifies this
      ensures Valid() && timerState == Paused && !isRunning && timerJob == None
      ensures remainingSeconds == old(remainingSeconds) && orphans == old(orphans)
    {
      timerJob := None;
      timerState := Paused;
      isRunning := false;
    }

    /** `resumeTimer`: a fresh start with the given arguments, so a
        count-up timer restarts from 0 whatever seconds are given. */
    method ResumeTimer(seconds: int, isCountDown: bool)
      modifies this
      ensures Valid() && timerState == Running && isRunning && timerJob == Some(isCountDown)
      ensures isCountDown ==> remainingSeconds == seconds
      ensures !isCountDown ==> remainingSeconds == 0
      ensures Loops() == old(Loops()) + [isCountDown]
    {
      StartTimer(seconds, isCountDown);
    }

    /** `stopTimer`: from any state back to idle at 0, cancelling the loop
        `timerJob` holds; orphaned loops are untouched. */
    method StopTimer()
      modifies this
      ensures Valid() && timerState == Idle && !isRunning && remainingSeconds == 0 && timerJob == None
      ensures orphans == old(orphans)
    {
      timerJob := None;
      timerState := Idle;
      isRunning := false;
      remainingSeconds := 0;
    }

    /** One pass of loop `k` of `Loops()`: a countdown loop takes a second
        off the shared counter and, on reaching 0 or less, calls `stopTimer`
        and ends; a count-up loop adds a second. */
    method Tick(k: nat)
      requires Valid() && k < |Loops()|
      modifies this
      ensures Valid()
      ensures old(Loops()[k]) && old(remainingSeconds) - 1 <= 0 ==>
        timerState == Idle && !isRunning && remainingSeconds == 0 && timerJob == None &&
        orphans == if k < old(|orphans|) then old(orphans[..k] + orphans[k + 1..]) else old(orphans)
      ensures old(Loops()[k]) && old(remainingSeconds) - 1 > 0 ==>
        remainingSeconds == old(remainingSeconds) - 1 && unchanged(`timerState, `isRunning, `timerJob, `orphans)
      ensures !old(Loops()[k]) ==>
        remainingSeconds == old(remainingSeconds) + 1 && unchanged(`timerState, `isRunning, `timerJob, `orphans)
    {
      var isCountDown := Loops()[k];
      if isCountDown {
        remainingSeconds := remainingSeconds - 1;
        if remainingSeconds <= 0 {
          if k < |orphans| {
            orphans := orphans[..k] + orphans[k + 1..];
          }
          StopTimer();
          return;
        }
      } else {
        remainingSeconds := remainingSeconds + 1;
      }
    }

    /** `ticks` seconds of the loop `timerJob` holds, with no orphan ticking
        in between, or fewer when it stops itself: a countdown from `r` has
        `r - ticks` left while `ticks < r`, and is stopped at 0 once at least
        one tick has run and `ticks` reaches `r`; a count-up has gained
        `ticks` and runs on. Orphans are left as they were. */
    method RunTicks(ticks: nat)
      requires Valid() && timerJob.Some?
      modifies this
      ensures Valid() && orphans == old(orphans)
      ensures old(timerJob) == Some(true) && old(remainingSeconds) > ticks ==>
        timerState == Running && remainingSeconds == old(remainingSeconds) - ticks
      ensures old(timerJob) == Some(true) && 0 < ticks && old(remainingSeconds) <= ticks ==>
        timerState == Idle && !isRunning && remainingSeconds == 0
      ensures old(timerJob) == Some(false) ==>
        timerState == Running && remainingSeconds == old(remainingSeconds) + ticks
    {
      var start := remainingSeconds;
      var countDown := timerJob.value;
      var done := 0;
      while done < ticks && timerJob.Some?
        invariant Valid() && 0 <= done <= ticks && orphans == old(orphans)
        invariant timerJob.Some? ==> timerJob == Some(countDown) && timerState == Running
        invariant countDown && timerJob.Some? ==> remainingSeconds == start - done && (done > 0 ==> remainingSeconds > 0)
        invariant countDown && timerJob.None? ==> 0 < done && start <= done && remainingSeconds == 0 && timerState == Idle
        invariant !countDown ==> timerJob.Some? && remainingSeconds == start + done
        decreases ticks - done
      {
        Tick(|orphans|);
        done := done + 1;
      }
    }

    /** The notification text: `formatTime` of the remaining seconds. */
    function FormatTime(): (text: string)
      reads this
      ensures 0 <= remainingSeconds < 6000 ==>
        |text| == 5 && text[2] == ':' && Text.AllDigits(text[..2]) && Text.AllDigits(text[3..]) &&
        Text.ParseDigits(text[..2]) * 60 + Text.ParseDigits(text[3..]) == remainingSeconds
    {
      if remainingSeconds < 0 then Text.ClockFace(remainingSeconds)
      else
        Text.ClockFaceRoundTrip(remainingSeconds);
        Text.ClockFace(remainingSeconds)
    }
  }

  /** Starting twice and pausing leaves the first count-up loop running: the
      service reports PAUSED and not running while the seconds still climb. */
  method PausedTimerStillCounts() returns (t: TimerService)
    ensures t.timerState == Paused && !t.isRunning
    ensures t.orphans == [false] && t.remainingSeconds == 1
  {
    t := new TimerService();
    t.StartTimer(0, false);
    t.StartTimer(0, false);
    t.PauseTimer();
    t.Tick(0);
  }

  /** A countdown restarted as a count-up leaves the countdown loop running
      on the shared counter; its next tick takes the fresh count-up below
      zero, calls `stopTimer`, and the new timer is idle after one second. */
  method OrphanCountdownStopsNewTimer() returns (t: TimerService)
    ensures t.timerState == Idle && !t.isRunning && t.timerJob == None
    ensures t.orphans == [] && t.remainingSeconds == 0
  {
    t := new TimerService();
    t.StartTimer(1500, true);
    t.StartTimer(0, false);
    t.Tick(0);
  }
}
