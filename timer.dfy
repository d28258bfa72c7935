/// The press-and-release timer of the terminal app (`pesto-term/src/timer.rs`).
/// Holding the key arms the timer, releasing it starts the solve, and the
/// next press stops it.  The clock is not read here: every transition is
/// given the current instant `now`, and instants and durations are counts of
/// one clock unit.
module Timer {
  import opened Wrappers

  datatype TimerState =
    | Idle
    | Pressed(pressStart: nat)
    | Running(start: nat)
    | Stopped(time: nat, stoppedInstant: nat)

  /// `Instant::duration_since`, which saturates at zero for an earlier
  /// instant.
  function Since(now: nat, earlier: nat): (d: nat)
    ensures now >= earlier ==> d + earlier == now
    ensures now < earlier ==> d == 0
  {
    if now >= earlier then now - earlier else 0
  }

  /// The state after a press at `now`, and the measured time when the press
  /// stops a running solve.
  function PressStep(s: TimerState, now: nat, minStopDuration: nat): (r: (TimerState, Option<nat>))
  {
    match s
    case Idle => (Pressed(now), None)
    case Pressed(_) => (s, None)
    case Running(start) => (Stopped(Since(now, start), now), Some(Since(now, start)))
    case Stopped(_, stoppedInstant) =>
      (if Since(now, stoppedInstant) >= minStopDuration then Pressed(now) else s, None)
  }

  /// The state after a release at `now`.
  function ReleaseStep(s: TimerState, now: nat, minPressDuration: nat): (r: TimerState)
  {
    match s
    case Pressed(pressStart) =>
      if Since(now, pressStart) < minPressDuration then Idle else Running(now)
    case _ => s
  }

  /// A press reports a time exactly when it stops a running timer, and that
  /// time is how long the timer ran; a press never leaves the timer running,
  /// and only a stop moves it to Stopped.
  lemma PressReportsOnlyStops(s: TimerState, now: nat, minStop: nat)
    ensures var (t, r) := PressStep(s, now, minStop);
      (r.Some? <==> s.Running?) &&
      (s.Running? && now >= s.start ==> r == Some(now - s.start)) &&
      !t.Running? &&
      (t.Stopped? && !s.Stopped? ==> s.Running? && t.time == r.value)
  {
  }

  /// A release never reports anything and can only leave Pressed: it is the
  /// only transition that starts the timer, and it starts it at `now`.
  lemma ReleaseOnlyStarts(s: TimerState, now: nat, minPress: nat)
    ensures var t := ReleaseStep(s, now, minPress);
      (t != s ==> s.Pressed?) &&
      (t.Running? && !s.Running? ==> s.Pressed? && t.start == now) &&
      (s.Pressed? ==> t.Idle? || t.Running?)
  {
  }

  /// A whole solve: from Idle, pressed at `t0`, released at `t1` after a
  /// long enough press, and pressed again at `t2`, the timer reports
  /// `t2 - t1`, the time between release and the stopping press.
  lemma SolveCycle(t0: nat, t1: nat, t2: nat, minPress: nat, minStop: nat)
    requires t0 <= t1 <= t2 && t1 - t0 >= minPress
    ensures var (s1, r1) := PressStep(Idle, t0, minStop);
      var s2 := ReleaseStep(s1, t1, minPress);
      var (s3, r3) := PressStep(s2, t2, minStop);
      r1 == None && s2 == Running(t1) && r3 == Some(t2 - t1) && s3 == Stopped(t2 - t1, t2)
  {
  }

  /// A press released too early goes back to Idle without starting.
  lemma ShortPressCancels(t0: nat, t1: nat, minPress: nat, minStop: nat)
    requires t0 <= t1 && t1 - t0 < minPress
    ensures ReleaseStep(PressStep(Idle, t0, minStop).0, t1, minPress) == Idle
  {
  }

  /// `Timer`: the state, changed in place by each key event.
  class Timer {
    var state: TimerState

    /// `Default`: Idle.
    constructor ()
      ensures state == Idle
    {
      state := Idle;
    }

    /// `press`.
    method Press(now: nat, minStopDuration: nat) returns (r: Option<nat>)
      modifies this
      ensures (state, r) == PressStep(old(state), now, minStopDuration)
      ensures old(state).Idle? ==> state == Pressed(now) && r == None
      ensures old(state).Pressed? ==> state == old(state) && r == None
      ensures old(state).Running? ==> r == Some(Since(now, old(state).start)) && state == Stopped(r.value, now)
      ensures old(state).Stopped? ==> (r == None &&
        state == if Since(now, old(state).stoppedInstant) >= minStopDuration then Pressed(now) else old(state))
    {
      match state
      case Idle =>
        state := Pressed(now);
        r := None;
      case Pressed(_) =>
        r := None;
      case Running(start) =>
        var time := Since(now, start);
        state := Stopped(time, now);
        r := Some(time);
      case Stopped(_, stoppedInstant) =>
        if Since(now, stoppedInstant) >= minStopDuration {
          state := Pressed(now);
        }
        r := None;
    }

    /// `release`.
    method Release(now: nat, minPressDuration: nat)
      modifies this
      ensures state == ReleaseStep(old(state), now, minPressDuration)
      ensures old(state).Pressed? ==> (
        state == if Since(now, old(state).pressStart) < minPressDuration then Idle else Running(now))
      ensures !old(state).Pressed? ==> state == old(state)
    {
      match state
      case Pressed(pressStart) =>
        if Since(now, pressStart) < minPressDuration {
          state := Idle;
        } else {
          state := Running(now);
        }
      case _ =>
    }

    predicate IsPressed()
      reads this
      ensures IsPressed() <==> state.Pressed?
    {
      state.Pressed?
    }

    predicate IsRunning()
      reads this
      ensures IsRunning() <==> state.Running?
    {
      state.Running?
    }
  }
}
