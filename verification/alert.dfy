/**
 * The alert state machine of the gesture detector, as values.
 *
 * Two states, Inactive and Active, plus the time the alert was last
 * (re)activated and a fixed duration. A trigger always activates and
 * restarts the window; a timeout check deactivates once strictly more than
 * the duration has elapsed since the last trigger.
 */
module AlertMachine {

  /** The alert lasts two seconds after the last trigger. */
  const AlertDurationSeconds: real := 2.0

  datatype AlertState = AlertState(active: bool, startTime: real, duration: real)

  /** The state the detector is created in. */
  const Initial: AlertState := AlertState(false, 0.0, AlertDurationSeconds)

  /** A trigger at time `now`: active, window restarted, duration kept. */
  function Trigger(s: AlertState, now: real): (r: AlertState)
    ensures r.active && r.startTime == now && r.duration == s.duration
    ensures s.duration >= 0.0 ==> Timeout(r, now).active
  {
    s.(active := true, startTime := now)
  }

  /** The timeout check at time `now`. */
  function Timeout(s: AlertState, now: real): (r: AlertState)
    ensures r.startTime == s.startTime && r.duration == s.duration
    ensures r.active ==> s.active
    ensures r.active <==> s.active && now - s.startTime <= s.duration
  {
    if s.active && now - s.startTime > s.duration then s.(active := false) else s
  }

  /**
   * After a trigger at t, a timeout check at u leaves the alert active exactly
   * when u <= t + duration: at t + duration itself it is still active.
   */
  lemma ActiveWindow(s: AlertState, t: real, u: real)
    ensures Timeout(Trigger(s, t), u).active <==> u <= t + s.duration
    ensures Timeout(Trigger(s, t), u).startTime == t
  {
  }

  /** A second trigger replaces the first one's window, whatever the prior state. */
  lemma RetriggerRestartsWindow(s: AlertState, t1: real, t2: real, u: real)
    ensures Trigger(Trigger(s, t1), t2) == Trigger(s, t2)
    ensures Timeout(Trigger(Trigger(s, t1), t2), u).active <==> u <= t2 + s.duration
  {
  }

  /** Checking the timeout twice at the same time changes nothing more. */
  lemma TimeoutIdempotent(s: AlertState, now: real)
    ensures Timeout(Timeout(s, now), now) == Timeout(s, now)
  {
  }
}
