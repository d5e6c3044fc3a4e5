/**
 * The decision part of one frame: counting faces and hands, looking for a
 * left-hand fist, and advancing the alert (trigger first, timeout check second).
 * The landmark provider's output for the frame is an input; the clock reading
 * for the frame is the parameter `now`.
 */
module Frames {
  import opened Classifier
  import opened AlertMachine

  /** A face region as reported by the face detector; only how many there are matters. */
  datatype FaceRegion = FaceRegion(xmin: real, ymin: real, width: real, height: real)

  /** One detected hand: its landmarks and the provider's handedness label. */
  datatype HandObservation = HandObservation(landmarks: HandLandmarks, handedness: string)

  /**
   * What the providers return for one frame. `handednessReported` is false when
   * the hand detector gave no handedness list, in which case no label is read.
   */
  datatype Frame = Frame(faces: seq<FaceRegion>, hands: seq<HandObservation>, handednessReported: bool)

  /** The per-frame detection summary. */
  datatype DetectionInfo = DetectionInfo(facesDetected: nat, handsDetected: nat, leftFistDetected: bool)

  const LeftLabel: string := "Left"

  /** The trigger condition for one hand of the frame. */
  predicate IsLeftFist(f: Frame, h: HandObservation)
  {
    f.handednessReported && h.handedness == LeftLabel && IsFist(h.landmarks)
  }

  /** Whether one of the first n hands of the frame is a left fist. */
  function LeftFistAmong(f: Frame, n: nat): (r: bool)
    requires n <= |f.hands|
    ensures r <==> exists i :: 0 <= i < n && IsLeftFist(f, f.hands[i])
  {
    if n == 0 then false
    else LeftFistAmong(f, n - 1) || IsLeftFist(f, f.hands[n - 1])
  }

  /** Whether this frame triggers the alert. */
  function LeftFistDetected(f: Frame): (r: bool)
    ensures r <==> exists h :: h in f.hands && IsLeftFist(f, h)
    ensures !f.handednessReported ==> !r
  {
    LeftFistAmong(f, |f.hands|)
  }

  /**
   * The detection summary of a frame: the counts, and whether some hand
   * labelled "Left" is a fist; it does not depend on the alert state.
   */
  function Summarize(f: Frame): (r: DetectionInfo)
    ensures r.facesDetected == |f.faces| && r.handsDetected == |f.hands|
    ensures r.leftFistDetected <==>
      f.handednessReported && exists i :: 0 <= i < |f.hands| && f.hands[i].handedness == LeftLabel && IsFist(f.hands[i].landmarks)
  {
    DetectionInfo(|f.faces|, |f.hands|, LeftFistDetected(f))
  }

  /** The alert state after a frame: trigger if some hand qualifies, then the timeout check. */
  function AdvanceAlert(s: AlertState, f: Frame, now: real): (r: AlertState)
    ensures r.duration == s.duration
    ensures r.startTime == if LeftFistDetected(f) then now else s.startTime
    ensures r.active <==> (LeftFistDetected(f) || s.active) && now - r.startTime <= r.duration
  {
    Timeout(if LeftFistDetected(f) then Trigger(s, now) else s, now)
  }

  /** Because the trigger runs before the timeout check, a frame with a left fist ends with the alert active. */
  lemma TriggerBeforeTimeout(s: AlertState, f: Frame, now: real)
    requires s.duration >= 0.0
    requires LeftFistDetected(f)
    ensures AdvanceAlert(s, f, now).active && AdvanceAlert(s, f, now).startTime == now
  {
  }

  /** A frame without hands reports zero hands and no fist; only the timeout check acts on the alert. */
  lemma NoHandsOnlyTimeout(s: AlertState, f: Frame, now: real)
    requires |f.hands| == 0
    ensures Summarize(f) == DetectionInfo(|f.faces|, 0, false)
    ensures AdvanceAlert(s, f, now) == Timeout(s, now)
  {
  }

  /** The order in which the provider lists the hands does not change the decision. */
  lemma HandOrderIrrelevant(f: Frame, g: Frame)
    requires f.handednessReported == g.handednessReported
    requires multiset(f.hands) == multiset(g.hands)
    ensures LeftFistDetected(f) == LeftFistDetected(g)
  {
    if LeftFistDetected(f) {
      var i :| 0 <= i < |f.hands| && IsLeftFist(f, f.hands[i]);
      assert f.hands[i] in multiset(g.hands);
      var j :| 0 <= j < |g.hands| && g.hands[j] == f.hands[i];
      assert IsLeftFist(g, g.hands[j]);
    }
    if LeftFistDetected(g) {
      var j :| 0 <= j < |g.hands| && IsLeftFist(g, g.hands[j]);
      assert g.hands[j] in multiset(f.hands);
      var i :| 0 <= i < |f.hands| && f.hands[i] == g.hands[j];
      assert IsLeftFist(f, f.hands[i]);
    }
  }

  /** One processed frame with the clock reading taken for it. */
  datatype Tick = Tick(frame: Frame, now: real)

  /** The alert state after processing the ticks in order, starting from s. */
  function Run(s: AlertState, ticks: seq<Tick>): (r: AlertState)
    ensures r.duration == s.duration
    decreases |ticks|
  {
    if |ticks| == 0 then s
    else Run(AdvanceAlert(s, ticks[0].frame, ticks[0].now), ticks[1..])
  }

  /** Processing one more tick extends a run by one step. */
  lemma {:induction false} RunSnoc(s: AlertState, ticks: seq<Tick>, t: Tick)
    ensures Run(s, ticks + [t]) == AdvanceAlert(Run(s, ticks), t.frame, t.now)
    decreases |ticks|
  {
    if |ticks| > 0 {
      assert (ticks + [t])[1..] == ticks[1..] + [t];
      RunSnoc(AdvanceAlert(s, ticks[0].frame, ticks[0].now), ticks[1..], t);
    }
  }

  /** The same step, stated for the prefixes of one sequence of ticks. */
  lemma RunPrefixStep(s: AlertState, ticks: seq<Tick>, i: nat)
    requires i < |ticks|
    ensures Run(s, ticks[..i + 1]) == AdvanceAlert(Run(s, ticks[..i]), ticks[i].frame, ticks[i].now)
  {
    assert ticks[..i + 1] == ticks[..i] + [ticks[i]];
    RunSnoc(s, ticks[..i], ticks[i]);
  }

  /**
   * Without any triggering frame the window never restarts: the alert is active
   * at the end exactly when it was active and no check saw more than the duration elapse.
   */
  lemma {:induction false} QuietRun(s: AlertState, ticks: seq<Tick>)
    requires forall j :: 0 <= j < |ticks| ==> !LeftFistDetected(ticks[j].frame)
    ensures Run(s, ticks).startTime == s.startTime && Run(s, ticks).duration == s.duration
    ensures Run(s, ticks).active <==>
      s.active && forall j :: 0 <= j < |ticks| ==> ticks[j].now - s.startTime <= s.duration
    decreases |ticks|
  {
    if |ticks| > 0 {
      var next := AdvanceAlert(s, ticks[0].frame, ticks[0].now);
      assert !LeftFistDetected(ticks[0].frame);
      QuietRun(next, ticks[1..]);
      assert forall j :: 1 <= j < |ticks| ==> ticks[1..][j - 1] == ticks[j];
    }
  }

  /**
   * After the last triggering frame i, the window starts at that frame's time and
   * the alert is active at the end exactly when no later check (frame i's own
   * included) saw more than the duration elapse since then.
   */
  lemma {:induction false} RunAfterLastTrigger(s: AlertState, ticks: seq<Tick>, i: nat)
    requires s.duration >= 0.0
    requires i < |ticks| && LeftFistDetected(ticks[i].frame)
    requires forall j :: i < j < |ticks| ==> !LeftFistDetected(ticks[j].frame)
    ensures Run(s, ticks).startTime == ticks[i].now && Run(s, ticks).duration == s.duration
    ensures Run(s, ticks).active <==>
      forall j :: i <= j < |ticks| ==> ticks[j].now - ticks[i].now <= s.duration
    decreases |ticks|
  {
    var next := AdvanceAlert(s, ticks[0].frame, ticks[0].now);
    assert forall j :: 1 <= j < |ticks| ==> ticks[1..][j - 1] == ticks[j];
    if i == 0 {
      TriggerBeforeTimeout(s, ticks[0].frame, ticks[0].now);
      QuietRun(next, ticks[1..]);
    } else {
      RunAfterLastTrigger(next, ticks[1..], i - 1);
    }
  }

  /** From the initial state the alert can only be active after some frame showed a left fist. */
  lemma NoAlertWithoutLeftFist(ticks: seq<Tick>)
    requires Run(Initial, ticks).active
    ensures exists j :: 0 <= j < |ticks| && LeftFistDetected(ticks[j].frame)
  {
    if forall j :: 0 <= j < |ticks| ==> !LeftFistDetected(ticks[j].frame) {
      QuietRun(Initial, ticks);
    }
  }

  /**
   * Trigger at 0 s, then frames without a trigger: still active at 1.9 s,
   * inactive at 2.1 s.
   */
  lemma ExpiresAfterTwoSeconds(fist: Frame, quiet: Frame)
    requires LeftFistDetected(fist) && !LeftFistDetected(quiet)
    ensures Run(Initial, [Tick(fist, 0.0), Tick(quiet, 1.9)]).active
    ensures !Run(Initial, [Tick(fist, 0.0), Tick(quiet, 1.9), Tick(quiet, 2.1)]).active
  {
    var two := [Tick(fist, 0.0), Tick(quiet, 1.9)];
    assert !LeftFistDetected(two[1].frame);
    RunAfterLastTrigger(Initial, two, 0);
    assert two[0].now == 0.0 && two[1].now == 1.9;
    var three := two + [Tick(quiet, 2.1)];
    assert !LeftFistDetected(three[1].frame) && !LeftFistDetected(three[2].frame);
    RunAfterLastTrigger(Initial, three, 0);
    assert three[2].now - three[0].now > Initial.duration;
  }

  /** Triggers at 0 s and 1.5 s: the second restarts the window, so the alert is active at 3.0 s. */
  lemma RetriggerExtendsAlert(fist: Frame, quiet: Frame)
    requires LeftFistDetected(fist) && !LeftFistDetected(quiet)
    ensures Run(Initial, [Tick(fist, 0.0), Tick(fist, 1.5), Tick(quiet, 3.0)]).active
  {
    RunAfterLastTrigger(Initial, [Tick(fist, 0.0), Tick(fist, 1.5), Tick(quiet, 3.0)], 1);
  }
}
