/**
 * The detector object: it owns the alert fields and updates them in place,
 * once per frame. Landmark inference and all drawing are outside the model;
 * each method takes the clock reading `now` as a parameter.
 */
module Detector {
  import opened Classifier
  import opened AlertMachine
  import opened Frames

  class GestureDetector {
    var alertActive: bool
    var alertStartTime: real
    var alertDuration: real

    /** The duration is fixed at creation and never reassigned. */
    ghost predicate Valid()
      reads this
    {
      alertDuration == AlertDurationSeconds
    }

    /** The alert fields as a value. */
    function State(): AlertState
      reads this
    {
      AlertState(alertActive, alertStartTime, alertDuration)
    }

    constructor ()
      ensures Valid() && State() == Initial
    {
      alertActive := false;
      alertStartTime := 0.0;
      alertDuration := AlertDurationSeconds;
    }

    /** Activate the alert and restart its window at `now`, whatever the prior state. */
    method TriggerAlert(now: real)
      requires Valid()
      modifies this`alertActive, this`alertStartTime
      ensures Valid()
      ensures alertActive && alertStartTime == now
      ensures State() == Trigger(old(State()), now)
    {
      alertActive := true;
      alertStartTime := now;
    }

    /** Deactivate the alert once strictly more than the duration has elapsed; never activates. */
    method CheckAlertTimeout(now: real)
      requires Valid()
      modifies this`alertActive
      ensures Valid()
      ensures alertActive ==> old(alertActive)
      ensures alertActive <==> old(alertActive) && now - alertStartTime <= alertDuration
      ensures State() == Timeout(old(State()), now)
    {
      if alertActive {
        if now - alertStartTime > alertDuration {
          alertActive := false;
        }
      }
    }

    /**
     * The decision part of processing one frame: counts, the left-fist scan
     * over the hands in order (triggering on each qualifying hand), then one
     * timeout check.
     */
    method ProcessFrame(frame: Frame, now: real) returns (info: DetectionInfo)
      requires Valid()
      modifies this`alertActive, this`alertStartTime
      ensures Valid()
      ensures info.facesDetected == |frame.faces| && info.handsDetected == |frame.hands|
      ensures info.leftFistDetected <==> exists i :: 0 <= i < |frame.hands| && IsLeftFist(frame, frame.hands[i])
      ensures info == Summarize(frame)
      ensures State() == AdvanceAlert(old(State()), frame, now)
      ensures info.leftFistDetected ==> alertActive && alertStartTime == now
      ensures |frame.hands| == 0 ==> State() == Timeout(old(State()), now)
    {
      info := DetectionInfo(0, 0, false);
      if |frame.faces| > 0 {
        info := info.(facesDetected := |frame.faces|);
      }
      if |frame.hands| > 0 {
        info := info.(handsDetected := |frame.hands|);
        var i := 0;
        while i < |frame.hands|
          invariant 0 <= i <= |frame.hands|
          invariant Valid()
          invariant info == DetectionInfo(|frame.faces|, |frame.hands|, LeftFistAmong(frame, i))
          invariant State() == if LeftFistAmong(frame, i) then Trigger(old(State()), now) else old(State())
        {
          var hand := frame.hands[i];
          var fist := IsFist(hand.landmarks);
          if frame.handednessReported {
            if hand.handedness == LeftLabel && fist {
              info := info.(leftFistDetected := true);
              TriggerAlert(now);
            }
          }
          i := i + 1;
        }
      }
      CheckAlertTimeout(now);
    }

    /**
     * The capture loop's use of the detector: one ProcessFrame call per tick,
     * in order, collecting each frame's summary.
     */
    method ProcessFrames(ticks: seq<Tick>) returns (infos: seq<DetectionInfo>)
      requires Valid()
      modifies this`alertActive, this`alertStartTime
      ensures Valid()
      ensures |infos| == |ticks|
      ensures forall j :: 0 <= j < |ticks| ==> infos[j] == Summarize(ticks[j].frame)
      ensures State() == Run(old(State()), ticks)
    {
      infos := [];
      var i := 0;
      while i < |ticks|
        invariant 0 <= i <= |ticks|
        invariant Valid()
        invariant |infos| == i
        invariant forall j :: 0 <= j < i ==> infos[j] == Summarize(ticks[j].frame)
        invariant State() == Run(old(State()), ticks[..i])
      {
        RunPrefixStep(old(State()), ticks, i);
        var info := ProcessFrame(ticks[i].frame, ticks[i].now);
        assert info == Summarize(ticks[i].frame);
        infos := infos + [info];
        i := i + 1;
      }
      assert ticks[..i] == ticks;
    }
  }
}
