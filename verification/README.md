# Fist-gesture alert: a verified model of the detector's decision logic

This project models the decision logic of `GestureDetector` in
`gesture_detector.py`, the core of a face and hand gesture detection system.
Each video frame gets face regions and hand landmark sets from MediaPipe. The
detector classifies every hand as a fist or not, reports how many faces and
hands it saw, and raises a two-second alert when a hand labelled `"Left"` is a
fist. Landmark inference, the camera loop and all OpenCV drawing are outside
the model. Their outputs become inputs, and the wall clock becomes a `now`
parameter.

Modules:

- `Classifier` (`classifier.dfy`): landmarks as exact real coordinates, the
  curled-finger count, the thumb test, `IsFist` and the `IsLeftHand`
  heuristic. A hand is a `HandLandmarks` value, a sequence of exactly 21
  points.
- `AlertMachine` (`alert.dfy`): the alert fields as a value `AlertState`. It
  defines the trigger and timeout transitions and the two-second duration.
- `Frames` (`frames.dfy`): one frame's provider output (`Frame`), the
  detection summary (`DetectionInfo`), the per-frame step (`Summarize`,
  `AdvanceAlert`), and `Run`, which applies the step over a sequence of frames.
- `Detector` (`detector.dfy`): the class `GestureDetector`. `TriggerAlert`,
  `CheckAlertTimeout` and `ProcessFrame` update the fields `alertActive` and
  `alertStartTime` in place. `alertDuration` is set once, by the constructor,
  and never reassigned, as in the source. Each method is specified by the
  value-level functions of `AlertMachine` and `Frames`. `ProcessFrames` is the
  capture loop's use of the detector with its I/O removed: one `ProcessFrame`
  call per frame.

Points where the code decides what the comments leave open:

- The docstring of `is_fist` (gesture_detector.py:42) says "all fingertips".
  The code asks for at least three of the four fingers (line 79), and the
  model follows the code.
- `trigger_alert` is called once for every qualifying hand (lines 245-248),
  not once per frame, and the model does the same. With one clock reading per
  frame, repeated triggers leave the same state as one trigger.
- A hand's label is read only when the provider returned a handedness list
  (line 223). This is `Frame.handednessReported`. Without that list no hand
  can trigger.

## Model

| member | source | states |
|---|---|---|
| Classifier.CountCurled | gesture_detector.py:60-68 | the loop's count of fingers whose tip y is strictly greater than their PIP y equals the size of the set of curled fingers, and is at most 4 |
| Classifier.IsFist | gesture_detector.py:39-79 | the verdict is true iff at least 3 of index, middle, ring and pinky are curled and the thumb tip is horizontally closer to the thumb MCP than the index MCP is |
| Classifier.ThumbCurled | gesture_detector.py:70-76 | the thumb is curled iff its tip lies strictly inside the open horizontal interval centred on the thumb MCP whose radius is the index MCP's distance from the thumb MCP |
| Classifier.IsFistIff | gesture_detector.py:64-79 | fist iff the thumb is curled and every finger except at most one is curled |
| Classifier.ThreeCurledIsFist | gesture_detector.py:79 | with the thumb curled, exactly three curled fingers give a fist, so the threshold is inclusive |
| Classifier.TwoCurledIsNotFist | gesture_detector.py:79 | with two fingers open, the hand is not a fist whatever the thumb does |
| Classifier.OpenThumbIsNotFist | gesture_detector.py:76-79 | an uncurled thumb rules out a fist even with all four fingers curled |
| Classifier.LevelTipsAreNotCurled | gesture_detector.py:67 | the finger comparison is strict: tips level with their PIPs never make a fist |
| Classifier.LevelTipNotCounted | gesture_detector.py:67 | per finger: a tip exactly level with its PIP is not in the set of curled fingers |
| Classifier.ThreeCurledOneLevelIsFist | gesture_detector.py:64-79 | three curled fingers, a fourth tip level with its PIP and a curled thumb still make a fist, and the level finger is not counted |
| Classifier.EqualThumbDistanceIsNotCurled | gesture_detector.py:76 | the thumb comparison is strict: equal distances mean the thumb is not curled and the hand is not a fist |
| Classifier.FourCurledTightThumbIsFist | gesture_detector.py:60-79 | four tips at y 0.9 below PIPs at 0.5, with thumb distance 0.02 against index-MCP distance 0.08, form a fist |
| Classifier.IsFistDependsOnlyOnInputs | gesture_detector.py:60-76 | two hands that agree on the y of landmarks 6, 8, 10, 12, 14, 16, 18, 20 and the x of 2, 4, 5 get the same verdict |
| Classifier.UnusedLandmarkIgnored | gesture_detector.py:60-76 | moving any landmark outside {2, 4, 5, 6, 8, 10, 12, 14, 16, 18, 20} leaves the verdict unchanged |
| Classifier.ThumbIpIgnored | gesture_detector.py:72 | the thumb IP joint (landmark 3) is read but never affects the verdict |
| Classifier.IsLeftHandOnlyWristX | gesture_detector.py:93-102 | the heuristic is wrist x < 0.5, and depends neither on the image width nor on the middle-finger MCP |
| Classifier.IsLeftHand | gesture_detector.py:81-102 | for a positive image width, the verdict is true iff the wrist's pixel x lies left of the image's horizontal midline |
| AlertMachine.Timeout | gesture_detector.py:112-116 | the timeout check never activates the alert and never moves the start time; the result is active iff the alert was active and now − start ≤ duration |
| AlertMachine.Trigger | gesture_detector.py:104-107 | whatever the prior state, the result is active with start time `now` and the same duration, and a timeout check at the same `now` keeps it active when the duration is not negative |
| AlertMachine.ActiveWindow | gesture_detector.py:104-116 | after a trigger at t, a check at u leaves the alert active iff u ≤ t + duration, so it is still active at exactly t + 2 |
| AlertMachine.RetriggerRestartsWindow | gesture_detector.py:104-107 | a second trigger overrides the first, and the window then ends at the second trigger's time plus the duration |
| AlertMachine.TimeoutIdempotent | gesture_detector.py:112-116 | a second timeout check at the same time changes nothing |
| Frames.LeftFistAmong | gesture_detector.py:208-248 | the scan over the first n hands finds a left fist iff one of those hands is labelled "Left" (with handedness reported) and is a fist |
| Frames.LeftFistDetected | gesture_detector.py:208-248 | a frame triggers iff one of its hands is a reported "Left" fist, whatever its position in the list; without a handedness list no frame triggers |
| Frames.Summarize | gesture_detector.py:190-248 | faces_detected and hands_detected are the counts, 0 when none; left_fist_detected holds iff handedness was reported and some hand is labelled "Left" and is a fist; the alert state plays no part |
| Frames.AdvanceAlert | gesture_detector.py:245-251 | the duration is kept; the start time becomes `now` when the frame triggers and stays put otherwise; the alert is active afterwards iff it was active or the frame triggered, and at most the duration has elapsed since the (possibly new) start time; otherwise the timeout check turns it off |
| Frames.TriggerBeforeTimeout | gesture_detector.py:245-251 | a frame with a left fist leaves the alert active and started at this frame's time, because the trigger runs before the timeout check |
| Frames.NoHandsOnlyTimeout | gesture_detector.py:190-251 | a frame with no hands reports 0 hands and no fist, and only the timeout check acts on the alert |
| Frames.HandOrderIrrelevant | gesture_detector.py:208-248 | reordering the provider's hand list does not change whether the frame triggers |
| Frames.QuietRun | gesture_detector.py:104-116 | over frames without a trigger the start time stays put, and the alert ends active iff it was active and no check saw more than the duration elapse |
| Frames.Run | main.py:70-82 | the alert state after frame after frame, each step being one `AdvanceAlert`; its contract states only that the duration is kept, and the rest is described by RunSnoc, QuietRun, RunAfterLastTrigger and NoAlertWithoutLeftFist |
| Frames.RunSnoc | gesture_detector.py:190-251 | running one more frame after a sequence of frames is one more per-frame step on the state the sequence left |
| Frames.RunAfterLastTrigger | gesture_detector.py:104-116 | after the last triggering frame, the start time is that frame's time, and the alert ends active iff every later check is within the duration of it |
| Frames.NoAlertWithoutLeftFist | gesture_detector.py:34-37 | starting from the initial state, the alert can only be active after some frame showed a left fist |
| Frames.ExpiresAfterTwoSeconds | gesture_detector.py:104-116 | after a trigger at 0 s the alert is active at 1.9 s and inactive at 2.1 s |
| Frames.RetriggerExtendsAlert | gesture_detector.py:104-116 | triggers at 0 s and 1.5 s keep the alert active at 3.0 s |
| Detector.GestureDetector.constructor | gesture_detector.py:34-37 | a new detector starts inactive, with start time 0 and a duration of 2 seconds |
| Detector.GestureDetector.TriggerAlert | gesture_detector.py:104-107 | afterwards the alert is active with start time `now`, whatever the prior state; the duration is unchanged |
| Detector.GestureDetector.CheckAlertTimeout | gesture_detector.py:112-116 | never activates; deactivates iff the alert was active and now − start > duration (strict); nothing else changes |
| Detector.GestureDetector.ProcessFrame | gesture_detector.py:190-251 | returns the face and hand counts and left_fist_detected iff some hand is a left fist; the new alert state is trigger-then-timeout of the old one; a left fist leaves the alert active at `now`; with no hands only the timeout acts |
| Detector.GestureDetector.ProcessFrames | main.py:70-82 | processing frames one after another returns each frame's summary, in order, and leaves the alert state that `Run` computes from the old state |

## Left out

- MediaPipe face and hand inference and its configuration (gesture_detector.py:14-32). The providers' results are the `Frame` input: face regions, hands with 21 landmarks and a label, and whether a handedness list came back. The detection confidence is not modelled because the code never reads it.
- All OpenCV drawing: `draw_alert_overlay`, `draw_info_panel`, landmark and detection drawing, and the per-hand label text (gesture_detector.py:118-174, 201, 210-243, 261-310). These are pixel rendering with foreign text metrics. The info panel's status text follows `left_fist_detected`, which is a field of `DetectionInfo`.
- The console messages printed by `trigger_alert` and the resource release in `cleanup` (gesture_detector.py:108-110, 312-315).
- The BGR-to-RGB conversion and the frame shape (gesture_detector.py:187-188). The `is_left_hand` call inside the hand loop (gesture_detector.py:220) is dropped from `ProcessFrame` because its result is never used. The heuristic itself is `Classifier.IsLeftHand`.
- Detector.GestureDetector.ProcessFrame: reads the clock once per frame. The source calls `time.time()` separately in each `trigger_alert` and in `check_alert_timeout`, so its start time can be slightly earlier than the time used by the timeout check.
- Floating-point coordinates and times are modelled as exact reals. Rounding in `abs`, in the subtraction and in the comparisons is not captured.
- A landmark list whose length is not 21 cannot be expressed: the code would raise `IndexError` on a shorter list and ignore extra points on a longer one.
- main.py apart from its repeated `process_frame` call (camera probing, frame capture, the mirror flip, display, key handling, window-close detection, screenshots, cleanup) is not part of this model. It is I/O and user interface.
