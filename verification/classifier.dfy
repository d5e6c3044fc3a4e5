/**
 * The fist classifier and the position heuristic of the gesture detector.
 *
 * A hand is described by MediaPipe's 21 landmarks, in anatomical order
 * (wrist = 0, thumb 1..4, index 5..8, middle 9..12, ring 13..16, pinky 17..20).
 * Coordinates are normalised to the image, with y growing downward.
 */
module Classifier {

  /** One landmark; MediaPipe's depth coordinate is never read and is left out. */
  datatype Point = Point(x: real, y: real)

  /** A hand landmark set: exactly 21 points. */
  type HandLandmarks = lm: seq<Point> | |lm| == 21
    witness seq(21, _ => Point(0.0, 0.0))

  const Wrist: nat := 0
  const ThumbMcp: nat := 2
  const ThumbIp: nat := 3
  const ThumbTip: nat := 4
  const IndexMcp: nat := 5
  const MiddleMcp: nat := 9

  /** Tips and PIP joints of index, middle, ring and pinky, paired by position. */
  const FingerTips: seq<nat> := [8, 12, 16, 20]
  const FingerPips: seq<nat> := [6, 10, 14, 18]

  /** How many of the four fingers must be curled for a fist. */
  const CurledThreshold: nat := 3

  /** Every landmark index the classifier can be influenced by. */
  const ClassifierLandmarks: set<nat> := {2, 4, 5, 6, 8, 10, 12, 14, 16, 18, 20}

  function Abs(r: real): (a: real)
    ensures a >= 0.0 && (a == r || a == -r)
  {
    if r < 0.0 then -r else r
  }

  /** Finger k (0 = index .. 3 = pinky) is curled when its tip lies strictly below its PIP joint. */
  predicate FingerCurled(lm: HandLandmarks, k: nat)
    requires k < 4
  {
    lm[FingerTips[k]].y > lm[FingerPips[k]].y
  }

  /** Reference definition: the set of curled fingers among k in [from, 4). */
  ghost function CurledFingers(lm: HandLandmarks, from: nat): set<nat>
    requires from <= 4
  {
    set k: nat | from <= k < 4 && FingerCurled(lm, k)
  }

  /** The counting loop over (tip, pip) pairs, from finger `from` onwards. */
  function CountCurled(lm: HandLandmarks, from: nat): (n: nat)
    requires from <= 4
    ensures n == |CurledFingers(lm, from)|
    ensures n <= 4 - from
    decreases 4 - from
  {
    if from == 4 then
      assert CurledFingers(lm, from) == {};
      0
    else
      var rest := CountCurled(lm, from + 1);
      assert from !in CurledFingers(lm, from + 1);
      if FingerCurled(lm, from) then
        assert CurledFingers(lm, from) == CurledFingers(lm, from + 1) + {from};
        rest + 1
      else
        assert CurledFingers(lm, from) == CurledFingers(lm, from + 1);
        rest
  }

  /**
   * The thumb is curled when its tip is horizontally closer to the thumb MCP
   * than the index MCP is; the comparison is strict.
   */
  predicate ThumbCurled(lm: HandLandmarks)
    ensures ThumbCurled(lm) <==>
      var reach := Abs(lm[IndexMcp].x - lm[ThumbMcp].x);
      lm[ThumbMcp].x - reach < lm[ThumbTip].x < lm[ThumbMcp].x + reach
  {
    Abs(lm[ThumbTip].x - lm[ThumbMcp].x) < Abs(lm[IndexMcp].x - lm[ThumbMcp].x)
  }

  /** A fist: at least three of the four fingers curled, and the thumb curled. */
  function IsFist(lm: HandLandmarks): (r: bool)
    ensures r <==> |CurledFingers(lm, 0)| >= CurledThreshold && ThumbCurled(lm)
  {
    CountCurled(lm, 0) >= CurledThreshold && ThumbCurled(lm)
  }

  /** Every finger except possibly finger k is curled. */
  predicate AllCurledExcept(lm: HandLandmarks, k: nat)
    requires k < 4
  {
    forall j: nat :: j < 4 && j != k ==> FingerCurled(lm, j)
  }

  /** The count written out as one term per finger. */
  lemma CountUnrolled(lm: HandLandmarks)
    ensures CountCurled(lm, 0) ==
      (if FingerCurled(lm, 0) then 1 else 0) + (if FingerCurled(lm, 1) then 1 else 0)
      + (if FingerCurled(lm, 2) then 1 else 0) + (if FingerCurled(lm, 3) then 1 else 0)
  {
    assert CountCurled(lm, 4) == 0;
  }

  /** "At least three of four" is the same as "all but at most one". */
  lemma IsFistIff(lm: HandLandmarks)
    ensures IsFist(lm) <==> ThumbCurled(lm) && exists k: nat :: k < 4 && AllCurledExcept(lm, k)
  {
    CountUnrolled(lm);
    if CountCurled(lm, 0) >= 3 {
      var k: nat := if !FingerCurled(lm, 0) then 0 else if !FingerCurled(lm, 1) then 1
                    else if !FingerCurled(lm, 2) then 2 else 3;
      assert AllCurledExcept(lm, k);
    }
  }

  /** With the thumb curled, exactly three curled fingers make a fist. */
  lemma ThreeCurledIsFist(lm: HandLandmarks, k: nat)
    requires k < 4 && ThumbCurled(lm)
    requires !FingerCurled(lm, k) && AllCurledExcept(lm, k)
    ensures IsFist(lm)
  {
    CountUnrolled(lm);
  }

  /** With the thumb curled, exactly two curled fingers (j and k open) are not a fist. */
  lemma TwoCurledIsNotFist(lm: HandLandmarks, j: nat, k: nat)
    requires j < 4 && k < 4 && j != k
    requires !FingerCurled(lm, j) && !FingerCurled(lm, k)
    ensures !IsFist(lm)
  {
    CountUnrolled(lm);
  }

  /** An open thumb rules out a fist, even with all four fingers curled. */
  lemma OpenThumbIsNotFist(lm: HandLandmarks)
    requires !ThumbCurled(lm)
    ensures !IsFist(lm)
  {
  }

  /**
   * Both comparisons are strict: a tip level with its PIP is not curled, and
   * a thumb tip exactly as far from the thumb MCP as the index MCP is not curled.
   */
  lemma LevelTipsAreNotCurled(lm: HandLandmarks)
    requires forall k: nat :: k < 4 ==> lm[FingerTips[k]].y == lm[FingerPips[k]].y
    ensures !IsFist(lm)
  {
    CountUnrolled(lm);
    assert !FingerCurled(lm, 0) && !FingerCurled(lm, 1);
  }

  /** Per finger: a tip exactly level with its PIP is never counted as curled. */
  lemma LevelTipNotCounted(lm: HandLandmarks, k: nat)
    requires k < 4 && lm[FingerTips[k]].y == lm[FingerPips[k]].y
    ensures k !in CurledFingers(lm, 0)
  {
  }

  /** Three curled fingers and a curled thumb make a fist even when the fourth tip is level with its PIP. */
  lemma ThreeCurledOneLevelIsFist(lm: HandLandmarks, k: nat)
    requires k < 4 && ThumbCurled(lm) && AllCurledExcept(lm, k)
    requires lm[FingerTips[k]].y == lm[FingerPips[k]].y
    ensures IsFist(lm)
    ensures k !in CurledFingers(lm, 0)
  {
    ThreeCurledIsFist(lm, k);
  }

  lemma EqualThumbDistanceIsNotCurled(lm: HandLandmarks)
    requires Abs(lm[ThumbTip].x - lm[ThumbMcp].x) == Abs(lm[IndexMcp].x - lm[ThumbMcp].x)
    ensures !ThumbCurled(lm) && !IsFist(lm)
  {
  }

  /**
   * A worked example: all four tips at y = 0.9 below PIPs at y = 0.5, thumb tip
   * 0.02 from the thumb MCP horizontally against 0.08 for the index MCP.
   */
  lemma FourCurledTightThumbIsFist(lm: HandLandmarks)
    requires forall k: nat :: k < 4 ==> lm[FingerTips[k]].y == 0.9 && lm[FingerPips[k]].y == 0.5
    requires lm[ThumbTip].x == 0.40 && lm[ThumbMcp].x == 0.42 && lm[IndexMcp].x == 0.50
    ensures IsFist(lm)
  {
    assert AllCurledExcept(lm, 0);
    IsFistIff(lm);
  }

  /** Two landmark sets that agree on every coordinate the classifier reads. */
  predicate SameClassifierInputs(a: HandLandmarks, b: HandLandmarks)
  {
    && (forall k: nat :: k < 4 ==> a[FingerTips[k]].y == b[FingerTips[k]].y)
    && (forall k: nat :: k < 4 ==> a[FingerPips[k]].y == b[FingerPips[k]].y)
    && a[ThumbMcp].x == b[ThumbMcp].x
    && a[ThumbTip].x == b[ThumbTip].x
    && a[IndexMcp].x == b[IndexMcp].x
  }

  /** The verdict depends only on the y of the finger tips and PIPs and the x of landmarks 2, 4 and 5. */
  lemma IsFistDependsOnlyOnInputs(a: HandLandmarks, b: HandLandmarks)
    requires SameClassifierInputs(a, b)
    ensures IsFist(a) == IsFist(b)
  {
    assert forall k: nat :: k < 4 ==> (FingerCurled(a, k) <==> FingerCurled(b, k));
    assert CurledFingers(a, 0) == CurledFingers(b, 0);
  }

  /** Moving any landmark the classifier does not use (the thumb IP among them) leaves the verdict unchanged. */
  lemma UnusedLandmarkIgnored(lm: HandLandmarks, i: nat, p: Point)
    requires i < 21 && i !in ClassifierLandmarks
    ensures IsFist(lm[i := p]) == IsFist(lm)
  {
    var moved: HandLandmarks := lm[i := p];
    forall k: nat | k < 4
      ensures moved[FingerTips[k]] == lm[FingerTips[k]] && moved[FingerPips[k]] == lm[FingerPips[k]]
    {
      assert FingerTips[k] in ClassifierLandmarks && FingerPips[k] in ClassifierLandmarks;
    }
    IsFistDependsOnlyOnInputs(moved, lm);
  }

  /** The thumb IP joint is read by the source but never affects the result. */
  lemma ThumbIpIgnored(lm: HandLandmarks, p: Point)
    ensures IsFist(lm[ThumbIp := p]) == IsFist(lm)
  {
    UnusedLandmarkIgnored(lm, ThumbIp, p);
  }

  /** Left-hand heuristic: the wrist lies in the left half of the image. */
  function IsLeftHand(lm: HandLandmarks, imageWidth: int): (r: bool)
    ensures imageWidth > 0 ==>
      (r <==> lm[Wrist].x * (imageWidth as real) < (imageWidth as real) / 2.0)
  {
    lm[Wrist].x < 0.5
  }

  /** The heuristic ignores the image width and the middle-finger MCP (landmark 9); only the wrist's x matters. */
  lemma IsLeftHandOnlyWristX(a: HandLandmarks, b: HandLandmarks, wa: int, wb: int, p: Point)
    requires a[Wrist].x == b[Wrist].x
    ensures IsLeftHand(a, wa) == IsLeftHand(b, wb)
    ensures IsLeftHand(a[MiddleMcp := p], wa) == IsLeftHand(a, wa)
    ensures IsLeftHand(a, wa) <==> a[Wrist].x < 0.5
  {
  }
}
