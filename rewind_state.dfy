/**
 * RewindStates: the RewindState value of TimePhysics (its two constructors
 * and the window checks they use) and TimePhysics.IsFrameValid. The world
 * frame and the fixed time step, which the source reads from globals, are
 * parameters here.
 */
module RewindStates {
  import opened Numerics

  /** Snapshots kept per body: one ring slot per world frame, one second at 60 Hz. */
  const NumSnapshots := 60
  /** Within this margin of a whole frame a seconds request uses that frame instead of blending. */
  const TimeErrorMargin := 0.001

  /**
   * A rewind request: whether it may be used, whether it blends two frames,
   * the frame (the earlier one when blending), the later frame, and the
   * fraction of the way from Frame to Frame2.
   */
  datatype RewindState = RewindState(Valid: bool, Lerp: bool, Frame: int, Frame2: int, LerpVal: real)

  /** The state TimePhysics starts with: default(RewindState). */
  const DefaultState := RewindState(false, false, 0, 0, 0.0)

  /** Every state either constructor builds has Frame <= Frame2. */
  predicate WellFormed(s: RewindState)
  {
    s.Frame <= s.Frame2
  }

  /**
   * IsFrameRewindValid: the frame is not older than the window (no upper
   * bound). On a whole frame it agrees with the fractional check.
   */
  predicate IsFrameRewindValid(frame: int, worldFrame: int)
    ensures IsFrameRewindValid(frame, worldFrame) <==> IsLerpRewindValid(frame as real, worldFrame)
  {
    frame >= worldFrame - NumSnapshots
  }

  /**
   * IsLerpRewindValid: the fractional frame is not older than the window,
   * which holds exactly when the frame it lies in passes the frame check.
   */
  predicate IsLerpRewindValid(lerpFrame: real, worldFrame: int)
    ensures IsLerpRewindValid(lerpFrame, worldFrame) <==> FloorToInt(lerpFrame) >= worldFrame - NumSnapshots
  {
    lerpFrame >= (worldFrame - NumSnapshots) as real
  }

  /** RewindState(int frame): a whole-frame request. */
  function FrameRequest(frame: int, worldFrame: int): (s: RewindState)
    ensures WellFormed(s)
    ensures s.Frame == frame && s.Frame2 == frame && !s.Lerp && s.LerpVal == 0.0
    ensures s.Valid <==> frame >= worldFrame - NumSnapshots
  {
    RewindState(IsFrameRewindValid(frame, worldFrame), false, frame, frame, 0.0)
  }

  /** The fractional world frame a request `seconds` back refers to. */
  function LerpFrameOf(seconds: real, fixedDeltaTime: real, worldFrame: int): real
    requires fixedDeltaTime > 0.0
  {
    worldFrame as real - seconds / fixedDeltaTime
  }

  /**
   * RewindState(float seconds): floor and ceiling of the fractional frame,
   * the fraction between them, and the two snapping rules. Snapping to the
   * later frame moves Frame but keeps LerpVal as it was.
   */
  function SecondsRequest(seconds: real, fixedDeltaTime: real, worldFrame: int): (s: RewindState)
    requires fixedDeltaTime > 0.0
    ensures WellFormed(s)
  {
    var lerpFrame := LerpFrameOf(seconds, fixedDeltaTime, worldFrame);
    var frame := FloorToInt(lerpFrame);
    var frame2 := CeilToInt(lerpFrame);
    var lerpVal := lerpFrame - frame as real;
    var snapUp := lerpVal >= 1.0 - TimeErrorMargin;
    var lerp := !(lerpVal <= TimeErrorMargin) && !snapUp;
    var chosen := if snapUp then frame2 else frame;
    RewindState(if lerp then IsLerpRewindValid(lerpFrame, worldFrame) else IsFrameRewindValid(chosen, worldFrame),
                lerp, chosen, frame2, lerpVal)
  }

  /**
   * TimePhysics.IsFrameValid: the frame is inside the window, bounds
   * exclusive below and inclusive above. Every valid frame is also accepted
   * by a frame request.
   */
  predicate IsFrameValid(frame: int, worldFrame: int)
    ensures IsFrameValid(frame, worldFrame) ==> IsFrameRewindValid(frame, worldFrame)
  {
    frame > worldFrame - NumSnapshots && frame <= worldFrame
  }

  // ---------------------------------------------------------------------
  // Properties of the seconds request.

  /**
   * A blending request spans two consecutive frames, sits strictly inside
   * the margins, and Frame + LerpVal is the requested fractional frame; a
   * request that does not blend names a frame within the margin of it.
   * Whatever the branch, LerpVal is the fraction of the fractional frame
   * above its floor and Frame2 its ceiling: snapping down names the floor,
   * snapping up names Frame2 and keeps the fraction close to one. Validity
   * is the fractional check for a blend and the frame check otherwise.
   */
  lemma SecondsRequestShape(seconds: real, fixedDeltaTime: real, worldFrame: int)
    requires fixedDeltaTime > 0.0
    ensures var s := SecondsRequest(seconds, fixedDeltaTime, worldFrame);
            var lerpFrame := LerpFrameOf(seconds, fixedDeltaTime, worldFrame);
            s.Frame <= s.Frame2 <= s.Frame + 1 &&
            0.0 <= s.LerpVal < 1.0 &&
            (s.Lerp ==> s.Frame2 == s.Frame + 1 && TimeErrorMargin < s.LerpVal < 1.0 - TimeErrorMargin &&
                        s.Frame as real + s.LerpVal == lerpFrame) &&
            (!s.Lerp ==> -TimeErrorMargin <= lerpFrame - s.Frame as real <= TimeErrorMargin)
    ensures var s := SecondsRequest(seconds, fixedDeltaTime, worldFrame);
            var lerpFrame := LerpFrameOf(seconds, fixedDeltaTime, worldFrame);
            s.LerpVal == lerpFrame - FloorToInt(lerpFrame) as real &&
            s.Frame2 == CeilToInt(lerpFrame) &&
            (s.Lerp <==> TimeErrorMargin < s.LerpVal < 1.0 - TimeErrorMargin)
    ensures var s := SecondsRequest(seconds, fixedDeltaTime, worldFrame);
            var lerpFrame := LerpFrameOf(seconds, fixedDeltaTime, worldFrame);
            (s.LerpVal <= TimeErrorMargin ==> s.Frame == FloorToInt(lerpFrame)) &&
            (s.LerpVal >= 1.0 - TimeErrorMargin ==> s.Frame == s.Frame2 == FloorToInt(lerpFrame) + 1)
    ensures var s := SecondsRequest(seconds, fixedDeltaTime, worldFrame);
            var lerpFrame := LerpFrameOf(seconds, fixedDeltaTime, worldFrame);
            s.Valid == if s.Lerp then IsLerpRewindValid(lerpFrame, worldFrame)
                       else IsFrameRewindValid(s.Frame, worldFrame)
  {
    var lerpFrame := LerpFrameOf(seconds, fixedDeltaTime, worldFrame);
    FloorCeil(lerpFrame);
    var s := SecondsRequest(seconds, fixedDeltaTime, worldFrame);
    if s.LerpVal >= 1.0 - TimeErrorMargin {
      assert s.Frame == CeilToInt(lerpFrame) == FloorToInt(lerpFrame) + 1;
    }
  }

  /** A request for a whole number of time steps is the frame request for that many frames back. */
  lemma WholeStepSecondsRequest(k: int, fixedDeltaTime: real, worldFrame: int)
    requires fixedDeltaTime > 0.0
    ensures SecondsRequest(k as real * fixedDeltaTime, fixedDeltaTime, worldFrame) == FrameRequest(worldFrame - k, worldFrame)
  {
    var lerpFrame := LerpFrameOf(k as real * fixedDeltaTime, fixedDeltaTime, worldFrame);
    assert k as real * fixedDeltaTime / fixedDeltaTime == k as real;
    assert lerpFrame == (worldFrame - k) as real;
    WholeNumber(worldFrame - k);
  }

  /**
   * Snapping to the later frame keeps the fraction: a request just short of
   * frame 100 is a non-blending request for frame 100 whose LerpVal is still
   * 0.9995.
   */
  lemma SnapUpKeepsLerpVal()
    ensures SecondsRequest(0.0005, 1.0, 100) == RewindState(true, false, 100, 100, 0.9995)
  {
    var lerpFrame := LerpFrameOf(0.0005, 1.0, 100);
    assert lerpFrame == 99.9995;
    assert FloorToInt(lerpFrame) == 99;
    assert CeilToInt(lerpFrame) == 100 by {
      assert (-lerpFrame).Floor == -100;
    }
  }

  /**
   * A seconds request whose fractional frame is inside the window is valid,
   * and a valid one is at most the margin older than the window.
   */
  lemma SecondsRequestValidity(seconds: real, fixedDeltaTime: real, worldFrame: int)
    requires fixedDeltaTime > 0.0
    ensures var s := SecondsRequest(seconds, fixedDeltaTime, worldFrame);
            s.Valid ==> LerpFrameOf(seconds, fixedDeltaTime, worldFrame) >= (worldFrame - NumSnapshots) as real - TimeErrorMargin
    ensures var s := SecondsRequest(seconds, fixedDeltaTime, worldFrame);
            LerpFrameOf(seconds, fixedDeltaTime, worldFrame) >= (worldFrame - NumSnapshots) as real ==> s.Valid
  {
    SecondsRequestShape(seconds, fixedDeltaTime, worldFrame);
    var lerpFrame := LerpFrameOf(seconds, fixedDeltaTime, worldFrame);
    var s := SecondsRequest(seconds, fixedDeltaTime, worldFrame);
    if !s.Lerp && lerpFrame >= (worldFrame - NumSnapshots) as real {
      FloorCeil(lerpFrame);
      if s.Frame == FloorToInt(lerpFrame) {
        assert FloorToInt(lerpFrame) >= worldFrame - NumSnapshots;
      }
    }
  }

  // ---------------------------------------------------------------------
  // The two window checks disagree.

  /**
   * A frame request is valid exactly for the frames IsFrameValid accepts,
   * plus the frame a full window back and every future frame.
   */
  lemma RewindValidAgainstFrameValid(frame: int, worldFrame: int)
    ensures FrameRequest(frame, worldFrame).Valid <==>
            IsFrameValid(frame, worldFrame) || frame == worldFrame - NumSnapshots || frame > worldFrame
  {
  }

  /**
   * The frame a full window back is accepted for rewinding, is not a valid
   * frame, and maps to the same ring slot as the current frame, which has
   * already overwritten it.
   */
  lemma WindowBoundarySharesSlot(worldFrame: int)
    requires worldFrame >= NumSnapshots
    ensures FrameRequest(worldFrame - NumSnapshots, worldFrame).Valid
    ensures !IsFrameValid(worldFrame - NumSnapshots, worldFrame)
    ensures CsRem(worldFrame - NumSnapshots, NumSnapshots) == CsRem(worldFrame, NumSnapshots)
  {
  }

  /**
   * The window IsFrameValid checks is exactly one ring long: two different
   * valid frames never share a ring slot, so no valid frame has been
   * overwritten by a later one.
   */
  lemma ValidFramesHaveOwnSlots(frame1: int, frame2: int, worldFrame: int)
    requires IsFrameValid(frame1, worldFrame) && IsFrameValid(frame2, worldFrame) && frame1 != frame2
    requires frame1 >= 0 && frame2 >= 0
    ensures CsRem(frame1, NumSnapshots) != CsRem(frame2, NumSnapshots)
  {
  }

  /** A request for a frame that has not been recorded yet is accepted. */
  lemma FutureFrameAccepted(worldFrame: int, ahead: nat)
    requires ahead > 0
    ensures FrameRequest(worldFrame + ahead, worldFrame).Valid
    ensures !IsFrameValid(worldFrame + ahead, worldFrame)
  {
  }
}
