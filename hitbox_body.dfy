/**
 * HitboxBodies: a body that records, every world frame, the world matrices
 * of its hitboxes and its proximity bounds into a ring of NumSnapshots
 * slots, and that can be moved back to a recorded (or interpolated) frame
 * and restored.
 *
 * The first half is a value model of one body (BodyModel) with its
 * transitions — capture, rewind, restore — and the slot-selection
 * arithmetic; the second half is the HitboxBody class, whose methods are
 * proved to perform those transitions on its arrays. The world's globals
 * the source reads (TimePhysics.IsWorldRewound and WorldRewindState) are
 * parameters of the methods. The body's own localToWorldMatrix, scale
 * included, is a matrix of its own; a hitbox's localToWorldMatrix is
 * WorldMatrix of the hitbox's pose.
 */
module HitboxBodies {
  import opened UnityTypes
  import opened Numerics
  import opened RewindStates
  import opened MatrixUtils
  import opened HitboxSnapshots

  // ---------------------------------------------------------------------
  // Slot selection.

  /** Which ring slots a rewind reads: one slot, or two slots and the blend fraction. */
  datatype Sample = Direct(index: int) | Blend(index1: int, index2: int, lerp: real)

  predicate InRing(s: Sample)
  {
    match s
    case Direct(i) => 0 <= i < NumSnapshots
    case Blend(i1, i2, _) => 0 <= i1 < NumSnapshots && 0 <= i2 < NumSnapshots
  }

  /** The slot at or below slot x that the interval captures. */
  function Below(x: int, interval: int): int
    requires interval >= 1
  {
    x - x % interval
  }

  /** The slot at or above slot x that the interval captures, wrapping past the end of the ring. */
  function Above(x: int, interval: int): int
    requires interval >= 1
  {
    if x % interval == 0 then x else (x - x % interval + interval) % NumSnapshots
  }

  /**
   * LerpFrame(frame, out index1, out index2): the slot of the frame divided
   * by the interval; the captured slots at its floor and ceiling (the
   * ceiling wrapping to the start of the ring); the fraction between them,
   * to which the world request's LerpVal is added, scaled by the interval.
   */
  function LerpFrame(frame: int, interval: int, worldLerpVal: real): (s: Sample)
    requires frame >= 0 && interval >= 1
    ensures s.Blend? && InRing(s)
  {
    var frameVal := CsRem(frame, NumSnapshots) as real / interval as real;
    var floor := FloorToInt(frameVal);
    var index1 := floor * interval;
    var index2 := CeilToInt(frameVal) * interval;
    SlotRange(frame, interval);
    Blend(index1, if index2 >= NumSnapshots then index2 % NumSnapshots else index2,
          (frameVal - floor as real) + worldLerpVal / interval as real)
  }

  /**
   * LerpFrame(frame1, frame2, frameLerp, out index1, out index2): the floor
   * slot of the first frame, the ceiling slot of the second, and the
   * fraction of the first frame between captured slots plus the request's
   * fraction scaled by the interval.
   */
  function LerpFrameBetween(frame1: int, frame2: int, frameLerp: real, interval: int): (s: Sample)
    requires frame1 >= 0 && frame2 >= 0 && interval >= 1
    ensures s.Blend? && InRing(s)
  {
    var frameVal := CsRem(frame1, NumSnapshots) as real / interval as real;
    var floor := FloorToInt(frameVal);
    var index1 := floor * interval;
    var frame2Val := CsRem(frame2, NumSnapshots) as real / interval as real;
    var index2 := CeilToInt(frame2Val) * interval;
    SlotRange(frame1, interval);
    SlotRange(frame2, interval);
    Blend(index1, if index2 >= NumSnapshots then index2 % NumSnapshots else index2,
          (frameVal - floor as real) + frameLerp / interval as real)
  }

  /** The floor slot of a frame is in the ring and the ceiling slot is not negative. */
  lemma SlotRange(frame: int, interval: int)
    requires frame >= 0 && interval >= 1
    ensures var frameVal := CsRem(frame, NumSnapshots) as real / interval as real;
            0 <= FloorToInt(frameVal) * interval < NumSnapshots && CeilToInt(frameVal) * interval >= 0
  {
    var x := frame % NumSnapshots;
    RealQuotient(x, interval);
    assert x == (x / interval) * interval + x % interval;
    var c := CeilToInt(x as real / interval as real);
    assert c >= 0;
    assert c * interval >= 0;
  }

  /**
   * The slots a rewind reads: one slot when the request does not blend and
   * its frame is one the body captures, otherwise the two slots LerpFrame
   * picks (HitboxBody.Rewind, OverlapBounds and Raycast, and the private
   * LerpFrame wrapper they call).
   */
  function Resolve(state: RewindState, interval: int): (s: Sample)
    requires state.Frame >= 0 && WellFormed(state) && interval >= 1
    ensures InRing(s)
  {
    if !state.Lerp && CsRem(state.Frame, interval) == 0 then Direct(CsRem(state.Frame, NumSnapshots))
    else LerpFrameOfRequest(state, interval)
  }

  /**
   * The private LerpFrame(out index1, out index2): the two-frame overload
   * for a blending request, the one-frame overload otherwise.
   */
  function LerpFrameOfRequest(state: RewindState, interval: int): (s: Sample)
    requires state.Frame >= 0 && WellFormed(state) && interval >= 1
    ensures s.Blend? && InRing(s)
    ensures state.Lerp ==> s == LerpFrameBetween(state.Frame, state.Frame2, state.LerpVal, interval)
    ensures !state.Lerp ==> s == LerpFrame(state.Frame, interval, state.LerpVal)
  {
    if state.Lerp then LerpFrameBetween(state.Frame, state.Frame2, state.LerpVal, interval)
    else LerpFrame(state.Frame, interval, state.LerpVal)
  }

  /** The interval divides the ring size, as the body's editor validation arranges. */
  predicate OnGrid(interval: int)
  {
    1 <= interval <= NumSnapshots && NumSnapshots % interval == 0
  }

  /** The floor and ceiling slots of slot x, and the fraction between them, in integer terms. */
  lemma GridSlots(x: int, interval: int)
    requires 0 <= x < NumSnapshots && OnGrid(interval)
    ensures var frameVal := x as real / interval as real;
            FloorToInt(frameVal) * interval == Below(x, interval) &&
            (var index2 := CeilToInt(frameVal) * interval;
             (if index2 >= NumSnapshots then index2 % NumSnapshots else index2) == Above(x, interval)) &&
            frameVal - FloorToInt(frameVal) as real == (x % interval) as real / interval as real
  {
    var frameVal := x as real / interval as real;
    RealQuotient(x, interval);
    var q := x / interval;
    assert FloorToInt(frameVal) * interval == Below(x, interval) by {
      assert x == q * interval + x % interval;
    }
    CeilSlot(x, interval);
  }

  lemma CeilSlot(x: int, interval: int)
    requires 0 <= x < NumSnapshots && OnGrid(interval)
    ensures var index2 := CeilToInt(x as real / interval as real) * interval;
            (if index2 >= NumSnapshots then index2 % NumSnapshots else index2) == Above(x, interval)
  {
    CeilOfQuotient(x, interval);
    var q := x / interval;
    assert x == q * interval + x % interval;
    if x % interval != 0 {
      GridStep(x, interval, NumSnapshots);
      assert (q + 1) * interval == q * interval + interval;
    }
  }

  /**
   * On an interval that divides the ring, LerpFrame reads the captured slots
   * just below and just above the frame's slot, with the frame's offset past
   * the lower one, in intervals, plus the world fraction in intervals.
   */
  lemma {:induction false} LerpFrameOnGrid(frame: int, interval: int, worldLerpVal: real)
    requires frame >= 0 && OnGrid(interval)
    ensures var x := frame % NumSnapshots;
            LerpFrame(frame, interval, worldLerpVal) ==
              Blend(Below(x, interval), Above(x, interval),
                    (x % interval) as real / interval as real + worldLerpVal / interval as real)
  {
    GridSlots(frame % NumSnapshots, interval);
  }

  /** The same for the two-frame LerpFrame: the first frame's lower slot, the second's upper slot. */
  lemma {:induction false} LerpFrameBetweenOnGrid(frame1: int, frame2: int, frameLerp: real, interval: int)
    requires frame1 >= 0 && frame2 >= 0 && OnGrid(interval)
    ensures var x1, x2 := frame1 % NumSnapshots, frame2 % NumSnapshots;
            LerpFrameBetween(frame1, frame2, frameLerp, interval) ==
              Blend(Below(x1, interval), Above(x2, interval),
                    (x1 % interval) as real / interval as real + frameLerp / interval as real)
  {
    GridSlots(frame1 % NumSnapshots, interval);
    GridSlots(frame2 % NumSnapshots, interval);
  }

  /** Both slots a blend reads on an interval that divides the ring are slots the interval captures. */
  lemma CapturedSlots(x: int, interval: int)
    requires 0 <= x < NumSnapshots && OnGrid(interval)
    ensures 0 <= Below(x, interval) < NumSnapshots && Below(x, interval) % interval == 0
    ensures 0 <= Above(x, interval) < NumSnapshots && Above(x, interval) % interval == 0
  {
    GridStep(x, interval, NumSnapshots);
    var c := Below(x, interval) + interval;
    if x % interval != 0 {
      if c < NumSnapshots {
        DivModUnique(c, NumSnapshots, 0, c);
      } else {
        DivModUnique(c, NumSnapshots, 1, 0);
      }
      assert Above(x, interval) == c % NumSnapshots;
    }
  }

  /** The slot after slot x, in ring order. */
  lemma NextSlot(frame: int)
    requires frame >= 0
    ensures (frame + 1) % NumSnapshots == if frame % NumSnapshots == NumSnapshots - 1 then 0 else frame % NumSnapshots + 1
  {
    var q := frame / NumSnapshots;
    assert frame == q * NumSnapshots + frame % NumSnapshots;
    if frame % NumSnapshots == NumSnapshots - 1 {
      DivModUnique(frame + 1, NumSnapshots, q + 1, 0);
    } else {
      DivModUnique(frame + 1, NumSnapshots, q, frame % NumSnapshots + 1);
    }
  }

  /** The captured slot at or above the slot after x is the captured slot after the one at or below x. */
  lemma AboveNext(x: int, interval: int)
    requires 0 <= x < NumSnapshots && OnGrid(interval)
    ensures Above(if x == NumSnapshots - 1 then 0 else x + 1, interval) == (Below(x, interval) + interval) % NumSnapshots
  {
    var r := x % interval;
    var q := x / interval;
    assert x == q * interval + r;
    if x == NumSnapshots - 1 {
      var p := NumSnapshots / interval;
      assert NumSnapshots == p * interval;
      DivModUnique(x, interval, p - 1, interval - 1);
      assert Below(x, interval) + interval == NumSnapshots;
      DivModUnique(0, interval, 0, 0);
      assert Above(0, interval) == 0;
    } else if r + 1 < interval {
      DivModUnique(x + 1, interval, q, r + 1);
      assert Above(x + 1, interval) == (x + 1 - (r + 1) + interval) % NumSnapshots;
    } else {
      DivModUnique(x + 1, interval, q + 1, 0);
      DivModUnique(x + 1, NumSnapshots, 0, x + 1);
      assert Above(x + 1, interval) == x + 1;
      assert Below(x, interval) + interval == x + 1;
    }
  }

  /** The blend fraction stays below one: the offset is at most interval - 1 and the request's fraction below 1. */
  lemma FractionBelowOne(r: int, interval: int, frameLerp: real)
    requires 0 <= r < interval && 0.0 <= frameLerp < 1.0
    ensures 0.0 <= r as real / interval as real + frameLerp / interval as real < 1.0
  {
    assert r as real / interval as real + frameLerp / interval as real == (r as real + frameLerp) / interval as real;
    assert r as real + frameLerp < interval as real;
  }

  /**
   * A blend between consecutive frames reads the captured slot at or below
   * the first frame and the next captured slot after it, with a fraction in
   * [0, 1) when the request's fraction is.
   */
  lemma {:induction false} ConsecutiveBlend(frame: int, frameLerp: real, interval: int)
    requires frame >= 0 && OnGrid(interval) && 0.0 <= frameLerp < 1.0
    ensures var x := frame % NumSnapshots;
            var s := LerpFrameBetween(frame, frame + 1, frameLerp, interval);
            s.index1 == Below(x, interval) &&
            s.index2 == (Below(x, interval) + interval) % NumSnapshots &&
            0.0 <= s.lerp < 1.0
  {
    var x := frame % NumSnapshots;
    LerpFrameBetweenOnGrid(frame, frame + 1, frameLerp, interval);
    NextSlot(frame);
    AboveNext(x, interval);
    FractionBelowOne(x % interval, interval, frameLerp);
  }

  /** At interval 1 every frame is captured: a rewind reads exactly the requested frames and fraction. */
  lemma EveryFrameInterval(state: RewindState)
    requires state.Frame >= 0 && WellFormed(state)
    ensures Resolve(state, 1) ==
            if state.Lerp then Blend(state.Frame % NumSnapshots, state.Frame2 % NumSnapshots, state.LerpVal)
            else Direct(state.Frame % NumSnapshots)
  {
    if state.Lerp {
      LerpFrameBetweenOnGrid(state.Frame, state.Frame2, state.LerpVal, 1);
    }
  }

  /** Frame 53 at interval 5 blends slots 50 and 55 at 0.6. */
  lemma LerpFrameExample()
    ensures LerpFrame(53, 5, 0.0) == Blend(50, 55, 0.6)
  {
    LerpFrameOnGrid(53, 5, 0.0);
  }

  /**
   * A seconds request that snaps up to frame 100 keeps LerpVal 0.9995, and
   * at interval 3 that fraction is added again: the blend of slots 39 and 42
   * is taken at 0.6665, where the whole-frame request for frame 100 takes it
   * at one third.
   */
  lemma SnapUpBlendOvershoots()
    ensures Resolve(SecondsRequest(0.0005, 1.0, 100), 3) == Blend(39, 42, 0.6665)
    ensures Resolve(FrameRequest(100, 100), 3) == Blend(39, 42, 1.0 / 3.0)
  {
    SnapUpKeepsLerpVal();
    LerpFrameOnGrid(100, 3, 0.9995);
    LerpFrameOnGrid(100, 3, 0.0);
  }

  /** On an interval that divides the ring, a frame is captured exactly when its slot is. */
  lemma SlotOnGrid(frame: int, interval: int)
    requires frame >= 0 && OnGrid(interval)
    ensures (frame % NumSnapshots) % interval == frame % interval
  {
    var a, x := frame / NumSnapshots, frame % NumSnapshots;
    var p := NumSnapshots / interval;
    var q, r := x / interval, x % interval;
    assert frame == a * NumSnapshots + x;
    assert NumSnapshots == p * interval;
    assert x == q * interval + r;
    assert frame == (a * p + q) * interval + r;
    DivModUnique(frame, interval, a * p + q, r);
  }

  // ---------------------------------------------------------------------
  // The value model of one body.

  /** One ring slot as a value: proximity bounds, hitbox world matrices, and the Real flag. */
  datatype Snap = Snap(bounds: Bounds, matrices: seq<Matrix4x4>, isReal: bool)

  /**
   * A body as a value: the ring, the current poses of its hitboxes, the
   * matrices saved for restoring, the last captured frame, whether it is
   * rewound, its interval and start frame, its local proximity bounds and
   * the localToWorldMatrix of its own transform.
   */
  datatype BodyModel = BodyModel(
    ring: seq<Snap>, live: seq<Pose>, saved: seq<Matrix4x4>,
    current: int, rewound: bool, interval: int, startFrame: int,
    localBounds: Bounds, root: Matrix4x4)

  ghost predicate ModelOk(m: BodyModel)
  {
    |m.ring| == NumSnapshots && |m.saved| == |m.live| &&
    (forall k :: 0 <= k < NumSnapshots ==> |m.ring[k].matrices| == |m.live|) &&
    m.interval >= 1 && m.current >= -1 && m.startFrame >= -1
  }

  /** localToWorldMatrix of every hitbox. */
  function Matrices(poses: seq<Pose>): (r: seq<Matrix4x4>)
    ensures |r| == |poses|
    ensures forall h :: 0 <= h < |poses| ==> r[h] == WorldMatrix(poses[h])
  {
    seq(|poses|, h requires 0 <= h < |poses| => WorldMatrix(poses[h]))
  }

  /** SetPositionAndRotation from each matrix's translation and extracted rotation. */
  function Posed(ms: seq<Matrix4x4>, rm: RotationMath): (r: seq<Pose>)
    ensures |r| == |ms|
    ensures forall h :: 0 <= h < |ms| ==> r[h] == Pose(ExtractTranslationFromMatrix(ms[h]), rm.fromMatrix(ms[h]))
  {
    seq(|ms|, h requires 0 <= h < |ms| => Pose(ExtractTranslationFromMatrix(ms[h]), rm.fromMatrix(ms[h])))
  }

  /** SetPositionAndRotation from LerpMatrixTR of each pair of matrices. */
  function Blended(ms1: seq<Matrix4x4>, ms2: seq<Matrix4x4>, lerp: real, rm: RotationMath): (r: seq<Pose>)
    requires |ms1| == |ms2|
    ensures |r| == |ms1|
    ensures forall h :: 0 <= h < |ms1| ==> r[h] == LerpMatrixTR(ms1[h], ms2[h], lerp, rm)
  {
    seq(|ms1|, h requires 0 <= h < |ms1| => LerpMatrixTR(ms1[h], ms2[h], lerp, rm))
  }

  /** The translations of a pose sequence. */
  function Positions(poses: seq<Pose>): (r: seq<Vector3>)
    ensures |r| == |poses| && forall h :: 0 <= h < |poses| ==> r[h] == poses[h].position
  {
    seq(|poses|, h requires 0 <= h < |poses| => poses[h].position)
  }

  /**
   * The slot a real capture writes: bounds through the body's matrix, and
   * every hitbox matrix. The slot is real, its box is ordered whatever the
   * body's matrix, and each matrix carries its hitbox's position.
   */
  function CaptureNow(m: BodyModel): (r: Snap)
    ensures r.isReal && |r.matrices| == |m.live|
    ensures r.bounds.Min().LessEq(r.bounds.Max())
    ensures forall h :: 0 <= h < |m.live| ==> ExtractTranslationFromMatrix(r.matrices[h]) == m.live[h].position
  {
    TransformBoundsOrdered(m.localBounds, m.root);
    Snap(TransformBounds(m.localBounds, m.root), Matrices(m.live), true)
  }

  /**
   * HitboxBody.TakeSnapshot(frame, index): a frame that is not newer than
   * the last one changes nothing; otherwise it becomes the last frame, and
   * slot index is captured when the interval divides the frame and only
   * marked not real when it does not.
   */
  function Captured(m: BodyModel, frame: int, index: int): (r: BodyModel)
    requires ModelOk(m) && 0 <= index < NumSnapshots
    ensures ModelOk(r)
  {
    if frame <= m.current then m
    else if frame % m.interval == 0 then m.(current := frame, ring := m.ring[index := CaptureNow(m)])
    else m.(current := frame, ring := m.ring[index := m.ring[index].(isReal := false)])
  }

  /** The hitbox poses a sample puts the body in. */
  function SampledPoses(m: BodyModel, s: Sample, rm: RotationMath): (r: seq<Pose>)
    requires ModelOk(m) && InRing(s)
    ensures |r| == |m.live|
  {
    match s
    case Direct(i) => Posed(m.ring[i].matrices, rm)
    case Blend(i1, i2, lerp) => Blended(m.ring[i1].matrices, m.ring[i2].matrices, lerp, rm)
  }

  /**
   * HitboxBody.Rewind: nothing when the body is already rewound or the world
   * is not; otherwise the current matrices are saved and the hitboxes are
   * put at the resolved slot or blend.
   */
  function Rewound(m: BodyModel, worldRewound: bool, state: RewindState, rm: RotationMath): (r: BodyModel)
    requires ModelOk(m) && WellFormed(state) && (m.rewound || !worldRewound || state.Frame >= 0)
    ensures ModelOk(r)
  {
    if m.rewound || !worldRewound then m
    else m.(saved := Matrices(m.live), live := SampledPoses(m, Resolve(state, m.interval), rm), rewound := true)
  }

  /** HitboxBody.Restore: a rewound body is put back at its saved matrices. */
  function Restored(m: BodyModel, rm: RotationMath): (r: BodyModel)
    requires ModelOk(m)
    ensures ModelOk(r)
  {
    if !m.rewound then m else m.(live := Posed(m.saved, rm), rewound := false)
  }

  /**
   * The proximity bounds a sample reads: one slot's, or the lerp of two;
   * blending two slots that hold the same box gives that box.
   */
  function SampledBounds(m: BodyModel, s: Sample): (r: Bounds)
    requires ModelOk(m) && InRing(s)
    ensures s.Direct? ==> r == m.ring[s.index].bounds
    ensures s.Blend? && m.ring[s.index1].bounds == m.ring[s.index2].bounds ==> r == m.ring[s.index1].bounds
  {
    match s
    case Direct(i) => m.ring[i].bounds
    case Blend(i1, i2, lerp) => LerpBounds(m.ring[i1].bounds, m.ring[i2].bounds, lerp)
  }

  /**
   * HitboxBody.OverlapBounds: after the start frame, the sampled bounds meet
   * the query. A body is never hit at or before the frame it was enabled in,
   * and the test is symmetric in the two boxes.
   */
  ghost predicate BoundsHit(m: BodyModel, state: RewindState, query: Bounds)
    requires ModelOk(m) && WellFormed(state)
    ensures state.Frame <= m.startFrame ==> !BoundsHit(m, state, query)
    ensures BoundsHit(m, state, query) <==>
            state.Frame > m.startFrame && query.Intersects(SampledBounds(m, Resolve(state, m.interval)))
  {
    state.Frame > m.startFrame && SampledBounds(m, Resolve(state, m.interval)).Intersects(query)
  }

  /** A ray test result within the cast's length. */
  predicate WithinDistance(hit: RayHit, maxDistance: real)
  {
    hit.Hit? && hit.distance <= maxDistance
  }

  /**
   * HitboxBody.Raycast: after the start frame, the engine's ray test against
   * the sampled bounds hits within maxDistance.
   */
  ghost predicate RayHitsBody(m: BodyModel, state: RewindState, ray: Ray, maxDistance: real,
                              intersectRay: (Bounds, Ray) -> RayHit)
    requires ModelOk(m) && WellFormed(state)
    ensures state.Frame <= m.startFrame ==> !RayHitsBody(m, state, ray, maxDistance, intersectRay)
    ensures RayHitsBody(m, state, ray, maxDistance, intersectRay) ==>
            intersectRay(SampledBounds(m, Resolve(state, m.interval)), ray).Hit?
  {
    state.Frame > m.startFrame && WithinDistance(intersectRay(SampledBounds(m, Resolve(state, m.interval)), ray), maxDistance)
  }
  /** A ray that hits within a cast's length also hits within any longer one. */
  lemma LongerRayHits(m: BodyModel, state: RewindState, ray: Ray, maxDistance: real, longer: real,
                      intersectRay: (Bounds, Ray) -> RayHit)
    requires ModelOk(m) && WellFormed(state) && maxDistance <= longer
    requires RayHitsBody(m, state, ray, maxDistance, intersectRay)
    ensures RayHitsBody(m, state, ray, longer, intersectRay)
  {
  }


  // ---------------------------------------------------------------------
  // Properties of the value model.

  /**
   * A capture writes only slot index; a newer frame becomes the last frame
   * and its slot is real exactly when the interval divides the frame, in
   * which case the slot's matrices carry the hitboxes' current positions.
   */
  lemma CaptureWritesOneSlot(m: BodyModel, frame: int, index: int)
    requires ModelOk(m) && 0 <= index < NumSnapshots
    ensures var r := Captured(m, frame, index);
            r.live == m.live && r.saved == m.saved && r.rewound == m.rewound &&
            r.current == (if frame > m.current then frame else m.current) &&
            (forall k :: 0 <= k < NumSnapshots && k != index ==> r.ring[k] == m.ring[k]) &&
            (frame > m.current ==> (r.ring[index].isReal <==> frame % m.interval == 0)) &&
            (frame > m.current && frame % m.interval == 0 ==>
               forall h :: 0 <= h < |m.live| ==>
                 ExtractTranslationFromMatrix(r.ring[index].matrices[h]) == m.live[h].position)
  {
    var r := Captured(m, frame, index);
    if frame > m.current && frame % m.interval == 0 {
      forall h | 0 <= h < |m.live|
        ensures ExtractTranslationFromMatrix(r.ring[index].matrices[h]) == m.live[h].position
      {
        WorldMatrixTranslation(m.live[h]);
      }
    }
  }

  /**
   * On an interval that divides the ring, every slot a rewind reads is one
   * the interval captures, so after a capture at its own slot it is real.
   */
  lemma ResolveReadsCapturedSlots(state: RewindState, interval: int)
    requires state.Frame >= 0 && WellFormed(state) && OnGrid(interval)
    ensures match Resolve(state, interval)
            case Direct(i) => i % interval == 0
            case Blend(i1, i2, _) => i1 % interval == 0 && i2 % interval == 0
  {
    if !state.Lerp && state.Frame % interval == 0 {
      SlotOnGrid(state.Frame, interval);
    } else if state.Lerp {
      LerpFrameBetweenOnGrid(state.Frame, state.Frame2, state.LerpVal, interval);
      CapturedSlots(state.Frame % NumSnapshots, interval);
      CapturedSlots(state.Frame2 % NumSnapshots, interval);
    } else {
      LerpFrameOnGrid(state.Frame, interval, state.LerpVal);
      CapturedSlots(state.Frame % NumSnapshots, interval);
    }
  }

  /** A capture at a frame's own slot marks it real exactly when the slot is on the interval's grid. */
  lemma CapturedSlotIsReal(m: BodyModel, frame: int)
    requires ModelOk(m) && frame > m.current && OnGrid(m.interval)
    ensures Captured(m, frame, frame % NumSnapshots).ring[frame % NumSnapshots].isReal <==>
            (frame % NumSnapshots) % m.interval == 0
  {
    SlotOnGrid(frame, m.interval);
  }

  /**
   * Rewinding and then restoring puts every hitbox back at its position,
   * leaves the ring and the last frame alone, and clears the rewound flag;
   * when the engine's rotation extraction inverts the world matrix, the
   * rotations come back as well.
   */
  lemma RewindThenRestore(m: BodyModel, state: RewindState, rm: RotationMath)
    requires ModelOk(m) && !m.rewound && state.Frame >= 0 && WellFormed(state)
    ensures var r := Restored(Rewound(m, true, state, rm), rm);
            !r.rewound && r.ring == m.ring && r.current == m.current &&
            Positions(r.live) == Positions(m.live) &&
            ((forall p: Pose :: rm.fromMatrix(WorldMatrix(p)) == p.rotation) ==> r.live == m.live)
  {
    var r := Restored(Rewound(m, true, state, rm), rm);
    forall h | 0 <= h < |m.live|
      ensures r.live[h].position == m.live[h].position
    {
      WorldMatrixTranslation(m.live[h]);
    }
    assert Positions(r.live) == Positions(m.live);
  }

  /** Restoring twice is restoring once: the second call finds the body not rewound. */
  lemma RestoreIdempotent(m: BodyModel, rm: RotationMath)
    requires ModelOk(m)
    ensures Restored(Restored(m, rm), rm) == Restored(m, rm)
    ensures !Restored(m, rm).rewound
  {
  }

  /**
   * A second rewind, for any request, changes nothing: the body keeps the
   * poses and the saved matrices of the first, so one restore still brings
   * back the positions from before both.
   */
  lemma SecondRewindIgnored(m: BodyModel, state: RewindState, state2: RewindState, rm: RotationMath)
    requires ModelOk(m) && !m.rewound && state.Frame >= 0 && WellFormed(state) && state2.Frame >= 0 && WellFormed(state2)
    ensures Rewound(Rewound(m, true, state, rm), true, state2, rm) == Rewound(m, true, state, rm)
    ensures Positions(Restored(Rewound(Rewound(m, true, state, rm), true, state2, rm), rm).live) == Positions(m.live)
  {
    RewindThenRestore(m, state, rm);
  }

  /**
   * The boundary of the rewind window: with an interval that divides the
   * ring, rewinding a full window back right after capturing frame w reads
   * the slot frame w has just written, so the hitboxes are put at their
   * present positions rather than those of 60 frames ago.
   */
  lemma BoundaryRewindShowsPresent(m: BodyModel, w: int, rm: RotationMath)
    requires ModelOk(m) && OnGrid(m.interval) && !m.rewound
    requires w >= NumSnapshots && w > m.current && w % m.interval == 0
    ensures var c := Captured(m, w, w % NumSnapshots);
            var state := FrameRequest(w - NumSnapshots, w);
            state.Valid &&
            Resolve(state, m.interval) == Direct(w % NumSnapshots) &&
            Positions(Rewound(c, true, state, rm).live) == Positions(m.live)
  {
    BoundaryRequestIsDirect(w, m.interval);
    CaptureWritesOneSlot(m, w, w % NumSnapshots);
    var r := Rewound(Captured(m, w, w % NumSnapshots), true, FrameRequest(w - NumSnapshots, w), rm);
    assert Positions(r.live) == Positions(m.live);
  }

  /** The whole-frame request for w - 60 is valid at world frame w and, when the interval divides w, reads slot w % 60 directly. */
  lemma BoundaryRequestIsDirect(w: int, interval: int)
    requires OnGrid(interval) && w >= NumSnapshots && w % interval == 0
    ensures var state := FrameRequest(w - NumSnapshots, w);
            state.Valid && Resolve(state, interval) == Direct(w % NumSnapshots)
  {
    var p := NumSnapshots / interval;
    assert NumSnapshots == p * interval;
    var q := w / interval;
    assert w == q * interval;
    DivModUnique(w - NumSnapshots, interval, q - p, 0);
    DivModUnique(w - NumSnapshots, NumSnapshots, w / NumSnapshots - 1, w % NumSnapshots);
  }

  /** A query inside a wider one: a body the narrower query gates is gated by the wider one. */
  lemma WiderQueryGatesMore(m: BodyModel, state: RewindState, query: Bounds, wider: Bounds)
    requires ModelOk(m) && WellFormed(state) && wider.Contains(query) && BoundsHit(m, state, query)
    ensures BoundsHit(m, state, wider)
  {
    IntersectsWider(SampledBounds(m, Resolve(state, m.interval)), query, wider);
  }

  // ---------------------------------------------------------------------
  // OnValidate's interval coercion.

  /** OnValidate's retries: replace the interval by 60 / (60 / interval + 1) while it does not divide 60, at most four times. */
  function Retry(interval: int, tries: int): (r: int)
    requires interval >= 1 && 0 <= tries <= 4
    ensures r >= 1
    decreases 4 - tries
  {
    if NumSnapshots % interval != 0 && tries < 4 then
      NextTryPositive(interval);
      Retry(NumSnapshots / (NumSnapshots / interval + 1), tries + 1)
    else interval
  }

  /** A retry from an interval that does not divide 60 gives a positive interval again. */
  lemma NextTryPositive(interval: int)
    requires interval >= 1 && NumSnapshots % interval != 0
    ensures NumSnapshots / (NumSnapshots / interval + 1) >= 1
  {
    var q := NumSnapshots / interval;
    assert NumSnapshots == q * interval + NumSnapshots % interval;
    assert interval >= 2;
    assert q * 2 <= q * interval;
    DivModUnique(NumSnapshots, q + 1, NumSnapshots / (q + 1), NumSnapshots % (q + 1));
  }

  /**
   * The interval OnValidate leaves: a non-positive one becomes 1, then the
   * retries. The result is positive, and an interval that already divides 60
   * is kept.
   */
  function CoerceInterval(interval: int): (r: int)
    ensures r >= 1
    ensures OnGrid(interval) ==> r == interval
  {
    Retry(if interval <= 0 then 1 else interval, 0)
  }

  /** The largest divisor of 60 that is at most n. */
  function LargestDivisorAtMost(n: int): int
    requires n >= 1
    decreases n
  {
    if n >= NumSnapshots then NumSnapshots else if NumSnapshots % n == 0 then n else LargestDivisorAtMost(n - 1)
  }

  lemma {:induction false} LargestDivisorIsLargest(n: int)
    requires n >= 1
    ensures var r := LargestDivisorAtMost(n);
            OnGrid(r) && r <= n && forall d :: OnGrid(d) && d <= n ==> d <= r
  {
    if n < NumSnapshots && NumSnapshots % n != 0 {
      LargestDivisorIsLargest(n - 1);
    }
  }

  /**
   * Four retries are always enough: whatever interval the editor holds,
   * OnValidate leaves the largest divisor of 60 not above it (1 for a
   * non-positive one), so the interval always divides the ring.
   */
  lemma CoerceIntervalIsLargestDivisor(interval: int)
    ensures CoerceInterval(interval) == LargestDivisorAtMost(if interval <= 0 then 1 else interval)
    ensures OnGrid(CoerceInterval(interval))
  {
    var n := if interval <= 0 then 1 else interval;
    LargestDivisorIsLargest(n);
    if n > NumSnapshots {
      assert NumSnapshots / n == 0;
      assert Retry(n, 0) == Retry(NumSnapshots, 1);
    } else if n < NumSnapshots && NumSnapshots % n != 0 {
      CoerceTable(n);
    }
  }

  /** The intervals that do not divide 60, by range. */
  lemma CoerceTable(n: int)
    requires 1 <= n < NumSnapshots && NumSnapshots % n != 0
    ensures Retry(n, 0) == LargestDivisorAtMost(n)
  {
    if n < 20 { CoerceTable1(n); }
    else if n < 30 { CoerceTable2(n); }
    else if n < 45 { CoerceTable3(n); }
    else { CoerceTable4(n); }
  }

  lemma CoerceTable1(n: int)
    requires 1 <= n < 20 && NumSnapshots % n != 0
    ensures Retry(n, 0) == LargestDivisorAtMost(n)
  {
    if n < 12 { CoerceTable1a(n); } else { CoerceTable1b(n); }
  }

  lemma CoerceTable1a(n: int)
    requires 1 <= n < 12 && NumSnapshots % n != 0
    ensures Retry(n, 0) == LargestDivisorAtMost(n)
  {
    if n == 7 {
      assert Retry(7, 0) == Retry(6, 1) == 6;
      assert LargestDivisorAtMost(7) == LargestDivisorAtMost(6) == 6;
    } else if n == 8 {
      assert Retry(8, 0) == Retry(7, 1) == Retry(6, 2) == 6;
      assert LargestDivisorAtMost(8) == LargestDivisorAtMost(7) == LargestDivisorAtMost(6) == 6;
    } else if n == 9 {
      assert Retry(9, 0) == Retry(8, 1) == Retry(7, 2) == Retry(6, 3) == 6;
      assert LargestDivisorAtMost(9) == LargestDivisorAtMost(8) == LargestDivisorAtMost(7) == 6;
    } else if n == 11 {
      assert Retry(11, 0) == Retry(10, 1) == 10;
      assert LargestDivisorAtMost(11) == LargestDivisorAtMost(10) == 10;
    }
  }

  lemma CoerceTable1b(n: int)
    requires 12 <= n < 20 && NumSnapshots % n != 0
    ensures Retry(n, 0) == LargestDivisorAtMost(n)
  {
    if n == 13 { assert Retry(13, 0) == LargestDivisorAtMost(13); }
    else if n == 14 { assert Retry(14, 0) == LargestDivisorAtMost(14); }
    else if n == 16 { assert Retry(16, 0) == LargestDivisorAtMost(16); }
    else if n == 17 { assert Retry(17, 0) == LargestDivisorAtMost(17); }
    else if n == 18 { assert Retry(18, 0) == LargestDivisorAtMost(18); }
    else if n == 19 { assert Retry(19, 0) == LargestDivisorAtMost(19); }
  }

  lemma CoerceTable2(n: int)
    requires 20 <= n < 30 && NumSnapshots % n != 0
    ensures Retry(n, 0) == LargestDivisorAtMost(n)
  {
    if n == 21 { assert Retry(21, 0) == LargestDivisorAtMost(21); }
    else if n == 22 { assert Retry(22, 0) == LargestDivisorAtMost(22); }
    else if n == 23 { assert Retry(23, 0) == LargestDivisorAtMost(23); }
    else if n == 24 { assert Retry(24, 0) == LargestDivisorAtMost(24); }
    else if n == 25 { assert Retry(25, 0) == LargestDivisorAtMost(25); }
    else if n == 26 { assert Retry(26, 0) == LargestDivisorAtMost(26); }
    else if n == 27 { assert Retry(27, 0) == LargestDivisorAtMost(27); }
    else if n == 28 { assert Retry(28, 0) == LargestDivisorAtMost(28); }
    else if n == 29 { assert Retry(29, 0) == LargestDivisorAtMost(29); }
  }

  lemma CoerceTable3(n: int)
    requires 30 <= n < 45 && NumSnapshots % n != 0
    ensures Retry(n, 0) == LargestDivisorAtMost(n)
  {
    if n == 31 { assert Retry(31, 0) == LargestDivisorAtMost(31); }
    else if n == 32 { assert Retry(32, 0) == LargestDivisorAtMost(32); }
    else if n == 33 { assert Retry(33, 0) == LargestDivisorAtMost(33); }
    else if n == 34 { assert Retry(34, 0) == LargestDivisorAtMost(34); }
    else if n == 35 { assert Retry(35, 0) == LargestDivisorAtMost(35); }
    else if n == 36 { assert Retry(36, 0) == LargestDivisorAtMost(36); }
    else if n == 37 { assert Retry(37, 0) == LargestDivisorAtMost(37); }
    else if n == 38 { assert Retry(38, 0) == LargestDivisorAtMost(38); }
    else if n == 39 { assert Retry(39, 0) == LargestDivisorAtMost(39); }
    else if n == 40 { assert Retry(40, 0) == LargestDivisorAtMost(40); }
    else if n == 41 { assert Retry(41, 0) == LargestDivisorAtMost(41); }
    else if n == 42 { assert Retry(42, 0) == LargestDivisorAtMost(42); }
    else if n == 43 { assert Retry(43, 0) == LargestDivisorAtMost(43); }
    else if n == 44 { assert Retry(44, 0) == LargestDivisorAtMost(44); }
  }

  lemma CoerceTable4(n: int)
    requires 45 <= n < 60 && NumSnapshots % n != 0
    ensures Retry(n, 0) == LargestDivisorAtMost(n)
  {
    if n == 45 { assert Retry(45, 0) == LargestDivisorAtMost(45); }
    else if n == 46 { assert Retry(46, 0) == LargestDivisorAtMost(46); }
    else if n == 47 { assert Retry(47, 0) == LargestDivisorAtMost(47); }
    else if n == 48 { assert Retry(48, 0) == LargestDivisorAtMost(48); }
    else if n == 49 { assert Retry(49, 0) == LargestDivisorAtMost(49); }
    else if n == 50 { assert Retry(50, 0) == LargestDivisorAtMost(50); }
    else if n == 51 { assert Retry(51, 0) == LargestDivisorAtMost(51); }
    else if n == 52 { assert Retry(52, 0) == LargestDivisorAtMost(52); }
    else if n == 53 { assert Retry(53, 0) == LargestDivisorAtMost(53); }
    else if n == 54 { assert Retry(54, 0) == LargestDivisorAtMost(54); }
    else if n == 55 { assert Retry(55, 0) == LargestDivisorAtMost(55); }
    else if n == 56 { assert Retry(56, 0) == LargestDivisorAtMost(56); }
    else if n == 57 { assert Retry(57, 0) == LargestDivisorAtMost(57); }
    else if n == 58 { assert Retry(58, 0) == LargestDivisorAtMost(58); }
    else if n == 59 { assert Retry(59, 0) == LargestDivisorAtMost(59); }
  }

  // ---------------------------------------------------------------------
  // The component.

  /** A snapshot object as a ring value. */
  ghost function SnapOf(s: HitboxSnapshot): Snap
    reads s, s.LocalToWorld
  {
    Snap(s.ProximityBounds, s.LocalToWorld[..], s.Real)
  }

  /** The slot Awake allocates for n hitboxes. */
  function EmptySnap(n: nat): Snap
  {
    Snap(DefaultBounds, seq(n, _ => ZeroMatrix), false)
  }

  /**
   * The slot write of HitboxBody.TakeSnapshot: on a captured frame the slot
   * is marked real and takes the world proximity bounds and every hitbox's
   * matrix; on a skipped frame it is only marked not real.
   */
  method WriteSlot(snapShot: HitboxSnapshot, capture: bool, bounds: Bounds, root: Matrix4x4, transforms: array<Pose>)
    requires snapShot.LocalToWorld.Length == transforms.Length
    modifies snapShot, snapShot.LocalToWorld
    ensures SnapOf(snapShot) == if capture then Snap(TransformBounds(bounds, root), Matrices(transforms[..]), true)
                                else old(SnapOf(snapShot)).(isReal := false)
  {
    if capture {
      snapShot.Real := true;
      var ltw := root;
      snapShot.ProximityBounds := LocalToWorld(bounds, ltw);
      for hitboxIndex := 0 to transforms.Length
        modifies snapShot.LocalToWorld
        invariant forall h :: 0 <= h < hitboxIndex ==> snapShot.LocalToWorld[h] == WorldMatrix(transforms[h])
      {
        snapShot.LocalToWorld[hitboxIndex] := WorldMatrix(transforms[hitboxIndex]);
      }
      assert snapShot.LocalToWorld[..] == Matrices(transforms[..]);
    } else {
      snapShot.Real := false;
    }
  }

  /** A body none of whose objects changed is still valid and has the same value. */
  twostate lemma Unaffected(b: HitboxBody)
    requires old(b.Valid()) && unchanged(b) && unchanged(b.Repr)
    ensures b.Valid() && b.Model() == old(b.Model())
  {
  }

  /** Awake's allocation loop: NumSnapshots distinct empty slots with their own matrix arrays. */
  method NewRing(numHitboxes: nat) returns (ring: array<HitboxSnapshot>, ghost slots: set<object>)
    ensures fresh(ring) && ring.Length == NumSnapshots && fresh(slots)
    ensures slots == (set k | 0 <= k < NumSnapshots :: ring[k]) + (set k | 0 <= k < NumSnapshots :: ring[k].LocalToWorld)
    ensures forall k :: 0 <= k < NumSnapshots ==>
              fresh(ring[k]) && fresh(ring[k].LocalToWorld) &&
              ring[k].LocalToWorld.Length == numHitboxes && SnapOf(ring[k]) == EmptySnap(numHitboxes)
    ensures forall k, k' :: 0 <= k < NumSnapshots && 0 <= k' < NumSnapshots && k != k' ==>
              ring[k] != ring[k'] && ring[k].LocalToWorld != ring[k'].LocalToWorld
  {
    var made: seq<HitboxSnapshot> := [];
    for index := 0 to NumSnapshots
      invariant |made| == index
      invariant forall k :: 0 <= k < index ==>
                  fresh(made[k]) && fresh(made[k].LocalToWorld) &&
                  made[k].LocalToWorld.Length == numHitboxes && SnapOf(made[k]) == EmptySnap(numHitboxes)
      invariant forall k, k' :: 0 <= k < index && 0 <= k' < index && k != k' ==>
                  made[k] != made[k'] && made[k].LocalToWorld != made[k'].LocalToWorld
    {
      var slot := new HitboxSnapshot(numHitboxes);
      assert slot.LocalToWorld[..] == seq(numHitboxes, _ => ZeroMatrix);
      made := made + [slot];
    }
    ring := new HitboxSnapshot[NumSnapshots](k requires 0 <= k < NumSnapshots => made[k]);
    slots := (set k | 0 <= k < NumSnapshots :: ring[k]) + (set k | 0 <= k < NumSnapshots :: ring[k].LocalToWorld);
  }

  class HitboxBody {
    var snapshotInterval: int
    /** The body's proximity bounds in its own local space (_bounds). */
    const bounds: Bounds
    /** The hitbox transforms, as their world poses. */
    const transforms: array<Pose>
    /** transform.localToWorldMatrix of the body itself, whatever its scale. */
    var root: Matrix4x4
    var CurrentSnapshotFrame: int
    const Snapshots: array<HitboxSnapshot>
    var isRewound: bool
    const restoreSnapshot: HitboxSnapshot
    var startFrame: int

    /** The ring as values, slot by slot. */
    ghost var Ring: seq<Snap>
    /** The hitboxes' poses and the restore slot's matrices, as values. */
    ghost var Live: seq<Pose>
    ghost var Saved: seq<Matrix4x4>
    /** The objects the body owns: the transforms, the ring and its arrays, the restore slot. */
    ghost const Repr: set<object>

    /**
     * The objects Awake allocates: NumSnapshots distinct slots, a restore
     * slot, one matrix per hitbox in each; none of it is reallocated later.
     */
    ghost predicate Shape()
      reads Snapshots
    {
      transforms in Repr && Snapshots in Repr &&
      restoreSnapshot in Repr && restoreSnapshot.LocalToWorld in Repr &&
      Snapshots.Length == NumSnapshots &&
      restoreSnapshot.LocalToWorld.Length == transforms.Length &&
      (forall k :: 0 <= k < NumSnapshots ==>
         Snapshots[k] in Repr && Snapshots[k].LocalToWorld in Repr &&
         Snapshots[k].LocalToWorld.Length == transforms.Length &&
         Snapshots[k] != restoreSnapshot && Snapshots[k].LocalToWorld != restoreSnapshot.LocalToWorld) &&
      (forall k, k' :: 0 <= k < NumSnapshots && 0 <= k' < NumSnapshots && k != k' ==>
         Snapshots[k] != Snapshots[k'] && Snapshots[k].LocalToWorld != Snapshots[k'].LocalToWorld)
    }

    /** Ring holds the value of every slot. */
    ghost predicate RingTie()
      reads this`Ring, Snapshots, (set k | 0 <= k < Snapshots.Length :: Snapshots[k]),
            (set k | 0 <= k < Snapshots.Length :: Snapshots[k].LocalToWorld)
    {
      |Ring| == Snapshots.Length &&
      forall k :: 0 <= k < Snapshots.Length ==> Ring[k] == SnapOf(Snapshots[k])
    }

    /** Live holds the hitboxes' poses and Saved the restore slot's matrices. */
    ghost predicate PoseTie()
      reads this`Live, this`Saved, transforms, restoreSnapshot.LocalToWorld
    {
      Live == transforms[..] && Saved == restoreSnapshot.LocalToWorld[..]
    }

    /** The object layout Awake builds, whatever the interval holds. */
    ghost predicate Layout()
      reads this`Ring, this`Live, this`Saved, this`CurrentSnapshotFrame, this`startFrame, Repr
    {
      Snapshots in Repr && Shape() && RingTie() && PoseTie() && CurrentSnapshotFrame >= -1 && startFrame >= -1
    }

    ghost predicate Valid()
      reads this, Repr
    {
      Layout() && snapshotInterval >= 1 && ModelOk(Model())
    }

    /** The body as a value. */
    ghost function Model(): BodyModel
      reads this`Ring, this`Live, this`Saved, this`CurrentSnapshotFrame, this`isRewound,
            this`snapshotInterval, this`startFrame, this`root
    {
      BodyModel(Ring, Live, Saved, CurrentSnapshotFrame, isRewound, snapshotInterval, startFrame, bounds, root)
    }

    /**
     * Awake: NumSnapshots slots and the restore slot, each with one matrix per
     * hitbox. The serialized fields (interval, local bounds, the transforms)
     * and the body's own matrix are the parameters.
     */
    constructor (hitboxes: array<Pose>, bounds: Bounds, snapshotInterval: int, root: Matrix4x4)
      requires snapshotInterval >= 1
      ensures Valid() && fresh(Repr - {hitboxes}) && transforms == hitboxes
      ensures Model() == BodyModel(seq(NumSnapshots, _ => EmptySnap(hitboxes.Length)), hitboxes[..],
                                   seq(hitboxes.Length, _ => ZeroMatrix), -1, false, snapshotInterval, 0, bounds, root)
    {
      var ring, slots := NewRing(hitboxes.Length);
      var restore := new HitboxSnapshot(hitboxes.Length);
      this.snapshotInterval := snapshotInterval;
      this.bounds := bounds;
      this.transforms := hitboxes;
      this.root := root;
      CurrentSnapshotFrame := -1;
      Snapshots := ring;
      isRewound := false;
      restoreSnapshot := restore;
      startFrame := 0;
      Ring := seq(NumSnapshots, _ => EmptySnap(hitboxes.Length));
      Repr := {hitboxes, ring, restore, restore.LocalToWorld} + slots;
      Live := hitboxes[..];
      Saved := restore.LocalToWorld[..];
      assert restore.LocalToWorld[..] == seq(hitboxes.Length, _ => ZeroMatrix);
      new;
      assert Shape();
      assert RingTie();
      assert Layout();
    }

    /**
     * OnValidate: a non-positive interval becomes 1, then up to four times
     * an interval that does not divide 60 is replaced by 60 / (60 / interval + 1).
     */
    method OnValidate()
      requires Layout()
      modifies this`snapshotInterval
      ensures Valid()
      ensures snapshotInterval == CoerceInterval(old(snapshotInterval))
    {
      var interval := snapshotInterval;
      if interval <= 0 {
        interval := 1;
      }
      var tries := 0;
      // `++tries <= 4` is evaluated only when the interval does not divide 60.
      while NumSnapshots % interval != 0 && tries < 4
        invariant 0 <= tries <= 4 && interval >= 1
        invariant Retry(interval, tries) == CoerceInterval(old(snapshotInterval))
        decreases 4 - tries
      {
        NextTryPositive(interval);
        tries := tries + 1;
        interval := NumSnapshots / (NumSnapshots / interval + 1);
      }
      snapshotInterval := interval;
    }

    /** OnEnable, body side: the start frame is the world frame at enabling. */
    method OnEnable(worldFrame: int)
      requires Valid() && worldFrame >= -1
      modifies this`startFrame
      ensures Valid()
      ensures Model() == old(Model()).(startFrame := worldFrame)
    {
      startFrame := worldFrame;
    }

    /** TakeSnapshot(frame, index): see Captured. */
    method TakeSnapshot(frame: int, index: int)
      requires Valid() && 0 <= index < NumSnapshots
      modifies this, Snapshots[index], Snapshots[index].LocalToWorld
      ensures Valid()
      ensures Model() == Captured(old(Model()), frame, index)
    {
      ghost var before := Model();
      if frame > CurrentSnapshotFrame {
        CurrentSnapshotFrame := frame;
        var snapShot := Snapshots[index];
        WriteSlot(snapShot, frame % snapshotInterval == 0, bounds, root, transforms);
        Ring := before.ring[index := SnapOf(snapShot)];
        forall k | 0 <= k < NumSnapshots && k != index
          ensures Ring[k] == SnapOf(Snapshots[k])
        {
          assert Snapshots[k] != snapShot && Snapshots[k].LocalToWorld != snapShot.LocalToWorld;
        }
      } else {
        // The source logs an error: the frame is not newer than the last one.
      }
    }

    /** TakeRestoreSnapshot: unless rewound, save every hitbox's current matrix. */
    method TakeRestoreSnapshot()
      requires Valid()
      modifies this`Saved, restoreSnapshot.LocalToWorld
      ensures Valid()
      ensures Model() == if isRewound then old(Model()) else old(Model()).(saved := Matrices(transforms[..]))
    {
      if isRewound {
        return;
      }
      for hitboxIndex := 0 to transforms.Length
        invariant forall h :: 0 <= h < hitboxIndex ==> restoreSnapshot.LocalToWorld[h] == WorldMatrix(transforms[h])
      {
        restoreSnapshot.LocalToWorld[hitboxIndex] := WorldMatrix(transforms[hitboxIndex]);
      }
      assert restoreSnapshot.LocalToWorld[..] == Matrices(transforms[..]);
      Saved := restoreSnapshot.LocalToWorld[..];
    }

    /** RestoreSnapshot: when rewound, put every hitbox at its saved matrix. */
    method RestoreSnapshot(rm: RotationMath)
      requires Valid()
      modifies this`Live, transforms
      ensures Valid()
      ensures Model() == if !isRewound then old(Model()) else old(Model()).(live := Posed(old(Model()).saved, rm))
    {
      if !isRewound {
        return;
      }
      for i := 0 to transforms.Length
        invariant forall h :: 0 <= h < i ==> transforms[h] == Posed(old(Model()).saved, rm)[h]
        invariant restoreSnapshot.LocalToWorld[..] == old(Model()).saved
      {
        var m := restoreSnapshot.LocalToWorld[i];
        transforms[i] := Pose(ExtractTranslationFromMatrix(m), rm.fromMatrix(m));
      }
      assert transforms[..] == Posed(old(Model()).saved, rm);
      Live := transforms[..];
    }

    /** SetActiveSnapshot(index): put every hitbox at the slot's matrix. */
    method SetActiveSnapshot(index: int, rm: RotationMath)
      requires Valid() && 0 <= index < NumSnapshots
      modifies this`Live, transforms
      ensures Valid()
      ensures Model() == old(Model()).(live := Posed(Ring[index].matrices, rm))
    {
      var snapShot := Snapshots[index];
      for hitboxIndex := 0 to transforms.Length
        invariant forall h :: 0 <= h < hitboxIndex ==> transforms[h] == Posed(Ring[index].matrices, rm)[h]
        invariant Ring[index] == SnapOf(snapShot)
      {
        var m := snapShot.LocalToWorld[hitboxIndex];
        transforms[hitboxIndex] := Pose(ExtractTranslationFromMatrix(m), rm.fromMatrix(m));
      }
      assert transforms[..] == Posed(Ring[index].matrices, rm);
      Live := transforms[..];
    }

    /** SetActiveSnapshotLerp(index1, index2, lerpVal): put every hitbox at LerpMatrixTR of the two slots' matrices. */
    method SetActiveSnapshotLerp(index1: int, index2: int, lerpVal: real, rm: RotationMath)
      requires Valid() && 0 <= index1 < NumSnapshots && 0 <= index2 < NumSnapshots
      modifies this`Live, transforms
      ensures Valid()
      ensures Model() == old(Model()).(live := Blended(Ring[index1].matrices, Ring[index2].matrices, lerpVal, rm))
    {
      var snapShot1 := Snapshots[index1];
      var snapShot2 := Snapshots[index2];
      for i := 0 to transforms.Length
        invariant forall h :: 0 <= h < i ==> transforms[h] == Blended(Ring[index1].matrices, Ring[index2].matrices, lerpVal, rm)[h]
        invariant Ring[index1] == SnapOf(snapShot1) && Ring[index2] == SnapOf(snapShot2)
      {
        var matrix1 := snapShot1.LocalToWorld[i];
        var matrix2 := snapShot2.LocalToWorld[i];
        var p := LerpMatrixTR(matrix1, matrix2, lerpVal, rm);
        transforms[i] := p;
      }
      assert transforms[..] == Blended(Ring[index1].matrices, Ring[index2].matrices, lerpVal, rm);
      Live := transforms[..];
    }

    /**
     * Rewind: false when the body is already rewound or the world is not;
     * otherwise the current matrices are saved, the hitboxes are put at the
     * slot or blend the request resolves to, and the body is rewound.
     */
    method Rewind(worldRewound: bool, state: RewindState, rm: RotationMath) returns (rewound: bool)
      requires Valid() && WellFormed(state) && (isRewound || !worldRewound || state.Frame >= 0)
      modifies this`isRewound, this`Live, this`Saved, transforms, restoreSnapshot.LocalToWorld
      ensures Valid()
      ensures rewound <==> !old(isRewound) && worldRewound
      ensures Model() == Rewound(old(Model()), worldRewound, state, rm)
    {
      if isRewound || !worldRewound {
        return false;
      }
      RewindTo(state, rm);
      isRewound := true;
      return true;
    }

    /** Rewind once it goes ahead: the current matrices are saved, then the hitboxes are put at the resolved slot or blend. */
    method RewindTo(state: RewindState, rm: RotationMath)
      requires Valid() && WellFormed(state) && !isRewound && state.Frame >= 0
      modifies this`Live, this`Saved, transforms, restoreSnapshot.LocalToWorld
      ensures Valid()
      ensures Model() == old(Model()).(saved := Matrices(old(Live)),
                                       live := SampledPoses(old(Model()), Resolve(state, snapshotInterval), rm))
    {
      if !state.Lerp && CsRem(state.Frame, snapshotInterval) == 0 {
        TakeRestoreSnapshot();
        SetActiveSnapshot(CsRem(state.Frame, NumSnapshots), rm);
      } else {
        var s := LerpFrameOfRequest(state, snapshotInterval);
        TakeRestoreSnapshot();
        SetActiveSnapshotLerp(s.index1, s.index2, s.lerp, rm);
      }
    }

    /** Restore: false when the body is not rewound; otherwise the saved matrices are put back. */
    method Restore(rm: RotationMath) returns (restored: bool)
      requires Valid()
      modifies this`isRewound, this`Live, transforms
      ensures Valid()
      ensures restored == old(isRewound)
      ensures Model() == Restored(old(Model()), rm)
    {
      if !isRewound {
        return false;
      }
      RestoreSnapshot(rm);
      isRewound := false;
      return true;
    }

    /**
     * OverlapBounds: false up to the start frame; otherwise whether the
     * proximity bounds of the resolved slot, or the lerp of the two
     * resolved slots' bounds, meet the query.
     */
    method OverlapBounds(state: RewindState, query: Bounds) returns (hit: bool)
      requires Valid() && WellFormed(state)
      ensures hit == BoundsHit(Model(), state, query)
    {
      if state.Frame <= startFrame {
        return false;
      }
      if !state.Lerp && CsRem(state.Frame, snapshotInterval) == 0 {
        hit := Snapshots[CsRem(state.Frame, NumSnapshots)].ProximityBounds.Intersects(query);
      } else {
        var s := LerpFrameOfRequest(state, snapshotInterval);
        var bounds1 := Snapshots[s.index1].ProximityBounds;
        var bounds2 := Snapshots[s.index2].ProximityBounds;
        hit := LerpBounds(bounds1, bounds2, s.lerp).Intersects(query);
      }
    }

    /**
     * Raycast: false up to the start frame; otherwise whether the engine's
     * ray test against the resolved bounds hits no farther than maxDistance.
     */
    method Raycast(state: RewindState, ray: Ray, maxDistance: real, intersectRay: (Bounds, Ray) -> RayHit)
      returns (hit: bool)
      requires Valid() && WellFormed(state)
      ensures hit == RayHitsBody(Model(), state, ray, maxDistance, intersectRay)
    {
      if state.Frame <= startFrame {
        return false;
      }
      var target: Bounds;
      if !state.Lerp && CsRem(state.Frame, snapshotInterval) == 0 {
        target := Snapshots[CsRem(state.Frame, NumSnapshots)].ProximityBounds;
      } else {
        var s := LerpFrameOfRequest(state, snapshotInterval);
        var bounds1 := Snapshots[s.index1].ProximityBounds;
        var bounds2 := Snapshots[s.index2].ProximityBounds;
        target := LerpBounds(bounds1, bounds2, s.lerp);
      }
      var result := intersectRay(target, ray);
      if result.Hit? {
        return result.distance <= maxDistance;
      }
      return false;
    }
  }
}
