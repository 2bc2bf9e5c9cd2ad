/**
 * NetRewinder: a self-contained time-indexed history of a set of hitbox
 * transforms. Every snapshotInterval physics steps it records the poses in
 * a circular array of snapshots; Rewind(targetTime) maps the time onto a
 * fractional snapshot index, uses a snapshot directly when the index is
 * within the error margin of a whole one, and otherwise interpolates
 * between two neighbouring snapshots, or between the newest snapshot and
 * the live pose. The live pose is saved by the first rewind only, so one
 * Restore undoes any number of rewinds.
 *
 * The engine's clocks (Time.fixedDeltaTime, Time.fixedTime, Time.time) are
 * parameters; Quaternion.Lerp is the lerp of a RotationMath record.
 */
module NetRewinders {
  import opened UnityTypes
  import opened Numerics

  // ---------------------------------------------------------------------
  // The snapshot struct.

  /**
   * struct HitboxSnapshot: a position and a rotation per hitbox and the
   * count. It is a value type; the arrays it holds are never shared between
   * two snapshots, so they are sequences here.
   */
  datatype HitboxSnapshot = HitboxSnapshot(positions: seq<Vector3>, rotations: seq<Quaternion>, hitboxCount: int)

  /** Both arrays of the snapshot hold count entries. */
  predicate Holds(s: HitboxSnapshot, count: int)
  {
    s.hitboxCount == count && |s.positions| == count && |s.rotations| == count
  }

  /** default(Quaternion). */
  const ZeroRotation := Quaternion(0.0, 0.0, 0.0, 0.0)

  /** new HitboxSnapshot(newHitboxCount): arrays of default values. */
  function EmptySnapshot(newHitboxCount: nat): (s: HitboxSnapshot)
    ensures Holds(s, newHitboxCount)
    ensures forall i :: 0 <= i < newHitboxCount ==> s.positions[i] == Zero && s.rotations[i] == ZeroRotation
  {
    HitboxSnapshot(seq(newHitboxCount, _ => Zero), seq(newHitboxCount, _ => ZeroRotation), newHitboxCount)
  }

  /** The snapshot of the transforms at the given poses. */
  function Capture(poses: seq<Pose>): (s: HitboxSnapshot)
    ensures Holds(s, |poses|)
  {
    HitboxSnapshot(seq(|poses|, i requires 0 <= i < |poses| => poses[i].position),
                   seq(|poses|, i requires 0 <= i < |poses| => poses[i].rotation), |poses|)
  }

  /** The poses LoadSnapshot gives the transforms. */
  function PosesOf(s: HitboxSnapshot): (poses: seq<Pose>)
    requires |s.positions| == |s.rotations|
    ensures |poses| == |s.positions|
  {
    seq(|s.positions|, i requires 0 <= i < |s.positions| => Pose(s.positions[i], s.rotations[i]))
  }

  /** Loading a captured snapshot gives back the poses it captured. */
  lemma LoadCaptured(poses: seq<Pose>)
    ensures PosesOf(Capture(poses)) == poses
  {
  }

  /** Capturing the poses a snapshot loads gives back the snapshot. */
  lemma CaptureLoaded(s: HitboxSnapshot)
    requires Holds(s, s.hitboxCount)
    ensures Capture(PosesOf(s)) == s
  {
  }

  /** new HitboxSnapshot(newHitboxes): the arrays are filled from the transforms in a loop. */
  method FromTransforms(newHitboxes: array<Pose>) returns (s: HitboxSnapshot)
    ensures s == Capture(newHitboxes[..])
  {
    var hitboxCount := newHitboxes.Length;
    s := EmptySnapshot(hitboxCount);
    if hitboxCount == 0 {
      return;
    }
    for i := 0 to hitboxCount
      invariant Holds(s, hitboxCount)
      invariant forall k :: 0 <= k < i ==> s.positions[k] == newHitboxes[k].position && s.rotations[k] == newHitboxes[k].rotation
    {
      s := s.(positions := s.positions[i := newHitboxes[i].position], rotations := s.rotations[i := newHitboxes[i].rotation]);
    }
  }

  /**
   * SetFrom(Transform[]): new arrays only when the count differs, then every
   * entry is copied from the transforms; afterwards the snapshot is theirs.
   */
  method SetFromTransforms(s: HitboxSnapshot, source: array<Pose>) returns (r: HitboxSnapshot)
    requires Holds(s, s.hitboxCount)
    ensures r == Capture(source[..])
  {
    r := s;
    if r.hitboxCount != source.Length {
      r := EmptySnapshot(source.Length);
    }
    for i := 0 to r.hitboxCount
      invariant Holds(r, source.Length)
      invariant forall k :: 0 <= k < i ==> r.positions[k] == source[k].position && r.rotations[k] == source[k].rotation
    {
      r := r.(positions := r.positions[i := source[i].position], rotations := r.rotations[i := source[i].rotation]);
    }
  }

  /** SetFrom(HitboxSnapshot): the same, copying from another snapshot; afterwards the two are equal. */
  method SetFromSnapshot(s: HitboxSnapshot, source: HitboxSnapshot) returns (r: HitboxSnapshot)
    requires Holds(s, s.hitboxCount) && Holds(source, source.hitboxCount)
    ensures r == source
  {
    r := s;
    if source.hitboxCount != r.hitboxCount {
      r := EmptySnapshot(source.hitboxCount);
    }
    for i := 0 to source.hitboxCount
      invariant Holds(r, source.hitboxCount)
      invariant forall k :: 0 <= k < i ==> r.positions[k] == source.positions[k] && r.rotations[k] == source.rotations[k]
    {
      r := r.(positions := r.positions[i := source.positions[i]], rotations := r.rotations[i := source.rotations[i]]);
    }
    assert r.positions == source.positions && r.rotations == source.rotations;
  }

  // ---------------------------------------------------------------------
  // The rewinder as values.

  /** The settings Awake fixes: hitbox count, number of slots, interval, time per slot and error margin. */
  datatype Config = Config(count: int, max: int, interval: int, slotTime: real, margin: real)

  predicate ConfigOk(c: Config)
  {
    c.count >= 0 && c.max >= 1 && c.interval >= 1 && c.slotTime > 0.0 && c.margin >= 0.0
  }

  /**
   * The rewinder's changing state: the circular array of snapshots, the
   * transforms' live poses, the saved and the interpolated snapshot, the
   * rewound flag, the number of snapshots taken, the time of the last one
   * and the frame counter.
   */
  datatype RewinderState = RewinderState(
    ring: seq<HitboxSnapshot>, live: seq<Pose>, saved: HitboxSnapshot, lerp: HitboxSnapshot,
    rewound: bool, next: int, last: real, frames: int)

  predicate StateOk(c: Config, s: RewinderState)
  {
    |s.ring| == c.max && |s.live| == c.count &&
    (forall k :: 0 <= k < |s.ring| ==> Holds(s.ring[k], c.count)) &&
    Holds(s.saved, c.count) && Holds(s.lerp, c.count) &&
    s.next >= 0 && 0 <= s.frames <= c.interval
  }

  /** GetIndexAtTime: the fractional snapshot index of a time, counted back from the newest snapshot. */
  function GetIndexAtTime(nextSnapshotIndex: int, lastSnapshotTime: real, snapshotTimeInterval: real, targetTime: real)
    : (r: real)
    requires snapshotTimeInterval > 0.0
    ensures lastSnapshotTime - targetTime == ((nextSnapshotIndex - 1) as real - r) * snapshotTimeInterval
    ensures targetTime <= lastSnapshotTime <==> r <= (nextSnapshotIndex - 1) as real
  {
    (nextSnapshotIndex - 1) as real - (lastSnapshotTime - targetTime) / snapshotTimeInterval
  }

  /**
   * What Rewind does with a request: refuse it, load snapshot index
   * directly, or blend snapshot index with the next one (or, toLive, with
   * the live pose) by lerpVal.
   */
  datatype Plan = Reject | Direct(index: int) | Blend(index: int, toLive: bool, lerpVal: real)

  /** The request's index after the error-margin snap, and whether it snapped. */
  function SnappedIndex(c: Config, next: int, last: real, targetTime: real): (r: (real, bool))
    requires ConfigOk(c)
    ensures r.1 ==> r.0 == RoundToEven(GetIndexAtTime(next, last, c.slotTime, targetTime)) as real &&
                    RoundToEven(GetIndexAtTime(next, last, c.slotTime, targetTime)) <= next - 1
    ensures !r.1 ==> r.0 == GetIndexAtTime(next, last, c.slotTime, targetTime)
  {
    var targetSnapshotIndex := GetIndexAtTime(next, last, c.slotTime, targetTime);
    var roundedSnapshotIndex := RoundToEven(targetSnapshotIndex);
    if AbsReal(roundedSnapshotIndex as real - targetSnapshotIndex) <= c.margin && roundedSnapshotIndex <= next - 1
    then (roundedSnapshotIndex as real, true)
    else (targetSnapshotIndex, false)
  }

  /** Rewind's decision for targetTime at engine time now. */
  function PlanRewind(c: Config, next: int, last: real, targetTime: real, now: real): (r: Plan)
    requires ConfigOk(c) && next >= 0
    ensures !r.Reject? ==> next >= 1 && targetTime <= now
    ensures r.Blend? && r.toLive ==> r.index == next - 1
  {
    if next == 0 then Reject
    else
      var (targetSnapshotIndex, withinMargin) := SnappedIndex(c, next, last, targetTime);
      var tooEarly := targetSnapshotIndex < 0.0 || targetSnapshotIndex < (next - c.max) as real;
      if tooEarly || targetTime > now then Reject
      else if withinMargin then Direct(TruncToInt(targetSnapshotIndex))
      else
        var lhsIndex := TruncToInt(targetSnapshotIndex);
        if lhsIndex == next - 1 then
          LiveBlendSpan(c, next, last, targetTime, now);
          Blend(lhsIndex, true, (targetTime - last) / (now - last))
        else
          Blend(lhsIndex, false, targetSnapshotIndex - lhsIndex as real)
  }

  /** savedSnapshot after a rewind: the live pose is saved only when not yet rewound. */
  function Saving(s: RewinderState): (r: HitboxSnapshot)
    ensures s.rewound ==> r == s.saved
    ensures !s.rewound ==> Holds(r, |s.live|) && PosesOf(r) == s.live
  {
    if s.rewound then s.saved
    else
      LoadCaptured(s.live);
      Capture(s.live)
  }

  /** Rewind's loop: every hitbox of the interpolated snapshot is the blend of the two snapshots' entries. */
  function Lerped(lhs: HitboxSnapshot, rhs: HitboxSnapshot, lerpVal: real, rm: RotationMath, count: nat): (r: HitboxSnapshot)
    requires Holds(lhs, count) && Holds(rhs, count)
    ensures Holds(r, count)
  {
    HitboxSnapshot(seq(count, i requires 0 <= i < count => Lerp(lhs.positions[i], rhs.positions[i], lerpVal)),
                   seq(count, i requires 0 <= i < count => rm.lerp(lhs.rotations[i], rhs.rotations[i], lerpVal)), count)
  }

  /** Rewind(targetTime) on values. */
  function Rewound(c: Config, s: RewinderState, targetTime: real, now: real, rm: RotationMath): (r: RewinderState)
    requires ConfigOk(c) && StateOk(c, s)
    ensures StateOk(c, r)
  {
    PlanBounds(c, s.next, s.last, targetTime, now);
    match PlanRewind(c, s.next, s.last, targetTime, now)
    case Reject => s
    case Direct(k) => s.(saved := Saving(s), live := PosesOf(s.ring[k % c.max]), rewound := true)
    case Blend(k, toLive, lerpVal) => Blended(c, s, k, toLive, lerpVal, rm)
  }

  /**
   * A blending rewind: snapshot k is blended with snapshot k + 1, or with
   * the saved live pose, into the interpolated snapshot, which is loaded.
   */
  function Blended(c: Config, s: RewinderState, k: int, toLive: bool, lerpVal: real, rm: RotationMath): (r: RewinderState)
    requires ConfigOk(c) && StateOk(c, s) && k >= 0
    ensures StateOk(c, r)
  {
    var saved := Saving(s);
    var rhs := if toLive then saved else s.ring[(k + 1) % c.max];
    var lerp := Lerped(s.ring[k % c.max], rhs, lerpVal, rm, c.count);
    s.(saved := saved, lerp := lerp, live := PosesOf(lerp), rewound := true)
  }

  /** Restore on values: a rewound rewinder loads the saved snapshot. */
  function Restored(s: RewinderState): (r: RewinderState)
    requires |s.saved.positions| == |s.saved.rotations|
    ensures !r.rewound
    ensures s.rewound ==> r.live == PosesOf(s.saved)
    ensures !s.rewound ==> r == s
    ensures r.ring == s.ring && r.saved == s.saved && r.lerp == s.lerp &&
            r.next == s.next && r.last == s.last && r.frames == s.frames
  {
    if s.rewound then s.(live := PosesOf(s.saved), rewound := false) else s
  }

  /** TakeSnapshot on values: when not rewound, the slot next % max captures the live pose. */
  function Snapshotted(c: Config, s: RewinderState, fixedTime: real): (r: RewinderState)
    requires ConfigOk(c) && StateOk(c, s)
    ensures StateOk(c, r)
  {
    if s.rewound then s
    else s.(ring := s.ring[s.next % c.max := Capture(s.live)], next := s.next + 1, last := fixedTime)
  }

  /** FixedUpdate on values. */
  function Ticked(c: Config, s: RewinderState, fixedTime: real): (r: RewinderState)
    requires ConfigOk(c) && StateOk(c, s)
    ensures StateOk(c, r)
  {
    if s.rewound then s
    else if s.frames + 1 >= c.interval then Snapshotted(c, s, fixedTime).(frames := 0)
    else s.(frames := s.frames + 1)
  }

  /** A rewind request: the target time and the engine time it is made at. */
  datatype Request = Request(targetTime: real, now: real)

  /** Several rewinds in a row, without a restore. */
  function RewoundMany(c: Config, s: RewinderState, requests: seq<Request>, rm: RotationMath): (r: RewinderState)
    requires ConfigOk(c) && StateOk(c, s)
    ensures StateOk(c, r)
    decreases |requests|
  {
    if requests == [] then s
    else RewoundMany(c, Rewound(c, s, requests[0].targetTime, requests[0].now, rm), requests[1..], rm)
  }

  /** Several physics steps in a row, one fixed time each. */
  function TickedMany(c: Config, s: RewinderState, times: seq<real>): (r: RewinderState)
    requires ConfigOk(c) && StateOk(c, s)
    ensures StateOk(c, r)
    decreases |times|
  {
    if times == [] then s else TickedMany(c, Ticked(c, s, times[0]), times[1..])
  }

  // ---------------------------------------------------------------------
  // Properties of the plan.

  /** Below one: a non-negative index's truncation is its floor. */
  lemma TruncOfNonNegative(x: real)
    requires x >= 0.0
    ensures TruncToInt(x) == x.Floor && 0.0 <= x - TruncToInt(x) as real < 1.0
  {
  }

  /**
   * In a blend with the live pose the target lies after the newest
   * snapshot and not after now: the fraction's divisor is positive and the
   * fraction is in (0, 1].
   */
  lemma LiveBlendSpan(c: Config, next: int, last: real, targetTime: real, now: real)
    requires ConfigOk(c) && next >= 1
    requires !SnappedIndex(c, next, last, targetTime).1
    requires SnappedIndex(c, next, last, targetTime).0 >= 0.0
    requires TruncToInt(SnappedIndex(c, next, last, targetTime).0) == next - 1
    requires targetTime <= now
    ensures last < targetTime && now - last > 0.0
    ensures 0.0 < (targetTime - last) / (now - last) <= 1.0
  {
    var q := (last - targetTime) / c.slotTime;
    assert GetIndexAtTime(next, last, c.slotTime, targetTime) == (next - 1) as real - q;
    WholeNumber(next - 1);
    QuotientSign(last - targetTime, c.slotTime);
    Fraction(targetTime - last, now - last);
  }

  /** The sign of a quotient by a positive number is the sign of the dividend. */
  lemma QuotientSign(a: real, b: real)
    requires b > 0.0
    ensures a / b < 0.0 <==> a < 0.0
    ensures a / b == 0.0 <==> a == 0.0
    ensures a / b <= -1.0 <==> a <= -b
  {
    assert (a / b) * b == a;
    MulSign(a / b, b);
    MulSign(a / b + 1.0, b);
  }

  /** A product with a positive factor keeps the other factor's sign. */
  lemma MulSign(x: real, b: real)
    requires b > 0.0
    ensures x < 0.0 ==> x * b < 0.0
    ensures x > 0.0 ==> x * b > 0.0
  {
  }

  /** A quotient of 0 < a <= b lies in (0, 1]. */
  lemma Fraction(a: real, b: real)
    requires 0.0 < a <= b
    ensures 0.0 < a / b <= 1.0
  {
    assert (a / b) * b == a;
    MulSign(a / b, b);
    MulSign(a / b - 1.0, b);
  }

  /**
   * Rewind refuses exactly when no snapshot exists, the (snapped) index is
   * negative or older than the oldest slot, or the target lies after now.
   */
  lemma RejectsExactly(c: Config, next: int, last: real, targetTime: real, now: real)
    requires ConfigOk(c) && next >= 0
    ensures PlanRewind(c, next, last, targetTime, now) == Reject <==>
            next == 0 || targetTime > now ||
            SnappedIndex(c, next, last, targetTime).0 < 0.0 ||
            SnappedIndex(c, next, last, targetTime).0 < (next - c.max) as real
  {
  }

  /**
   * Every snapshot a plan reads is in the live window of the last max
   * indices: a direct index is a whole number of it, a blend with the next
   * snapshot has a fraction in [0, 1), a blend with the live pose starts at the
   * newest snapshot and has a fraction in (0, 1].
   */
  lemma PlanBounds(c: Config, next: int, last: real, targetTime: real, now: real)
    requires ConfigOk(c) && next >= 0
    ensures PlanRewind(c, next, last, targetTime, now).Direct? ==>
              var k := PlanRewind(c, next, last, targetTime, now).index;
              0 <= k && next - c.max <= k <= next - 1
    ensures PlanRewind(c, next, last, targetTime, now).Blend? ==>
              var p := PlanRewind(c, next, last, targetTime, now);
              0 <= p.index && next - c.max <= p.index &&
              (p.toLive ==> p.index == next - 1 && 0.0 < p.lerpVal <= 1.0) &&
              (!p.toLive ==> p.index != next - 1 && 0.0 <= p.lerpVal < 1.0)
  {
    if next >= 1 {
      var (idx, within) := SnappedIndex(c, next, last, targetTime);
      if idx >= 0.0 {
        TruncOfNonNegative(idx);
        if within {
          WholeNumber(TruncToInt(idx));
        } else if TruncToInt(idx) == next - 1 && targetTime <= now {
          LiveBlendSpan(c, next, last, targetTime, now);
        }
      }
    }
  }

  /**
   * With the target less than one snapshot interval after the newest
   * snapshot (as the engine's clocks keep it when Rewind runs within the
   * frame), a blend between two snapshots reads two snapshots that were
   * taken: its second index is at most the newest one.
   */
  lemma BlendReadsTakenSnapshots(c: Config, next: int, last: real, targetTime: real, now: real)
    requires ConfigOk(c) && next >= 0 && targetTime < last + c.slotTime
    requires PlanRewind(c, next, last, targetTime, now).Blend? && !PlanRewind(c, next, last, targetTime, now).toLive
    ensures PlanRewind(c, next, last, targetTime, now).index + 1 <= next - 1
  {
    var idx := GetIndexAtTime(next, last, c.slotTime, targetTime);
    assert SnappedIndex(c, next, last, targetTime) == (idx, false);
    assert idx >= 0.0 && PlanRewind(c, next, last, targetTime, now).index == TruncToInt(idx);
    QuotientSign(last - targetTime, c.slotTime);
    assert idx < next as real;
    TruncOfNonNegative(idx);
  }

  /**
   * A target time exactly j snapshot intervals before the newest snapshot,
   * inside the history and not in the future, loads snapshot next - 1 - j
   * directly.
   */
  lemma SnapshotTimeIsDirect(c: Config, next: int, last: real, j: int, now: real)
    requires ConfigOk(c) && 0 <= j < next && j < c.max
    requires last - j as real * c.slotTime <= now
    ensures PlanRewind(c, next, last, last - j as real * c.slotTime, now) == Direct(next - 1 - j)
  {
    var t := last - j as real * c.slotTime;
    assert (last - t) / c.slotTime == j as real;
    assert GetIndexAtTime(next, last, c.slotTime, t) == (next - 1 - j) as real;
    WholeNumber(next - 1 - j);
    assert SnappedIndex(c, next, last, t) == ((next - 1 - j) as real, true);
  }

  // ---------------------------------------------------------------------
  // Properties of the state changes.

  /**
   * The account several rewinds keep of the pose before the first: while
   * rewound the saved snapshot is its capture, while not rewound the live
   * pose is still that pose.
   */
  ghost predicate RemembersPose(s: RewinderState, base: seq<Pose>)
  {
    (s.rewound ==> s.saved == Capture(base)) && (!s.rewound ==> s.live == base)
  }

  /** One rewind keeps the account. */
  lemma RewindKeepsPose(c: Config, s: RewinderState, targetTime: real, now: real, rm: RotationMath, base: seq<Pose>)
    requires ConfigOk(c) && StateOk(c, s) && RemembersPose(s, base)
    ensures RemembersPose(Rewound(c, s, targetTime, now, rm), base)
  {
  }

  /** Any number of rewinds keeps the account. */
  lemma {:induction false} RewindsKeepPose(c: Config, s: RewinderState, requests: seq<Request>, rm: RotationMath,
                                           base: seq<Pose>)
    requires ConfigOk(c) && StateOk(c, s) && RemembersPose(s, base)
    ensures RemembersPose(RewoundMany(c, s, requests, rm), base)
    decreases |requests|
  {
    if requests != [] {
      var s' := Rewound(c, s, requests[0].targetTime, requests[0].now, rm);
      RewindKeepsPose(c, s, requests[0].targetTime, requests[0].now, rm, base);
      RewindsKeepPose(c, s', requests[1..], rm, base);
    }
  }

  /**
   * Several rewinds followed by one Restore put the hitboxes back at the
   * pose they had before the first rewind, and leave the rewinder not rewound.
   */
  lemma RestoreUndoesRewinds(c: Config, s: RewinderState, requests: seq<Request>, rm: RotationMath)
    requires ConfigOk(c) && StateOk(c, s) && !s.rewound
    ensures Restored(RewoundMany(c, s, requests, rm)).live == s.live
    ensures !Restored(RewoundMany(c, s, requests, rm)).rewound
  {
    RewindsKeepPose(c, s, requests, rm, s.live);
    LoadCaptured(s.live);
  }

  /** Restore when not rewound changes nothing. */
  lemma RestoreWhenLive(s: RewinderState)
    requires |s.saved.positions| == |s.saved.rotations| && !s.rewound
    ensures Restored(s) == s
  {
  }

  /**
   * Rewinding to the time of the snapshot just taken, at or after it,
   * puts every hitbox at the pose that snapshot captured.
   */
  lemma RewindToLastSnapshot(c: Config, s: RewinderState, fixedTime: real, now: real, rm: RotationMath)
    requires ConfigOk(c) && StateOk(c, s) && !s.rewound && fixedTime <= now
    ensures Rewound(c, Snapshotted(c, s, fixedTime), fixedTime, now, rm).live == s.live
    ensures Rewound(c, Snapshotted(c, s, fixedTime), fixedTime, now, rm).rewound
  {
    var t := Snapshotted(c, s, fixedTime);
    SnapshotTimeIsDirect(c, t.next, t.last, 0, now);
    assert t.last - 0 as real * c.slotTime == fixedTime;
    assert (t.next - 1) % c.max == s.next % c.max;
    LoadCaptured(s.live);
  }

  /** A snapshot writes only its own slot. */
  lemma SnapshotWritesOneSlot(c: Config, s: RewinderState, fixedTime: real, k: int)
    requires ConfigOk(c) && StateOk(c, s) && !s.rewound && 0 <= k < c.max && k != s.next % c.max
    ensures Snapshotted(c, s, fixedTime).ring[k] == s.ring[k]
    ensures Snapshotted(c, s, fixedTime).ring[s.next % c.max] == Capture(s.live)
  {
  }

  /**
   * From a reset counter, the first interval - 1 physics steps take no
   * snapshot and the interval-th takes one and resets the counter.
   */
  lemma {:induction false} SnapshotEveryInterval(c: Config, s: RewinderState, times: seq<real>)
    requires ConfigOk(c) && StateOk(c, s) && !s.rewound && s.frames + |times| <= c.interval
    ensures s.frames + |times| < c.interval ==>
              TickedMany(c, s, times) == s.(frames := s.frames + |times|)
    ensures s.frames + |times| == c.interval && |times| >= 1 ==>
              TickedMany(c, s, times).next == s.next + 1 && TickedMany(c, s, times).frames == 0
    decreases |times|
  {
    if times != [] {
      var s' := Ticked(c, s, times[0]);
      if s.frames + 1 < c.interval {
        assert s' == s.(frames := s.frames + 1);
        SnapshotEveryInterval(c, s', times[1..]);
      } else {
        assert |times| == 1;
        assert times[1..] == [];
      }
    }
  }

  /** Awake leaves the counter at the interval: the first physics step takes a snapshot at once. */
  lemma FirstStepSnapshots(c: Config, s: RewinderState, fixedTime: real)
    requires ConfigOk(c) && StateOk(c, s) && !s.rewound && s.frames == c.interval
    ensures Ticked(c, s, fixedTime).next == s.next + 1 && Ticked(c, s, fixedTime).frames == 0
    ensures Ticked(c, s, fixedTime).ring[s.next % c.max] == Capture(s.live)
  {
  }

  // ---------------------------------------------------------------------
  // The component.

  class NetRewinder {
    /** The hitbox transforms, as their world poses. */
    const hitBoxes: array<Pose>
    const historyLength: real
    const snapshotInterval: int
    const timeErrorMargin: real
    const snapshotTimeInterval: real
    const maxSnapshotCount: int
    const hitboxCount: int
    const snapshots: array<HitboxSnapshot>
    var lastSnapshotTime: real
    var framesSinceSnapshot: int
    var savedSnapshot: HitboxSnapshot
    var lerpSnapshot: HitboxSnapshot
    var rewound: bool
    var nextSnapshotIndex: int

    function Settings(): Config
    {
      Config(hitboxCount, maxSnapshotCount, snapshotInterval, snapshotTimeInterval, timeErrorMargin)
    }

    ghost function State(): RewinderState
      reads this, snapshots, hitBoxes
    {
      RewinderState(snapshots[..], hitBoxes[..], savedSnapshot, lerpSnapshot, rewound, nextSnapshotIndex,
                    lastSnapshotTime, framesSinceSnapshot)
    }

    ghost predicate Valid()
      reads this, snapshots, hitBoxes
    {
      ConfigOk(Settings()) && StateOk(Settings(), State())
    }

    /**
     * Awake: the number of slots is the history length over the time per
     * slot, truncated, plus one; every slot and the saved and interpolated
     * snapshots hold hitboxCount default entries; the counter starts at the
     * interval so the first physics step takes a snapshot; a negative error
     * margin becomes 0.001.
     */
    constructor (hitBoxes: array<Pose>, historyLength: real, snapshotInterval: int, timeErrorMargin: real,
                 fixedDeltaTime: real)
      requires fixedDeltaTime > 0.0 && snapshotInterval >= 1
      requires TruncToInt(historyLength / (fixedDeltaTime * snapshotInterval as real)) >= 0
      ensures Valid()
      ensures Settings() == Config(hitBoxes.Length, TruncToInt(historyLength / (fixedDeltaTime * snapshotInterval as real)) + 1,
                                   snapshotInterval, fixedDeltaTime * snapshotInterval as real,
                                   if timeErrorMargin < 0.0 then 0.001 else timeErrorMargin)
      ensures State().ring == seq(maxSnapshotCount, _ => EmptySnapshot(hitBoxes.Length))
      ensures savedSnapshot == EmptySnapshot(hitBoxes.Length) && lerpSnapshot == EmptySnapshot(hitBoxes.Length)
      ensures !rewound && nextSnapshotIndex == 0 && framesSinceSnapshot == snapshotInterval && lastSnapshotTime == 0.0
    {
      this.hitBoxes := hitBoxes;
      this.historyLength := historyLength;
      this.snapshotInterval := snapshotInterval;
      hitboxCount := hitBoxes.Length;
      var interval := fixedDeltaTime * snapshotInterval as real;
      assert interval > 0.0 by {
        assert fixedDeltaTime * snapshotInterval as real >= fixedDeltaTime * 1.0;
      }
      snapshotTimeInterval := interval;
      framesSinceSnapshot := snapshotInterval;
      var count := TruncToInt(historyLength / interval) + 1;
      maxSnapshotCount := count;
      var ring := new HitboxSnapshot[count];
      savedSnapshot := EmptySnapshot(hitBoxes.Length);
      lerpSnapshot := EmptySnapshot(hitBoxes.Length);
      this.timeErrorMargin := if timeErrorMargin < 0.0 then 0.001 else timeErrorMargin;
      for i := 0 to count
        invariant forall k :: 0 <= k < i ==> ring[k] == EmptySnapshot(hitBoxes.Length)
      {
        ring[i] := EmptySnapshot(hitBoxes.Length);
      }
      snapshots := ring;
      lastSnapshotTime := 0.0;
      rewound := false;
      nextSnapshotIndex := 0;
      new;
      assert State().ring == seq(maxSnapshotCount, _ => EmptySnapshot(hitBoxes.Length));
    }

    /** FixedUpdate: nothing while rewound; otherwise count the step and take a snapshot every interval steps. */
    method FixedUpdate(fixedTime: real)
      requires Valid()
      modifies this`framesSinceSnapshot, this`nextSnapshotIndex, this`lastSnapshotTime, snapshots
      ensures Valid()
      ensures State() == Ticked(Settings(), old(State()), fixedTime)
    {
      if rewound {
        // The source logs an error.
        return;
      }
      framesSinceSnapshot := framesSinceSnapshot + 1;
      if framesSinceSnapshot >= snapshotInterval {
        TakeSnapshot(fixedTime);
        framesSinceSnapshot := 0;
      }
    }

    /** TakeSnapshot: when not rewound, slot next % max captures the live pose, next advances and the time is kept. */
    method TakeSnapshot(fixedTime: real)
      requires ConfigOk(Settings()) && |snapshots[..]| == maxSnapshotCount && hitBoxes.Length == hitboxCount
      requires forall k :: 0 <= k < snapshots.Length ==> Holds(snapshots[k], hitboxCount)
      requires nextSnapshotIndex >= 0
      modifies this`nextSnapshotIndex, this`lastSnapshotTime, snapshots
      ensures snapshots[..] == if old(rewound) then old(snapshots[..])
                               else old(snapshots[..])[old(nextSnapshotIndex) % maxSnapshotCount := Capture(hitBoxes[..])]
      ensures nextSnapshotIndex == if rewound then old(nextSnapshotIndex) else old(nextSnapshotIndex) + 1
      ensures lastSnapshotTime == if rewound then old(lastSnapshotTime) else fixedTime
    {
      if !rewound {
        var slot := nextSnapshotIndex % maxSnapshotCount;
        var s := SetFromTransforms(snapshots[slot], hitBoxes);
        snapshots[slot] := s;
        nextSnapshotIndex := nextSnapshotIndex + 1;
        lastSnapshotTime := fixedTime;
      } else {
        // The source logs an error.
      }
    }

    /** Rewind(targetTime) at engine time now: the plan of PlanRewind, carried out. */
    method Rewind(targetTime: real, now: real, rm: RotationMath) returns (ok: bool)
      requires Valid()
      modifies this`savedSnapshot, this`lerpSnapshot, this`rewound, hitBoxes
      ensures Valid()
      ensures ok == !PlanRewind(Settings(), old(nextSnapshotIndex), old(lastSnapshotTime), targetTime, now).Reject?
      ensures State() == Rewound(Settings(), old(State()), targetTime, now, rm)
    {
      PlanBounds(Settings(), nextSnapshotIndex, lastSnapshotTime, targetTime, now);
      ghost var s0 := State();
      ghost var plan := PlanRewind(Settings(), nextSnapshotIndex, lastSnapshotTime, targetTime, now);
      if nextSnapshotIndex == 0 {
        return false;
      }
      var withinMargin := false;
      var targetSnapshotIndex := GetIndexAtTime(nextSnapshotIndex, lastSnapshotTime, snapshotTimeInterval, targetTime);
      var roundedSnapshotIndex := RoundToEven(targetSnapshotIndex);
      if AbsReal(roundedSnapshotIndex as real - targetSnapshotIndex) <= timeErrorMargin &&
         roundedSnapshotIndex <= nextSnapshotIndex - 1 {
        withinMargin := true;
        targetSnapshotIndex := roundedSnapshotIndex as real;
      }
      var tooEarly := targetSnapshotIndex < 0.0 || targetSnapshotIndex < (nextSnapshotIndex - maxSnapshotCount) as real;
      if tooEarly || targetTime > now {
        // The source logs a warning.
        return false;
      }
      if withinMargin && roundedSnapshotIndex <= nextSnapshotIndex - 1 {
        assert TruncToInt(targetSnapshotIndex) == roundedSnapshotIndex;
        assert plan == Direct(roundedSnapshotIndex);
        ok := RewindToSnapshot(snapshots[roundedSnapshotIndex % maxSnapshotCount]);
      } else {
        var lhsIndex := TruncToInt(targetSnapshotIndex);
        var toLive := lhsIndex == nextSnapshotIndex - 1;
        var lerpVal: real;
        if toLive {
          LiveBlendSpan(Settings(), nextSnapshotIndex, lastSnapshotTime, targetTime, now);
          lerpVal := (targetTime - lastSnapshotTime) / (now - lastSnapshotTime);
        } else {
          lerpVal := targetSnapshotIndex - lhsIndex as real;
        }
        assert plan == Blend(lhsIndex, toLive, lerpVal);
        ok := RewindBlend(lhsIndex, toLive, lerpVal, rm);
      }
    }

    /**
     * Rewind's blending branch: the right-hand snapshot is the next one, or
     * the live pose (saved first); the two are blended hitbox by hitbox and
     * the result is loaded.
     */
    method RewindBlend(lhsIndex: int, toLive: bool, lerpVal: real, rm: RotationMath) returns (ok: bool)
      requires Valid() && lhsIndex >= 0
      modifies this`savedSnapshot, this`lerpSnapshot, this`rewound, hitBoxes
      ensures Valid() && ok
      ensures State() == Blended(Settings(), old(State()), lhsIndex, toLive, lerpVal, rm)
    {
      var lhs := snapshots[lhsIndex % maxSnapshotCount];
      var rhs: HitboxSnapshot;
      if toLive {
        if !rewound {
          savedSnapshot := SetFromTransforms(savedSnapshot, hitBoxes);
        }
        rhs := savedSnapshot;
      } else {
        rhs := snapshots[(lhsIndex + 1) % maxSnapshotCount];
      }
      LerpInto(lhs, rhs, lerpVal, rm);
      ok := RewindToSnapshot(lerpSnapshot);
    }

    /** Rewind's loop: every hitbox of the interpolated snapshot is blended from the two snapshots. */
    method LerpInto(lhs: HitboxSnapshot, rhs: HitboxSnapshot, lerpVal: real, rm: RotationMath)
      requires Holds(lhs, hitboxCount) && Holds(rhs, hitboxCount) && Holds(lerpSnapshot, hitboxCount)
      modifies this`lerpSnapshot
      ensures lerpSnapshot == Lerped(lhs, rhs, lerpVal, rm, hitboxCount)
    {
      for i := 0 to hitboxCount
        invariant Holds(lerpSnapshot, hitboxCount)
        invariant forall k :: 0 <= k < i ==> lerpSnapshot.positions[k] == Lerp(lhs.positions[k], rhs.positions[k], lerpVal)
        invariant forall k :: 0 <= k < i ==> lerpSnapshot.rotations[k] == rm.lerp(lhs.rotations[k], rhs.rotations[k], lerpVal)
      {
        lerpSnapshot := lerpSnapshot.(positions := lerpSnapshot.positions[i := Lerp(lhs.positions[i], rhs.positions[i], lerpVal)],
                                      rotations := lerpSnapshot.rotations[i := rm.lerp(lhs.rotations[i], rhs.rotations[i], lerpVal)]);
      }
    }

    /** RewindToSnapshot: save the live pose unless already rewound, load the snapshot, and mark rewound. */
    method RewindToSnapshot(snapshot: HitboxSnapshot) returns (ok: bool)
      requires Valid() && Holds(snapshot, hitboxCount)
      modifies this`savedSnapshot, this`rewound, hitBoxes
      ensures Valid() && ok
      ensures State() == old(State()).(saved := Saving(old(State())), live := PosesOf(snapshot), rewound := true)
    {
      if !rewound {
        savedSnapshot := SetFromTransforms(savedSnapshot, hitBoxes);
      }
      LoadSnapshot(snapshot);
      rewound := true;
      return true;
    }

    /** Restore: when rewound, load the saved snapshot and clear the flag. */
    method Restore() returns (ok: bool)
      requires Valid()
      modifies this`rewound, hitBoxes
      ensures Valid()
      ensures ok == old(rewound)
      ensures State() == Restored(old(State()))
    {
      if rewound {
        LoadSnapshot(savedSnapshot);
        rewound := false;
        return true;
      }
      return false;
    }

    /** LoadSnapshot: every transform takes the snapshot's position and rotation. */
    method LoadSnapshot(snapshot: HitboxSnapshot)
      requires hitBoxes.Length == hitboxCount && Holds(snapshot, hitboxCount)
      modifies hitBoxes
      ensures hitBoxes[..] == PosesOf(snapshot)
    {
      for i := 0 to hitboxCount
        invariant forall k :: 0 <= k < i ==> hitBoxes[k] == Pose(snapshot.positions[k], snapshot.rotations[k])
      {
        hitBoxes[i] := Pose(snapshot.positions[i], snapshot.rotations[i]);
      }
    }
  }
}
