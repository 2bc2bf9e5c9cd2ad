# TimePhysics: lag-compensated hit detection, modelled in Dafny

TimePhysics is a Unity library for server-side lag compensation. Every
fixed physics step it records where each registered hitbox body was. A
query about the past ("did this shot, fired 80 ms ago, hit anyone?") opens
a rewind request. A one-frame or one-second request is a `RewindState`.
While the request is open, the library's wrappers for the engine's physics
queries work in two stages:
- They build an axis-aligned box around the query shape. For a cast, the
  box covers the whole swept path.
- Every registered body whose proximity bounds at the requested moment
  meet that box is moved back in time, and then the engine's query runs.

Disposing the request puts every moved body back.

Each `HitboxBody` keeps a ring of 60 snapshots, one slot per world frame:
- A body with a snapshot interval of k captures only the frames divisible
  by k. The other frames only mark their slot as not real.
- For a fractional frame, or a frame the body did not capture, the body
  blends the two neighbouring captured slots.

The repository also contains `NetRewinder`, a self-contained component
with the same purpose. It records poses every few physics steps into a
circular array of variable size and rewinds by time, interpolating between
snapshots or between the newest snapshot and the live pose.

The model has these modules:
- **UnityTypes** (`unity.dfy`) and **Numerics** (`numerics.dfy`) hold the
  engine's value types and the rounding functions. Vector3, Bounds,
  Matrix4x4 and Quaternion are exact real arithmetic. `Mathf.FloorToInt`,
  `Mathf.CeilToInt` and `Mathf.Round` (round half to even) are modelled,
  and so are C#'s truncating `%` and the truncating `(int)` cast.
- **ExtensionMethods**: `With` and `Add` on Vector3. A nullable float is an
  `Option<real>`.
- **MatrixUtils**: the box-through-matrix transform (`LocalToWorld`, kept as
  its nested loop), translation extraction and construction, `LerpBounds`,
  and the position half of `LerpMatrixTR`.
- **RewindStates**: the two `RewindState` constructors, the validity
  checks, and `TimePhysics.IsFrameValid`.
- **HitboxSnapshots**: the snapshot class, one ring slot.
- **HitboxBodies**: the `HitboxBody` class over real arrays and objects. Its
  behaviour is specified by a value `BodyModel` and the functions
  `Captured`, `Rewound` and `Restored`.
- **SweptBounds**: the boxes the cast and overlap wrappers rewind with.
- **TimePhysics**: the static class as a `World` object over a fixed set of
  bodies, with its registry, rewound list and loops.
- **NetRewinders**: the snapshot struct as a value, and the `NetRewinder`
  class over arrays. Its behaviour is specified by a value `RewinderState`,
  a rewind `Plan`, and the transition functions `Rewound`, `Restored`,
  `Snapshotted` and `Ticked`.

Behaviours of the source that the model keeps exactly, each stated by a
lemma:
- Two window checks disagree. The frame a rewind request accepts needs
  only `frame >= WorldFrame - 60`. That check has no upper bound, and the
  boundary is inclusive. `IsFrameValid` excludes the boundary and future
  frames.
- The boundary frame `WorldFrame - 60` shares its ring slot with
  `WorldFrame`. A rewind to it shows the present
  (`HitboxBodies.BoundaryRewindShowsPresent`).
- A seconds request that snaps up to the later frame keeps its fraction
  (`RewindStates.SecondsRequestShape`, for every request). The body's
  `LerpFrame` then adds that fraction again
  (`HitboxBodies.SnapUpBlendOvershoots`, an instance).
- `RewindBody` appends the body to the rewound list before calling its
  `Rewind`, whether or not that call does anything.

## Model

| member | source | states |
|---|---|---|
| ExtensionMethods.With | Assets/Scripts/Unitilities/ExtensionMethods.cs:7-10 | each supplied component replaces v's, each omitted one keeps v's |
| ExtensionMethods.Add | Assets/Scripts/Unitilities/ExtensionMethods.cs:12-18 | the result is v plus the vector of supplied components, omitted ones counting as zero |
| ExtensionMethods.NothingSupplied | Assets/Scripts/Unitilities/ExtensionMethods.cs:7-18 | with no component supplied both helpers return v |
| ExtensionMethods.WithIdempotent | Assets/Scripts/Unitilities/ExtensionMethods.cs:7-10 | With applied twice with the same arguments equals With once |
| ExtensionMethods.WithOverrides | Assets/Scripts/Unitilities/ExtensionMethods.cs:7-10 | a later With supplying all components overrides any earlier one |
| ExtensionMethods.AddInverse | Assets/Scripts/Unitilities/ExtensionMethods.cs:12-18 | adding the negated components undoes Add |
| ExtensionMethods.AddIsWithOfSum | Assets/Scripts/Unitilities/ExtensionMethods.cs:7-18 | Add is With of the component sums |
| ExtensionMethods.AddCommutes | Assets/Scripts/Unitilities/ExtensionMethods.cs:12-18 | two Adds commute |
| MatrixUtils.ExtractTranslationFromMatrix | Assets/Scripts/Unitilities/MatrixUtils.cs:68-71 | component i of the result is the matrix's entry (i, 3) |
| MatrixUtils.TranslationMatrix | Assets/Scripts/Unitilities/MatrixUtils.cs:140-147 | the 3x3 block is the identity and the bottom row is (0, 0, 0, 1) |
| MatrixUtils.TranslationRoundTrip | Assets/Scripts/Unitilities/MatrixUtils.cs:140-147 | extracting the translation of TranslationMatrix(offset) gives offset back |
| MatrixUtils.WorldMatrixTranslation | Assets/Scripts/Unitilities/MatrixUtils.cs:68-71 | the translation of a transform's world matrix is its position |
| MatrixUtils.Spread | Assets/Scripts/Unitilities/MatrixUtils.cs:26-52 | the two products of entry (i, j) with the box's extremes on axis j, smaller first |
| MatrixUtils.AddColumn | Assets/Scripts/Unitilities/MatrixUtils.cs:29-52 | one inner step adds the smaller product to min[i] and the larger to max[i] and keeps every other axis |
| MatrixUtils.AccumulateStep | Assets/Scripts/Unitilities/MatrixUtils.cs:21-54 | one column step keeps the loop's account of the finished columns of every row |
| MatrixUtils.TransformBounds | Assets/Scripts/Unitilities/MatrixUtils.cs:13-57 | on every axis min is the translation plus the sum of the smaller products, max the same with the larger |
| MatrixUtils.LocalToWorld | Assets/Scripts/Unitilities/MatrixUtils.cs:13-57 | the nested loop computes exactly TransformBounds |
| MatrixUtils.AxisOrdered | Assets/Scripts/Unitilities/MatrixUtils.cs:21-54 | the accumulated low end of an axis never exceeds the high end |
| MatrixUtils.TransformBoundsOrdered | Assets/Scripts/Unitilities/MatrixUtils.cs:13-57 | for every box and matrix the transformed box has min <= max on every axis |
| MatrixUtils.AxisOfIdentityRow | Assets/Scripts/Unitilities/MatrixUtils.cs:21-54 | a row of the identity contributes only the box's own extremes on that axis |
| MatrixUtils.TransformBoundsPureTranslation | Assets/Scripts/Unitilities/MatrixUtils.cs:13-57 | through a matrix with identity 3x3 block a box with non-negative extents is only moved by the translation |
| MatrixUtils.LerpBounds | Assets/Scripts/Unitilities/MatrixUtils.cs:189-194 | the centre is the lerp of the centres and the size the lerp of the sizes |
| MatrixUtils.LerpBoundsEndpoints | Assets/Scripts/Unitilities/MatrixUtils.cs:189-194 | at fraction <= 0 the first box, at >= 1 the second (Vector3.Lerp clamps) |
| MatrixUtils.LerpMatrixTR | Assets/Scripts/Unitilities/MatrixUtils.cs:164-174 | the position is the lerp of the two matrices' translations |
| MatrixUtils.LerpMatrixTRPosition | Assets/Scripts/Unitilities/MatrixUtils.cs:164-174 | the position is the first translation at 0, the second at 1, and between the two on every axis |
| HitboxSnapshots.HitboxSnapshot.constructor | Assets/Scripts/HitboxRewinder/HitboxSnapshot.cs:11-15 | a fresh matrix array of numHitboxes zero matrices, default bounds, not real |
| RewindStates.IsFrameRewindValid | Assets/Scripts/HitboxRewinder/TimePhysics.cs:81 | on a whole frame the frame check agrees with the fractional check |
| RewindStates.IsLerpRewindValid | Assets/Scripts/HitboxRewinder/TimePhysics.cs:83 | a fractional frame passes iff the frame it lies in (its floor) passes the frame check |
| RewindStates.IsFrameValid | Assets/Scripts/HitboxRewinder/TimePhysics.cs:128-131 | every frame IsFrameValid accepts is accepted by a frame request |
| RewindStates.ValidFramesHaveOwnSlots | Assets/Scripts/HitboxRewinder/TimePhysics.cs:128-131 | two different valid frames never share a ring slot, so no valid frame has been overwritten |
| RewindStates.FrameRequest | Assets/Scripts/HitboxRewinder/TimePhysics.cs:43-55 | a non-blending request for exactly that frame, valid iff the frame is at least WorldFrame - 60 |
| RewindStates.SecondsRequest | Assets/Scripts/HitboxRewinder/TimePhysics.cs:57-79 | every seconds request has Frame <= Frame2 |
| RewindStates.SecondsRequestShape | Assets/Scripts/HitboxRewinder/TimePhysics.cs:57-79 | in every branch LerpVal is the fractional frame minus its floor and Frame2 its ceiling; the request blends iff LerpVal is strictly inside the margins, and then spans consecutive frames with Frame + LerpVal the fractional frame; snapping down names the floor, snapping up names Frame2 = floor + 1 and keeps LerpVal; a non-blend is within the margin of the fractional frame; Valid is the fractional check for a blend and the frame check otherwise |
| RewindStates.WholeStepSecondsRequest | Assets/Scripts/HitboxRewinder/TimePhysics.cs:43-79 | a request for k whole time steps equals the frame request for WorldFrame - k |
| RewindStates.SnapUpKeepsLerpVal | Assets/Scripts/HitboxRewinder/TimePhysics.cs:62-72 | a request snapping up to frame 100 is a valid non-blend for 100 whose LerpVal is still 0.9995 |
| RewindStates.SecondsRequestValidity | Assets/Scripts/HitboxRewinder/TimePhysics.cs:73-83 | a request inside the window is valid, and a valid one is at most the margin outside it |
| RewindStates.RewindValidAgainstFrameValid | Assets/Scripts/HitboxRewinder/TimePhysics.cs:81-131 | a frame request is valid iff IsFrameValid holds, or the frame is the boundary, or a future frame |
| RewindStates.WindowBoundarySharesSlot | Assets/Scripts/HitboxRewinder/TimePhysics.cs:81-131 | the boundary frame is accepted, is not a valid frame, and has the current frame's slot |
| RewindStates.FutureFrameAccepted | Assets/Scripts/HitboxRewinder/TimePhysics.cs:81-131 | a frame not yet recorded is accepted for rewinding but is not a valid frame |
| HitboxBodies.LerpFrame | Assets/Scripts/HitboxRewinder/HitboxBody.cs:210-221 | always a blend of two slots inside the ring |
| HitboxBodies.LerpFrameBetween | Assets/Scripts/HitboxRewinder/HitboxBody.cs:223-236 | always a blend of two slots inside the ring |
| HitboxBodies.SlotRange | Assets/Scripts/HitboxRewinder/HitboxBody.cs:212-215 | the floor slot is inside the ring and the ceiling slot is not negative |
| HitboxBodies.Resolve | Assets/Scripts/HitboxRewinder/HitboxBody.cs:142-150 | the slot or the two slots read lie inside the ring |
| HitboxBodies.LerpFrameOfRequest | Assets/Scripts/HitboxRewinder/HitboxBody.cs:198-208 | a blending request uses the two-frame overload, any other the one-frame overload |
| HitboxBodies.GridSlots | Assets/Scripts/HitboxRewinder/HitboxBody.cs:212-218 | on the grid, the floor and ceiling slots and the fraction in integer terms |
| HitboxBodies.LerpFrameOnGrid | Assets/Scripts/HitboxRewinder/HitboxBody.cs:210-221 | on an interval dividing 60 the blend reads the captured slots just below and above the frame, with the offset in intervals plus the world fraction in intervals |
| HitboxBodies.LerpFrameBetweenOnGrid | Assets/Scripts/HitboxRewinder/HitboxBody.cs:223-236 | the same for the two-frame overload |
| HitboxBodies.CapturedSlots | Assets/Scripts/HitboxRewinder/HitboxBody.cs:210-236 | both slots a blend reads are slots the interval captures |
| HitboxBodies.AboveNext | Assets/Scripts/HitboxRewinder/HitboxBody.cs:229-232 | the captured slot at or above the next slot is the captured slot after the one at or below |
| HitboxBodies.FractionBelowOne | Assets/Scripts/HitboxRewinder/HitboxBody.cs:233 | the blend fraction stays below one when the request's fraction does |
| HitboxBodies.ConsecutiveBlend | Assets/Scripts/HitboxRewinder/HitboxBody.cs:223-236 | a blend of consecutive frames reads the captured slot at or below the first and the next captured slot, fraction in [0, 1) |
| HitboxBodies.EveryFrameInterval | Assets/Scripts/HitboxRewinder/HitboxBody.cs:238-249 | at interval 1 a rewind reads exactly the requested frames and fraction |
| HitboxBodies.LerpFrameExample | Assets/Scripts/HitboxRewinder/HitboxBody.cs:210-221 | frame 53 at interval 5 blends slots 50 and 55 at 0.6 |
| HitboxBodies.SnapUpBlendOvershoots | Assets/Scripts/HitboxRewinder/HitboxBody.cs:210-221 | a request snapped up to frame 100 blends slots 39 and 42 at 0.6665 where the whole-frame request blends at one third |
| HitboxBodies.SlotOnGrid | Assets/Scripts/HitboxRewinder/HitboxBody.cs:74 | on an interval dividing 60 a frame is captured iff its slot is on the grid |
| HitboxBodies.Matrices | Assets/Scripts/HitboxRewinder/HitboxBody.cs:81-82 | one world matrix per hitbox pose |
| HitboxBodies.Posed | Assets/Scripts/HitboxRewinder/HitboxBody.cs:116-119 | one pose per matrix, at its translation and extracted rotation |
| HitboxBodies.Blended | Assets/Scripts/HitboxRewinder/HitboxBody.cs:128-137 | one pose per pair of matrices, from LerpMatrixTR |
| HitboxBodies.CaptureNow | Assets/Scripts/HitboxRewinder/HitboxBody.cs:76-82 | a captured slot is real, its box through the body's own matrix (any scale) has min <= max, and each matrix carries its hitbox's position |
| HitboxBodies.Captured | Assets/Scripts/HitboxRewinder/HitboxBody.cs:67-89 | a capture keeps the body well formed |
| HitboxBodies.SampledPoses | Assets/Scripts/HitboxRewinder/HitboxBody.cs:243-249 | the rewound poses, one per hitbox |
| HitboxBodies.SampledBounds | Assets/Scripts/HitboxRewinder/HitboxBody.cs:166-196 | a direct sample reads its slot's box; blending two slots holding the same box gives that box |
| HitboxBodies.BoundsHit | Assets/Scripts/HitboxRewinder/HitboxBody.cs:140-176 | never at or before the body's start frame; otherwise the query meets the sampled box (symmetric form) |
| HitboxBodies.RayHitsBody | Assets/Scripts/HitboxRewinder/HitboxBody.cs:153-196 | never at or before the body's start frame; a hit is a hit of the engine's ray test against the sampled box |
| HitboxBodies.LongerRayHits | Assets/Scripts/HitboxRewinder/HitboxBody.cs:153-196 | a body a ray hits within maxDistance it also hits within any longer distance |
| HitboxBodies.Rewound | Assets/Scripts/HitboxRewinder/HitboxBody.cs:238-252 | a rewind keeps the body well formed |
| HitboxBodies.Restored | Assets/Scripts/HitboxRewinder/HitboxBody.cs:270-280 | a restore keeps the body well formed |
| HitboxBodies.CaptureWritesOneSlot | Assets/Scripts/HitboxRewinder/HitboxBody.cs:67-89 | only slot index changes; a newer frame becomes the last frame, its slot is real iff the interval divides the frame, and then holds the hitboxes' positions |
| HitboxBodies.ResolveReadsCapturedSlots | Assets/Scripts/HitboxRewinder/HitboxBody.cs:140-150 | on an interval dividing 60 every slot a rewind reads is one the interval captures |
| HitboxBodies.CapturedSlotIsReal | Assets/Scripts/HitboxRewinder/HitboxBody.cs:67-89 | a capture at a frame's own slot makes it real iff the slot is on the grid |
| HitboxBodies.RewindThenRestore | Assets/Scripts/HitboxRewinder/HitboxBody.cs:238-280 | rewind then restore gives every hitbox its position back, keeps the ring and last frame, clears the flag, and gives back rotations when rotation extraction inverts the world matrix |
| HitboxBodies.RestoreIdempotent | Assets/Scripts/HitboxRewinder/HitboxBody.cs:270-280 | restoring twice is restoring once, and the body is no longer rewound |
| HitboxBodies.SecondRewindIgnored | Assets/Scripts/HitboxRewinder/HitboxBody.cs:238-252 | a second rewind with any request changes nothing, so one restore still gives back the positions from before both |
| HitboxBodies.BoundaryRewindShowsPresent | Assets/Scripts/HitboxRewinder/HitboxBody.cs:242-249 | right after capturing frame w, a valid rewind to w - 60 reads slot w % 60 directly and shows the present positions |
| HitboxBodies.BoundaryRequestIsDirect | Assets/Scripts/HitboxRewinder/HitboxBody.cs:243-244 | the request for w - 60 is valid at world frame w and reads slot w % 60 directly |
| HitboxBodies.WiderQueryGatesMore | Assets/Scripts/HitboxRewinder/HitboxBody.cs:140-176 | a body a query box gates is gated by any box that contains it |
| HitboxBodies.CoerceInterval | Assets/Scripts/HitboxRewinder/HitboxBody.cs:46-54 | the interval left is positive, and one that already divides 60 is kept |
| HitboxBodies.Retry | Assets/Scripts/HitboxRewinder/HitboxBody.cs:51-53 | the retries of OnValidate keep the interval positive |
| HitboxBodies.NextTryPositive | Assets/Scripts/HitboxRewinder/HitboxBody.cs:53 | one retry from a positive interval not dividing 60 gives a positive interval |
| HitboxBodies.LargestDivisorIsLargest | Assets/Scripts/HitboxRewinder/HitboxBody.cs:46-54 | the interval OnValidate aims at divides 60, is not above n, and no larger divisor of 60 is |
| HitboxBodies.CoerceIntervalIsLargestDivisor | Assets/Scripts/HitboxRewinder/HitboxBody.cs:46-54 | four retries always suffice: OnValidate leaves the largest divisor of 60 not above the interval (1 for non-positive) |
| HitboxBodies.WriteSlot | Assets/Scripts/HitboxRewinder/HitboxBody.cs:72-85 | a captured frame makes the slot real with the world bounds and every hitbox matrix; a skipped one only marks it not real |
| HitboxBodies.NewRing | Assets/Scripts/HitboxRewinder/HitboxBody.cs:29-41 | 60 distinct fresh empty slots with their own matrix arrays |
| HitboxBodies.HitboxBody.constructor | Assets/Scripts/HitboxRewinder/HitboxBody.cs:27-44 | 60 empty slots and a restore slot sized for the hitboxes; not rewound, no frame captured |
| HitboxBodies.HitboxBody.OnValidate | Assets/Scripts/HitboxRewinder/HitboxBody.cs:46-54 | the interval becomes CoerceInterval of the old one, which divides 60 |
| HitboxBodies.HitboxBody.OnEnable | Assets/Scripts/HitboxRewinder/HitboxBody.cs:56-60 | the start frame becomes the world frame |
| HitboxBodies.HitboxBody.TakeSnapshot | Assets/Scripts/HitboxRewinder/HitboxBody.cs:67-89 | the new body value is Captured of the old |
| HitboxBodies.HitboxBody.TakeRestoreSnapshot | Assets/Scripts/HitboxRewinder/HitboxBody.cs:91-98 | unless rewound the restore slot holds every hitbox's current matrix |
| HitboxBodies.HitboxBody.RestoreSnapshot | Assets/Scripts/HitboxRewinder/HitboxBody.cs:100-109 | when rewound every hitbox is put at its saved matrix |
| HitboxBodies.HitboxBody.SetActiveSnapshot | Assets/Scripts/HitboxRewinder/HitboxBody.cs:111-120 | every hitbox is put at the slot's matrix |
| HitboxBodies.HitboxBody.SetActiveSnapshotLerp | Assets/Scripts/HitboxRewinder/HitboxBody.cs:122-138 | every hitbox is put at LerpMatrixTR of the two slots' matrices |
| HitboxBodies.HitboxBody.Rewind | Assets/Scripts/HitboxRewinder/HitboxBody.cs:238-252 | false with nothing changed when rewound or the world is not; otherwise the new value is Rewound of the old |
| HitboxBodies.HitboxBody.RewindTo | Assets/Scripts/HitboxRewinder/HitboxBody.cs:243-268 | the matrices are saved, then the hitboxes take the resolved slot or blend |
| HitboxBodies.HitboxBody.Restore | Assets/Scripts/HitboxRewinder/HitboxBody.cs:270-280 | returns whether the body was rewound, and the new value is Restored of the old |
| HitboxBodies.HitboxBody.OverlapBounds | Assets/Scripts/HitboxRewinder/HitboxBody.cs:140-176 | false up to the start frame, otherwise whether the resolved bounds meet the query; nothing changes |
| HitboxBodies.HitboxBody.Raycast | Assets/Scripts/HitboxRewinder/HitboxBody.cs:153-196 | false up to the start frame, otherwise whether the ray test against the resolved bounds hits within maxDistance; nothing changes |
| SweptBounds.OverlapSphereBounds | Assets/Scripts/HitboxRewinder/TimePhysics.cs:247 | the box is centred on the position with half-extent radius on every axis |
| SweptBounds.SphereIsPointCapsule | Assets/Scripts/HitboxRewinder/TimePhysics.cs:247 | a sphere's box is the capsule box of two coinciding end points |
| SweptBounds.OverlapBoxBounds | Assets/Scripts/HitboxRewinder/TimePhysics.cs:255 | the box is centred on the box's centre with the half extents, whatever the orientation |
| SweptBounds.CapsuleBounds | Assets/Scripts/HitboxRewinder/TimePhysics.cs:202-208 | the box is centred midway between the end points, with half-extent half their distance plus the radius on every axis |
| SweptBounds.CapsuleIsSweptSphere | Assets/Scripts/HitboxRewinder/TimePhysics.cs:202-208 | for a non-negative radius the capsule box is the sphere at point1 swept to point2 |
| SweptBounds.OverlapCapsuleBoundsAsWritten | Assets/Scripts/HitboxRewinder/TimePhysics.cs:264-266 | same centre and y half-extent as the capsule box, but only the radius as half-extent on x and z |
| SweptBounds.Swept | Assets/Scripts/HitboxRewinder/TimePhysics.cs:158-160 | the swept box contains the start box and the box moved by direction * maxDistance |
| SweptBounds.SweptHull | Assets/Scripts/HitboxRewinder/TimePhysics.cs:158-160 | the swept box spans the lowest and highest corners of its two end boxes |
| SweptBounds.SphereCastBounds | Assets/Scripts/HitboxRewinder/TimePhysics.cs:155-175 | the box is the sphere's box swept by direction * maxDistance |
| SweptBounds.BoxCastBounds | Assets/Scripts/HitboxRewinder/TimePhysics.cs:177-197 | the box is the half-extents box swept by direction * maxDistance |
| SweptBounds.CapsuleCastBounds | Assets/Scripts/HitboxRewinder/TimePhysics.cs:199-243 | the box is the capsule's box swept by direction * maxDistance |
| SweptBounds.EncapsulateContainsBoth | Assets/Scripts/HitboxRewinder/TimePhysics.cs:160 | Encapsulate contains both boxes |
| SweptBounds.SweptCoversPath | Assets/Scripts/HitboxRewinder/TimePhysics.cs:158-160 | for every t in [0, maxDistance] the start box moved by direction * t lies in the swept box |
| SweptBounds.SphereCastCoversPath | Assets/Scripts/HitboxRewinder/TimePhysics.cs:155-164 | every sphere along the cast lies in the box it rewinds with |
| SweptBounds.BoxCastCoversPath | Assets/Scripts/HitboxRewinder/TimePhysics.cs:177-186 | every box along the cast lies in the box it rewinds with |
| SweptBounds.CapsuleCastCoversPath | Assets/Scripts/HitboxRewinder/TimePhysics.cs:199-220 | every capsule box along the cast lies in the box it rewinds with |
| SweptBounds.CapsuleBoundsCoverEnds | Assets/Scripts/HitboxRewinder/TimePhysics.cs:202-208 | the capsule's box contains the spheres at both end points |
| SweptBounds.OverlapCapsuleAsWrittenMissesEnd | Assets/Scripts/HitboxRewinder/TimePhysics.cs:264-266 | with end points apart along x, the built box misses the sphere at point1, which the capsule's box contains |
| SweptBounds.OverlapCapsuleAsWrittenAlongY | Assets/Scripts/HitboxRewinder/TimePhysics.cs:264-266 | with end points apart only along y, the built box is the capsule's box |
| TimePhysics.CaptureAll | Assets/Scripts/HitboxRewinder/TimePhysics.cs:117-126 | capturing keeps every body well formed and the same bodies |
| TimePhysics.RestoreAll | Assets/Scripts/HitboxRewinder/TimePhysics.cs:309-315 | restoring keeps every body well formed and the same bodies |
| TimePhysics.RewindAll | Assets/Scripts/HitboxRewinder/TimePhysics.cs:279-293 | rewinding keeps every body well formed and the same bodies |
| TimePhysics.Hits | Assets/Scripts/HitboxRewinder/TimePhysics.cs:279-293 | every hit body is registered and started before the requested frame |
| TimePhysics.World.constructor | Assets/Scripts/HitboxRewinder/TimePhysics.cs:16-21 | world frame -1, not rewound, default request, nothing registered or listed |
| TimePhysics.World.TakeSnapshot | Assets/Scripts/HitboxRewinder/TimePhysics.cs:117-126 | the frame advances by one and every registered body, and no other, captures it in slot frame % 60 |
| TimePhysics.World.CaptureRegistered | Assets/Scripts/HitboxRewinder/TimePhysics.cs:123-124 | the loop leaves exactly the registered bodies captured |
| TimePhysics.World.SnapshotOne | Assets/Scripts/HitboxRewinder/TimePhysics.cs:124 | that body captures the frame and no other body changes |
| TimePhysics.World.IsFrameValidNow | Assets/Scripts/HitboxRewinder/TimePhysics.cs:128-131 | a valid frame lies less than a ring's length back and not ahead, and a frame request for it is valid |
| TimePhysics.World.RegisterHitboxBody | Assets/Scripts/HitboxRewinder/TimePhysics.cs:133-136 | the registry gains the body |
| TimePhysics.World.UnregisterHitboxBody | Assets/Scripts/HitboxRewinder/TimePhysics.cs:138-141 | the registry loses the body |
| TimePhysics.World.EnableBody | Assets/Scripts/HitboxRewinder/HitboxBody.cs:56-60 | the body is registered and its start frame is the world frame; no other body changes |
| TimePhysics.World.StartOne | Assets/Scripts/HitboxRewinder/HitboxBody.cs:59 | only that body's start frame changes, to the world frame |
| TimePhysics.World.DisableBody | Assets/Scripts/HitboxRewinder/HitboxBody.cs:62-65 | the registry loses the body |
| TimePhysics.World.BeginRewind | Assets/Scripts/HitboxRewinder/TimePhysics.cs:303-307 | the request becomes the world's and the world is rewound |
| TimePhysics.World.BeginIfValid | Assets/Scripts/HitboxRewinder/TimePhysics.cs:51-54 | a valid request begins the rewind, an invalid one changes nothing |
| TimePhysics.World.RewindWorld | Assets/Scripts/HitboxRewinder/TimePhysics.cs:31 | the result is the frame request, and it begins the rewind iff valid |
| TimePhysics.World.RewindFrames | Assets/Scripts/HitboxRewinder/TimePhysics.cs:32 | the frame request for WorldFrame - frames, begun iff valid |
| TimePhysics.World.RewindSeconds | Assets/Scripts/HitboxRewinder/TimePhysics.cs:33 | the seconds request, begun iff valid |
| TimePhysics.World.Restore | Assets/Scripts/HitboxRewinder/TimePhysics.cs:309-315 | every listed body is restored, once even when listed twice; the list is empty and the world not rewound |
| TimePhysics.World.RestoreListed | Assets/Scripts/HitboxRewinder/TimePhysics.cs:311-312 | the loop leaves exactly the listed bodies restored |
| TimePhysics.World.RestoreOne | Assets/Scripts/HitboxRewinder/TimePhysics.cs:312 | that body is restored and no other changes |
| TimePhysics.World.Dispose | Assets/Scripts/HitboxRewinder/TimePhysics.cs:85-90 | a valid request restores the world, an invalid one changes nothing |
| TimePhysics.World.RewindBoundsHits | Assets/Scripts/HitboxRewinder/TimePhysics.cs:286-295 | in a rewound world exactly the registered bodies the box hits are rewound and appended; otherwise nothing changes |
| TimePhysics.World.RewindRayHits | Assets/Scripts/HitboxRewinder/TimePhysics.cs:272-284 | in a rewound world exactly the registered bodies the ray hits within maxDistance are rewound and appended; otherwise nothing changes |
| TimePhysics.World.RewindEachHit | Assets/Scripts/HitboxRewinder/TimePhysics.cs:279-281 | the loop rewinds and appends exactly the hit bodies |
| TimePhysics.World.ProbeNext | Assets/Scripts/HitboxRewinder/TimePhysics.cs:280-281 | one more body extends the hits, the rewound values and the list by it exactly on a hit |
| TimePhysics.World.ProbeOne | Assets/Scripts/HitboxRewinder/TimePhysics.cs:292-293 | the body's own test decides; on a hit the body is rewound and appended |
| TimePhysics.World.Query | Assets/Scripts/HitboxRewinder/TimePhysics.cs:280-292 | the body's OverlapBounds or Raycast result for the probe, from its current value, changing nothing |
| TimePhysics.World.RewindBody | Assets/Scripts/HitboxRewinder/TimePhysics.cs:297-301 | the body is appended whether or not its Rewind acts, and follows Rewound |
| TimePhysics.World.RewindOne | Assets/Scripts/HitboxRewinder/TimePhysics.cs:300 | that body follows Rewound and no other body changes |
| TimePhysics.HitsStep | Assets/Scripts/HitboxRewinder/TimePhysics.cs:291-293 | probing one more body adds it to the hits iff the probe hits it |
| TimePhysics.CaptureAllStep | Assets/Scripts/HitboxRewinder/TimePhysics.cs:123-124 | capturing one more body extends the captured map by that body's capture |
| TimePhysics.RestoreAllStep | Assets/Scripts/HitboxRewinder/TimePhysics.cs:311-312 | restoring one more body extends the restored set, also for a body listed twice |
| TimePhysics.RewindAllStep | Assets/Scripts/HitboxRewinder/TimePhysics.cs:291-293 | rewinding one more body extends the rewound set by it |
| TimePhysics.ProbeStep | Assets/Scripts/HitboxRewinder/TimePhysics.cs:291-293 | the probed body is still at its start value, and probing it extends hits, values and list exactly on a hit |
| TimePhysics.RestoreUndoesRewindAll | Assets/Scripts/HitboxRewinder/TimePhysics.cs:286-315 | rewinding bodies and restoring them gives each its positions and ring back, not rewound; other bodies unchanged |
| TimePhysics.WiderBoxHitsMore | Assets/Scripts/HitboxRewinder/TimePhysics.cs:286-295 | a box inside a wider one hits no body the wider one misses |
| Numerics.CsRem | Assets/Scripts/HitboxRewinder/HitboxBody.cs:212 | C#'s truncating remainder: Euclidean for non-negative operands, the negated remainder of the magnitude otherwise |
| Numerics.FloorToInt | Assets/Scripts/HitboxRewinder/HitboxBody.cs:213 | the largest integer not above x |
| Numerics.CeilToInt | Assets/Scripts/HitboxRewinder/HitboxBody.cs:215 | the smallest integer not below x |
| Numerics.TruncToInt | Assets/Scripts/NetRewinder/NetRewinder.cs:174 | the (int) cast truncates toward zero |
| Numerics.RoundToEven | Assets/Scripts/NetRewinder/NetRewinder.cs:152 | the nearest integer, ties to even |
| NetRewinders.EmptySnapshot | Assets/Scripts/NetRewinder/NetRewinder.cs:15-19 | both arrays hold count default entries |
| NetRewinders.Capture | Assets/Scripts/NetRewinder/NetRewinder.cs:22-31 | a snapshot with one entry per pose |
| NetRewinders.PosesOf | Assets/Scripts/NetRewinder/NetRewinder.cs:233-238 | one pose per snapshot entry |
| NetRewinders.LoadCaptured | Assets/Scripts/NetRewinder/NetRewinder.cs:233-238 | loading a captured snapshot gives back the captured poses |
| NetRewinders.CaptureLoaded | Assets/Scripts/NetRewinder/NetRewinder.cs:36-46 | capturing the poses a snapshot loads gives back the snapshot |
| NetRewinders.FromTransforms | Assets/Scripts/NetRewinder/NetRewinder.cs:22-31 | the loop builds the capture of the transforms |
| NetRewinders.SetFromTransforms | Assets/Scripts/NetRewinder/NetRewinder.cs:36-46 | the snapshot becomes the capture of the transforms, whatever its old count |
| NetRewinders.SetFromSnapshot | Assets/Scripts/NetRewinder/NetRewinder.cs:51-61 | the snapshot becomes equal to its source |
| NetRewinders.GetIndexAtTime | Assets/Scripts/NetRewinder/NetRewinder.cs:206-208 | the target time lies (next - 1 - index) snapshot intervals before the last snapshot time; the index is at most the newest snapshot's iff the time is not after it |
| NetRewinders.PlanRewind | Assets/Scripts/NetRewinder/NetRewinder.cs:146-202 | a plan that acts needs a snapshot and a target not after now; a blend with the live pose starts at the newest snapshot |
| NetRewinders.Saving | Assets/Scripts/NetRewinder/NetRewinder.cs:214-216 | the pose kept for Restore: the saved one when already rewound, else a capture that loads back as the live pose |
| NetRewinders.Restored | Assets/Scripts/NetRewinder/NetRewinder.cs:223-230 | afterwards not rewound; a rewound rewinder takes the saved pose, a live one is unchanged; ring, counters and saved snapshots are kept |
| NetRewinders.SnappedIndex | Assets/Scripts/NetRewinder/NetRewinder.cs:150-157 | a snapped index is the rounded index and at most the newest snapshot; otherwise the index of the time |
| NetRewinders.Lerped | Assets/Scripts/NetRewinder/NetRewinder.cs:195-198 | one blended entry per hitbox |
| NetRewinders.Rewound | Assets/Scripts/NetRewinder/NetRewinder.cs:146-202 | a rewind keeps the rewinder well formed |
| NetRewinders.Blended | Assets/Scripts/NetRewinder/NetRewinder.cs:173-200 | a blending rewind keeps the rewinder well formed |
| NetRewinders.Snapshotted | Assets/Scripts/NetRewinder/NetRewinder.cs:132-142 | a snapshot keeps the rewinder well formed |
| NetRewinders.Ticked | Assets/Scripts/NetRewinder/NetRewinder.cs:118-130 | a physics step keeps the rewinder well formed |
| NetRewinders.LiveBlendSpan | Assets/Scripts/NetRewinder/NetRewinder.cs:181-188 | in a blend with the live pose the target is after the newest snapshot, the divisor is positive and the fraction is in (0, 1] |
| NetRewinders.RejectsExactly | Assets/Scripts/NetRewinder/NetRewinder.cs:146-168 | Rewind refuses iff no snapshot exists, the target is after now, or the snapped index is negative or older than the oldest slot |
| NetRewinders.PlanBounds | Assets/Scripts/NetRewinder/NetRewinder.cs:169-193 | a direct index lies in the window of the last max snapshots; a blend with the next snapshot has fraction in [0, 1), one with the live pose starts at the newest snapshot with fraction in (0, 1] |
| NetRewinders.BlendReadsTakenSnapshots | Assets/Scripts/NetRewinder/NetRewinder.cs:189-193 | with the target less than one interval after the newest snapshot, a two-snapshot blend reads only snapshots taken |
| NetRewinders.SnapshotTimeIsDirect | Assets/Scripts/NetRewinder/NetRewinder.cs:150-171 | the time j intervals before the newest snapshot, inside the history, loads snapshot next - 1 - j directly |
| NetRewinders.RewindKeepsPose | Assets/Scripts/NetRewinder/NetRewinder.cs:212-220 | a rewind keeps the saved copy of the pose from before the first rewind |
| NetRewinders.RewindsKeepPose | Assets/Scripts/NetRewinder/NetRewinder.cs:212-220 | any number of rewinds keeps it |
| NetRewinders.RestoreUndoesRewinds | Assets/Scripts/NetRewinder/NetRewinder.cs:223-230 | rewinds followed by one Restore put the hitboxes back at the pose before the first, not rewound |
| NetRewinders.RestoreWhenLive | Assets/Scripts/NetRewinder/NetRewinder.cs:223-230 | Restore when not rewound changes nothing |
| NetRewinders.RewindToLastSnapshot | Assets/Scripts/NetRewinder/NetRewinder.cs:132-171 | rewinding to the time of the snapshot just taken puts every hitbox at the pose it captured |
| NetRewinders.SnapshotWritesOneSlot | Assets/Scripts/NetRewinder/NetRewinder.cs:135 | a snapshot writes only slot next % max, with the live pose |
| NetRewinders.SnapshotEveryInterval | Assets/Scripts/NetRewinder/NetRewinder.cs:118-130 | from a reset counter, steps before the interval take no snapshot and the interval-th takes one and resets the counter |
| NetRewinders.FirstStepSnapshots | Assets/Scripts/NetRewinder/NetRewinder.cs:107 | the counter Awake sets makes the first physics step take a snapshot |
| NetRewinders.NetRewinder.constructor | Assets/Scripts/NetRewinder/NetRewinder.cs:103-116 | truncated history over slot time plus one slots, all empty; counter at the interval; negative margin becomes 0.001 |
| NetRewinders.NetRewinder.FixedUpdate | Assets/Scripts/NetRewinder/NetRewinder.cs:118-130 | the new state is Ticked of the old |
| NetRewinders.NetRewinder.TakeSnapshot | Assets/Scripts/NetRewinder/NetRewinder.cs:132-142 | when not rewound slot next % max captures the transforms, next advances and the time is kept; otherwise nothing changes |
| NetRewinders.NetRewinder.Rewind | Assets/Scripts/NetRewinder/NetRewinder.cs:146-202 | returns whether the plan is carried out, and the new state is Rewound of the old |
| NetRewinders.NetRewinder.RewindBlend | Assets/Scripts/NetRewinder/NetRewinder.cs:173-200 | the new state is Blended of the old |
| NetRewinders.NetRewinder.LerpInto | Assets/Scripts/NetRewinder/NetRewinder.cs:195-198 | the interpolated snapshot is Lerped of the two |
| NetRewinders.NetRewinder.RewindToSnapshot | Assets/Scripts/NetRewinder/NetRewinder.cs:212-220 | the live pose is saved unless already rewound, the snapshot is loaded, and the rewinder is rewound |
| NetRewinders.NetRewinder.Restore | Assets/Scripts/NetRewinder/NetRewinder.cs:223-230 | returns whether it was rewound, and the new state is Restored of the old |
| NetRewinders.NetRewinder.LoadSnapshot | Assets/Scripts/NetRewinder/NetRewinder.cs:233-238 | every transform takes the snapshot's position and rotation |

## Left out

- The engine's physics queries (Physics.Raycast, SphereCast, BoxCast, CapsuleCast, the NonAlloc and Overlap variants) and their results. Only the rewinding that comes before each query, and the box it uses, are modelled.
- The Raycast and RaycastNonAlloc wrappers themselves are only their call of RewindRayHits. Bounds.IntersectRay is a function parameter.
- Quaternion arithmetic. ExtractRotationFromMatrix and Quaternion.Lerp are the fields of a RotationMath parameter, so a rotation is only as exact as that parameter.
- ExtractScaleFromMatrix, DecomposeMatrix, SetTransformFromMatrix, LerpMatrix and the scale overload of LerpMatrixTR are not used by the rewinding path and are not modelled.
- Floating point. All arithmetic is on reals, so float rounding in lerps, divisions and the frame / time computations is not captured.
- 32-bit wrap-around of WorldFrame and nextSnapshotIndex. Both are unbounded integers here.
- The clocks Time.fixedDeltaTime, Time.fixedTime and Time.time are parameters. The world frame and the world's rewind request, which HitboxBody reads from TimePhysics's statics, are parameters of the body's methods.
- The TimePhysicsClock singleton, its initialisation, and the FixedUpdate that calls TakeSnapshot. TakeSnapshot is a method of the World, called by its user.
- Debug logging, Profiler samples, RewindState.ToString, and the gizmo drawing in OnDrawGizmosSelected.
- HitboxBodies.CaptureNow: a hitbox's localToWorldMatrix is taken at unit scale (WorldMatrix of its pose). Only its translation, which scale does not change, and the RotationMath parameter read it. The body's own matrix, which the proximity bounds go through, is an arbitrary matrix, so its scale is kept.
- Moving a body or its hitboxes between frames, which game code does, has no operation here. The hitbox poses change only by rewinding and restoring, and the body's own matrix is fixed at construction.
- The transform hierarchy. A hitbox's pose is set as a world pose of its own; a hitbox parented to another would move with it in the engine.
- HitboxBody.Awake's branch for a null transform. The transforms are an array of poses, which cannot hold null.
- The null check in HitboxSnapshot(Transform[]). Dafny arrays are never null.
- NetRewinder's snapshot struct is a value. Its arrays are never shared between two snapshots, since savedSnapshot and lerpSnapshot are never assigned from a slot; aliasing between snapshots is therefore not modelled.
- NetRewinders.NetRewinder.constructor: does not allow a history length whose truncated quotient by the slot time is negative. In the source a quotient of -1 gives zero slots and a DivideByZeroException on the first snapshot; a smaller one gives a negative array size, and Awake itself throws OverflowException.
- The bodies of the TimePhysics world are a fixed set given at construction, with disjoint representations. Creating and destroying game objects is not modelled.

## Findings

| source | as written | input that shows it | evidently intended | confidence | as-written member | corrected member |
|---|---|---|---|---|---|---|
| Assets/Scripts/HitboxRewinder/TimePhysics.cs:264-266 | OverlapCapsuleNonAlloc sizes its box as (2r, abs(dy) + 2r, 2r), so only the y distance between the end points widens it | point1 = (0,0,0), point2 = (10,0,0), r = 1: the box spans x from 4 to 6, and the sphere at point1 spans x from -1 to 1 | the capsule's box as CapsuleCast builds it, abs(d) + 2r on every axis, which contains both end spheres | high for capsules not aligned with y, not executed | SweptBounds.OverlapCapsuleBoundsAsWritten with SweptBounds.OverlapCapsuleAsWrittenMissesEnd | SweptBounds.CapsuleBounds with SweptBounds.CapsuleBoundsCoverEnds |
