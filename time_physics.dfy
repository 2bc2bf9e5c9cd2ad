/**
 * TimePhysics: the world's clock and registry of hitbox bodies. Every fixed
 * step it advances the world frame and has each registered body capture its
 * slot; a rewind request opens a rewound world in which physics queries
 * first move the bodies their swept bounds meet back in time; disposing the
 * request puts every moved body back.
 *
 * The source's static class is the World class here, over a fixed set of
 * bodies (whose Reprs are pairwise disjoint); the engine's physics queries
 * themselves (Physics.Raycast, SphereCast, ...) are not part of this model,
 * only the rewinding they are preceded by and the bounds it is done with.
 */
module TimePhysics {
  import opened UnityTypes
  import opened Numerics
  import opened RewindStates
  import opened HitboxBodies

  // ---------------------------------------------------------------------
  // The bodies of the world as values, keyed by body.

  /** Every body's value is well formed. */
  ghost predicate AllOk(ms: map<HitboxBody, BodyModel>)
  {
    forall b :: b in ms ==> ModelOk(ms[b])
  }

  /** The world's TakeSnapshot on values: the given bodies capture the frame, the others keep their state. */
  ghost function CaptureAll(ms: map<HitboxBody, BodyModel>, bodies: set<HitboxBody>, frame: int, index: int)
    : (r: map<HitboxBody, BodyModel>)
    requires AllOk(ms) && 0 <= index < NumSnapshots
    ensures AllOk(r) && r.Keys == ms.Keys
  {
    map b | b in ms :: if b in bodies then Captured(ms[b], frame, index) else ms[b]
  }

  /** The world's Restore on values: the given bodies are restored, the others keep their state. */
  ghost function RestoreAll(ms: map<HitboxBody, BodyModel>, bodies: set<HitboxBody>, rm: RotationMath)
    : (r: map<HitboxBody, BodyModel>)
    requires AllOk(ms)
    ensures AllOk(r) && r.Keys == ms.Keys
  {
    map b | b in ms :: if b in bodies then Restored(ms[b], rm) else ms[b]
  }

  /** Rewinding the given bodies in a rewound world; the others keep their state. */
  ghost function RewindAll(ms: map<HitboxBody, BodyModel>, bodies: set<HitboxBody>, state: RewindState, rm: RotationMath)
    : (r: map<HitboxBody, BodyModel>)
    requires AllOk(ms) && WellFormed(state)
    requires forall b :: b in bodies && b in ms ==> ms[b].rewound || state.Frame >= 0
    ensures AllOk(r) && r.Keys == ms.Keys
  {
    map b | b in ms :: if b in bodies then Rewound(ms[b], true, state, rm) else ms[b]
  }

  /**
   * What a physics wrapper tests each registered body with before the
   * engine's query: an overlap box (RewindBoundsHits) or a ray with its
   * length (RewindRayHits, with the engine's Bounds.IntersectRay as a parameter).
   */
  datatype Probe =
    | BoxProbe(bounds: Bounds)
    | RayProbe(ray: Ray, maxDistance: real, intersectRay: (Bounds, Ray) -> RayHit)

  /** The body's OverlapBounds or Raycast holds for the probe. */
  ghost predicate ProbeHits(m: BodyModel, state: RewindState, probe: Probe)
    requires ModelOk(m) && WellFormed(state)
  {
    match probe
    case BoxProbe(bounds) => BoundsHit(m, state, bounds)
    case RayProbe(ray, maxDistance, intersectRay) => RayHitsBody(m, state, ray, maxDistance, intersectRay)
  }

  /** The registered bodies the probe hits. */
  ghost function Hits(ms: map<HitboxBody, BodyModel>, registered: set<HitboxBody>, state: RewindState, probe: Probe)
    : (r: set<HitboxBody>)
    requires AllOk(ms) && WellFormed(state)
    ensures forall b :: b in r ==> b in registered && b in ms && ms[b].startFrame < state.Frame
  {
    set b | b in registered && b in ms && ProbeHits(ms[b], state, probe)
  }

  /** The bodies a list holds. */
  function Elements(list: seq<HitboxBody>): set<HitboxBody>
  {
    set i | 0 <= i < |list| :: list[i]
  }

  class World {
    var WorldFrame: int
    var IsWorldRewound: bool
    var WorldRewindState: RewindState
    var RegisteredHitboxBodies: set<HitboxBody>
    var RewoundHitboxBodies: seq<HitboxBody>
    /** The engine's rotation operations, which every body uses. */
    const rm: RotationMath

    /** The bodies of the scene, registered or not. */
    ghost const Bodies: set<HitboxBody>
    /** Everything the bodies own. */
    ghost const Repr: set<object>
    /** Every body of the scene as a value. */
    ghost var Models: map<HitboxBody, BodyModel>

    /**
     * The bodies' part of the invariant: each body is valid and is its
     * value in Models, and the bodies' objects are pairwise disjoint. It
     * reads no other field of the world, so registering, rewinding the
     * world or advancing its frame keeps it.
     */
    ghost predicate BodiesOk()
      reads this`Models, Bodies, Repr
    {
      (forall b {:trigger b.Repr} :: b in Bodies ==> b.Repr <= Repr) &&
      Models.Keys == Bodies && AllOk(Models) &&
      (forall b {:trigger Models[b]} {:trigger b.Valid()} :: b in Bodies ==> b.Valid() && Models[b] == b.Model()) &&
      (forall b, b' {:trigger b.Repr, b'.Repr} :: b in Bodies && b' in Bodies && b != b' ==> b.Repr !! b'.Repr) &&
      (forall b, b' {:trigger b.Repr, b'.Repr} :: b in Bodies && b' in Bodies ==> b !in b'.Repr)
    }

    /** The world's own part of the invariant: the registry and the rewound list hold bodies of the scene. */
    ghost predicate Registry()
      reads this`RegisteredHitboxBodies, this`RewoundHitboxBodies, this`WorldRewindState, this`WorldFrame
    {
      RegisteredHitboxBodies <= Bodies &&
      (forall i :: 0 <= i < |RewoundHitboxBodies| ==> RewoundHitboxBodies[i] in Bodies) &&
      WellFormed(WorldRewindState) && WorldFrame >= -1
    }

    ghost predicate Valid()
      reads this, Bodies, Repr
    {
      BodiesOk() && this !in Repr && Registry()
    }

    /** The static initial state: frame -1, not rewound, default request, nothing registered. */
    constructor (bodies: set<HitboxBody>, owned: set<object>, rm: RotationMath)
      requires forall b :: b in bodies ==> b.Valid() && b.Repr <= owned
      requires forall b, b' :: b in bodies && b' in bodies && b != b' ==> b.Repr !! b'.Repr
      requires forall b, b' :: b in bodies && b' in bodies ==> b !in b'.Repr
      ensures Valid() && Bodies == bodies && this.rm == rm
      ensures WorldFrame == -1 && !IsWorldRewound && WorldRewindState == DefaultState
      ensures RegisteredHitboxBodies == {} && RewoundHitboxBodies == []
    {
      WorldFrame := -1;
      IsWorldRewound := false;
      WorldRewindState := DefaultState;
      RegisteredHitboxBodies := {};
      RewoundHitboxBodies := [];
      this.rm := rm;
      Bodies := bodies;
      Repr := owned;
      Models := map b | b in bodies :: b.Model();
      new;
      assert BodiesOk();
    }

    /**
     * TakeSnapshot: the world frame advances by one and every registered
     * body captures it in the slot frame % NumSnapshots; no other body changes.
     */
    method TakeSnapshot()
      requires Valid()
      modifies this`WorldFrame, this`Models, Bodies, Repr
      ensures Valid()
      ensures WorldFrame == old(WorldFrame) + 1
      ensures Models == CaptureAll(old(Models), RegisteredHitboxBodies, WorldFrame, WorldFrame % NumSnapshots)
    {
      WorldFrame := WorldFrame + 1;
      CaptureRegistered(WorldFrame, WorldFrame % NumSnapshots);
    }

    /** TakeSnapshot's loop: each registered body in turn captures the frame in the given slot. */
    method CaptureRegistered(frame: int, index: int)
      requires Valid() && 0 <= index < NumSnapshots
      modifies this`Models, Bodies, Repr
      ensures Valid() && WorldFrame == old(WorldFrame)
      ensures Models == CaptureAll(old(Models), RegisteredHitboxBodies, frame, index)
    {
      var todo := RegisteredHitboxBodies;
      ghost var start, done := Models, {};
      CaptureNone(start, frame, index);
      while todo != {}
        modifies this`Models, Bodies, Repr
        invariant Valid() && WorldFrame == old(WorldFrame) && AllOk(start)
        invariant todo !! done && todo + done == RegisteredHitboxBodies
        invariant Models == CaptureAll(start, done, frame, index)
        decreases |todo|
      {
        var hb :| hb in todo;
        SnapshotOne(hb, frame, index);
        CaptureAllStep(start, done, hb, frame, index);
        MoveOne(todo, done, hb);
        todo, done := todo - {hb}, done + {hb};
      }
      AllDone(todo, done, RegisteredHitboxBodies);
    }

    /** One body of TakeSnapshot's loop: that body captures the frame and no other body changes. */
    method SnapshotOne(body: HitboxBody, frame: int, index: int)
      requires Valid() && body in Bodies && 0 <= index < NumSnapshots
      modifies this`Models, body, body.Repr
      ensures Valid() && WorldFrame == old(WorldFrame) && RegisteredHitboxBodies == old(RegisteredHitboxBodies)
      ensures Models == old(Models)[body := Captured(old(Models)[body], frame, index)]
    {
      body.TakeSnapshot(frame, index);
      Models := Models[body := body.Model()];
      Others(body);
    }

    /**
     * IsFrameValid against the current world frame: such a frame was taken
     * at most a ring's length ago, and a frame request for it is valid.
     */
    predicate IsFrameValidNow(frame: int)
      reads this
      ensures IsFrameValidNow(frame) ==> 0 <= WorldFrame - frame < NumSnapshots
      ensures IsFrameValidNow(frame) ==> FrameRequest(frame, WorldFrame).Valid
    {
      IsFrameValid(frame, WorldFrame)
    }

    method RegisterHitboxBody(body: HitboxBody)
      requires Valid() && body in Bodies
      modifies this`RegisteredHitboxBodies
      ensures Valid()
      ensures RegisteredHitboxBodies == old(RegisteredHitboxBodies) + {body}
    {
      RegisteredHitboxBodies := RegisteredHitboxBodies + {body};
      BodiesKept();
    }

    method UnregisterHitboxBody(body: HitboxBody)
      requires Valid()
      modifies this`RegisteredHitboxBodies
      ensures Valid()
      ensures RegisteredHitboxBodies == old(RegisteredHitboxBodies) - {body}
    {
      RegisteredHitboxBodies := RegisteredHitboxBodies - {body};
    }

    /** HitboxBody.OnEnable: the body registers and takes the current world frame as its start frame. */
    method EnableBody(body: HitboxBody)
      requires Valid() && body in Bodies
      modifies this`RegisteredHitboxBodies, this`Models, body`startFrame
      ensures Valid()
      ensures RegisteredHitboxBodies == old(RegisteredHitboxBodies) + {body}
      ensures Models == old(Models)[body := old(Models)[body].(startFrame := WorldFrame)]
    {
      RegisterHitboxBody(body);
      StartOne(body);
    }

    /** OnEnable's own step: the body takes the world frame as its start frame and no other body changes. */
    method StartOne(body: HitboxBody)
      requires Valid() && body in Bodies
      modifies this`Models, body`startFrame
      ensures Valid() && RegisteredHitboxBodies == old(RegisteredHitboxBodies)
      ensures Models == old(Models)[body := old(Models)[body].(startFrame := WorldFrame)]
    {
      body.OnEnable(WorldFrame);
      Models := Models[body := body.Model()];
      Others(body);
    }

    /** HitboxBody.OnDisable: the body unregisters. */
    method DisableBody(body: HitboxBody)
      requires Valid()
      modifies this`RegisteredHitboxBodies
      ensures Valid()
      ensures RegisteredHitboxBodies == old(RegisteredHitboxBodies) - {body}
    {
      UnregisterHitboxBody(body);
    }

    /** BeginRewind: the request becomes the world's and the world is rewound. */
    method BeginRewind(rewindState: RewindState)
      requires Valid() && WellFormed(rewindState)
      modifies this`WorldRewindState, this`IsWorldRewound
      ensures Valid()
      ensures WorldRewindState == rewindState && IsWorldRewound
    {
      WorldRewindState := rewindState;
      IsWorldRewound := true;
    }

    /** The two RewindState constructors' last step: begin the rewind when the request is valid. */
    method BeginIfValid(s: RewindState)
      requires Valid() && WellFormed(s)
      modifies this`WorldRewindState, this`IsWorldRewound
      ensures Valid()
      ensures s.Valid ==> WorldRewindState == s && IsWorldRewound
      ensures !s.Valid ==> WorldRewindState == old(WorldRewindState) && IsWorldRewound == old(IsWorldRewound)
    {
      if s.Valid {
        BeginRewind(s);
      } else {
        // The source logs an error.
      }
    }

    /** RewindWorld(frame): the whole-frame request for that frame. */
    method RewindWorld(frame: int) returns (s: RewindState)
      requires Valid()
      modifies this`WorldRewindState, this`IsWorldRewound
      ensures Valid()
      ensures s == FrameRequest(frame, WorldFrame)
      ensures s.Valid ==> WorldRewindState == s && IsWorldRewound
      ensures !s.Valid ==> WorldRewindState == old(WorldRewindState) && IsWorldRewound == old(IsWorldRewound)
    {
      s := FrameRequest(frame, WorldFrame);
      BeginIfValid(s);
    }

    /** RewindFrames(frames): the whole-frame request that many frames before the world frame. */
    method RewindFrames(frames: int) returns (s: RewindState)
      requires Valid()
      modifies this`WorldRewindState, this`IsWorldRewound
      ensures Valid()
      ensures s == FrameRequest(WorldFrame - frames, WorldFrame)
      ensures s.Valid ==> WorldRewindState == s && IsWorldRewound
      ensures !s.Valid ==> WorldRewindState == old(WorldRewindState) && IsWorldRewound == old(IsWorldRewound)
    {
      s := FrameRequest(WorldFrame - frames, WorldFrame);
      BeginIfValid(s);
    }

    /** RewindSeconds(seconds): the seconds request, with the engine's fixed time step as a parameter. */
    method RewindSeconds(seconds: real, fixedDeltaTime: real) returns (s: RewindState)
      requires Valid() && fixedDeltaTime > 0.0
      modifies this`WorldRewindState, this`IsWorldRewound
      ensures Valid()
      ensures s == SecondsRequest(seconds, fixedDeltaTime, WorldFrame)
      ensures s.Valid ==> WorldRewindState == s && IsWorldRewound
      ensures !s.Valid ==> WorldRewindState == old(WorldRewindState) && IsWorldRewound == old(IsWorldRewound)
    {
      s := SecondsRequest(seconds, fixedDeltaTime, WorldFrame);
      BeginIfValid(s);
    }

    /**
     * Restore: every body on the rewound list is restored (a body listed
     * twice is restored once), the list is emptied and the world is no
     * longer rewound.
     */
    method Restore()
      requires Valid()
      modifies this`RewoundHitboxBodies, this`IsWorldRewound, this`Models, Bodies, Repr
      ensures Valid()
      ensures RewoundHitboxBodies == [] && !IsWorldRewound
      ensures Models == RestoreAll(old(Models), Elements(old(RewoundHitboxBodies)), rm)
    {
      RestoreListed();
      label Restored:
      RewoundHitboxBodies := [];
      IsWorldRewound := false;
      BodiesKept@Restored();
    }

    /** Restore's loop: each body on the rewound list in turn is restored. */
    method RestoreListed()
      requires Valid()
      modifies this`Models, Bodies, Repr
      ensures Valid() && RewoundHitboxBodies == old(RewoundHitboxBodies)
      ensures Models == RestoreAll(old(Models), Elements(RewoundHitboxBodies), rm)
    {
      var list := RewoundHitboxBodies;
      ghost var start := Models;
      RestoreNone(start, rm);
      assert Elements(list[..0]) == {};
      for i := 0 to |list|
        modifies this`Models, Bodies, Repr
        invariant Valid() && RewoundHitboxBodies == list && AllOk(start)
        invariant Models == RestoreAll(start, Elements(list[..i]), rm)
      {
        var hb := list[i];
        RestoreOne(hb);
        RestoreAllStep(start, Elements(list[..i]), hb, rm);
        ElementsStep(list, i);
      }
      ElementsAll(list);
    }

    /** One body of Restore's loop: that body is restored and no other body changes. */
    method RestoreOne(body: HitboxBody)
      requires Valid() && body in Bodies
      modifies this`Models, body, body.Repr
      ensures Valid() && RewoundHitboxBodies == old(RewoundHitboxBodies)
      ensures Models == old(Models)[body := Restored(old(Models)[body], rm)]
    {
      var _ := body.Restore(rm);
      Models := Models[body := body.Model()];
      Others(body);
    }

    /** RewindState.Dispose: a valid request restores the world; an invalid one does nothing. */
    method Dispose(s: RewindState)
      requires Valid()
      modifies this`RewoundHitboxBodies, this`IsWorldRewound, this`Models, Bodies, Repr
      ensures Valid()
      ensures s.Valid ==> RewoundHitboxBodies == [] && !IsWorldRewound &&
                          Models == RestoreAll(old(Models), Elements(old(RewoundHitboxBodies)), rm)
      ensures !s.Valid ==> RewoundHitboxBodies == old(RewoundHitboxBodies) && IsWorldRewound == old(IsWorldRewound) &&
                           Models == old(Models)
    {
      if s.Valid {
        Restore();
      }
    }

    /**
     * RewindBoundsHits: in a rewound world every registered body whose
     * sampled bounds meet the box is rewound and appended to the rewound
     * list; otherwise nothing changes. The cast and overlap wrappers call it
     * with the boxes of SweptBounds.
     */
    method RewindBoundsHits(bounds: Bounds) returns (ghost added: seq<HitboxBody>)
      requires Valid()
      modifies this`RewoundHitboxBodies, this`Models, Bodies, Repr
      ensures Valid()
      ensures RewoundHitboxBodies == old(RewoundHitboxBodies) + added
      ensures Elements(added) == if IsWorldRewound then Hits(old(Models), RegisteredHitboxBodies, WorldRewindState, BoxProbe(bounds)) else {}
      ensures Models == if IsWorldRewound
                        then RewindAll(old(Models), Hits(old(Models), RegisteredHitboxBodies, WorldRewindState, BoxProbe(bounds)), WorldRewindState, rm)
                        else old(Models)
    {
      if !IsWorldRewound {
        added := [];
        return;
      }
      added := RewindEachHit(BoxProbe(bounds));
    }

    /** RewindRayHits: the same for the registered bodies the ray from position along direction hits within maxDistance. */
    method RewindRayHits(position: Vector3, direction: Vector3, maxDistance: real, intersectRay: (Bounds, Ray) -> RayHit)
      returns (ghost added: seq<HitboxBody>)
      requires Valid()
      modifies this`RewoundHitboxBodies, this`Models, Bodies, Repr
      ensures Valid()
      ensures RewoundHitboxBodies == old(RewoundHitboxBodies) + added
      ensures Elements(added) == if IsWorldRewound
                                 then Hits(old(Models), RegisteredHitboxBodies, WorldRewindState, RayProbe(Ray(position, direction), maxDistance, intersectRay))
                                 else {}
      ensures Models == if IsWorldRewound
                        then RewindAll(old(Models), Hits(old(Models), RegisteredHitboxBodies, WorldRewindState,
                                                         RayProbe(Ray(position, direction), maxDistance, intersectRay)), WorldRewindState, rm)
                        else old(Models)
    {
      if !IsWorldRewound {
        added := [];
        return;
      }
      added := RewindEachHit(RayProbe(Ray(position, direction), maxDistance, intersectRay));
    }

    /** The loop of RewindBoundsHits and RewindRayHits: each registered body in turn is probed and rewound on a hit. */
    method RewindEachHit(probe: Probe) returns (ghost added: seq<HitboxBody>)
      requires Valid() && IsWorldRewound
      modifies this`RewoundHitboxBodies, this`Models, Bodies, Repr
      ensures Valid()
      ensures RewoundHitboxBodies == old(RewoundHitboxBodies) + added
      ensures Elements(added) == Hits(old(Models), RegisteredHitboxBodies, WorldRewindState, probe)
      ensures Models == RewindAll(old(Models), Hits(old(Models), RegisteredHitboxBodies, WorldRewindState, probe), WorldRewindState, rm)
    {
      var todo := RegisteredHitboxBodies;
      ghost var start, done, list := Models, {}, RewoundHitboxBodies;
      added := [];
      HitsNone(start, WorldRewindState, probe);
      RewindNone(start, WorldRewindState, rm);
      while todo != {}
        modifies this`RewoundHitboxBodies, this`Models, Bodies, Repr
        invariant Valid() && IsWorldRewound
        invariant RegisteredHitboxBodies == old(RegisteredHitboxBodies) && WorldRewindState == old(WorldRewindState)
        invariant todo !! done && todo + done == RegisteredHitboxBodies
        invariant RewoundHitboxBodies == list + added
        invariant Elements(added) == Hits(start, done, WorldRewindState, probe)
        invariant Models == RewindAll(start, Hits(start, done, WorldRewindState, probe), WorldRewindState, rm)
        decreases |todo|
      {
        var hb :| hb in todo;
        added := ProbeNext(hb, probe, start, done, list, added);
        MoveOne(todo, done, hb);
        todo, done := todo - {hb}, done + {hb};
      }
      AllDone(todo, done, RegisteredHitboxBodies);
    }

    /** One iteration of RewindEachHit: the next body is probed, and the loop's account of the hits so far is extended by it. */
    method ProbeNext(body: HitboxBody, probe: Probe, ghost start: map<HitboxBody, BodyModel>, ghost done: set<HitboxBody>,
                     ghost list: seq<HitboxBody>, ghost added: seq<HitboxBody>)
      returns (ghost added': seq<HitboxBody>)
      requires Valid() && IsWorldRewound && body in RegisteredHitboxBodies && body !in done && AllOk(start)
      requires RewoundHitboxBodies == list + added && Elements(added) == Hits(start, done, WorldRewindState, probe)
      requires Models == RewindAll(start, Hits(start, done, WorldRewindState, probe), WorldRewindState, rm)
      modifies this`RewoundHitboxBodies, this`Models, body, body.Repr
      ensures Valid() && RegisteredHitboxBodies == old(RegisteredHitboxBodies)
      ensures IsWorldRewound && WorldRewindState == old(WorldRewindState)
      ensures RewoundHitboxBodies == list + added' && Elements(added') == Hits(start, done + {body}, WorldRewindState, probe)
      ensures Models == RewindAll(start, Hits(start, done + {body}, WorldRewindState, probe), WorldRewindState, rm)
    {
      ghost var before := Models;
      var hit := ProbeOne(body, probe);
      ProbeStep(start, done, body, WorldRewindState, probe, rm, list, added, before, hit);
      added' := added + if hit then [body] else [];
    }

    /** One body of the loop: its OverlapBounds or Raycast decides, and on a hit the body is rewound. */
    method ProbeOne(body: HitboxBody, probe: Probe) returns (hit: bool)
      requires Valid() && body in Bodies && IsWorldRewound
      modifies this`RewoundHitboxBodies, this`Models, body, body.Repr
      ensures Valid() && RegisteredHitboxBodies == old(RegisteredHitboxBodies)
      ensures IsWorldRewound && WorldRewindState == old(WorldRewindState)
      ensures hit == ProbeHits(old(Models)[body], WorldRewindState, probe)
      ensures RewoundHitboxBodies == old(RewoundHitboxBodies) + if hit then [body] else []
      ensures Models == if hit then old(Models)[body := Rewound(old(Models)[body], true, WorldRewindState, rm)] else old(Models)
    {
      hit := Query(body, probe);
      if hit {
        RewindBody(body);
      }
    }

    /** The body's OverlapBounds or Raycast for the probe, which changes nothing. */
    method Query(body: HitboxBody, probe: Probe) returns (hit: bool)
      requires Valid() && body in Bodies
      ensures hit == ProbeHits(Models[body], WorldRewindState, probe)
    {
      if probe.BoxProbe? {
        hit := body.OverlapBounds(WorldRewindState, probe.bounds);
      } else {
        hit := body.Raycast(WorldRewindState, probe.ray, probe.maxDistance, probe.intersectRay);
      }
    }

    /** RewindBody: the body is appended to the rewound list whether or not its Rewind does anything. */
    method RewindBody(body: HitboxBody)
      requires Valid() && body in Bodies
      requires body.isRewound || !IsWorldRewound || WorldRewindState.Frame >= 0
      modifies this`RewoundHitboxBodies, this`Models, body, body.Repr
      ensures Valid()
      ensures RewoundHitboxBodies == old(RewoundHitboxBodies) + [body]
      ensures Models == old(Models)[body := Rewound(old(Models)[body], IsWorldRewound, WorldRewindState, rm)]
    {
      RewoundHitboxBodies := RewoundHitboxBodies + [body];
      RewindOne(body, IsWorldRewound, WorldRewindState);
    }

    /** HitboxBody.Rewind on one body: that body follows Rewound and no other body changes. */
    method RewindOne(body: HitboxBody, worldRewound: bool, state: RewindState)
      requires Valid() && body in Bodies && WellFormed(state)
      requires body.isRewound || !worldRewound || state.Frame >= 0
      modifies this`Models, body, body.Repr
      ensures Valid() && RewoundHitboxBodies == old(RewoundHitboxBodies)
      ensures IsWorldRewound == old(IsWorldRewound) && WorldRewindState == old(WorldRewindState)
      ensures Models == old(Models)[body := Rewound(old(Models)[body], worldRewound, state, rm)]
    {
      var _ := body.Rewind(worldRewound, state, rm);
      Models := Models[body := body.Model()];
      Others(body);
    }

    /** A change to the world's own fields other than Models keeps the bodies' part of the invariant. */
    twostate lemma BodiesKept()
      requires old(BodiesOk()) && Models == old(Models)
      requires forall o :: o in Repr || o in Bodies ==> unchanged(o)
      ensures BodiesOk()
    {
    }

    /**
     * After a method changed only one body's objects (and the world's own
     * fields), every other body is still valid with the value it had.
     */
    twostate lemma Others(body: HitboxBody)
      requires old(BodiesOk()) == true && body in Bodies && body.Valid() == true && Models == old(Models)[body := body.Model()]
      requires forall o :: (o in Repr || o in Bodies) && o != body && o !in body.Repr ==> unchanged(o)
      ensures BodiesOk()
    {
      forall b | b in Bodies && b != body
        ensures b.Valid() && Models[b] == b.Model()
      {
        assert b.Repr !! body.Repr;
        Unaffected(b);
      }
    }
  }

  /** Moving one element from the pending set to the finished set keeps their union and shrinks the pending one. */
  lemma MoveOne<T>(todo: set<T>, done: set<T>, x: T)
    requires x in todo && todo !! done
    ensures (todo - {x}) !! (done + {x}) && (todo - {x}) + (done + {x}) == todo + done
    ensures |todo - {x}| < |todo|
  {
  }

  /** One more element of a list adds it to the list's elements. */
  lemma ElementsStep(list: seq<HitboxBody>, i: int)
    requires 0 <= i < |list|
    ensures Elements(list[..i + 1]) == Elements(list[..i]) + {list[i]}
  {
    assert list[..i + 1] == list[..i] + [list[i]];
  }

  /** The whole prefix of a list is the list. */
  lemma ElementsAll(list: seq<HitboxBody>)
    ensures Elements(list[..|list|]) == Elements(list)
  {
    assert list[..|list|] == list;
  }

  /** With the pending set empty, the finished set is the whole. */
  lemma AllDone<T>(todo: set<T>, done: set<T>, whole: set<T>)
    requires todo == {} && todo + done == whole
    ensures done == whole
  {
  }

  /** Capturing no body changes nothing. */
  lemma CaptureNone(ms: map<HitboxBody, BodyModel>, frame: int, index: int)
    requires AllOk(ms) && 0 <= index < NumSnapshots
    ensures CaptureAll(ms, {}, frame, index) == ms
  {
  }

  /** Restoring no body changes nothing. */
  lemma RestoreNone(ms: map<HitboxBody, BodyModel>, rm: RotationMath)
    requires AllOk(ms)
    ensures RestoreAll(ms, {}, rm) == ms
  {
  }

  /** Capturing one more body extends the captured set by it. */
  lemma CaptureAllStep(ms: map<HitboxBody, BodyModel>, done: set<HitboxBody>, body: HitboxBody, frame: int, index: int)
    requires AllOk(ms) && 0 <= index < NumSnapshots && body in ms && body !in done
    ensures CaptureAll(ms, done + {body}, frame, index) ==
            CaptureAll(ms, done, frame, index)[body := Captured(CaptureAll(ms, done, frame, index)[body], frame, index)]
  {
  }

  /** Restoring one more body extends the restored set by it, also when it was in the set already. */
  lemma RestoreAllStep(ms: map<HitboxBody, BodyModel>, done: set<HitboxBody>, body: HitboxBody, rm: RotationMath)
    requires AllOk(ms) && body in ms
    ensures RestoreAll(ms, done + {body}, rm) == RestoreAll(ms, done, rm)[body := Restored(RestoreAll(ms, done, rm)[body], rm)]
  {
    RestoreIdempotent(ms[body], rm);
  }
  /** Probing no body hits nothing. */
  lemma HitsNone(ms: map<HitboxBody, BodyModel>, state: RewindState, probe: Probe)
    requires AllOk(ms) && WellFormed(state)
    ensures Hits(ms, {}, state, probe) == {}
  {
  }

  /** Probing one more body adds it to the hits exactly when the probe hits it. */
  lemma HitsStep(ms: map<HitboxBody, BodyModel>, done: set<HitboxBody>, body: HitboxBody, state: RewindState, probe: Probe)
    requires AllOk(ms) && WellFormed(state) && body in ms
    ensures Hits(ms, done + {body}, state, probe) ==
            Hits(ms, done, state, probe) + if ProbeHits(ms[body], state, probe) then {body} else {}
  {
  }

  /** Rewinding no body changes nothing. */
  lemma RewindNone(ms: map<HitboxBody, BodyModel>, state: RewindState, rm: RotationMath)
    requires AllOk(ms) && WellFormed(state)
    ensures RewindAll(ms, {}, state, rm) == ms
  {
  }

  /** Rewinding one more body that was not rewound yet extends the rewound set by it. */
  lemma RewindAllStep(ms: map<HitboxBody, BodyModel>, done: set<HitboxBody>, body: HitboxBody, state: RewindState,
                      rm: RotationMath)
    requires AllOk(ms) && WellFormed(state) && body in ms && body !in done
    requires forall b :: b in done && b in ms ==> ms[b].rewound || state.Frame >= 0
    requires ms[body].rewound || state.Frame >= 0
    ensures RewindAll(ms, done + {body}, state, rm) ==
            RewindAll(ms, done, state, rm)[body := Rewound(RewindAll(ms, done, state, rm)[body], true, state, rm)]
  {
  }

  /**
   * One step of RewindEachHit on values: the probed body is still at its
   * starting value, and probing it (and rewinding it on a hit) extends the
   * hits, the rewound values and the appended list by it exactly on a hit.
   */
  lemma ProbeStep(start: map<HitboxBody, BodyModel>, done: set<HitboxBody>, body: HitboxBody, state: RewindState,
                  probe: Probe, rm: RotationMath, list: seq<HitboxBody>, added: seq<HitboxBody>,
                  ms: map<HitboxBody, BodyModel>, hit: bool)
    requires AllOk(start) && WellFormed(state) && body in start && body !in done
    requires Elements(added) == Hits(start, done, state, probe)
    requires ms == RewindAll(start, Hits(start, done, state, probe), state, rm)
    requires hit == ProbeHits(ms[body], state, probe)
    ensures ms[body] == start[body]
    ensures list + added + (if hit then [body] else []) == list + (added + if hit then [body] else [])
    ensures Elements(added + if hit then [body] else []) == Hits(start, done + {body}, state, probe)
    ensures (if hit then ms[body := Rewound(ms[body], true, state, rm)] else ms) ==
            RewindAll(start, Hits(start, done + {body}, state, probe), state, rm)
  {
    var hits := Hits(start, done, state, probe);
    HitsStep(start, done, body, state, probe);
    if hit {
      RewindAllStep(start, hits, body, state, rm);
      ElementsAppend(added, body);
    } else {
      assert added + [] == added;
    }
  }

  /** Appending an element adds it to the list's elements. */
  lemma ElementsAppend(list: seq<HitboxBody>, x: HitboxBody)
    ensures Elements(list + [x]) == Elements(list) + {x}
  {
    var l := list + [x];
    assert l[|list|] == x;
    forall y | y in Elements(list)
      ensures y in Elements(l)
    {
      var i :| 0 <= i < |list| && list[i] == y;
      assert l[i] == y;
    }
  }

  // ---------------------------------------------------------------------
  // Properties of a rewound world.

  /**
   * Rewinding any set of bodies that were not rewound and then restoring
   * the same set puts each of them back at its positions with its ring
   * untouched and not rewound; every other body is left alone.
   */
  lemma RestoreUndoesRewindAll(ms: map<HitboxBody, BodyModel>, bodies: set<HitboxBody>, state: RewindState,
                               rm: RotationMath)
    requires AllOk(ms) && WellFormed(state) && state.Frame >= 0
    requires forall b :: b in bodies && b in ms ==> !ms[b].rewound
    ensures var r := RestoreAll(RewindAll(ms, bodies, state, rm), bodies, rm);
            forall b :: b in bodies && b in ms ==>
              Positions(r[b].live) == Positions(ms[b].live) && r[b].ring == ms[b].ring && !r[b].rewound
    ensures var r := RestoreAll(RewindAll(ms, bodies, state, rm), bodies, rm);
            forall b :: b in ms && b !in bodies ==> r[b] == ms[b]
  {
    var r := RestoreAll(RewindAll(ms, bodies, state, rm), bodies, rm);
    forall b | b in bodies && b in ms
      ensures Positions(r[b].live) == Positions(ms[b].live) && r[b].ring == ms[b].ring && !r[b].rewound
    {
      RewindThenRestore(ms[b], state, rm);
    }
  }

  /**
   * A box inside a wider one hits no body the wider one misses: the box a
   * cast rewinds with, which contains the shape at every point of its path,
   * rewinds every body that shape would gate anywhere along it.
   */
  lemma WiderBoxHitsMore(ms: map<HitboxBody, BodyModel>, registered: set<HitboxBody>, state: RewindState,
                         query: Bounds, wider: Bounds)
    requires AllOk(ms) && WellFormed(state) && wider.Contains(query)
    ensures Hits(ms, registered, state, BoxProbe(query)) <= Hits(ms, registered, state, BoxProbe(wider))
  {
    forall b | b in Hits(ms, registered, state, BoxProbe(query))
      ensures b in Hits(ms, registered, state, BoxProbe(wider))
    {
      WiderQueryGatesMore(ms[b], state, query, wider);
    }
  }
}
