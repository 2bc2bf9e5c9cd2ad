/**
 * HitboxSnapshots: one ring slot of a HitboxBody — the body's proximity
 * bounds at the frame, the world matrix of each hitbox, and whether the
 * slot was really captured at that frame or skipped by the body's interval.
 */
module HitboxSnapshots {
  import opened UnityTypes

  class HitboxSnapshot {
    var ProximityBounds: Bounds
    /** Allocated once with one entry per hitbox; only its entries are written afterwards. */
    const LocalToWorld: array<Matrix4x4>
    var Real: bool

    /** A slot for numHitboxes hitboxes: default bounds, zero matrices, not real. */
    constructor (numHitboxes: nat)
      ensures fresh(LocalToWorld) && LocalToWorld.Length == numHitboxes
      ensures forall i :: 0 <= i < numHitboxes ==> LocalToWorld[i] == ZeroMatrix
      ensures ProximityBounds == DefaultBounds && !Real
    {
      ProximityBounds := DefaultBounds;
      LocalToWorld := new Matrix4x4[numHitboxes](_ => ZeroMatrix);
      Real := false;
    }
  }
}
