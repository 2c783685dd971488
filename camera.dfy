/** The first-person camera: a position pinned to eye height, a yaw wrapped
    to (-Pi, Pi] and a pitch clamped to +/-89 degrees. */
module Cameras {
  import opened Geometry
  import opened MathHelper

  /** The default eye height of the constructor. */
  const DefaultEyeHeight: real := 1.6

  /** MathHelper.ToRadians(89f): the largest pitch either way. */
  const MaxPitch: real := ToRadians(89.0)

  class FirstPersonCamera {
    /** readonly in the source: set once by the constructor. */
    const eyeHeight: real
    var position: Vector3
    var aspectRatio: real
    var yaw: real
    var pitch: real

    /** What every operation keeps: eye height, wrapped yaw, clamped pitch. */
    ghost predicate Valid()
      reads this
    {
      && position.y == eyeHeight
      && -Pi < yaw <= Pi
      && -MaxPitch <= pitch <= MaxPitch
    }

    constructor (aspectRatio: real, eyeHeight: real)
      ensures Valid()
      ensures this.eyeHeight == eyeHeight && this.aspectRatio == aspectRatio
      ensures position == Vector3(0.0, eyeHeight, 0.0) && yaw == 0.0 && pitch == 0.0
    {
      this.aspectRatio := aspectRatio;
      this.eyeHeight := eyeHeight;
      position := Vector3(0.0, eyeHeight, 0.0);
      yaw := 0.0;
      pitch := 0.0;
    }

    /** Stores the aspect ratio the projection is built from. */
    method UpdateProjection(aspectRatio: real)
      modifies this`aspectRatio
      ensures this.aspectRatio == aspectRatio
    {
      this.aspectRatio := aspectRatio;
    }

    /** Takes X and Z from the argument; the height stays the eye height. */
    method SetPosition(p: Vector3)
      modifies this`position
      ensures position == Vector3(p.x, eyeHeight, p.z)
      ensures old(Valid()) ==> Valid()
    {
      position := Vector3(p.x, eyeHeight, p.z);
    }

    /** Moves horizontally by the translation; any vertical part is discarded. */
    method Move(translation: Vector3)
      modifies this`position
      ensures position == Vector3(old(position.x) + translation.x, eyeHeight, old(position.z) + translation.z)
      ensures old(Valid()) ==> Valid()
    {
      position := position.Plus(translation);
      position := position.(y := eyeHeight);
    }

    /** Turns by the deltas: yaw wraps, pitch saturates at the vertical limits. */
    method Rotate(deltaYaw: real, deltaPitch: real)
      modifies this`yaw, this`pitch
      ensures yaw == WrapAngle(old(yaw) - deltaYaw)
      ensures pitch == Clamp(old(pitch) - deltaPitch, -MaxPitch, MaxPitch)
      ensures -Pi < yaw <= Pi && -MaxPitch <= pitch <= MaxPitch
      ensures old(Valid()) ==> Valid()
    {
      yaw := WrapAngle(yaw - deltaYaw);
      pitch := Clamp(pitch - deltaPitch, -MaxPitch, MaxPitch);
    }
  }

  /** The horizontal part of `forward` (normally the camera's Forward), or
      Vector3.Forward when that part is too short to give a direction. */
  function ForwardOnPlane(forward: Vector3): (r: Vector3)
    ensures r.y == 0.0
    ensures Vector3(forward.x, 0.0, forward.z).LengthSquared() < FloatEpsilon ==> r == UnitForward
  {
    var flat := forward.(y := 0.0);
    if flat.LengthSquared() < FloatEpsilon then UnitForward else flat
  }

  /** ForwardOnPlane is never too short, and when `forward` has a horizontal
      part it points the same way as that part. */
  lemma ForwardOnPlaneDirection(forward: Vector3)
    ensures ForwardOnPlane(forward).LengthSquared() >= FloatEpsilon
    ensures Vector3(forward.x, 0.0, forward.z).LengthSquared() >= FloatEpsilon ==>
              var r := ForwardOnPlane(forward);
              r.x * forward.z == r.z * forward.x && Dot(r, forward) > 0.0
  {
    var flat := forward.(y := 0.0);
    if flat.LengthSquared() >= FloatEpsilon {
      assert ForwardOnPlane(forward) == flat;
      assert Dot(flat, forward) == flat.LengthSquared();
    }
  }

  /** The horizontal direction to the right of ForwardOnPlane(forward). */
  function RightOnPlane(forward: Vector3): (r: Vector3)
    ensures r.y == 0.0
  {
    var right := Cross(ForwardOnPlane(forward), UnitUp);
    if right.LengthSquared() < FloatEpsilon then UnitRight else right
  }

  /** RightOnPlane is the cross product with Up, perpendicular to
      ForwardOnPlane and exactly as long, so the fallback to Vector3.Right
      is never taken. */
  lemma RightOnPlanePerpendicular(forward: Vector3)
    ensures RightOnPlane(forward) == Cross(ForwardOnPlane(forward), UnitUp)
    ensures RightOnPlane(forward).LengthSquared() == ForwardOnPlane(forward).LengthSquared() > 0.0
    ensures Dot(RightOnPlane(forward), ForwardOnPlane(forward)) == 0.0
  {
    var f := ForwardOnPlane(forward);
    ForwardOnPlaneDirection(forward);
    assert Cross(f, UnitUp) == Vector3(-f.z, 0.0, f.x);
    assert Vector3(-f.z, 0.0, f.x).LengthSquared() == f.LengthSquared();
  }
}
