/** Vector and box values of the XNA framework the game is written against,
    with `real` components in place of 32-bit floats. */
module Geometry {

  datatype Option<+T> = None | Some(value: T)

  /** Microsoft.Xna.Framework.Vector3. */
  datatype Vector3 = Vector3(x: real, y: real, z: real)
  {
    function Plus(v: Vector3): Vector3 { Vector3(x + v.x, y + v.y, z + v.z) }

    function Minus(v: Vector3): Vector3 { Vector3(x - v.x, y - v.y, z - v.z) }

    function Scale(s: real): Vector3 { Vector3(x * s, y * s, z * s) }

    function LengthSquared(): real { x * x + y * y + z * z }
  }

  /** Vector3.Zero, Vector3.Up, Vector3.Right and Vector3.Forward (XNA is right-handed: forward is -Z). */
  const Zero := Vector3(0.0, 0.0, 0.0)
  const UnitUp := Vector3(0.0, 1.0, 0.0)
  const UnitRight := Vector3(1.0, 0.0, 0.0)
  const UnitForward := Vector3(0.0, 0.0, -1.0)

  function Dot(a: Vector3, b: Vector3): real { a.x * b.x + a.y * b.y + a.z * b.z }

  function Cross(a: Vector3, b: Vector3): Vector3
  {
    Vector3(a.y * b.z - a.z * b.y, a.z * b.x - a.x * b.z, a.x * b.y - a.y * b.x)
  }

  /** Vector2.DistanceSquared applied to the horizontal (X, Z) parts of two points. */
  function HorizontalDistanceSquared(a: Vector3, b: Vector3): real
  {
    (a.x - b.x) * (a.x - b.x) + (a.z - b.z) * (a.z - b.z)
  }

  /** Microsoft.Xna.Framework.BoundingBox: an axis-aligned box given by two corners. */
  datatype BoundingBox = BoundingBox(min: Vector3, max: Vector3)
  {
    function Center(): Vector3 { min.Plus(max).Scale(0.5) }

    predicate Ordered() { min.x <= max.x && min.y <= max.y && min.z <= max.z }
  }

  /** Microsoft.Xna.Framework.Ray: an origin and a direction. */
  datatype Ray = Ray(position: Vector3, direction: Vector3)

  /** float.MaxValue, (2 - 2^-23) * 2^127, exactly. */
  const MaxFloat: real := 340282346638528859811704183484516925440.0

  /** float.Epsilon, the smallest positive single-precision value, 2^-149, exactly. */
  const FloatEpsilon: real := 1.0 / 713623846352979940529142984724747568191373312.0
}
