/** One shootable cube target and its lifecycle: created dead at the origin,
    then alternately respawned (alive somewhere) and killed. */
module Enemies {
  import opened Geometry

  /** The Microsoft.Xna.Framework.Color values the game uses. */
  datatype Color = White | Transparent | Crimson | DarkOrange | Gold | Cyan | MediumPurple | Chartreuse

  class Enemy {
    var position: Vector3
    var color: Color
    /** Get-only in the source, so fixed for the life of the object. */
    const size: real
    var isAlive: bool

    constructor (size: real)
      ensures this.size == size
      ensures position == Zero && color == White && !isAlive
    {
      this.size := size;
      position := Zero;
      color := White;
      isAlive := false;
    }

    /** The axis-aligned box of edge `size` centred on the position. */
    function Bounds(): (b: BoundingBox)
      reads this
      ensures b.Center() == position
      ensures b.max.x - b.min.x == size && b.max.y - b.min.y == size && b.max.z - b.min.z == size
      ensures size >= 0.0 ==> b.Ordered()
    {
      var half := Vector3(0.5, 0.5, 0.5).Scale(size);
      BoundingBox(position.Minus(half), position.Plus(half))
    }

    method Respawn(position: Vector3, color: Color)
      modifies this
      ensures this.position == position && this.color == color && isAlive
    {
      this.position := position;
      this.color := color;
      isAlive := true;
    }

    method Kill()
      modifies this
      ensures !isAlive
      ensures position == old(position) && color == old(color)
    {
      isAlive := false;
    }
  }
}
