/** The members of Microsoft.Xna.Framework.MathHelper the game relies on,
    over `real`. Pi and TwoPi are the single-precision values MathHelper stores. */
module MathHelper {

  /** MathHelper.Pi = (float)Math.PI and MathHelper.TwoPi = (float)(2 * Math.PI). */
  const Pi: real := 3.1415927410125732421875
  const TwoPi: real := 6.283185482025146484375

  /** The factor MathHelper.ToRadians multiplies by. */
  const DegreesToRadians: real := 0.017453292519943295769236907684886

  function ToRadians(degrees: real): real { degrees * DegreesToRadians }

  /** Rounding toward zero, as C# does for a float-to-int conversion or a remainder. */
  function Truncate(r: real): (t: int)
    ensures r >= 0.0 ==> 0.0 <= t as real <= r < t as real + 1.0
    ensures r <= 0.0 ==> t as real - 1.0 < r <= t as real <= 0.0
  {
    if r >= 0.0 then r.Floor else -((-r).Floor)
  }

  /** The float remainder `angle % TwoPi` of C#: it differs from the dividend
      by whole turns, keeps the sign of the dividend and its magnitude is below
      the divisor. */
  function RemainderTwoPi(angle: real): (r: real)
    ensures -TwoPi < r < TwoPi
    ensures angle >= 0.0 ==> r >= 0.0
    ensures angle <= 0.0 ==> r <= 0.0
    ensures exists k: int :: angle == r + Turns(k)
  {
    var q := Truncate(angle / TwoPi);
    assert angle == (angle - TwoPi * (q as real)) + Turns(q);
    angle - TwoPi * (q as real)
  }

  /** MathHelper.WrapAngle: the angle equal to `angle` modulo TwoPi that lies in (-Pi, Pi]. */
  function WrapAngle(angle: real): (r: real)
    ensures -Pi < r <= Pi
    ensures -Pi < angle <= Pi ==> r == angle
  {
    if -Pi < angle && angle <= Pi then angle
    else
      var m := RemainderTwoPi(angle);
      if m <= -Pi then m + TwoPi
      else if m > Pi then m - TwoPi
      else m
  }

  /** k whole turns. */
  function Turns(k: int): real { (k as real) * TwoPi }

  /** WrapAngle only ever adds a whole number of turns, so the direction is kept. */
  lemma WrapAngleSameDirection(angle: real)
    ensures exists k: int :: WrapAngle(angle) == angle + Turns(k)
  {
    if -Pi < angle && angle <= Pi {
      assert WrapAngle(angle) == angle + Turns(0);
    } else {
      var q := Truncate(angle / TwoPi);
      var m := RemainderTwoPi(angle);
      assert m == angle + Turns(-q);
      if m <= -Pi {
        assert WrapAngle(angle) == angle + Turns(1 - q);
      } else if m > Pi {
        assert WrapAngle(angle) == angle + Turns(-q - 1);
      } else {
        assert WrapAngle(angle) == angle + Turns(-q);
      }
    }
  }

  /** Wrapping an already wrapped angle changes nothing. */
  lemma WrapAngleIdempotent(angle: real)
    ensures WrapAngle(WrapAngle(angle)) == WrapAngle(angle)
  {
  }

  /** MathHelper.Clamp: first caps at max, then raises to min. */
  function Clamp(value: real, min: real, max: real): (r: real)
    ensures min <= max ==> min <= r <= max
    ensures min <= value <= max ==> r == value
    ensures min <= max < value ==> r == max
    ensures value < min ==> r == min
  {
    var capped := if value > max then max else value;
    if capped < min then min else capped
  }

  /** MathHelper.Lerp: value1 + (value2 - value1) * amount. */
  function Lerp(value1: real, value2: real, amount: real): (r: real)
    ensures amount == 0.0 ==> r == value1
    ensures amount == 1.0 ==> r == value2
  {
    value1 + (value2 - value1) * amount
  }

  /** An amount in [0, 1] interpolates inside [value1, value2]. */
  lemma LerpBetween(value1: real, value2: real, amount: real)
    requires value1 <= value2 && 0.0 <= amount <= 1.0
    ensures value1 <= Lerp(value1, value2, amount) <= value2
  {
    var d := value2 - value1;
    assert 0.0 <= d * amount;
    assert d - d * amount == d * (1.0 - amount);
    assert d * (1.0 - amount) >= 0.0;
  }
}
