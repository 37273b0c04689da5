/** Small shared vocabulary: an optional value, absolute value and the
    floating-point constant Math.PI written as a decimal, and the squared
    distance of two points. */
module Util {

  datatype Option<T> = None | Some(value: T)

  function Abs(x: real): real
  {
    if x < 0.0 then -x else x
  }

  /** `dx * dx + dy * dy` for the points (ax, ay) and (bx, bY): the
      square of the distance `Math.sqrt` is taken of. */
  function SquaredDistance(ax: real, ay: real, bx: real, bY: real): real
  {
    (ax - bx) * (ax - bx) + (ay - bY) * (ay - bY)
  }

  /** Math.PI to sixteen significant digits; the model treats it as exact. */
  const Pi: real := 3.141592653589793

  const TwoPi: real := 2.0 * Pi
}
