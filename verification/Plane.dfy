/** Points of the plane and the few real functions every geometry module uses. */
module Plane {

  datatype Point = Point(x: real, y: real)

  function Min(a: real, b: real): real {
    if a <= b then a else b
  }

  function Max(a: real, b: real): real {
    if a >= b then a else b
  }

  function Abs(r: real): real {
    if r >= 0.0 then r else -r
  }
}
