/** Points of the plane and the order of their coordinates. */
module Plane {

  datatype Pt = Pt(x: int, y: int)

  function Min(a: int, b: int): int { if a < b then a else b }

  function Max(a: int, b: int): int { if a < b then b else a }
}
