/**
 * Plane vectors over the reals. The game uses `Vec2<f32>`; rounding is not modelled.
 * Distances are compared through their squares, which orders points exactly as the
 * Euclidean length does.
 */
module Geometry {
  datatype Vec2 = Vec2(x: real, y: real)

  datatype Circle = Circle(center: Vec2, radius: real)

  const Zero: Vec2 := Vec2(0.0, 0.0)

  function Add(a: Vec2, b: Vec2): Vec2 { Vec2(a.x + b.x, a.y + b.y) }

  function Sub(a: Vec2, b: Vec2): Vec2 { Vec2(a.x - b.x, a.y - b.y) }

  function Scale(a: Vec2, k: real): Vec2 { Vec2(a.x * k, a.y * k) }

  /** Squared Euclidean distance between two points. */
  function Dist2(a: Vec2, b: Vec2): real {
    (a.x - b.x) * (a.x - b.x) + (a.y - b.y) * (a.y - b.y)
  }
}
