/**
 * `Vector`: the two-dimensional vector arithmetic of the geometry kernel,
 * over exact reals. The rotation and normalisation helpers need
 * trigonometry or square roots and are not part of this model.
 */
module Vector {

  datatype Vec = Vec(x: real, y: real)

  const Zero := Vec(0.0, 0.0)

  function Add(a: Vec, b: Vec): Vec
  {
    Vec(a.x + b.x, a.y + b.y)
  }

  function Sub(a: Vec, b: Vec): Vec
  {
    Vec(a.x - b.x, a.y - b.y)
  }

  function Mult(v: Vec, s: real): Vec
  {
    Vec(v.x * s, v.y * s)
  }

  function Neg(v: Vec): Vec
  {
    Vec(-v.x, -v.y)
  }

  /** `Vector.perp` without `negate`: the vector turned a quarter. */
  function Perp(v: Vec): Vec
  {
    Vec(-v.y, v.x)
  }

  function Dot(a: Vec, b: Vec): real
  {
    a.x * b.x + a.y * b.y
  }

  function Cross(a: Vec, b: Vec): real
  {
    a.x * b.y - a.y * b.x
  }

  /** `Vector.cross3`: the cross product of `b - a` and `c - a`. */
  function Cross3(a: Vec, b: Vec, c: Vec): real
  {
    (b.x - a.x) * (c.y - a.y) - (b.y - a.y) * (c.x - a.x)
  }

  /** Adding and then subtracting the same vector is the identity, and so is the reverse. */
  lemma {:induction false} AddSubInverse(a: Vec, b: Vec)
    ensures Sub(Add(a, b), b) == a
    ensures Add(Sub(a, b), b) == a
    ensures Add(a, Neg(b)) == Sub(a, b)
  {
  }

  /** The dot product is symmetric and linear in its first argument. */
  lemma {:induction false} DotLaws(a: Vec, b: Vec, c: Vec)
    ensures Dot(a, b) == Dot(b, a)
    ensures Dot(Add(a, b), c) == Dot(a, c) + Dot(b, c)
    ensures Dot(Sub(a, b), c) == Dot(a, c) - Dot(b, c)
    ensures Dot(Neg(a), c) == -Dot(a, c)
  {
  }

  /** The cross product is antisymmetric, and `cross3` depends only on the differences. */
  lemma {:induction false} CrossLaws(a: Vec, b: Vec, c: Vec, d: Vec)
    ensures Cross(a, b) == -Cross(b, a)
    ensures Cross(a, a) == 0.0
    ensures Cross3(a, b, c) == Cross(Sub(b, a), Sub(c, a))
    ensures Cross3(Add(a, d), Add(b, d), Add(c, d)) == Cross3(a, b, c)
  {
  }

  /** The quarter turn is orthogonal to its argument. */
  lemma {:induction false} PerpOrthogonal(v: Vec)
    ensures Dot(v, Perp(v)) == 0.0
    ensures Perp(Neg(v)) == Neg(Perp(v))
  {
  }
}
