/**
 * `Detector.canCollide`: the collision filter of a body, a category bit,
 * a mask of the categories it accepts and a group that overrides both.
 */
module Filtering {

  /**
   * A collision filter. `category` and `mask` are the 32-bit words the
   * bitwise `&` of the source works on.
   */
  datatype Filter = Filter(category: bv32, mask: bv32, group: int)

  /** The filter every body is created with: category 1, every mask bit set, no group. */
  const DefaultFilter := Filter(1, 0xFFFF_FFFF, 0)

  /**
   * `Detector.canCollide`: bodies of the same non-zero group collide exactly
   * when that group is positive; otherwise each body's mask must let the
   * other's category through.
   */
  predicate CanCollide(a: Filter, b: Filter)
  {
    if a.group == b.group && a.group != 0 then a.group > 0 else MasksAccept(a, b)
  }

  /** Each filter's mask shares a bit with the other's category. */
  predicate MasksAccept(a: Filter, b: Filter)
  {
    Shares(a.mask, b.category) && Shares(b.mask, a.category)
  }

  /** The two words have a set bit in common. */
  predicate Shares(x: bv32, y: bv32)
  {
    x & y != 0
  }

  /** The filter does not depend on the order of the two bodies. */
  lemma {:induction false} CanCollideSymmetric(a: Filter, b: Filter)
    ensures CanCollide(a, b) == CanCollide(b, a)
  {
  }

  /** A shared non-zero group overrides the masks and categories entirely. */
  lemma {:induction false} SharedGroupDecides(a: Filter, b: Filter, category: bv32, mask: bv32)
    requires a.group == b.group && a.group != 0
    ensures CanCollide(a, b) == CanCollide(a.(category := category, mask := mask), b)
    ensures CanCollide(a, b) <==> a.group > 0
  {
  }

  /**
   * Without a shared non-zero group, the groups play no part: the masks and
   * categories alone decide, and give the same answer in either order.
   */
  lemma {:induction false} MasksDecide(a: Filter, b: Filter)
    requires !(a.group == b.group && a.group != 0)
    ensures CanCollide(a, b) <==> Shares(a.mask, b.category) && Shares(b.mask, a.category)
    ensures CanCollide(a, b) == CanCollide(b, a)
  {
  }

  /** Two bodies with default filters collide, and a body with an empty category collides with no ungrouped body. */
  lemma {:induction false} DefaultFilters(a: Filter)
    ensures CanCollide(DefaultFilter, DefaultFilter)
    ensures a.category == 0 && a.group == 0 ==> forall b: Filter :: !CanCollide(a, b)
  {
  }
}
