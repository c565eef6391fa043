/**
 * `Bounds`: axis-aligned bounding boxes.
 *
 * `Bounds.update` starts from min = +Infinity and max = -Infinity and widens
 * the box over the vertices; for an empty vertex list it leaves that
 * inverted infinite box, which is the value `Inverted` here.
 */
module Bounds {
  import opened Vector
  import opened Wrappers

  datatype Bounds = Box(min: Vec, max: Vec) | Inverted

  function MinR(a: real, b: real): real { if a < b then a else b }
  function MaxR(a: real, b: real): real { if a > b then a else b }

  /** A box whose lower corner is below and left of its upper corner. */
  predicate WellFormed(b: Bounds)
  {
    b.Box? ==> b.min.x <= b.max.x && b.min.y <= b.max.y
  }

  /** `Bounds.contains`: the point lies in the closed box. */
  predicate Contains(b: Bounds, p: Vec)
  {
    b.Box? && b.min.x <= p.x <= b.max.x && b.min.y <= p.y <= b.max.y
  }

  /** `Bounds.overlaps`: the two closed boxes meet on both axes. */
  predicate Overlaps(a: Bounds, b: Bounds)
  {
    a.Box? && b.Box? &&
    a.min.x <= b.max.x && a.max.x >= b.min.x && a.max.y >= b.min.y && a.min.y <= b.max.y
  }

  /** `Bounds.translate`: both corners moved by `v`. */
  function Translate(b: Bounds, v: Vec): Bounds
  {
    match b
    case Inverted => Inverted
    case Box(mn, mx) => Box(Add(mn, v), Add(mx, v))
  }

  /** `Bounds.shift`: the box moved so that its lower corner is `p`, keeping its size. */
  function Shift(b: Bounds, p: Vec): (r: Bounds)
    requires b.Box?
    ensures r.Box? && r.min == p
    ensures r.max.x - r.min.x == b.max.x - b.min.x && r.max.y - r.min.y == b.max.y - b.min.y
  {
    Box(p, Vec(p.x + (b.max.x - b.min.x), p.y + (b.max.y - b.min.y)))
  }

  /** One vertex taken into the box, as one iteration of the loop in `Bounds.update` does. */
  function Include(b: Bounds, v: Vec): Bounds
  {
    match b
    case Inverted => Box(v, v)
    case Box(mn, mx) => Box(Vec(MinR(mn.x, v.x), MinR(mn.y, v.y)), Vec(MaxR(mx.x, v.x), MaxR(mx.y, v.y)))
  }

  /** The tight box of a vertex list: what the loop of `Bounds.update` computes. */
  function Tight(vs: seq<Vec>): Bounds
  {
    if vs == [] then Inverted else Include(Tight(vs[..|vs| - 1]), vs[|vs| - 1])
  }

  /**
   * The part of `Bounds.update` that follows the loop: a positive velocity
   * component widens the upper side, any other widens the lower side.
   */
  function Sweep(b: Bounds, velocity: Vec): Bounds
  {
    match b
    case Inverted => Inverted
    case Box(mn, mx) =>
      var minX, maxX := if velocity.x > 0.0 then mn.x else mn.x + velocity.x, if velocity.x > 0.0 then mx.x + velocity.x else mx.x;
      var minY, maxY := if velocity.y > 0.0 then mn.y else mn.y + velocity.y, if velocity.y > 0.0 then mx.y + velocity.y else mx.y;
      Box(Vec(minX, minY), Vec(maxX, maxY))
  }

  /** `Bounds.update` (and `Bounds.create` with vertices): the tight box, swept by the velocity when one is given. */
  method Update(vertices: seq<Vec>, velocity: Option<Vec>) returns (b: Bounds)
    ensures b == if velocity.Some? then Sweep(Tight(vertices), velocity.value) else Tight(vertices)
  {
    b := Inverted;
    for i := 0 to |vertices|
      invariant b == Tight(vertices[..i])
    {
      var v := vertices[i];
      if b.Inverted? {
        b := Box(v, v);
      } else {
        var mn, mx := b.min, b.max;
        if v.x > mx.x { mx := Vec(v.x, mx.y); }
        if v.x < mn.x { mn := Vec(v.x, mn.y); }
        if v.y > mx.y { mx := Vec(mx.x, v.y); }
        if v.y < mn.y { mn := Vec(mn.x, v.y); }
        b := Box(mn, mx);
      }
      assert vertices[..i + 1][..i] == vertices[..i];
    }
    assert vertices[..|vertices|] == vertices;
    if velocity.Some? {
      b := Sweep(b, velocity.value);
    }
  }

  /** The tight box holds every vertex, and each of its four sides touches one. */
  lemma {:induction false} TightIsTight(vs: seq<Vec>)
    ensures Tight(vs).Inverted? <==> vs == []
    ensures WellFormed(Tight(vs))
    ensures forall k :: 0 <= k < |vs| ==> Contains(Tight(vs), vs[k])
    ensures vs != [] ==> exists k :: 0 <= k < |vs| && vs[k].x == Tight(vs).min.x
    ensures vs != [] ==> exists k :: 0 <= k < |vs| && vs[k].x == Tight(vs).max.x
    ensures vs != [] ==> exists k :: 0 <= k < |vs| && vs[k].y == Tight(vs).min.y
    ensures vs != [] ==> exists k :: 0 <= k < |vs| && vs[k].y == Tight(vs).max.y
  {
    if vs != [] {
      var init := vs[..|vs| - 1];
      TightIsTight(init);
      assert forall k :: 0 <= k < |init| ==> vs[k] == init[k];
    }
  }

  /** Sweeping keeps the tight box inside the result. */
  lemma {:induction false} SweepContains(b: Bounds, velocity: Vec, p: Vec)
    requires Contains(b, p)
    ensures Contains(Sweep(b, velocity), p)
  {
  }

  /** Moving every vertex by `d` moves the tight box by `d`. */
  lemma {:induction false} TightTranslate(vs: seq<Vec>, d: Vec)
    ensures Tight(Moved(vs, d)) == Translate(Tight(vs), d)
  {
    if vs != [] {
      assert Moved(vs, d)[..|vs| - 1] == Moved(vs[..|vs| - 1], d);
      TightTranslate(vs[..|vs| - 1], d);
    }
  }

  function Moved(vs: seq<Vec>, d: Vec): (r: seq<Vec>)
    ensures |r| == |vs| && forall k :: 0 <= k < |vs| ==> r[k] == Add(vs[k], d)
  {
    seq(|vs|, k requires 0 <= k < |vs| => Add(vs[k], d))
  }

  /** Two well-formed boxes overlap exactly when some point lies in both. */
  lemma {:induction false} OverlapsMeansCommonPoint(a: Bounds, b: Bounds)
    requires WellFormed(a) && WellFormed(b)
    ensures Overlaps(a, b) <==> exists p :: Contains(a, p) && Contains(b, p)
  {
    if Overlaps(a, b) {
      var p := Vec(MaxR(a.min.x, b.min.x), MaxR(a.min.y, b.min.y));
      assert Contains(a, p) && Contains(b, p);
    }
  }

  /** Overlap does not depend on the order of the two boxes. */
  lemma {:induction false} OverlapsSymmetric(a: Bounds, b: Bounds)
    ensures Overlaps(a, b) == Overlaps(b, a)
  {
  }
}
