/**
 * `SAT`: the separating-axis test between two convex parts.
 *
 * A part is one convex piece of a body: its vertices, its edge normals
 * (`axes`), its position and bounds, and the parent body whose motion and
 * material the collision reads. A collision record is a value here; the
 * source mutates the previous frame's record in place and returns it, which
 * is modelled by building the result from that previous record.
 */
module SAT {
  import opened Vector
  import opened Wrappers
  import opened Bounds
  import opened Vertices

  datatype Parent = Parent(
    id: nat, speed: real, angularSpeed: real, inverseMass: real,
    friction: real, frictionStatic: real, restitution: real, slop: real)

  datatype Part = Part(
    id: nat, vertices: seq<Vertex>, axes: seq<Vec>, position: Vec,
    bounds: Bounds, isSensor: bool, parent: Parent)

  /**
   * The collision record. `axisBodyId` and `axisNumber` name the axis of
   * least overlap found by the full test; `reused` tells that the cheap test
   * against that one axis was taken.
   */
  datatype Collision = Collision(
    collided: bool, bodyA: Part, bodyB: Part,
    axisBodyId: Option<nat>, axisNumber: Option<nat>,
    depth: real, normal: Vec, tangent: Vec, penetration: Vec,
    supports: seq<Vertex>, reused: bool)

  /** The record `SAT.collides` starts from when there is no previous collision. */
  function Fresh(a: Part, b: Part): Collision
  {
    Collision(false, a, b, None, None, 0.0, Zero, Zero, Zero, [], false)
  }

  // ------------------------------------------------------------ projection

  datatype Projection = Projection(min: real, max: real)

  function DotAt(vs: seq<Vertex>, i: nat, axis: Vec): real
    requires i < |vs|
  {
    Dot(Pos(vs[i]), axis)
  }

  /**
   * The projection of a vertex list on an axis, widened one vertex at a time
   * as `SAT._projectToAxis` does.
   */
  function Project(vs: seq<Vertex>, axis: Vec): Projection
    requires |vs| > 0
    decreases |vs|
  {
    if |vs| == 1 then
      Projection(DotAt(vs, 0, axis), DotAt(vs, 0, axis))
    else
      var p := Project(vs[..|vs| - 1], axis);
      var d := DotAt(vs, |vs| - 1, axis);
      if d > p.max then p.(max := d) else if d < p.min then p.(min := d) else p
  }

  /** The projection is the least and the greatest dot product of the vertices with the axis. */
  lemma {:induction false} ProjectBounds(vs: seq<Vertex>, axis: Vec)
    requires |vs| > 0
    ensures var p := Project(vs, axis);
      p.min <= p.max &&
      (forall i :: 0 <= i < |vs| ==> p.min <= DotAt(vs, i, axis) <= p.max) &&
      (exists i :: 0 <= i < |vs| && DotAt(vs, i, axis) == p.min) &&
      (exists i :: 0 <= i < |vs| && DotAt(vs, i, axis) == p.max)
    decreases |vs|
  {
    if |vs| > 1 {
      var init := vs[..|vs| - 1];
      ProjectBounds(init, axis);
      assert forall i :: 0 <= i < |init| ==> DotAt(init, i, axis) == DotAt(vs, i, axis);
    }
  }

  /** `SAT._projectToAxis`. */
  method ProjectToAxis(vertices: seq<Vertex>, axis: Vec) returns (projection: Projection)
    requires |vertices| > 0
    ensures projection == Project(vertices, axis)
  {
    var min := Dot(Pos(vertices[0]), axis);
    var max := min;
    assert Projection(min, max) == Project(vertices[..1], axis);
    for i := 1 to |vertices|
      invariant Projection(min, max) == Project(vertices[..i], axis)
    {
      var dot := Dot(Pos(vertices[i]), axis);
      assert vertices[..i + 1][..i] == vertices[..i];
      if dot > max {
        max := dot;
      } else if dot < min {
        min := dot;
      }
    }
    assert vertices[..|vertices|] == vertices;
    projection := Projection(min, max);
  }

  // ---------------------------------------------------------------- overlap

  function MinR(a: real, b: real): real
  {
    if a < b then a else b
  }

  /** How far the two projections on `axis` overlap; zero or less means they are apart. */
  function AxisOverlap(a: seq<Vertex>, b: seq<Vertex>, axis: Vec): real
    requires |a| > 0 && |b| > 0
  {
    var pa, pb := Project(a, axis), Project(b, axis);
    MinR(pa.max - pb.min, pb.max - pa.min)
  }

  /**
   * A non-positive overlap on an axis is exactly a separation along it: every
   * vertex of one list projects at or below every vertex of the other.
   */
  lemma {:induction false} SeparatingAxis(a: seq<Vertex>, b: seq<Vertex>, axis: Vec)
    requires |a| > 0 && |b| > 0
    ensures AxisOverlap(a, b, axis) <= 0.0 <==>
      (forall i, j :: 0 <= i < |a| && 0 <= j < |b| ==> DotAt(a, i, axis) <= DotAt(b, j, axis)) ||
      (forall i, j :: 0 <= i < |a| && 0 <= j < |b| ==> DotAt(b, j, axis) <= DotAt(a, i, axis))
  {
    var pa, pb := Project(a, axis), Project(b, axis);
    ProjectBounds(a, axis);
    ProjectBounds(b, axis);
    var ia :| 0 <= ia < |a| && DotAt(a, ia, axis) == pa.max;
    var ja :| 0 <= ja < |a| && DotAt(a, ja, axis) == pa.min;
    var ib :| 0 <= ib < |b| && DotAt(b, ib, axis) == pb.max;
    var jb :| 0 <= jb < |b| && DotAt(b, jb, axis) == pb.min;
    if (forall i, j :: 0 <= i < |a| && 0 <= j < |b| ==> DotAt(a, i, axis) <= DotAt(b, j, axis)) {
      assert DotAt(a, ia, axis) <= DotAt(b, jb, axis);
    } else if (forall i, j :: 0 <= i < |a| && 0 <= j < |b| ==> DotAt(b, j, axis) <= DotAt(a, i, axis)) {
      assert DotAt(b, ib, axis) <= DotAt(a, ja, axis);
    }
  }

  /**
   * The result of `SAT._overlapAxes`. An absent overlap stands for the
   * initial `Number.MAX_VALUE`, which every finite overlap beats.
   */
  datatype Overlap = Overlap(overlap: Option<real>, axis: Option<Vec>, axisNumber: Option<nat>)

  /** The search has stopped at a separating axis. */
  predicate Stopped(r: Overlap)
  {
    r.overlap.Some? && r.overlap.value <= 0.0
  }

  /**
   * The result after the first `n` axes: stop at the first non-positive
   * overlap (keeping the axis found so far), otherwise keep the strictly
   * smallest overlap with its axis and index.
   */
  function OverlapPrefix(a: seq<Vertex>, b: seq<Vertex>, axes: seq<Vec>, n: nat): Overlap
    requires n <= |axes|
    requires |axes| > 0 ==> |a| > 0 && |b| > 0
  {
    if n == 0 then Overlap(None, None, None)
    else
      var r := OverlapPrefix(a, b, axes, n - 1);
      if Stopped(r) then r
      else
        var o := AxisOverlap(a, b, axes[n - 1]);
        if o <= 0.0 then r.(overlap := Some(o))
        else if r.overlap.None? || o < r.overlap.value then Overlap(Some(o), Some(axes[n - 1]), Some(n - 1))
        else r
  }

  lemma {:induction false} StoppedStays(a: seq<Vertex>, b: seq<Vertex>, axes: seq<Vec>, i: nat, n: nat)
    requires i <= n <= |axes|
    requires |axes| > 0 ==> |a| > 0 && |b| > 0
    requires Stopped(OverlapPrefix(a, b, axes, i))
    ensures OverlapPrefix(a, b, axes, n) == OverlapPrefix(a, b, axes, i)
    decreases n - i
  {
    if n > i {
      StoppedStays(a, b, axes, i, n - 1);
    }
  }

  /** `SAT._overlapAxes`. */
  method OverlapAxes(verticesA: seq<Vertex>, verticesB: seq<Vertex>, axes: seq<Vec>) returns (result: Overlap)
    requires |axes| > 0 ==> |verticesA| > 0 && |verticesB| > 0
    ensures result == OverlapPrefix(verticesA, verticesB, axes, |axes|)
  {
    result := Overlap(None, None, None);
    for i := 0 to |axes|
      invariant result == OverlapPrefix(verticesA, verticesB, axes, i)
      invariant !Stopped(result)
    {
      var axis := axes[i];
      var projectionA := ProjectToAxis(verticesA, axis);
      var projectionB := ProjectToAxis(verticesB, axis);
      var overlap := MinR(projectionA.max - projectionB.min, projectionB.max - projectionA.min);
      if overlap <= 0.0 {
        result := result.(overlap := Some(overlap));
        StoppedStays(verticesA, verticesB, axes, i + 1, |axes|);
        return;
      }
      if result.overlap.None? || overlap < result.overlap.value {
        result := Overlap(Some(overlap), Some(axis), Some(i));
      }
    }
  }

  /**
   * What `SAT._overlapAxes` promises: it stops exactly when some axis
   * separates, reporting the first such overlap; otherwise it reports the
   * smallest overlap over all axes with the first axis attaining it.
   */
  lemma {:induction false} OverlapPrefixFacts(a: seq<Vertex>, b: seq<Vertex>, axes: seq<Vec>, n: nat)
    requires n <= |axes|
    requires |axes| > 0 ==> |a| > 0 && |b| > 0
    ensures var r := OverlapPrefix(a, b, axes, n);
      Stopped(r) <==> exists i :: 0 <= i < n && AxisOverlap(a, b, axes[i]) <= 0.0
    ensures var r := OverlapPrefix(a, b, axes, n);
      Stopped(r) ==> exists f :: 0 <= f < n && r.overlap == Some(AxisOverlap(a, b, axes[f])) &&
                                (forall i :: 0 <= i < f ==> AxisOverlap(a, b, axes[i]) > 0.0)
    ensures var r := OverlapPrefix(a, b, axes, n);
      !Stopped(r) && n > 0 ==>
        r.overlap.Some? && r.axis.Some? && r.axisNumber.Some? && r.axisNumber.value < n &&
        r.axis.value == axes[r.axisNumber.value] &&
        r.overlap.value == AxisOverlap(a, b, axes[r.axisNumber.value]) && r.overlap.value > 0.0 &&
        (forall i :: 0 <= i < n ==> r.overlap.value <= AxisOverlap(a, b, axes[i])) &&
        (forall i :: 0 <= i < r.axisNumber.value ==> AxisOverlap(a, b, axes[i]) > r.overlap.value)
    ensures n == 0 ==> OverlapPrefix(a, b, axes, n) == Overlap(None, None, None)
    decreases n
  {
    if n > 0 {
      OverlapPrefixFacts(a, b, axes, n - 1);
      var r := OverlapPrefix(a, b, axes, n - 1);
      if Stopped(r) {
        var f :| 0 <= f < n - 1 && r.overlap == Some(AxisOverlap(a, b, axes[f])) &&
          forall i :: 0 <= i < f ==> AxisOverlap(a, b, axes[i]) > 0.0;
        assert AxisOverlap(a, b, axes[f]) <= 0.0;
      } else if AxisOverlap(a, b, axes[n - 1]) <= 0.0 {
        assert forall i :: 0 <= i < n - 1 ==> AxisOverlap(a, b, axes[i]) > 0.0;
      }
    }
  }

  // --------------------------------------------------------------- supports

  /** The distance `SAT._findSupports` measures: how far `v` lies behind `position` along `normal`. */
  function Distance(v: Vertex, position: Vec, normal: Vec): real
  {
    -Dot(normal, Sub(Pos(v), position))
  }

  /** The first of the first `n` vertices at the least distance. */
  function Nearest(vs: seq<Vertex>, position: Vec, normal: Vec, n: nat): (k: nat)
    requires 1 <= n <= |vs|
    ensures k < n
    ensures forall i :: 0 <= i < n ==> Distance(vs[k], position, normal) <= Distance(vs[i], position, normal)
    ensures forall i :: 0 <= i < k ==> Distance(vs[i], position, normal) > Distance(vs[k], position, normal)
  {
    if n == 1 then 0
    else
      var k := Nearest(vs, position, normal, n - 1);
      if Distance(vs[n - 1], position, normal) < Distance(vs[k], position, normal) then n - 1 else k
  }

  /** Every vertex's own index points into its list, as `Vertices.create` guarantees. */
  predicate IndexesInRange(vs: seq<Vertex>)
  {
    forall i :: 0 <= i < |vs| ==> vs[i].index < |vs|
  }

  /**
   * The two support vertices of `bodyB` against `bodyA`: the nearest vertex
   * and the nearer of its two neighbours, found through the vertex's index,
   * the previous one winning a tie.
   */
  function Supports(bodyA: Part, bodyB: Part, normal: Vec): (Vertex, Vertex)
    requires |bodyB.vertices| > 0 && IndexesInRange(bodyB.vertices)
  {
    var vs := bodyB.vertices;
    var vertexA := vs[Nearest(vs, bodyA.position, normal, |vs|)];
    var prev := vs[if vertexA.index >= 1 then vertexA.index - 1 else |vs| - 1];
    var next := vs[(vertexA.index + 1) % |vs|];
    (vertexA, if Distance(next, bodyA.position, normal) < Distance(prev, bodyA.position, normal) then next else prev)
  }

  /** `SAT._findSupports`. */
  method FindSupports(bodyA: Part, bodyB: Part, normal: Vec) returns (vertexA: Vertex, vertexB: Vertex)
    requires |bodyB.vertices| > 0 && IndexesInRange(bodyB.vertices)
    ensures (vertexA, vertexB) == Supports(bodyA, bodyB, normal)
    ensures vertexA in bodyB.vertices && vertexB in bodyB.vertices
    ensures forall v :: v in bodyB.vertices ==>
      Distance(vertexA, bodyA.position, normal) <= Distance(v, bodyA.position, normal)
  {
    var vertices, position := bodyB.vertices, bodyA.position;
    var k := NearestVertex(vertices, position, normal);
    vertexA := vertices[k];
    var prevIndex := if vertexA.index - 1 >= 0 then vertexA.index - 1 else |vertices| - 1;
    var vertex := vertices[prevIndex];
    var nearest := -Dot(normal, Sub(Pos(vertex), position));
    vertexB := vertex;
    var nextIndex := (vertexA.index + 1) % |vertices|;
    vertex := vertices[nextIndex];
    var distance := -Dot(normal, Sub(Pos(vertex), position));
    if distance < nearest {
      vertexB := vertex;
    }
    NearestLeast(vertices, position, normal);
  }

  /** The first loop of `SAT._findSupports`: the first vertex at the least distance. */
  method NearestVertex(vertices: seq<Vertex>, position: Vec, normal: Vec) returns (k: nat)
    requires |vertices| > 0
    ensures k == Nearest(vertices, position, normal, |vertices|)
  {
    var nearestDistance: Option<real> := None;
    k := 0;
    for i := 0 to |vertices|
      invariant i > 0 ==> k == Nearest(vertices, position, normal, i)
      invariant i > 0 ==> nearestDistance == Some(Distance(vertices[k], position, normal))
      invariant i == 0 ==> nearestDistance == None
    {
      var distance := -Dot(normal, Sub(Pos(vertices[i]), position));
      if nearestDistance.None? || distance < nearestDistance.value {
        nearestDistance := Some(distance);
        k := i;
      }
    }
  }

  /** The nearest vertex is at least as near as every vertex of the list. */
  lemma {:induction false} NearestLeast(vs: seq<Vertex>, position: Vec, normal: Vec)
    requires |vs| > 0
    ensures forall v :: v in vs ==>
      Distance(vs[Nearest(vs, position, normal, |vs|)], position, normal) <= Distance(v, position, normal)
  {
    forall v | v in vs
      ensures Distance(vs[Nearest(vs, position, normal, |vs|)], position, normal) <= Distance(v, position, normal)
    {
      var j :| 0 <= j < |vs| && vs[j] == v;
    }
  }

  // ---------------------------------------------------------------- collides

  /** What the test needs of a part: vertices, axes, and vertex indexes that point into the list. */
  predicate ValidPart(p: Part)
  {
    |p.vertices| > 0 && |p.axes| > 0 && IndexesInRange(p.vertices)
  }

  /** The motion of the two parents that decides whether the previous axis may be reused. */
  function Motion(a: Part, b: Part): real
  {
    a.parent.speed * a.parent.speed + a.parent.angularSpeed * a.parent.angularSpeed +
    b.parent.speed * b.parent.speed + b.parent.angularSpeed * b.parent.angularSpeed
  }

  predicate CanReuse(a: Part, b: Part, previous: Option<Collision>)
  {
    previous.Some? && previous.value.collided && Motion(a, b) < 0.2
  }

  /** The part whose axis the previous collision used, and the other part. */
  function AxisParts(a: Part, b: Part, c: Collision): (Part, Part)
  {
    if c.axisBodyId == Some(a.id) then (a, b) else (b, a)
  }

  /** The previous collision names an axis that exists. */
  predicate ReusableAxis(a: Part, b: Part, c: Collision)
  {
    c.axisNumber.Some? && c.axisNumber.value < |AxisParts(a, b, c).0.axes|
  }

  predicate CollidesRequires(a: Part, b: Part, previous: Option<Collision>)
  {
    ValidPart(a) && ValidPart(b) && (CanReuse(a, b, previous) ==> ReusableAxis(a, b, previous.value))
  }

  function Contained(vs: seq<Vertex>, v: Vertex): seq<Vertex>
  {
    if Inside(vs, Pos(v)) then [v] else []
  }

  /**
   * The contact points: the supports of B that lie inside A, topped up to at
   * most two with the supports of A that lie inside B, or B's nearest vertex
   * alone when none qualifies.
   */
  function SupportPoints(bodyA: Part, bodyB: Part, normal: Vec): seq<Vertex>
    requires ValidPart(bodyA) && ValidPart(bodyB)
  {
    var verticesB := Supports(bodyA, bodyB, normal);
    var s := Contained(bodyA.vertices, verticesB.0) + Contained(bodyA.vertices, verticesB.1);
    var t :=
      if |s| < 2 then
        var verticesA := Supports(bodyB, bodyA, Neg(normal));
        var u := s + Contained(bodyB.vertices, verticesA.0);
        if |u| < 2 then u + Contained(bodyB.vertices, verticesA.1) else u
      else s;
    if |t| < 1 then [verticesB.0] else t
  }

  /** The common ending of both paths of `SAT.collides` once the parts are known to overlap. */
  function Finish(a: Part, b: Part, c: Collision, m: Overlap): Collision
    requires ValidPart(a) && ValidPart(b) && m.overlap.Some? && m.axis.Some?
  {
    var bodyA := if a.id < b.id then a else b;
    var bodyB := if a.id < b.id then b else a;
    var depth := m.overlap.value;
    var axis := m.axis.value;
    var normal := if Dot(axis, Sub(bodyB.position, bodyA.position)) < 0.0 then axis else Neg(axis);
    c.(collided := true, bodyA := bodyA, bodyB := bodyB, depth := depth, normal := normal,
       tangent := Perp(normal), penetration := Mult(normal, depth),
       supports := SupportPoints(bodyA, bodyB, normal))
  }

  /**
   * The search over a non-empty axis list has found an axis. It always has
   * when it did not stop (`OverlapPrefixFacts`), so `Collides` never takes
   * the branch that tests this; the test keeps the definition free of proof.
   */
  predicate Located(m: Overlap)
  {
    m.overlap.Some? && m.axis.Some?
  }

  function Less(a: Option<real>, b: Option<real>): bool
  {
    a.Some? && (b.None? || a.value < b.value)
  }

  /**
   * `SAT.collides`. With a previous collision, little motion and a known
   * axis, only that axis is tested again; otherwise every axis of both parts
   * is, and the part whose best axis overlaps strictly less provides the
   * axis (B's on a tie).
   */
  function Collides(a: Part, b: Part, previous: Option<Collision>): Collision
    requires CollidesRequires(a, b, previous)
  {
    var base := if previous.Some? then previous.value else Fresh(a, b);
    if CanReuse(a, b, previous) then
      var parts := AxisParts(a, b, base);
      var m := OverlapPrefix(parts.0.vertices, parts.1.vertices, [parts.0.axes[base.axisNumber.value]], 1);
      if Stopped(m) || !Located(m) then base.(collided := false, reused := true)
      else Finish(a, b, base.(reused := true), m)
    else
      var ab := OverlapPrefix(a.vertices, b.vertices, a.axes, |a.axes|);
      if Stopped(ab) || !Located(ab) then base.(collided := false)
      else
        var ba := OverlapPrefix(b.vertices, a.vertices, b.axes, |b.axes|);
        if Stopped(ba) || !Located(ba) then base.(collided := false)
        else if Less(ab.overlap, ba.overlap) then
          Finish(a, b, base.(axisBodyId := Some(a.id), axisNumber := ab.axisNumber), ab)
        else
          Finish(a, b, base.(axisBodyId := Some(b.id), axisNumber := ba.axisNumber), ba)
  }

  /** The contact points are one or two vertices of the two parts. */
  lemma {:induction false} SupportPointsFacts(bodyA: Part, bodyB: Part, normal: Vec)
    requires ValidPart(bodyA) && ValidPart(bodyB)
    ensures 1 <= |SupportPoints(bodyA, bodyB, normal)| <= 2
    ensures forall v :: v in SupportPoints(bodyA, bodyB, normal) ==> v in bodyA.vertices || v in bodyB.vertices
  {
    var verticesB := Supports(bodyA, bodyB, normal);
    var verticesA := Supports(bodyB, bodyA, Neg(normal));
    var nb := Nearest(bodyB.vertices, bodyA.position, normal, |bodyB.vertices|);
    var na := Nearest(bodyA.vertices, bodyB.position, Neg(normal), |bodyA.vertices|);
    assert verticesB.0 in bodyB.vertices && verticesB.1 in bodyB.vertices;
    assert verticesA.0 in bodyA.vertices && verticesA.1 in bodyA.vertices;
  }

  /** The shape of every collision `SAT.collides` reports, in terms of the two parts. */
  predicate WellShaped(a: Part, b: Part, r: Collision)
  {
    (if a.id < b.id then r.bodyA == a && r.bodyB == b else r.bodyA == b && r.bodyB == a) &&
    r.depth > 0.0 &&
    Dot(r.normal, Sub(r.bodyB.position, r.bodyA.position)) <= 0.0 &&
    r.tangent == Perp(r.normal) &&
    r.penetration == Mult(r.normal, r.depth) &&
    1 <= |r.supports| <= 2 &&
    (forall v :: v in r.supports ==> v in a.vertices || v in b.vertices)
  }

  lemma {:induction false} FinishShape(a: Part, b: Part, c: Collision, m: Overlap)
    requires ValidPart(a) && ValidPart(b) && m.overlap.Some? && m.axis.Some? && m.overlap.value > 0.0
    ensures Finish(a, b, c, m).collided && WellShaped(a, b, Finish(a, b, c, m))
  {
    var r := Finish(a, b, c, m);
    var bodyA, bodyB := if a.id < b.id then a else b, if a.id < b.id then b else a;
    var d := Sub(bodyB.position, bodyA.position);
    assert r.bodyA == bodyA && r.bodyB == bodyB;
    NormalFaces(m.axis.value, d);
    assert r.normal == (if Dot(m.axis.value, d) < 0.0 then m.axis.value else Neg(m.axis.value));
    assert Dot(r.normal, d) <= 0.0;
    SupportPointsFacts(bodyA, bodyB, r.normal);
  }

  /** The axis, turned round when it points along `d`, points against `d`. */
  lemma {:induction false} NormalFaces(axis: Vec, d: Vec)
    ensures Dot(if Dot(axis, d) < 0.0 then axis else Neg(axis), d) <= 0.0
  {
    DotLaws(axis, axis, d);
  }

  /**
   * What `SAT.collides` promises of a collision: the parts are ordered by
   * id, the depth is positive, the normal points from B towards A, tangent
   * and penetration follow from the normal, and there are one or two
   * contact points, each a vertex of one of the parts. The reused test
   * marks its record as reused.
   */
  lemma {:induction false} CollidesShape(a: Part, b: Part, previous: Option<Collision>)
    requires CollidesRequires(a, b, previous)
    ensures Collides(a, b, previous).collided ==> WellShaped(a, b, Collides(a, b, previous))
    ensures CanReuse(a, b, previous) ==> Collides(a, b, previous).reused
  {
    var base := if previous.Some? then previous.value else Fresh(a, b);
    if CanReuse(a, b, previous) {
      var parts := AxisParts(a, b, base);
      var axes := [parts.0.axes[base.axisNumber.value]];
      var m := OverlapPrefix(parts.0.vertices, parts.1.vertices, axes, 1);
      if !Stopped(m) {
        OverlapPrefixFacts(parts.0.vertices, parts.1.vertices, axes, 1);
        FinishShape(a, b, base.(reused := true), m);
      }
    } else {
      var ab := OverlapPrefix(a.vertices, b.vertices, a.axes, |a.axes|);
      var ba := OverlapPrefix(b.vertices, a.vertices, b.axes, |b.axes|);
      if !Stopped(ab) && !Stopped(ba) {
        OverlapPrefixFacts(a.vertices, b.vertices, a.axes, |a.axes|);
        OverlapPrefixFacts(b.vertices, a.vertices, b.axes, |b.axes|);
        if Less(ab.overlap, ba.overlap) {
          FinishShape(a, b, base.(axisBodyId := Some(a.id), axisNumber := ab.axisNumber), ab);
        } else {
          FinishShape(a, b, base.(axisBodyId := Some(b.id), axisNumber := ba.axisNumber), ba);
        }
      }
    }
  }

  /**
   * The full test is the separating-axis theorem on the parts' own axes: it
   * reports a collision exactly when no axis of either part separates them,
   * and then its depth is the least overlap over all those axes.
   */
  lemma {:induction false} CollidesFullTest(a: Part, b: Part, previous: Option<Collision>)
    requires CollidesRequires(a, b, previous)
    requires !CanReuse(a, b, previous)
    ensures var r := Collides(a, b, previous);
      r.collided <==>
        (forall i :: 0 <= i < |a.axes| ==> AxisOverlap(a.vertices, b.vertices, a.axes[i]) > 0.0) &&
        (forall j :: 0 <= j < |b.axes| ==> AxisOverlap(b.vertices, a.vertices, b.axes[j]) > 0.0)
    ensures var r := Collides(a, b, previous);
      r.collided ==>
        (forall i :: 0 <= i < |a.axes| ==> r.depth <= AxisOverlap(a.vertices, b.vertices, a.axes[i])) &&
        (forall j :: 0 <= j < |b.axes| ==> r.depth <= AxisOverlap(b.vertices, a.vertices, b.axes[j])) &&
        ((exists i :: 0 <= i < |a.axes| && r.depth == AxisOverlap(a.vertices, b.vertices, a.axes[i])) ||
         (exists j :: 0 <= j < |b.axes| && r.depth == AxisOverlap(b.vertices, a.vertices, b.axes[j])))
  {
    OverlapPrefixFacts(a.vertices, b.vertices, a.axes, |a.axes|);
    OverlapPrefixFacts(b.vertices, a.vertices, b.axes, |b.axes|);
    var ab := OverlapPrefix(a.vertices, b.vertices, a.axes, |a.axes|);
    var ba := OverlapPrefix(b.vertices, a.vertices, b.axes, |b.axes|);
    if !Stopped(ab) && !Stopped(ba) {
      var r := Collides(a, b, previous);
      if Less(ab.overlap, ba.overlap) {
        assert r.depth == ab.overlap.value;
        assert AxisOverlap(a.vertices, b.vertices, a.axes[ab.axisNumber.value]) == r.depth;
      } else {
        assert r.depth == ba.overlap.value;
        assert AxisOverlap(b.vertices, a.vertices, b.axes[ba.axisNumber.value]) == r.depth;
      }
    }
  }
}
