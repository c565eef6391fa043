/**
 * `Vertices`: the polygon helpers that need no trigonometry.
 *
 * A vertex is a point with its position in the list, the id of its body and
 * the flag telling whether the edge after it is internal to a compound body.
 */
module Vertices {
  import opened Vector
  import opened Wrappers

  datatype Vertex = Vertex(x: real, y: real, index: nat, bodyId: nat, isInternal: bool)

  function Pos(v: Vertex): Vec
  {
    Vec(v.x, v.y)
  }

  function Positions(vs: seq<Vertex>): (r: seq<Vec>)
    ensures |r| == |vs| && forall i :: 0 <= i < |vs| ==> r[i] == Pos(vs[i])
  {
    seq(|vs|, i requires 0 <= i < |vs| => Pos(vs[i]))
  }

  /** Each vertex carries its own position in the list as its index. */
  predicate WellIndexed(vs: seq<Vertex>)
  {
    forall i :: 0 <= i < |vs| ==> vs[i].index == i
  }

  // ------------------------------------------------------------------ create

  /** `Vertices.create`: one vertex per point, in order, owned by `bodyId`, none internal. */
  method Create(points: seq<Vec>, bodyId: nat) returns (vs: seq<Vertex>)
    ensures Positions(vs) == points
    ensures WellIndexed(vs)
    ensures forall i :: 0 <= i < |vs| ==> vs[i].bodyId == bodyId && !vs[i].isInternal
  {
    vs := [];
    for i := 0 to |points|
      invariant |vs| == i
      invariant forall k :: 0 <= k < i ==> vs[k] == Vertex(points[k].x, points[k].y, k, bodyId, false)
    {
      var point := points[i];
      vs := vs + [Vertex(point.x, point.y, i, bodyId, false)];
    }
  }

  // --------------------------------------------------------------- translate

  function MoveVertex(v: Vertex, d: Vec): Vertex
  {
    v.(x := v.x + d.x, y := v.y + d.y)
  }

  /** Every vertex moved by `d`, everything else about it kept. */
  function Moved(vs: seq<Vertex>, d: Vec): (r: seq<Vertex>)
    ensures |r| == |vs| && forall i :: 0 <= i < |vs| ==> r[i] == MoveVertex(vs[i], d)
  {
    seq(|vs|, i requires 0 <= i < |vs| => MoveVertex(vs[i], d))
  }

  /**
   * The offset `Vertices.translate` applies: the vector scaled by `scalar`
   * when the scalar is truthy, the vector itself when it is absent or zero.
   */
  function Offset(vector: Vec, scalar: Option<real>): Vec
  {
    if scalar.Some? && scalar.value != 0.0 then Mult(vector, scalar.value) else vector
  }

  /** `Vertices.translate`: every vertex of the list moved in place by the offset. */
  method Translate(vertices: array<Vertex>, vector: Vec, scalar: Option<real>)
    modifies vertices
    ensures vertices[..] == Moved(old(vertices[..]), Offset(vector, scalar))
  {
    if scalar.Some? && scalar.value != 0.0 {
      var s := scalar.value;
      for i := 0 to vertices.Length
        invariant forall k :: 0 <= k < i ==> vertices[k] == MoveVertex(old(vertices[k]), Mult(vector, s))
        invariant forall k :: i <= k < vertices.Length ==> vertices[k] == old(vertices[k])
      {
        vertices[i] := vertices[i].(x := vertices[i].x + vector.x * s, y := vertices[i].y + vector.y * s);
      }
    } else {
      for i := 0 to vertices.Length
        invariant forall k :: 0 <= k < i ==> vertices[k] == MoveVertex(old(vertices[k]), vector)
        invariant forall k :: i <= k < vertices.Length ==> vertices[k] == old(vertices[k])
      {
        vertices[i] := vertices[i].(x := vertices[i].x + vector.x, y := vertices[i].y + vector.y);
      }
    }
  }

  /** Moving by `d` and then by `-d` gives back the original vertices. */
  lemma {:induction false} MovedRoundTrip(vs: seq<Vertex>, d: Vec)
    ensures Moved(Moved(vs, d), Neg(d)) == vs
  {
    assert forall i :: 0 <= i < |vs| ==> Moved(Moved(vs, d), Neg(d))[i] == vs[i];
  }

  // -------------------------------------------------------------------- area

  /** One term of the shoelace sum, for the edge from `a` to `b`. */
  function Term(a: Vertex, b: Vertex): real
  {
    (a.x - b.x) * (a.y + b.y)
  }

  /** The vertex before position `i`, cyclically. */
  function Prev(vs: seq<Vertex>, i: nat): Vertex
    requires i < |vs|
  {
    if i == 0 then vs[|vs| - 1] else vs[i - 1]
  }

  /** The shoelace terms of the first `k` edges ending at positions `0 .. k-1`. */
  function Shoelace(vs: seq<Vertex>, k: nat): real
    requires k <= |vs|
  {
    if k == 0 then 0.0 else Shoelace(vs, k - 1) + Term(Prev(vs, k - 1), vs[k - 1])
  }

  /** Twice the signed area of the polygon. */
  function DoubleArea(vs: seq<Vertex>): real
  {
    Shoelace(vs, |vs|)
  }

  function Abs(r: real): real
  {
    if r < 0.0 then -r else r
  }

  /** `Vertices.area`: half the shoelace sum, its absolute value unless `signed`. */
  method Area(vertices: seq<Vertex>, signed: bool) returns (area: real)
    ensures area == if signed then DoubleArea(vertices) / 2.0 else Abs(DoubleArea(vertices)) / 2.0
    ensures !signed ==> area >= 0.0
  {
    var sum := 0.0;
    var j := |vertices| - 1;
    for i := 0 to |vertices|
      invariant sum == Shoelace(vertices, i)
      invariant j == if i == 0 then |vertices| - 1 else i - 1
    {
      sum := sum + (vertices[j].x - vertices[i].x) * (vertices[j].y + vertices[i].y);
      j := i;
    }
    if signed {
      area := sum / 2.0;
    } else {
      area := Abs(sum) / 2.0;
    }
  }

  lemma {:induction false} TermShift(a: Vertex, b: Vertex, d: Vec)
    ensures Term(MoveVertex(a, d), MoveVertex(b, d)) == Term(a, b) + 2.0 * d.y * (a.x - b.x)
  {
    var dx := a.x - b.x;
    assert MoveVertex(a, d).x - MoveVertex(b, d).x == dx;
    assert Term(MoveVertex(a, d), MoveVertex(b, d)) == dx * (a.y + b.y + 2.0 * d.y);
  }

  /** After `k >= 1` edges the moved sum differs by a telescoped amount. */
  lemma {:induction false} ShoelaceShift(vs: seq<Vertex>, d: Vec, k: nat)
    requires 1 <= k <= |vs|
    ensures Shoelace(Moved(vs, d), k) == Shoelace(vs, k) + 2.0 * d.y * (vs[|vs| - 1].x - vs[k - 1].x)
  {
    var ms := Moved(vs, d);
    TermShift(Prev(vs, k - 1), vs[k - 1], d);
    assert Prev(ms, k - 1) == MoveVertex(Prev(vs, k - 1), d);
    if k > 1 {
      ShoelaceShift(vs, d, k - 1);
      Telescope(2.0 * d.y, vs[|vs| - 1].x, vs[k - 2].x, vs[k - 1].x);
    }
  }

  lemma {:induction false} Telescope(c: real, a: real, b: real, e: real)
    ensures c * (a - b) + c * (b - e) == c * (a - e)
  {
  }

  /** The area of a polygon does not change when the polygon is translated. */
  lemma {:induction false} AreaTranslate(vs: seq<Vertex>, d: Vec)
    ensures DoubleArea(Moved(vs, d)) == DoubleArea(vs)
  {
    if |vs| > 0 {
      ShoelaceShift(vs, d, |vs|);
    }
  }

  /** Turning an edge around negates its shoelace term. */
  lemma {:induction false} TermSwap(a: Vertex, b: Vertex)
    ensures Term(b, a) == -Term(a, b)
  {
  }

  /**
   * The first `k` terms of the reversed polygon are, negated, the first
   * term of `vs` and its last `k - 1` terms.
   */
  lemma {:induction false} ShoelaceReverse(vs: seq<Vertex>, k: nat)
    requires 1 <= k <= |vs|
    ensures Shoelace(Reverse(vs), k) == -(Shoelace(vs, 1) + Shoelace(vs, |vs|) - Shoelace(vs, |vs| - k + 1))
  {
    var n, rs := |vs|, Reverse(vs);
    if k == 1 {
      assert Prev(rs, 0) == vs[0] && rs[0] == vs[n - 1];
      TermSwap(vs[n - 1], vs[0]);
      assert Shoelace(vs, 1) == Term(vs[n - 1], vs[0]);
    } else {
      ShoelaceReverse(vs, k - 1);
      assert Prev(rs, k - 1) == vs[n - k + 1] && rs[k - 1] == vs[n - k];
      TermSwap(vs[n - k], vs[n - k + 1]);
      assert Prev(vs, n - k + 1) == vs[n - k];
      assert Shoelace(vs, n - k + 2) == Shoelace(vs, n - k + 1) + Term(vs[n - k], vs[n - k + 1]);
    }
  }

  /** Listing the vertices the other way round negates the signed area. */
  lemma {:induction false} AreaReverse(vs: seq<Vertex>)
    ensures DoubleArea(Reverse(vs)) == -DoubleArea(vs)
  {
    if |vs| > 0 {
      ShoelaceReverse(vs, |vs|);
    }
  }

  // ---------------------------------------------------------------- contains

  /** The test `Vertices.contains` applies to the edge from `v` to `next`: positive means outside. */
  function Side(v: Vertex, next: Vertex, p: Vec): real
  {
    (p.x - v.x) * (next.y - v.y) + (p.y - v.y) * (v.x - next.x)
  }

  /** The test of the edge that starts at position `i`, the last edge closing the polygon. */
  function EdgeSide(vs: seq<Vertex>, i: nat, p: Vec): real
    requires i < |vs|
  {
    Side(vs[i], vs[(i + 1) % |vs|], p)
  }

  /** The point is on the non-positive side of every edge. */
  predicate Inside(vs: seq<Vertex>, p: Vec)
  {
    forall i :: 0 <= i < |vs| ==> EdgeSide(vs, i, p) <= 0.0
  }

  /** `Vertices.contains`: the loop stops at the first edge the point lies outside of. */
  method Contains(vertices: seq<Vertex>, point: Vec) returns (inside: bool)
    ensures inside == Inside(vertices, point)
  {
    for i := 0 to |vertices|
      invariant forall k :: 0 <= k < i ==> EdgeSide(vertices, k, point) <= 0.0
    {
      var v, next := vertices[i], vertices[(i + 1) % |vertices|];
      if (point.x - v.x) * (next.y - v.y) + (point.y - v.y) * (v.x - next.x) > 0.0 {
        assert EdgeSide(vertices, i, point) > 0.0;
        return false;
      }
    }
    return true;
  }

  /** The edge test is the cross product of the point and the edge's end, both taken from its start. */
  lemma {:induction false} SideIsCross(v: Vertex, next: Vertex, p: Vec)
    ensures Side(v, next, p) == Cross3(Pos(v), p, Pos(next))
  {
  }

  /** Containment does not change when polygon and point are moved together. */
  lemma {:induction false} ContainsTranslate(vs: seq<Vertex>, p: Vec, d: Vec)
    ensures Inside(Moved(vs, d), Add(p, d)) == Inside(vs, p)
  {
    var ms := Moved(vs, d);
    forall i | 0 <= i < |vs|
      ensures EdgeSide(ms, i, Add(p, d)) == EdgeSide(vs, i, p)
    {
      assert ms[(i + 1) % |vs|] == MoveVertex(vs[(i + 1) % |vs|], d);
    }
  }

  /** A counterclockwise triangle contains its own corners. */
  lemma {:induction false} TriangleContainsCorners(a: Vertex, b: Vertex, c: Vertex)
    requires Cross3(Pos(a), Pos(b), Pos(c)) >= 0.0
    ensures Inside([a, b, c], Pos(a)) && Inside([a, b, c], Pos(b)) && Inside([a, b, c], Pos(c))
  {
    var t := [a, b, c];
    var o := Cross3(Pos(a), Pos(b), Pos(c));
    assert (0 + 1) % 3 == 1 && (1 + 1) % 3 == 2 && (2 + 1) % 3 == 0;
    assert EdgeSide(t, 0, Pos(c)) == -o;
    assert EdgeSide(t, 1, Pos(a)) == -o;
    assert EdgeSide(t, 2, Pos(b)) == -o;
    assert EdgeSide(t, 0, Pos(a)) == 0.0 && EdgeSide(t, 0, Pos(b)) == 0.0;
    assert EdgeSide(t, 1, Pos(b)) == 0.0 && EdgeSide(t, 1, Pos(c)) == 0.0;
    assert EdgeSide(t, 2, Pos(c)) == 0.0 && EdgeSide(t, 2, Pos(a)) == 0.0;
  }

  // ---------------------------------------------------------------- isConvex

  /** The turn `Vertices.isConvex` measures at the corner after position `i`. */
  function Turn(vs: seq<Vertex>, i: nat): real
    requires i < |vs|
  {
    var a, b, c := vs[i], vs[(i + 1) % |vs|], vs[(i + 2) % |vs|];
    (b.x - a.x) * (c.y - b.y) - (b.y - a.y) * (c.x - b.x)
  }

  predicate HasNegativeTurn(vs: seq<Vertex>, n: nat)
    requires n <= |vs|
  {
    exists i :: 0 <= i < n && Turn(vs, i) < 0.0
  }

  predicate HasPositiveTurn(vs: seq<Vertex>, n: nat)
    requires n <= |vs|
  {
    exists i :: 0 <= i < n && Turn(vs, i) > 0.0
  }

  /**
   * `Vertices.isConvex`: no answer (null) below three vertices or when every
   * turn is zero; false when turns of both signs occur; true otherwise.
   */
  method IsConvex(vertices: seq<Vertex>) returns (r: Option<bool>)
    ensures |vertices| < 3 ==> r == None
    ensures |vertices| >= 3 ==>
      var neg, pos := HasNegativeTurn(vertices, |vertices|), HasPositiveTurn(vertices, |vertices|);
      r == if neg && pos then Some(false) else if neg || pos then Some(true) else None
  {
    var n := |vertices|;
    if n < 3 {
      return None;
    }
    // The two bits of the source's `flag`: 1 is a negative turn seen, 2 a positive one.
    var negSeen, posSeen := false, false;
    for i := 0 to n
      invariant negSeen == HasNegativeTurn(vertices, i)
      invariant posSeen == HasPositiveTurn(vertices, i)
      invariant !(negSeen && posSeen)
    {
      var j, k := (i + 1) % n, (i + 2) % n;
      var z := (vertices[j].x - vertices[i].x) * (vertices[k].y - vertices[j].y);
      z := z - (vertices[j].y - vertices[i].y) * (vertices[k].x - vertices[j].x);
      assert z == Turn(vertices, i);
      if z < 0.0 {
        negSeen := true;
      } else if z > 0.0 {
        posSeen := true;
      }
      if negSeen && posSeen {
        return Some(false);
      }
    }
    if negSeen || posSeen {
      return Some(true);
    } else {
      return None;
    }
  }

  /** Every turn of a triangle is the orientation of its three corners. */
  lemma {:induction false} TriangleTurns(a: Vertex, b: Vertex, c: Vertex)
    ensures var t := [a, b, c];
      Turn(t, 0) == Cross3(Pos(a), Pos(b), Pos(c)) &&
      Turn(t, 1) == Cross3(Pos(a), Pos(b), Pos(c)) &&
      Turn(t, 2) == Cross3(Pos(a), Pos(b), Pos(c))
  {
    assert (0 + 1) % 3 == 1 && (0 + 2) % 3 == 2 && (1 + 1) % 3 == 2 && (1 + 2) % 3 == 0;
    assert (2 + 1) % 3 == 0 && (2 + 2) % 3 == 1;
  }

  /** A triangle is convex exactly when its corners are not collinear; collinear corners give no answer. */
  lemma {:induction false} TriangleConvex(a: Vertex, b: Vertex, c: Vertex)
    ensures var t := [a, b, c];
      var o := Cross3(Pos(a), Pos(b), Pos(c));
      (o != 0.0 ==> (HasNegativeTurn(t, 3) != HasPositiveTurn(t, 3))) &&
      (o == 0.0 ==> !HasNegativeTurn(t, 3) && !HasPositiveTurn(t, 3))
  {
    TriangleTurns(a, b, c);
    var t := [a, b, c];
    var o := Cross3(Pos(a), Pos(b), Pos(c));
    assert forall i :: 0 <= i < 3 ==> Turn(t, i) == o;
  }

  // -------------------------------------------------------------------- hull

  /** The order of the sort in `Vertices.hull`: by x, and by y where x ties. */
  predicate Before(a: Vertex, b: Vertex)
  {
    a.x < b.x || (a.x == b.x && a.y < b.y)
  }

  predicate LexSorted(s: seq<Vertex>)
  {
    forall i, j {:trigger Before(s[j], s[i])} :: 0 <= i < j < |s| ==> !Before(s[j], s[i])
  }

  /** Inserts `v` after every element it does not precede, which keeps equal points in input order. */
  function Insert(v: Vertex, s: seq<Vertex>): (r: seq<Vertex>)
    ensures |r| == |s| + 1
    ensures multiset(r) == multiset(s) + multiset{v}
  {
    if s == [] then [v]
    else if Before(v, s[0]) then [v] + s
    else
      assert s == [s[0]] + s[1..];
      [s[0]] + Insert(v, s[1..])
  }

  /** The stable sort of `Vertices.hull`'s comparator, as an insertion sort. */
  function SortLex(s: seq<Vertex>): (r: seq<Vertex>)
    ensures |r| == |s|
    ensures multiset(r) == multiset(s)
  {
    if s == [] then []
    else
      assert s == s[..|s| - 1] + [s[|s| - 1]];
      Insert(s[|s| - 1], SortLex(s[..|s| - 1]))
  }

  /** Nothing in `s` precedes its first element. */
  lemma {:induction false} SortedHead(s: seq<Vertex>, x: Vertex)
    requires LexSorted(s) && s != [] && x in s
    ensures !Before(x, s[0])
  {
    var k :| 0 <= k < |s| && s[k] == x;
  }

  lemma {:induction false} InsertSorted(v: Vertex, s: seq<Vertex>)
    requires LexSorted(s)
    ensures LexSorted(Insert(v, s))
  {
    if s != [] && !Before(v, s[0]) {
      TailSorted(s);
      InsertSorted(v, s[1..]);
      var r := Insert(v, s[1..]);
      forall k | 0 <= k < |r|
        ensures !Before(r[k], s[0])
      {
        assert r[k] in multiset(s[1..]) + multiset{v};
        if r[k] != v {
          assert r[k] in s[1..];
          SortedHead(s, r[k]);
        }
      }
      ConsSorted(s[0], r);
    } else if s != [] {
      forall k | 0 <= k < |s|
        ensures !Before(s[k], v)
      {
        if k > 0 {
          assert !Before(s[k], s[0]);
        }
      }
      ConsSorted(v, s);
    }
  }

  /** The tail of a sorted list is sorted. */
  lemma {:induction false} TailSorted(s: seq<Vertex>)
    requires LexSorted(s) && s != []
    ensures LexSorted(s[1..])
  {
    forall i, j | 0 <= i < j < |s| - 1
      ensures !Before(s[1..][j], s[1..][i])
    {
      assert !Before(s[j + 1], s[i + 1]);
    }
  }

  /** A point that nothing in a sorted list precedes can go in front of it. */
  lemma {:induction false} ConsSorted(h: Vertex, r: seq<Vertex>)
    requires LexSorted(r) && forall k :: 0 <= k < |r| ==> !Before(r[k], h)
    ensures LexSorted([h] + r)
  {
    var t := [h] + r;
    forall i, j | 0 <= i < j < |t|
      ensures !Before(t[j], t[i])
    {
      assert t[j] == r[j - 1];
      if i > 0 {
        assert t[i] == r[i - 1];
      }
    }
  }

  /** The sort orders the points and is a permutation of them. */
  lemma {:induction false} SortLexSorted(s: seq<Vertex>)
    ensures LexSorted(SortLex(s))
  {
    if s != [] {
      SortLexSorted(s[..|s| - 1]);
      InsertSorted(s[|s| - 1], SortLex(s[..|s| - 1]));
    }
  }

  /** The turn of a chain at `c[k + 1]`. */
  function ChainTurn(c: seq<Vertex>, k: nat): real
    requires k + 2 < |c|
  {
    Cross3(Pos(c[k]), Pos(c[k + 1]), Pos(c[k + 2]))
  }

  /** Every consecutive triple of the chain turns strictly left. */
  predicate StrictlyConvex(c: seq<Vertex>)
  {
    forall k :: 0 <= k < |c| - 2 ==> ChainTurn(c, k) > 0.0
  }

  lemma {:induction false} ConvexPrefix(c: seq<Vertex>, n: nat)
    requires StrictlyConvex(c) && n <= |c|
    ensures StrictlyConvex(c[..n])
  {
    var r := c[..n];
    forall k | 0 <= k < |r| - 2
      ensures ChainTurn(r, k) > 0.0
    {
      assert ChainTurn(c, k) > 0.0;
      assert r[k] == c[k] && r[k + 1] == c[k + 1] && r[k + 2] == c[k + 2];
    }
  }

  lemma {:induction false} ConvexPush(c: seq<Vertex>, v: Vertex)
    requires StrictlyConvex(c)
    requires |c| >= 2 ==> Cross3(Pos(c[|c| - 2]), Pos(c[|c| - 1]), Pos(v)) > 0.0
    ensures StrictlyConvex(c + [v])
  {
    var d := c + [v];
    forall k | 0 <= k < |d| - 2
      ensures ChainTurn(d, k) > 0.0
    {
      if k + 2 < |c| {
        assert ChainTurn(c, k) > 0.0;
        assert d[k] == c[k] && d[k + 1] == c[k + 1] && d[k + 2] == c[k + 2];
      } else {
        assert d[k] == c[|c| - 2] && d[k + 1] == c[|c| - 1] && d[k + 2] == v;
      }
    }
  }

  /**
   * The chain once the popping loop of `Vertices.hull` has met `v`: the last
   * point goes while the last two points and `v` do not turn strictly left.
   */
  function PopFor(c: seq<Vertex>, v: Vertex): seq<Vertex>
    decreases |c|
  {
    if |c| >= 2 && Cross3(Pos(c[|c| - 2]), Pos(c[|c| - 1]), Pos(v)) <= 0.0 then PopFor(c[..|c| - 1], v) else c
  }

  /** The chain the monotone-chain loop has built from the first `n` points. */
  function ChainOf(points: seq<Vertex>, n: nat): seq<Vertex>
    requires n <= |points|
  {
    if n == 0 then [] else PopFor(ChainOf(points, n - 1), points[n - 1]) + [points[n - 1]]
  }

  /**
   * Popping keeps a prefix of the chain, non-empty when the chain is; the
   * kept chain turns strictly left onto `v`, and the first point popped
   * does not.
   */
  lemma {:induction false} PopForFacts(c: seq<Vertex>, v: Vertex)
    ensures var r := PopFor(c, v);
      |r| <= |c| && r == c[..|r|] && (|c| > 0 ==> |r| > 0) &&
      (|r| >= 2 ==> Cross3(Pos(r[|r| - 2]), Pos(r[|r| - 1]), Pos(v)) > 0.0) &&
      (|r| < |c| ==> Cross3(Pos(r[|r| - 1]), Pos(c[|r|]), Pos(v)) <= 0.0)
    decreases |c|
  {
    if |c| >= 2 && Cross3(Pos(c[|c| - 2]), Pos(c[|c| - 1]), Pos(v)) <= 0.0 {
      var d := c[..|c| - 1];
      PopForFacts(d, v);
      var r := PopFor(d, v);
      assert r == c[..|r|];
      if |r| < |d| {
        assert d[|r|] == c[|r|];
      }
    }
  }

  /**
   * The chain of the first `n` points starts at the first and ends at the
   * `n`-th, is no longer than `n` and keeps two points once it has seen two.
   */
  lemma {:induction false} ChainEnds(points: seq<Vertex>, n: nat)
    requires n <= |points|
    ensures var c := ChainOf(points, n);
      |c| <= n && (n == 0 ==> c == []) && (n >= 2 ==> |c| >= 2) &&
      (n > 0 ==> |c| > 0 && c[0] == points[0] && c[|c| - 1] == points[n - 1])
  {
    if n > 0 {
      ChainEnds(points, n - 1);
      PopForFacts(ChainOf(points, n - 1), points[n - 1]);
    }
  }

  /** The chain turns strictly left throughout. */
  lemma {:induction false} ChainConvex(points: seq<Vertex>, n: nat)
    requires n <= |points|
    ensures StrictlyConvex(ChainOf(points, n))
  {
    if n > 0 {
      ChainConvex(points, n - 1);
      var c := ChainOf(points, n - 1);
      var p := points[n - 1];
      PopForFacts(c, p);
      var r := PopFor(c, p);
      ConvexPrefix(c, |r|);
      ConvexPush(r, p);
    }
  }

  /** The chain holds only points it has seen. */
  lemma {:induction false} ChainMembers(points: seq<Vertex>, n: nat)
    requires n <= |points|
    ensures forall v :: v in ChainOf(points, n) ==> v in points[..n]
  {
    if n > 0 {
      ChainMembers(points, n - 1);
      var c := ChainOf(points, n - 1);
      var p := points[n - 1];
      PopForFacts(c, p);
      var r := PopFor(c, p);
      assert points[..n] == points[..n - 1] + [p];
      forall v | v in r
        ensures v in c
      {
        var j :| 0 <= j < |r| && r[j] == v;
        assert c[j] == v;
      }
    }
  }

  /** The facts above together. */
  lemma {:induction false} ChainShape(points: seq<Vertex>, n: nat)
    requires n <= |points|
    ensures var c := ChainOf(points, n);
      |c| <= n && (n == 0 ==> c == []) && (n >= 2 ==> |c| >= 2) &&
      (n > 0 ==> |c| > 0 && c[0] == points[0] && c[|c| - 1] == points[n - 1]) &&
      StrictlyConvex(c) && (forall v :: v in c ==> v in points[..n])
  {
    ChainEnds(points, n);
    ChainConvex(points, n);
    ChainMembers(points, n);
  }

  /**
   * One of the two monotone-chain loops of `Vertices.hull`: each point pops
   * the chain while its last two points and the new point do not turn
   * strictly left, and is then pushed.
   */
  method Chain(points: seq<Vertex>) returns (chain: seq<Vertex>)
    ensures chain == ChainOf(points, |points|)
  {
    chain := [];
    for i := 0 to |points|
      invariant chain == ChainOf(points, i)
    {
      var vertex := points[i];
      ghost var before := chain;
      while |chain| >= 2 && Cross3(Pos(chain[|chain| - 2]), Pos(chain[|chain| - 1]), Pos(vertex)) <= 0.0
        invariant PopFor(chain, vertex) == PopFor(before, vertex)
        decreases |chain|
      {
        chain := chain[..|chain| - 1];
      }
      chain := chain + [vertex];
    }
  }

  // ------------------------------------------------- hull: support of a chain

  /** `b` is not behind `a` in the walk: the sort order when `up`, its reverse otherwise. */
  predicate NotBehind(a: Vertex, b: Vertex, up: bool)
  {
    if up then !Before(b, a) else !Before(a, b)
  }

  predicate Ordered(s: seq<Vertex>, up: bool)
  {
    forall i, j {:trigger NotBehind(s[i], s[j], up)} :: 0 <= i < j < |s| ==> NotBehind(s[i], s[j], up)
  }

  /** A direction that goes forwards in the walk. */
  predicate Forward(v: Vec, up: bool)
  {
    if up then v.x > 0.0 || (v.x == 0.0 && v.y > 0.0) else v.x < 0.0 || (v.x == 0.0 && v.y < 0.0)
  }

  /** A step to a point not behind is forwards, unless it stays put. */
  lemma {:induction false} StepForward(a: Vertex, b: Vertex, up: bool)
    requires NotBehind(a, b, up) && Pos(a) != Pos(b)
    ensures Forward(Sub(Pos(b), Pos(a)), up)
  {
  }

  /** Two points neither of which is behind the other share their position. */
  lemma {:induction false} Antisymmetric(a: Vertex, b: Vertex, up: bool)
    ensures NotBehind(a, b, up) && NotBehind(b, a, up) ==> Pos(a) == Pos(b)
  {
  }

  /** Three points two of which coincide make no turn. */
  lemma {:induction false} Degenerate(a: Vec, b: Vec, c: Vec)
    requires b == a || c == a || b == c
    ensures Cross3(a, b, c) == 0.0
  {
  }

  /** `Cross3` measured from its middle point. */
  lemma {:induction false} Cross3Middle(a: Vec, b: Vec, c: Vec)
    ensures Cross3(a, b, c) == Cross(Sub(b, a), Sub(c, b))
  {
  }

  lemma {:induction false} Expansion(a: Vec, b: Vec, c: Vec)
    ensures b.x * Cross(a, c) == a.x * Cross(b, c) + c.x * Cross(a, b)
    ensures b.y * Cross(a, c) == a.y * Cross(b, c) + c.y * Cross(a, b)
  {
  }

  /** Among forward directions, two left turns in a row do not make a right turn. */
  lemma {:induction false} LeftTransitive(a: Vec, b: Vec, c: Vec, up: bool)
    requires Forward(a, up) && Forward(b, up) && (Forward(c, up) || c == Zero)
    requires Cross(a, b) >= 0.0 && Cross(b, c) >= 0.0
    ensures Cross(a, c) >= 0.0
  {
    Expansion(a, b, c);
  }

  /**
   * Two forward directions along one line: a vector on or right of the first
   * and on or left of the second lies on that line.
   */
  lemma {:induction false} SameLine(a: Vec, b: Vec, r: Vec, up: bool)
    requires Forward(a, up) && Forward(b, up) && Cross(a, b) == 0.0
    requires Cross(a, r) <= 0.0 && Cross(b, r) >= 0.0
    ensures Cross(b, r) == 0.0
  {
    Expansion(b, a, r);
  }

  /** The turn through `m` is minus the cross product of the two steps away from `m`. */
  lemma {:induction false} Pivot(a: Vec, m: Vec, q: Vec)
    ensures Cross3(a, m, q) == -Cross(Sub(a, m), Sub(q, m))
  {
  }

  /** Two vectors both parallel to a non-zero one are parallel to each other. */
  lemma {:induction false} Parallel(d: Vec, s: Vec, t: Vec)
    requires d != Zero && Cross(d, s) == 0.0 && Cross(d, t) == 0.0
    ensures Cross(s, t) == 0.0
  {
    Expansion(s, d, t);
  }

  /** `q` is on or left of the chain's edge from `c[j]` to `c[j + 1]`. */
  predicate LeftOfEdge(c: seq<Vertex>, j: nat, q: Vertex)
    requires j + 1 < |c|
  {
    Cross3(Pos(c[j]), Pos(c[j + 1]), Pos(q)) >= 0.0
  }

  /** Every point of `pts` is on or left of every edge of the chain `c`. */
  predicate Supported(c: seq<Vertex>, pts: seq<Vertex>)
  {
    forall j, k :: 0 <= j < |c| - 1 && 0 <= k < |pts| ==> LeftOfEdge(c, j, pts[k])
  }

  /**
   * A point not behind a strictly convex ordered chain, on or left of its
   * last edge, is on or left of all of its edges.
   */
  lemma {:induction false} LeftOfAll(r: seq<Vertex>, p: Vertex, up: bool)
    requires |r| >= 2 && StrictlyConvex(r) && Ordered(r, up)
    requires LeftOfEdge(r, |r| - 2, p) && NotBehind(r[|r| - 1], p, up)
    ensures forall j :: 0 <= j < |r| - 1 ==> LeftOfEdge(r, j, p)
    decreases |r|
  {
    if |r| >= 3 {
      var s := r[..|r| - 1];
      var a, b, c := Pos(r[|r| - 3]), Pos(r[|r| - 2]), Pos(r[|r| - 1]);
      Cross3Middle(a, b, c);
      Cross3Middle(a, b, Pos(p));
      assert ChainTurn(r, |r| - 3) > 0.0;
      assert NotBehind(r[|r| - 3], r[|r| - 2], up) && NotBehind(r[|r| - 2], r[|r| - 1], up);
      StepForward(r[|r| - 3], r[|r| - 2], up);
      StepForward(r[|r| - 2], r[|r| - 1], up);
      if Pos(p) != b {
        StepForward(r[|r| - 2], p, up);
      }
      LeftTransitive(Sub(b, a), Sub(c, b), Sub(Pos(p), b), up);
      assert s[|s| - 2] == r[|r| - 3] && s[|s| - 1] == r[|r| - 2];
      ConvexPrefix(r, |r| - 1);
      OrderedPrefix(r, |r| - 1, up);
      LeftOfAll(s, p, up);
      forall j | 0 <= j < |r| - 2
        ensures LeftOfEdge(r, j, p)
      {
        assert LeftOfEdge(s, j, p);
        assert s[j] == r[j] && s[j + 1] == r[j + 1];
      }
    }
  }

  /** A point behind the chain's last point `x`, left of the edge into `x`, is left of the edge from `x` on to `p`. */
  lemma {:induction false} BehindStep(y: Vec, x: Vec, p: Vec, q: Vec, up: bool)
    requires Forward(Sub(x, q), up) && Forward(Sub(x, y), up) && Forward(Sub(p, x), up)
    requires Cross3(y, x, p) >= 0.0 && Cross3(y, x, q) >= 0.0
    ensures Cross3(x, p, q) >= 0.0
  {
    Cross3Middle(y, x, p);
    assert Cross3(y, x, q) == Cross(Sub(x, q), Sub(x, y));
    LeftTransitive(Sub(x, q), Sub(x, y), Sub(p, x), up);
  }

  /** A point ahead of `x`, left of the popped edge from `x` to `z` that `p` is not left of, is left of the edge from `x` to `p`. */
  lemma {:induction false} AheadStep(x: Vec, z: Vec, p: Vec, q: Vec, up: bool)
    requires Forward(Sub(p, x), up) && Forward(Sub(z, x), up) && Forward(Sub(q, x), up)
    requires Cross3(x, z, p) <= 0.0 && Cross3(x, z, q) >= 0.0
    ensures Cross3(x, p, q) >= 0.0
  {
    assert Cross(Sub(p, x), Sub(z, x)) == -Cross3(x, z, p);
    LeftTransitive(Sub(p, x), Sub(z, x), Sub(q, x), up);
  }

  /** The edge from `c[m]` to `p` when the point `q` is behind `c[m]`: the edge into `c[m]` decides. */
  lemma {:induction false} BehindEdge(c: seq<Vertex>, m: nat, q: Vertex, p: Vertex, up: bool)
    requires 1 <= m < |c| && Ordered(c, up)
    requires LeftOfEdge(c, m - 1, q) && Cross3(Pos(c[m - 1]), Pos(c[m]), Pos(p)) > 0.0
    requires NotBehind(q, c[m], up) && NotBehind(c[m], p, up)
    requires Pos(q) != Pos(c[m]) && Pos(p) != Pos(c[m])
    ensures Cross3(Pos(c[m]), Pos(p), Pos(q)) >= 0.0
  {
    StepForward(c[m], p, up);
    StepForward(q, c[m], up);
    StepForward(c[m - 1], c[m], up);
    BehindStep(Pos(c[m - 1]), Pos(c[m]), Pos(p), Pos(q), up);
  }

  /** The edge from `c[m]` to `p` when the point `q` is ahead of `c[m]`: the popped edge out of `c[m]` decides. */
  lemma {:induction false} AheadEdge(c: seq<Vertex>, m: nat, q: Vertex, p: Vertex, up: bool)
    requires m + 1 < |c| && StrictlyConvex(c) && Ordered(c, up)
    requires LeftOfEdge(c, m, q) && Cross3(Pos(c[m]), Pos(c[m + 1]), Pos(p)) <= 0.0
    requires NotBehind(c[m], q, up) && NotBehind(c[m], p, up) && NotBehind(q, c[|c| - 1], up)
    requires Pos(q) != Pos(c[m]) && Pos(p) != Pos(c[m])
    ensures Cross3(Pos(c[m]), Pos(p), Pos(q)) >= 0.0
  {
    StepForward(c[m], p, up);
    StepForward(c[m], q, up);
    if m + 2 < |c| {
      assert ChainTurn(c, m) > 0.0;
    } else {
      Antisymmetric(q, c[m], up);
    }
    StepForward(c[m], c[m + 1], up);
    AheadStep(Pos(c[m]), Pos(c[m + 1]), Pos(p), Pos(q), up);
  }

  /**
   * After popping for `p`, a point `q` the chain supported, lying between
   * the chain's ends, is on or left of the new edge into `p`.
   */
  lemma {:induction false} NewEdge(c: seq<Vertex>, q: Vertex, p: Vertex, up: bool)
    requires |c| > 0 && StrictlyConvex(c) && Ordered(c, up)
    requires forall j :: 0 <= j < |c| - 1 ==> LeftOfEdge(c, j, q)
    requires NotBehind(c[0], q, up) && NotBehind(q, c[|c| - 1], up)
    requires NotBehind(c[|c| - 1], p, up)
    ensures var r := PopFor(c, p); |r| > 0 && Cross3(Pos(r[|r| - 1]), Pos(p), Pos(q)) >= 0.0
  {
    PopForFacts(c, p);
    var r := PopFor(c, p);
    var m := |r| - 1;
    var x := Pos(c[m]);
    assert r[m] == c[m];
    assert NotBehind(c[m], c[|c| - 1], up) || m == |c| - 1;
    if Pos(q) == x || Pos(p) == x {
      Degenerate(x, Pos(p), Pos(q));
    } else if NotBehind(q, c[m], up) {
      Antisymmetric(c[0], q, up);
      assert m >= 1;
      assert r[m - 1] == c[m - 1];
      BehindEdge(c, m, q, p, up);
    } else {
      Antisymmetric(q, c[|c| - 1], up);
      assert |r| < |c|;
      AheadEdge(c, m, q, p, up);
    }
  }

  lemma {:induction false} OrderedPrefix(c: seq<Vertex>, n: nat, up: bool)
    requires Ordered(c, up) && n <= |c|
    ensures Ordered(c[..n], up)
  {
    var r := c[..n];
    forall i, j | 0 <= i < j < |r|
      ensures NotBehind(r[i], r[j], up)
    {
      assert r[i] == c[i] && r[j] == c[j];
    }
  }

  lemma {:induction false} OrderedPush(r: seq<Vertex>, p: Vertex, up: bool)
    requires Ordered(r, up) && forall i :: 0 <= i < |r| ==> NotBehind(r[i], p, up)
    ensures Ordered(r + [p], up)
  {
    var d := r + [p];
    forall i, j | 0 <= i < j < |d|
      ensures NotBehind(d[i], d[j], up)
    {
      assert d[i] == r[i];
      if j < |r| {
        assert d[j] == r[j];
      }
    }
  }

  /** Pushing `p` keeps the seen points supported when `p` and they are left of the edges that remain and of the new one. */
  lemma {:induction false} SupportedPush(c: seq<Vertex>, r: seq<Vertex>, pts: seq<Vertex>, p: Vertex)
    requires 0 < |r| <= |c| && r == c[..|r|] && Supported(c, pts)
    requires forall j :: 0 <= j < |r| - 1 ==> LeftOfEdge(r, j, p)
    requires forall k :: 0 <= k < |pts| ==> Cross3(Pos(r[|r| - 1]), Pos(p), Pos(pts[k])) >= 0.0
    ensures Supported(r + [p], pts + [p])
  {
    var d, qs := r + [p], pts + [p];
    var m := |r| - 1;
    forall j, k | 0 <= j < |d| - 1 && 0 <= k < |qs|
      ensures LeftOfEdge(d, j, qs[k])
    {
      if j < m {
        assert d[j] == r[j] && d[j + 1] == r[j + 1];
        if k < |pts| {
          assert LeftOfEdge(c, j, pts[k]);
          assert r[j] == c[j] && r[j + 1] == c[j + 1];
        } else {
          assert LeftOfEdge(r, j, p);
        }
      } else if k < |pts| {
        assert d[j] == r[m] && d[j + 1] == p && qs[k] == pts[k];
      } else {
        Degenerate(Pos(d[j]), Pos(p), Pos(p));
      }
    }
  }

  /** One step of the loop keeps every point seen, the new one included, supported. */
  lemma {:induction false} PushSupported(c: seq<Vertex>, pts: seq<Vertex>, p: Vertex, up: bool)
    requires |c| > 0 && Supported(c, pts) && StrictlyConvex(c) && Ordered(c, up)
    requires forall k :: 0 <= k < |pts| ==> NotBehind(c[0], pts[k], up) && NotBehind(pts[k], c[|c| - 1], up)
    requires NotBehind(c[|c| - 1], p, up)
    ensures Supported(PopFor(c, p) + [p], pts + [p])
    ensures Ordered(PopFor(c, p) + [p], up)
  {
    PopForFacts(c, p);
    var r := PopFor(c, p);
    ConvexPrefix(c, |r|);
    OrderedPrefix(c, |r|, up);
    if |r| >= 2 {
      assert r[|r| - 1] == c[|r| - 1];
      assert |r| == |c| || NotBehind(c[|r| - 1], c[|c| - 1], up);
      LeftOfAll(r, p, up);
    }
    forall k | 0 <= k < |pts|
      ensures Cross3(Pos(r[|r| - 1]), Pos(p), Pos(pts[k])) >= 0.0
    {
      NewEdge(c, pts[k], p, up);
    }
    SupportedPush(c, r, pts, p);
    forall i | 0 <= i < |r|
      ensures NotBehind(r[i], p, up)
    {
      assert r[i] == c[i];
      assert i == |c| - 1 || NotBehind(c[i], c[|c| - 1], up);
    }
    OrderedPush(r, p, up);
  }


  /** The points seen so far lie between the chain's ends, and the next point is not behind its last one. */
  lemma {:induction false} ChainBetween(points: seq<Vertex>, n: nat, up: bool)
    requires 0 < n < |points| && Ordered(points, up)
    ensures var c, pts := ChainOf(points, n), points[..n];
      |c| > 0 && NotBehind(c[|c| - 1], points[n], up) &&
      forall k :: 0 <= k < |pts| ==> NotBehind(c[0], pts[k], up) && NotBehind(pts[k], c[|c| - 1], up)
  {
    ChainEnds(points, n);
    var c, pts := ChainOf(points, n), points[..n];
    forall k | 0 <= k < |pts|
      ensures NotBehind(c[0], pts[k], up) && NotBehind(pts[k], c[|c| - 1], up)
    {
      assert pts[k] == points[k];
      assert k == 0 || NotBehind(points[0], points[k], up);
      assert k == n - 1 || NotBehind(points[k], points[n - 1], up);
    }
  }

  /** Every point the loop has seen is on or left of every edge of its chain. */
  lemma {:induction false} ChainSupports(points: seq<Vertex>, n: nat, up: bool)
    requires n <= |points| && Ordered(points, up)
    ensures Supported(ChainOf(points, n), points[..n]) && Ordered(ChainOf(points, n), up)
  {
    if n > 1 {
      ChainSupports(points, n - 1, up);
      SupportStep(points, n, up);
    }
  }

  /** One step of `ChainSupports`: the facts for `n - 1` points give those for `n`. */
  lemma {:induction false} SupportStep(points: seq<Vertex>, n: nat, up: bool)
    requires 1 < n <= |points| && Ordered(points, up)
    requires Supported(ChainOf(points, n - 1), points[..n - 1]) && Ordered(ChainOf(points, n - 1), up)
    ensures Supported(ChainOf(points, n), points[..n]) && Ordered(ChainOf(points, n), up)
  {
    ChainConvex(points, n - 1);
    ChainBetween(points, n - 1, up);
    var c, pts := ChainOf(points, n - 1), points[..n - 1];
    PushSupported(c, pts, points[n - 1], up);
    assert points[..n] == pts + [points[n - 1]];
  }

  /** Drops the last element, as `Array.prototype.pop` does; an empty list stays empty. */
  function Pop(s: seq<Vertex>): (r: seq<Vertex>)
    ensures |s| > 0 ==> |r| == |s| - 1 && forall k :: 0 <= k < |r| ==> r[k] == s[k]
    ensures s == [] ==> r == []
  {
    if s == [] then [] else s[..|s| - 1]
  }

  function Reverse(s: seq<Vertex>): (r: seq<Vertex>)
    ensures |r| == |s| && forall k :: 0 <= k < |s| ==> r[k] == s[|s| - 1 - k]
  {
    seq(|s|, k requires 0 <= k < |s| => s[|s| - 1 - k])
  }

  lemma {:induction false} ReverseMembers(s: seq<Vertex>, v: Vertex)
    requires v in Reverse(s)
    ensures v in s
  {
    var m :| 0 <= m < |s| && Reverse(s)[m] == v;
    assert s[|s| - 1 - m] == v;
  }

  lemma {:induction false} ReverseEnds(s: seq<Vertex>)
    requires |s| > 0
    ensures Reverse(s)[0] == s[|s| - 1] && Reverse(s)[|s| - 1] == s[0]
  {
  }

  lemma {:induction false} ReverseHas(s: seq<Vertex>, v: Vertex)
    requires v in s
    ensures v in Reverse(s)
  {
    var m :| 0 <= m < |s| && s[m] == v;
    assert Reverse(s)[|s| - 1 - m] == v;
  }

  lemma {:induction false} PopMembers(s: seq<Vertex>, v: Vertex)
    requires v in Pop(s)
    ensures v in s
  {
    var m :| 0 <= m < |Pop(s)| && Pop(s)[m] == v;
    assert s[m] == v;
  }

  // ------------------------------------------------------- hull: the polygon

  /** A test of `Vertices.contains` is the orientation of the edge and the point, negated. */
  lemma {:induction false} SideIsTurn(v: Vertex, next: Vertex, p: Vec)
    ensures Side(v, next, p) == -Cross3(Pos(v), Pos(next), p)
  {
  }

  /** The sort order read backwards is the reverse order. */
  lemma {:induction false} ReverseOrdered(s: seq<Vertex>)
    requires LexSorted(s)
    ensures Ordered(s, true) && Ordered(Reverse(s), false)
  {
    var r := Reverse(s);
    forall i, j | 0 <= i < j < |r|
      ensures NotBehind(r[i], r[j], false)
    {
      assert !Before(s[|s| - 1 - i], s[|s| - 1 - j]);
    }
  }

  /** The hull `Vertices.hull` returns for the sorted points. */
  function HullOf(sorted: seq<Vertex>): seq<Vertex>
  {
    Pop(ChainOf(Reverse(sorted), |sorted|)) + Pop(ChainOf(sorted, |sorted|))
  }

  /** The upper chain ends where the lower one starts, and the lower ends where the upper starts. */
  predicate Joined(upper: seq<Vertex>, lower: seq<Vertex>)
  {
    |upper| >= 2 && |lower| >= 2 && upper[|upper| - 1] == lower[0] && lower[|lower| - 1] == upper[0]
  }

  lemma {:induction false} Wrap(a: int, n: int)
    requires 0 < n && 0 <= a < 2 * n
    ensures a % n == if a < n then a else a - n
  {
  }

  /** The position after `i` around a polygon of `n` points. */
  function Succ(i: nat, n: nat): nat
  {
    if i + 1 < n then i + 1 else 0
  }

  /** A turn of `Vertices.isConvex` is the orientation of three consecutive points around the polygon. */
  lemma {:induction false} TurnAround(vs: seq<Vertex>, i: nat)
    requires i < |vs|
    ensures Succ(i, |vs|) < |vs| && Succ(Succ(i, |vs|), |vs|) < |vs|
    ensures Turn(vs, i) == Cross3(Pos(vs[i]), Pos(vs[Succ(i, |vs|)]), Pos(vs[Succ(Succ(i, |vs|), |vs|)]))
  {
    var n := |vs|;
    var s1, s2 := Succ(i, n), Succ(Succ(i, n), n);
    Wrap(i + 1, n);
    if n > 1 {
      Wrap(i + 2, n);
    } else {
      assert (i + 2) % n == 0;
    }
    assert (i + 1) % n == s1 && (i + 2) % n == s2;
    var a, b, c := vs[i], vs[s1], vs[s2];
    assert Turn(vs, i) == (b.x - a.x) * (c.y - b.y) - (b.y - a.y) * (c.x - b.x);
    Cross3Middle(Pos(a), Pos(b), Pos(c));
  }

  /** Position `t` of the joined polygon, in terms of the chains. */
  lemma {:induction false} JoinAt(upper: seq<Vertex>, lower: seq<Vertex>, t: nat)
    requires |upper| >= 1 && |lower| >= 1 && t < |upper| + |lower| - 2
    ensures |Pop(upper) + Pop(lower)| == |upper| + |lower| - 2
    ensures (Pop(upper) + Pop(lower))[t] == if t < |upper| - 1 then upper[t] else lower[t - (|upper| - 1)]
  {
  }

  /** Edge `i` of the joined polygon, the closing edge included, is an edge of one chain. */
  lemma {:induction false} HullEdge(upper: seq<Vertex>, lower: seq<Vertex>, i: nat) returns (onUpper: bool, j: nat)
    requires Joined(upper, lower) && i < |upper| + |lower| - 2
    ensures var h := Pop(upper) + Pop(lower);
      |h| == |upper| + |lower| - 2 &&
      (onUpper ==> j + 1 < |upper| && h[i] == upper[j] && h[(i + 1) % |h|] == upper[j + 1]) &&
      (!onUpper ==> j + 1 < |lower| && h[i] == lower[j] && h[(i + 1) % |h|] == lower[j + 1])
  {
    var n, nu := |upper| + |lower| - 2, |upper| - 1;
    Wrap(i + 1, n);
    JoinAt(upper, lower, i);
    JoinAt(upper, lower, (i + 1) % n);
    onUpper := i < nu;
    j := if i < nu then i else i - nu;
  }

  /**
   * The turn at position `i` of the joined polygon is a turn inside one chain
   * (`kind` 0 upper, 1 lower, from index `j`) or one of the two joins: at the
   * start of the lower chain (2) or at the start of the upper one (3).
   */
  lemma {:induction false} HullTriple(upper: seq<Vertex>, lower: seq<Vertex>, i: nat) returns (kind: nat, j: nat)
    requires Joined(upper, lower) && i < |upper| + |lower| - 2
    ensures var h := Pop(upper) + Pop(lower);
      var a, b, c := h[i], h[Succ(i, |h|)], h[Succ(Succ(i, |h|), |h|)];
      |h| == |upper| + |lower| - 2 && kind <= 3 &&
      (kind == 0 ==> j + 2 < |upper| && a == upper[j] && b == upper[j + 1] && c == upper[j + 2]) &&
      (kind == 1 ==> j + 2 < |lower| && a == lower[j] && b == lower[j + 1] && c == lower[j + 2]) &&
      (kind == 2 ==> a == upper[|upper| - 2] && b == lower[0] && c == lower[1]) &&
      (kind == 3 ==> a == lower[|lower| - 2] && b == upper[0] && c == upper[1])
  {
    var n, nu := |upper| + |lower| - 2, |upper| - 1;
    JoinAt(upper, lower, i);
    JoinAt(upper, lower, Succ(i, n));
    JoinAt(upper, lower, Succ(Succ(i, n), n));
    if i + 2 <= nu {
      kind, j := 0, i;
    } else if i + 1 == nu {
      kind, j := 2, 0;
    } else if i + 1 < n {
      kind, j := 1, i - nu;
    } else {
      kind, j := 3, 0;
    }
  }


  /** The two chains over the sorted points, their ends shared, each supporting all the points. */
  lemma {:induction false} HullChains(sorted: seq<Vertex>)
    requires LexSorted(sorted) && |sorted| >= 2
    ensures var n, r := |sorted|, Reverse(sorted);
      var upper, lower := ChainOf(r, n), ChainOf(sorted, n);
      Joined(upper, lower) && lower[0] == sorted[0] && upper[0] == sorted[n - 1] &&
      StrictlyConvex(upper) && StrictlyConvex(lower) &&
      (forall v :: v in upper ==> v in sorted) && (forall v :: v in lower ==> v in sorted) &&
      Supported(upper, r) && Supported(lower, sorted)
  {
    var n, r := |sorted|, Reverse(sorted);
    ReverseOrdered(sorted);
    ChainShape(sorted, n);
    ChainShape(r, n);
    ChainSupports(sorted, n, true);
    ChainSupports(r, n, false);
    assert sorted[..n] == sorted && r[..n] == r;
    forall v | v in ChainOf(r, n)
      ensures v in sorted
    {
      ReverseMembers(sorted, v);
    }
  }

  /** Fewer than two points have an empty hull. */
  lemma {:induction false} ShortHull(sorted: seq<Vertex>)
    requires |sorted| <= 1
    ensures HullOf(sorted) == []
  {
    ChainEnds(sorted, |sorted|);
    ChainEnds(Reverse(sorted), |sorted|);
  }

  /** Every one of the sorted points is inside the hull. */
  lemma {:induction false} HullContains(sorted: seq<Vertex>, v: Vertex)
    requires LexSorted(sorted) && v in sorted
    ensures Inside(HullOf(sorted), Pos(v))
  {
    var n, r := |sorted|, Reverse(sorted);
    if n < 2 {
      ShortHull(sorted);
    } else {
      HullChains(sorted);
      var upper, lower := ChainOf(r, n), ChainOf(sorted, n);
      var k :| 0 <= k < n && sorted[k] == v;
      assert r[n - 1 - k] == v;
      var h := HullOf(sorted);
      forall i | 0 <= i < |h|
        ensures EdgeSide(h, i, Pos(v)) <= 0.0
      {
        var onUpper, j := HullEdge(upper, lower, i);
        if onUpper {
          assert LeftOfEdge(upper, j, r[n - 1 - k]);
        } else {
          assert LeftOfEdge(lower, j, sorted[k]);
        }
        SideIsTurn(h[i], h[(i + 1) % |h|], Pos(v));
      }
    }
  }

  /** Points that all share one position make no turn. */
  lemma {:induction false} OnePosition(sorted: seq<Vertex>, x: Vertex, y: Vertex, z: Vertex)
    requires LexSorted(sorted) && |sorted| > 0 && Pos(sorted[0]) == Pos(sorted[|sorted| - 1])
    requires x in sorted && y in sorted && z in sorted
    ensures Cross3(Pos(x), Pos(y), Pos(z)) == 0.0
  {
    SortedHead(sorted, x);
    SortedHead(sorted, y);
    SortedHead(sorted, z);
    var i :| 0 <= i < |sorted| && sorted[i] == x;
    var j :| 0 <= j < |sorted| && sorted[j] == y;
    var k :| 0 <= k < |sorted| && sorted[k] == z;
    assert !Before(sorted[|sorted| - 1], x) && !Before(sorted[|sorted| - 1], y) && !Before(sorted[|sorted| - 1], z);
  }

  /**
   * At an extreme point `m` of `pts`, with every point on or left of the edge
   * into `m` and the edge out of it, the turn through `m` is strict, unless
   * the points make no turn at all.
   */
  lemma {:induction false} JoinStrict(a: Vertex, m: Vertex, b: Vertex, pts: seq<Vertex>, up: bool, x: Vertex, y: Vertex, z: Vertex)
    requires a in pts && b in pts && x in pts && y in pts && z in pts
    requires Pos(a) != Pos(m) && Pos(b) != Pos(m)
    requires forall q :: q in pts ==> NotBehind(m, q, up)
    requires forall q :: q in pts ==> Cross3(Pos(a), Pos(m), Pos(q)) >= 0.0 && Cross3(Pos(m), Pos(b), Pos(q)) >= 0.0
    requires Cross3(Pos(x), Pos(y), Pos(z)) > 0.0
    ensures Cross3(Pos(a), Pos(m), Pos(b)) > 0.0
  {
    var al, be := Sub(Pos(a), Pos(m)), Sub(Pos(b), Pos(m));
    StepForward(m, a, up);
    StepForward(m, b, up);
    Pivot(Pos(a), Pos(m), Pos(b));
    if Cross(al, be) == 0.0 {
      OnLine(Pos(a), Pos(m), Pos(b), Pos(x), up);
      OnLine(Pos(a), Pos(m), Pos(b), Pos(y), up);
      OnLine(Pos(a), Pos(m), Pos(b), Pos(z), up);
      Flat(Pos(m), be, Pos(x), Pos(y), Pos(z));
    }
  }

  /** With the edges into and out of `m` along one line, a point on or left of both is on that line. */
  lemma {:induction false} OnLine(a: Vec, m: Vec, b: Vec, q: Vec, up: bool)
    requires Forward(Sub(a, m), up) && Forward(Sub(b, m), up) && Cross(Sub(a, m), Sub(b, m)) == 0.0
    requires Cross3(a, m, q) >= 0.0 && Cross3(m, b, q) >= 0.0
    ensures Cross(Sub(b, m), Sub(q, m)) == 0.0
  {
    Pivot(a, m, q);
    assert Cross3(m, b, q) == Cross(Sub(b, m), Sub(q, m));
    SameLine(Sub(a, m), Sub(b, m), Sub(q, m), up);
  }

  /** Three points on one line through `m` make no turn. */
  lemma {:induction false} Flat(m: Vec, d: Vec, x: Vec, y: Vec, z: Vec)
    requires d != Zero && Cross(d, Sub(x, m)) == 0.0 && Cross(d, Sub(y, m)) == 0.0 && Cross(d, Sub(z, m)) == 0.0
    ensures Cross3(x, y, z) == 0.0
  {
    assert Cross(d, Sub(y, x)) == Cross(d, Sub(y, m)) - Cross(d, Sub(x, m));
    assert Cross(d, Sub(z, x)) == Cross(d, Sub(z, m)) - Cross(d, Sub(x, m));
    Parallel(d, Sub(y, x), Sub(z, x));
  }

  /** A strictly convex chain of three or more points starts with a strict turn among the points. */
  lemma {:induction false} StrictWitness(sorted: seq<Vertex>) returns (x: Vertex, y: Vertex, z: Vertex)
    requires LexSorted(sorted) && |sorted| >= 2 && |HullOf(sorted)| >= 3
    ensures x in sorted && y in sorted && z in sorted && Cross3(Pos(x), Pos(y), Pos(z)) > 0.0
  {
    var n, r := |sorted|, Reverse(sorted);
    ChainEnds(sorted, n);
    ChainEnds(r, n);
    if |ChainOf(r, n)| >= 3 {
      x, y, z := ChainWitness(r);
      ReverseMembers(sorted, x);
      ReverseMembers(sorted, y);
      ReverseMembers(sorted, z);
    } else {
      x, y, z := ChainWitness(sorted);
    }
  }

  /** A chain of three or more points turns strictly left at its first three. */
  lemma {:induction false} ChainWitness(points: seq<Vertex>) returns (x: Vertex, y: Vertex, z: Vertex)
    requires |ChainOf(points, |points|)| >= 3
    ensures x in points && y in points && z in points && Cross3(Pos(x), Pos(y), Pos(z)) > 0.0
  {
    var n := |points|;
    ChainConvex(points, n);
    ChainMembers(points, n);
    assert points[..n] == points;
    x, y, z := PickTurn(ChainOf(points, n), points);
  }

  /** The first turn of a strictly convex chain of three or more points of `pts`. */
  lemma {:induction false} PickTurn(c: seq<Vertex>, pts: seq<Vertex>) returns (x: Vertex, y: Vertex, z: Vertex)
    requires |c| >= 3 && StrictlyConvex(c) && forall v :: v in c ==> v in pts
    ensures x in pts && y in pts && z in pts && Cross3(Pos(x), Pos(y), Pos(z)) > 0.0
  {
    assert ChainTurn(c, 0) > 0.0;
    x, y, z := c[0], c[1], c[2];
    assert x in c && y in c && z in c;
  }

  /** The ends of the two chains, and the points next to them, are among the sorted points. */
  lemma {:induction false} JoinNeighbours(sorted: seq<Vertex>)
    requires LexSorted(sorted) && |sorted| >= 2
    ensures var n, r := |sorted|, Reverse(sorted);
      var upper, lower := ChainOf(r, n), ChainOf(sorted, n);
      |upper| >= 2 && |lower| >= 2 && lower[0] == sorted[0] && upper[0] == sorted[n - 1] &&
      upper[|upper| - 2] in sorted && upper[1] in sorted && lower[|lower| - 2] in sorted && lower[1] in sorted
  {
    var n, r := |sorted|, Reverse(sorted);
    var upper, lower := ChainOf(r, n), ChainOf(sorted, n);
    ChainEnds(sorted, n);
    ChainEnds(r, n);
    ChainMembers(sorted, n);
    ChainMembers(r, n);
    assert sorted[..n] == sorted && r[..n] == r;
    assert upper[|upper| - 2] in upper && upper[1] in upper && lower[|lower| - 2] in lower && lower[1] in lower;
    ReverseMembers(sorted, upper[|upper| - 2]);
    ReverseMembers(sorted, upper[1]);
  }

  /** Each point of the sorted list is on or left of the edges of the upper chain that meet the two ends. */
  lemma {:induction false} UpperSupport(sorted: seq<Vertex>)
    requires LexSorted(sorted) && |sorted| >= 2
    ensures var n, upper := |sorted|, ChainOf(Reverse(sorted), |sorted|);
      |upper| >= 2 &&
      forall q :: q in sorted ==>
        Cross3(Pos(upper[|upper| - 2]), Pos(sorted[0]), Pos(q)) >= 0.0 &&
        Cross3(Pos(sorted[n - 1]), Pos(upper[1]), Pos(q)) >= 0.0
  {
    var n, r := |sorted|, Reverse(sorted);
    ReverseOrdered(sorted);
    forall q | q in sorted
      ensures q in r
    {
      ReverseHas(sorted, q);
    }
    ChainSupportsAll(r, sorted, false);
    ReverseEnds(sorted);
  }

  /** Each point of the sorted list is on or left of the edges of the lower chain that meet the two ends. */
  lemma {:induction false} LowerSupport(sorted: seq<Vertex>)
    requires LexSorted(sorted) && |sorted| >= 2
    ensures var n, lower := |sorted|, ChainOf(sorted, |sorted|);
      |lower| >= 2 &&
      forall q :: q in sorted ==>
        Cross3(Pos(sorted[0]), Pos(lower[1]), Pos(q)) >= 0.0 &&
        Cross3(Pos(lower[|lower| - 2]), Pos(sorted[n - 1]), Pos(q)) >= 0.0
  {
    ReverseOrdered(sorted);
    ChainSupportsAll(sorted, sorted, true);
  }

  /** The first sorted point is behind every point and the last one ahead of every point. */
  lemma {:induction false} Extremes(sorted: seq<Vertex>)
    requires LexSorted(sorted) && |sorted| >= 1
    ensures forall q :: q in sorted ==> NotBehind(sorted[0], q, true) && NotBehind(sorted[|sorted| - 1], q, false)
  {
    var n := |sorted|;
    ReverseOrdered(sorted);
    forall q | q in sorted
      ensures NotBehind(sorted[0], q, true) && NotBehind(sorted[n - 1], q, false)
    {
      var k :| 0 <= k < n && sorted[k] == q;
      assert k == 0 || NotBehind(sorted[0], sorted[k], true);
      assert k == n - 1 || NotBehind(sorted[k], sorted[n - 1], true);
    }
  }

  /** Each point of `pts`, all of them in the ordered list, is on or left of the first and the last edge of its chain. */
  lemma {:induction false} ChainSupportsAll(points: seq<Vertex>, pts: seq<Vertex>, up: bool)
    requires |points| >= 2 && Ordered(points, up) && forall q :: q in pts ==> q in points
    ensures var c := ChainOf(points, |points|);
      |c| >= 2 && c[0] == points[0] && c[|c| - 1] == points[|points| - 1] &&
      forall q :: q in pts ==>
        Cross3(Pos(c[|c| - 2]), Pos(c[|c| - 1]), Pos(q)) >= 0.0 &&
        Cross3(Pos(c[0]), Pos(c[1]), Pos(q)) >= 0.0
  {
    var n := |points|;
    ChainEnds(points, n);
    ChainSupports(points, n, up);
    assert points[..n] == points;
    var c := ChainOf(points, n);
    forall q | q in pts
      ensures LeftOfEdge(c, |c| - 2, q) && LeftOfEdge(c, 0, q)
    {
      var k :| 0 <= k < n && points[k] == q;
      assert LeftOfEdge(c, |c| - 2, points[k]) && LeftOfEdge(c, 0, points[k]);
    }
  }

  /** When the hull turns at all, the points next to each join sit apart from it. */
  lemma {:induction false} JoinsApart(sorted: seq<Vertex>, x: Vertex, y: Vertex, z: Vertex)
    requires LexSorted(sorted) && |sorted| >= 2
    requires x in sorted && y in sorted && z in sorted && Cross3(Pos(x), Pos(y), Pos(z)) > 0.0
    ensures var n, r := |sorted|, Reverse(sorted);
      var upper, lower := ChainOf(r, n), ChainOf(sorted, n);
      |upper| >= 2 && |lower| >= 2 &&
      Pos(upper[|upper| - 2]) != Pos(sorted[0]) && Pos(lower[1]) != Pos(sorted[0]) &&
      Pos(lower[|lower| - 2]) != Pos(sorted[n - 1]) && Pos(upper[1]) != Pos(sorted[n - 1])
  {
    var n, r := |sorted|, Reverse(sorted);
    if Pos(sorted[0]) == Pos(sorted[n - 1]) {
      OnePosition(sorted, x, y, z);
    } else {
      ReverseEnds(sorted);
      ChainApart(sorted);
      ChainApart(r);
    }
  }

  /** With its ends apart, a chain's second point is apart from its first and its last but one from its last. */
  lemma {:induction false} ChainApart(points: seq<Vertex>)
    requires |points| >= 2 && Pos(points[0]) != Pos(points[|points| - 1])
    ensures var n, c := |points|, ChainOf(points, |points|);
      |c| >= 2 && Pos(c[|c| - 2]) != Pos(points[n - 1]) && Pos(c[1]) != Pos(points[0])
  {
    var n := |points|;
    ChainEnds(points, n);
    ChainConvex(points, n);
    var c := ChainOf(points, n);
    if |c| >= 3 {
      assert ChainTurn(c, |c| - 3) > 0.0;
      assert ChainTurn(c, 0) > 0.0;
    }
  }

  /** The turn where the upper chain meets the lower one, at the least point, is strict. */
  lemma {:induction false} JoinLow(sorted: seq<Vertex>, x: Vertex, y: Vertex, z: Vertex)
    requires LexSorted(sorted) && |sorted| >= 2
    requires x in sorted && y in sorted && z in sorted && Cross3(Pos(x), Pos(y), Pos(z)) > 0.0
    ensures var n, r := |sorted|, Reverse(sorted);
      var upper, lower := ChainOf(r, n), ChainOf(sorted, n);
      |upper| >= 2 && |lower| >= 2 && Cross3(Pos(upper[|upper| - 2]), Pos(lower[0]), Pos(lower[1])) > 0.0
  {
    var n, r := |sorted|, Reverse(sorted);
    var upper, lower := ChainOf(r, n), ChainOf(sorted, n);
    JoinNeighbours(sorted);
    JoinsApart(sorted, x, y, z);
    UpperSupport(sorted);
    LowerSupport(sorted);
    Extremes(sorted);
    JoinStrict(upper[|upper| - 2], sorted[0], lower[1], sorted, true, x, y, z);
  }

  /** The turn where the lower chain meets the upper one, at the greatest point, is strict. */
  lemma {:induction false} JoinHigh(sorted: seq<Vertex>, x: Vertex, y: Vertex, z: Vertex)
    requires LexSorted(sorted) && |sorted| >= 2
    requires x in sorted && y in sorted && z in sorted && Cross3(Pos(x), Pos(y), Pos(z)) > 0.0
    ensures var n, r := |sorted|, Reverse(sorted);
      var upper, lower := ChainOf(r, n), ChainOf(sorted, n);
      |upper| >= 2 && |lower| >= 2 && Cross3(Pos(lower[|lower| - 2]), Pos(upper[0]), Pos(upper[1])) > 0.0
  {
    var n, r := |sorted|, Reverse(sorted);
    var upper, lower := ChainOf(r, n), ChainOf(sorted, n);
    JoinNeighbours(sorted);
    JoinsApart(sorted, x, y, z);
    UpperSupport(sorted);
    LowerSupport(sorted);
    Extremes(sorted);
    JoinStrict(lower[|lower| - 2], sorted[n - 1], upper[1], sorted, false, x, y, z);
  }

  /** Joined strictly convex chains with strict joins turn strictly left at every vertex of the polygon. */
  lemma {:induction false} JoinedTurn(upper: seq<Vertex>, lower: seq<Vertex>, i: nat)
    requires Joined(upper, lower) && StrictlyConvex(upper) && StrictlyConvex(lower)
    requires Cross3(Pos(upper[|upper| - 2]), Pos(lower[0]), Pos(lower[1])) > 0.0
    requires Cross3(Pos(lower[|lower| - 2]), Pos(upper[0]), Pos(upper[1])) > 0.0
    requires i < |upper| + |lower| - 2
    ensures Turn(Pop(upper) + Pop(lower), i) > 0.0
  {
    var h := Pop(upper) + Pop(lower);
    var kind, j := HullTriple(upper, lower, i);
    if kind == 0 {
      assert ChainTurn(upper, j) > 0.0;
    } else if kind == 1 {
      assert ChainTurn(lower, j) > 0.0;
    }
    TurnAround(h, i);
  }

  lemma {:induction false} JoinedConvex(upper: seq<Vertex>, lower: seq<Vertex>)
    requires Joined(upper, lower) && StrictlyConvex(upper) && StrictlyConvex(lower)
    requires Cross3(Pos(upper[|upper| - 2]), Pos(lower[0]), Pos(lower[1])) > 0.0
    requires Cross3(Pos(lower[|lower| - 2]), Pos(upper[0]), Pos(upper[1])) > 0.0
    ensures forall i :: 0 <= i < |Pop(upper) + Pop(lower)| ==> Turn(Pop(upper) + Pop(lower), i) > 0.0
  {
    forall i | 0 <= i < |Pop(upper) + Pop(lower)|
      ensures Turn(Pop(upper) + Pop(lower), i) > 0.0
    {
      JoinedTurn(upper, lower, i);
    }
  }

  /** The two chains meet the conditions of `JoinedTurn` once the points make some turn. */
  lemma {:induction false} ConvexChains(sorted: seq<Vertex>, x: Vertex, y: Vertex, z: Vertex)
    requires LexSorted(sorted) && |sorted| >= 2
    requires x in sorted && y in sorted && z in sorted && Cross3(Pos(x), Pos(y), Pos(z)) > 0.0
    ensures var n, r := |sorted|, Reverse(sorted);
      var upper, lower := ChainOf(r, n), ChainOf(sorted, n);
      Joined(upper, lower) && StrictlyConvex(upper) && StrictlyConvex(lower) &&
      Cross3(Pos(upper[|upper| - 2]), Pos(lower[0]), Pos(lower[1])) > 0.0 &&
      Cross3(Pos(lower[|lower| - 2]), Pos(upper[0]), Pos(upper[1])) > 0.0
  {
    var n, r := |sorted|, Reverse(sorted);
    JoinLow(sorted, x, y, z);
    JoinHigh(sorted, x, y, z);
    ChainEnds(sorted, n);
    ChainEnds(r, n);
    ChainConvex(sorted, n);
    ChainConvex(r, n);
  }

  /** A hull of three or more points turns strictly left at every vertex, so `Vertices.isConvex` calls it convex. */
  lemma {:induction false} HullConvex(sorted: seq<Vertex>)
    requires LexSorted(sorted) && |HullOf(sorted)| >= 3
    ensures forall i :: 0 <= i < |HullOf(sorted)| ==> Turn(HullOf(sorted), i) > 0.0
  {
    var n, r := |sorted|, Reverse(sorted);
    var h := HullOf(sorted);
    if n < 2 {
      ShortHull(sorted);
    } else {
      var x, y, z := StrictWitness(sorted);
      WitnessConvex(sorted, x, y, z);
    }
  }

  /** Given three points that make a left turn, the hull turns strictly left everywhere. */
  lemma {:induction false} WitnessConvex(sorted: seq<Vertex>, x: Vertex, y: Vertex, z: Vertex)
    requires LexSorted(sorted) && |sorted| >= 2
    requires x in sorted && y in sorted && z in sorted && Cross3(Pos(x), Pos(y), Pos(z)) > 0.0
    ensures forall i :: 0 <= i < |HullOf(sorted)| ==> Turn(HullOf(sorted), i) > 0.0
  {
    var n, r := |sorted|, Reverse(sorted);
    ConvexChains(sorted, x, y, z);
    JoinedConvex(ChainOf(r, n), ChainOf(sorted, n));
  }

  /**
   * `Vertices.hull`: Andrew's monotone chain over the sorted copy; the upper
   * chain without its last point followed by the lower chain without its
   * last point. Every input point lies inside the result, and a result of
   * three or more points turns strictly left at each of them. The upper
   * part starts at the greatest point and the lower part at the least one.
   * A single point has an empty hull.
   */
  method Hull(vertices: seq<Vertex>) returns (hull: seq<Vertex>)
    ensures hull == HullOf(SortLex(vertices))
    ensures |vertices| <= 1 ==> hull == []
    ensures forall v :: v in hull ==> v in vertices
    ensures forall v :: v in vertices ==> Inside(hull, Pos(v))
    ensures |hull| >= 3 ==> forall i :: 0 <= i < |hull| ==> Turn(hull, i) > 0.0
    ensures |vertices| >= 2 ==>
      exists k :: SplitAt(hull, k, SortLex(vertices))
  {
    var sorted := SortLex(vertices);
    var lower := Chain(sorted);
    var upper := Chain(Reverse(sorted));
    hull := Pop(upper) + Pop(lower);
    HullShape(vertices);
    HullConvexity(vertices);
    var k := HullStarts(vertices);
  }

  /** The hull is empty for at most one point, holds only input points, and has every input point inside. */
  lemma {:induction false} HullShape(vertices: seq<Vertex>)
    ensures var h := HullOf(SortLex(vertices));
      (|vertices| <= 1 ==> h == []) &&
      (forall v :: v in h ==> v in vertices) &&
      (forall v :: v in vertices ==> Inside(h, Pos(v)))
  {
    if |vertices| <= 1 {
      ShortHull(SortLex(vertices));
    }
    HullMembers(vertices);
    HullInside(vertices);
  }

  /** The hull turns strictly left at each point once it has three. */
  lemma {:induction false} HullConvexity(vertices: seq<Vertex>)
    ensures var h := HullOf(SortLex(vertices));
      |h| >= 3 ==> forall i :: 0 <= i < |h| ==> Turn(h, i) > 0.0
  {
    SortLexSorted(vertices);
    if |HullOf(SortLex(vertices))| >= 3 {
      HullConvex(SortLex(vertices));
    }
  }

  /**
   * `h` is a strictly convex chain from the last point of `sorted` up to
   * index `k`, followed by a strictly convex chain from the first point of
   * `sorted`, which sits at index `k`.
   */
  predicate SplitAt(h: seq<Vertex>, k: int, sorted: seq<Vertex>)
  {
    0 < k < |h| && |sorted| > 0 && h[0] == sorted[|sorted| - 1] && h[k] == sorted[0] &&
    StrictlyConvex(h[..k]) && StrictlyConvex(h[k..])
  }

  /** The hull's upper part starts at the greatest point and its lower part, at `k`, at the least one. */
  lemma {:induction false} HullStarts(vertices: seq<Vertex>) returns (k: int)
    ensures var sorted := SortLex(vertices);
      |vertices| >= 2 ==> SplitAt(HullOf(sorted), k, sorted)
  {
    var sorted := SortLex(vertices);
    k := 0;
    if |vertices| >= 2 {
      k := HullParts(sorted);
    }
  }

  /** The hull holds only input points. */
  lemma {:induction false} HullMembers(vertices: seq<Vertex>)
    ensures forall v :: v in HullOf(SortLex(vertices)) ==> v in vertices
  {
    var sorted := SortLex(vertices);
    var n, r := |sorted|, Reverse(sorted);
    var upper, lower := ChainOf(r, n), ChainOf(sorted, n);
    ChainMembers(sorted, n);
    ChainMembers(r, n);
    assert sorted[..n] == sorted && r[..n] == r;
    var u, l := Pop(upper), Pop(lower);
    forall v | v in u + l
      ensures v in vertices
    {
      if v in u {
        PopMembers(upper, v);
        ReverseMembers(sorted, v);
      } else {
        PopMembers(lower, v);
      }
      assert v in multiset(sorted);
    }
  }

  /** Every input point is inside the hull. */
  lemma {:induction false} HullInside(vertices: seq<Vertex>)
    ensures forall v :: v in vertices ==> Inside(HullOf(SortLex(vertices)), Pos(v))
  {
    var sorted := SortLex(vertices);
    SortLexSorted(vertices);
    forall v | v in vertices
      ensures Inside(HullOf(sorted), Pos(v))
    {
      assert v in multiset(sorted);
      HullContains(sorted, v);
    }
  }

  /** The upper part runs from the greatest point and the lower part from the least, each turning strictly left. */
  lemma {:induction false} HullParts(sorted: seq<Vertex>) returns (k: int)
    requires |sorted| >= 2
    ensures SplitAt(HullOf(sorted), k, sorted)
  {
    var n, r := |sorted|, Reverse(sorted);
    var upper, lower := ChainOf(r, n), ChainOf(sorted, n);
    ChainEnds(sorted, n);
    ChainEnds(r, n);
    ChainConvex(sorted, n);
    ChainConvex(r, n);
    var u, l := Pop(upper), Pop(lower);
    var h := u + l;
    assert h[..|u|] == u && h[|u|..] == l;
    assert u == upper[..|upper| - 1] && l == lower[..|lower| - 1];
    ConvexPrefix(upper, |upper| - 1);
    ConvexPrefix(lower, |lower| - 1);
    k := |u|;
  }
}
