/**
 * `Common`: the small numeric and list helpers the engine shares, and the
 * seeded pseudo-random generator.
 */
module Common {
  import opened Wrappers

  /** `Common.clamp`: below `min` gives `min`, above `max` gives `max`, anything else is returned. */
  function Clamp(value: real, min: real, max: real): (r: real)
    ensures min <= max ==> min <= r <= max
    ensures min <= value <= max ==> r == value
    ensures r == value || r == min || r == max
  {
    if value < min then min else if value > max then max else value
  }

  /** Clamping twice with the same limits is clamping once, and clamping never moves a value away from the range. */
  lemma {:induction false} ClampIdempotent(value: real, min: real, max: real)
    requires min <= max
    ensures Clamp(Clamp(value, min, max), min, max) == Clamp(value, min, max)
    ensures value < min ==> Clamp(value, min, max) == min
    ensures value > max ==> Clamp(value, min, max) == max
  {
  }

  /** `Common.sign`: -1 for a negative value and 1 otherwise, zero included. */
  function Sign(value: real): (r: int)
    ensures r == -1 || r == 1
    ensures r == -1 <==> value < 0.0
    ensures r as real * value >= 0.0
  {
    if value < 0.0 then -1 else 1
  }

  /** The first index at which `needle` occurs in `haystack`, or -1 when it does not occur. */
  function Position<T(==)>(haystack: seq<T>, needle: T): (r: int)
    ensures -1 <= r < |haystack|
    ensures r == -1 <==> needle !in haystack
    ensures r >= 0 ==> haystack[r] == needle && needle !in haystack[..r]
  {
    if haystack == [] then -1
    else if haystack[0] == needle then 0
    else
      var r := Position(haystack[1..], needle);
      assert haystack[1..][..if r < 0 then 0 else r] == haystack[1..1 + if r < 0 then 0 else r];
      if r < 0 then -1 else r + 1
  }

  /** `Common.indexOf`: the search loop the source falls back on, which agrees with `Array.prototype.indexOf`. */
  method IndexOf<T(==)>(haystack: seq<T>, needle: T) returns (r: int)
    ensures r == Position(haystack, needle)
  {
    for i := 0 to |haystack|
      invariant needle !in haystack[..i]
    {
      if haystack[i] == needle {
        assert haystack[..i + 1] == haystack[..i] + [needle];
        return i;
      }
    }
    assert haystack[..|haystack|] == haystack;
    return -1;
  }

  // ------------------------------------------------------------ random

  const Multiplier: int := 9301
  const Increment: int := 49297
  const Modulus: int := 233280

  /**
   * The remainder of JavaScript's `%` by a positive modulus: it takes the
   * sign of the dividend, where Dafny's `%` is never negative.
   */
  function JsRem(a: int, m: int): (r: int)
    requires m > 0
    ensures a >= 0 ==> 0 <= r < m
    ensures a < 0 ==> -m < r <= 0
  {
    if a >= 0 || a % m == 0 then a % m else a % m - m
  }

  /** The next seed of `_seededRandom`. */
  function NextSeed(seed: int): int
  {
    JsRem(seed * Multiplier + Increment, Modulus)
  }

  /** `Common._seed` and the generator `_seededRandom` that advances it. */
  class Seeded {
    var seed: int

    /** The seed starts at 0. */
    constructor ()
      ensures seed == 0
    {
      seed := 0;
    }

    /** `_seededRandom`: advance the seed and scale it into a fraction. */
    method Next() returns (r: real)
      modifies this
      ensures seed == NextSeed(old(seed))
      ensures r == seed as real / Modulus as real
    {
      var next := seed * Multiplier + Increment;
      seed := next % Modulus;
      if next < 0 && seed != 0 {
        seed := seed - Modulus;
      }
      r := seed as real / Modulus as real;
    }

    /** `Common.random`: a value between `min` and `max`, drawn from the next seed. */
    method Random(min: real, max: real) returns (r: real)
      modifies this
      ensures seed == NextSeed(old(seed))
      ensures r == min + seed as real / Modulus as real * (max - min)
    {
      var f := Next();
      r := min + f * (max - min);
    }

    /** `Common.random` called with arguments left out: `min` defaults to 0 and `max` to 1. */
    method RandomOr(min: Option<real>, max: Option<real>) returns (r: real)
      modifies this
      ensures seed == NextSeed(old(seed))
      ensures var lo, hi := (if min.Some? then min.value else 0.0), (if max.Some? then max.value else 1.0);
        r == lo + seed as real / Modulus as real * (hi - lo)
    {
      var lo := if min.Some? then min.value else 0.0;
      var hi := if max.Some? then max.value else 1.0;
      r := Random(lo, hi);
    }
  }

  /** From a non-negative seed, every seed is an integer below the modulus and every fraction lies in [0, 1). */
  lemma {:induction false} SeedInRange(seed: int)
    requires seed >= 0
    ensures 0 <= NextSeed(seed) < Modulus
    ensures 0.0 <= NextSeed(seed) as real / Modulus as real < 1.0
  {
  }

  /** A drawn value lies in [min, max) whenever the seed is non-negative and min < max. */
  lemma {:induction false} RandomInRange(seed: int, min: real, max: real)
    requires seed >= 0 && min < max
    ensures var f := NextSeed(seed) as real / Modulus as real;
      min <= min + f * (max - min) < max
  {
    var f := NextSeed(seed) as real / Modulus as real;
    SeedInRange(seed);
    assert f * (max - min) < max - min by {
      assert (1.0 - f) * (max - min) > 0.0;
    }
  }

  /** The generator started from 0 gives 49297, then 165494, the start of its sequence. */
  lemma {:induction false} FirstSeeds()
    ensures NextSeed(0) == 49297
    ensures NextSeed(NextSeed(0)) == 165494
  {
  }

  // ------------------------------------------------------- topological sort

  /**
   * A graph object: its keys in the order a `for ... in` loop visits them,
   * and each key's list of neighbours. JavaScript visits integer-like keys
   * first, in ascending order, and the other keys in insertion order; the
   * model takes whatever order `nodes` gives.
   */
  datatype Graph = Graph(nodes: seq<string>, neighbors: map<string, seq<string>>)

  /** The keys are listed once each, and they are the keys of the neighbour map. */
  predicate WellFormed(g: Graph)
  {
    (forall i, j :: 0 <= i < j < |g.nodes| ==> g.nodes[i] != g.nodes[j]) &&
    g.neighbors.Keys == set n | n in g.nodes
  }

  /** `graph[node] || []`. */
  function Neighbors(g: Graph, node: string): seq<string>
  {
    if node in g.neighbors then g.neighbors[node] else []
  }

  /** Every name the graph mentions, as a key or as a neighbour. */
  function Names(g: Graph): set<string>
  {
    (set n | n in g.nodes) + (set n, y | n in g.neighbors && y in g.neighbors[n] :: y)
  }

  predicate Distinct(s: seq<string>)
  {
    forall i, j :: 0 <= i < j < |s| ==> s[i] != s[j]
  }

  /** A walk along the edges of the graph. */
  ghost predicate Path(g: Graph, p: seq<string>)
  {
    |p| >= 1 && forall i :: 0 <= i < |p| - 1 ==> p[i + 1] in Neighbors(g, p[i])
  }

  /** There is a walk from `a` to `b`. */
  ghost predicate Reaches(g: Graph, a: string, b: string)
  {
    exists p :: Path(g, p) && p[0] == a && p[|p| - 1] == b
  }

  /** No walk of at least one edge comes back to where it started. */
  ghost predicate Acyclic(g: Graph)
  {
    forall p :: Path(g, p) && |p| > 1 ==> p[0] != p[|p| - 1]
  }

  /**
   * Every neighbour of a listed node is listed before it, unless it can
   * reach that node, so that the edge to it closes a cycle.
   */
  ghost predicate Ordered(g: Graph, r: seq<string>)
  {
    forall i, y :: 0 <= i < |r| && y in Neighbors(g, r[i]) ==> y in r[..i] || Reaches(g, y, r[i])
  }

  /** The neighbours of every listed node are listed or on the stack. */
  predicate Closed(g: Graph, r: seq<string>, temp: set<string>)
  {
    forall i, y :: 0 <= i < |r| && y in Neighbors(g, r[i]) ==> y in r || y in temp
  }

  /**
   * `Common.topologicalSort`: a depth-first search from every key in turn
   * that lists each node after its neighbours; an edge back to a node still
   * on the stack is skipped.
   */
  method TopologicalSort(g: Graph) returns (result: seq<string>)
    requires WellFormed(g)
    ensures Distinct(result)
    ensures forall n :: n in g.nodes ==> n in result
    ensures forall n :: n in result ==> n in Names(g)
    ensures Closed(g, result, {})
    ensures Ordered(g, result)
  {
    var visited: set<string> := {};
    result := [];
    for k := 0 to |g.nodes|
      invariant visited == set n | n in result
      invariant Distinct(result) && Closed(g, result, {}) && Ordered(g, result)
      invariant forall n :: n in result ==> n in Names(g)
      invariant forall j :: 0 <= j < k ==> g.nodes[j] in visited
    {
      var node := g.nodes[k];
      if node !in visited {
        visited, result := Visit(g, node, visited, {}, result, []);
      }
    }
  }

  /** `Common._topologicalSort`: visit `node` and every unvisited node it reaches, then list `node`. */
  method Visit(g: Graph, node: string, visited: set<string>, temp: set<string>, result: seq<string>, ghost path: seq<string>)
    returns (visited': set<string>, result': seq<string>)
    requires node in Names(g) && node !in visited && node !in temp
    requires visited == set n | n in result
    requires temp == set n | n in path
    requires temp !! visited
    requires temp <= Names(g) && forall n :: n in result ==> n in Names(g)
    requires Path(g, path + [node])
    requires Distinct(result) && Closed(g, result, temp) && Ordered(g, result)
    ensures visited' == set n | n in result'
    ensures node in visited' && visited <= visited' && temp !! visited'
    ensures |result| <= |result'| && result'[..|result|] == result
    ensures forall n :: n in result' ==> n in Names(g)
    ensures Distinct(result') && Closed(g, result', temp) && Ordered(g, result')
    decreases Names(g) - visited - temp
  {
    var neighbors := Neighbors(g, node);
    var temp' := temp + {node};
    visited', result' := visited, result;
    for i := 0 to |neighbors|
      invariant visited' == set n | n in result'
      invariant visited <= visited' && temp' !! visited'
      invariant |result| <= |result'| && result'[..|result|] == result
      invariant forall n :: n in result' ==> n in Names(g)
      invariant Distinct(result') && Closed(g, result', temp') && Ordered(g, result')
      invariant forall j :: 0 <= j < i ==> neighbors[j] in visited' || neighbors[j] in temp'
    {
      var neighbor := neighbors[i];
      if neighbor in temp' {
        continue;
      }
      if neighbor !in visited' {
        NeighborNamed(g, node, i);
        visited', result' := Visit(g, neighbor, visited', temp', result', path + [node]);
      }
    }
    FinishOrdered(g, node, result', temp', path);
    visited' := visited' + {node};
    result' := result' + [node];
  }

  /** Neighbours are names of the graph. */
  lemma {:induction false} NeighborNamed(g: Graph, node: string, i: nat)
    requires i < |Neighbors(g, node)|
    ensures Neighbors(g, node)[i] in Names(g)
  {
    if node in g.neighbors {
      assert g.neighbors[node][i] in g.neighbors[node];
    }
  }

  /** Appending a finished node keeps the list ordered: each of its neighbours is listed already or on the stack. */
  lemma {:induction false} FinishOrdered(g: Graph, node: string, r: seq<string>, temp: set<string>, path: seq<string>)
    requires Ordered(g, r) && Path(g, path + [node]) && temp == (set n | n in path) + {node}
    requires forall y :: y in Neighbors(g, node) ==> y in r || y in temp
    ensures Ordered(g, r + [node])
  {
    var r' := r + [node];
    forall i, y | 0 <= i < |r'| && y in Neighbors(g, r'[i])
      ensures y in r'[..i] || Reaches(g, y, r'[i])
    {
      if i < |r| {
        assert r'[..i] == r[..i];
      } else if y in r {
        assert r'[..i] == r;
      } else {
        var p := path + [node];
        assert y in p;
        var k :| 0 <= k < |p| && p[k] == y;
        var q := p[k..];
        assert q[0] == y && q[|q| - 1] == node;
        assert Path(g, q) by {
          forall j | 0 <= j < |q| - 1 ensures q[j + 1] in Neighbors(g, q[j]) {
            assert q[j] == p[k + j] && q[j + 1] == p[k + j + 1];
          }
        }
      }
    }
  }

  /** In an acyclic graph, the sorted list puts every neighbour before the nodes that point to it. */
  lemma {:induction false} AcyclicSorted(g: Graph, r: seq<string>)
    requires Acyclic(g) && Ordered(g, r)
    ensures forall i, y :: 0 <= i < |r| && y in Neighbors(g, r[i]) ==> y in r[..i]
  {
    forall i, y | 0 <= i < |r| && y in Neighbors(g, r[i])
      ensures y in r[..i]
    {
      if y !in r[..i] {
        var p :| Path(g, p) && p[0] == y && p[|p| - 1] == r[i];
        var c := p + [y];
        assert Path(g, c) by {
          forall j | 0 <= j < |c| - 1 ensures c[j + 1] in Neighbors(g, c[j]) {
            if j < |p| - 1 {
              assert c[j] == p[j] && c[j + 1] == p[j + 1];
            }
          }
        }
      }
    }
  }
}
