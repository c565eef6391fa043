/**
 * `Detector`: the narrow phase's gatekeeping. For each broadphase pair of
 * bodies it skips pairs that cannot interact (both at rest, filtered out
 * by their collision filters, or with disjoint bounds), then tests each
 * pair of parts whose bounds overlap with the separating-axis test, reusing
 * the previous frame's collision of an active pair.
 *
 * A body's first part is the body itself; a compound body's other parts
 * are its convex pieces, and only those are tested. So the identity test
 * `partA === bodyA && partB === bodyB` of the source holds exactly when
 * both loops are at index 0, which only happens for two single-part bodies.
 */
module Detector {
  import opened Wrappers
  import opened Bounds
  import opened SAT
  import opened Ids
  import opened Pairs
  import opened Filtering

  // ---------------------------------------------------------------- gating

  /** What the detector reads of a body: its flags, filter, bounds and parts (the first being the body itself). */
  datatype Collider = Collider(
    id: nat, isStatic: bool, isSleeping: bool, filter: Filter, bounds: Bounds, parts: seq<Part>)

  /** The first part index a loop of `Detector.collisions` visits: a compound body skips itself. */
  function Start(b: Collider): nat
  {
    if |b.parts| > 1 then 1 else 0
  }

  predicate Resting(b: Collider)
  {
    b.isStatic || b.isSleeping
  }

  /** The three skip rules for a broadphase pair: both at rest, filtered out, or disjoint bounds. */
  predicate Gate(a: Collider, b: Collider)
  {
    !(Resting(a) && Resting(b)) && CanCollide(a.filter, b.filter) && Overlaps(a.bounds, b.bounds)
  }

  /** The test of two parts: the two bodies themselves, or parts whose bounds overlap. */
  predicate PartsMeet(a: Collider, b: Collider, j: nat, k: nat)
    requires j < |a.parts| && k < |b.parts|
  {
    (j == 0 && k == 0) || Overlaps(a.parts[j].bounds, b.parts[k].bounds)
  }

  /** The collision the pairs table remembers for two parts, when their pair is active. */
  function Previous(table: map<string, Pair>, a: Part, b: Part): Option<Collision>
  {
    var id := PairId(a.id, b.id);
    if id in table && table[id].isActive then Some(table[id].collision) else None
  }

  /** Part `j` of the first body and part `k` of the second of broadphase pair `p` get the separating-axis test. */
  predicate Candidate(ps: seq<(Collider, Collider)>, p: int, j: int, k: int)
  {
    0 <= p < |ps| && Gate(ps[p].0, ps[p].1) &&
    Start(ps[p].0) <= j < |ps[p].0.parts| && Start(ps[p].1) <= k < |ps[p].1.parts| &&
    PartsMeet(ps[p].0, ps[p].1, j, k)
  }

  /**
   * A narrow-phase test of two parts given the remembered collision.
   * `Collisions` uses `SAT.Collides`; the loops and their properties hold
   * for any test.
   */
  type Narrow = (Part, Part, Option<Collision>) --> Collision

  /** Every part pair the detector tests is one the test accepts, with its remembered collision. */
  ghost predicate Testable(ps: seq<(Collider, Collider)>, table: map<string, Pair>, test: Narrow)
  {
    forall p, j, k :: Candidate(ps, p, j, k) ==>
      test.requires(ps[p].0.parts[j], ps[p].1.parts[k], Previous(table, ps[p].0.parts[j], ps[p].1.parts[k]))
  }

  /** The test of a candidate. */
  function Test(ps: seq<(Collider, Collider)>, table: map<string, Pair>, test: Narrow, p: nat, j: nat, k: nat): Collision
    requires Testable(ps, table, test) && Candidate(ps, p, j, k)
  {
    var a, b := ps[p].0.parts[j], ps[p].1.parts[k];
    test(a, b, Previous(table, a, b))
  }

  /** Candidate `(p, j, k)` is tested and reports collision `c`. */
  ghost predicate Reports(ps: seq<(Collider, Collider)>, table: map<string, Pair>, test: Narrow,
                          p: int, j: int, k: int, c: Collision)
  {
    Candidate(ps, p, j, k) && Testable(ps, table, test) &&
    Test(ps, table, test, p, j, k).collided && Test(ps, table, test, p, j, k) == c
  }

  /** What the innermost loop reports for candidate `(p, j, k)`: its collision if the parts meet and it collided. */
  function Hit(ps: seq<(Collider, Collider)>, table: map<string, Pair>, test: Narrow, p: nat, j: nat, k: nat)
    : seq<Collision>
    requires Testable(ps, table, test) && p < |ps| && Gate(ps[p].0, ps[p].1)
    requires Start(ps[p].0) <= j < |ps[p].0.parts| && Start(ps[p].1) <= k < |ps[p].1.parts|
  {
    if PartsMeet(ps[p].0, ps[p].1, j, k) && Test(ps, table, test, p, j, k).collided
    then [Test(ps, table, test, p, j, k)]
    else []
  }

  /** The collisions found by the innermost loop for part `j` of pair `p`, over parts `Start .. n` of the second body. */
  function RowFound(ps: seq<(Collider, Collider)>, table: map<string, Pair>, test: Narrow, p: nat, j: nat, n: nat)
    : seq<Collision>
    requires Testable(ps, table, test) && p < |ps| && Gate(ps[p].0, ps[p].1)
    requires Start(ps[p].0) <= j < |ps[p].0.parts| && n <= |ps[p].1.parts|
  {
    if n <= Start(ps[p].1) then [] else RowFound(ps, table, test, p, j, n - 1) + Hit(ps, table, test, p, j, n - 1)
  }

  /** The collisions found for pair `p` over parts `Start .. m` of the first body. */
  function BodyFound(ps: seq<(Collider, Collider)>, table: map<string, Pair>, test: Narrow, p: nat, m: nat)
    : seq<Collision>
    requires Testable(ps, table, test) && p < |ps| && Gate(ps[p].0, ps[p].1) && m <= |ps[p].0.parts|
  {
    if m <= Start(ps[p].0) then []
    else BodyFound(ps, table, test, p, m - 1) + RowFound(ps, table, test, p, m - 1, |ps[p].1.parts|)
  }

  /** The collisions the detector reports for the first `n` broadphase pairs. */
  function Found(ps: seq<(Collider, Collider)>, table: map<string, Pair>, test: Narrow, n: nat): seq<Collision>
    requires Testable(ps, table, test) && n <= |ps|
  {
    if n == 0 then []
    else
      Found(ps, table, test, n - 1) +
      (if Gate(ps[n - 1].0, ps[n - 1].1) then BodyFound(ps, table, test, n - 1, |ps[n - 1].0.parts|) else [])
  }

  /** `Detector.collisions`: the collisions `SAT.collides` finds among the broadphase pairs, in the order the loops meet them. */
  method Collisions(broadphasePairs: seq<(Collider, Collider)>, pairsTable: map<string, Pair>)
    returns (collisions: seq<Collision>)
    requires Testable(broadphasePairs, pairsTable, Collides)
    ensures collisions == Found(broadphasePairs, pairsTable, Collides, |broadphasePairs|)
  {
    collisions := Detect(broadphasePairs, pairsTable, Collides);
  }

  /** The loops of `Detector.collisions`, for a given narrow-phase test. */
  method Detect(broadphasePairs: seq<(Collider, Collider)>, pairsTable: map<string, Pair>, test: Narrow)
    returns (collisions: seq<Collision>)
    requires Testable(broadphasePairs, pairsTable, test)
    ensures collisions == Found(broadphasePairs, pairsTable, test, |broadphasePairs|)
  {
    collisions := [];
    for i := 0 to |broadphasePairs|
      invariant collisions == Found(broadphasePairs, pairsTable, test, i)
    {
      var bodyA, bodyB := broadphasePairs[i].0, broadphasePairs[i].1;
      if (bodyA.isStatic || bodyA.isSleeping) && (bodyB.isStatic || bodyB.isSleeping) {
        continue;
      }
      if !CanCollide(bodyA.filter, bodyB.filter) {
        continue;
      }
      if Overlaps(bodyA.bounds, bodyB.bounds) {
        var found := BodyCollisions(broadphasePairs, pairsTable, test, i);
        collisions := collisions + found;
      }
    }
  }

  /** The two inner loops of `Detector.collisions`, for broadphase pair `i` once it has passed the skip rules. */
  method BodyCollisions(broadphasePairs: seq<(Collider, Collider)>, pairsTable: map<string, Pair>, test: Narrow, i: nat)
    returns (collisions: seq<Collision>)
    requires Testable(broadphasePairs, pairsTable, test) && i < |broadphasePairs|
    requires Gate(broadphasePairs[i].0, broadphasePairs[i].1)
    ensures collisions == BodyFound(broadphasePairs, pairsTable, test, i, |broadphasePairs[i].0.parts|)
  {
    var bodyA := broadphasePairs[i].0;
    collisions := [];
    var j := if |bodyA.parts| > 1 then 1 else 0;
    while j < |bodyA.parts|
      invariant Start(bodyA) <= j <= |bodyA.parts|
      invariant collisions == BodyFound(broadphasePairs, pairsTable, test, i, j)
    {
      var found := PartCollisions(broadphasePairs, pairsTable, test, i, j);
      collisions := collisions + found;
      j := j + 1;
    }
  }

  /** The innermost loop of `Detector.collisions`: part `j` of the first body against the parts of the second. */
  method PartCollisions(broadphasePairs: seq<(Collider, Collider)>, pairsTable: map<string, Pair>, test: Narrow,
                        i: nat, j: nat)
    returns (collisions: seq<Collision>)
    requires Testable(broadphasePairs, pairsTable, test) && i < |broadphasePairs|
    requires Gate(broadphasePairs[i].0, broadphasePairs[i].1)
    requires Start(broadphasePairs[i].0) <= j < |broadphasePairs[i].0.parts|
    ensures collisions == RowFound(broadphasePairs, pairsTable, test, i, j, |broadphasePairs[i].1.parts|)
  {
    var bodyB := broadphasePairs[i].1;
    var partA := broadphasePairs[i].0.parts[j];
    collisions := [];
    var k := if |bodyB.parts| > 1 then 1 else 0;
    while k < |bodyB.parts|
      invariant Start(bodyB) <= k <= |bodyB.parts|
      invariant collisions == RowFound(broadphasePairs, pairsTable, test, i, j, k)
    {
      var partB := bodyB.parts[k];
      if (j == 0 && k == 0) || Overlaps(partA.bounds, partB.bounds) {
        var pairId := PairId(partA.id, partB.id);
        var previousCollision: Option<Collision> := None;
        if pairId in pairsTable && pairsTable[pairId].isActive {
          previousCollision := Some(pairsTable[pairId].collision);
        }
        assert Candidate(broadphasePairs, i, j, k);
        var collision := test(partA, partB, previousCollision);
        if collision.collided {
          collisions := collisions + [collision];
        }
      }
      k := k + 1;
    }
  }

  // ------------------------------------------------------------ properties

  /** A candidate's hit is its collision exactly when it reports one. */
  lemma {:induction false} HitMembers(ps: seq<(Collider, Collider)>, table: map<string, Pair>, test: Narrow, p: nat, j: nat, k: nat,
                   c: Collision)
    requires Testable(ps, table, test) && p < |ps| && Gate(ps[p].0, ps[p].1)
    requires Start(ps[p].0) <= j < |ps[p].0.parts| && Start(ps[p].1) <= k < |ps[p].1.parts|
    ensures c in Hit(ps, table, test, p, j, k) <==> Reports(ps, table, test, p, j, k, c)
  {
  }

  /** A row reports exactly the collided tests of its candidates. */
  lemma {:induction false} RowMembers(ps: seq<(Collider, Collider)>, table: map<string, Pair>, test: Narrow,
                                       p: nat, j: nat, n: nat, c: Collision)
    requires Testable(ps, table, test) && p < |ps| && Gate(ps[p].0, ps[p].1)
    requires Start(ps[p].0) <= j < |ps[p].0.parts| && n <= |ps[p].1.parts|
    ensures c in RowFound(ps, table, test, p, j, n) <==> exists k :: k < n && Reports(ps, table, test, p, j, k, c)
  {
    if n > Start(ps[p].1) {
      RowMembers(ps, table, test, p, j, n - 1, c);
      HitMembers(ps, table, test, p, j, n - 1, c);
      assert c in RowFound(ps, table, test, p, j, n) <==>
        c in RowFound(ps, table, test, p, j, n - 1) || c in Hit(ps, table, test, p, j, n - 1);
      if c in Hit(ps, table, test, p, j, n - 1) {
        assert Reports(ps, table, test, p, j, n - 1, c);
      }
      if exists k :: k < n && Reports(ps, table, test, p, j, k, c) {
        var k :| k < n && Reports(ps, table, test, p, j, k, c);
        if k < n - 1 {
          assert c in RowFound(ps, table, test, p, j, n - 1);
        }
      }
    } else {
      assert forall k :: k < n ==> !Candidate(ps, p, j, k);
    }
  }

  /** Everything a body pair reports comes from one of its candidates. */
  lemma {:induction false} BodySound(ps: seq<(Collider, Collider)>, table: map<string, Pair>, test: Narrow,
                                      p: nat, m: nat, c: Collision)
    requires Testable(ps, table, test) && p < |ps| && Gate(ps[p].0, ps[p].1) && m <= |ps[p].0.parts|
    requires c in BodyFound(ps, table, test, p, m)
    ensures exists j, k :: j < m && Reports(ps, table, test, p, j, k, c)
  {
    var n := |ps[p].1.parts|;
    if c in BodyFound(ps, table, test, p, m - 1) {
      BodySound(ps, table, test, p, m - 1, c);
      var j, k :| j < m - 1 && Reports(ps, table, test, p, j, k, c);
      assert j < m;
    } else {
      RowMembers(ps, table, test, p, m - 1, n, c);
      var k :| k < n && Reports(ps, table, test, p, m - 1, k, c);
      assert m - 1 < m;
    }
  }

  /** Every collided test of a body pair's candidates is reported. */
  lemma {:induction false} BodyComplete(ps: seq<(Collider, Collider)>, table: map<string, Pair>, test: Narrow,
                                         p: nat, m: nat, j: nat, k: nat, c: Collision)
    requires Testable(ps, table, test) && p < |ps| && Gate(ps[p].0, ps[p].1) && m <= |ps[p].0.parts|
    requires j < m && Reports(ps, table, test, p, j, k, c)
    ensures c in BodyFound(ps, table, test, p, m)
  {
    var n := |ps[p].1.parts|;
    if j == m - 1 {
      RowMembers(ps, table, test, p, m - 1, n, c);
      assert k < n;
    } else {
      BodyComplete(ps, table, test, p, m - 1, j, k, c);
    }
  }

  /** A body pair reports exactly the collided tests of its candidates. */
  lemma {:induction false} BodyMembers(ps: seq<(Collider, Collider)>, table: map<string, Pair>, test: Narrow,
                    p: nat, m: nat, c: Collision)
    requires Testable(ps, table, test) && p < |ps| && Gate(ps[p].0, ps[p].1) && m <= |ps[p].0.parts|
    ensures c in BodyFound(ps, table, test, p, m) <==> exists j, k :: j < m && Reports(ps, table, test, p, j, k, c)
  {
    if c in BodyFound(ps, table, test, p, m) {
      BodySound(ps, table, test, p, m, c);
    }
    if exists j, k :: j < m && Reports(ps, table, test, p, j, k, c) {
      var j, k :| j < m && Reports(ps, table, test, p, j, k, c);
      BodyComplete(ps, table, test, p, m, j, k, c);
    }
  }

  /**
   * Soundness and completeness of the detector: a collision is reported
   * exactly when it is the collided result of the test of a candidate — a
   * part pair of a broadphase pair that passes the three skip rules, whose
   * parts meet.
   */
  lemma {:induction false} FoundMembers(ps: seq<(Collider, Collider)>, table: map<string, Pair>, test: Narrow,
                                         n: nat, c: Collision)
    requires Testable(ps, table, test) && n <= |ps|
    ensures c in Found(ps, table, test, n) <==> exists p, j, k :: p < n && Reports(ps, table, test, p, j, k, c)
  {
    if n > 0 {
      FoundMembers(ps, table, test, n - 1, c);
      var q := n - 1;
      if Gate(ps[q].0, ps[q].1) {
        BodyMembers(ps, table, test, q, |ps[q].0.parts|, c);
      }
      if exists p, j, k :: p < n && Reports(ps, table, test, p, j, k, c) {
        var p, j, k :| p < n && Reports(ps, table, test, p, j, k, c);
        if p == q {
          assert c in BodyFound(ps, table, test, q, |ps[q].0.parts|);
        } else {
          assert c in Found(ps, table, test, q);
        }
      }
    }
  }

  /**
   * With `SAT.collides` as the test, every reported collision has collided
   * and has the shape the separating-axis test promises for its two parts.
   */
  lemma {:induction false} FoundShape(ps: seq<(Collider, Collider)>, table: map<string, Pair>, c: Collision)
    requires Testable(ps, table, Collides)
    requires c in Found(ps, table, Collides, |ps|)
    ensures c.collided
    ensures exists p, j, k :: Candidate(ps, p, j, k) && WellShaped(ps[p].0.parts[j], ps[p].1.parts[k], c)
  {
    FoundMembers(ps, table, Collides, |ps|, c);
    var p, j, k :| p < |ps| && Reports(ps, table, Collides, p, j, k, c);
    var a, b := ps[p].0.parts[j], ps[p].1.parts[k];
    CollidesShape(a, b, Previous(table, a, b));
  }

  /** The skip rules do not depend on the order of the two bodies. */
  lemma {:induction false} GateSymmetric(a: Collider, b: Collider)
    ensures Gate(a, b) == Gate(b, a)
  {
    CanCollideSymmetric(a.filter, b.filter);
    OverlapsSymmetric(a.bounds, b.bounds);
  }

  /** A broadphase pair that two resting bodies or their filters rule out contributes no test at all. */
  lemma {:induction false} SkippedPairs(ps: seq<(Collider, Collider)>, p: nat)
    requires p < |ps|
    requires (Resting(ps[p].0) && Resting(ps[p].1)) || !CanCollide(ps[p].0.filter, ps[p].1.filter)
    ensures forall j, k :: !Candidate(ps, p, j, k)
  {
  }
}
