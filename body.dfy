/**
 * `Body`: the state of a rigid body that the discrete bookkeeping reads and
 * writes, and `Body.setStatic`, which turns every part of a body static or
 * back.
 *
 * A body is an object. Its first part is the body itself; a compound body
 * lists its convex pieces after it. The seven mass properties that
 * `setStatic` saves and restores (`restitution`, `friction`, `mass`,
 * `inertia`, `density`, `inverseMass`, `inverseInertia`) are one record,
 * `Material`, and `_original` is an optional such record.
 */
module Body {
  import opened Vector
  import opened Wrappers

  /** A mass property that `setStatic` may set to `Infinity`. */
  datatype Ext = Finite(value: real) | Infinity

  datatype Material = Material(
    restitution: real, friction: real, mass: Ext, inertia: Ext, density: Ext,
    inverseMass: real, inverseInertia: real)

  /** What every part becomes when it is made static. */
  const StaticMaterial := Material(0.0, 1.0, Infinity, Infinity, Infinity, 0.0, 0.0)

  /** The fields of a body object other than its id and its list of parts. */
  datatype State = State(
    isStatic: bool, isSleeping: bool, material: Material, original: Option<Material>,
    position: Vec, positionPrev: Vec, angle: real, anglePrev: real,
    angularVelocity: real, speed: real, angularSpeed: real, motion: real,
    force: Vec, positionImpulse: Vec, sleepCounter: int, sleepThreshold: int)

  /**
   * One iteration of the loop of `Body.setStatic`: making a part static
   * saves its material in `_original`, sets the static material and stops
   * all motion; making it non-static restores a saved material and drops it.
   */
  function Statics(s: State, isStatic: bool): State
  {
    var t := s.(isStatic := isStatic);
    if isStatic then
      t.(original := Some(s.material), material := StaticMaterial,
         positionPrev := s.position, anglePrev := s.angle,
         angularVelocity := 0.0, speed := 0.0, angularSpeed := 0.0, motion := 0.0)
    else if s.original.Some? then
      t.(material := s.original.value, original := None)
    else t
  }

  class Body {
    const id: nat
    /** Every field of the body object but its parts. */
    var state: State
    var parts: seq<Body>

    /** The body is its own first part, and no part is listed twice. */
    predicate Valid()
      reads this
    {
      |parts| >= 1 && parts[0] == this &&
      forall i, j :: 0 <= i < j < |parts| ==> parts[i] != parts[j]
    }

    /** `Body.create` with a single part: the body itself, at rest, with the default sleep threshold. */
    constructor (id: nat, position: Vec, angle: real, material: Material)
      ensures Valid() && this.id == id && parts == [this]
      ensures state == State(false, false, material, None, position, position, angle, angle,
                             0.0, 0.0, 0.0, 0.0, Zero, Zero, 0, 60)
    {
      this.id := id;
      state := State(false, false, material, None, position, position, angle, angle,
                     0.0, 0.0, 0.0, 0.0, Zero, Zero, 0, 60);
      parts := [this];
    }

    /** The body of the loop of `Body.setStatic`, applied to this part. */
    method UpdateStatic(isStatic: bool)
      modifies this`state
      ensures state == Statics(old(state), isStatic)
    {
      var s := state;
      state := state.(isStatic := isStatic);
      if isStatic {
        state := state.(original := Some(s.material), material := StaticMaterial,
                        positionPrev := s.position, anglePrev := s.angle);
        state := state.(angularVelocity := 0.0, speed := 0.0, angularSpeed := 0.0, motion := 0.0);
      } else if s.original.Some? {
        state := state.(material := s.original.value, original := None);
      }
    }

    /** `Body.setStatic`: every part, the body first, made static or non-static. */
    method SetStatic(isStatic: bool)
      requires Valid()
      modifies parts`state
      ensures forall k :: 0 <= k < |parts| ==> parts[k].state == Statics(old(parts[k].state), isStatic)
    {
      var ps := parts;
      for i := 0 to |ps|
        invariant forall k :: 0 <= k < i ==> ps[k].state == Statics(old(ps[k].state), isStatic)
        invariant forall k :: i <= k < |ps| ==> ps[k].state == old(ps[k].state)
      {
        ps[i].UpdateStatic(isStatic);
      }
    }
  }

  /**
   * Making a part static and then non-static gives back its material and
   * drops the saved copy; only the motion the static step stopped is lost.
   */
  lemma {:induction false} StaticRoundTrip(s: State)
    ensures var t := Statics(Statics(s, true), false);
      !t.isStatic && t.material == s.material && t.original == None &&
      t.position == s.position && t.angle == s.angle && t.isSleeping == s.isSleeping &&
      t.sleepCounter == s.sleepCounter && t.force == s.force
  {
  }

  /** A static part has the infinite static material and no motion left. */
  lemma {:induction false} StaticIsAtRest(s: State)
    ensures var t := Statics(s, true);
      t.isStatic && t.material == StaticMaterial && t.material.inverseMass == 0.0 &&
      t.positionPrev == t.position && t.anglePrev == t.angle &&
      t.speed == 0.0 && t.angularSpeed == 0.0 && t.angularVelocity == 0.0 && t.motion == 0.0
  {
  }

  /**
   * Making a part static twice overwrites the saved material with the
   * static one, so making it non-static afterwards restores the static
   * material rather than the one it had before.
   */
  lemma {:induction false} StaticTwiceSavesStatic(s: State)
    ensures Statics(Statics(s, true), true).original == Some(StaticMaterial)
    ensures Statics(Statics(Statics(s, true), true), false).material == StaticMaterial
  {
  }

  /** Making a part non-static is idempotent, and changes only the flag of a part that has no saved material. */
  lemma {:induction false} NonStaticIdempotent(s: State)
    ensures Statics(Statics(s, false), false) == Statics(s, false)
    ensures s.original.None? ==> Statics(s, false) == s.(isStatic := false)
  {
  }
}
