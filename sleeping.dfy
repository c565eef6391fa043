/**
 * `Sleeping`: bodies whose motion stays small for long enough are put to
 * sleep, and sleeping bodies are woken by a force or by a moving body that
 * touches them.
 *
 * The per-body rules are functions on `Body.State`; `update` and
 * `afterCollisions` walk their lists in order, so each is specified by a
 * fold over a map from body objects to their states, in which a body listed
 * twice is stepped twice, exactly as the loops do. The `sleepStart` and
 * `sleepEnd` events the source triggers are returned as notices.
 */
module Sleeping {
  import opened Vector
  import opened Wrappers
  import opened Body

  const MotionWakeThreshold: real := 0.18
  const MotionSleepThreshold: real := 0.08
  const MinBias: real := 0.9

  datatype SleepEvent = SleepStart | SleepEnd

  /** One `Events.trigger(body, name)` call. */
  datatype Notice = Notice(body: Body, event: SleepEvent)

  /** A body's new state and the event its change triggers, if any. */
  datatype Outcome = Outcome(state: State, event: Option<SleepEvent>)

  /** The states of bodies, and the notices triggered so far. */
  datatype World = World(states: map<Body, State>, notices: seq<Notice>)

  /**
   * `Sleeping.set`: going to sleep stops the body where it is and fills its
   * counter; waking clears the counter. An event is triggered only when the
   * flag actually changes.
   */
  function Sleep(s: State, isSleeping: bool): Outcome
  {
    if isSleeping then
      Outcome(
        s.(isSleeping := true, sleepCounter := s.sleepThreshold, positionImpulse := Zero,
           positionPrev := s.position, anglePrev := s.angle, speed := 0.0, angularSpeed := 0.0, motion := 0.0),
        if s.isSleeping then None else Some(SleepStart))
    else
      Outcome(s.(isSleeping := false, sleepCounter := 0), if s.isSleeping then Some(SleepEnd) else None)
  }

  function Min(a: real, b: real): real
  {
    if a < b then a else b
  }

  function Max(a: real, b: real): real
  {
    if a > b then a else b
  }

  /** The motion of this step, before smoothing. */
  function Motion(s: State): real
  {
    s.speed * s.speed + s.angularSpeed * s.angularSpeed
  }

  /** The new motion: biased towards the smaller of the old motion and this step's. */
  function Smoothed(s: State): real
  {
    MinBias * Min(s.motion, Motion(s)) + (1.0 - MinBias) * Max(s.motion, Motion(s))
  }

  /**
   * One iteration of the loop of `Sleeping.update`: a pushed body is woken;
   * otherwise a quiet body counts up towards its threshold, and falls asleep
   * once it reaches it, while a moving body counts down.
   */
  function Step(s: State, timeFactor: real): Outcome
  {
    if s.force != Zero then Sleep(s, false)
    else
      var t := s.(motion := Smoothed(s));
      if t.sleepThreshold > 0 && t.motion < MotionSleepThreshold * timeFactor then
        var u := t.(sleepCounter := t.sleepCounter + 1);
        if u.sleepCounter >= u.sleepThreshold then Sleep(u, true) else Outcome(u, None)
      else if t.sleepCounter > 0 then Outcome(t.(sleepCounter := t.sleepCounter - 1), None)
      else Outcome(t, None)
  }

  /** The world after an outcome for body `b`. */
  function Apply(w: World, b: Body, o: Outcome): World
  {
    World(w.states[b := o.state], if o.event.Some? then w.notices + [Notice(b, o.event.value)] else w.notices)
  }

  /** The world after the first `n` iterations of `Sleeping.update`. */
  function Updated(bodies: seq<Body>, w: World, timeFactor: real, n: nat): World
    requires n <= |bodies|
    requires forall i :: 0 <= i < |bodies| ==> bodies[i] in w.states
    ensures Updated(bodies, w, timeFactor, n).states.Keys == w.states.Keys
  {
    if n == 0 then w
    else
      var v := Updated(bodies, w, timeFactor, n - 1);
      Apply(v, bodies[n - 1], Step(v.states[bodies[n - 1]], timeFactor))
  }

  /** The current states of some bodies. */
  function States(bodies: set<Body>): map<Body, State>
    reads bodies
  {
    map b | b in bodies :: b.state
  }

  /** The pair fields `Sleeping.afterCollisions` reads: whether it is active and its two parent bodies. */
  datatype Touching = Touching(isActive: bool, parentA: Body, parentB: Body)

  /**
   * One iteration of the loop of `Sleeping.afterCollisions`: of an active
   * pair with exactly one sleeping body and no static one, the sleeping body
   * is woken when the other moves faster than the wake threshold.
   */
  function Wake(w: World, t: Touching, timeFactor: real): World
    requires t.parentA in w.states && t.parentB in w.states
  {
    var a := w.states[t.parentA];
    var b := w.states[t.parentB];
    if !t.isActive then w
    else if (a.isSleeping && b.isSleeping) || a.isStatic || b.isStatic then w
    else if a.isSleeping || b.isSleeping then
      var sleeping := if a.isSleeping && !a.isStatic then t.parentA else t.parentB;
      var moving := if sleeping == t.parentA then t.parentB else t.parentA;
      if !w.states[sleeping].isStatic && w.states[moving].motion > MotionWakeThreshold * timeFactor then
        Apply(w, sleeping, Sleep(w.states[sleeping], false))
      else w
    else w
  }

  /** Every parent body of the pairs. */
  function Parents(pairs: seq<Touching>): set<Body>
  {
    (set i | 0 <= i < |pairs| :: pairs[i].parentA) + (set i | 0 <= i < |pairs| :: pairs[i].parentB)
  }

  /** The world after the first `n` iterations of `Sleeping.afterCollisions`. */
  function Woken(pairs: seq<Touching>, w: World, timeFactor: real, n: nat): World
    requires n <= |pairs|
    requires forall i :: 0 <= i < |pairs| ==> pairs[i].parentA in w.states && pairs[i].parentB in w.states
    ensures Woken(pairs, w, timeFactor, n).states.Keys == w.states.Keys
  {
    if n == 0 then w else Wake(Woken(pairs, w, timeFactor, n - 1), pairs[n - 1], timeFactor)
  }

  /** `Sleeping.set` on a body object. */
  method Set(body: Body, isSleeping: bool) returns (event: Option<SleepEvent>)
    modifies body`state
    ensures body.state == Sleep(old(body.state), isSleeping).state
    ensures event == Sleep(old(body.state), isSleeping).event
  {
    var wasSleeping := body.state.isSleeping;
    if isSleeping {
      body.state := body.state.(isSleeping := true, sleepCounter := body.state.sleepThreshold, positionImpulse := Zero);
      body.state := body.state.(positionPrev := body.state.position, anglePrev := body.state.angle);
      body.state := body.state.(speed := 0.0, angularSpeed := 0.0, motion := 0.0);
      event := if !wasSleeping then Some(SleepStart) else None;
    } else {
      body.state := body.state.(isSleeping := false, sleepCounter := 0);
      event := if wasSleeping then Some(SleepEnd) else None;
    }
  }

  /** One iteration of the loop of `Sleeping.update` on a body object. */
  method StepBody(body: Body, timeFactor: real) returns (event: Option<SleepEvent>)
    modifies body`state
    ensures body.state == Step(old(body.state), timeFactor).state
    ensures event == Step(old(body.state), timeFactor).event
  {
    var motion := body.state.speed * body.state.speed + body.state.angularSpeed * body.state.angularSpeed;
    if body.state.force.x != 0.0 || body.state.force.y != 0.0 {
      event := Set(body, false);
      return;
    }
    var minMotion := Min(body.state.motion, motion);
    var maxMotion := Max(body.state.motion, motion);
    body.state := body.state.(motion := MinBias * minMotion + (1.0 - MinBias) * maxMotion);
    event := None;
    if body.state.sleepThreshold > 0 && body.state.motion < MotionSleepThreshold * timeFactor {
      body.state := body.state.(sleepCounter := body.state.sleepCounter + 1);
      if body.state.sleepCounter >= body.state.sleepThreshold {
        event := Set(body, true);
      }
    } else if body.state.sleepCounter > 0 {
      body.state := body.state.(sleepCounter := body.state.sleepCounter - 1);
    }
  }

  /** `Sleeping.update`: every body in turn, and the notices triggered on the way. */
  method Update(bodies: seq<Body>, timeScale: real) returns (notices: seq<Notice>)
    modifies bodies`state
    ensures var w := Updated(bodies, World(old(States(set b | b in bodies)), []), timeScale * timeScale * timeScale, |bodies|);
      notices == w.notices && forall b :: b in bodies ==> b.state == w.states[b]
  {
    var timeFactor := timeScale * timeScale * timeScale;
    ghost var w0 := World(States(set b | b in bodies), []);
    notices := [];
    for i := 0 to |bodies|
      invariant notices == Updated(bodies, w0, timeFactor, i).notices
      invariant forall b :: b in bodies ==> b.state == Updated(bodies, w0, timeFactor, i).states[b]
    {
      var body := bodies[i];
      var event := StepBody(body, timeFactor);
      if event.Some? {
        notices := notices + [Notice(body, event.value)];
      }
    }
  }

  /**
   * One iteration of the loop of `Sleeping.afterCollisions` on the pair's
   * two body objects, whose states `w` holds.
   */
  method WakePair(pair: Touching, timeFactor: real, ghost w: World) returns (notices: seq<Notice>)
    requires pair.parentA in w.states && pair.parentB in w.states
    requires w.states[pair.parentA] == pair.parentA.state && w.states[pair.parentB] == pair.parentB.state
    modifies pair.parentA`state, pair.parentB`state
    ensures Wake(w, pair, timeFactor).states == w.states[pair.parentA := pair.parentA.state][pair.parentB := pair.parentB.state]
    ensures Wake(w, pair, timeFactor).notices == w.notices + notices
  {
    notices := [];
    if !pair.isActive {
      return;
    }
    var bodyA, bodyB := pair.parentA, pair.parentB;
    if (bodyA.state.isSleeping && bodyB.state.isSleeping) || bodyA.state.isStatic || bodyB.state.isStatic {
      return;
    }
    if bodyA.state.isSleeping || bodyB.state.isSleeping {
      var sleepingBody := if bodyA.state.isSleeping && !bodyA.state.isStatic then bodyA else bodyB;
      var movingBody := if sleepingBody == bodyA then bodyB else bodyA;
      if !sleepingBody.state.isStatic && movingBody.state.motion > MotionWakeThreshold * timeFactor {
        var event := Set(sleepingBody, false);
        if event.Some? {
          notices := [Notice(sleepingBody, event.value)];
        }
      }
    }
  }

  /** `Sleeping.afterCollisions`: every pair in turn, and the notices triggered on the way. */
  method AfterCollisions(pairs: seq<Touching>, timeScale: real) returns (notices: seq<Notice>)
    modifies Parents(pairs)`state
    ensures var w := Woken(pairs, World(old(States(Parents(pairs))), []), timeScale * timeScale * timeScale, |pairs|);
      notices == w.notices && forall b :: b in Parents(pairs) ==> b.state == w.states[b]
  {
    var timeFactor := timeScale * timeScale * timeScale;
    ghost var bodies := Parents(pairs);
    ghost var w0 := World(States(bodies), []);
    ghost var states: map<Body, State> := w0.states;
    notices := [];
    for i := 0 to |pairs|
      invariant Woken(pairs, w0, timeFactor, i) == World(states, notices)
      invariant forall b :: b in bodies ==> b in states && b.state == states[b]
    {
      var pair := pairs[i];
      var more := WakePair(pair, timeFactor, World(states, notices));
      notices := notices + more;
      states := states[pair.parentA := pair.parentA.state][pair.parentB := pair.parentB.state];
    }
  }

  // ---------------------------------------------------------------- properties

  /** `set` changes the flag to the value asked for, and triggers an event exactly when the flag changes. */
  lemma {:induction false} SleepEvents(s: State, isSleeping: bool)
    ensures Sleep(s, isSleeping).state.isSleeping == isSleeping
    ensures Sleep(s, isSleeping).event.Some? <==> s.isSleeping != isSleeping
    ensures Sleep(s, isSleeping).event == Some(SleepStart) <==> isSleeping && !s.isSleeping
    ensures Sleep(s, isSleeping).event == Some(SleepEnd) <==> !isSleeping && s.isSleeping
  {
  }

  /** Setting the same flag again changes nothing and triggers nothing. */
  lemma {:induction false} SleepIdempotent(s: State, isSleeping: bool)
    ensures var t := Sleep(s, isSleeping).state; Sleep(t, isSleeping) == Outcome(t, None)
  {
  }

  /** A sleeping body is at rest where it stands, with its counter full. */
  lemma {:induction false} AsleepAtRest(s: State)
    ensures var t := Sleep(s, true).state;
      t.speed == 0.0 && t.angularSpeed == 0.0 && t.motion == 0.0 && t.positionImpulse == Zero &&
      t.positionPrev == t.position && t.anglePrev == t.angle && t.sleepCounter == t.sleepThreshold &&
      t.position == s.position && t.isStatic == s.isStatic && t.material == s.material
  {
  }

  /** The smoothed motion lies between the old motion and this step's, and is never negative when the old one was not. */
  lemma {:induction false} SmoothedBetween(s: State)
    ensures Motion(s) >= 0.0
    ensures Min(s.motion, Motion(s)) <= Smoothed(s) <= Max(s.motion, Motion(s))
    ensures s.motion >= 0.0 ==> Smoothed(s) >= 0.0
  {
    assert s.speed * s.speed >= 0.0 && s.angularSpeed * s.angularSpeed >= 0.0;
  }

  /** A body a force acts on is awake after the step, with an empty counter and its motion untouched. */
  lemma {:induction false} ForceWakes(s: State, timeFactor: real)
    requires s.force != Zero
    ensures var t := Step(s, timeFactor).state; !t.isSleeping && t.sleepCounter == 0 && t.motion == s.motion
    ensures Step(s, timeFactor).event == (if s.isSleeping then Some(SleepEnd) else None)
  {
  }

  /** The counter of a body stays between zero and its threshold, which the step does not change. */
  lemma {:induction false} CounterInRange(s: State, timeFactor: real)
    requires 0 <= s.sleepCounter <= s.sleepThreshold
    ensures var t := Step(s, timeFactor).state;
      t.sleepThreshold == s.sleepThreshold && 0 <= t.sleepCounter <= t.sleepThreshold
  {
  }

  /** A step never puts to sleep a body whose counter does not reach its threshold. */
  lemma {:induction false} StepSleepsOnlyAtThreshold(s: State, timeFactor: real)
    requires !s.isSleeping
    ensures Step(s, timeFactor).state.isSleeping ==>
      s.force == Zero && s.sleepThreshold > 0 && s.sleepCounter + 1 >= s.sleepThreshold &&
      Step(s, timeFactor).event == Some(SleepStart)
  {
  }

  /**
   * A force-free body whose smoothed motion is not below the sleep threshold
   * (or whose threshold is not positive) stays as it was apart from its new
   * motion, triggers nothing, and has its counter lowered by one while it is
   * positive.
   */
  lemma {:induction false} MovingCountsDown(s: State, timeFactor: real)
    requires s.force == Zero
    requires !(s.sleepThreshold > 0 && Smoothed(s) < MotionSleepThreshold * timeFactor)
    ensures Step(s, timeFactor).event == None
    ensures Step(s, timeFactor).state ==
      s.(motion := Smoothed(s), sleepCounter := if s.sleepCounter > 0 then s.sleepCounter - 1 else s.sleepCounter)
  {
  }

  /** The state after `n` calls of `Sleeping.update` on one body with the same time factor. */
  function Steps(s: State, timeFactor: real, n: nat): State
  {
    if n == 0 then s else Step(Steps(s, timeFactor, n - 1), timeFactor).state
  }

  /** A still body, free of force, whose counter has not reached its threshold. */
  predicate Still(s: State)
  {
    s.force == Zero && s.speed == 0.0 && s.angularSpeed == 0.0 && s.motion == 0.0 && !s.isSleeping &&
    0 <= s.sleepCounter < s.sleepThreshold
  }

  /** A still body counts up by one per step while it stays below its threshold. */
  lemma {:induction false} StillCounts(s: State, timeFactor: real, k: nat)
    requires Still(s) && timeFactor > 0.0 && s.sleepCounter + k < s.sleepThreshold
    ensures Steps(s, timeFactor, k) == s.(sleepCounter := s.sleepCounter + k)
  {
    if k > 0 {
      StillCounts(s, timeFactor, k - 1);
      var t := s.(sleepCounter := s.sleepCounter + k - 1);
      assert Smoothed(t) == 0.0;
    }
  }

  /**
   * A still body falls asleep after exactly as many steps as its counter
   * lacks to reach its threshold, triggering `sleepStart` on that step and
   * not before.
   */
  lemma {:induction false} FallsAsleep(s: State, timeFactor: real)
    requires Still(s) && timeFactor > 0.0
    ensures var n := s.sleepThreshold - s.sleepCounter;
      Steps(s, timeFactor, n).isSleeping && Steps(s, timeFactor, n).sleepCounter == s.sleepThreshold &&
      Step(Steps(s, timeFactor, n - 1), timeFactor).event == Some(SleepStart) &&
      !Steps(s, timeFactor, n - 1).isSleeping
  {
    var n := s.sleepThreshold - s.sleepCounter;
    StillCounts(s, timeFactor, n - 1);
    var t := s.(sleepCounter := s.sleepCounter + n - 1);
    assert Smoothed(t) == 0.0;
  }

  /** A body put to sleep with no force on it stays asleep, unchanged, and triggers nothing more. */
  lemma {:induction false} StaysAsleep(r: State, timeFactor: real)
    requires r.force == Zero && r.sleepThreshold > 0 && timeFactor > 0.0
    ensures var s := Sleep(r, true).state; Step(s, timeFactor) == Outcome(s, None)
  {
    var s := Sleep(r, true).state;
    assert Smoothed(s) == 0.0;
  }

  /** Every body of `bodies` is stepped; a body not among the first `n` is untouched. */
  lemma {:induction false} UpdatedUntouched(bodies: seq<Body>, w: World, timeFactor: real, n: nat, b: Body)
    requires n <= |bodies|
    requires forall i :: 0 <= i < |bodies| ==> bodies[i] in w.states
    requires b in w.states && b !in bodies[..n]
    ensures Updated(bodies, w, timeFactor, n).states[b] == w.states[b]
  {
    if n > 0 {
      assert bodies[..n - 1] <= bodies[..n];
      UpdatedUntouched(bodies, w, timeFactor, n - 1, b);
    }
  }

  /** When no body is listed twice, `Sleeping.update` applies one step to each. */
  lemma {:induction false} UpdatedDistinct(bodies: seq<Body>, w: World, timeFactor: real, n: nat, k: nat)
    requires n <= |bodies| && k < n
    requires forall i :: 0 <= i < |bodies| ==> bodies[i] in w.states
    requires forall i, j :: 0 <= i < j < |bodies| ==> bodies[i] != bodies[j]
    ensures Updated(bodies, w, timeFactor, n).states[bodies[k]] == Step(w.states[bodies[k]], timeFactor).state
  {
    if k == n - 1 {
      assert bodies[k] !in bodies[..k];
      UpdatedUntouched(bodies, w, timeFactor, k, bodies[k]);
    } else {
      UpdatedDistinct(bodies, w, timeFactor, n - 1, k);
    }
  }

  /**
   * `Sleeping.afterCollisions` only ever wakes: every body either keeps its
   * state or was asleep, not static, and is now awake with an empty counter.
   */
  lemma {:induction false} WokenOnlyWakes(pairs: seq<Touching>, w: World, timeFactor: real, n: nat, b: Body)
    requires n <= |pairs|
    requires forall i :: 0 <= i < |pairs| ==> pairs[i].parentA in w.states && pairs[i].parentB in w.states
    requires b in w.states
    ensures var r, s := Woken(pairs, w, timeFactor, n).states[b], w.states[b];
      r == s || (s.isSleeping && !s.isStatic && r == s.(isSleeping := false, sleepCounter := 0))
  {
    if n > 0 {
      WokenOnlyWakes(pairs, w, timeFactor, n - 1, b);
    }
  }

  /** Every notice `Sleeping.afterCollisions` adds is a `sleepEnd`. */
  lemma {:induction false} WokenNoticesEnd(pairs: seq<Touching>, w: World, timeFactor: real, n: nat)
    requires n <= |pairs|
    requires forall i :: 0 <= i < |pairs| ==> pairs[i].parentA in w.states && pairs[i].parentB in w.states
    ensures var r := Woken(pairs, w, timeFactor, n).notices;
      |w.notices| <= |r| && r[..|w.notices|] == w.notices &&
      forall k :: |w.notices| <= k < |r| ==> r[k].event == SleepEnd
  {
    if n > 0 {
      WokenNoticesEnd(pairs, w, timeFactor, n - 1);
    }
  }
}
