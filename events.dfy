/**
 * `Events`: the callback registry that `Events.on`, `Events.off` and
 * `Events.trigger` keep in an object's `events` field, a map from event
 * name to the list of callbacks registered under it. The field is absent
 * until the first registration or the first `off` without names.
 *
 * An argument holding several event names separates them by spaces, and
 * each piece of `split(" ")` is a name, the empty string included.
 */
module Events {
  import opened Wrappers
  import Strings

  /** A callback, known by its identity: `off` compares callbacks with `!==`. */
  type Callback = nat

  /** One invocation made by `trigger`: the callback, and the event name the event copy it receives carries. */
  datatype Call = Call(name: string, callback: Callback)

  /** The first argument of `off`: missing or empty, a string of names, or a callback given in its place. */
  datatype Selector = Missing | Names(text: string) | Handler(callback: Callback)

  type Registry = map<string, seq<Callback>>

  /** The callbacks under `name`; a name without an entry has none. */
  function Get(m: Registry, name: string): seq<Callback>
  {
    if name in m then m[name] else []
  }

  /** How often `name` occurs among the first `k` names. */
  function Count(names: seq<string>, name: string, k: nat): nat
    requires k <= |names|
  {
    if k == 0 then 0 else Count(names, name, k - 1) + if names[k - 1] == name then 1 else 0
  }

  function Repeat(cb: Callback, n: nat): seq<Callback>
  {
    if n == 0 then [] else Repeat(cb, n - 1) + [cb]
  }

  // ----------------------------------------------------------------- on

  /** The registry after the loop of `on` has pushed `cb` under the first `k` names. */
  function Registered(m: Registry, names: seq<string>, cb: Callback, k: nat): Registry
    requires k <= |names|
  {
    if k == 0 then m
    else
      var prev := Registered(m, names, cb, k - 1);
      prev[names[k - 1] := Get(prev, names[k - 1]) + [cb]]
  }

  /** The loop of `on`. */
  method Register(m: Registry, names: seq<string>, cb: Callback) returns (r: Registry)
    ensures r == Registered(m, names, cb, |names|)
  {
    r := m;
    for i := 0 to |names|
      invariant r == Registered(m, names, cb, i)
    {
      var name := names[i];
      var callbacks := if name in r then r[name] else [];
      r := r[name := callbacks + [cb]];
    }
  }

  /** `on` pushes the callback once for every occurrence of a name, after those already there. */
  lemma {:induction false} RegisteredGet(m: Registry, names: seq<string>, cb: Callback, k: nat, name: string)
    requires k <= |names|
    ensures Get(Registered(m, names, cb, k), name) == Get(m, name) + Repeat(cb, Count(names, name, k))
  {
    if k > 0 {
      var prev := Registered(m, names, cb, k - 1);
      var c := Count(names, name, k - 1);
      RegisteredGet(m, names, cb, k - 1, name);
      if names[k - 1] == name {
        assert Get(Registered(m, names, cb, k), name) == Get(prev, name) + [cb];
        assert Repeat(cb, c + 1) == Repeat(cb, c) + [cb];
      } else {
        assert Get(Registered(m, names, cb, k), name) == Get(prev, name);
      }
    }
  }

  /** `on` adds an entry for every name it is given and keeps all others. */
  lemma {:induction false} RegisteredKeys(m: Registry, names: seq<string>, cb: Callback, k: nat, name: string)
    requires k <= |names|
    ensures name in Registered(m, names, cb, k) <==> name in m || Count(names, name, k) > 0
  {
    if k > 0 {
      RegisteredKeys(m, names, cb, k - 1, name);
    }
  }

  // ---------------------------------------------------------------- off

  /** The inner loop of `off`: the callbacks other than `cb`, in order. */
  function Without(cbs: seq<Callback>, cb: Callback): seq<Callback>
  {
    if cbs == [] then []
    else Without(cbs[..|cbs| - 1], cb) + if cbs[|cbs| - 1] != cb then [cbs[|cbs| - 1]] else []
  }

  /**
   * The registry after the loop of `off` has visited the first `k` names:
   * each gets the list of its callbacks other than `callback`, or an empty
   * list when no callback is given or the name has no entry.
   */
  function Cleared(m: Registry, names: seq<string>, callback: Option<Callback>, k: nat): Registry
    requires k <= |names|
  {
    if k == 0 then m
    else
      var prev := Cleared(m, names, callback, k - 1);
      var name := names[k - 1];
      prev[name := if callback.Some? && name in prev then Without(prev[name], callback.value) else []]
  }

  /** `off` with a callback in place of the names: that callback leaves every list. */
  function Purged(m: Registry, cb: Callback): Registry
  {
    if m == map[] then map["" := []]
    else map name | name in m :: Without(m[name], cb)
  }

  /** The filtering loop of `off` over one list. */
  method Filter(callbacks: seq<Callback>, cb: Callback) returns (kept: seq<Callback>)
    ensures kept == Without(callbacks, cb)
  {
    kept := [];
    for j := 0 to |callbacks|
      invariant kept == Without(callbacks[..j], cb)
    {
      assert callbacks[..j + 1][..j] == callbacks[..j];
      if callbacks[j] != cb {
        kept := kept + [callbacks[j]];
      }
    }
    assert callbacks[..|callbacks|] == callbacks;
  }

  /** The loop of `off` over the names. */
  method Unregister(m: Registry, names: seq<string>, callback: Option<Callback>) returns (r: Registry)
    ensures r == Cleared(m, names, callback, |names|)
  {
    r := m;
    for i := 0 to |names|
      invariant r == Cleared(m, names, callback, i)
    {
      var name := names[i];
      var kept := [];
      if callback.Some? && name in r {
        kept := Filter(r[name], callback.value);
      }
      r := r[name := kept];
    }
  }

  /** `Common.keys`: the names that have an entry, each once, in some order. */
  method Keys(m: Registry) returns (keys: seq<string>)
    ensures forall name :: name in m <==> name in keys
    ensures forall i, j :: 0 <= i < j < |keys| ==> keys[i] != keys[j]
  {
    keys := [];
    var rest := m.Keys;
    while rest != {}
      invariant forall name :: name in m <==> name in keys || name in rest
      invariant forall i :: 0 <= i < |keys| ==> keys[i] !in rest
      invariant forall i, j :: 0 <= i < j < |keys| ==> keys[i] != keys[j]
      decreases rest
    {
      var name :| name in rest;
      keys := keys + [name];
      rest := rest - {name};
    }
  }

  /** Filtering keeps exactly the callbacks other than `cb`. */
  lemma {:induction false} WithoutExactly(cbs: seq<Callback>, cb: Callback)
    ensures forall x :: x in Without(cbs, cb) <==> x in cbs && x != cb
  {
    if cbs != [] {
      WithoutExactly(cbs[..|cbs| - 1], cb);
      assert cbs == cbs[..|cbs| - 1] + [cbs[|cbs| - 1]];
    }
  }

  lemma {:induction false} WithoutConcat(a: seq<Callback>, b: seq<Callback>, cb: Callback)
    ensures Without(a + b, cb) == Without(a, cb) + Without(b, cb)
  {
    if b == [] {
      assert a + b == a;
    } else {
      assert (a + b)[..|a + b| - 1] == a + b[..|b| - 1];
      WithoutConcat(a, b[..|b| - 1], cb);
    }
  }

  /** Filtering twice is filtering once. */
  lemma {:induction false} WithoutIdempotent(cbs: seq<Callback>, cb: Callback)
    ensures Without(Without(cbs, cb), cb) == Without(cbs, cb)
  {
    if cbs != [] {
      var init := cbs[..|cbs| - 1];
      var tail := if cbs[|cbs| - 1] != cb then [cbs[|cbs| - 1]] else [];
      WithoutIdempotent(init, cb);
      WithoutConcat(Without(init, cb), tail, cb);
      assert Without(tail, cb) == tail by {
        assert tail == [] || tail[..0] == [];
      }
    }
  }

  /** Filtering out `cb` drops every copy of it pushed at the end. */
  lemma {:induction false} WithoutRepeat(cbs: seq<Callback>, cb: Callback, n: nat)
    ensures Without(cbs + Repeat(cb, n), cb) == Without(cbs, cb)
  {
    if n > 0 {
      WithoutRepeat(cbs, cb, n - 1);
      var r := Repeat(cb, n - 1);
      assert cbs + Repeat(cb, n) == (cbs + r) + [cb];
      WithoutConcat(cbs + r, [cb], cb);
      assert Without([cb], cb) == [] by {
        assert [cb][..0] == [];
      }
    } else {
      assert cbs + Repeat(cb, n) == cbs;
    }
  }

  /**
   * What `off` leaves under a name: the name's callbacks other than
   * `callback` when it was visited and a callback was given, nothing when it
   * was visited without one, and its old list otherwise.
   */
  lemma {:induction false} ClearedGet(m: Registry, names: seq<string>, callback: Option<Callback>, k: nat, name: string)
    requires k <= |names|
    ensures Get(Cleared(m, names, callback, k), name) ==
      if Count(names, name, k) == 0 then Get(m, name)
      else if callback.Some? then Without(Get(m, name), callback.value)
      else []
  {
    if k > 0 {
      ClearedGet(m, names, callback, k - 1, name);
      if callback.Some? && names[k - 1] == name && Count(names, name, k - 1) > 0 {
        WithoutIdempotent(Get(m, name), callback.value);
      }
    }
  }

  /** `off` gives an entry to every name it visits and keeps all others. */
  lemma {:induction false} ClearedKeys(m: Registry, names: seq<string>, callback: Option<Callback>, k: nat, name: string)
    requires k <= |names|
    ensures name in Cleared(m, names, callback, k) <==> name in m || Count(names, name, k) > 0
  {
    if k > 0 {
      ClearedKeys(m, names, callback, k - 1, name);
    }
  }

  /** A name occurs among the first `k` names exactly when one of them is that name. */
  lemma {:induction false} CountIn(names: seq<string>, name: string, k: nat)
    requires k <= |names|
    ensures Count(names, name, k) > 0 <==> name in names[..k]
  {
    if k > 0 {
      CountIn(names, name, k - 1);
      assert names[..k] == names[..k - 1] + [names[k - 1]];
    }
  }

  /** Visiting every name of the registry once, with a callback, is `Purged`. */
  lemma {:induction false} ClearedEvery(m: Registry, keys: seq<string>, cb: Callback)
    requires m != map[] && forall name :: name in m <==> name in keys
    ensures Cleared(m, keys, Some(cb), |keys|) == Purged(m, cb)
  {
    var r := Cleared(m, keys, Some(cb), |keys|);
    assert keys[..|keys|] == keys;
    forall name ensures name in r <==> name in m {
      ClearedKeys(m, keys, Some(cb), |keys|, name);
      CountIn(keys, name, |keys|);
    }
    forall name | name in m ensures r[name] == Without(m[name], cb) {
      ClearedGet(m, keys, Some(cb), |keys|, name);
      CountIn(keys, name, |keys|);
    }
  }

  /** `off` with the callback and the names `on` was given undoes that `on`. */
  lemma {:induction false} OnThenOff(m: Registry, names: seq<string>, cb: Callback)
    ensures Cleared(Registered(m, names, cb, |names|), names, Some(cb), |names|) ==
            Cleared(m, names, Some(cb), |names|)
  {
    var n := |names|;
    var reg := Registered(m, names, cb, n);
    var a, b := Cleared(reg, names, Some(cb), n), Cleared(m, names, Some(cb), n);
    forall name ensures name in a <==> name in b {
      ClearedKeys(reg, names, Some(cb), n, name);
      ClearedKeys(m, names, Some(cb), n, name);
      RegisteredKeys(m, names, cb, n, name);
    }
    forall name | name in a ensures a[name] == b[name] {
      ClearedGet(reg, names, Some(cb), n, name);
      ClearedGet(m, names, Some(cb), n, name);
      RegisteredGet(m, names, cb, n, name);
      RegisteredKeys(m, names, cb, n, name);
      WithoutRepeat(Get(m, name), cb, Count(names, name, n));
      assert Get(a, name) == Get(b, name);
    }
  }

  // ------------------------------------------------------------ trigger

  /** The calls made for one name: its callbacks, in the order they were registered. */
  function CallsFor(name: string, cbs: seq<Callback>): (r: seq<Call>)
    ensures |r| == |cbs|
  {
    if cbs == [] then [] else CallsFor(name, cbs[..|cbs| - 1]) + [Call(name, cbs[|cbs| - 1])]
  }

  /** The calls `trigger` makes for the first `k` names. */
  function Calls(m: Registry, names: seq<string>, k: nat): seq<Call>
    requires k <= |names|
  {
    if k == 0 then []
    else Calls(m, names, k - 1) + if names[k - 1] in m then CallsFor(names[k - 1], m[names[k - 1]]) else []
  }

  /** The inner loop of `trigger`. */
  method Invoke(name: string, callbacks: seq<Callback>) returns (calls: seq<Call>)
    ensures calls == CallsFor(name, callbacks)
  {
    calls := [];
    for j := 0 to |callbacks|
      invariant calls == CallsFor(name, callbacks[..j])
    {
      assert callbacks[..j + 1][..j] == callbacks[..j];
      calls := calls + [Call(name, callbacks[j])];
    }
    assert callbacks[..|callbacks|] == callbacks;
  }

  /** The loop of `trigger` over the names. */
  method InvokeAll(m: Registry, names: seq<string>) returns (calls: seq<Call>)
    ensures calls == Calls(m, names, |names|)
  {
    calls := [];
    for i := 0 to |names|
      invariant calls == Calls(m, names, i)
    {
      var name := names[i];
      if name in m {
        var more := Invoke(name, m[name]);
        calls := calls + more;
      }
    }
  }

  lemma {:induction false} CallsForExactly(name: string, cbs: seq<Callback>, n: string, c: Callback)
    ensures Call(n, c) in CallsFor(name, cbs) <==> n == name && c in cbs
  {
    if cbs != [] {
      CallsForExactly(name, cbs[..|cbs| - 1], n, c);
      assert cbs == cbs[..|cbs| - 1] + [cbs[|cbs| - 1]];
    }
  }

  /** `trigger` calls a callback for a name exactly when the name was given and the callback is registered under it. */
  lemma {:induction false} CallsExactly(m: Registry, names: seq<string>, k: nat, n: string, c: Callback)
    requires k <= |names|
    ensures Call(n, c) in Calls(m, names, k) <==> Count(names, n, k) > 0 && c in Get(m, n)
  {
    if k > 0 {
      CallsExactly(m, names, k - 1, n, c);
      if names[k - 1] in m {
        CallsForExactly(names[k - 1], m[names[k - 1]], n, c);
      }
    }
  }

  /** A callback registered last under a name is called last when that name is triggered. */
  lemma {:induction false} TriggerAfterOn(m: Registry, name: string, cb: Callback)
    ensures Calls(Registered(m, [name], cb, 1), [name], 1) == Calls(m, [name], 1) + [Call(name, cb)]
  {
    assert Registered(m, [name], cb, 0) == m;
    var r := Registered(m, [name], cb, 1);
    assert r == m[name := Get(m, name) + [cb]];
    var cbs := r[name];
    assert cbs[..|cbs| - 1] == Get(m, name);
  }

  /** After `off` without names nothing is called. */
  lemma {:induction false} NothingLeft(names: seq<string>, k: nat)
    requires k <= |names|
    ensures Calls(map[], names, k) == []
  {
    if k > 0 {
      NothingLeft(names, k - 1);
    }
  }

  // ------------------------------------------------------------- object

  /** An object that carries `events`. */
  class Emitter {
    var events: Option<Registry>

    /** No registered name holds a space, since every name comes out of `split(" ")`. */
    predicate Valid()
      reads this
    {
      events.Some? ==> forall name :: name in events.value ==> ' ' !in name
    }

    constructor ()
      ensures events == None && Valid()
    {
      events := None;
    }

    /** `Events.on`: `callback` is pushed under each name, creating the field and the lists as needed. */
    method On(eventNames: string, callback: Callback) returns (r: Callback)
      requires Valid()
      modifies this
      ensures Valid() && r == callback
      ensures var names := Strings.Split(eventNames, ' ');
        events == Some(Registered(if old(events).Some? then old(events).value else map[], names, callback, |names|))
    {
      var names := Strings.Split(eventNames, ' ');
      var m := if events.Some? then events.value else map[];
      var n := Register(m, names, callback);
      forall name | name in n ensures ' ' !in name {
        RegisteredKeys(m, names, callback, |names|, name);
        EveryNameSplit(eventNames, name);
      }
      events := Some(n);
      r := callback;
    }

    /**
     * `Events.off`. Without names it empties the registry; with a callback
     * in place of the names it filters that callback out of every list;
     * with names it filters `callback` out of each named list, or empties the
     * list when no callback is given. With names or a callback it fails when
     * the object has no `events` field, since the source then dereferences
     * it; `ok` is false exactly then and nothing changes.
     */
    method Off(eventNames: Selector, callback: Option<Callback>) returns (ok: bool)
      requires Valid()
      modifies this
      ensures Valid()
      ensures ok <==> eventNames.Missing? || eventNames == Names("") || old(events).Some?
      ensures !ok ==> events == old(events)
      ensures eventNames.Missing? || eventNames == Names("") ==> events == Some(map[])
      ensures eventNames.Handler? && ok ==> events == Some(Purged(old(events).value, eventNames.callback))
      ensures eventNames.Names? && eventNames.text != "" && ok ==>
        var names := Strings.Split(eventNames.text, ' ');
        events == Some(Cleared(old(events).value, names, callback, |names|))
    {
      if eventNames.Missing? || eventNames == Names("") {
        events := Some(map[]);
        return true;
      }
      if events.None? {
        return false;
      }
      var m := events.value;
      var names, cb;
      if eventNames.Handler? {
        cb := Some(eventNames.callback);
        var keys := Keys(m);
        names := Strings.Split(Strings.Join(keys, ' '), ' ');
        if keys == [] {
          assert names == [""];
        } else {
          assert keys[0] in m;
          forall i | 0 <= i < |keys| ensures ' ' !in keys[i] {
            assert keys[i] in m;
          }
          Strings.SplitJoin(keys, ' ');
          ClearedEvery(m, keys, eventNames.callback);
        }
      } else {
        cb := callback;
        names := Strings.Split(eventNames.text, ' ');
      }
      var r := Unregister(m, names, cb);
      forall name | name in r ensures ' ' !in name {
        ClearedKeys(m, names, cb, |names|, name);
        if name !in m {
          CountIn(names, name, |names|);
          assert names[..|names|] == names;
          NameOfSplit(names, name, eventNames, m);
        }
      }
      events := Some(r);
      ok := true;
    }

    /** `Events.trigger`: nothing without the field; otherwise each name's callbacks in turn, in registration order. */
    method Trigger(eventNames: string) returns (calls: seq<Call>)
      ensures var names := Strings.Split(eventNames, ' ');
        calls == if events.None? then [] else Calls(events.value, names, |names|)
    {
      calls := [];
      if events.Some? {
        calls := InvokeAll(events.value, Strings.Split(eventNames, ' '));
      }
    }
  }

  /** A name `on` registers holds no space. */
  lemma {:induction false} EveryNameSplit(text: string, name: string)
    ensures var names := Strings.Split(text, ' ');
      Count(names, name, |names|) > 0 ==> ' ' !in name
  {
    var names := Strings.Split(text, ' ');
    CountIn(names, name, |names|);
    assert names[..|names|] == names;
    Strings.SplitParts(text, ' ');
  }

  /** A name `off` visits holds no space. */
  lemma {:induction false} NameOfSplit(names: seq<string>, name: string, sel: Selector, m: Registry)
    requires !sel.Missing?
    requires sel.Names? ==> names == Strings.Split(sel.text, ' ')
    requires sel.Handler? ==> names == [""] || forall i :: 0 <= i < |names| ==> names[i] in m
    requires forall key :: key in m ==> ' ' !in key
    requires name in names && name !in m
    ensures ' ' !in name
  {
    var i :| 0 <= i < |names| && names[i] == name;
    if sel.Names? {
      Strings.SplitParts(sel.text, ' ');
    }
  }
}
