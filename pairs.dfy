/**
 * `Contact`, `Pair` and `Pairs`: the persistent record of which parts
 * touch, frame after frame.
 *
 * A pair's contacts are kept in a dictionary keyed by
 * "<body id>_<vertex index>", so the impulses accumulated on a contact
 * survive from one frame to the next; `activeContacts` lists this frame's
 * contacts, here by their keys into that dictionary. The pairs table is a
 * dictionary from pair id to pair, `list` holds the same pairs in insertion
 * order, and the three event lists name the pairs that started, continued
 * and ended touching in the last update.
 */
module Pairs {
  import opened Vector
  import opened Wrappers
  import opened Vertices
  import opened Ids
  import opened SAT

  // ---------------------------------------------------------------- contact

  datatype Contact = Contact(id: string, vertex: Vertex, normalImpulse: real, tangentImpulse: real)

  /** `Contact.id`. */
  function ContactKey(v: Vertex): string
  {
    ContactId(v.bodyId, v.index)
  }

  /** `Contact.create`: a contact at the vertex with no impulse yet. */
  function CreateContact(v: Vertex): (c: Contact)
    ensures c.id == ContactKey(v) && c.vertex == v
    ensures c.normalImpulse == 0.0 && c.tangentImpulse == 0.0
  {
    Contact(ContactKey(v), v, 0.0, 0.0)
  }

  // ------------------------------------------------------------------- pair

  datatype Pair = Pair(
    id: string, bodyA: Part, bodyB: Part,
    contacts: map<string, Contact>, activeContacts: seq<string>,
    separation: real, isActive: bool, isSensor: bool,
    timeCreated: real, timeUpdated: real,
    inverseMass: real, friction: real, frictionStatic: real, restitution: real, slop: real,
    collision: Collision)

  function MinR(a: real, b: real): real
  {
    if a < b then a else b
  }

  function MaxR(a: real, b: real): real
  {
    if a > b then a else b
  }

  /** The contact dictionary after the first `n` supports: a support whose key is absent gets a fresh contact. */
  function ContactsAfter(contacts: map<string, Contact>, supports: seq<Vertex>, n: nat): map<string, Contact>
    requires n <= |supports|
  {
    if n == 0 then contacts
    else
      var c := ContactsAfter(contacts, supports, n - 1);
      var key := ContactKey(supports[n - 1]);
      if key in c then c else c[key := CreateContact(supports[n - 1])]
  }

  function ContactKeys(supports: seq<Vertex>): (r: seq<string>)
    ensures |r| == |supports| && forall i :: 0 <= i < |supports| ==> r[i] == ContactKey(supports[i])
  {
    seq(|supports|, i requires 0 <= i < |supports| => ContactKey(supports[i]))
  }

  /** The combined material of the two parents of a collision. */
  function WithMaterial(pair: Pair, c: Collision): Pair
  {
    var parentA, parentB := c.bodyA.parent, c.bodyB.parent;
    pair.(collision := c,
          inverseMass := parentA.inverseMass + parentB.inverseMass,
          friction := MinR(parentA.friction, parentB.friction),
          frictionStatic := MaxR(parentA.frictionStatic, parentB.frictionStatic),
          restitution := MaxR(parentA.restitution, parentB.restitution),
          slop := MaxR(parentA.slop, parentB.slop))
  }

  /** `Pair.setActive`: activating stamps the time, deactivating empties the active contacts. */
  function SetActive(pair: Pair, isActive: bool, timestamp: real): Pair
  {
    if isActive then pair.(isActive := true, timeUpdated := timestamp)
    else pair.(isActive := false, activeContacts := [])
  }

  /** What `Pair.update` leaves behind. */
  function UpdatedPair(pair: Pair, c: Collision, timestamp: real): Pair
  {
    var base := WithMaterial(pair, c).(activeContacts := []);
    if c.collided then
      SetActive(base.(contacts := ContactsAfter(pair.contacts, c.supports, |c.supports|),
                      activeContacts := ContactKeys(c.supports),
                      separation := c.depth), true, timestamp)
    else if pair.isActive then SetActive(base, false, timestamp)
    else base
  }

  /** `Pair.update`: material from the parents, then this frame's contacts or deactivation. */
  method UpdatePair(pair: Pair, collision: Collision, timestamp: real) returns (p: Pair)
    ensures p == UpdatedPair(pair, collision, timestamp)
  {
    p := WithMaterial(pair, collision);
    if collision.collided {
      var contacts, activeContacts := RecordContacts(pair.contacts, collision.supports);
      p := p.(contacts := contacts, activeContacts := activeContacts, separation := collision.depth);
      p := SetActive(p, true, timestamp);
    } else {
      p := p.(activeContacts := []);
      if pair.isActive {
        p := SetActive(p, false, timestamp);
      }
    }
  }

  /** The loop of `Pair.update` over the supports: each gets a contact if it has none, and is listed as active. */
  method RecordContacts(pairContacts: map<string, Contact>, supports: seq<Vertex>)
    returns (contacts: map<string, Contact>, activeContacts: seq<string>)
    ensures contacts == ContactsAfter(pairContacts, supports, |supports|)
    ensures activeContacts == ContactKeys(supports)
  {
    contacts, activeContacts := pairContacts, [];
    for i := 0 to |supports|
      invariant contacts == ContactsAfter(pairContacts, supports, i)
      invariant |activeContacts| == i && forall j :: 0 <= j < i ==> activeContacts[j] == ContactKey(supports[j])
    {
      ContactsAfterNext(pairContacts, supports, i);
      var support := supports[i];
      var contactId := ContactKey(support);
      if contactId !in contacts {
        contacts := contacts[contactId := CreateContact(support)];
      }
      activeContacts := activeContacts + [contactId];
    }
  }

  /** One more support: its key gets a fresh contact unless it has one. */
  lemma {:induction false} ContactsAfterNext(contacts: map<string, Contact>, supports: seq<Vertex>, i: nat)
    requires i < |supports|
    ensures var c, key := ContactsAfter(contacts, supports, i), ContactKey(supports[i]);
      ContactsAfter(contacts, supports, i + 1) == if key in c then c else c[key := CreateContact(supports[i])]
  {
  }

  lemma {:induction false} ContactsAfterFacts(contacts: map<string, Contact>, supports: seq<Vertex>, n: nat)
    requires n <= |supports|
    ensures var r := ContactsAfter(contacts, supports, n);
      (forall i :: 0 <= i < n ==> ContactKey(supports[i]) in r) &&
      (forall k :: k in contacts ==> k in r && r[k] == contacts[k]) &&
      (forall k :: k in r && k !in contacts ==>
        exists i :: 0 <= i < n && ContactKey(supports[i]) == k && r[k] == CreateContact(supports[i]))
  {
    ContactsAfterCovers(contacts, supports, n);
    ContactsAfterKeeps(contacts, supports, n);
    ContactsAfterNew(contacts, supports, n);
  }

  /** Every support visited has a contact. */
  lemma {:induction false} ContactsAfterCovers(contacts: map<string, Contact>, supports: seq<Vertex>, n: nat)
    requires n <= |supports|
    ensures forall i :: 0 <= i < n ==> ContactKey(supports[i]) in ContactsAfter(contacts, supports, n)
  {
    if n > 0 {
      ContactsAfterCovers(contacts, supports, n - 1);
      ContactsAfterNext(contacts, supports, n - 1);
    }
  }

  /** The contacts already there are kept as they are. */
  lemma {:induction false} ContactsAfterKeeps(contacts: map<string, Contact>, supports: seq<Vertex>, n: nat)
    requires n <= |supports|
    ensures var r := ContactsAfter(contacts, supports, n);
      forall k :: k in contacts ==> k in r && r[k] == contacts[k]
  {
    if n > 0 {
      ContactsAfterKeeps(contacts, supports, n - 1);
      ContactsAfterNext(contacts, supports, n - 1);
    }
  }

  /** A contact that was not there is the fresh contact of one of the supports. */
  lemma {:induction false} ContactsAfterNew(contacts: map<string, Contact>, supports: seq<Vertex>, n: nat)
    requires n <= |supports|
    ensures var r := ContactsAfter(contacts, supports, n);
      forall k :: k in r && k !in contacts ==>
        exists i :: 0 <= i < n && ContactKey(supports[i]) == k && r[k] == CreateContact(supports[i])
  {
    if n > 0 {
      ContactsAfterNew(contacts, supports, n - 1);
      ContactsAfterNext(contacts, supports, n - 1);
    }
  }

  /**
   * What `Pair.update` promises. The combined friction is the smaller of
   * the parents', the other coefficients the larger. On a collision there
   * is one active contact per support, in support order, each found in the
   * dictionary; contacts already there are kept with their impulses, new
   * ones start from zero. Without a collision the pair has no active contact
   * and is inactive, its dictionary untouched.
   */
  lemma {:induction false} UpdatedPairFacts(pair: Pair, c: Collision, timestamp: real)
    ensures var p := UpdatedPair(pair, c, timestamp);
      var parentA, parentB := c.bodyA.parent, c.bodyB.parent;
      p.id == pair.id && p.collision == c && p.isSensor == pair.isSensor && p.timeCreated == pair.timeCreated &&
      p.inverseMass == parentA.inverseMass + parentB.inverseMass &&
      p.friction <= parentA.friction && p.friction <= parentB.friction &&
      (p.friction == parentA.friction || p.friction == parentB.friction) &&
      p.frictionStatic >= parentA.frictionStatic && p.frictionStatic >= parentB.frictionStatic &&
      (p.frictionStatic == parentA.frictionStatic || p.frictionStatic == parentB.frictionStatic) &&
      p.restitution >= parentA.restitution && p.restitution >= parentB.restitution &&
      (p.restitution == parentA.restitution || p.restitution == parentB.restitution) &&
      p.slop >= parentA.slop && p.slop >= parentB.slop &&
      (p.slop == parentA.slop || p.slop == parentB.slop)
    ensures var p := UpdatedPair(pair, c, timestamp);
      c.collided ==>
        p.isActive && p.timeUpdated == timestamp && p.separation == c.depth &&
        |p.activeContacts| == |c.supports| &&
        (forall i :: 0 <= i < |c.supports| ==>
          p.activeContacts[i] == ContactKey(c.supports[i]) && p.activeContacts[i] in p.contacts) &&
        (forall k :: k in pair.contacts ==> k in p.contacts && p.contacts[k] == pair.contacts[k]) &&
        (forall k :: k in p.contacts && k !in pair.contacts ==>
          p.contacts[k].normalImpulse == 0.0 && p.contacts[k].tangentImpulse == 0.0 &&
          exists i :: 0 <= i < |c.supports| && ContactKey(c.supports[i]) == k && p.contacts[k].vertex == c.supports[i])
    ensures var p := UpdatedPair(pair, c, timestamp);
      !c.collided ==>
        !p.isActive && p.activeContacts == [] && p.contacts == pair.contacts &&
        p.timeUpdated == pair.timeUpdated && p.separation == pair.separation
  {
    ContactsAfterFacts(pair.contacts, c.supports, |c.supports|);
  }

  /** The pair `Pair.create` starts from, before its first update. */
  function NewPair(c: Collision, timestamp: real): Pair
  {
    WithMaterial(
      Pair(PairId(c.bodyA.id, c.bodyB.id), c.bodyA, c.bodyB, map[], [], 0.0, true,
           c.bodyA.isSensor || c.bodyB.isSensor, timestamp, timestamp, 0.0, 0.0, 0.0, 0.0, 0.0, c), c)
  }

  /** What `Pair.create` returns. */
  function CreatedPair(c: Collision, timestamp: real): Pair
  {
    UpdatedPair(NewPair(c, timestamp), c, timestamp)
  }

  /** `Pair.create`. */
  method CreatePair(collision: Collision, timestamp: real) returns (p: Pair)
    ensures p == CreatedPair(collision, timestamp)
    ensures p.id == PairId(collision.bodyA.id, collision.bodyB.id)
    ensures p.bodyA == collision.bodyA && p.bodyB == collision.bodyB
    ensures p.isSensor == (collision.bodyA.isSensor || collision.bodyB.isSensor)
    ensures p.timeCreated == timestamp
    ensures collision.collided ==> p.isActive && p.timeUpdated == timestamp
  {
    var pair := NewPair(collision, timestamp);
    p := UpdatePair(pair, collision, timestamp);
  }

  /** A created pair's contacts are exactly this frame's supports, all with zero impulse. */
  lemma {:induction false} CreatedPairContacts(c: Collision, timestamp: real)
    requires c.collided
    ensures var p := CreatedPair(c, timestamp);
      (forall k :: k in p.contacts <==> k in p.activeContacts) &&
      (forall k :: k in p.contacts ==> p.contacts[k].normalImpulse == 0.0 && p.contacts[k].tangentImpulse == 0.0)
  {
    var p := CreatedPair(c, timestamp);
    UpdatedPairFacts(NewPair(c, timestamp), c, timestamp);
    forall k | k in p.contacts
      ensures k in p.activeContacts
    {
      var i :| 0 <= i < |c.supports| && ContactKey(c.supports[i]) == k && p.contacts[k].vertex == c.supports[i];
      assert p.activeContacts[i] == k;
    }
  }

  // ------------------------------------------------------------------ pairs

  /** `Pairs._pairMaxIdleLife`. */
  const MaxIdleLife: real := 1000.0

  /** The pair id of a collision. */
  function CollisionId(c: Collision): string
  {
    PairId(c.bodyA.id, c.bodyB.id)
  }

  /** The state `Pairs.update` works on. */
  datatype Frame = Frame(
    table: map<string, Pair>, list: seq<string>,
    start: seq<string>, active: seq<string>, end: seq<string>,
    activeIds: seq<string>)

  /** One collision of the first loop of `Pairs.update`. */
  function Classify(f: Frame, c: Collision, timestamp: real): Frame
  {
    if !c.collided then f
    else
      var id := CollisionId(c);
      var g := f.(activeIds := f.activeIds + [id]);
      if id in f.table then
        var pair := f.table[id];
        var h := if pair.isActive then g.(active := g.active + [id]) else g.(start := g.start + [id]);
        h.(table := h.table[id := UpdatedPair(pair, c, timestamp)])
      else
        g.(table := g.table[id := CreatedPair(c, timestamp)], start := g.start + [id], list := g.list + [id])
  }

  function ClassifyUpTo(f: Frame, cs: seq<Collision>, timestamp: real, n: nat): Frame
    requires n <= |cs|
  {
    if n == 0 then f else Classify(ClassifyUpTo(f, cs, timestamp, n - 1), cs[n - 1], timestamp)
  }

  /** Whether the second loop of `Pairs.update` ends a pair: it is active and was not seen in this update. */
  predicate Ends(table: map<string, Pair>, activeIds: seq<string>, id: string)
  {
    id in table && table[id].isActive && id !in activeIds
  }

  /** The table after the second loop of `Pairs.update` has visited the first `m` pairs of the list. */
  function ExpiredTable(table: map<string, Pair>, list: seq<string>, activeIds: seq<string>, timestamp: real, m: nat)
    : map<string, Pair>
    requires m <= |list|
  {
    if m == 0 then table
    else
      var t := ExpiredTable(table, list, activeIds, timestamp, m - 1);
      var id := list[m - 1];
      if Ends(table, activeIds, id) then t[id := SetActive(table[id], false, timestamp)] else t
  }

  /** The pairs among the first `m` of the list that end. */
  function EndedPrefix(table: map<string, Pair>, list: seq<string>, activeIds: seq<string>, m: nat): seq<string>
    requires m <= |list|
  {
    if m == 0 then []
    else EndedPrefix(table, list, activeIds, m - 1) + (if Ends(table, activeIds, list[m - 1]) then [list[m - 1]] else [])
  }

  /** The whole of `Pairs.update` on a frame: event lists cleared, then the two loops. */
  function UpdateFrame(table: map<string, Pair>, list: seq<string>, cs: seq<Collision>, timestamp: real): Frame
  {
    var f := ClassifyUpTo(Frame(table, list, [], [], [], []), cs, timestamp, |cs|);
    f.(table := ExpiredTable(f.table, f.list, f.activeIds, timestamp, |f.list|),
       end := EndedPrefix(f.table, f.list, f.activeIds, |f.list|))
  }

  /** Whether a pair is kept by `Pairs.removeOld`: one of its parts sleeps, or it was updated recently enough. */
  predicate Sleeps(pair: Pair, sleeping: set<nat>)
  {
    pair.collision.bodyA.id in sleeping || pair.collision.bodyB.id in sleeping
  }

  predicate Keep(pair: Pair, timestamp: real, sleeping: set<nat>)
  {
    Sleeps(pair, sleeping) || !(timestamp - pair.timeUpdated > MaxIdleLife)
  }

  /** The ids `Pairs.removeOld` keeps, in their order. */
  function KeptIds(list: seq<string>, table: map<string, Pair>, timestamp: real, sleeping: set<nat>): seq<string>
    requires forall i :: 0 <= i < |list| ==> list[i] in table
  {
    if list == [] then []
    else
      var rest := KeptIds(list[..|list| - 1], table, timestamp, sleeping);
      var id := list[|list| - 1];
      if Keep(table[id], timestamp, sleeping) then rest + [id] else rest
  }

  /** A sleeping pair's clock is reset to now. */
  function Touched(pair: Pair, timestamp: real, sleeping: set<nat>): Pair
  {
    if Sleeps(pair, sleeping) then pair.(timeUpdated := timestamp) else pair
  }

  predicate Distinct(s: seq<string>)
  {
    forall i, j :: 0 <= i < j < |s| ==> s[i] != s[j]
  }

  /** The list and the table hold the same pairs, each under its own id. */
  predicate Consistent(table: map<string, Pair>, list: seq<string>)
  {
    Distinct(list) &&
    (forall i :: 0 <= i < |list| ==> list[i] in table) &&
    (forall k :: k in table ==> k in list) &&
    (forall k :: k in table ==> table[k].id == k)
  }

  class Pairs {
    var table: map<string, Pair>
    var list: seq<string>
    var collisionStart: seq<string>
    var collisionActive: seq<string>
    var collisionEnd: seq<string>

    predicate Valid()
      reads this
    {
      Consistent(table, list)
    }

    /** `Pairs.create`: everything empty. */
    constructor ()
      ensures Valid()
      ensures table == map[] && list == [] && collisionStart == [] && collisionActive == [] && collisionEnd == []
    {
      table := map[];
      list := [];
      collisionStart := [];
      collisionActive := [];
      collisionEnd := [];
    }

    /** `Pairs.update`. */
    method Update(collisions: seq<Collision>, timestamp: real)
      requires Valid()
      modifies this
      ensures Valid()
      ensures var f := UpdateFrame(old(table), old(list), collisions, timestamp);
        table == f.table && list == f.list &&
        collisionStart == f.start && collisionActive == f.active && collisionEnd == f.end
    {
      UpdateConsistent(table, list, collisions, timestamp);
      var classified := RecordCollisions(table, list, collisions, timestamp);
      var f := EndInactive(classified, timestamp);
      table, list := f.table, f.list;
      collisionStart, collisionActive, collisionEnd := f.start, f.active, f.end;
    }

    /** `Pairs.removeOld`, given the ids of the parts that are asleep. */
    method RemoveOld(timestamp: real, sleeping: set<nat>)
      requires Valid()
      modifies this
      ensures Valid()
      ensures list == KeptIds(old(list), old(table), timestamp, sleeping)
      ensures forall k :: k in table <==> k in list
      ensures forall k :: k in table ==> k in old(table) && table[k] == Touched(old(table)[k], timestamp, sleeping)
      ensures collisionStart == old(collisionStart) && collisionActive == old(collisionActive)
      ensures collisionEnd == old(collisionEnd)
    {
      var touched, indexesToRemove := MarkIdle(table, list, timestamp, sleeping);
      MarkedReady(table, list, timestamp, sleeping);
      var pairsTable, pairsList := RemoveIndexes(touched, list, indexesToRemove);
      RemovedAll(table, list, timestamp, sleeping, pairsTable, pairsList);
      table, list := pairsTable, pairsList;
    }

    /** `Pairs.clear`. */
    method Clear()
      modifies this
      ensures Valid()
      ensures table == map[] && list == [] && collisionStart == [] && collisionActive == [] && collisionEnd == []
    {
      table := map[];
      list := [];
      collisionStart := [];
      collisionActive := [];
      collisionEnd := [];
    }
  }

  /** The positions among the first `n` of `list` whose pairs `Pairs.removeOld` drops. */
  function IdleMarks(table: map<string, Pair>, list: seq<string>, timestamp: real, sleeping: set<nat>, n: nat): seq<nat>
    requires n <= |list| && forall i :: 0 <= i < |list| ==> list[i] in table
  {
    if n == 0 then []
    else
      var marks := IdleMarks(table, list, timestamp, sleeping, n - 1);
      if Keep(table[list[n - 1]], timestamp, sleeping) then marks else marks + [n - 1]
  }

  /** The table after the first `n` pairs of `list` have been touched. */
  function TouchedUpTo(table: map<string, Pair>, list: seq<string>, timestamp: real, sleeping: set<nat>, n: nat): map<string, Pair>
    requires n <= |list| && forall i :: 0 <= i < |list| ==> list[i] in table
  {
    if n == 0 then table
    else
      var t := TouchedUpTo(table, list, timestamp, sleeping, n - 1);
      var pair := table[list[n - 1]];
      if Sleeps(pair, sleeping) then t[list[n - 1] := Touched(pair, timestamp, sleeping)] else t
  }

  /** The first loop of `Pairs.removeOld`: sleeping pairs are touched, idle ones marked by position. */
  method MarkIdle(table: map<string, Pair>, list: seq<string>, timestamp: real, sleeping: set<nat>)
    returns (touched: map<string, Pair>, indexesToRemove: seq<nat>)
    requires Consistent(table, list)
    ensures touched == TouchedUpTo(table, list, timestamp, sleeping, |list|)
    ensures indexesToRemove == IdleMarks(table, list, timestamp, sleeping, |list|)
  {
    touched, indexesToRemove := table, [];
    for i := 0 to |list|
      invariant touched == TouchedUpTo(table, list, timestamp, sleeping, i)
      invariant indexesToRemove == IdleMarks(table, list, timestamp, sleeping, i)
    {
      TouchedAt(table, list, timestamp, sleeping, i, i);
      var pair := touched[list[i]];
      if Sleeps(pair, sleeping) {
        touched := touched[list[i] := pair.(timeUpdated := timestamp)];
        continue;
      }
      if timestamp - pair.timeUpdated > MaxIdleLife {
        indexesToRemove := indexesToRemove + [i];
      }
    }
  }

  /** Every pair of the table ends touched, and nothing else changes. */
  lemma {:induction false} TouchedUpToFacts(table: map<string, Pair>, list: seq<string>, timestamp: real,
                                             sleeping: set<nat>, n: nat)
    requires Consistent(table, list) && n <= |list|
    ensures var t := TouchedUpTo(table, list, timestamp, sleeping, n);
      t.Keys == table.Keys &&
      (forall p :: 0 <= p < n ==> t[list[p]] == Touched(table[list[p]], timestamp, sleeping)) &&
      (forall p :: n <= p < |list| ==> t[list[p]] == table[list[p]])
  {
    TouchedKeys(table, list, timestamp, sleeping, n);
    forall p | 0 <= p < |list|
      ensures TouchedUpTo(table, list, timestamp, sleeping, n)[list[p]] ==
        if p < n then Touched(table[list[p]], timestamp, sleeping) else table[list[p]]
    {
      TouchedAt(table, list, timestamp, sleeping, n, p);
    }
  }

  lemma {:induction false} TouchedKeys(table: map<string, Pair>, list: seq<string>, timestamp: real,
                                        sleeping: set<nat>, n: nat)
    requires n <= |list| && forall i :: 0 <= i < |list| ==> list[i] in table
    ensures TouchedUpTo(table, list, timestamp, sleeping, n).Keys == table.Keys
  {
    if n > 0 {
      TouchedKeys(table, list, timestamp, sleeping, n - 1);
    }
  }

  /** The pair at position `p` is touched once the first loop has passed it, and untouched before. */
  lemma {:induction false} TouchedAt(table: map<string, Pair>, list: seq<string>, timestamp: real,
                                      sleeping: set<nat>, n: nat, p: nat)
    requires Consistent(table, list) && n <= |list| && p < |list|
    ensures list[p] in TouchedUpTo(table, list, timestamp, sleeping, n)
    ensures TouchedUpTo(table, list, timestamp, sleeping, n)[list[p]] ==
      if p < n then Touched(table[list[p]], timestamp, sleeping) else table[list[p]]
  {
    TouchedKeys(table, list, timestamp, sleeping, n);
    if n > 0 {
      TouchedAt(table, list, timestamp, sleeping, n - 1, p);
      if p != n - 1 {
        assert list[p] != list[n - 1];
      }
    }
  }

  /** The marks are increasing and are exactly the positions of the pairs not kept. */
  lemma {:induction false} IdleMarksFacts(table: map<string, Pair>, list: seq<string>, timestamp: real,
                                           sleeping: set<nat>, n: nat)
    requires n <= |list| && forall i :: 0 <= i < |list| ==> list[i] in table
    ensures var marks := IdleMarks(table, list, timestamp, sleeping, n);
      Ascending(marks) && (forall j :: 0 <= j < |marks| ==> marks[j] < n) &&
      forall p :: 0 <= p < n ==> (p in marks <==> !Keep(table[list[p]], timestamp, sleeping))
  {
    if n > 0 {
      IdleMarksFacts(table, list, timestamp, sleeping, n - 1);
    }
  }

  /**
   * The second loop of `Pairs.removeOld`: the marked positions are spliced
   * out of the list in increasing order, each shifted left by the removals
   * before it, and their entries deleted from the table.
   */
  method RemoveIndexes<T>(table: map<string, T>, list: seq<string>, indexesToRemove: seq<nat>)
    returns (pairsTable: map<string, T>, pairsList: seq<string>)
    requires Distinct(list) && forall i :: 0 <= i < |list| ==> list[i] in table
    requires Ascending(indexesToRemove) && forall j :: 0 <= j < |indexesToRemove| ==> indexesToRemove[j] < |list|
    ensures pairsList == Survivors(list, indexesToRemove, |list|)
    ensures Distinct(pairsList) && forall k :: k in pairsList ==> k in list
    ensures forall k :: k in pairsTable <==> k in table && (k in pairsList || k !in list)
    ensures forall k :: k in pairsTable ==> pairsTable[k] == table[k]
  {
    pairsTable, pairsList := table, list;
    SpliceStart(table, list, indexesToRemove);
    var i := 0;
    while i < |indexesToRemove|
      invariant SpliceInv(table, list, indexesToRemove, i, pairsTable, pairsList)
      decreases |indexesToRemove| - i
    {
      SpliceIndex(table, list, indexesToRemove, i, pairsTable, pairsList);
      var pairIndex := indexesToRemove[i] - i;
      var id := pairsList[pairIndex];
      ghost var pairsTable0, pairsList0 := pairsTable, pairsList;
      pairsTable := pairsTable - {id};
      pairsList := pairsList[..pairIndex] + pairsList[pairIndex + 1..];
      SpliceStep(table, list, indexesToRemove, i, pairsTable0, pairsList0, pairsTable, pairsList);
      i := i + 1;
    }
    SpliceEnd(table, list, indexesToRemove, pairsTable, pairsList);
  }

  /** What holds after the first `i` marked positions are spliced out. */
  ghost predicate SpliceInv<T>(table: map<string, T>, list: seq<string>, idx: seq<nat>, i: nat,
                         pairsTable: map<string, T>, pairsList: seq<string>)
  {
    Ascending(idx) && i <= |idx| && (forall j :: 0 <= j < |idx| ==> idx[j] < |list|) &&
    pairsList == Survivors(list, idx, Next(idx, |list|, i)) + list[Next(idx, |list|, i)..] &&
    Distinct(pairsList) && (forall k :: k in pairsList ==> k in list) &&
    (forall k :: k in pairsTable <==> k in table && (k in pairsList || k !in list)) &&
    (forall k :: k in pairsTable ==> pairsTable[k] == table[k])
  }

  lemma {:induction false} SpliceStart<T>(table: map<string, T>, list: seq<string>, idx: seq<nat>)
    requires Distinct(list) && forall i :: 0 <= i < |list| ==> list[i] in table
    requires Ascending(idx) && forall j :: 0 <= j < |idx| ==> idx[j] < |list|
    ensures SpliceInv(table, list, idx, 0, table, list)
  {
    var first := Next(idx, |list|, 0);
    forall p | 0 <= p < first
      ensures p !in idx
    {
      forall j | 0 <= j < |idx|
        ensures idx[j] != p
      {
        assert idx[0] <= idx[j];
      }
    }
    SurvivorsFrom(list, idx, 0, first);
    assert list == list[..first] + list[first..];
  }

  lemma {:induction false} SpliceEnd<T>(table: map<string, T>, list: seq<string>, idx: seq<nat>,
                                       pairsTable: map<string, T>, pairsList: seq<string>)
    requires SpliceInv(table, list, idx, |idx|, pairsTable, pairsList)
    ensures pairsList == Survivors(list, idx, |list|)
    ensures Distinct(pairsList) && forall k :: k in pairsList ==> k in list
    ensures forall k :: k in pairsTable <==> k in table && (k in pairsList || k !in list)
    ensures forall k :: k in pairsTable ==> pairsTable[k] == table[k]
  {
    assert list[|list|..] == [];
  }

  /** The shifted index of the next mark is in range. */
  lemma {:induction false} SpliceIndex<T>(table: map<string, T>, list: seq<string>, idx: seq<nat>, i: nat,
                                         pairsTable: map<string, T>, pairsList: seq<string>)
    requires SpliceInv(table, list, idx, i, pairsTable, pairsList) && i < |idx|
    ensures 0 <= idx[i] - i < |pairsList|
  {
    SurvivorsStep(list, idx, i, pairsList);
  }

  /** Splicing out the element at the shifted index keeps the loop's invariant. */
  lemma {:induction false} SpliceStep<T>(table: map<string, T>, list: seq<string>, idx: seq<nat>, i: nat,
                                        pairsTable: map<string, T>, pairsList: seq<string>,
                                        pairsTable': map<string, T>, pairsList': seq<string>)
    requires SpliceInv(table, list, idx, i, pairsTable, pairsList) && i < |idx| && 0 <= idx[i] - i < |pairsList|
    requires pairsTable' == pairsTable - {pairsList[idx[i] - i]}
    requires pairsList' == pairsList[..idx[i] - i] + pairsList[idx[i] - i + 1..]
    ensures SpliceInv(table, list, idx, i + 1, pairsTable', pairsList')
  {
    SurvivorsStep(list, idx, i, pairsList);
    RemoveAt(pairsList, idx[i] - i);
    SpliceTable(table, list, pairsTable, pairsList, pairsList[idx[i] - i], pairsTable', pairsList');
  }

  /** Deleting the spliced id from the table keeps the table in step with the list. */
  lemma {:induction false} SpliceTable<T>(table: map<string, T>, list: seq<string>,
                                         pairsTable: map<string, T>, pairsList: seq<string>, x: string,
                                         pairsTable': map<string, T>, pairsList': seq<string>)
    requires forall k :: k in pairsTable <==> k in table && (k in pairsList || k !in list)
    requires forall k :: k in pairsTable ==> pairsTable[k] == table[k]
    requires x in list && pairsTable' == pairsTable - {x}
    requires forall k :: k in pairsList' <==> k in pairsList && k != x
    ensures forall k :: k in pairsTable' <==> k in table && (k in pairsList' || k !in list)
    ensures forall k :: k in pairsTable' ==> pairsTable'[k] == table[k]
  {
  }

  /** The position the splice loop reaches next: the next marked position, or the end. */
  function Next(idx: seq<nat>, n: nat, i: nat): nat
  {
    if i < |idx| then idx[i] else n
  }

  /** One step of the splice loop: the shifted index finds the marked element, and removing it keeps the loop's shape. */
  lemma {:induction false} SurvivorsStep(list: seq<string>, idx: seq<nat>, i: nat, current: seq<string>)
    requires Ascending(idx) && i < |idx| && forall j :: 0 <= j < |idx| ==> idx[j] < |list|
    requires current == Survivors(list, idx, Next(idx, |list|, i)) + list[Next(idx, |list|, i)..]
    ensures idx[i] - i >= 0 && Next(idx, |list|, i + 1) <= |list|
    ensures idx[i] - i < |current| && current[idx[i] - i] == list[idx[i]]
    ensures current[..idx[i] - i] + current[idx[i] - i + 1..] ==
      Survivors(list, idx, Next(idx, |list|, i + 1)) + list[Next(idx, |list|, i + 1)..]
  {
    var next, next' := idx[i], Next(idx, |list|, i + 1);
    SurvivorsCount(list, idx, i);
    UnmarkedBetween(idx, i, |list|);
    SpliceAt(list, idx, next, next', next - i, current);
  }

  /** Splicing out the marked position `a`, which the first `k` elements precede, when the next mark is at `b`. */
  lemma {:induction false} SpliceAt(list: seq<string>, idx: seq<nat>, a: nat, b: nat, k: nat, current: seq<string>)
    requires a < b <= |list| && a in idx && forall p :: a < p < b ==> p !in idx
    requires |Survivors(list, idx, a)| == k && current == Survivors(list, idx, a) + list[a..]
    ensures k < |current| && current[k] == list[a]
    ensures current[..k] + current[k + 1..] == Survivors(list, idx, b) + list[b..]
  {
    SurvivorsJump(list, idx, a, b);
    Splice(current, Survivors(list, idx, a), Survivors(list, idx, b), list, a, b);
  }

  /** Over a marked position followed by an unmarked run, the survivors grow by that run. */
  lemma {:induction false} SurvivorsJump(list: seq<string>, idx: seq<nat>, a: nat, b: nat)
    requires a < b <= |list| && a in idx && forall p :: a < p < b ==> p !in idx
    ensures Survivors(list, idx, b) == Survivors(list, idx, a) + list[a + 1..b]
  {
    SurvivorsMarked(list, idx, a);
    SurvivorsFrom(list, idx, a + 1, b);
  }

  /** A marked position contributes nothing. */
  lemma {:induction false} SurvivorsMarked(s: seq<string>, removed: seq<nat>, m: nat)
    requires m < |s| && m in removed
    ensures Survivors(s, removed, m + 1) == Survivors(s, removed, m)
  {
    assert Survivors(s, removed, m) + [] == Survivors(s, removed, m);
  }

  /** Splicing the element after a prefix out of a prefix-plus-suffix. */
  lemma {:induction false} Splice<K>(current: seq<K>, survivors: seq<K>, survivors': seq<K>, list: seq<K>, next: nat, next': nat)
    requires next < next' <= |list|
    requires current == survivors + list[next..] && survivors' == survivors + list[next + 1..next']
    ensures |survivors| < |current| && current[|survivors|] == list[next]
    ensures current[..|survivors|] + current[|survivors| + 1..] == survivors' + list[next'..]
  {
    assert current[..|survivors|] == survivors;
    assert current[|survivors| + 1..] == list[next + 1..];
    assert list[next + 1..] == list[next + 1..next'] + list[next'..];
  }

  /** No position strictly between two consecutive marks is marked. */
  lemma {:induction false} UnmarkedBetween(idx: seq<nat>, i: nat, n: nat)
    requires Ascending(idx) && i < |idx| && forall j :: 0 <= j < |idx| ==> idx[j] < n
    ensures idx[i] < Next(idx, n, i + 1)
    ensures forall p :: idx[i] < p < Next(idx, n, i + 1) ==> p !in idx
  {
    forall p | idx[i] < p < Next(idx, n, i + 1)
      ensures p !in idx
    {
      forall j | 0 <= j < |idx|
        ensures idx[j] != p
      {
        if j <= i {
          assert idx[j] <= idx[i];
        } else {
          assert idx[i + 1] <= idx[j];
        }
      }
    }
  }

  /** What the first loop of `Pairs.removeOld` hands to the second. */
  lemma {:induction false} MarkedReady(table: map<string, Pair>, list: seq<string>, timestamp: real, sleeping: set<nat>)
    requires Consistent(table, list)
    ensures var touched := TouchedUpTo(table, list, timestamp, sleeping, |list|);
      var marks := IdleMarks(table, list, timestamp, sleeping, |list|);
      Distinct(list) && (forall i :: 0 <= i < |list| ==> list[i] in touched) &&
      Ascending(marks) && forall j :: 0 <= j < |marks| ==> marks[j] < |list|
  {
    TouchedUpToFacts(table, list, timestamp, sleeping, |list|);
    IdleMarksFacts(table, list, timestamp, sleeping, |list|);
  }

  /** What the two loops of `Pairs.removeOld` leave behind. */
  lemma {:induction false} RemovedAll(table: map<string, Pair>, list: seq<string>, timestamp: real, sleeping: set<nat>,
                   pairsTable: map<string, Pair>, pairsList: seq<string>)
    requires Consistent(table, list)
    requires var touched := TouchedUpTo(table, list, timestamp, sleeping, |list|);
      pairsList == Survivors(list, IdleMarks(table, list, timestamp, sleeping, |list|), |list|) &&
      Distinct(pairsList) && (forall k :: k in pairsList ==> k in list) &&
      (forall k :: k in pairsTable <==> k in touched && (k in pairsList || k !in list)) &&
      (forall k :: k in pairsTable ==> pairsTable[k] == touched[k])
    ensures Consistent(pairsTable, pairsList)
    ensures pairsList == KeptIds(list, table, timestamp, sleeping)
    ensures forall k :: k in pairsTable <==> k in pairsList
    ensures forall k :: k in pairsTable ==> k in table && pairsTable[k] == Touched(table[k], timestamp, sleeping)
  {
    var touched := TouchedUpTo(table, list, timestamp, sleeping, |list|);
    var marks := IdleMarks(table, list, timestamp, sleeping, |list|);
    TouchedUpToFacts(table, list, timestamp, sleeping, |list|);
    IdleMarksFacts(table, list, timestamp, sleeping, |list|);
    forall k | k in table
      ensures touched[k] == Touched(table[k], timestamp, sleeping)
    {
      var p :| 0 <= p < |list| && list[p] == k;
    }
    RemovedConsistent(table, list, timestamp, sleeping, touched, pairsTable, pairsList);
    SurvivorsKept(list, table, marks, timestamp, sleeping, |list|);
    assert list[..|list|] == list;
  }

  /** The two loops of `Pairs.removeOld` together keep the table consistent, each entry touched. */
  lemma {:induction false} RemovedConsistent(table: map<string, Pair>, list: seq<string>, timestamp: real, sleeping: set<nat>,
                          touched: map<string, Pair>, pairsTable: map<string, Pair>, pairsList: seq<string>)
    requires Consistent(table, list)
    requires touched.Keys == table.Keys
    requires forall k :: k in table ==> touched[k] == Touched(table[k], timestamp, sleeping)
    requires Distinct(pairsList) && forall k :: k in pairsList ==> k in list
    requires forall k :: k in pairsTable <==> k in touched && (k in pairsList || k !in list)
    requires forall k :: k in pairsTable ==> pairsTable[k] == touched[k]
    ensures Consistent(pairsTable, pairsList)
    ensures forall k :: k in pairsTable <==> k in pairsList
    ensures forall k :: k in pairsTable ==> k in table && pairsTable[k] == Touched(table[k], timestamp, sleeping)
  {
    forall k | k in pairsList
      ensures k in pairsTable
    {
      var j :| 0 <= j < |list| && list[j] == k;
      assert k in table;
    }
  }

  /**
   * The first loop of `Pairs.update`, on cleared event lists: each collided
   * collision updates its pair, or creates and records a new one.
   */
  method RecordCollisions(table: map<string, Pair>, list: seq<string>, collisions: seq<Collision>, timestamp: real)
    returns (f: Frame)
    requires Consistent(table, list)
    ensures f == ClassifyUpTo(Frame(table, list, [], [], [], []), collisions, timestamp, |collisions|)
    ensures Consistent(f.table, f.list)
  {
    var pairsTable, pairsList := table, list;
    var start: seq<string>, active: seq<string>, end: seq<string> := [], [], [];
    var activePairIds: seq<string> := [];
    ghost var f0 := Frame(pairsTable, pairsList, [], [], [], []);
    for i := 0 to |collisions|
      invariant Frame(pairsTable, pairsList, start, active, end, activePairIds) == ClassifyUpTo(f0, collisions, timestamp, i)
      invariant Consistent(pairsTable, pairsList)
    {
      var collision := collisions[i];
      ClassifyConsistent(Frame(pairsTable, pairsList, start, active, end, activePairIds), collision, timestamp);
      if collision.collided {
        var pairId := CollisionId(collision);
        activePairIds := activePairIds + [pairId];
        if pairId in pairsTable {
          var pair := pairsTable[pairId];
          if pair.isActive {
            active := active + [pairId];
          } else {
            start := start + [pairId];
          }
          var updated := UpdatePair(pair, collision, timestamp);
          pairsTable := pairsTable[pairId := updated];
        } else {
          var pair := CreatePair(collision, timestamp);
          pairsTable := pairsTable[pairId := pair];
          start := start + [pairId];
          pairsList := pairsList + [pairId];
        }
      }
    }
    f := Frame(pairsTable, pairsList, start, active, end, activePairIds);
  }

  /** The second loop of `Pairs.update`: every active pair not seen in this update is deactivated and ends. */
  method EndInactive(f: Frame, timestamp: real) returns (g: Frame)
    requires Consistent(f.table, f.list)
    ensures g == f.(table := ExpiredTable(f.table, f.list, f.activeIds, timestamp, |f.list|),
                    end := EndedPrefix(f.table, f.list, f.activeIds, |f.list|))
  {
    var pairsTable, pairsList, activePairIds := f.table, f.list, f.activeIds;
    var collisionEnd: seq<string> := [];
    for i := 0 to |pairsList|
      invariant pairsTable == ExpiredTable(f.table, pairsList, activePairIds, timestamp, i)
      invariant collisionEnd == EndedPrefix(f.table, pairsList, activePairIds, i)
    {
      ExpiredAt(f.table, pairsList, activePairIds, timestamp, i, i);
      var pairId := pairsList[i];
      var pair := pairsTable[pairId];
      if pair.isActive && pairId !in activePairIds {
        pairsTable := pairsTable[pairId := SetActive(pair, false, timestamp)];
        collisionEnd := collisionEnd + [pairId];
      }
    }
    g := f.(table := pairsTable, end := collisionEnd);
  }

  // ------------------------------------------------ update classification

  /** The pair ids of the collided collisions, in order. */
  function CollidedIds(cs: seq<Collision>): seq<string>
  {
    if cs == [] then []
    else CollidedIds(cs[..|cs| - 1]) + (if cs[|cs| - 1].collided then [CollisionId(cs[|cs| - 1])] else [])
  }

  /** The collided ids of a prefix, one collision at a time. */
  lemma {:induction false} CollidedIdsStep(cs: seq<Collision>, n: nat)
    requires 0 < n <= |cs|
    ensures CollidedIds(cs[..n]) ==
      CollidedIds(cs[..n - 1]) + (if cs[n - 1].collided then [CollisionId(cs[n - 1])] else [])
  {
    assert cs[..n][..n - 1] == cs[..n - 1];
  }

  /** A prefix of a list without repeats has none, and the last element is not in it. */
  lemma {:induction false} DistinctPrefix(s: seq<string>, t: seq<string>)
    requires Distinct(s + t)
    ensures Distinct(s) && forall k :: k in t ==> k !in s
  {
    assert forall i :: 0 <= i < |s| ==> (s + t)[i] == s[i];
    forall k | k in t
      ensures k !in s
    {
      var j :| 0 <= j < |t| && t[j] == k;
      assert (s + t)[|s| + j] == k;
    }
  }

  /** The first loop of `Pairs.update` records the collided ids, ends nothing yet and keeps the table consistent. */
  lemma {:induction false} ClassifyShape(table: map<string, Pair>, list: seq<string>, cs: seq<Collision>,
                                          timestamp: real, n: nat)
    requires Consistent(table, list) && n <= |cs|
    ensures var g := ClassifyUpTo(Frame(table, list, [], [], [], []), cs, timestamp, n);
      g.activeIds == CollidedIds(cs[..n]) && g.end == [] && Consistent(g.table, g.list) &&
      (forall id :: id in g.table <==> id in table || id in g.activeIds)
  {
    ClassifyIds(table, list, cs, timestamp, n);
    ClassifyKeys(table, list, cs, timestamp, n);
    ClassifyUpToConsistent(table, list, cs, timestamp, n);
  }

  lemma {:induction false} ClassifyIds(table: map<string, Pair>, list: seq<string>, cs: seq<Collision>,
                                        timestamp: real, n: nat)
    requires n <= |cs|
    ensures var g := ClassifyUpTo(Frame(table, list, [], [], [], []), cs, timestamp, n);
      g.activeIds == CollidedIds(cs[..n]) && g.end == []
  {
    if n == 0 {
      assert cs[..0] == [];
    } else {
      CollidedIdsStep(cs, n);
      ClassifyIds(table, list, cs, timestamp, n - 1);
      ClassifyStepShape(ClassifyUpTo(Frame(table, list, [], [], [], []), cs, timestamp, n - 1), cs[n - 1], timestamp);
    }
  }

  lemma {:induction false} ClassifyKeys(table: map<string, Pair>, list: seq<string>, cs: seq<Collision>,
                                         timestamp: real, n: nat)
    requires n <= |cs|
    ensures var g := ClassifyUpTo(Frame(table, list, [], [], [], []), cs, timestamp, n);
      forall id :: id in g.table <==> id in table || id in g.activeIds
  {
    if n > 0 {
      ClassifyKeys(table, list, cs, timestamp, n - 1);
      ClassifyStepShape(ClassifyUpTo(Frame(table, list, [], [], [], []), cs, timestamp, n - 1), cs[n - 1], timestamp);
    }
  }

  lemma {:induction false} ClassifyUpToConsistent(table: map<string, Pair>, list: seq<string>, cs: seq<Collision>,
                                                   timestamp: real, n: nat)
    requires Consistent(table, list) && n <= |cs|
    ensures var g := ClassifyUpTo(Frame(table, list, [], [], [], []), cs, timestamp, n);
      Consistent(g.table, g.list)
  {
    if n > 0 {
      ClassifyUpToConsistent(table, list, cs, timestamp, n - 1);
      ClassifyConsistent(ClassifyUpTo(Frame(table, list, [], [], [], []), cs, timestamp, n - 1), cs[n - 1], timestamp);
    }
  }

  /** One collision adds its id to the seen ids and its pair to the table, and ends nothing. */
  lemma {:induction false} ClassifyStepShape(f: Frame, c: Collision, timestamp: real)
    ensures var g := Classify(f, c, timestamp);
      g.activeIds == f.activeIds + (if c.collided then [CollisionId(c)] else []) && g.end == f.end &&
      (forall id :: id in g.table <==> id in f.table || (c.collided && id == CollisionId(c)))
  {
  }

  /** After `n` collisions of distinct pairs, each collided pair is active, and the others are untouched. */
  lemma {:induction false} ClassifyTable(table: map<string, Pair>, list: seq<string>, cs: seq<Collision>,
                                          timestamp: real, n: nat)
    requires Consistent(table, list) && n <= |cs| && Distinct(CollidedIds(cs[..n]))
    ensures var g := ClassifyUpTo(Frame(table, list, [], [], [], []), cs, timestamp, n);
      var ids := CollidedIds(cs[..n]);
      (forall id :: id in ids ==> id in g.table && g.table[id].isActive) &&
      (forall id :: id in table && id !in ids ==> id in g.table && g.table[id] == table[id])
  {
    forall id
      ensures var g := ClassifyUpTo(Frame(table, list, [], [], [], []), cs, timestamp, n);
        var ids := CollidedIds(cs[..n]);
        (id in ids ==> id in g.table && g.table[id].isActive) &&
        (id in table && id !in ids ==> id in g.table && g.table[id] == table[id])
    {
      ClassifyTableAt(table, list, cs, timestamp, n, id);
    }
  }

  /** `ClassifyTable` for one id. */
  lemma {:induction false} ClassifyTableAt(table: map<string, Pair>, list: seq<string>, cs: seq<Collision>,
                                            timestamp: real, n: nat, id: string)
    requires Consistent(table, list) && n <= |cs| && Distinct(CollidedIds(cs[..n]))
    ensures var g := ClassifyUpTo(Frame(table, list, [], [], [], []), cs, timestamp, n);
      var ids := CollidedIds(cs[..n]);
      (id in ids ==> id in g.table && g.table[id].isActive) &&
      (id in table && id !in ids ==> id in g.table && g.table[id] == table[id])
  {
    if n > 0 {
      CollidedIdsStep(cs, n);
      var c := cs[n - 1];
      DistinctPrefix(CollidedIds(cs[..n - 1]), if c.collided then [CollisionId(c)] else []);
      ClassifyTableAt(table, list, cs, timestamp, n - 1, id);
      ClassifyStepAt(ClassifyUpTo(Frame(table, list, [], [], [], []), cs, timestamp, n - 1), c, timestamp, id);
    }
  }

  /** One collision activates its pair and leaves every other pair as it was. */
  lemma {:induction false} ClassifyStepAt(f: Frame, c: Collision, timestamp: real, id: string)
    ensures var g := Classify(f, c, timestamp);
      (c.collided && id == CollisionId(c) ==> id in g.table && g.table[id].isActive) &&
      (id in f.table && !(c.collided && id == CollisionId(c)) ==> id in g.table && g.table[id] == f.table[id])
  {
  }

  /** After `n` collisions of distinct pairs, the started and continued lists are as promised. */
  lemma {:induction false} ClassifyLists(table: map<string, Pair>, list: seq<string>, cs: seq<Collision>,
                                          timestamp: real, n: nat)
    requires Consistent(table, list) && n <= |cs| && Distinct(CollidedIds(cs[..n]))
    ensures var g := ClassifyUpTo(Frame(table, list, [], [], [], []), cs, timestamp, n);
      var ids := CollidedIds(cs[..n]);
      (forall id :: id in g.start <==> id in ids && (id !in table || !table[id].isActive)) &&
      (forall id :: id in g.active <==> id in ids && id in table && table[id].isActive)
  {
    if n > 0 {
      CollidedIdsStep(cs, n);
      var c := cs[n - 1];
      DistinctPrefix(CollidedIds(cs[..n - 1]), if c.collided then [CollisionId(c)] else []);
      ClassifyIds(table, list, cs, timestamp, n - 1);
      ClassifyKeys(table, list, cs, timestamp, n - 1);
      ClassifyTable(table, list, cs, timestamp, n - 1);
      ClassifyLists(table, list, cs, timestamp, n - 1);
      ClassifyStepLists(ClassifyUpTo(Frame(table, list, [], [], [], []), cs, timestamp, n - 1), c, timestamp);
    }
  }

  /** One collision starts its pair when it is new or inactive, and continues it when it is active. */
  lemma {:induction false} ClassifyStepLists(f: Frame, c: Collision, timestamp: real)
    ensures var g, id := Classify(f, c, timestamp), CollisionId(c);
      g.start == f.start + (if c.collided && (id !in f.table || !f.table[id].isActive) then [id] else []) &&
      g.active == f.active + (if c.collided && id in f.table && f.table[id].isActive then [id] else [])
  {
  }

  /** After the first `m` pairs, those of them that end are deactivated; the rest are untouched. */
  lemma {:induction false} ExpiredFacts(table: map<string, Pair>, list: seq<string>, activeIds: seq<string>,
                                         timestamp: real, m: nat)
    requires Consistent(table, list) && m <= |list|
    ensures var t := ExpiredTable(table, list, activeIds, timestamp, m);
      t.Keys == table.Keys &&
      forall p :: 0 <= p < |list| ==>
        t[list[p]] == if p < m && Ends(table, activeIds, list[p]) then SetActive(table[list[p]], false, timestamp)
                      else table[list[p]]
  {
    ExpiredKeys(table, list, activeIds, timestamp, m);
    forall p | 0 <= p < |list|
      ensures ExpiredTable(table, list, activeIds, timestamp, m)[list[p]] ==
        if p < m && Ends(table, activeIds, list[p]) then SetActive(table[list[p]], false, timestamp) else table[list[p]]
    {
      ExpiredAt(table, list, activeIds, timestamp, m, p);
    }
  }

  lemma {:induction false} ExpiredKeys(table: map<string, Pair>, list: seq<string>, activeIds: seq<string>,
                                        timestamp: real, m: nat)
    requires m <= |list|
    ensures ExpiredTable(table, list, activeIds, timestamp, m).Keys == table.Keys
  {
    if m > 0 {
      ExpiredKeys(table, list, activeIds, timestamp, m - 1);
    }
  }

  /** The pair at position `p` after the first `m` pairs. */
  lemma {:induction false} ExpiredAt(table: map<string, Pair>, list: seq<string>, activeIds: seq<string>,
                                      timestamp: real, m: nat, p: nat)
    requires Consistent(table, list) && m <= |list| && p < |list|
    ensures list[p] in ExpiredTable(table, list, activeIds, timestamp, m)
    ensures ExpiredTable(table, list, activeIds, timestamp, m)[list[p]] ==
      if p < m && Ends(table, activeIds, list[p]) then SetActive(table[list[p]], false, timestamp) else table[list[p]]
  {
    ExpiredKeys(table, list, activeIds, timestamp, m);
    if m > 0 {
      ExpiredAt(table, list, activeIds, timestamp, m - 1, p);
      if p != m - 1 {
        assert list[p] != list[m - 1];
      }
    }
  }

  /** A pair is listed as ended exactly when it is among the first `m` and ends. */
  lemma {:induction false} EndedPrefixMembers(table: map<string, Pair>, list: seq<string>, activeIds: seq<string>, m: nat)
    requires Consistent(table, list) && m <= |list|
    ensures forall id :: id in EndedPrefix(table, list, activeIds, m) ==> id in table
    ensures forall p :: 0 <= p < |list| ==>
      (list[p] in EndedPrefix(table, list, activeIds, m) <==> p < m && Ends(table, activeIds, list[p]))
  {
    if m > 0 {
      EndedPrefixMembers(table, list, activeIds, m - 1);
      var id := list[m - 1];
      assert forall p :: 0 <= p < |list| && p != m - 1 ==> list[p] != id;
    }
  }

  /** The second loop of `Pairs.update` keeps the table consistent. */
  lemma {:induction false} ExpiredConsistent(table: map<string, Pair>, list: seq<string>, activeIds: seq<string>, timestamp: real)
    requires Consistent(table, list)
    ensures Consistent(ExpiredTable(table, list, activeIds, timestamp, |list|), list)
  {
    ExpiredFacts(table, list, activeIds, timestamp, |list|);
    var t := ExpiredTable(table, list, activeIds, timestamp, |list|);
    forall k | k in t
      ensures t[k].id == k
    {
      var p :| 0 <= p < |list| && list[p] == k;
    }
  }

  /** `Pairs.update` keeps the table consistent. */
  lemma {:induction false} UpdateConsistent(table: map<string, Pair>, list: seq<string>, cs: seq<Collision>, timestamp: real)
    requires Consistent(table, list)
    ensures var f := UpdateFrame(table, list, cs, timestamp); Consistent(f.table, f.list)
  {
    ClassifyShape(table, list, cs, timestamp, |cs|);
    var g := ClassifyUpTo(Frame(table, list, [], [], [], []), cs, timestamp, |cs|);
    ExpiredConsistent(g.table, g.list, g.activeIds, timestamp);
  }

  /**
   * The classification `Pairs.update` promises, for collisions of distinct
   * pairs. A collided pair starts when it is new or was inactive, and
   * continues when it was active; a pair that was active and did not
   * collide ends. Afterwards a pair is active exactly when it collided, an
   * ended pair has no active contact, and a pair that was inactive and did
   * not collide is untouched.
   */
  lemma {:induction false} UpdateClassification(table: map<string, Pair>, list: seq<string>, cs: seq<Collision>, timestamp: real)
    requires Consistent(table, list) && Distinct(CollidedIds(cs))
    ensures var f := UpdateFrame(table, list, cs, timestamp);
      var ids := CollidedIds(cs);
      (forall id :: id in f.start <==> id in ids && (id !in table || !table[id].isActive)) &&
      (forall id :: id in f.active <==> id in ids && id in table && table[id].isActive) &&
      (forall id :: id in f.end <==> id in table && table[id].isActive && id !in ids) &&
      (forall id :: id in f.table <==> id in table || id in ids) &&
      (forall id :: id in f.table ==> (f.table[id].isActive <==> id in ids)) &&
      (forall id :: id in f.end ==> f.table[id].activeContacts == []) &&
      (forall id :: id in table && id !in ids && !table[id].isActive ==> f.table[id] == table[id])
  {
    assert cs[..|cs|] == cs;
    ClassifyLists(table, list, cs, timestamp, |cs|);
    UpdateEnded(table, list, cs, timestamp);
  }

  /** The ended list and the final table of `Pairs.update`. */
  lemma {:induction false} UpdateEnded(table: map<string, Pair>, list: seq<string>, cs: seq<Collision>, timestamp: real)
    requires Consistent(table, list) && Distinct(CollidedIds(cs))
    ensures var f := UpdateFrame(table, list, cs, timestamp);
      var ids := CollidedIds(cs);
      (forall id :: id in f.end <==> id in table && table[id].isActive && id !in ids) &&
      (forall id :: id in f.table <==> id in table || id in ids) &&
      (forall id :: id in f.table ==> (f.table[id].isActive <==> id in ids)) &&
      (forall id :: id in f.end ==> f.table[id].activeContacts == []) &&
      (forall id :: id in table && id !in ids && !table[id].isActive ==> f.table[id] == table[id])
  {
    assert cs[..|cs|] == cs;
    ClassifyShape(table, list, cs, timestamp, |cs|);
    ClassifyTable(table, list, cs, timestamp, |cs|);
    var g := ClassifyUpTo(Frame(table, list, [], [], [], []), cs, timestamp, |cs|);
    ExpiredOutcome(g.table, g.list, g.activeIds, timestamp);
  }

  /** The second loop of `Pairs.update`, pair by pair: exactly the pairs that end are listed and deactivated. */
  lemma {:induction false} ExpiredOutcome(table: map<string, Pair>, list: seq<string>, activeIds: seq<string>, timestamp: real)
    requires Consistent(table, list)
    ensures var t, e := ExpiredTable(table, list, activeIds, timestamp, |list|), EndedPrefix(table, list, activeIds, |list|);
      t.Keys == table.Keys && (forall id :: id in e ==> id in table) &&
      forall id :: id in table ==>
        (id in e <==> Ends(table, activeIds, id)) &&
        t[id] == if Ends(table, activeIds, id) then SetActive(table[id], false, timestamp) else table[id]
  {
    ExpiredFacts(table, list, activeIds, timestamp, |list|);
    EndedPrefixMembers(table, list, activeIds, |list|);
    forall id | id in table
      ensures id in EndedPrefix(table, list, activeIds, |list|) <==> Ends(table, activeIds, id)
      ensures ExpiredTable(table, list, activeIds, timestamp, |list|)[id] ==
        if Ends(table, activeIds, id) then SetActive(table[id], false, timestamp) else table[id]
    {
      var p :| 0 <= p < |list| && list[p] == id;
    }
  }

  lemma {:induction false} ClassifyConsistent(f: Frame, c: Collision, timestamp: real)
    requires Consistent(f.table, f.list)
    ensures Consistent(Classify(f, c, timestamp).table, Classify(f, c, timestamp).list)
  {
    if c.collided {
      var id := CollisionId(c);
      var g := Classify(f, c, timestamp);
      if id !in f.table {
        assert id !in f.list;
        forall i, j | 0 <= i < j < |g.list|
          ensures g.list[i] != g.list[j]
        {
          if j == |f.list| {
            assert g.list[i] == f.list[i];
          }
        }
      }
    }
  }

  // ------------------------------------------------- removeOld bookkeeping

  predicate Ascending(s: seq<nat>)
  {
    forall i, j :: 0 <= i < j < |s| ==> s[i] < s[j]
  }

  /** The elements of the first `m` positions of `s` whose positions are not in `removed`. */
  function Survivors(s: seq<string>, removed: seq<nat>, m: nat): seq<string>
    requires m <= |s|
  {
    if m == 0 then [] else Survivors(s, removed, m - 1) + (if m - 1 in removed then [] else [s[m - 1]])
  }

  lemma {:induction false} SurvivorsFrom(s: seq<string>, removed: seq<nat>, m: nat, m': nat)
    requires m <= m' <= |s|
    requires forall p :: m <= p < m' ==> p !in removed
    ensures Survivors(s, removed, m') == Survivors(s, removed, m) + s[m..m']
    decreases m' - m
  {
    if m' > m {
      SurvivorsFrom(s, removed, m, m' - 1);
      assert s[m..m'] == s[m..m' - 1] + [s[m' - 1]];
    }
  }

  lemma {:induction false} SurvivorsCount(s: seq<string>, idx: seq<nat>, i: nat)
    requires Ascending(idx) && i < |idx| && forall j :: 0 <= j < |idx| ==> idx[j] < |s|
    ensures |Survivors(s, idx, idx[i])| == idx[i] - i
  {
    if i == 0 {
      SurvivorsBeforeFirst(s, idx);
    } else {
      SurvivorsCount(s, idx, i - 1);
      UnmarkedBetween(idx, i - 1, |s|);
      SurvivorsJump(s, idx, idx[i - 1], idx[i]);
    }
  }

  /** Nothing before the first mark is removed. */
  lemma {:induction false} SurvivorsBeforeFirst(s: seq<string>, idx: seq<nat>)
    requires Ascending(idx) && 0 < |idx| && forall j :: 0 <= j < |idx| ==> idx[j] < |s|
    ensures |Survivors(s, idx, idx[0])| == idx[0]
  {
    forall p | 0 <= p < idx[0]
      ensures p !in idx
    {
      forall j | 0 <= j < |idx|
        ensures idx[j] != p
      {
        assert idx[0] <= idx[j];
      }
    }
    SurvivorsFrom(s, idx, 0, idx[0]);
  }

  /** Removing one position from a list without repeats leaves a list without repeats holding the rest. */
  lemma {:induction false} RemoveAt(s: seq<string>, p: nat)
    requires Distinct(s) && p < |s|
    ensures Distinct(s[..p] + s[p + 1..])
    ensures forall k :: k in s[..p] + s[p + 1..] <==> k in s && k != s[p]
  {
    var r := s[..p] + s[p + 1..];
    assert forall j :: 0 <= j < |r| ==> r[j] == s[if j < p then j else j + 1];
    forall k | k in s && k != s[p]
      ensures k in r
    {
      var j :| 0 <= j < |s| && s[j] == k;
      assert r[if j < p then j else j - 1] == k;
    }
  }

  /** The survivors of the positions marked for removal are the kept ids. */
  lemma {:induction false} SurvivorsKept(s: seq<string>, table: map<string, Pair>, removed: seq<nat>,
                                         timestamp: real, sleeping: set<nat>, m: nat)
    requires m <= |s| && forall i :: 0 <= i < |s| ==> s[i] in table
    requires forall p :: 0 <= p < |s| ==> (p in removed <==> !Keep(table[s[p]], timestamp, sleeping))
    ensures Survivors(s, removed, m) == KeptIds(s[..m], table, timestamp, sleeping)
  {
    if m > 0 {
      SurvivorsKept(s, table, removed, timestamp, sleeping, m - 1);
      assert s[..m][..m - 1] == s[..m - 1];
    }
  }
}
