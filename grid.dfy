/**
 * `Grid`: the broadphase. Bodies are hashed into square buckets by their
 * bounds, and `grid.pairs` counts, for every two bodies, the buckets they
 * were last added to together. The pairs with a positive count are the
 * candidates handed to the narrow phase.
 *
 * A body is the record of the fields the grid reads, and bodies are told
 * apart by their ids, as `Common.indexOf` and `===` tell objects apart.
 * The region the grid stores on each body (`body.region`) is kept here in a
 * map from body id to region. `grid.pairs` is a JavaScript object, whose
 * keys keep the order they were inserted in: it is a list of keys and a map.
 */
module Grid {
  import opened Vector
  import opened Ids
  import Common

  /** The fields of a body that the broadphase reads: its id, its two flags and its bounds. */
  datatype Member = Member(id: nat, isStatic: bool, isSleeping: bool, min: Vec, max: Vec)

  /** The columns and rows of buckets a body covers. */
  datatype Region = Region(startCol: int, endCol: int, startRow: int, endRow: int)

  /** `engine.world.bounds`: unbounded by default, or a box. */
  datatype Extent = Everywhere | Within(min: Vec, max: Vec)

  /** An entry `[bodyA, bodyB, count]` of `grid.pairs`. */
  datatype Candidate = Candidate(bodyA: Member, bodyB: Member, count: int)

  /** `grid.pairs`: its keys in insertion order and its entries. */
  datatype Table = Table(keys: seq<string>, entries: map<string, Candidate>)

  /** The grid's own state: `grid.buckets`, `grid.pairs`, and the region of every body it has placed. */
  datatype Data = Data(buckets: map<string, seq<Member>>, table: Table, regions: map<nat, Region>)

  predicate Distinct(s: seq<string>)
  {
    forall i, j :: 0 <= i < j < |s| ==> s[i] != s[j]
  }

  /** The keys are listed once each and are exactly the keys of the entries. */
  predicate TableValid(t: Table)
  {
    Distinct(t.keys) && t.entries.Keys == set k | k in t.keys
  }

  /** The count of the pair with key `k`; an absent pair counts 0. */
  function Count(t: Table, k: string): int
  {
    if k in t.entries then t.entries[k].count else 0
  }

  // --------------------------------------------------------- adding a body

  /** Pairs `_bucketAddBody` does not count: a body with itself, and two static bodies. */
  predicate Skipped(body: Member, other: Member)
  {
    body.id == other.id || (body.isStatic && other.isStatic)
  }

  /** One iteration of the loop of `_bucketAddBody`: count the pair once more, or insert it with count 1. */
  function Bump(t: Table, body: Member, other: Member): Table
  {
    if Skipped(body, other) then t
    else
      var k := PairId(body.id, other.id);
      if k in t.entries then Table(t.keys, t.entries[k := t.entries[k].(count := t.entries[k].count + 1)])
      else Table(t.keys + [k], t.entries[k := Candidate(body, other, 1)])
  }

  /** The pair table after the loop of `_bucketAddBody` has met the first `n` occupants. */
  function Added(t: Table, bucket: seq<Member>, body: Member, n: nat): (r: Table)
    requires n <= |bucket|
    ensures TableValid(t) ==> TableValid(r)
  {
    if n == 0 then t
    else
      var v := Added(t, bucket, body, n - 1);
      assert TableValid(t) ==> TableValid(Bump(v, body, bucket[n - 1])) by {
        if TableValid(v) {
          BumpValid(v, body, bucket[n - 1]);
        }
      }
      Bump(v, body, bucket[n - 1])
  }

  lemma {:induction false} BumpValid(t: Table, body: Member, other: Member)
    requires TableValid(t)
    ensures TableValid(Bump(t, body, other))
  {
  }

  /** How many of the first `n` occupants make, with `body`, a counted pair with key `k`. */
  function Matches(bucket: seq<Member>, body: Member, k: string, n: nat): nat
    requires n <= |bucket|
  {
    if n == 0 then 0
    else Matches(bucket, body, k, n - 1) + if !Skipped(body, bucket[n - 1]) && PairId(body.id, bucket[n - 1].id) == k then 1 else 0
  }

  /**
   * Adding a body to a bucket raises the count of every pair key by the
   * number of occupants that form that pair with it, and a key is in the
   * table afterwards exactly when it was before or some occupant forms it.
   */
  lemma {:induction false} AddedCount(t: Table, bucket: seq<Member>, body: Member, n: nat, k: string)
    requires n <= |bucket|
    ensures Count(Added(t, bucket, body, n), k) == Count(t, k) + Matches(bucket, body, k, n)
    ensures k in Added(t, bucket, body, n).entries <==> k in t.entries || Matches(bucket, body, k, n) > 0
  {
    if n > 0 {
      AddedCount(t, bucket, body, n - 1, k);
    }
  }

  /** Adding a body keeps the keys already there in their order and the bodies of every pair already there. */
  lemma {:induction false} AddedKeepsOrder(t: Table, bucket: seq<Member>, body: Member, n: nat)
    requires n <= |bucket|
    ensures var r := Added(t, bucket, body, n);
      |t.keys| <= |r.keys| && r.keys[..|t.keys|] == t.keys &&
      forall k :: k in t.entries ==> k in r.entries && r.entries[k].bodyA == t.entries[k].bodyA && r.entries[k].bodyB == t.entries[k].bodyB
  {
    if n > 0 {
      AddedKeepsOrder(t, bucket, body, n - 1);
      var v := Added(t, bucket, body, n - 1);
      assert (v.keys + [PairId(body.id, bucket[n - 1].id)])[..|t.keys|] == v.keys[..|t.keys|];
    }
  }

  // ------------------------------------------------------- removing a body

  /** `bucket.splice(i, 1)` for `i` from `Common.indexOf`: an index of -1 removes the last element. */
  function Spliced(bucket: seq<Member>, i: int): seq<Member>
    requires -1 <= i < |bucket|
  {
    if i == -1 then (if bucket == [] then [] else bucket[..|bucket| - 1]) else bucket[..i] + bucket[i + 1..]
  }

  function IdsOf(bucket: seq<Member>): (r: seq<nat>)
    ensures |r| == |bucket| && forall i :: 0 <= i < |bucket| ==> r[i] == bucket[i].id
  {
    if bucket == [] then [] else IdsOf(bucket[..|bucket| - 1]) + [bucket[|bucket| - 1].id]
  }

  /** The bucket after `_bucketRemoveBody` has taken `body` out. */
  function Without(bucket: seq<Member>, body: Member): seq<Member>
  {
    Spliced(bucket, Common.Position(IdsOf(bucket), body.id))
  }

  /** One iteration of the loop of `_bucketRemoveBody`: count an existing pair once less. */
  function Drop(t: Table, body: Member, other: Member): Table
  {
    var k := PairId(body.id, other.id);
    if k in t.entries then Table(t.keys, t.entries[k := t.entries[k].(count := t.entries[k].count - 1)]) else t
  }

  /** The pair table after the loop of `_bucketRemoveBody` has met the first `n` remaining occupants. */
  function Dropped(t: Table, bucket: seq<Member>, body: Member, n: nat): (r: Table)
    requires n <= |bucket|
    ensures r.keys == t.keys && r.entries.Keys == t.entries.Keys
  {
    if n == 0 then t else Drop(Dropped(t, bucket, body, n - 1), body, bucket[n - 1])
  }

  /** How many of the first `n` occupants form, with `body`, the pair key `k`, whatever their flags. */
  function Hits(bucket: seq<Member>, body: Member, k: string, n: nat): nat
    requires n <= |bucket|
  {
    if n == 0 then 0 else Hits(bucket, body, k, n - 1) + if PairId(body.id, bucket[n - 1].id) == k then 1 else 0
  }

  /** Removing a body lowers the count of every pair in the table by the number of remaining occupants forming it; absent pairs stay absent. */
  lemma {:induction false} DroppedCount(t: Table, bucket: seq<Member>, body: Member, n: nat, k: string)
    requires n <= |bucket|
    ensures Count(Dropped(t, bucket, body, n), k) == if k in t.entries then Count(t, k) - Hits(bucket, body, k, n) else 0
  {
    if n > 0 {
      DroppedCount(t, bucket, body, n - 1, k);
    }
  }

  /** The splice takes out the first occupant with the body's id, or, when there is none, the last occupant. */
  lemma {:induction false} WithoutRemoves(bucket: seq<Member>, body: Member)
    ensures var i := Common.Position(IdsOf(bucket), body.id);
      (i >= 0 ==> bucket[i].id == body.id && Without(bucket, body) == bucket[..i] + bucket[i + 1..] &&
                  forall j :: 0 <= j < i ==> bucket[j].id != body.id) &&
      (i == -1 ==> (forall j :: 0 <= j < |bucket| ==> bucket[j].id != body.id) &&
                   Without(bucket, body) == if bucket == [] then [] else bucket[..|bucket| - 1])
  {
    var ids := IdsOf(bucket);
    var i := Common.Position(ids, body.id);
    if i >= 0 {
      forall j | 0 <= j < i ensures bucket[j].id != body.id {
        assert ids[..i][j] == ids[j];
      }
    } else {
      forall j | 0 <= j < |bucket| ensures bucket[j].id != body.id {
        assert ids[j] in ids;
      }
    }
  }

  // --------------------------------------------------- the active pair list

  /** The keys among the first `n` with a positive count, in order. */
  function Kept(t: Table, n: nat): (r: seq<string>)
    requires TableValid(t) && n <= |t.keys|
    ensures forall i :: 0 <= i < |r| ==> r[i] in t.entries && t.entries[r[i]].count > 0
  {
    if n == 0 then []
    else
      var k := t.keys[n - 1];
      assert t.keys[..n] == t.keys[..n - 1] + [k];
      if t.entries[k].count > 0 then Kept(t, n - 1) + [k] else Kept(t, n - 1)
  }

  /** The entries among the first `n` keys with a positive count, in order. */
  function Listed(t: Table, n: nat): seq<Candidate>
    requires TableValid(t) && n <= |t.keys|
  {
    if n == 0 then []
    else
      var c := t.entries[t.keys[n - 1]];
      if c.count > 0 then Listed(t, n - 1) + [c] else Listed(t, n - 1)
  }

  /** The keys among the first `n` whose count is not positive: those the loop of `_createActivePairsList` deletes. */
  function Gone(t: Table, n: nat): (r: set<string>)
    requires TableValid(t) && n <= |t.keys|
    ensures forall k :: k in r <==> k in t.keys[..n] && t.entries[k].count <= 0
  {
    if n == 0 then {}
    else
      var k := t.keys[n - 1];
      assert t.keys[..n] == t.keys[..n - 1] + [k];
      if t.entries[k].count > 0 then Gone(t, n - 1) else Gone(t, n - 1) + {k}
  }

  /** `grid.pairs` after `_createActivePairsList` has deleted every pair whose count is not positive. */
  function Purged(t: Table): Table
    requires TableValid(t)
  {
    Table(Kept(t, |t.keys|), t.entries - Gone(t, |t.keys|))
  }

  /** The ordered object without key `k`: what `delete` does to it. */
  function Delete(t: Table, k: string): Table
  {
    Table(Filtered(t.keys, k), t.entries - {k})
  }

  function Filtered(keys: seq<string>, k: string): (r: seq<string>)
    ensures forall x :: x in r <==> x in keys && x != k
  {
    if keys == [] then [] else if keys[0] == k then Filtered(keys[1..], k) else [keys[0]] + Filtered(keys[1..], k)
  }

  lemma {:induction false} FilteredAbsent(keys: seq<string>, k: string)
    requires k !in keys
    ensures Filtered(keys, k) == keys
  {
    if keys != [] {
      FilteredAbsent(keys[1..], k);
    }
  }

  /** The rebuilt list is exactly the entries with a positive count, in key order, and every other entry is deleted. */
  lemma {:induction false} ListedExactly(t: Table, n: nat)
    requires TableValid(t) && n <= |t.keys|
    ensures var r, ks := Listed(t, n), Kept(t, n);
      |r| == |ks| && forall i :: 0 <= i < |r| ==> r[i] == t.entries[ks[i]] && r[i].count > 0
  {
    if n > 0 {
      ListedExactly(t, n - 1);
    }
  }

  /** The kept keys are, in order and once each, the first `n` keys with a positive count. */
  lemma {:induction false} KeptExactly(t: Table, n: nat)
    requires TableValid(t) && n <= |t.keys|
    ensures forall k :: k in Kept(t, n) <==> k in t.keys[..n] && t.entries[k].count > 0
    ensures Distinct(Kept(t, n))
  {
    if n > 0 {
      KeptExactly(t, n - 1);
      assert t.keys[..n] == t.keys[..n - 1] + [t.keys[n - 1]];
    }
  }

  /** After the whole loop the table holds exactly the pairs with a positive count, in their old order. */
  lemma {:induction false} PurgedAll(t: Table)
    requires TableValid(t)
    ensures var p := Purged(t);
      TableValid(p) && forall k :: k in p.entries <==> k in t.entries && t.entries[k].count > 0
  {
    KeptExactly(t, |t.keys|);
    assert t.keys[..|t.keys|] == t.keys;
  }

  // ---------------------------------------------------------------- regions

  /** `Grid._getRegion`: the columns and rows the body's bounds fall in. */
  function RegionOf(body: Member, width: real, height: real): Region
    requires width > 0.0 && height > 0.0
  {
    Region((body.min.x / width).Floor, (body.max.x / width).Floor, (body.min.y / height).Floor, (body.max.y / height).Floor)
  }

  /** `Grid._regionUnion`: the smallest region covering both. */
  function Union(a: Region, b: Region): Region
  {
    Region(if a.startCol < b.startCol then a.startCol else b.startCol,
           if a.endCol > b.endCol then a.endCol else b.endCol,
           if a.startRow < b.startRow then a.startRow else b.startRow,
           if a.endRow > b.endRow then a.endRow else b.endRow)
  }

  predicate InRegion(r: Region, col: int, row: int)
  {
    r.startCol <= col <= r.endCol && r.startRow <= row <= r.endRow
  }

  /** `region.id`, the string `Grid.update` compares. */
  function RegionKey(r: Region): string
  {
    RegionId(r.startCol, r.endCol, r.startRow, r.endRow)
  }

  /** A body whose bounds lie wholly outside the world is not placed. */
  predicate Outside(body: Member, world: Extent)
  {
    world.Within? &&
    (body.max.x < world.min.x || body.min.x > world.max.x || body.max.y < world.min.y || body.min.y > world.max.y)
  }

  /** The number of columns, and of rows, the grid walks over a region. */
  function Cols(r: Region): nat
  {
    if r.endCol >= r.startCol then r.endCol - r.startCol + 1 else 0
  }

  function Rows(r: Region): nat
  {
    if r.endRow >= r.startRow then r.endRow - r.startRow + 1 else 0
  }

  // ----------------------------------------------------------- Grid.update

  /** `_bucketAddBody` on the bucket with key `id`. */
  function AddBody(d: Data, id: string, body: Member): (r: Data)
    requires id in d.buckets
    ensures TableValid(d.table) ==> TableValid(r.table)
  {
    var bucket := d.buckets[id];
    d.(table := Added(d.table, bucket, body, |bucket|), buckets := d.buckets[id := bucket + [body]])
  }

  /** `_bucketRemoveBody` on the bucket with key `id`. */
  function RemoveBody(d: Data, id: string, body: Member): (r: Data)
    requires id in d.buckets
    ensures TableValid(d.table) ==> TableValid(r.table)
  {
    var bucket := Without(d.buckets[id], body);
    d.(table := Dropped(d.table, bucket, body, |bucket|), buckets := d.buckets[id := bucket])
  }

  /**
   * The body of the inner loop of `Grid.update` at one bucket: leave a
   * bucket of the old region only, and join a bucket of the new region only,
   * or every bucket of the new region when `renew` (the region was just
   * assigned, or the update is forced).
   */
  function Cell(d: Data, body: Member, col: int, row: int, newRegion: Region, oldRegion: Region, renew: bool): (r: Data)
    ensures TableValid(d.table) ==> TableValid(r.table)
  {
    var id := BucketId(col, row);
    var inNew, inOld := InRegion(newRegion, col, row), InRegion(oldRegion, col, row);
    var d1 := if !inNew && inOld && id in d.buckets then RemoveBody(d, id, body) else d;
    if renew || (inNew && !inOld) then
      AddBody(if id in d1.buckets then d1 else d1.(buckets := d1.buckets[id := []]), id, body)
    else d1
  }

  /** The grid after the first `n` rows of column `col` of region `u`. */
  function AlongColumn(d: Data, body: Member, col: int, u: Region, newRegion: Region, oldRegion: Region, renew: bool, n: nat): (r: Data)
    ensures TableValid(d.table) ==> TableValid(r.table)
  {
    if n == 0 then d
    else Cell(AlongColumn(d, body, col, u, newRegion, oldRegion, renew, n - 1), body, col, u.startRow + n - 1, newRegion, oldRegion, renew)
  }

  /** The grid after the first `m` columns of region `u`. */
  function AcrossRegion(d: Data, body: Member, u: Region, newRegion: Region, oldRegion: Region, renew: bool, m: nat): (r: Data)
    ensures TableValid(d.table) ==> TableValid(r.table)
  {
    if m == 0 then d
    else AlongColumn(AcrossRegion(d, body, u, newRegion, oldRegion, renew, m - 1), body, u.startCol + m - 1, u, newRegion, oldRegion, renew, Rows(u))
  }

  /** Whether `Grid.update` re-places the body: it has no region, its region changed, or the update is forced. */
  predicate Moves(d: Data, body: Member, world: Extent, forceUpdate: bool, width: real, height: real)
    requires width > 0.0 && height > 0.0
  {
    !(body.isSleeping && !forceUpdate) && !Outside(body, world) &&
    (body.id !in d.regions || RegionKey(RegionOf(body, width, height)) != RegionKey(d.regions[body.id]) || forceUpdate)
  }

  /** One iteration of the loop of `Grid.update` over the bodies. */
  function Place(d: Data, body: Member, world: Extent, forceUpdate: bool, width: real, height: real): (r: Data)
    requires width > 0.0 && height > 0.0
    ensures TableValid(d.table) ==> TableValid(r.table)
  {
    if !Moves(d, body, world, forceUpdate, width, height) then d
    else
      var newRegion := RegionOf(body, width, height);
      var renew := body.id !in d.regions || forceUpdate;
      var oldRegion := if renew then newRegion else d.regions[body.id];
      var u := Union(newRegion, oldRegion);
      var e := AcrossRegion(d, body, u, newRegion, oldRegion, renew, Cols(u));
      e.(regions := e.regions[body.id := newRegion])
  }

  /** The grid after the loop of `Grid.update` has met the first `n` bodies. */
  function Placed(d: Data, bodies: seq<Member>, world: Extent, forceUpdate: bool, width: real, height: real, n: nat): (r: Data)
    requires width > 0.0 && height > 0.0 && n <= |bodies|
    ensures TableValid(d.table) ==> TableValid(r.table)
  {
    if n == 0 then d else Place(Placed(d, bodies, world, forceUpdate, width, height, n - 1), bodies[n - 1], world, forceUpdate, width, height)
  }

  /** Whether any of the first `n` bodies was re-placed, so that the pair list is rebuilt. */
  predicate Changed(d: Data, bodies: seq<Member>, world: Extent, forceUpdate: bool, width: real, height: real, n: nat)
    requires width > 0.0 && height > 0.0 && n <= |bodies|
  {
    n > 0 &&
    (Changed(d, bodies, world, forceUpdate, width, height, n - 1) ||
     Moves(Placed(d, bodies, world, forceUpdate, width, height, n - 1), bodies[n - 1], world, forceUpdate, width, height))
  }

  // ------------------------------------------------------------- the class

  class Grid {
    var data: Data
    /** `grid.pairsList`: the pairs handed to the narrow phase. */
    var pairsList: seq<Candidate>
    const bucketWidth: real
    const bucketHeight: real

    predicate Valid()
      reads this
    {
      bucketWidth > 0.0 && bucketHeight > 0.0 && TableValid(data.table)
    }

    /** `Grid.create`: empty, with the given bucket size (48 by 48 by default). */
    constructor (bucketWidth: real, bucketHeight: real)
      requires bucketWidth > 0.0 && bucketHeight > 0.0
      ensures Valid() && this.bucketWidth == bucketWidth && this.bucketHeight == bucketHeight
      ensures data == Data(map[], Table([], map[]), map[]) && pairsList == []
    {
      this.bucketWidth := bucketWidth;
      this.bucketHeight := bucketHeight;
      data := Data(map[], Table([], map[]), map[]);
      pairsList := [];
    }

    /** `Grid.clear`: no buckets, no pairs and an empty list; the regions stored on the bodies stay. */
    method Clear()
      requires Valid()
      modifies this
      ensures Valid()
      ensures data == Data(map[], Table([], map[]), old(data.regions)) && pairsList == []
    {
      data := data.(buckets := map[], table := Table([], map[]));
      pairsList := [];
    }

    /** `Grid._bucketAddBody`: count the pair of `body` with every occupant, then append it. */
    method BucketAddBody(id: string, body: Member)
      requires Valid() && id in data.buckets
      modifies this`data
      ensures Valid()
      ensures data == AddBody(old(data), id, body)
    {
      var bucket := data.buckets[id];
      var pairs := AddPairs(data.table, bucket, body);
      data := data.(table := pairs, buckets := data.buckets[id := bucket + [body]]);
    }

    /** `Grid._bucketRemoveBody`: splice the body out, then count its pair with every remaining occupant once less. */
    method BucketRemoveBody(id: string, body: Member)
      requires Valid() && id in data.buckets
      modifies this`data
      ensures Valid()
      ensures data == RemoveBody(old(data), id, body)
    {
      var at := Common.IndexOf(IdsOf(data.buckets[id]), body.id);
      var bucket := Spliced(data.buckets[id], at);
      var pairs := DropPairs(data.table, bucket, body);
      data := data.(buckets := data.buckets[id := bucket], table := pairs);
    }

    /** `Grid._createActivePairsList`: the pairs with a positive count, in key order; every other pair is deleted. */
    method CreateActivePairsList() returns (pairs: seq<Candidate>)
      requires Valid()
      modifies this`data
      ensures Valid()
      ensures data == old(data).(table := Purged(old(data.table)))
      ensures pairs == Listed(old(data.table), |old(data.table.keys)|)
    {
      var table;
      PurgedAll(data.table);
      table, pairs := ActivePairs(data.table);
      data := data.(table := table);
    }

    /** The body of the inner loop of `Grid.update` at one bucket. */
    method UpdateCell(body: Member, col: int, row: int, newRegion: Region, oldRegion: Region, renew: bool)
      requires Valid()
      modifies this`data
      ensures Valid()
      ensures data == Cell(old(data), body, col, row, newRegion, oldRegion, renew)
    {
      var bucketId := BucketId(col, row);
      var isInsideNewRegion := col >= newRegion.startCol && col <= newRegion.endCol && row >= newRegion.startRow && row <= newRegion.endRow;
      var isInsideOldRegion := col >= oldRegion.startCol && col <= oldRegion.endCol && row >= oldRegion.startRow && row <= oldRegion.endRow;
      if !isInsideNewRegion && isInsideOldRegion && bucketId in data.buckets {
        BucketRemoveBody(bucketId, body);
      }
      if renew || (isInsideNewRegion && !isInsideOldRegion) {
        if bucketId !in data.buckets {
          data := data.(buckets := data.buckets[bucketId := []]);
        }
        BucketAddBody(bucketId, body);
      }
    }

    /** The two nested loops of `Grid.update` over the union of the new and the old region. */
    method UpdateRegion(body: Member, u: Region, newRegion: Region, oldRegion: Region, renew: bool)
      requires Valid()
      modifies this`data
      ensures Valid()
      ensures data == AcrossRegion(old(data), body, u, newRegion, oldRegion, renew, Cols(u))
    {
      var col := u.startCol;
      while col <= u.endCol
        invariant u.startCol <= col <= if Cols(u) == 0 then u.startCol else u.endCol + 1
        invariant Valid()
        invariant data == AcrossRegion(old(data), body, u, newRegion, oldRegion, renew, col - u.startCol)
        decreases u.endCol - col
      {
        ghost var m := col - u.startCol;
        UpdateColumn(body, col, u, newRegion, oldRegion, renew);
        assert data == AcrossRegion(old(data), body, u, newRegion, oldRegion, renew, m + 1);
        col := col + 1;
      }
    }

    /** The inner loop of `Grid.update`: the rows of one column of the region. */
    method UpdateColumn(body: Member, col: int, u: Region, newRegion: Region, oldRegion: Region, renew: bool)
      requires Valid()
      modifies this`data
      ensures Valid()
      ensures data == AlongColumn(old(data), body, col, u, newRegion, oldRegion, renew, Rows(u))
    {
      var row := u.startRow;
      while row <= u.endRow
        invariant u.startRow <= row <= if Rows(u) == 0 then u.startRow else u.endRow + 1
        invariant Valid()
        invariant data == AlongColumn(old(data), body, col, u, newRegion, oldRegion, renew, row - u.startRow)
        decreases u.endRow - row
      {
        UpdateCell(body, col, row, newRegion, oldRegion, renew);
        row := row + 1;
      }
    }

    /** One iteration of the loop of `Grid.update` over the bodies. */
    method PlaceBody(body: Member, world: Extent, forceUpdate: bool) returns (changed: bool)
      requires Valid()
      modifies this`data
      ensures Valid()
      ensures data == Place(old(data), body, world, forceUpdate, bucketWidth, bucketHeight)
      ensures changed == Moves(old(data), body, world, forceUpdate, bucketWidth, bucketHeight)
    {
      changed := false;
      if body.isSleeping && !forceUpdate {
        return;
      }
      if world.Within? &&
         (body.max.x < world.min.x || body.min.x > world.max.x || body.max.y < world.min.y || body.min.y > world.max.y) {
        return;
      }
      var newRegion := Region((body.min.x / bucketWidth).Floor, (body.max.x / bucketWidth).Floor,
                              (body.min.y / bucketHeight).Floor, (body.max.y / bucketHeight).Floor);
      if body.id !in data.regions || RegionKey(newRegion) != RegionKey(data.regions[body.id]) || forceUpdate {
        var renew := body.id !in data.regions || forceUpdate;
        var oldRegion := if renew then newRegion else data.regions[body.id];
        var union := Union(newRegion, oldRegion);
        UpdateRegion(body, union, newRegion, oldRegion, renew);
        data := data.(regions := data.regions[body.id := newRegion]);
        changed := true;
      }
    }

    /** `Grid.update`: place every body in turn, then rebuild the pair list if any body moved. */
    method Update(bodies: seq<Member>, world: Extent, forceUpdate: bool)
      requires Valid()
      modifies this
      ensures Valid()
      ensures var d := Placed(old(data), bodies, world, forceUpdate, bucketWidth, bucketHeight, |bodies|);
        if Changed(old(data), bodies, world, forceUpdate, bucketWidth, bucketHeight, |bodies|) then
          data == d.(table := Purged(d.table)) && pairsList == Listed(d.table, |d.table.keys|)
        else
          data == d && pairsList == old(pairsList)
    {
      var gridChanged := false;
      for i := 0 to |bodies|
        invariant Valid()
        invariant data == Placed(old(data), bodies, world, forceUpdate, bucketWidth, bucketHeight, i)
        invariant gridChanged == Changed(old(data), bodies, world, forceUpdate, bucketWidth, bucketHeight, i)
        invariant pairsList == old(pairsList)
      {
        var moved := PlaceBody(bodies[i], world, forceUpdate);
        gridChanged := gridChanged || moved;
      }
      if gridChanged {
        pairsList := CreateActivePairsList();
      }
    }
  }

  /** The loop of `_bucketAddBody` on the pair table. */
  method AddPairs(t: Table, bucket: seq<Member>, body: Member) returns (pairs: Table)
    ensures pairs == Added(t, bucket, body, |bucket|)
  {
    pairs := t;
    for i := 0 to |bucket|
      invariant pairs == Added(t, bucket, body, i)
    {
      var bodyB := bucket[i];
      if body.id == bodyB.id || (body.isStatic && bodyB.isStatic) {
        continue;
      }
      var pairId := PairId(body.id, bodyB.id);
      if pairId in pairs.entries {
        var pair := pairs.entries[pairId];
        pairs := Table(pairs.keys, pairs.entries[pairId := pair.(count := pair.count + 1)]);
      } else {
        pairs := Table(pairs.keys + [pairId], pairs.entries[pairId := Candidate(body, bodyB, 1)]);
      }
    }
  }

  /** The loop of `_bucketRemoveBody` on the pair table. */
  method DropPairs(t: Table, bucket: seq<Member>, body: Member) returns (pairs: Table)
    ensures pairs == Dropped(t, bucket, body, |bucket|)
  {
    pairs := t;
    for i := 0 to |bucket|
      invariant pairs == Dropped(t, bucket, body, i)
    {
      var pairId := PairId(body.id, bucket[i].id);
      if pairId in pairs.entries {
        var pair := pairs.entries[pairId];
        pairs := Table(pairs.keys, pairs.entries[pairId := pair.(count := pair.count - 1)]);
      }
    }
  }

  /** The loop of `_createActivePairsList` on the pair table: the listed pairs and the table left. */
  method ActivePairs(t: Table) returns (table: Table, pairs: seq<Candidate>)
    requires TableValid(t)
    ensures table == Purged(t) && pairs == Listed(t, |t.keys|)
  {
    var pairKeys := t.keys;
    table := t;
    pairs := [];
    for k := 0 to |pairKeys|
      invariant table.keys == Kept(t, k) + t.keys[k..]
      invariant table.entries == t.entries - Gone(t, k)
      invariant pairs == Listed(t, k)
    {
      var key := pairKeys[k];
      PurgedStep(t, k);
      var pair := table.entries[key];
      if pair.count > 0 {
        pairs := pairs + [pair];
      } else {
        FilteredOut(Kept(t, k), key, t.keys[k + 1..]);
        table := Delete(table, key);
        assert table.entries == t.entries - Gone(t, k + 1);
      }
    }
    assert t.keys[|pairKeys|..] == [];
  }

  /** The key the loop of `_createActivePairsList` meets at step `k` is still in the table, and met only once. */
  lemma {:induction false} PurgedStep(t: Table, k: nat)
    requires TableValid(t) && k < |t.keys|
    ensures var key := t.keys[k];
      key in t.entries && key !in Gone(t, k) && key !in Kept(t, k) && key !in t.keys[k + 1..] &&
      t.keys[k..] == [key] + t.keys[k + 1..]
  {
    var key := t.keys[k];
    KeptExactly(t, k);
    assert t.keys[k..] == [key] + t.keys[k + 1..];
    assert key !in t.keys[..k];
    assert key !in t.keys[k + 1..];
  }

  /** Deleting a key listed once takes out just that key. */
  lemma {:induction false} FilteredOut(a: seq<string>, key: string, b: seq<string>)
    requires key !in a && key !in b
    ensures Filtered(a + ([key] + b), key) == a + b
  {
    FilteredConcat(a, [key] + b, key);
    FilteredAbsent(a, key);
    FilteredAbsent(b, key);
    assert ([key] + b)[1..] == b;
  }

  lemma {:induction false} FilteredConcat(a: seq<string>, b: seq<string>, k: string)
    ensures Filtered(a + b, k) == Filtered(a, k) + Filtered(b, k)
  {
    if a == [] {
      assert a + b == b;
    } else {
      assert (a + b)[0] == a[0] && (a + b)[1..] == a[1..] + b;
      FilteredConcat(a[1..], b, k);
    }
  }

  /** A body's region covers its bounds: each corner lies in the bucket of its column and row. */
  lemma {:induction false} RegionCovers(body: Member, width: real, height: real)
    requires width > 0.0 && height > 0.0
    ensures var r := RegionOf(body, width, height);
      r.startCol as real * width <= body.min.x < (r.startCol as real + 1.0) * width &&
      r.endCol as real * width <= body.max.x < (r.endCol as real + 1.0) * width
  {
    FloorCovers(body.min.x, width);
    FloorCovers(body.max.x, width);
  }

  /** The bucket `(x / w).Floor` starts at or before `x` and ends after it. */
  lemma {:induction false} FloorCovers(x: real, w: real)
    requires w > 0.0
    ensures (x / w).Floor as real * w <= x < ((x / w).Floor as real + 1.0) * w
  {
    var a := x / w;
    var f := a.Floor as real;
    assert a * w == x;
    assert f <= a < f + 1.0;
    MulMono(f, a, w);
    MulMono(a, f + 1.0, w);
    assert x < (f + 1.0) * w;
  }

  lemma {:induction false} MulMono(x: real, y: real, w: real)
    requires w > 0.0
    ensures x <= y ==> x * w <= y * w
    ensures x < y ==> x * w < y * w
  {
  }

  /** The union covers both regions, so the walk meets every bucket the body leaves or joins. */
  lemma {:induction false} UnionCovers(a: Region, b: Region, col: int, row: int)
    ensures InRegion(a, col, row) || InRegion(b, col, row) ==> InRegion(Union(a, b), col, row)
  {
  }

  /** Comparing region ids, as `Grid.update` does, is comparing regions. */
  lemma {:induction false} RegionKeyInjective(a: Region, b: Region)
    ensures RegionKey(a) == RegionKey(b) <==> a == b
  {
    RegionIdInjective(a.startCol, a.endCol, a.startRow, a.endRow, b.startCol, b.endCol, b.startRow, b.endRow);
  }
}
