/**
 * `Composite`: the tree of composites that holds a world's bodies,
 * constraints and child composites, and the operations that add to it,
 * remove from it, clear it, flag it modified and collect its bodies.
 *
 * A composite is a value `Tree`, which holds its child composites, and
 * the world holds the root. A composite inside the world is addressed by
 * its path of child indexes from the root, so the `parent` links the source
 * follows upward are the prefixes of that path. Bodies, constraints and
 * composites are told apart by their ids, as `Common.indexOf` and `===` tell
 * the objects apart. A constraint is its id.
 */
module Composite {
  import opened Wrappers
  import Common

  /** A body as a composite holds it: its id, whether it is static, and whether it is a part of a compound body (`body.parent !== body`). */
  datatype BodyRef = BodyRef(id: nat, isStatic: bool, isPart: bool)

  datatype Tree = Tree(id: nat, isModified: bool, bodies: seq<BodyRef>, constraints: seq<nat>, composites: seq<Tree>)

  /** An object given to `Composite.add` or `Composite.remove`, by its `type`; any other type is passed over. */
  datatype Item =
    | BodyItem(body: BodyRef)
    | ConstraintItem(constraint: nat)
    | CompositeItem(composite: Tree)
    | MouseConstraintItem(constraint: nat)
    | OtherItem

  /** The three lists of a composite. */
  datatype Kind = Bodies | Constraints | Composites

  /** `Composite.create`: empty and not modified. */
  function Create(id: nat): Tree
  {
    Tree(id, false, [], [], [])
  }

  // ---------------------------------------------------------- allBodies

  /** `Composite.allBodies`: the composite's own bodies, then those of each child composite in turn. */
  function AllBodies(t: Tree): seq<BodyRef>
  {
    t.bodies + AllBodiesOf(t.composites)
  }

  function AllBodiesOf(cs: seq<Tree>): seq<BodyRef>
  {
    if cs == [] then [] else AllBodiesOf(cs[..|cs| - 1]) + AllBodies(cs[|cs| - 1])
  }

  /** The loop of `Composite.allBodies`, with its recursive calls. */
  method CollectBodies(t: Tree) returns (bodies: seq<BodyRef>)
    ensures bodies == AllBodies(t)
  {
    bodies := t.bodies;
    for i := 0 to |t.composites|
      invariant bodies == t.bodies + AllBodiesOf(t.composites[..i])
    {
      var more := CollectBodies(t.composites[i]);
      assert t.composites[..i + 1][..i] == t.composites[..i];
      bodies := bodies + more;
    }
    assert t.composites[..|t.composites|] == t.composites;
  }

  // -------------------------------------------------------------- paths

  /** `p` leads from `t` down to one of its composites. */
  predicate ValidPath(t: Tree, p: seq<nat>)
  {
    p == [] || (p[0] < |t.composites| && ValidPath(t.composites[p[0]], p[1..]))
  }

  /** The composite `p` leads to. */
  function At(t: Tree, p: seq<nat>): Tree
    requires ValidPath(t, p)
  {
    if p == [] then t else At(t.composites[p[0]], p[1..])
  }

  /**
   * `t` with the composite at `p` replaced by `s`. When `mark` holds a flag,
   * every composite above it gets that flag, as `Composite.setModified`
   * does when it follows `parent` upward.
   */
  function Put(t: Tree, p: seq<nat>, s: Tree, mark: Option<bool>): (r: Tree)
    requires ValidPath(t, p)
    ensures ValidPath(r, p) && At(r, p) == s
    ensures p != [] ==> r.id == t.id && r.bodies == t.bodies && r.constraints == t.constraints && |r.composites| == |t.composites|
  {
    if p == [] then s
    else
      t.(composites := t.composites[p[0] := Put(t.composites[p[0]], p[1..], s, mark)],
         isModified := if mark.Some? then mark.value else t.isModified)
  }

  /** The flag `setModified(composite, true, true, false)` passes upward when something was changed. */
  function Flag(hit: bool): Option<bool>
  {
    if hit then Some(true) else None
  }

  // -------------------------------------------------------- setModified

  /** `t` and every composite below it flagged `v`. */
  function Flagged(t: Tree, v: bool): Tree
  {
    t.(isModified := v, composites := FlaggedAll(t.composites, v))
  }

  function FlaggedAll(cs: seq<Tree>, v: bool): (r: seq<Tree>)
    ensures |r| == |cs| && forall i :: 0 <= i < |cs| ==> r[i] == Flagged(cs[i], v)
  {
    if cs == [] then [] else FlaggedAll(cs[..|cs| - 1], v) + [Flagged(cs[|cs| - 1], v)]
  }

  /** Every composite of `t` is flagged `v`. */
  predicate AllFlagged(t: Tree, v: bool)
  {
    t.isModified == v && forall i :: 0 <= i < |t.composites| ==> AllFlagged(t.composites[i], v)
  }

  /**
   * `Composite.setModified` on the composite at `p`: it is flagged, and so
   * are its parents when `updateParents` and all of its descendants when
   * `updateChildren`. With both, the source calls back and forth between a
   * composite and its parent without end unless the composite is the root
   * and has no children.
   */
  function Modified(t: Tree, p: seq<nat>, isModified: bool, updateParents: bool, updateChildren: bool): (r: Tree)
    requires ValidPath(t, p)
    requires !(updateParents && updateChildren) || (p == [] && At(t, p).composites == [])
    ensures ValidPath(r, p) && At(r, p).isModified == isModified
  {
    var n := At(t, p);
    Put(t, p, if updateChildren then Flagged(n, isModified) else n.(isModified := isModified),
        if updateParents then Some(isModified) else None)
  }

  /** The loop of `setModified` over the children, with its recursive calls. */
  method FlagAll(t: Tree, v: bool) returns (r: Tree)
    ensures r == Flagged(t, v)
  {
    var cs := [];
    for i := 0 to |t.composites|
      invariant cs == FlaggedAll(t.composites[..i], v)
    {
      var c := FlagAll(t.composites[i], v);
      assert t.composites[..i + 1][..i] == t.composites[..i];
      cs := cs + [c];
    }
    assert t.composites[..|t.composites|] == t.composites;
    r := t.(isModified := v, composites := cs);
  }

  // ---------------------------------------------------------------- add

  /** One object given to `Composite.add`, added to composite `n`, and whether `n` changed. */
  function AddTo(n: Tree, item: Item): (Tree, bool)
  {
    match item
    case BodyItem(b) => if b.isPart then (n, false) else (n.(bodies := n.bodies + [b], isModified := true), true)
    case ConstraintItem(c) => (n.(constraints := n.constraints + [c], isModified := true), true)
    case CompositeItem(c) => (n.(composites := n.composites + [c], isModified := true), true)
    case MouseConstraintItem(c) => (n.(constraints := n.constraints + [c], isModified := true), true)
    case OtherItem => (n, false)
  }

  /** One iteration of the loop of `Composite.add` on the composite at `p`. */
  function AddItem(t: Tree, p: seq<nat>, item: Item): (r: Tree)
    requires ValidPath(t, p)
    ensures ValidPath(r, p)
  {
    var (n, hit) := AddTo(At(t, p), item);
    Put(t, p, n, Flag(hit))
  }

  /** The tree after `Composite.add` has added the first `k` objects. */
  function Added(t: Tree, p: seq<nat>, items: seq<Item>, k: nat): (r: Tree)
    requires ValidPath(t, p) && k <= |items|
    ensures ValidPath(r, p)
  {
    if k == 0 then t else AddItem(Added(t, p, items, k - 1), p, items[k - 1])
  }

  /** The bodies an object brings into the tree: a whole body, or every body of a composite. */
  function Brought(item: Item): seq<BodyRef>
  {
    match item
    case BodyItem(b) => if b.isPart then [] else [b]
    case CompositeItem(c) => AllBodies(c)
    case _ => []
  }

  /** The bodies the first `k` objects bring. */
  function BroughtAll(items: seq<Item>, k: nat): seq<BodyRef>
    requires k <= |items|
  {
    if k == 0 then [] else BroughtAll(items, k - 1) + Brought(items[k - 1])
  }

  // ------------------------------------------------------------- remove

  /** The ids in one list of a composite. */
  function Ids(t: Tree, kind: Kind): (r: seq<nat>)
    ensures |r| == Length(t, kind)
  {
    match kind
    case Bodies => seq(|t.bodies|, i requires 0 <= i < |t.bodies| => t.bodies[i].id)
    case Constraints => t.constraints
    case Composites => seq(|t.composites|, i requires 0 <= i < |t.composites| => t.composites[i].id)
  }

  function Length(t: Tree, kind: Kind): nat
  {
    match kind
    case Bodies => |t.bodies|
    case Constraints => |t.constraints|
    case Composites => |t.composites|
  }

  /** `removeBodyAt`, `removeConstraintAt` or `removeCompositeAt`: the list without its element `i`, flagged. */
  function SpliceOut(t: Tree, kind: Kind, i: nat): Tree
    requires i < Length(t, kind)
  {
    match kind
    case Bodies => t.(bodies := t.bodies[..i] + t.bodies[i + 1..], isModified := true)
    case Constraints => t.(constraints := t.constraints[..i] + t.constraints[i + 1..], isModified := true)
    case Composites => t.(composites := t.composites[..i] + t.composites[i + 1..], isModified := true)
  }

  /**
   * `removeBody`, `removeConstraint` or `removeComposite` of the object with
   * id `id`: its first occurrence is spliced out, and with `deep` it is then
   * removed from every remaining child composite. The flag says whether
   * anything changed, which flags the composite and all its parents.
   */
  function RemoveFrom(t: Tree, kind: Kind, id: nat, deep: bool): (r: (Tree, bool))
    ensures r.0.id == t.id && (r.1 ==> r.0.isModified)
  {
    var i := Common.Position(Ids(t, kind), id);
    var t1 := if i == -1 then t else SpliceOut(t, kind, i);
    if !deep then (t1, i != -1)
    else
      var children := if i != -1 && kind == Composites then t.composites[..i] + t.composites[i + 1..] else t.composites;
      var (cs, hit) := RemoveFromFirst(children, kind, id, |children|);
      (t1.(composites := cs, isModified := t1.isModified || hit), i != -1 || hit)
  }

  /** The first `n` children after each has had the object removed deeply, and whether any changed. */
  function RemoveFromFirst(cs: seq<Tree>, kind: Kind, id: nat, n: nat): (r: (seq<Tree>, bool))
    requires n <= |cs|
    ensures |r.0| == n
  {
    if n == 0 then ([], false)
    else
      var (init, h1) := RemoveFromFirst(cs, kind, id, n - 1);
      var (last, h2) := RemoveFrom(cs[n - 1], kind, id, true);
      (init + [last], h1 || h2)
  }

  /** `removeBody`, `removeConstraint` or `removeComposite`, with its loop over the children. */
  method RemoveDeep(t: Tree, kind: Kind, id: nat, deep: bool) returns (r: Tree, hit: bool)
    ensures r == RemoveFrom(t, kind, id, deep).0 && hit == RemoveFrom(t, kind, id, deep).1
  {
    var position := Common.IndexOf(Ids(t, kind), id);
    r, hit := t, false;
    if position != -1 {
      r, hit := SpliceOut(t, kind, position), true;
    }
    if deep {
      var cs, any := RemoveFromChildren(if position != -1 && kind == Composites then t.composites[..position] + t.composites[position + 1..] else t.composites, kind, id);
      r, hit := r.(composites := cs, isModified := r.isModified || any), hit || any;
    }
  }

  /** The loop of `removeBody`, `removeConstraint` or `removeComposite` over the children, with its recursive calls. */
  method RemoveFromChildren(children: seq<Tree>, kind: Kind, id: nat) returns (cs: seq<Tree>, any: bool)
    ensures cs == RemoveFromFirst(children, kind, id, |children|).0 && any == RemoveFromFirst(children, kind, id, |children|).1
  {
    cs, any := [], false;
    for i := 0 to |children|
      invariant cs == RemoveFromFirst(children, kind, id, i).0 && any == RemoveFromFirst(children, kind, id, i).1
    {
      var c, h := RemoveDeep(children[i], kind, id, true);
      cs, any := cs + [c], any || h;
    }
  }

  /** One object given to `Composite.remove`, removed from composite `n`. */
  function RemoveFromNode(n: Tree, item: Item, deep: bool): (Tree, bool)
  {
    match item
    case BodyItem(b) => RemoveFrom(n, Bodies, b.id, deep)
    case ConstraintItem(c) => RemoveFrom(n, Constraints, c, deep)
    case CompositeItem(c) => RemoveFrom(n, Composites, c.id, deep)
    case MouseConstraintItem(c) => RemoveFrom(n, Constraints, c, false)
    case OtherItem => (n, false)
  }

  /** The `switch` of `Composite.remove` on one object. */
  method RemoveObject(n: Tree, item: Item, deep: bool) returns (r: Tree, hit: bool)
    ensures r == RemoveFromNode(n, item, deep).0 && hit == RemoveFromNode(n, item, deep).1
  {
    r, hit := n, false;
    match item {
      case BodyItem(b) => r, hit := RemoveDeep(n, Bodies, b.id, deep);
      case ConstraintItem(c) => r, hit := RemoveDeep(n, Constraints, c, deep);
      case CompositeItem(c) => r, hit := RemoveDeep(n, Composites, c.id, deep);
      case MouseConstraintItem(c) => r, hit := RemoveDeep(n, Constraints, c, false);
      case OtherItem =>
    }
  }

  /** One iteration of the loop of `Composite.remove` on the composite at `p`. */
  function RemoveItem(t: Tree, p: seq<nat>, item: Item, deep: bool): (r: Tree)
    requires ValidPath(t, p)
    ensures ValidPath(r, p)
  {
    var (n, hit) := RemoveFromNode(At(t, p), item, deep);
    Put(t, p, n, Flag(hit))
  }

  /** The tree after `Composite.remove` has removed the first `k` objects. */
  function Removed(t: Tree, p: seq<nat>, items: seq<Item>, deep: bool, k: nat): (r: Tree)
    requires ValidPath(t, p) && k <= |items|
    ensures ValidPath(r, p)
  {
    if k == 0 then t else RemoveItem(Removed(t, p, items, deep, k - 1), p, items[k - 1], deep)
  }

  // -------------------------------------------------------------- clear

  /** `bodies.filter(body => body.isStatic)`. */
  function Statics(bs: seq<BodyRef>): seq<BodyRef>
  {
    if bs == [] then []
    else Statics(bs[..|bs| - 1]) + if bs[|bs| - 1].isStatic then [bs[|bs| - 1]] else []
  }

  /** `Composite.clear` on one composite: no constraints, no children, and only its static bodies when `keepStatic`. */
  function Cleared(n: Tree, keepStatic: bool): Tree
  {
    n.(bodies := if keepStatic then Statics(n.bodies) else [], constraints := [], composites := [], isModified := true)
  }

  /** `Composite.clear` on the composite at `p`, which flags it and its parents. */
  function ClearedAt(t: Tree, p: seq<nat>, keepStatic: bool): (r: Tree)
    requires ValidPath(t, p)
    ensures ValidPath(r, p)
  {
    Put(t, p, Cleared(At(t, p), keepStatic), Some(true))
  }

  // ---------------------------------------------------------- the world

  /** The world composite, with every composite below it. */
  class World {
    var root: Tree

    constructor (id: nat)
      ensures root == Create(id)
    {
      root := Create(id);
    }

    /** `Composite.setModified` on the composite at `path`. */
    method SetModified(path: seq<nat>, isModified: bool, updateParents: bool, updateChildren: bool)
      requires ValidPath(root, path)
      requires !(updateParents && updateChildren) || (path == [] && At(root, path).composites == [])
      modifies this
      ensures root == Modified(old(root), path, isModified, updateParents, updateChildren)
    {
      var n := At(root, path);
      if updateChildren {
        n := FlagAll(n, isModified);
      } else {
        n := n.(isModified := isModified);
      }
      root := Put(root, path, n, if updateParents then Some(isModified) else None);
    }

    /** `Composite.add` on the composite at `path`. */
    method Add(path: seq<nat>, items: seq<Item>)
      requires ValidPath(root, path)
      modifies this
      ensures root == Added(old(root), path, items, |items|)
    {
      for i := 0 to |items|
        invariant ValidPath(root, path)
        invariant root == Added(old(root), path, items, i)
      {
        var (n, hit) := AddTo(At(root, path), items[i]);
        root := Put(root, path, n, Flag(hit));
      }
    }

    /** `Composite.remove` on the composite at `path`. */
    method Remove(path: seq<nat>, items: seq<Item>, deep: bool)
      requires ValidPath(root, path)
      modifies this
      ensures root == Removed(old(root), path, items, deep, |items|)
    {
      for i := 0 to |items|
        invariant ValidPath(root, path)
        invariant root == Removed(old(root), path, items, deep, i)
      {
        var n, hit := RemoveObject(At(root, path), items[i], deep);
        root := Put(root, path, n, Flag(hit));
      }
    }

    /** `Composite.clear` on the composite at `path`. */
    method Clear(path: seq<nat>, keepStatic: bool)
      requires ValidPath(root, path)
      modifies this
      ensures root == ClearedAt(old(root), path, keepStatic)
    {
      var n := At(root, path);
      var kept := if keepStatic then Statics(n.bodies) else [];
      root := Put(root, path, n.(bodies := kept, constraints := [], composites := [], isModified := true), Some(true));
    }

    /** `Composite.allBodies` of the composite at `path`. */
    method AllBodiesAt(path: seq<nat>) returns (bodies: seq<BodyRef>)
      requires ValidPath(root, path)
      ensures bodies == AllBodies(At(root, path))
    {
      bodies := CollectBodies(At(root, path));
    }
  }

  // ------------------------------------------------------------ lemmas

  /** Multiset union is commutative and cancels. */
  lemma {:induction false} Shift<T>(x: multiset<T>, y: multiset<T>, z: multiset<T>, w: multiset<T>, l: multiset<T>)
    requires x + y == z + w
    ensures x + l + y == z + l + w
  {
    forall o ensures (x + l + y)[o] == (z + l + w)[o] {
      assert (x + y)[o] == (z + w)[o];
    }
  }

  /** What one exchange takes out and another brings in. */
  lemma {:induction false} Transfer<T>(a: multiset<T>, ch: multiset<T>, b: multiset<T>, c: multiset<T>, p: multiset<T>, s: multiset<T>, tb: multiset<T>)
    requires a + ch == b + c && c + p == ch + s
    ensures tb + a + p == tb + b + s
  {
    forall o ensures (tb + a + p)[o] == (tb + b + s)[o] {
      assert (a + ch)[o] == (b + c)[o];
      assert (c + p)[o] == (ch + s)[o];
    }
  }

  lemma {:induction false} Cancel<T>(a: multiset<T>, b: multiset<T>, n: multiset<T>, m: multiset<T>)
    requires a + n == b + m && n == m
    ensures a == b
  {
    forall o ensures a[o] == b[o] {
      assert (a + n)[o] == (b + m)[o];
    }
  }

  lemma {:induction false} Gain<T>(a: multiset<T>, was: multiset<T>, u: multiset<T>, n: multiset<T>, br: multiset<T>)
    requires a + was == u + n && n == was + br
    ensures a == u + br
  {
    forall o ensures a[o] == (u + br)[o] {
      assert (a + was)[o] == (u + n)[o];
    }
  }

  lemma {:induction false} Chain<T>(now: multiset<T>, prev: multiset<T>, start: multiset<T>, before: multiset<T>, more: multiset<T>, all: multiset<T>)
    requires now == prev + more && prev == start + before && all == before + more
    ensures now == start + all
  {
    forall o ensures now[o] == (start + all)[o] {
    }
  }


  lemma {:induction false} Swap<T>(a: multiset<T>, b: multiset<T>, c: multiset<T>)
    ensures a + b + c == a + c + b
  {
    forall o ensures (a + b + c)[o] == (a + c + b)[o] {
    }
  }

  /** Replacing one child changes the bodies below by those of the old and the new child. */
  lemma {:induction false} AllBodiesOfUpdate(cs: seq<Tree>, i: nat, c: Tree)
    requires i < |cs|
    ensures multiset(AllBodiesOf(cs[i := c])) + multiset(AllBodies(cs[i])) == multiset(AllBodiesOf(cs)) + multiset(AllBodies(c))
  {
    var n := |cs|;
    var ds := cs[i := c];
    var init, last := cs[..n - 1], cs[n - 1];
    assert AllBodiesOf(cs) == AllBodiesOf(init) + AllBodies(last);
    if i == n - 1 {
      assert ds[..n - 1] == init;
      assert AllBodiesOf(ds) == AllBodiesOf(init) + AllBodies(c);
      Swap(multiset(AllBodiesOf(init)), multiset(AllBodies(c)), multiset(AllBodies(last)));
    } else {
      assert ds[..n - 1] == init[i := c] && ds[n - 1] == last && init[i] == cs[i];
      assert AllBodiesOf(ds) == AllBodiesOf(init[i := c]) + AllBodies(last);
      AllBodiesOfUpdate(init, i, c);
      var x, y, z := multiset(AllBodiesOf(init[i := c])), multiset(AllBodies(cs[i])), multiset(AllBodiesOf(init));
      var w, l := multiset(AllBodies(c)), multiset(AllBodies(last));
      Shift(x, y, z, w, l);
    }
  }

  /** Putting `s` at `p` takes the bodies of the composite there out of `allBodies` and brings those of `s` in. */
  lemma {:induction false} PutBodies(t: Tree, p: seq<nat>, s: Tree, mark: Option<bool>)
    requires ValidPath(t, p)
    ensures multiset(AllBodies(Put(t, p, s, mark))) + multiset(AllBodies(At(t, p))) == multiset(AllBodies(t)) + multiset(AllBodies(s))
  {
    if p != [] {
      var child := t.composites[p[0]];
      var c := Put(child, p[1..], s, mark);
      PutBodies(child, p[1..], s, mark);
      AllBodiesOfUpdate(t.composites, p[0], c);
      var r := Put(t, p, s, mark);
      assert AllBodies(r) == t.bodies + AllBodiesOf(t.composites[p[0] := c]);
      Transfer(multiset(AllBodiesOf(t.composites[p[0] := c])), multiset(AllBodies(child)), multiset(AllBodiesOf(t.composites)),
               multiset(AllBodies(c)), multiset(AllBodies(At(t, p))), multiset(AllBodies(s)), multiset(t.bodies));
    }
  }

  /** Every composite above `p` carries `mark` once something is put at `p`, and keeps its flag otherwise. */
  lemma {:induction false} PutParents(t: Tree, p: seq<nat>, s: Tree, mark: Option<bool>, k: nat)
    requires ValidPath(t, p) && k < |p|
    ensures ValidPath(t, p[..k]) && ValidPath(Put(t, p, s, mark), p[..k])
    ensures At(Put(t, p, s, mark), p[..k]).isModified == if mark.Some? then mark.value else At(t, p[..k]).isModified
  {
    if k > 0 {
      var child := t.composites[p[0]];
      PutParents(child, p[1..], s, mark, k - 1);
      assert p[..k][0] == p[0] && p[..k][1..] == p[1..][..k - 1];
    }
  }

  /** Putting twice at the same place keeps only the second. */
  lemma {:induction false} PutPut(t: Tree, p: seq<nat>, s: Tree, s2: Tree, mark: Option<bool>)
    requires ValidPath(t, p)
    ensures Put(Put(t, p, s, mark), p, s2, mark) == Put(t, p, s2, mark)
  {
    if p != [] {
      PutPut(t.composites[p[0]], p[1..], s, s2, mark);
    }
  }

  /** Flagging changes no body. */
  lemma {:induction false} FlaggedBodies(t: Tree, v: bool)
    ensures AllBodies(Flagged(t, v)) == AllBodies(t)
    decreases t, 1
  {
    FlaggedAllBodies(t.composites, v);
  }

  lemma {:induction false} FlaggedAllBodies(cs: seq<Tree>, v: bool)
    ensures AllBodiesOf(FlaggedAll(cs, v)) == AllBodiesOf(cs)
    decreases cs, 0
  {
    if cs != [] {
      var n := |cs|;
      FlaggedAllBodies(cs[..n - 1], v);
      FlaggedBodies(cs[n - 1], v);
      assert FlaggedAll(cs, v)[..n - 1] == FlaggedAll(cs[..n - 1], v);
    }
  }

  /** `Flagged` reaches every composite below. */
  lemma {:induction false} FlaggedEverywhere(t: Tree, v: bool)
    ensures AllFlagged(Flagged(t, v), v)
  {
    var f := Flagged(t, v);
    forall i | 0 <= i < |f.composites|
      ensures AllFlagged(f.composites[i], v)
    {
      FlaggedEverywhere(t.composites[i], v);
    }
  }

  /**
   * `setModified` flags the composite, its descendants when
   * `updateChildren` and its parents when `updateParents`, leaves the other
   * parents' flags alone, and changes no body.
   */
  lemma {:induction false} SetModifiedEffect(t: Tree, p: seq<nat>, v: bool, up: bool, down: bool, k: nat)
    requires ValidPath(t, p)
    requires !(up && down) || (p == [] && At(t, p).composites == [])
    requires k < |p|
    ensures var r := Modified(t, p, v, up, down);
      (down ==> AllFlagged(At(r, p), v)) &&
      (!down ==> At(r, p) == At(t, p).(isModified := v)) &&
      ValidPath(t, p[..k]) && ValidPath(r, p[..k]) &&
      At(r, p[..k]).isModified == (if up then v else At(t, p[..k]).isModified) &&
      multiset(AllBodies(r)) == multiset(AllBodies(t))
  {
    var n := At(t, p);
    var s := if down then Flagged(n, v) else n.(isModified := v);
    PutParents(t, p, s, if up then Some(v) else None, k);
    PutBodies(t, p, s, if up then Some(v) else None);
    FlaggedBodies(n, v);
    FlaggedEverywhere(n, v);
    assert AllBodies(s) == AllBodies(n);
    Cancel(multiset(AllBodies(Modified(t, p, v, up, down))), multiset(AllBodies(t)), multiset(AllBodies(n)), multiset(AllBodies(s)));
  }

  /** One object added to a composite brings exactly its bodies into `allBodies`. */
  lemma {:induction false} AddToBodies(n: Tree, item: Item)
    ensures multiset(AllBodies(AddTo(n, item).0)) == multiset(AllBodies(n)) + multiset(Brought(item))
  {
    if item.CompositeItem? {
      var cs := n.composites + [item.composite];
      assert cs[..|cs| - 1] == n.composites;
    }
  }

  /** One iteration of `Composite.add` brings exactly the object's bodies into `allBodies` of the world. */
  lemma {:induction false} AddItemBodies(t: Tree, p: seq<nat>, item: Item)
    requires ValidPath(t, p)
    ensures multiset(AllBodies(AddItem(t, p, item))) == multiset(AllBodies(t)) + multiset(Brought(item))
  {
    var (n, hit) := AddTo(At(t, p), item);
    PutBodies(t, p, n, Flag(hit));
    AddToBodies(At(t, p), item);
    Gain(multiset(AllBodies(Put(t, p, n, Flag(hit)))), multiset(AllBodies(At(t, p))), multiset(AllBodies(t)),
         multiset(AllBodies(n)), multiset(Brought(item)));
  }

  /** `Composite.add` brings exactly the whole bodies given and the bodies of the composites given into `allBodies` of the world. */
  lemma {:induction false} AddedBodies(t: Tree, p: seq<nat>, items: seq<Item>, k: nat)
    requires ValidPath(t, p) && k <= |items|
    ensures multiset(AllBodies(Added(t, p, items, k))) == multiset(AllBodies(t)) + multiset(BroughtAll(items, k))
  {
    if k > 0 {
      var prev := Added(t, p, items, k - 1);
      var ba, b := BroughtAll(items, k - 1), Brought(items[k - 1]);
      var now := AddItem(prev, p, items[k - 1]);
      AddedStep(t, p, items, k);
      assert multiset(BroughtAll(items, k)) == multiset(ba) + multiset(b) by {
        assert BroughtAll(items, k) == ba + b;
      }
      AddedBodies(t, p, items, k - 1);
      AddItemBodies(prev, p, items[k - 1]);
      Chain(multiset(AllBodies(now)), multiset(AllBodies(prev)), multiset(AllBodies(t)),
            multiset(ba), multiset(b), multiset(BroughtAll(items, k)));
    }
  }

  lemma {:induction false} AddedStep(t: Tree, p: seq<nat>, items: seq<Item>, k: nat)
    requires ValidPath(t, p) && 0 < k <= |items|
    ensures Added(t, p, items, k) == AddItem(Added(t, p, items, k - 1), p, items[k - 1])
  {
  }

  /** Adding anything but a compound body's part or an object of unknown type flags the composite and all its parents. */
  lemma {:induction false} AddFlags(t: Tree, p: seq<nat>, item: Item, k: nat)
    requires ValidPath(t, p) && k < |p|
    requires AddTo(At(t, p), item).1
    ensures ValidPath(AddItem(t, p, item), p[..k]) && At(AddItem(t, p, item), p[..k]).isModified
    ensures At(AddItem(t, p, item), p).isModified
  {
    var (n, hit) := AddTo(At(t, p), item);
    PutParents(t, p, n, Flag(hit), k);
  }

  /** The bodies whose id is not `id`. */
  function Others(bs: seq<BodyRef>, id: nat): seq<BodyRef>
  {
    if bs == [] then []
    else Others(bs[..|bs| - 1], id) + if bs[|bs| - 1].id != id then [bs[|bs| - 1]] else []
  }

  lemma {:induction false} OthersConcat(a: seq<BodyRef>, b: seq<BodyRef>, id: nat)
    ensures Others(a + b, id) == Others(a, id) + Others(b, id)
  {
    if b == [] {
      assert a + b == a;
    } else {
      assert (a + b)[..|a + b| - 1] == a + b[..|b| - 1];
      OthersConcat(a, b[..|b| - 1], id);
    }
  }

  lemma {:induction false} OthersAbsent(bs: seq<BodyRef>, id: nat)
    requires forall j :: 0 <= j < |bs| ==> bs[j].id != id
    ensures Others(bs, id) == bs
  {
    if bs != [] {
      OthersAbsent(bs[..|bs| - 1], id);
    }
  }

  /** No two bodies of one composite share an id. */
  predicate UniqueIds(bs: seq<BodyRef>)
  {
    forall i, j :: 0 <= i < j < |bs| ==> bs[i].id != bs[j].id
  }

  /** No composite of the tree holds the same body twice. */
  predicate Unique(t: Tree)
  {
    UniqueIds(t.bodies) && forall i :: 0 <= i < |t.composites| ==> Unique(t.composites[i])
  }

  /** Taking out the one body with id `id` is keeping the others. */
  lemma {:induction false} OthersSkip(a: seq<BodyRef>, x: BodyRef, b: seq<BodyRef>, id: nat)
    requires x.id == id
    requires forall j :: 0 <= j < |a| ==> a[j].id != id
    requires forall j :: 0 <= j < |b| ==> b[j].id != id
    ensures Others(a + [x] + b, id) == a + b
  {
    OthersConcat(a + [x], b, id);
    OthersConcat(a, [x], id);
    assert [x][..0] == [];
    OthersAbsent(a, id);
    OthersAbsent(b, id);
  }

  /** Splicing out the first occurrence of a body held once leaves the composite's other bodies, in order. */
  lemma {:induction false} SpliceBodies(t: Tree, id: nat)
    requires UniqueIds(t.bodies)
    ensures var i := Common.Position(Ids(t, Bodies), id);
      (if i == -1 then t.bodies else t.bodies[..i] + t.bodies[i + 1..]) == Others(t.bodies, id)
  {
    var ids := Ids(t, Bodies);
    var i := Common.Position(ids, id);
    if i == -1 {
      SpliceAbsent(t.bodies, ids, id);
    } else {
      SplicePresent(t.bodies, ids, i, id);
    }
  }

  lemma {:induction false} SpliceAbsent(bs: seq<BodyRef>, ids: seq<nat>, id: nat)
    requires |ids| == |bs| && forall j :: 0 <= j < |bs| ==> ids[j] == bs[j].id
    requires id !in ids
    ensures bs == Others(bs, id)
  {
    forall j | 0 <= j < |bs| ensures bs[j].id != id {
      assert ids[j] in ids;
    }
    OthersAbsent(bs, id);
  }

  lemma {:induction false} SplicePresent(bs: seq<BodyRef>, ids: seq<nat>, i: nat, id: nat)
    requires |ids| == |bs| && forall j :: 0 <= j < |bs| ==> ids[j] == bs[j].id
    requires UniqueIds(bs) && i < |ids| && ids[i] == id && id !in ids[..i]
    ensures bs[..i] + bs[i + 1..] == Others(bs, id)
  {
    var a, b := bs[..i], bs[i + 1..];
    assert bs == a + [bs[i]] + b;
    forall j | 0 <= j < |a| ensures a[j].id != id {
      assert ids[..i][j] == ids[j];
    }
    forall j | 0 <= j < |b| ensures b[j].id != id {
      assert b[j] == bs[i + 1 + j];
    }
    OthersSkip(a, bs[i], b, id);
  }

  /**
   * In a tree where no composite holds a body twice, removing a body deeply
   * takes it out of `allBodies` and leaves every other body, in order.
   */
  lemma {:induction false} RemoveBodyDeep(t: Tree, id: nat)
    requires Unique(t)
    ensures AllBodies(RemoveFrom(t, Bodies, id, true).0) == Others(AllBodies(t), id)
    decreases t, 1
  {
    RemoveBodyShape(t, id);
    SpliceBodies(t, id);
    RemoveBodyChildren(t.composites, id, |t.composites|);
    assert t.composites[..|t.composites|] == t.composites;
    OthersConcat(t.bodies, AllBodiesOf(t.composites), id);
  }

  /** The lists of a composite after a deep removal of a body. */
  lemma {:induction false} RemoveBodyShape(t: Tree, id: nat)
    ensures var i := Common.Position(Ids(t, Bodies), id);
      var r := RemoveFrom(t, Bodies, id, true).0;
      r.bodies == (if i == -1 then t.bodies else t.bodies[..i] + t.bodies[i + 1..]) &&
      r.composites == RemoveFromFirst(t.composites, Bodies, id, |t.composites|).0
  {
  }

  lemma {:induction false} RemoveBodyChildren(cs: seq<Tree>, id: nat, n: nat)
    requires n <= |cs| && forall i :: 0 <= i < |cs| ==> Unique(cs[i])
    ensures AllBodiesOf(RemoveFromFirst(cs, Bodies, id, n).0) == Others(AllBodiesOf(cs[..n]), id)
    decreases cs, n
  {
    if n > 0 {
      var init := RemoveFromFirst(cs, Bodies, id, n - 1).0;
      var last := RemoveFrom(cs[n - 1], Bodies, id, true).0;
      RemoveFromFirstStep(cs, Bodies, id, n);
      AllBodiesOfSnoc(init, last);
      AllBodiesOfPrefix(cs, n);
      RemoveBodyChildren(cs, id, n - 1);
      RemoveBodyDeep(cs[n - 1], id);
      OthersConcat(AllBodiesOf(cs[..n - 1]), AllBodies(cs[n - 1]), id);
    }
  }

  lemma {:induction false} RemoveFromFirstStep(cs: seq<Tree>, kind: Kind, id: nat, n: nat)
    requires 0 < n <= |cs|
    ensures RemoveFromFirst(cs, kind, id, n).0 == RemoveFromFirst(cs, kind, id, n - 1).0 + [RemoveFrom(cs[n - 1], kind, id, true).0]
  {
  }

  lemma {:induction false} AllBodiesOfSnoc(cs: seq<Tree>, c: Tree)
    ensures AllBodiesOf(cs + [c]) == AllBodiesOf(cs) + AllBodies(c)
  {
    assert (cs + [c])[..|cs|] == cs;
  }

  lemma {:induction false} AllBodiesOfPrefix(cs: seq<Tree>, n: nat)
    requires 0 < n <= |cs|
    ensures AllBodiesOf(cs[..n]) == AllBodiesOf(cs[..n - 1]) + AllBodies(cs[n - 1])
  {
    assert cs[..n][..n - 1] == cs[..n - 1];
  }

  /** Without `deep`, a removal changes the composite exactly when the object is in its list, and then takes one element out. */
  lemma {:induction false} RemoveShallow(t: Tree, kind: Kind, id: nat)
    ensures var (r, hit) := RemoveFrom(t, kind, id, false);
      (hit <==> id in Ids(t, kind)) && (hit ==> Length(r, kind) == Length(t, kind) - 1 && r.isModified)
  {
  }

  /** `bodies.filter(body => body.isStatic)` keeps exactly the static bodies. */
  lemma {:induction false} StaticsExactly(bs: seq<BodyRef>)
    ensures forall x :: x in Statics(bs) <==> x in bs && x.isStatic
  {
    if bs != [] {
      StaticsExactly(bs[..|bs| - 1]);
      assert bs == bs[..|bs| - 1] + [bs[|bs| - 1]];
    }
  }

  lemma {:induction false} StaticsAll(bs: seq<BodyRef>)
    requires forall j :: 0 <= j < |bs| ==> bs[j].isStatic
    ensures Statics(bs) == bs
  {
    if bs != [] {
      StaticsAll(bs[..|bs| - 1]);
    }
  }

  /** Keeping only the static bodies twice is keeping them once. */
  lemma {:induction false} StaticsIdempotent(bs: seq<BodyRef>)
    ensures Statics(Statics(bs)) == Statics(bs)
  {
    var r := Statics(bs);
    StaticsExactly(bs);
    assert forall j :: 0 <= j < |r| ==> r[j] in r;
    StaticsAll(r);
  }

  /**
   * `Composite.clear` leaves the composite with no constraints and no
   * children, and with only its static bodies or none; all of its parents
   * are flagged; clearing again changes nothing.
   */
  lemma {:induction false} ClearEffect(t: Tree, p: seq<nat>, keepStatic: bool)
    requires ValidPath(t, p)
    ensures var r := ClearedAt(t, p, keepStatic);
      At(r, p).constraints == [] && At(r, p).composites == [] && At(r, p).isModified &&
      AllBodies(At(r, p)) == (if keepStatic then Statics(At(t, p).bodies) else []) &&
      ClearedAt(r, p, keepStatic) == r
  {
    var n := Cleared(At(t, p), keepStatic);
    assert AllBodies(n) == n.bodies;
    StaticsIdempotent(At(t, p).bodies);
    assert Cleared(n, keepStatic) == n;
    PutPut(t, p, n, n, Some(true));
  }
}
