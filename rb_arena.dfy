/**
 * The linked nodes of `lib/algorithms/red_black_tree.py` laid out in an
 * arena: a sequence of records where a link is an index.  Index 0 holds the
 * shared black sentinel `ND_NULL`; its `left` and `right` are Python `None`
 * until something writes them.  `Represents` ties a record and everything
 * below it to a value of `RedBlackSpec.Tree`, and `ReprPath` does the same for
 * the frames of a `RedBlackSpec.Path`, so that each pointer update of the
 * engine can be followed on the abstract tree.
 */
module RedBlackArena {
  import opened Wrappers
  import opened RedBlackSpec

  datatype Slot<V> =
    | Sentinel(color: Color, parent: Option<nat>, fromDirection: Option<Direction>,
               nilLeft: Option<nat>, nilRight: Option<nat>)
    | Record(key: int, value: V, color: Color, left: nat, right: nat,
             parent: Option<nat>, fromDirection: Option<Direction>)

  /** The arena index of `ND_NULL`. */
  const NullIndex: nat := 0

  /** `node.left` or `node.right` of a record. */
  function Child<V>(s: Slot<V>, d: Direction): nat
    requires s.Record?
  {
    if d == Left then s.left else s.right
  }

  /** Reading `node.left` or `node.right` of any slot: the sentinel's may be `None`. */
  function ChildOf<V>(s: Slot<V>, d: Direction): Option<nat>
  {
    if s.Record? then Some(Child(s, d))
    else if d == Left then s.nilLeft
    else s.nilRight
  }

  /** Writing `node.left = c` or `node.right = c`. */
  function SetChild<V>(s: Slot<V>, d: Direction, c: nat): (r: Slot<V>)
    ensures r.Record? == s.Record? && ChildOf(r, d) == Some(c) && ChildOf(r, Other(d)) == ChildOf(s, Other(d))
    ensures r.color == s.color && r.parent == s.parent && r.fromDirection == s.fromDirection
    ensures s.Record? ==> r.key == s.key && r.value == s.value
  {
    if s.Sentinel? then
      if d == Left then s.(nilLeft := Some(c)) else s.(nilRight := Some(c))
    else if d == Left then s.(left := c) else s.(right := c)
  }

  /** `node.color = c` */
  function WithColor<V>(s: Slot<V>, c: Color): (r: Slot<V>)
    ensures r.Record? == s.Record? && r.color == c && r.parent == s.parent && r.fromDirection == s.fromDirection
    ensures s.Record? ==> r.key == s.key && r.value == s.value && r.left == s.left && r.right == s.right
  {
    match s
    case Sentinel(_, p, f, l, r) => Sentinel(c, p, f, l, r)
    case Record(k, v, _, l, r, p, f) => Record(k, v, c, l, r, p, f)
  }

  /** `node.parent = p` */
  function WithParent<V>(s: Slot<V>, p: Option<nat>): (r: Slot<V>)
    ensures r.Record? == s.Record? && r.color == s.color && r.parent == p && r.fromDirection == s.fromDirection
    ensures s.Record? ==> r.key == s.key && r.value == s.value && r.left == s.left && r.right == s.right
    ensures s.Sentinel? ==> r.nilLeft == s.nilLeft && r.nilRight == s.nilRight
  {
    match s
    case Sentinel(c, _, f, l, r) => Sentinel(c, p, f, l, r)
    case Record(k, v, c, l, r, _, f) => Record(k, v, c, l, r, p, f)
  }

  /** `node.from_direction = d` */
  function WithSide<V>(s: Slot<V>, d: Option<Direction>): (r: Slot<V>)
    ensures r.Record? == s.Record? && r.color == s.color && r.parent == s.parent && r.fromDirection == d
    ensures s.Record? ==> r.key == s.key && r.value == s.value && r.left == s.left && r.right == s.right
    ensures s.Sentinel? ==> r.nilLeft == s.nilLeft && r.nilRight == s.nilRight
  {
    match s
    case Sentinel(c, p, _, l, r) => Sentinel(c, p, d, l, r)
    case Record(k, v, c, l, r, p, _) => Record(k, v, c, l, r, p, d)
  }

  predicate LinkOk(n: nat, x: Option<nat>)
  {
    x.Some? ==> x.value < n
  }

  /** A slot at index `i` of an arena of `n` slots: the sentinel sits at 0, every link stays inside. */
  predicate SlotOk<V>(n: nat, i: nat, s: Slot<V>)
  {
    (i == 0 <==> s.Sentinel?) && LinkOk(n, s.parent) &&
    (s.Sentinel? ==> LinkOk(n, s.nilLeft) && LinkOk(n, s.nilRight)) &&
    (s.Record? ==> s.left < n && s.right < n)
  }

  predicate WellFormed<V>(nodes: seq<Slot<V>>, root: nat)
  {
    |nodes| >= 1 && root < |nodes| &&
    forall i :: 0 <= i < |nodes| ==> SlotOk(|nodes|, i, nodes[i])
  }

  /** The record `i` and everything reachable below it is the tree `t`, hanging from `parent` on side `dir`. */
  ghost predicate Represents<V>(nodes: seq<Slot<V>>, i: nat, t: Tree<V>, parent: Option<nat>, dir: Option<Direction>)
    decreases t
  {
    match t
    case Nil => i == NullIndex
    case Node(id, c, k, v, l, r) =>
      i == id && 1 <= i < |nodes| && nodes[i].Record? &&
      nodes[i].key == k && nodes[i].value == v && nodes[i].color == c &&
      nodes[i].parent == parent && nodes[i].fromDirection == dir &&
      Represents(nodes, nodes[i].left, l, Some(i), Some(Left)) &&
      Represents(nodes, nodes[i].right, r, Some(i), Some(Right))
  }

  /** The frames of `p`, read from the hole `hole` up to the record `root`. */
  ghost predicate ReprPath<V>(nodes: seq<Slot<V>>, p: Path<V>, hole: nat, root: nat)
    decreases p
  {
    match p
    case Top => hole == root
    case Up(d, id, c, k, v, s, rest) =>
      1 <= id < |nodes| && nodes[id].Record? &&
      nodes[id].key == k && nodes[id].value == v && nodes[id].color == c &&
      Child(nodes[id], d) == hole &&
      Represents(nodes, Child(nodes[id], Other(d)), s, Some(id), Some(Other(d))) &&
      nodes[id].parent == HoleParent(rest, None) && nodes[id].fromDirection == HoleSide(rest, None) &&
      ReprPath(nodes, rest, id, root)
  }

  /** The two arenas hold the same records at the indices of `ids`. */
  ghost predicate Agree<V>(nodes: seq<Slot<V>>, nodes': seq<Slot<V>>, ids: set<nat>)
  {
    forall j :: j in ids ==> j < |nodes| && j < |nodes'| && nodes'[j] == nodes[j]
  }

  /** The whole tree held by an arena, with its root hanging from nothing. */
  ghost predicate Holds<V>(nodes: seq<Slot<V>>, root: nat, t: Tree<V>)
  {
    Represents(nodes, root, t, None, None)
  }

  // ---------------------------------------------------------------------
  // Basic facts

  lemma {:induction false} ReprIds<V>(nodes: seq<Slot<V>>, i: nat, t: Tree<V>, a: Option<nat>, b: Option<Direction>)
    requires Represents(nodes, i, t, a, b)
    decreases t
    ensures i == RootId(t)
    ensures forall j :: j in Ids(t) ==> 1 <= j < |nodes|
  {
    if t.Node? {
      ReprIds(nodes, nodes[i].left, t.left, Some(i), Some(Left));
      ReprIds(nodes, nodes[i].right, t.right, Some(i), Some(Right));
    }
  }

  lemma {:induction false} ReprPathIds<V>(nodes: seq<Slot<V>>, p: Path<V>, h: nat, root: nat)
    requires ReprPath(nodes, p, h, root)
    decreases p
    ensures forall j :: j in PathIds(p) ==> 1 <= j < |nodes|
    ensures p.Top? ==> h == root
    ensures p.Up? ==> root in PathIds(p)
  {
    if p.Up? {
      ReprIds(nodes, Child(nodes[p.id], Other(p.dir)), p.sibling, Some(p.id), Some(Other(p.dir)));
      ReprPathIds(nodes, p.rest, p.id, root);
    }
  }

  /** Records outside the tree do not matter. */
  lemma {:induction false} ReprFrame<V>(nodes: seq<Slot<V>>, nodes': seq<Slot<V>>, i: nat, t: Tree<V>,
                                        a: Option<nat>, b: Option<Direction>)
    requires Represents(nodes, i, t, a, b) && Agree(nodes, nodes', Ids(t))
    decreases t
    ensures Represents(nodes', i, t, a, b)
  {
    if t.Node? {
      assert nodes'[i] == nodes[i];
      ReprFrame(nodes, nodes', nodes[i].left, t.left, Some(i), Some(Left));
      ReprFrame(nodes, nodes', nodes[i].right, t.right, Some(i), Some(Right));
    }
  }

  lemma {:induction false} ReprPathFrame<V>(nodes: seq<Slot<V>>, nodes': seq<Slot<V>>, p: Path<V>, h: nat, root: nat)
    requires ReprPath(nodes, p, h, root) && Agree(nodes, nodes', PathIds(p))
    decreases p
    ensures ReprPath(nodes', p, h, root)
  {
    if p.Up? {
      assert nodes'[p.id] == nodes[p.id];
      ReprFrame(nodes, nodes', Child(nodes[p.id], Other(p.dir)), p.sibling, Some(p.id), Some(Other(p.dir)));
      ReprPathFrame(nodes, nodes', p.rest, p.id, root);
    }
  }

  /**
   * Rewriting the top record of a tree: new key, value, colour and parent
   * link, the same children.
   */
  lemma ReprRelabel<V>(nodes: seq<Slot<V>>, nodes': seq<Slot<V>>, t: Tree<V>, a: Option<nat>, b: Option<Direction>,
                       k: int, v: V, c: Color, a': Option<nat>, b': Option<Direction>)
    requires t.Node? && Represents(nodes, t.id, t, a, b) && DistinctIds(t)
    requires t.id < |nodes'| && nodes'[t.id] == Record(k, v, c, nodes[t.id].left, nodes[t.id].right, a', b')
    requires Agree(nodes, nodes', Ids(t) - {t.id})
    ensures Represents(nodes', t.id, Node(t.id, c, k, v, t.left, t.right), a', b')
  {
    var i := t.id;
    assert Ids(t.left) <= Ids(t) - {i} && Ids(t.right) <= Ids(t) - {i};
    ReprFrame(nodes, nodes', nodes[i].left, t.left, Some(i), Some(Left));
    ReprFrame(nodes, nodes', nodes[i].right, t.right, Some(i), Some(Right));
  }

  /** Only the parent link of the top record changes. */
  lemma ReprRelink<V>(nodes: seq<Slot<V>>, nodes': seq<Slot<V>>, t: Tree<V>, a: Option<nat>, b: Option<Direction>,
                  a': Option<nat>, b': Option<Direction>)
    requires Represents(nodes, RootId(t), t, a, b) && DistinctIds(t)
    requires t.Node? ==> t.id < |nodes'| && nodes'[t.id] == WithSide(WithParent(nodes[t.id], a'), b')
    requires Agree(nodes, nodes', Ids(t) - {RootId(t)})
    ensures Represents(nodes', RootId(t), t, a', b')
  {
    if t.Node? {
      ReprRelabel(nodes, nodes', t, a, b, t.key, t.value, t.color, a', b');
      assert Node(t.id, t.color, t.key, t.value, t.left, t.right) == t;
    }
  }

  /** A path whose top frame now points at another hole. */
  lemma Retarget<V>(nodes: seq<Slot<V>>, nodes': seq<Slot<V>>, p: Path<V>, h: nat, h': nat, root: nat)
    requires p.Up? && ReprPath(nodes, p, h, root) && DistinctPath(p)
    requires p.id < |nodes'| && nodes'[p.id] == SetChild(nodes[p.id], p.dir, h')
    requires Agree(nodes, nodes', PathIds(p) - {p.id})
    ensures ReprPath(nodes', p, h', root)
  {
    var id := p.id;
    assert Ids(p.sibling) <= PathIds(p) - {id} && PathIds(p.rest) <= PathIds(p) - {id};
    assert Child(nodes'[id], Other(p.dir)) == Child(nodes[id], Other(p.dir));
    ReprFrame(nodes, nodes', Child(nodes[id], Other(p.dir)), p.sibling, Some(id), Some(Other(p.dir)));
    ReprPathFrame(nodes, nodes', p.rest, id, root);
  }

  /** An arena holds `Plug(p, t)` exactly when it holds the frames of `p` around a record holding `t`. */
  lemma {:induction false} ReprPlug<V>(nodes: seq<Slot<V>>, p: Path<V>, t: Tree<V>, root: nat)
    decreases p
    ensures Holds(nodes, root, Plug(p, t)) <==>
      ReprPath(nodes, p, RootId(t), root) && Represents(nodes, RootId(t), t, HoleParent(p, None), HoleSide(p, None))
  {
    match p
    case Top =>
      if Holds(nodes, root, t) { ReprIds(nodes, root, t, None, None); }
    case Up(d, id, c, k, v, s, rest) =>
      var a := Attach(d, id, c, k, v, s, t);
      ReprPlug(nodes, rest, a, root);
      if Represents(nodes, id, a, HoleParent(rest, None), HoleSide(rest, None)) {
        ReprIds(nodes, Child(nodes[id], d), t, Some(id), Some(d));
      }
      if Represents(nodes, RootId(t), t, Some(id), Some(d)) && ReprPath(nodes, p, RootId(t), root) {
        assert Represents(nodes, id, a, HoleParent(rest, None), HoleSide(rest, None));
      }
  }

  /** Stepping down one side of the record at the hole. */
  lemma DescendRepr<V>(nodes: seq<Slot<V>>, p: Path<V>, s: Tree<V>, root: nat, d: Direction)
    requires s.Node? && ReprPath(nodes, p, s.id, root)
    requires Represents(nodes, s.id, s, HoleParent(p, None), HoleSide(p, None))
    ensures var q := Up(d, s.id, s.color, s.key, s.value, if d == Left then s.right else s.left, p);
      var c := if d == Left then s.left else s.right;
      ReprPath(nodes, q, Child(nodes[s.id], d), root) &&
      Represents(nodes, Child(nodes[s.id], d), c, HoleParent(q, None), HoleSide(q, None)) &&
      Plug(q, c) == Plug(p, s)
  {
  }

  // ---------------------------------------------------------------------
  // The pointer surgery of insert and delete, read on the abstract tree

  /** A record with `near` on side `d` and `far` on the other side. */
  function Joined<V>(k: int, v: V, c: Color, d: Direction, near: nat, far: nat,
                     parent: Option<nat>, side: Option<Direction>): Slot<V>
  {
    if d == Left then Record(k, v, c, near, far, parent, side) else Record(k, v, c, far, near, parent, side)
  }

  /** Writing a slot whose links stay inside the arena keeps the arena well formed. */
  lemma StoreOk<V>(nodes: seq<Slot<V>>, root: nat, i: nat, x: Slot<V>)
    requires WellFormed(nodes, root) && i < |nodes| && SlotOk(|nodes|, i, x)
    ensures WellFormed(nodes[i := x], root)
  {
  }

  /** Appending a record whose links stay inside the grown arena keeps it well formed. */
  lemma GrowOk<V>(nodes: seq<Slot<V>>, root: nat, x: Slot<V>, root': nat)
    requires WellFormed(nodes, root) && SlotOk(|nodes| + 1, |nodes|, x) && root' <= |nodes|
    ensures WellFormed(nodes + [x], root')
  {
    var grown := nodes + [x];
    forall i | 0 <= i < |grown| ensures SlotOk(|grown|, i, grown[i]) {
      if i < |nodes| {
        assert SlotOk(|nodes|, i, nodes[i]);
      }
    }
  }

  /** Every link a slot of a well-formed arena holds stays inside it. */
  lemma SlotLinks<V>(nodes: seq<Slot<V>>, root: nat, i: nat)
    requires WellFormed(nodes, root) && i < |nodes|
    ensures LinkOk(|nodes|, nodes[i].parent)
    ensures LinkOk(|nodes|, ChildOf(nodes[i], Left)) && LinkOk(|nodes|, ChildOf(nodes[i], Right))
  {
    assert SlotOk(|nodes|, i, nodes[i]);
  }

  /** A record is `Joined` exactly when its fields say so. */
  lemma JoinedFields<V>(s: Slot<V>, k: int, v: V, c: Color, d: Direction, near: nat, far: nat,
                        parent: Option<nat>, side: Option<Direction>)
    requires s.Record? && s.key == k && s.value == v && s.color == c
    requires Child(s, d) == near && Child(s, Other(d)) == far && s.parent == parent && s.fromDirection == side
    ensures s == Joined(k, v, c, d, near, far, parent, side)
  {
  }

  /** The records of `nodes'` are those of `nodes` at every index not in `written`. */
  ghost predicate SameOutside<V>(nodes: seq<Slot<V>>, nodes': seq<Slot<V>>, written: set<nat>)
  {
    |nodes'| == |nodes| && forall j :: 0 <= j < |nodes| && j !in written ==> nodes'[j] == nodes[j]
  }

  lemma AgreeOutside<V>(nodes: seq<Slot<V>>, nodes': seq<Slot<V>>, written: set<nat>, ids: set<nat>)
    requires SameOutside(nodes, nodes', written)
    requires forall j :: j in ids ==> j < |nodes|
    requires ids !! written
    ensures Agree(nodes, nodes', ids)
  {
  }

  lemma AgreeUpdate<V>(nodes: seq<Slot<V>>, i: nat, x: Slot<V>, ids: set<nat>)
    requires i < |nodes| && i !in ids
    requires forall j :: j in ids ==> j < |nodes|
    ensures Agree(nodes, nodes[i := x], ids)
  {
  }

  /** A fresh red record hung on the empty side `d` of the record at the hole. */
  lemma LinkRepr<V>(nodes: seq<Slot<V>>, nodes': seq<Slot<V>>, p: Path<V>, s: Tree<V>, d: Direction,
                    k: int, v: V, root: nat)
    requires s.Node? && Sub(s, d).Nil? && DistinctIds(Plug(p, s))
    requires ReprPath(nodes, p, s.id, root) && Represents(nodes, s.id, s, HoleParent(p, None), HoleSide(p, None))
    requires var grown := nodes + [Record(k, v, Red, NullIndex, NullIndex, Some(s.id), Some(d))];
      nodes' == grown[s.id := SetChild(grown[s.id], d, |nodes|)]
    ensures var q := Up(d, s.id, s.color, s.key, s.value, Sub(s, Other(d)), p);
      ReprPath(nodes', q, |nodes|, root) &&
      Represents(nodes', |nodes|, Node(|nodes|, Red, k, v, Nil, Nil), HoleParent(q, None), HoleSide(q, None)) &&
      Plug(q, Nil) == Plug(p, s)
  {
    var q := Up(d, s.id, s.color, s.key, s.value, Sub(s, Other(d)), p);
    var grown := nodes + [Record(k, v, Red, NullIndex, NullIndex, Some(s.id), Some(d))];
    DescendRepr(nodes, p, s, root, d);
    assert Plug(q, Nil) == Plug(p, s);
    ReprPathIds(nodes, q, NullIndex, root);
    ReprPathFrame(nodes, grown, q, NullIndex, root);
    IdsOfPlug(q, Nil);
    ReprPathIds(grown, q, NullIndex, root);
    AgreeUpdate(grown, s.id, SetChild(grown[s.id], d, |nodes|), PathIds(q) - {s.id});
    Retarget(grown, nodes', q, NullIndex, |nodes|, root);
  }

  /** Distinct ids in the whole tree: the parts around a node's parent and grandparent share none. */
  lemma TwoFrameDistinct<V>(fp: Path<V>, t: Tree<V>)
    requires fp.Up? && fp.rest.Up? && DistinctIds(Plug(fp, t))
    ensures var pid, ps, gid, u, rest2 := fp.id, fp.sibling, fp.rest.id, fp.rest.sibling, fp.rest.rest;
      DistinctIds(t) && DistinctIds(ps) && DistinctIds(u) && DistinctPath(rest2) &&
      pid != gid && pid !in Ids(t) + Ids(ps) + Ids(u) + PathIds(rest2) &&
      gid !in Ids(t) + Ids(ps) + Ids(u) + PathIds(rest2) &&
      Ids(t) !! Ids(ps) && Ids(t) !! Ids(u) && Ids(t) !! PathIds(rest2) &&
      Ids(ps) !! Ids(u) && Ids(ps) !! PathIds(rest2) && Ids(u) !! PathIds(rest2)
  {
    IdsOfPlug(fp, t);
  }

  /** The ids met on the way from a node up through its parent and grandparent. */
  lemma TwoFrameIds<V>(nodes: seq<Slot<V>>, fp: Path<V>, me: nat, t: Tree<V>, root: nat)
    requires fp.Up? && fp.rest.Up?
    requires ReprPath(nodes, fp, me, root) && Represents(nodes, me, t, HoleParent(fp, None), HoleSide(fp, None))
    requires DistinctIds(Plug(fp, t))
    ensures var pid, ps, gid, u, rest2 := fp.id, fp.sibling, fp.rest.id, fp.rest.sibling, fp.rest.rest;
      DistinctIds(t) && DistinctIds(ps) && DistinctIds(u) && DistinctPath(rest2) &&
      pid != gid && pid !in Ids(t) + Ids(ps) + Ids(u) + PathIds(rest2) &&
      gid !in Ids(t) + Ids(ps) + Ids(u) + PathIds(rest2) &&
      Ids(t) !! Ids(ps) && Ids(t) !! Ids(u) && Ids(t) !! PathIds(rest2) &&
      Ids(ps) !! Ids(u) && Ids(ps) !! PathIds(rest2) && Ids(u) !! PathIds(rest2) &&
      (forall j :: j in Ids(t) + Ids(ps) + Ids(u) + PathIds(rest2) ==> 1 <= j < |nodes|) &&
      1 <= pid < |nodes| && 1 <= gid < |nodes| && nodes[pid].Record? && nodes[gid].Record? && me == RootId(t) &&
      RootId(ps) == Child(nodes[pid], Other(fp.dir)) && RootId(u) == Child(nodes[gid], Other(fp.rest.dir)) &&
      (rest2.Up? ==> rest2.id in PathIds(rest2) && root in PathIds(rest2)) && (rest2.Top? ==> gid == root)
  {
    TwoFrameDistinct(fp, t);
    ReprIds(nodes, me, t, HoleParent(fp, None), HoleSide(fp, None));
    ReprPathIds(nodes, fp, me, root);
    ReprIds(nodes, Child(nodes[fp.id], Other(fp.dir)), fp.sibling, Some(fp.id), Some(Other(fp.dir)));
    var g := fp.rest;
    ReprIds(nodes, Child(nodes[g.id], Other(g.dir)), g.sibling, Some(g.id), Some(Other(g.dir)));
    ReprPathIds(nodes, g.rest, g.id, root);
  }

  /** Red uncle: parent and uncle blackened, grandparent given colour `c`. */
  lemma RecolorRepr<V>(nodes: seq<Slot<V>>, nodes': seq<Slot<V>>, fp: Path<V>, me: nat, t: Tree<V>, root: nat, c: Color)
    requires fp.Up? && fp.rest.Up? && fp.rest.sibling.Node?
    requires ReprPath(nodes, fp, me, root) && Represents(nodes, me, t, HoleParent(fp, None), HoleSide(fp, None))
    requires DistinctIds(Plug(fp, t))
    requires var pid, gid, uid := fp.id, fp.rest.id, fp.rest.sibling.id;
      SameOutside(nodes, nodes', {pid, gid, uid}) && pid < |nodes| && gid < |nodes| && uid < |nodes| &&
      nodes'[pid] == WithColor(nodes[pid], Black) && nodes'[uid] == WithColor(nodes[uid], Black) &&
      nodes'[gid] == WithColor(nodes[gid], c)
    ensures var pd, pid, pk, pv, ps := fp.dir, fp.id, fp.key, fp.value, fp.sibling;
      var gd, gid, gk, gv, u, rest2 := fp.rest.dir, fp.rest.id, fp.rest.key, fp.rest.value, fp.rest.sibling, fp.rest.rest;
      Represents(nodes', gid, Attach(gd, gid, c, gk, gv, Painted(u, Black), Attach(pd, pid, Black, pk, pv, ps, t)),
                 HoleParent(rest2, None), HoleSide(rest2, None)) &&
      ReprPath(nodes', rest2, gid, root)
  {
    TwoFrameIds(nodes, fp, me, t, root);
    var pd, pid, ps := fp.dir, fp.id, fp.sibling;
    var gd, gid, u, rest2 := fp.rest.dir, fp.rest.id, fp.rest.sibling, fp.rest.rest;
    var w := {pid, gid, u.id};
    AgreeOutside(nodes, nodes', w, Ids(t));
    ReprFrame(nodes, nodes', me, t, Some(pid), Some(pd));
    AgreeOutside(nodes, nodes', w, Ids(ps));
    ReprFrame(nodes, nodes', Child(nodes[pid], Other(pd)), ps, Some(pid), Some(Other(pd)));
    AgreeOutside(nodes, nodes', w, Ids(u) - {u.id});
    ReprRelabel(nodes, nodes', u, Some(gid), Some(Other(gd)), u.key, u.value, Black, Some(gid), Some(Other(gd)));
    assert Painted(u, Black) == Node(u.id, Black, u.key, u.value, u.left, u.right);
    AgreeOutside(nodes, nodes', w, PathIds(rest2));
    ReprPathFrame(nodes, nodes', rest2, gid, root);
  }

  /** Parent and uncle painted black, then the grandparent red unless the loop stops. */
  ghost predicate Recoloured<V>(a: seq<Slot<V>>, b: seq<Slot<V>>, par: nat, uid: nat, gp: nat, done: bool)
  {
    par < |a| && uid < |a| && gp < |a| &&
    var a2 := a[par := WithColor(a[par], Black)][uid := WithColor(a[uid], Black)];
    b == if done then a2 else a2[gp := WithColor(a2[gp], Red)]
  }

  /** What the records at the hole of `Plug(fp, t)` and at its parent say. */
  lemma ParentLinks<V>(nodes: seq<Slot<V>>, root: nat, fp: Path<V>, me: nat, t: Tree<V>)
    requires fp.Up? && t.Node? && me == t.id && Holds(nodes, root, Plug(fp, t))
    ensures 1 <= me < |nodes| && nodes[me].Record? && nodes[me].parent == Some(fp.id)
    ensures nodes[me].fromDirection == Some(fp.dir)
    ensures 1 <= fp.id < |nodes| && nodes[fp.id].Record? && nodes[fp.id].color == fp.color
    ensures fp.rest.Up? ==> nodes[fp.id].parent == Some(fp.rest.id) && nodes[fp.id].fromDirection == Some(fp.rest.dir)
  {
    ReprPlug(nodes, fp, t, root);
  }

  /** The grandparent record and the uncle the engine reads from it. */
  lemma UncleLinks<V>(nodes: seq<Slot<V>>, root: nat, fp: Path<V>, me: nat, t: Tree<V>)
    requires fp.Up? && fp.rest.Up? && t.Node? && me == t.id && Holds(nodes, root, Plug(fp, t))
    requires |nodes| > 0 && nodes[NullIndex].color == Black
    ensures 1 <= fp.rest.id < |nodes| && nodes[fp.rest.id].Record?
    ensures var u := fp.rest.sibling;
      RootId(u) == Child(nodes[fp.rest.id], Other(fp.rest.dir)) && RootId(u) < |nodes| &&
      nodes[RootId(u)].color == ColorOf(u) && (u.Node? ==> 1 <= RootId(u))
  {
    ReprPlug(nodes, fp, t, root);
    var gid := fp.rest.id;
    ReprIds(nodes, Child(nodes[gid], Other(fp.rest.dir)), fp.rest.sibling, Some(gid), Some(Other(fp.rest.dir)));
  }

  /** The recolouring of the red-uncle case, read on the abstract tree: the turn `FixupStep` describes. */
  lemma RedUncleRepr<V>(a: seq<Slot<V>>, b: seq<Slot<V>>, fp: Path<V>, me: nat, t: Tree<V>, root: nat, done: bool)
    requires fp.Up? && fp.rest.Up? && fp.color == Red && IsRed(fp.rest.sibling) && t.Node? && me == t.id
    requires Holds(a, root, Plug(fp, t)) && DistinctIds(Plug(fp, t))
    requires done <==> fp.rest.id == root
    requires Recoloured(a, b, fp.id, fp.rest.sibling.id, fp.rest.id, done)
    ensures |b| == |a| && b[NullIndex] == a[NullIndex]
    ensures var r := FixupStep(fp, t);
      r.events == [FixupTree(fp.rest.dir, fp.dir, Red)] + (if done then [BlackenRootNode] else []) &&
      (done <==> r.Stop?) && Holds(b, root, Outcome(r)) && (!done ==> fp.rest.id == RootId(r.focus))
  {
    var gid := fp.rest.id;
    var c := if done then fp.rest.color else Red;
    var g := Attach(fp.rest.dir, gid, c, fp.rest.key, fp.rest.value, Painted(fp.rest.sibling, Black),
                    Attach(fp.dir, fp.id, Black, fp.key, fp.value, fp.sibling, t));
    RecolorPlug(a, b, fp, me, t, root, done);
    assert done <==> fp.rest.rest.Top?;
    if done {
      assert FixupStep(fp, t) == Stop(g, [FixupTree(fp.rest.dir, fp.dir, Red), BlackenRootNode]);
    } else {
      assert FixupStep(fp, t) == Continue(fp.rest.rest, g, [FixupTree(fp.rest.dir, fp.dir, Red)]);
    }
  }

  /** Parent, grandparent and a real uncle sit at three distinct records; the grandparent is the root exactly when the path above it is empty. */
  lemma ThreeSlots<V>(nodes: seq<Slot<V>>, fp: Path<V>, me: nat, t: Tree<V>, root: nat)
    requires fp.Up? && fp.rest.Up? && fp.rest.sibling.Node?
    requires ReprPath(nodes, fp, me, root) && Represents(nodes, me, t, HoleParent(fp, None), HoleSide(fp, None))
    requires DistinctIds(Plug(fp, t))
    ensures var pid, gid, uid := fp.id, fp.rest.id, fp.rest.sibling.id;
      1 <= pid < |nodes| && 1 <= gid < |nodes| && 1 <= uid < |nodes| && pid != gid && pid != uid && gid != uid
    ensures fp.rest.id == root <==> fp.rest.rest.Top?
  {
    TwoFrameIds(nodes, fp, me, t, root);
    assert fp.rest.sibling.id in Ids(fp.rest.sibling);
  }

  /** The writes the red-uncle case makes, slot by slot. */
  lemma RecolouredSlots<V>(a: seq<Slot<V>>, b: seq<Slot<V>>, pid: nat, uid: nat, gid: nat, done: bool)
    requires Recoloured(a, b, pid, uid, gid, done) && pid != gid && pid != uid && gid != uid
    ensures SameOutside(a, b, {pid, gid, uid})
    ensures b[pid] == WithColor(a[pid], Black) && b[uid] == WithColor(a[uid], Black)
    ensures b[gid] == WithColor(a[gid], if done then a[gid].color else Red)
  {
  }

  /** The recoloured records hold the grandparent's new subtree in its old place. */
  lemma RecolorPlug<V>(a: seq<Slot<V>>, b: seq<Slot<V>>, fp: Path<V>, me: nat, t: Tree<V>, root: nat, done: bool)
    requires fp.Up? && fp.rest.Up? && IsRed(fp.rest.sibling) && t.Node? && me == t.id
    requires Holds(a, root, Plug(fp, t)) && DistinctIds(Plug(fp, t))
    requires done <==> fp.rest.id == root
    requires Recoloured(a, b, fp.id, fp.rest.sibling.id, fp.rest.id, done)
    ensures |b| == |a| && b[NullIndex] == a[NullIndex] && (done <==> fp.rest.rest.Top?)
    ensures var gid := fp.rest.id;
      var c := if done then fp.rest.color else Red;
      Holds(b, root, Plug(fp.rest.rest, Attach(fp.rest.dir, gid, c, fp.rest.key, fp.rest.value, Painted(fp.rest.sibling, Black),
                                               Attach(fp.dir, fp.id, Black, fp.key, fp.value, fp.sibling, t))))
  {
    ReprPlug(a, fp, t, root);
    ThreeSlots(a, fp, me, t, root);
    var pid, gid, uid := fp.id, fp.rest.id, fp.rest.sibling.id;
    RecolouredSlots(a, b, pid, uid, gid, done);
    var c := if done then fp.rest.color else Red;
    RecolorRepr(a, b, fp, me, t, root, c);
    var g := Attach(fp.rest.dir, gid, c, fp.rest.key, fp.rest.value, Painted(fp.rest.sibling, Black),
                    Attach(fp.dir, pid, Black, fp.key, fp.value, fp.sibling, t));
    ReprPlug(b, fp.rest.rest, g, root);
  }

  /** The index a tree's root sits at, as a set: empty for `Nil`. */
  function RootSet<V>(t: Tree<V>): set<nat>
  {
    if t.Nil? then {} else {t.id}
  }

  function TopSet<V>(p: Path<V>): set<nat>
  {
    if p.Top? then {} else {p.id}
  }

  /**
   * Black uncle, parent and node on the same side `d`: the slots written by
   * the single rotation, with the parent's side read before it changes.
   */
  ghost predicate StraightSlots<V>(nodes: seq<Slot<V>>, nodes': seq<Slot<V>>, fp: Path<V>, me: nat)
    requires fp.Up? && fp.rest.Up?
  {
    var d, pid, pk, pv, ps := fp.dir, fp.id, fp.key, fp.value, fp.sibling;
    var gid, gk, gv, u, rest2 := fp.rest.id, fp.rest.key, fp.rest.value, fp.rest.sibling, fp.rest.rest;
    SameOutside(nodes, nodes', {NullIndex, pid, gid} + RootSet(ps) + TopSet(rest2)) &&
    pid < |nodes| && gid < |nodes| &&
    nodes'[pid] == Joined(pk, pv, Black, d, me, gid, HoleParent(rest2, None), HoleSide(rest2, None)) &&
    nodes'[gid] == Joined(gk, gv, Red, d, RootId(ps), RootId(u), Some(pid), Some(Other(d))) &&
    (ps.Node? ==> ps.id < |nodes| && nodes'[ps.id] == WithSide(WithParent(nodes[ps.id], Some(gid)), Some(d))) &&
    (rest2.Up? ==> rest2.id < |nodes| && nodes'[rest2.id] == SetChild(nodes[rest2.id], rest2.dir, pid))
  }

  /** A record joining two represented subtrees represents the tree attaching them. */
  lemma AttachRepr<V>(nodes: seq<Slot<V>>, d: Direction, id: nat, c: Color, k: int, v: V, s: Tree<V>, t: Tree<V>,
                      parent: Option<nat>, side: Option<Direction>)
    requires 1 <= id < |nodes| && nodes[id] == Joined(k, v, c, d, RootId(t), RootId(s), parent, side)
    requires Represents(nodes, RootId(t), t, Some(id), Some(d))
    requires Represents(nodes, RootId(s), s, Some(id), Some(Other(d)))
    ensures Represents(nodes, id, Attach(d, id, c, k, v, s, t), parent, side)
  {
  }

  /**
   * Above a rotation: the record that held the grandparent now holds `h'`
   * instead, and a write confined to the rotated part leaves the rest of the
   * path as it was.
   */
  lemma AboveRepr<V>(nodes: seq<Slot<V>>, nodes': seq<Slot<V>>, fp: Path<V>, me: nat, t: Tree<V>, root: nat,
                     w: set<nat>, h': nat)
    requires fp.Up? && fp.rest.Up? && fp.rest.rest.Up?
    requires ReprPath(nodes, fp, me, root) && Represents(nodes, me, t, HoleParent(fp, None), HoleSide(fp, None))
    requires DistinctIds(Plug(fp, t))
    requires w <= {NullIndex, fp.id, fp.rest.id, fp.rest.rest.id} + Ids(t) + Ids(fp.sibling)
    requires SameOutside(nodes, nodes', w)
    requires fp.rest.rest.id < |nodes'|
    requires nodes'[fp.rest.rest.id] == SetChild(nodes[fp.rest.rest.id], fp.rest.rest.dir, h')
    ensures ReprPath(nodes', fp.rest.rest, h', root)
  {
    TwoFrameIds(nodes, fp, me, t, root);
    var rest2 := fp.rest.rest;
    AgreeOutside(nodes, nodes', w, PathIds(rest2) - {rest2.id});
    Retarget(nodes, nodes', rest2, fp.rest.id, h', root);
  }

  lemma StraightRepr<V>(nodes: seq<Slot<V>>, nodes': seq<Slot<V>>, fp: Path<V>, me: nat, t: Tree<V>, root: nat)
    requires fp.Up? && fp.rest.Up? && fp.dir == fp.rest.dir
    requires ReprPath(nodes, fp, me, root) && Represents(nodes, me, t, HoleParent(fp, None), HoleSide(fp, None))
    requires DistinctIds(Plug(fp, t))
    requires StraightSlots(nodes, nodes', fp, me)
    ensures var d, pid, pk, pv, ps := fp.dir, fp.id, fp.key, fp.value, fp.sibling;
      var gid, gk, gv, u, rest2 := fp.rest.id, fp.rest.key, fp.rest.value, fp.rest.sibling, fp.rest.rest;
      Represents(nodes', pid, Straight(d, pid, pk, pv, ps, gid, gk, gv, u, t), HoleParent(rest2, None), HoleSide(rest2, None)) &&
      (rest2.Up? ==> ReprPath(nodes', rest2, pid, root)) && (rest2.Top? ==> gid == root)
  {
    TwoFrameIds(nodes, fp, me, t, root);
    var d, pid, ps := fp.dir, fp.id, fp.sibling;
    var gid, rest2 := fp.rest.id, fp.rest.rest;
    var w := {NullIndex, pid, gid} + RootSet(ps) + TopSet(rest2);
    AgreeOutside(nodes, nodes', w, Ids(t));
    ReprFrame(nodes, nodes', me, t, Some(pid), Some(d));
    StraightGrandparent(nodes, nodes', fp, me, t, root);
    assert me == RootId(t);
    AttachRepr(nodes', d, pid, Black, fp.key, fp.value, Attach(d, gid, Red, fp.rest.key, fp.rest.value, fp.rest.sibling, ps), t,
               HoleParent(rest2, None), HoleSide(rest2, None));
    if rest2.Up? {
      assert RootSet(ps) <= Ids(ps);
      AboveRepr(nodes, nodes', fp, me, t, root, w, pid);
    }
  }

  /** A rotated part hanging where the old one did completes the whole tree again. */
  lemma RotatePlug<V>(nodes: seq<Slot<V>>, root0: nat, root': nat, rest: Path<V>, z: Tree<V>, id: nat)
    requires RootId(z) == id && Represents(nodes, id, z, HoleParent(rest, None), HoleSide(rest, None))
    requires rest.Up? ==> ReprPath(nodes, rest, id, root0) && root' == root0
    requires rest.Top? ==> root' == id
    ensures Holds(nodes, root', Plug(rest, z))
  {
    ReprPlug(nodes, rest, z, root');
  }

  /** What the single rotation reads off the arena before it writes. */
  lemma StraightPlan<V>(a: seq<Slot<V>>, fp: Path<V>, me: nat, t: Tree<V>, root: nat)
    requires fp.Up? && fp.rest.Up? && fp.dir == fp.rest.dir
    requires ReprPath(a, fp, me, root) && Represents(a, me, t, HoleParent(fp, None), HoleSide(fp, None))
    requires DistinctIds(Plug(fp, t))
    ensures var par, gp, d := fp.id, fp.rest.id, fp.dir;
      1 <= par < |a| && 1 <= gp < |a| && par != gp &&
      a[par].Record? && a[gp].Record? && a[par].fromDirection == Some(d) &&
      (gp == root <==> a[gp].parent.None?) && (gp == root ==> a[gp].fromDirection.None?) &&
      (gp != root ==> a[gp].fromDirection.Some? && a[gp].parent.value !in {NullIndex, par, gp}) &&
      Child(a[par], Other(d)) !in {par, gp}
  {
    TwoFrameIds(a, fp, me, t, root);
  }

  /** The single rotation, with the parent's side read before it is overwritten, leaves the whole tree with `Straight` in place. */
  lemma StraightStep<V>(a: seq<Slot<V>>, l: seq<Slot<V>>, b: seq<Slot<V>>, root0: nat, root1: nat,
                        fp: Path<V>, me: nat, t: Tree<V>, pd: Direction)
    requires fp.Up? && fp.rest.Up? && fp.dir == fp.rest.dir && pd == fp.dir
    requires ReprPath(a, fp, me, root0) && Represents(a, me, t, HoleParent(fp, None), HoleSide(fp, None))
    requires DistinctIds(Plug(fp, t))
    requires fp.rest.id < |a| && Lifted(a, l, root0, root1, fp.id, fp.rest.id, a[fp.rest.id].parent, a[fp.rest.id].fromDirection)
    requires Turned(l, b, fp.id, fp.rest.id, pd)
    ensures b[NullIndex].color == a[NullIndex].color
    ensures Holds(b, root1, Plug(fp.rest.rest, Straight(fp.dir, fp.id, fp.key, fp.value, fp.sibling,
                                                        fp.rest.id, fp.rest.key, fp.rest.value, fp.rest.sibling, t)))
  {
    TwoFrameIds(a, fp, me, t, root0);
    var par, gp, d, ps, g := fp.id, fp.rest.id, fp.dir, fp.sibling, fp.rest;
    var top, side := HoleParent(g.rest, None), HoleSide(g.rest, None);
    JoinedFields(a[par], fp.key, fp.value, fp.color, d, me, RootId(ps), Some(gp), Some(d));
    JoinedFields(a[gp], g.key, g.value, g.color, d, par, RootId(g.sibling), top, side);
    assert g.rest.Up? ==> (g.rest.id in PathIds(g.rest) && g.rest.id !in {NullIndex, par, gp, RootId(ps)});
    StraightWrites(a, l, b, root0, root1, par, gp, d, me, RootId(ps), RootId(g.sibling),
                   fp.key, fp.value, fp.color, g.key, g.value, g.color, top, side);
    assert {NullIndex, par, gp, RootId(ps)} + OptSet(top) <= {NullIndex, par, gp} + RootSet(ps) + TopSet(g.rest);
    assert StraightSlots(a, b, fp, me);
    StraightRepr(a, b, fp, me, t, root0);
    RotatePlug(b, root0, root1, g.rest, Straight(d, par, fp.key, fp.value, ps, gp, g.key, g.value, g.sibling, t), par);
  }

  /** The old grandparent, now red under the old parent, holding the parent's inner subtree. */
  lemma StraightGrandparent<V>(nodes: seq<Slot<V>>, nodes': seq<Slot<V>>, fp: Path<V>, me: nat, t: Tree<V>, root: nat)
    requires fp.Up? && fp.rest.Up? && fp.dir == fp.rest.dir
    requires ReprPath(nodes, fp, me, root) && Represents(nodes, me, t, HoleParent(fp, None), HoleSide(fp, None))
    requires DistinctIds(Plug(fp, t))
    requires StraightSlots(nodes, nodes', fp, me)
    ensures var d, g := fp.dir, fp.rest;
      Represents(nodes', g.id, Attach(d, g.id, Red, g.key, g.value, g.sibling, fp.sibling), Some(fp.id), Some(Other(d)))
  {
    TwoFrameIds(nodes, fp, me, t, root);
    var d, pid, ps := fp.dir, fp.id, fp.sibling;
    var gid, u, rest2 := fp.rest.id, fp.rest.sibling, fp.rest.rest;
    var w := {NullIndex, pid, gid} + RootSet(ps) + TopSet(rest2);
    AgreeOutside(nodes, nodes', w, Ids(u));
    ReprFrame(nodes, nodes', RootId(u), u, Some(gid), Some(Other(d)));
    SubtreeRoot(ps);
    AgreeOutside(nodes, nodes', w, Ids(ps) - {RootId(ps)});
    ReprRelink(nodes, nodes', ps, Some(pid), Some(Other(d)), Some(gid), Some(d));
  }

  lemma SubtreeRoot<V>(t: Tree<V>)
    requires DistinctIds(t)
    ensures RootSet(t) <= Ids(t) && (t.Node? ==> Ids(t) - {RootId(t)} == Ids(t.left) + Ids(t.right))
  {
  }

  /**
   * Black uncle, parent on side `gd` and node on the other: the slots written
   * by the double rotation that lifts the node above both.
   */
  ghost predicate ZigZagSlots<V>(nodes: seq<Slot<V>>, nodes': seq<Slot<V>>, fp: Path<V>, t: Tree<V>)
    requires fp.Up? && fp.rest.Up? && t.Node?
  {
    var pid, pk, pv, ps := fp.id, fp.key, fp.value, fp.sibling;
    var gd, gid, gk, gv, u, rest2 := fp.rest.dir, fp.rest.id, fp.rest.key, fp.rest.value, fp.rest.sibling, fp.rest.rest;
    var near, far := Sub(t, gd), Sub(t, Other(gd));
    SameOutside(nodes, nodes', {NullIndex, pid, gid, t.id} + RootSet(near) + RootSet(far) + TopSet(rest2)) &&
    pid < |nodes| && gid < |nodes| && t.id < |nodes| &&
    nodes'[t.id] == Joined(t.key, t.value, Black, gd, pid, gid, HoleParent(rest2, None), HoleSide(rest2, None)) &&
    nodes'[pid] == Joined(pk, pv, Red, gd, RootId(ps), RootId(near), Some(t.id), Some(gd)) &&
    nodes'[gid] == Joined(gk, gv, Red, gd, RootId(far), RootId(u), Some(t.id), Some(Other(gd))) &&
    (near.Node? ==> near.id < |nodes| && nodes'[near.id] == WithSide(WithParent(nodes[near.id], Some(pid)), Some(Other(gd)))) &&
    (far.Node? ==> far.id < |nodes| && nodes'[far.id] == WithSide(WithParent(nodes[far.id], Some(gid)), Some(gd))) &&
    (rest2.Up? ==> rest2.id < |nodes| && nodes'[rest2.id] == SetChild(nodes[rest2.id], rest2.dir, t.id))
  }

  /** The ids of the node lifted by the double rotation and of its two subtrees. */
  lemma ZigZagIds<V>(nodes: seq<Slot<V>>, fp: Path<V>, me: nat, t: Tree<V>, root: nat)
    requires fp.Up? && fp.rest.Up? && t.Node?
    requires ReprPath(nodes, fp, me, root) && Represents(nodes, me, t, HoleParent(fp, None), HoleSide(fp, None))
    requires DistinctIds(Plug(fp, t))
    ensures var gd := fp.rest.dir;
      var near, far := Sub(t, gd), Sub(t, Other(gd));
      var w := {NullIndex, fp.id, fp.rest.id, t.id} + RootSet(near) + RootSet(far) + TopSet(fp.rest.rest);
      Ids(near) - RootSet(near) !! w && Ids(far) - RootSet(far) !! w &&
      DistinctIds(near) && DistinctIds(far) && me == t.id &&
      RootId(near) == Child(nodes[me], fp.rest.dir) && RootId(far) == Child(nodes[me], Other(fp.rest.dir))
  {
    ReprIds(nodes, me, t, HoleParent(fp, None), HoleSide(fp, None));
    ReprIds(nodes, nodes[me].left, t.left, Some(me), Some(Left));
    ReprIds(nodes, nodes[me].right, t.right, Some(me), Some(Right));
    InnerIds(fp, t);
  }

  /** The ids strictly inside the lifted node's two subtrees avoid every index the double rotation writes. */
  lemma InnerIds<V>(fp: Path<V>, t: Tree<V>)
    requires fp.Up? && fp.rest.Up? && t.Node? && DistinctIds(Plug(fp, t))
    requires forall j :: j in Ids(t) ==> 1 <= j
    ensures var gd := fp.rest.dir;
      var near, far := Sub(t, gd), Sub(t, Other(gd));
      var w := {NullIndex, fp.id, fp.rest.id, t.id} + RootSet(near) + RootSet(far) + TopSet(fp.rest.rest);
      Ids(near) - RootSet(near) !! w && Ids(far) - RootSet(far) !! w &&
      DistinctIds(near) && DistinctIds(far)
  {
    TwoFrameDistinct(fp, t);
    var gd := fp.rest.dir;
    var near, far := Sub(t, gd), Sub(t, Other(gd));
    SubtreeIds(t, gd);
    SubtreeIds(t, Other(gd));
    var w := {NullIndex, fp.id, fp.rest.id, t.id} + RootSet(near) + RootSet(far) + TopSet(fp.rest.rest);
    DisjointFromWritten(Ids(near) - RootSet(near), Ids(t), Ids(far), PathIds(fp.rest.rest), w, fp.id, fp.rest.id, t.id, RootSet(near), RootSet(far), TopSet(fp.rest.rest));
    DisjointFromWritten(Ids(far) - RootSet(far), Ids(t), Ids(near), PathIds(fp.rest.rest), w, fp.id, fp.rest.id, t.id, RootSet(far), RootSet(near), TopSet(fp.rest.rest));
  }

  lemma SubtreeIds<V>(t: Tree<V>, d: Direction)
    requires t.Node? && DistinctIds(t)
    ensures Ids(Sub(t, d)) <= Ids(t) - {t.id} && Ids(Sub(t, d)) !! Ids(Sub(t, Other(d))) && DistinctIds(Sub(t, d))
    ensures RootSet(Sub(t, d)) <= Ids(Sub(t, d))
  {
  }

  /** Set bookkeeping for the double rotation: a subtree's inner ids avoid every written index. */
  lemma DisjointFromWritten(x: set<nat>, whole: set<nat>, other: set<nat>, path: set<nat>, w: set<nat>,
                            pid: nat, gid: nat, me: nat, own: set<nat>, otherRoot: set<nat>, top: set<nat>)
    requires w == {NullIndex, pid, gid, me} + own + otherRoot + top
    requires x <= whole - {me} - own && x !! other && otherRoot <= other
    requires whole !! path && top <= path && pid !in whole && gid !in whole
    requires forall j :: j in whole ==> 1 <= j
    ensures x !! w
  {
  }

  lemma ZigZagRepr<V>(nodes: seq<Slot<V>>, nodes': seq<Slot<V>>, fp: Path<V>, me: nat, t: Tree<V>, root: nat)
    requires fp.Up? && fp.rest.Up? && fp.dir == Other(fp.rest.dir) && t.Node?
    requires ReprPath(nodes, fp, me, root) && Represents(nodes, me, t, HoleParent(fp, None), HoleSide(fp, None))
    requires DistinctIds(Plug(fp, t))
    requires ZigZagSlots(nodes, nodes', fp, t)
    ensures var pid, pk, pv, ps := fp.id, fp.key, fp.value, fp.sibling;
      var gd, gid, gk, gv, u, rest2 := fp.rest.dir, fp.rest.id, fp.rest.key, fp.rest.value, fp.rest.sibling, fp.rest.rest;
      Represents(nodes', me, ZigZag(gd, pid, pk, pv, ps, gid, gk, gv, u, t), HoleParent(rest2, None), HoleSide(rest2, None)) &&
      (rest2.Up? ==> ReprPath(nodes', rest2, me, root)) && (rest2.Top? ==> gid == root)
  {
    TwoFrameIds(nodes, fp, me, t, root);
    ZigZagIds(nodes, fp, me, t, root);
    var pid, pk, pv, ps := fp.id, fp.key, fp.value, fp.sibling;
    var gd, gid, gk, gv, u, rest2 := fp.rest.dir, fp.rest.id, fp.rest.key, fp.rest.value, fp.rest.sibling, fp.rest.rest;
    var near, far := Sub(t, gd), Sub(t, Other(gd));
    var pn := Attach(Other(gd), pid, Red, pk, pv, ps, near);
    var gn := Attach(gd, gid, Red, gk, gv, u, far);
    ZigZagParent(nodes, nodes', fp, me, t, root);
    ZigZagGrandparent(nodes, nodes', fp, me, t, root);
    assert ZigZag(gd, pid, pk, pv, ps, gid, gk, gv, u, t) == Attach(gd, me, Black, t.key, t.value, gn, pn);
    if rest2.Up? {
      var w := {NullIndex, pid, gid, t.id} + RootSet(near) + RootSet(far) + TopSet(rest2);
      SubtreeIds(t, gd);
      SubtreeIds(t, Other(gd));
      AboveRepr(nodes, nodes', fp, me, t, root, w, me);
    }
  }

  /** What the double rotation reads off the arena before it writes. */
  lemma ZigZagPlan<V>(a: seq<Slot<V>>, fp: Path<V>, me: nat, t: Tree<V>, root: nat)
    requires fp.Up? && fp.rest.Up? && fp.dir == Other(fp.rest.dir) && t.Node?
    requires ReprPath(a, fp, me, root) && Represents(a, me, t, HoleParent(fp, None), HoleSide(fp, None))
    requires DistinctIds(Plug(fp, t))
    ensures var par, gp, gd := fp.id, fp.rest.id, fp.rest.dir;
      1 <= me < |a| && 1 <= par < |a| && 1 <= gp < |a| && me != par && me != gp && par != gp &&
      a[me].Record? && a[par].Record? && a[gp].Record? && a[par].fromDirection == Some(gd) &&
      (gp == root <==> a[gp].parent.None?) && (gp == root ==> a[gp].fromDirection.None?) &&
      (gp != root ==> a[gp].fromDirection.Some? && a[gp].parent.value !in {NullIndex, me, par, gp}) &&
      Child(a[me], Other(gd)) !in {me, par, gp} && Child(a[me], gd) !in {me, par, gp}
  {
    TwoFrameIds(a, fp, me, t, root);
    ZigZagIds(a, fp, me, t, root);
    SubtreeIds(t, fp.rest.dir);
    SubtreeIds(t, Other(fp.rest.dir));
  }

  /** The double rotation, written as lines 233-281 write it, leaves the whole tree with `ZigZag` in place. */
  lemma ZigZagStep<V>(a: seq<Slot<V>>, l: seq<Slot<V>>, n4: seq<Slot<V>>, n5: seq<Slot<V>>, b: seq<Slot<V>>,
                      root0: nat, root1: nat, fp: Path<V>, me: nat, t: Tree<V>, pd: Direction)
    requires fp.Up? && fp.rest.Up? && fp.dir == Other(fp.rest.dir) && t.Node? && fp.color == Red && pd == fp.rest.dir
    requires ReprPath(a, fp, me, root0) && Represents(a, me, t, HoleParent(fp, None), HoleSide(fp, None))
    requires DistinctIds(Plug(fp, t))
    requires var par, gp, gd := fp.id, fp.rest.id, fp.rest.dir;
      gp < |a| && Lifted(a, l, root0, root1, me, gp, a[gp].parent, a[gp].fromDirection) &&
      Turned(l, n4, me, gp, pd) && Turned(n4, n5, me, par, Other(pd)) && b == n5[par := WithParent(n5[par], Some(me))]
    ensures b[NullIndex].color == a[NullIndex].color
    ensures Holds(b, root1, Plug(fp.rest.rest, ZigZag(fp.rest.dir, fp.id, fp.key, fp.value, fp.sibling,
                                                      fp.rest.id, fp.rest.key, fp.rest.value, fp.rest.sibling, t)))
  {
    ZigZagStepSlots(a, l, n4, n5, b, root0, root1, fp, me, t, pd);
    ZigZagRepr(a, b, fp, me, t, root0);
    var g := fp.rest;
    RotatePlug(b, root0, root1, g.rest, ZigZag(g.dir, fp.id, fp.key, fp.value, fp.sibling, g.id, g.key, g.value, g.sibling, t), me);
  }

  /** The double rotation's writes, read against the tree they rotate. */
  lemma ZigZagStepSlots<V>(a: seq<Slot<V>>, l: seq<Slot<V>>, n4: seq<Slot<V>>, n5: seq<Slot<V>>, b: seq<Slot<V>>,
                           root0: nat, root1: nat, fp: Path<V>, me: nat, t: Tree<V>, pd: Direction)
    requires fp.Up? && fp.rest.Up? && fp.dir == Other(fp.rest.dir) && t.Node? && fp.color == Red && pd == fp.rest.dir
    requires ReprPath(a, fp, me, root0) && Represents(a, me, t, HoleParent(fp, None), HoleSide(fp, None))
    requires DistinctIds(Plug(fp, t))
    requires var par, gp, gd := fp.id, fp.rest.id, fp.rest.dir;
      gp < |a| && Lifted(a, l, root0, root1, me, gp, a[gp].parent, a[gp].fromDirection) &&
      Turned(l, n4, me, gp, pd) && Turned(n4, n5, me, par, Other(pd)) && b == n5[par := WithParent(n5[par], Some(me))]
    ensures b[NullIndex].color == a[NullIndex].color && ZigZagSlots(a, b, fp, t)
    ensures fp.rest.rest.Up? ==> root1 == root0
    ensures fp.rest.rest.Top? ==> root1 == me
  {
    ZigZagFacts(a, fp, me, t, root0);
    var par, ps, g := fp.id, fp.sibling, fp.rest;
    var gp, gd := g.id, g.dir;
    var near, far := Sub(t, gd), Sub(t, Other(gd));
    var top, side := HoleParent(g.rest, None), HoleSide(g.rest, None);
    ZigZagWrites(a, l, n4, n5, b, root0, root1, me, par, gp, gd, RootId(near), RootId(far), RootId(ps), RootId(g.sibling),
                 t.key, t.value, t.color, fp.key, fp.value, fp.color, g.key, g.value, g.color, top, side);
    assert ZigZagSlots(a, b, fp, t);
  }

  /** What the double rotation reads off the arena, in the terms the writes are stated in. */
  lemma ZigZagFacts<V>(a: seq<Slot<V>>, fp: Path<V>, me: nat, t: Tree<V>, root: nat)
    requires fp.Up? && fp.rest.Up? && fp.dir == Other(fp.rest.dir) && t.Node?
    requires ReprPath(a, fp, me, root) && Represents(a, me, t, HoleParent(fp, None), HoleSide(fp, None))
    requires DistinctIds(Plug(fp, t))
    ensures var par, ps, g := fp.id, fp.sibling, fp.rest;
      var gp, gd := g.id, g.dir;
      var near, far := RootId(Sub(t, gd)), RootId(Sub(t, Other(gd)));
      var top, side := HoleParent(g.rest, None), HoleSide(g.rest, None);
      |a| >= 1 && 1 <= me < |a| && 1 <= par < |a| && 1 <= gp < |a| && near < |a| && far < |a| &&
      me != par && me != gp && par != gp &&
      near !in {me, par, gp} && far !in {me, par, gp} && (near == far ==> near == NullIndex) &&
      (top.Some? ==> top.value !in {NullIndex, me, par, gp, near, far}) &&
      {NullIndex, me, par, gp, near, far} + OptSet(top) <=
        {NullIndex, par, gp, t.id} + RootSet(Sub(t, gd)) + RootSet(Sub(t, Other(gd))) + TopSet(g.rest)
    ensures ZigZagJoins(a, fp, me, t)
  {
    ZigZagJoined(a, fp, me, t, root);
    ZigZagDistinct(fp, t);
    var g := fp.rest;
    assert ReprPath(a, g, fp.id, root);
    assert ReprPath(a, g.rest, g.id, root);
  }

  /** In a tree with distinct ids: the node, its parent, its grandparent, the roots of its two subtrees and the great-grandparent are distinct. */
  lemma ZigZagDistinct<V>(fp: Path<V>, t: Tree<V>)
    requires fp.Up? && fp.rest.Up? && t.Node? && DistinctIds(Plug(fp, t))
    ensures var p, g, gd := fp.id, fp.rest.id, fp.rest.dir;
      var near, far, top := RootSet(Sub(t, gd)), RootSet(Sub(t, Other(gd))), TopSet(fp.rest.rest);
      t.id != p && t.id != g && p != g && near !! {t.id, p, g} && far !! {t.id, p, g} && near !! far &&
      top !! {t.id, p, g} + near + far
  {
    IdsOfPlug(fp, t);
    SubtreeIds(t, fp.rest.dir);
    SubtreeIds(t, Other(fp.rest.dir));
    assert fp.rest.rest.Up? ==> fp.rest.rest.id in PathIds(fp.rest.rest);
  }

  /** The three records the double rotation reads, field by field. */
  ghost predicate ZigZagJoins<V>(a: seq<Slot<V>>, fp: Path<V>, me: nat, t: Tree<V>)
    requires fp.Up? && fp.rest.Up? && t.Node?
  {
    var par, ps, g := fp.id, fp.sibling, fp.rest;
    var gp, gd := g.id, g.dir;
    var top, side := HoleParent(g.rest, None), HoleSide(g.rest, None);
    me < |a| && par < |a| && gp < |a| && me == t.id &&
    a[me] == Joined(t.key, t.value, t.color, gd, RootId(Sub(t, gd)), RootId(Sub(t, Other(gd))), Some(par), Some(Other(gd))) &&
    a[par] == Joined(fp.key, fp.value, fp.color, gd, RootId(ps), me, Some(gp), Some(gd)) &&
    a[gp] == Joined(g.key, g.value, g.color, gd, par, RootId(g.sibling), top, side)
  }

  lemma ZigZagJoined<V>(a: seq<Slot<V>>, fp: Path<V>, me: nat, t: Tree<V>, root: nat)
    requires fp.Up? && fp.rest.Up? && fp.dir == Other(fp.rest.dir) && t.Node?
    requires ReprPath(a, fp, me, root) && Represents(a, me, t, HoleParent(fp, None), HoleSide(fp, None))
    ensures ZigZagJoins(a, fp, me, t)
  {
    var par, ps, g := fp.id, fp.sibling, fp.rest;
    var gp, gd := g.id, g.dir;
    var top, side := HoleParent(g.rest, None), HoleSide(g.rest, None);
    JoinedFields(a[me], t.key, t.value, t.color, gd, RootId(Sub(t, gd)), RootId(Sub(t, Other(gd))), Some(par), Some(Other(gd)));
    JoinedFields(a[par], fp.key, fp.value, fp.color, gd, RootId(ps), me, Some(gp), Some(gd));
    JoinedFields(a[gp], g.key, g.value, g.color, gd, par, RootId(g.sibling), top, side);
  }

  /** The old parent, now under the lifted node on the grandparent's side. */
  lemma ZigZagParent<V>(nodes: seq<Slot<V>>, nodes': seq<Slot<V>>, fp: Path<V>, me: nat, t: Tree<V>, root: nat)
    requires fp.Up? && fp.rest.Up? && fp.dir == Other(fp.rest.dir) && t.Node?
    requires ReprPath(nodes, fp, me, root) && Represents(nodes, me, t, HoleParent(fp, None), HoleSide(fp, None))
    requires DistinctIds(Plug(fp, t))
    requires ZigZagSlots(nodes, nodes', fp, t)
    ensures var gd := fp.rest.dir;
      Represents(nodes', fp.id, Attach(Other(gd), fp.id, Red, fp.key, fp.value, fp.sibling, Sub(t, gd)), Some(me), Some(gd))
  {
    TwoFrameIds(nodes, fp, me, t, root);
    ZigZagIds(nodes, fp, me, t, root);
    var gd := fp.rest.dir;
    var near, far := Sub(t, gd), Sub(t, Other(gd));
    var w := {NullIndex, fp.id, fp.rest.id, t.id} + RootSet(near) + RootSet(far) + TopSet(fp.rest.rest);
    AgreeOutside(nodes, nodes', w, Ids(fp.sibling));
    ReprFrame(nodes, nodes', RootId(fp.sibling), fp.sibling, Some(fp.id), Some(gd));
    AgreeOutside(nodes, nodes', w, Ids(near) - RootSet(near));
    ReprRelink(nodes, nodes', near, Some(me), Some(gd), Some(fp.id), Some(Other(gd)));
  }

  /** The old grandparent, now under the lifted node on the other side. */
  lemma ZigZagGrandparent<V>(nodes: seq<Slot<V>>, nodes': seq<Slot<V>>, fp: Path<V>, me: nat, t: Tree<V>, root: nat)
    requires fp.Up? && fp.rest.Up? && fp.dir == Other(fp.rest.dir) && t.Node?
    requires ReprPath(nodes, fp, me, root) && Represents(nodes, me, t, HoleParent(fp, None), HoleSide(fp, None))
    requires DistinctIds(Plug(fp, t))
    requires ZigZagSlots(nodes, nodes', fp, t)
    ensures var gd := fp.rest.dir;
      Represents(nodes', fp.rest.id, Attach(gd, fp.rest.id, Red, fp.rest.key, fp.rest.value, fp.rest.sibling, Sub(t, Other(gd))),
                 Some(me), Some(Other(gd)))
  {
    TwoFrameIds(nodes, fp, me, t, root);
    ZigZagIds(nodes, fp, me, t, root);
    var gd, u := fp.rest.dir, fp.rest.sibling;
    var near, far := Sub(t, gd), Sub(t, Other(gd));
    var w := {NullIndex, fp.id, fp.rest.id, t.id} + RootSet(near) + RootSet(far) + TopSet(fp.rest.rest);
    AgreeOutside(nodes, nodes', w, Ids(u));
    ReprFrame(nodes, nodes', RootId(u), u, Some(fp.rest.id), Some(Other(gd)));
    AgreeOutside(nodes, nodes', w, Ids(far) - RootSet(far));
    ReprRelink(nodes, nodes', far, Some(me), Some(Other(gd)), Some(fp.rest.id), Some(gd));
  }

  /** `delete` copying the predecessor's key and value into the matched record. */
  lemma CopyRepr<V>(nodes: seq<Slot<V>>, nodes': seq<Slot<V>>, pm: Path<V>, m: Tree<V>, k: int, v: V, root: nat)
    requires m.Node? && Holds(nodes, root, Plug(pm, m)) && DistinctIds(Plug(pm, m))
    requires m.id < |nodes| && nodes[m.id].Record?
    requires nodes' == nodes[m.id := nodes[m.id].(key := k, value := v)]
    ensures Holds(nodes', root, Plug(pm, Node(m.id, m.color, k, v, m.left, m.right)))
  {
    ReprPlug(nodes, pm, m, root);
    IdsOfPlug(pm, m);
    ReprPathIds(nodes, pm, m.id, root);
    ReprIds(nodes, m.id, m, HoleParent(pm, None), HoleSide(pm, None));
    AgreeUpdate(nodes, m.id, nodes[m.id].(key := k, value := v), PathIds(pm));
    ReprPathFrame(nodes, nodes', pm, m.id, root);
    AgreeUpdate(nodes, m.id, nodes[m.id].(key := k, value := v), Ids(m) - {m.id});
    ReprRelabel(nodes, nodes', m, HoleParent(pm, None), HoleSide(pm, None), k, v, m.color,
                HoleParent(pm, None), HoleSide(pm, None));
    ReprPlug(nodes', pm, Node(m.id, m.color, k, v, m.left, m.right), root);
  }

  /** `delete` unlinking the record at the hole of `q` from its parent. */
  lemma UnlinkRepr<V>(nodes: seq<Slot<V>>, nodes': seq<Slot<V>>, q: Path<V>, y: Tree<V>, root: nat)
    requires q.Up? && Holds(nodes, root, Plug(q, y)) && DistinctIds(Plug(q, y))
    requires q.id < |nodes| && nodes' == nodes[q.id := SetChild(nodes[q.id], q.dir, NullIndex)]
    ensures Holds(nodes', root, Plug(q, Nil))
  {
    ReprPlug(nodes, q, y, root);
    IdsOfPlug(q, y);
    ReprPathIds(nodes, q, RootId(y), root);
    AgreeUpdate(nodes, q.id, SetChild(nodes[q.id], q.dir, NullIndex), PathIds(q) - {q.id});
    Retarget(nodes, nodes', q, RootId(y), NullIndex, root);
    ReprPlug(nodes', q, Nil, root);
  }

  /** `delete` moving a red right child's key and value into its parent and dropping the child. */
  lemma AbsorbRepr<V>(nodes: seq<Slot<V>>, nodes': seq<Slot<V>>, q: Path<V>, y: Tree<V>, root: nat)
    requires y.Node? && y.right.Node? && Holds(nodes, root, Plug(q, y)) && DistinctIds(Plug(q, y))
    requires y.id < |nodes| && nodes[y.id].Record?
    requires nodes' == nodes[y.id := nodes[y.id].(key := y.right.key, value := y.right.value, right := NullIndex)]
    ensures Holds(nodes', root, Plug(q, Node(y.id, y.color, y.right.key, y.right.value, y.left, Nil)))
  {
    var y' := Node(y.id, y.color, y.right.key, y.right.value, y.left, Nil);
    var slot := nodes[y.id].(key := y.right.key, value := y.right.value, right := NullIndex);
    ReprPlug(nodes, q, y, root);
    IdsOfPlug(q, y);
    ReprPathIds(nodes, q, y.id, root);
    ReprIds(nodes, y.id, y, HoleParent(q, None), HoleSide(q, None));
    AgreeUpdate(nodes, y.id, slot, PathIds(q));
    ReprPathFrame(nodes, nodes', q, y.id, root);
    assert Ids(y.left) <= Ids(y) - {y.id};
    AgreeUpdate(nodes, y.id, slot, Ids(y.left));
    ReprFrame(nodes, nodes', nodes[y.id].left, y.left, Some(y.id), Some(Left));
    assert Represents(nodes', y.id, y', HoleParent(q, None), HoleSide(q, None));
    ReprPlug(nodes', q, y', root);
  }

  // ---------------------------------------------------------------------
  // The straight-line rotation exactly as written in `insert`

  /**
   * Lines 206-216 of `red_black_tree.py` (and 238-248 for the double
   * rotation): `x` takes `gp`'s place under `gp`'s parent on `gp`'s side, or
   * becomes the root with no parent and no side.
   */
  function HangAt<V>(nodes: seq<Slot<V>>, root: nat, x: nat, gp: nat): (r: (seq<Slot<V>>, nat))
    requires WellFormed(nodes, root)
    requires 1 <= x < |nodes| && 1 <= gp < |nodes| && x != gp
    requires gp != root ==> nodes[gp].parent.Some? && nodes[gp].parent.value != x
    ensures |r.0| == |nodes| && WellFormed(r.0, r.1)
    ensures gp == root ==> r.1 == x && r.0 == nodes[x := WithSide(WithParent(nodes[x], None), None)]
    ensures gp != root ==>
      var up, sd := nodes[gp].parent.value, (if nodes[gp].fromDirection == Some(Left) then Left else Right);
      r.1 == root && r.0 == nodes[x := WithSide(WithParent(nodes[x], Some(up)), Some(sd))][up := SetChild(nodes[up], sd, x)]
  {
    if gp != root then
      var up: nat := nodes[gp].parent.value;
      var n1: seq<Slot<V>> := nodes[x := WithParent(nodes[x], Some(up))];
      var d: Direction := if n1[gp].fromDirection == Some(Left) then Left else Right;
      var n2: seq<Slot<V>> := n1[up := SetChild(n1[up], d, x)];
      (n2[x := WithSide(n2[x], Some(d))], root)
    else
      (nodes[x := WithSide(WithParent(nodes[x], None), None)], x)
  }

  /**
   * Lines 202-217 (and 234-249): `x` turns black and `gp` red, `x` is hung
   * where `gp` was, and `gp` now hangs from `x`.
   */
  function LiftAt<V>(nodes: seq<Slot<V>>, root: nat, x: nat, gp: nat): (r: (seq<Slot<V>>, nat))
    requires WellFormed(nodes, root)
    requires 1 <= x < |nodes| && 1 <= gp < |nodes| && x != gp
    requires gp != root ==> nodes[gp].parent.Some? && nodes[gp].parent.value != x
    ensures |r.0| == |nodes| && r.1 < |nodes|
  {
    var n1: seq<Slot<V>> := nodes[x := WithColor(nodes[x], Black)];
    var n2: seq<Slot<V>> := n1[gp := WithColor(n1[gp], Red)];
    var h: (seq<Slot<V>>, nat) := HangAt(n2, root, x, gp);
    (h.0[gp := WithParent(h.0[gp], Some(x))], h.1)
  }

  /**
   * Lines 219-223 (and their mirror image, and lines 252-263): `low`
   * descends on side `Other(e)` of `top` and takes `top`'s child on that side
   * as its own child on side `e`.
   */
  function TurnAt<V>(nodes: seq<Slot<V>>, top: nat, low: nat, e: Direction): (r: seq<Slot<V>>)
    requires |nodes| >= 1 && 1 <= top < |nodes| && 1 <= low < |nodes| && top != low
    requires nodes[top].Record? && nodes[low].Record?
    requires nodes[top].left < |nodes| && nodes[top].right < |nodes|
    ensures |r| == |nodes| && r[top].Record? && r[low].Record?
    ensures Child(r[top], Other(e)) == low && Child(r[top], e) == Child(nodes[top], e)
    ensures Child(r[low], e) == Child(nodes[top], Other(e)) && Child(r[low], Other(e)) == Child(nodes[low], Other(e))
  {
    var inner: nat := Child(nodes[top], Other(e));
    var n1: seq<Slot<V>> := nodes[low := SetChild(nodes[low], e, inner)];
    var n2: seq<Slot<V>> := n1[inner := WithSide(WithParent(n1[inner], Some(low)), Some(e))];
    var n3: seq<Slot<V>> := n2[top := SetChild(n2[top], Other(e), low)];
    n3[low := WithSide(n3[low], Some(Other(e)))]
  }

  /**
   * The single rotation exactly as lines 201-231 write it: the side of the
   * second half is read from `par`'s `from_direction`, which the first half has
   * already overwritten with `gp`'s side (or with `None` at the root).
   */
  function StraightAsWritten<V>(nodes: seq<Slot<V>>, root: nat, par: nat, gp: nat): (r: (seq<Slot<V>>, nat))
    requires WellFormed(nodes, root)
    requires 1 <= par < |nodes| && 1 <= gp < |nodes| && par != gp && nodes[par].Record? && nodes[gp].Record?
    requires gp != root ==> nodes[gp].parent.Some? && nodes[gp].parent.value != par
  {
    var l: (seq<Slot<V>>, nat) := LiftAt(nodes, root, par, gp);
    LiftShape(nodes, root, par, gp);
    var d: Direction := if l.0[par].fromDirection == Some(Left) then Left else Right;
    (TurnAt(l.0, par, gp, d), l.1)
  }

  /** What the lift leaves: a well-formed arena whose records are where they were. */
  lemma LiftShape<V>(nodes: seq<Slot<V>>, root: nat, x: nat, gp: nat)
    requires WellFormed(nodes, root)
    requires 1 <= x < |nodes| && 1 <= gp < |nodes| && x != gp
    requires gp != root ==> nodes[gp].parent.Some? && nodes[gp].parent.value != x
    ensures var (b, r) := LiftAt(nodes, root, x, gp);
      WellFormed(b, r) &&
      (forall i :: 0 <= i < |nodes| ==> b[i].Record? == nodes[i].Record?) &&
      (nodes[x].Record? ==> b[x].left == nodes[x].left && b[x].right == nodes[x].right)
  {
    var n1 := nodes[x := WithColor(nodes[x], Black)];
    StoreOk(nodes, root, x, WithColor(nodes[x], Black));
    var n2 := n1[gp := WithColor(n1[gp], Red)];
    StoreOk(n1, root, gp, WithColor(n1[gp], Red));
    var h := HangAt(n2, root, x, gp);
    StoreOk(h.0, h.1, gp, WithParent(h.0[gp], Some(x)));
  }

  lemma SameOutsideTrans<V>(a: seq<Slot<V>>, b: seq<Slot<V>>, c: seq<Slot<V>>, w1: set<nat>, w2: set<nat>)
    requires SameOutside(a, b, w1) && SameOutside(b, c, w2)
    ensures SameOutside(a, c, w1 + w2)
  {
  }

  function OptSet(x: Option<nat>): set<nat>
  {
    if x.Some? then {x.value} else {}
  }

  /**
   * What the lift promises, slot by slot: `x` is black and hangs from `top`
   * on `side`, `gp` is red and hangs from `x`, the record above now holds
   * `x` instead of `gp`, and no other slot changes.
   */
  ghost predicate Lifted<V>(a: seq<Slot<V>>, b: seq<Slot<V>>, root: nat, root': nat, x: nat, gp: nat,
                            top: Option<nat>, side: Option<Direction>)
  {
    WellFormed(b, root') && root' == (if top.None? then x else root) && LiftSlots(a, b, x, gp, top, side)
  }

  /** The slots a lift writes, without the well-formedness of the result. */
  ghost predicate LiftSlots<V>(a: seq<Slot<V>>, b: seq<Slot<V>>, x: nat, gp: nat, top: Option<nat>, side: Option<Direction>)
  {
    |b| == |a| && x < |a| && gp < |a| && (top.Some? ==> top.value < |a| && side.Some?) &&
    b[x] == WithSide(WithParent(WithColor(a[x], Black), top), side) &&
    b[gp] == WithParent(WithColor(a[gp], Red), Some(x)) &&
    (top.Some? ==> b[top.value] == SetChild(a[top.value], side.value, x)) &&
    SameOutside(a, b, {x, gp} + OptSet(top))
  }

  /**
   * What a turn promises: `low` takes `top`'s child on side `Other(e)` as
   * its child on side `e` and hangs on side `Other(e)` of `top`; that child
   * hangs from `low` on side `e`; no other slot changes.
   */
  ghost predicate Turned<V>(a: seq<Slot<V>>, b: seq<Slot<V>>, top: nat, low: nat, e: Direction)
  {
    |b| == |a| && top < |a| && low < |a| && a[top].Record? && Child(a[top], Other(e)) < |a| &&
    var inner := Child(a[top], Other(e));
    b[low] == WithSide(SetChild(a[low], e, inner), Some(Other(e))) &&
    b[inner] == WithSide(WithParent(a[inner], Some(low)), Some(e)) &&
    b[top] == SetChild(a[top], Other(e), low) &&
    SameOutside(a, b, {top, low, inner})
  }

  /** The pure lift keeps the promise of `Lifted`. */
  lemma LiftWrites<V>(a: seq<Slot<V>>, root: nat, x: nat, gp: nat)
    requires WellFormed(a, root) && 1 <= x < |a| && 1 <= gp < |a| && x != gp
    requires gp == root <==> a[gp].parent.None?
    requires gp == root ==> a[gp].fromDirection.None?
    requires gp != root ==> a[gp].fromDirection.Some? && a[gp].parent.value !in {NullIndex, x, gp}
    ensures var (b, r) := LiftAt(a, root, x, gp);
      Lifted(a, b, root, r, x, gp, a[gp].parent, a[gp].fromDirection)
  {
    LiftShape(a, root, x, gp);
    var top, side := a[gp].parent, a[gp].fromDirection;
    var n1 := a[x := WithColor(a[x], Black)];
    var n2 := n1[gp := WithColor(n1[gp], Red)];
    if top.Some? {
      var sd := if n2[gp].fromDirection == Some(Left) then Left else Right;
      if side == Some(Left) { assert sd == Left; } else { assert side.value == Right; }
      assert Some(sd) == side;
    }
  }

  /** The pure turn keeps the promise of `Turned` and the arena well formed. */
  lemma TurnWrites<V>(a: seq<Slot<V>>, root: nat, top: nat, low: nat, e: Direction)
    requires WellFormed(a, root) && 1 <= top < |a| && 1 <= low < |a| && top != low
    requires a[top].Record? && a[low].Record?
    requires Child(a[top], Other(e)) != top && Child(a[top], Other(e)) != low
    ensures WellFormed(TurnAt(a, top, low, e), root) && Turned(a, TurnAt(a, top, low, e), top, low, e)
  {
    var inner := Child(a[top], Other(e));
    var n1 := a[low := SetChild(a[low], e, inner)];
    StoreOk(a, root, low, SetChild(a[low], e, inner));
    var n2 := n1[inner := WithSide(WithParent(n1[inner], Some(low)), Some(e))];
    StoreOk(n1, root, inner, WithSide(WithParent(n1[inner], Some(low)), Some(e)));
    var n3 := n2[top := SetChild(n2[top], Other(e), low)];
    StoreOk(n2, root, top, SetChild(n2[top], Other(e), low));
    StoreOk(n3, root, low, WithSide(n3[low], Some(Other(e))));
  }

  /**
   * The slots the single rotation writes, read off the records alone: `par`
   * holds `me` on side `d` and `inner` on the other, `gp` holds `par` on side
   * `d` and `far` on the other and hangs from `top` on `side`; `par` is lifted
   * (arena `l`) and then `gp` turned down under it on side `Other(d)` (arena `b`).
   */
  lemma StraightWrites<V>(a: seq<Slot<V>>, l: seq<Slot<V>>, b: seq<Slot<V>>, root: nat, root': nat,
                          par: nat, gp: nat, d: Direction, me: nat, inner: nat, far: nat,
                          pk: int, pv: V, pc: Color, gk: int, gv: V, gc: Color, top: Option<nat>, side: Option<Direction>)
    requires |a| >= 1 && 1 <= par < |a| && 1 <= gp < |a| && par != gp && inner != par && inner != gp
    requires a[par] == Joined(pk, pv, pc, d, me, inner, Some(gp), Some(d))
    requires a[gp] == Joined(gk, gv, gc, d, par, far, top, side)
    requires top.Some? ==> top.value !in {NullIndex, par, gp, inner}
    requires Lifted(a, l, root, root', par, gp, top, side) && Turned(l, b, par, gp, d)
    ensures b[NullIndex].color == a[NullIndex].color
    ensures b[par] == Joined(pk, pv, Black, d, me, gp, top, side)
    ensures b[gp] == Joined(gk, gv, Red, d, inner, far, Some(par), Some(Other(d)))
    ensures inner != NullIndex ==> b[inner] == WithSide(WithParent(a[inner], Some(gp)), Some(d))
    ensures top.Some? ==> b[top.value] == SetChild(a[top.value], side.value, par)
    ensures SameOutside(a, b, {NullIndex, par, gp, inner} + OptSet(top))
  {
    assert Child(l[par], Other(d)) == inner;
    assert l[inner] == a[inner] by {
      assert inner !in {par, gp} + OptSet(top);
    }
    SameOutsideTrans(a, l, b, {par, gp} + OptSet(top), {par, gp, inner});
    assert {par, gp} + OptSet(top) + {par, gp, inner} <= {NullIndex, par, gp, inner} + OptSet(top);
    JoinedFields(b[par], pk, pv, Black, d, me, gp, top, side);
    JoinedFields(b[gp], gk, gv, Red, d, inner, far, Some(par), Some(Other(d)));
  }

  /** The lift of the double rotation, read on the two records it writes. */
  lemma ZigZagLifted<V>(a: seq<Slot<V>>, l: seq<Slot<V>>, me: nat, par: nat, gp: nat, gd: Direction, near: nat, far: nat,
                        uid: nat, tk: int, tv: V, tc: Color, gk: int, gv: V, gc: Color,
                        top: Option<nat>, side: Option<Direction>)
    requires me < |a| && gp < |a| && me != gp
    requires a[me] == Joined(tk, tv, tc, gd, near, far, Some(par), Some(Other(gd)))
    requires a[gp] == Joined(gk, gv, gc, gd, par, uid, top, side)
    requires LiftSlots(a, l, me, gp, top, side)
    ensures l[me] == Joined(tk, tv, Black, gd, near, far, top, side)
    ensures l[gp] == Joined(gk, gv, Red, gd, par, uid, Some(me), side)
  {
    JoinedFields(l[me], tk, tv, Black, gd, near, far, top, side);
    JoinedFields(l[gp], gk, gv, Red, gd, par, uid, Some(me), side);
  }

  /** The turn of `gp` down under the lifted `me`, read on the records it writes. */
  lemma ZigZagTurned<V>(l: seq<Slot<V>>, n: seq<Slot<V>>, me: nat, par: nat, gp: nat, gd: Direction, near: nat, far: nat,
                        uid: nat, tk: int, tv: V, gk: int, gv: V, top: Option<nat>, side: Option<Direction>)
    requires me < |l| && gp < |l| && me != gp && far != me && far != gp
    requires l[me] == Joined(tk, tv, Black, gd, near, far, top, side)
    requires l[gp] == Joined(gk, gv, Red, gd, par, uid, Some(me), side)
    requires Turned(l, n, me, gp, gd)
    ensures n[me] == Joined(tk, tv, Black, gd, near, gp, top, side)
    ensures n[gp] == Joined(gk, gv, Red, gd, far, uid, Some(me), Some(Other(gd)))
    ensures n[far] == WithSide(WithParent(l[far], Some(gp)), Some(gd))
    ensures SameOutside(l, n, {me, gp, far})
  {
    assert Child(l[me], Other(gd)) == far;
    JoinedFields(n[me], tk, tv, Black, gd, near, gp, top, side);
    JoinedFields(n[gp], gk, gv, Red, gd, far, uid, Some(me), Some(Other(gd)));
  }

  /** The first half of the double rotation: `me` lifted into `gp`'s place (arena `l`) and `gp` turned down under it (arena `n`). */
  lemma ZigZagStart<V>(a: seq<Slot<V>>, l: seq<Slot<V>>, n: seq<Slot<V>>, me: nat, par: nat, gp: nat,
                       gd: Direction, near: nat, far: nat, uid: nat, tk: int, tv: V, tc: Color, gk: int, gv: V, gc: Color,
                       top: Option<nat>, side: Option<Direction>)
    requires |l| == |a| && |n| == |a| && (top.Some? ==> top.value < |a| && side.Some?)
    requires |a| >= 1 && 1 <= me < |a| && 1 <= par < |a| && 1 <= gp < |a| && near < |a| && far < |a|
    requires me != par && me != gp && par != gp
    requires near !in {me, par, gp} && far !in {me, par, gp} && (near == far ==> near == NullIndex)
    requires a[me] == Joined(tk, tv, tc, gd, near, far, Some(par), Some(Other(gd)))
    requires a[gp] == Joined(gk, gv, gc, gd, par, uid, top, side)
    requires top.Some? ==> top.value !in {NullIndex, me, par, gp, near, far}
    requires LiftSlots(a, l, me, gp, top, side) && Turned(l, n, me, gp, gd)
    ensures n[NullIndex].color == a[NullIndex].color
    ensures n[me] == Joined(tk, tv, Black, gd, near, gp, top, side)
    ensures n[gp] == Joined(gk, gv, Red, gd, far, uid, Some(me), Some(Other(gd)))
    ensures n[par] == a[par] && (near != NullIndex ==> n[near] == a[near])
    ensures far != NullIndex ==> n[far] == WithSide(WithParent(a[far], Some(gp)), Some(gd))
    ensures top.Some? ==> n[top.value] == SetChild(a[top.value], side.value, me)
    ensures SameOutside(a, n, {NullIndex, me, gp, far} + OptSet(top))
  {
    ZigZagLifted(a, l, me, par, gp, gd, near, far, uid, tk, tv, tc, gk, gv, gc, top, side);
    ZigZagTurned(l, n, me, par, gp, gd, near, far, uid, tk, tv, gk, gv, top, side);
    ZigZagUntouched(a, l, n, me, par, gp, gd, near, far, top, side);
  }

  /** What the lift and the first turn of the double rotation leave alone, or write only once. */
  lemma ZigZagUntouched<V>(a: seq<Slot<V>>, l: seq<Slot<V>>, n: seq<Slot<V>>, me: nat, par: nat, gp: nat,
                           gd: Direction, near: nat, far: nat, top: Option<nat>, side: Option<Direction>)
    requires |a| >= 1 && 1 <= me < |a| && 1 <= par < |a| && 1 <= gp < |a| && near < |a| && far < |a|
    requires me != par && me != gp && par != gp
    requires near !in {me, par, gp} && far !in {me, par, gp} && (near == far ==> near == NullIndex)
    requires top.Some? ==> top.value !in {NullIndex, me, par, gp, near, far}
    requires SameOutside(a, l, {me, gp} + OptSet(top)) && SameOutside(l, n, {me, gp, far})
    requires top.Some? ==> top.value < |a| && side.Some? && l[top.value] == SetChild(a[top.value], side.value, me)
    requires n[far] == WithSide(WithParent(l[far], Some(gp)), Some(gd))
    ensures n[NullIndex].color == a[NullIndex].color
    ensures n[par] == a[par] && (near != NullIndex ==> n[near] == a[near])
    ensures far != NullIndex ==> n[far] == WithSide(WithParent(a[far], Some(gp)), Some(gd))
    ensures top.Some? ==> n[top.value] == SetChild(a[top.value], side.value, me)
    ensures SameOutside(a, n, {NullIndex, me, gp, far} + OptSet(top))
  {
    var w1 := {me, gp} + OptSet(top);
    assert l[far] == a[far] by { assert far !in w1; }
    assert l[NullIndex] == a[NullIndex] by { assert NullIndex !in w1; }
    assert n[par] == a[par] by { assert par !in w1 + {me, gp, far}; }
    assert near != NullIndex ==> n[near] == a[near] by {
      if near != NullIndex { assert near !in w1 + {me, gp, far}; }
    }
    SameOutsideTrans(a, l, n, w1, {me, gp, far});
    assert w1 + {me, gp, far} <= {NullIndex, me, gp, far} + OptSet(top);
  }

  /** The second half of the double rotation: `par` turned down under `me` on the other side (arena `n5`), then re-parented (arena `b`). */
  lemma ZigZagFinish<V>(n: seq<Slot<V>>, n5: seq<Slot<V>>, b: seq<Slot<V>>, me: nat, par: nat, gd: Direction,
                        near: nat, gid: nat, ps: nat, tk: int, tv: V, pk: int, pv: V, pc: Color,
                        top: Option<nat>, side: Option<Direction>)
    requires 1 <= me < |n| && 1 <= par < |n| && me != par && near != me && near != par
    requires n[me] == Joined(tk, tv, Black, gd, near, gid, top, side)
    requires n[par] == Joined(pk, pv, pc, gd, ps, me, Some(gid), Some(gd))
    requires Turned(n, n5, me, par, Other(gd)) && b == n5[par := WithParent(n5[par], Some(me))]
    ensures b[NullIndex].color == n[NullIndex].color
    ensures b[me] == Joined(tk, tv, Black, gd, par, gid, top, side)
    ensures b[par] == Joined(pk, pv, pc, gd, ps, near, Some(me), Some(gd))
    ensures near != NullIndex ==> b[near] == WithSide(WithParent(n[near], Some(par)), Some(Other(gd)))
    ensures SameOutside(n, b, {me, par, near})
  {
    assert Other(Other(gd)) == gd;
    JoinedFields(b[me], tk, tv, Black, gd, par, gid, top, side);
    JoinedFields(b[par], pk, pv, pc, gd, ps, near, Some(me), Some(gd));
  }

  /**
   * The slots the double rotation writes: `me` hangs on side `Other(gd)` of
   * `par` with `near` on side `gd` and `far` on the other; `par` hangs on side
   * `gd` of `gp` with `ps` on side `gd`; `gp` hangs from `top` on `side`.  The
   * arenas in between are `l` (lifted), `n4` and `n5` (after each turn).
   */
  lemma ZigZagWrites<V>(a: seq<Slot<V>>, l: seq<Slot<V>>, n4: seq<Slot<V>>, n5: seq<Slot<V>>, b: seq<Slot<V>>,
                        root: nat, root': nat, me: nat, par: nat, gp: nat, gd: Direction, near: nat, far: nat,
                        ps: nat, uid: nat, tk: int, tv: V, tc: Color, pk: int, pv: V, pc: Color, gk: int, gv: V, gc: Color,
                        top: Option<nat>, side: Option<Direction>)
    requires |l| == |a| && |n4| == |a| && |n5| == |a| && (top.Some? ==> top.value < |a| && side.Some?)
    requires |a| >= 1 && 1 <= me < |a| && 1 <= par < |a| && 1 <= gp < |a| && near < |a| && far < |a|
    requires me != par && me != gp && par != gp
    requires near !in {me, par, gp} && far !in {me, par, gp} && (near == far ==> near == NullIndex)
    requires a[me] == Joined(tk, tv, tc, gd, near, far, Some(par), Some(Other(gd)))
    requires a[par] == Joined(pk, pv, pc, gd, ps, me, Some(gp), Some(gd))
    requires a[gp] == Joined(gk, gv, gc, gd, par, uid, top, side)
    requires top.Some? ==> top.value !in {NullIndex, me, par, gp, near, far}
    requires Lifted(a, l, root, root', me, gp, top, side) && Turned(l, n4, me, gp, gd)
    requires Turned(n4, n5, me, par, Other(gd)) && b == n5[par := WithParent(n5[par], Some(me))]
    ensures b[NullIndex].color == a[NullIndex].color
    ensures b[me] == Joined(tk, tv, Black, gd, par, gp, top, side)
    ensures b[par] == Joined(pk, pv, pc, gd, ps, near, Some(me), Some(gd))
    ensures b[gp] == Joined(gk, gv, Red, gd, far, uid, Some(me), Some(Other(gd)))
    ensures near != NullIndex ==> b[near] == WithSide(WithParent(a[near], Some(par)), Some(Other(gd)))
    ensures far != NullIndex ==> b[far] == WithSide(WithParent(a[far], Some(gp)), Some(gd))
    ensures top.Some? ==> b[top.value] == SetChild(a[top.value], side.value, me)
    ensures SameOutside(a, b, {NullIndex, me, par, gp, near, far} + OptSet(top))
  {
    ZigZagStart(a, l, n4, me, par, gp, gd, near, far, uid, tk, tv, tc, gk, gv, gc, top, side);
    ZigZagFinish(n4, n5, b, me, par, gd, near, gp, ps, tk, tv, pk, pv, pc, top, side);
    ZigZagUnion(a, n4, b, me, par, gp, near, far, top);
  }

  /** The slots the second half of the double rotation leaves as the first half wrote them. */
  lemma ZigZagUnion<V>(a: seq<Slot<V>>, n4: seq<Slot<V>>, b: seq<Slot<V>>, me: nat, par: nat, gp: nat,
                       near: nat, far: nat, top: Option<nat>)
    requires |a| >= 1 && gp < |a| && far < |a| && (top.Some? ==> top.value < |a|)
    requires gp !in {me, par, near} && (far != NullIndex ==> far !in {me, par, near})
    requires top.Some? ==> top.value !in {me, par, near}
    requires SameOutside(a, n4, {NullIndex, me, gp, far} + OptSet(top)) && SameOutside(n4, b, {me, par, near})
    ensures b[gp] == n4[gp] && (far != NullIndex ==> b[far] == n4[far])
    ensures top.Some? ==> b[top.value] == n4[top.value]
    ensures SameOutside(a, b, {NullIndex, me, par, gp, near, far} + OptSet(top))
  {
    var w4 := {NullIndex, me, gp, far} + OptSet(top);
    SameOutsideTrans(a, n4, b, w4, {me, par, near});
    assert w4 + {me, par, near} <= {NullIndex, me, par, gp, near, far} + OptSet(top);
  }

  /**
   * When the grandparent is the root and the parent hangs on its left, the
   * written rotation leaves the two records pointing at each other through
   * their left links.
   */
  lemma StraightAsWrittenCycle<V>(nodes: seq<Slot<V>>, root: nat, par: nat, gp: nat)
    requires WellFormed(nodes, root)
    requires 1 <= par < |nodes| && 1 <= gp < |nodes| && par != gp
    requires gp == root && nodes[gp].left == par
    ensures var (n, r) := StraightAsWritten(nodes, root, par, gp);
      r == par && n[par].Record? && n[gp].Record? && n[par].left == gp && n[gp].left == par
  {
  }

  /** No tree is held by records that point at each other through their left links. */
  lemma {:induction false} NoTreeOnCycle<V>(nodes: seq<Slot<V>>, x: nat, y: nat, t: Tree<V>,
                                            a: Option<nat>, b: Option<Direction>)
    requires 1 <= x < |nodes| && 1 <= y < |nodes| && nodes[x].Record? && nodes[y].Record?
    requires nodes[x].left == y && nodes[y].left == x
    decreases t
    ensures !Represents(nodes, x, t, a, b)
  {
    if t.Node? && t.left.Node? {
      NoTreeOnCycle(nodes, x, y, t.left.left, Some(y), Some(Left));
    }
  }

  /** Inserting 3, 2 and 1: the arena just before the fix-up of the third insertion. */
  function ThreeTwoOne(): seq<Slot<()>>
  {
    [Sentinel(Black, None, None, None, None),
     Record(3, (), Black, 2, 0, None, None),
     Record(2, (), Red, 3, 0, Some(1), Some(Left)),
     Record(1, (), Red, 0, 0, Some(2), Some(Left))]
  }

  /** The arena above holds a red-black tree apart from the red-red edge the fix-up repairs ... */
  lemma ThreeTwoOneBefore()
    ensures WellFormed(ThreeTwoOne(), 1)
    ensures Holds(ThreeTwoOne(), 1, Node(1, Black, 3, (), Node(2, Red, 2, (), Node(3, Red, 1, (), Nil, Nil), Nil), Nil))
  {
  }

  /** ... and after the rotation as written it holds no tree at all. */
  lemma ThreeTwoOneAfter(t: Tree<()>)
    ensures WellFormed(ThreeTwoOne(), 1)
    ensures var (n, r) := StraightAsWritten(ThreeTwoOne(), 1, 2, 1);
      r == 2 && !Holds(n, r, t)
  {
    var (n, r) := StraightAsWritten(ThreeTwoOne(), 1, 2, 1);
    StraightAsWrittenCycle(ThreeTwoOne(), 1, 2, 1);
    NoTreeOnCycle(n, 2, 1, t, None, None);
  }
}
