/**
 * The abstract red-black tree: a value-level picture of the linked nodes of
 * `lib/algorithms/red_black_tree.py`.  Every node carries the index of the
 * arena record that stores it (`id`), so that the imperative engine can be
 * related to this tree node by node.  Insertion, search and the two short
 * deletion cases are defined here as functions that follow the engine's own
 * descent and fix-up steps, together with the recorder events each step emits.
 */
module RedBlackSpec {
  import opened Wrappers

  datatype Color = Red | Black
  datatype Direction = Left | Right

  datatype Tree<V> =
    | Nil
    | Node(id: nat, color: Color, key: int, value: V, left: Tree<V>, right: Tree<V>)

  /** One call the engine makes on its step recorder. */
  datatype Event =
    | InitTree
    | SearchNode(key: int, direction: Direction, finished: bool)
    | MatchNode(key: int)
    | UnmatchNode
    | FixupTree(parentFrom: Direction, myselfFrom: Direction, uncle: Color)
    | BlackenRootNode

  function Other(d: Direction): Direction
  {
    if d == Left then Right else Left
  }

  /** The subtree on side `d`. */
  function Sub<V>(t: Tree<V>, d: Direction): Tree<V>
    requires t.Node?
  {
    if d == Left then t.left else t.right
  }

  function RootId<V>(t: Tree<V>): nat { if t.Nil? then 0 else t.id }

  /** The sentinel is black, so a missing child reads as black. */
  function ColorOf<V>(t: Tree<V>): Color { if t.Nil? then Black else t.color }

  predicate IsRed<V>(t: Tree<V>) { ColorOf(t) == Red }

  function Painted<V>(t: Tree<V>, c: Color): Tree<V>
  {
    if t.Nil? then Nil else t.(color := c)
  }

  // ---------------------------------------------------------------------
  // Contents, order and identity

  /** In-order key/value pairs. */
  function Entries<V>(t: Tree<V>): seq<(int, V)>
  {
    if t.Nil? then [] else Entries(t.left) + [(t.key, t.value)] + Entries(t.right)
  }

  predicate Sorted<V>(es: seq<(int, V)>)
  {
    forall i, j :: 0 <= i < j < |es| ==> es[i].0 <= es[j].0
  }

  predicate StrictlySorted<V>(es: seq<(int, V)>)
  {
    forall i, j :: 0 <= i < j < |es| ==> es[i].0 < es[j].0
  }

  predicate HasKey<V>(es: seq<(int, V)>, k: int)
  {
    exists i :: 0 <= i < |es| && es[i].0 == k
  }

  function Ids<V>(t: Tree<V>): set<nat>
  {
    if t.Nil? then {} else {t.id} + Ids(t.left) + Ids(t.right)
  }

  predicate DistinctIds<V>(t: Tree<V>)
  {
    t.Nil? ||
    (t.id !in Ids(t.left) && t.id !in Ids(t.right) && Ids(t.left) !! Ids(t.right) &&
     DistinctIds(t.left) && DistinctIds(t.right))
  }

  // ---------------------------------------------------------------------
  // Red-black shape

  function BlackHeight<V>(t: Tree<V>): nat
  {
    if t.Nil? then 0 else BlackHeight(t.left) + (if t.color == Black then 1 else 0)
  }

  /** Every root-to-leaf path crosses the same number of black nodes. */
  predicate Balanced<V>(t: Tree<V>)
  {
    t.Nil? ||
    (Balanced(t.left) && Balanced(t.right) && BlackHeight(t.left) == BlackHeight(t.right))
  }

  /** No red node has a red child. */
  predicate RedRedFree<V>(t: Tree<V>)
  {
    t.Nil? ||
    (RedRedFree(t.left) && RedRedFree(t.right) &&
     (t.color == Red ==> !IsRed(t.left) && !IsRed(t.right)))
  }

  predicate IsRedBlack<V>(t: Tree<V>)
  {
    Balanced(t) && RedRedFree(t) && !IsRed(t) && Sorted(Entries(t))
  }

  // ---------------------------------------------------------------------
  // One-hole contexts: the path from a node up to the root

  datatype Path<V> =
    | Top
    | Up(dir: Direction, id: nat, color: Color, key: int, value: V, sibling: Tree<V>, rest: Path<V>)

  /** The node of a frame, with `t` hanging on side `d` and `s` on the other side. */
  function Attach<V>(d: Direction, id: nat, c: Color, k: int, v: V, s: Tree<V>, t: Tree<V>): Tree<V>
  {
    if d == Left then Node(id, c, k, v, t, s) else Node(id, c, k, v, s, t)
  }

  function Plug<V>(p: Path<V>, t: Tree<V>): Tree<V>
  {
    match p
    case Top => t
    case Up(d, id, c, k, v, s, rest) => Plug(rest, Attach(d, id, c, k, v, s, t))
  }

  function Depth<V>(p: Path<V>): nat
  {
    match p
    case Top => 0
    case Up(_, _, _, _, _, _, rest) => 1 + Depth(rest)
  }

  /** The inner path followed by the outer one. */
  function Extend<V>(inner: Path<V>, outer: Path<V>): Path<V>
  {
    match inner
    case Top => outer
    case Up(d, id, c, k, v, s, rest) => Up(d, id, c, k, v, s, Extend(rest, outer))
  }

  /** Entries of a path that precede the hole, and those that follow it. */
  function Before<V>(p: Path<V>): seq<(int, V)>
  {
    match p
    case Top => []
    case Up(d, _, _, k, v, s, rest) =>
      Before(rest) + (if d == Left then [] else Entries(s) + [(k, v)])
  }

  function After<V>(p: Path<V>): seq<(int, V)>
  {
    match p
    case Top => []
    case Up(d, _, _, k, v, s, rest) =>
      (if d == Left then [(k, v)] + Entries(s) else []) + After(rest)
  }

  function PathIds<V>(p: Path<V>): set<nat>
  {
    match p
    case Top => {}
    case Up(_, id, _, _, _, s, rest) => {id} + Ids(s) + PathIds(rest)
  }

  predicate DistinctPath<V>(p: Path<V>)
  {
    match p
    case Top => true
    case Up(_, id, _, _, _, s, rest) =>
      id !in Ids(s) && id !in PathIds(rest) && Ids(s) !! PathIds(rest) &&
      DistinctIds(s) && DistinctPath(rest)
  }

  /** The parent link and side the engine stores in the node at the hole. */
  function HoleParent<V>(p: Path<V>, top: Option<nat>): Option<nat>
  {
    if p.Top? then top else Some(p.id)
  }

  function HoleSide<V>(p: Path<V>, top: Option<Direction>): Option<Direction>
  {
    if p.Top? then top else Some(p.dir)
  }

  lemma {:induction false} EntriesOfPlug<V>(p: Path<V>, t: Tree<V>)
    ensures Entries(Plug(p, t)) == Before(p) + Entries(t) + After(p)
  {
    match p
    case Top =>
    case Up(d, id, c, k, v, s, rest) =>
      EntriesOfPlug(rest, Attach(d, id, c, k, v, s, t));
  }

  lemma {:induction false} IdsOfPlug<V>(p: Path<V>, t: Tree<V>)
    ensures Ids(Plug(p, t)) == PathIds(p) + Ids(t)
    ensures DistinctIds(Plug(p, t)) <==> DistinctPath(p) && DistinctIds(t) && PathIds(p) !! Ids(t)
  {
    match p
    case Top =>
    case Up(d, id, c, k, v, s, rest) =>
      IdsOfPlug(rest, Attach(d, id, c, k, v, s, t));
  }

  lemma {:induction false} PlugExtend<V>(inner: Path<V>, outer: Path<V>, t: Tree<V>)
    ensures Plug(Extend(inner, outer), t) == Plug(outer, Plug(inner, t))
  {
    match inner
    case Top =>
    case Up(d, id, c, k, v, s, rest) =>
      PlugExtend(rest, outer, Attach(d, id, c, k, v, s, t));
  }

  // ---------------------------------------------------------------------
  // The red-black conditions, read along a path

  /**
   * The frames of `p` are red-black around a hole whose subtree has black
   * height `h` and whose root is red when `holeRed`.  The only violation
   * tolerated is a red hole under a red first frame, and only when `first`.
   */
  predicate FramesOk<V>(p: Path<V>, h: nat, holeRed: bool, first: bool)
  {
    match p
    case Top => true
    case Up(_, _, c, _, _, s, rest) =>
      Balanced(s) && RedRedFree(s) && BlackHeight(s) == h &&
      (c == Red ==> !IsRed(s)) &&
      (c == Red && holeRed ==> first) &&
      FramesOk(rest, h + (if c == Black then 1 else 0), c == Red, false)
  }

  /** The colour of the outermost frame: the root's colour once something is plugged in. */
  function TopColor<V>(p: Path<V>): Color
    requires p.Up?
  {
    if p.rest.Top? then p.color else TopColor(p.rest)
  }

  lemma {:induction false} FramesOkWeaken<V>(p: Path<V>, h: nat, holeRed: bool, first: bool)
    requires FramesOk(p, h, holeRed, first)
    ensures FramesOk(p, h, false, first) && FramesOk(p, h, holeRed, true)
  {
  }

  lemma {:induction false} ColorOfPlug<V>(p: Path<V>, t: Tree<V>)
    requires p.Up?
    ensures ColorOf(Plug(p, t)) == TopColor(p)
  {
    match p
    case Up(d, id, c, k, v, s, rest) =>
      if rest.Up? { ColorOfPlug(rest, Attach(d, id, c, k, v, s, t)); }
  }

  /** A red-black tree seen through any of its paths. */
  lemma {:induction false} Decompose<V>(p: Path<V>, t: Tree<V>)
    requires Balanced(Plug(p, t)) && RedRedFree(Plug(p, t))
    ensures Balanced(t) && RedRedFree(t)
    ensures FramesOk(p, BlackHeight(t), IsRed(t), false)
  {
    match p
    case Top =>
    case Up(d, id, c, k, v, s, rest) =>
      Decompose(rest, Attach(d, id, c, k, v, s, t));
  }

  lemma {:induction false} Compose<V>(p: Path<V>, t: Tree<V>)
    requires Balanced(t) && RedRedFree(t)
    requires FramesOk(p, BlackHeight(t), IsRed(t), false)
    ensures Balanced(Plug(p, t)) && RedRedFree(Plug(p, t))
  {
    match p
    case Top =>
    case Up(d, id, c, k, v, s, rest) =>
      Compose(rest, Attach(d, id, c, k, v, s, t));
  }

  // ---------------------------------------------------------------------
  // Sorted sequences

  /** The sequence with (k, v) placed before the first key not below k. */
  function InsertAt<V>(es: seq<(int, V)>, k: int, v: V): seq<(int, V)>
  {
    if es == [] || k <= es[0].0 then [(k, v)] + es else [es[0]] + InsertAt(es[1..], k, v)
  }

  predicate AllBelow<V>(es: seq<(int, V)>, k: int) { forall i :: 0 <= i < |es| ==> es[i].0 < k }
  predicate NoneBelow<V>(es: seq<(int, V)>, k: int) { forall i :: 0 <= i < |es| ==> k <= es[i].0 }

  lemma {:induction false} InsertAtSplit<V>(a: seq<(int, V)>, b: seq<(int, V)>, k: int, v: V)
    requires AllBelow(a, k) && NoneBelow(b, k)
    ensures InsertAt(a + b, k, v) == a + [(k, v)] + b
  {
    if a != [] {
      assert (a + b)[0] == a[0];
      assert (a + b)[1..] == a[1..] + b;
      InsertAtSplit(a[1..], b, k, v);
    }
  }

  lemma SortedSplit<V>(a: seq<(int, V)>, m: seq<(int, V)>, b: seq<(int, V)>, i: int, j: int)
    requires Sorted(a + m + b) && 0 <= i < |a| && 0 <= j < |m|
    ensures a[i].0 <= m[j].0
  {
    assert (a + m + b)[i] == a[i] && (a + m + b)[|a| + j] == m[j];
  }

  // ---------------------------------------------------------------------
  // Search

  datatype SearchResult<V> = SearchResult(found: Option<Tree<V>>, events: seq<Event>)

  /**
   * The walk of `search` below `t`: left on smaller keys, right on larger,
   * stop on an equal key or at nil.  `acc` holds the events of the steps
   * already taken.
   */
  function SearchFrom<V>(t: Tree<V>, k: int, acc: seq<Event>): SearchResult<V>
    decreases t
  {
    if t.Nil? then SearchResult(None, acc + [UnmatchNode])
    else if k == t.key then SearchResult(Some(t), acc + [MatchNode(t.key)])
    else
      var d := if k < t.key then Left else Right;
      SearchFrom(Sub(t, d), k, acc + [SearchNode(t.key, d, false)])
  }

  /** `search` from the root. */
  function SpecSearch<V>(t: Tree<V>, k: int): SearchResult<V>
  {
    SearchFrom(t, k, [])
  }

  lemma {:induction false} SearchCorrect<V>(t: Tree<V>, k: int, acc: seq<Event>)
    requires Sorted(Entries(t))
    ensures var r := SearchFrom(t, k, acc);
      (r.found.Some? <==> HasKey(Entries(t), k)) &&
      (r.found.Some? ==>
         r.found.value.Node? && r.found.value.key == k &&
         r.found.value.id in Ids(t) &&
         (k, r.found.value.value) in Entries(t))
  {
    if t.Node? {
      var l, e, rt := Entries(t.left), (t.key, t.value), Entries(t.right);
      assert Entries(t) == l + [e] + rt;
      SortedNode(t);
      HasKeySplit(l, e, rt, k);
      if k < t.key {
        SearchCorrect(t.left, k, acc + [SearchNode(t.key, Left, false)]);
        assert !HasKey(rt, k);
      } else if k > t.key {
        SearchCorrect(t.right, k, acc + [SearchNode(t.key, Right, false)]);
        assert !HasKey(l, k);
      }
    }
  }

  lemma HasKeySplit<V>(a: seq<(int, V)>, e: (int, V), b: seq<(int, V)>, k: int)
    ensures HasKey(a + [e] + b, k) <==> HasKey(a, k) || e.0 == k || HasKey(b, k)
  {
    var s := a + [e] + b;
    if HasKey(s, k) {
      var i :| 0 <= i < |s| && s[i].0 == k;
      if i < |a| { assert a[i] == s[i]; }
      else if i > |a| { assert b[i - |a| - 1] == s[i]; }
    }
    if HasKey(a, k) {
      var i :| 0 <= i < |a| && a[i].0 == k;
      assert s[i] == a[i];
    }
    if HasKey(b, k) {
      var i :| 0 <= i < |b| && b[i].0 == k;
      assert s[|a| + 1 + i] == b[i];
    }
    assert s[|a|] == e;
  }

  /** Sortedness of a node: its subtrees are sorted and lie on either side of its key. */
  lemma SortedNode<V>(t: Tree<V>)
    requires t.Node? && Sorted(Entries(t))
    ensures Sorted(Entries(t.left)) && Sorted(Entries(t.right))
    ensures NoneBelow(Entries(t.right), t.key)
    ensures forall i :: 0 <= i < |Entries(t.left)| ==> Entries(t.left)[i].0 <= t.key
  {
    var l, rt, s := Entries(t.left), Entries(t.right), Entries(t);
    assert s == l + [(t.key, t.value)] + rt;
    forall i, j | 0 <= i < j < |l| ensures l[i].0 <= l[j].0 {
      assert s[i] == l[i] && s[j] == l[j];
    }
    forall i, j | 0 <= i < j < |rt| ensures rt[i].0 <= rt[j].0 {
      assert s[|l| + 1 + i] == rt[i] && s[|l| + 1 + j] == rt[j];
    }
    forall i | 0 <= i < |rt| ensures t.key <= rt[i].0 {
      assert s[|l|] == (t.key, t.value) && s[|l| + 1 + i] == rt[i];
    }
    forall i | 0 <= i < |l| ensures l[i].0 <= t.key {
      assert s[|l|] == (t.key, t.value) && s[i] == l[i];
    }
  }

  predicate AllAbove<V>(es: seq<(int, V)>, k: int) { forall i :: 0 <= i < |es| ==> k < es[i].0 }

  lemma SortedInsertSplit<V>(a: seq<(int, V)>, b: seq<(int, V)>, k: int, v: V)
    requires Sorted(a + b) && AllBelow(a, k) && NoneBelow(b, k)
    ensures Sorted(a + [(k, v)] + b)
    ensures StrictlySorted(a + b) && AllAbove(b, k) ==> StrictlySorted(a + [(k, v)] + b)
  {
    var s, s' := a + b, a + [(k, v)] + b;
    assert forall i :: 0 <= i < |a| ==> s'[i] == s[i];
    assert forall i :: |a| < i < |s'| ==> s'[i] == s[i - 1];
  }

  // ---------------------------------------------------------------------
  // Insertion: descent, then fix-up

  datatype InsertResult<V> =
    | Inserted(tree: Tree<V>, events: seq<Event>)
    | Duplicated(key: int, events: seq<Event>)

  /** `insert` of key `k` with a fresh node numbered `n`. */
  function SpecInsert<V>(t: Tree<V>, k: int, v: V, n: nat, allowDup: bool): InsertResult<V>
  {
    if t.Nil? then Inserted(Node(n, Black, k, v, Nil, Nil), [InitTree])
    else Descend(t, Top, k, v, n, allowDup, [])
  }

  /**
   * The search for the insertion point below `s`, reached along `p`: left on
   * keys up to the node's own, right on larger ones; `acc` holds the events
   * already emitted.
   */
  function Descend<V>(s: Tree<V>, p: Path<V>, k: int, v: V, n: nat, allowDup: bool, acc: seq<Event>): InsertResult<V>
    requires s.Node?
    decreases s
  {
    if !allowDup && k == s.key then Duplicated(k, acc)
    else
      var d := if k <= s.key then Left else Right;
      var p' := Up(d, s.id, s.color, s.key, s.value, Sub(s, Other(d)), p);
      if Sub(s, d).Nil? then
        var (r, es) := Fixup(p', Node(n, Red, k, v, Nil, Nil), acc + [SearchNode(s.key, d, true)]);
        Inserted(r, es)
      else Descend(Sub(s, d), p', k, v, n, allowDup, acc + [SearchNode(s.key, d, false)])
  }

  /** Black uncle, parent and node on the same side `d`: one rotation at the grandparent. */
  function Straight<V>(d: Direction, pid: nat, pk: int, pv: V, ps: Tree<V>,
                       gid: nat, gk: int, gv: V, u: Tree<V>, t: Tree<V>): Tree<V>
  {
    Attach(d, pid, Black, pk, pv, Attach(d, gid, Red, gk, gv, u, ps), t)
  }

  /** Black uncle, parent on side `gd` and node on the other side: the node rises two levels. */
  function ZigZag<V>(gd: Direction, pid: nat, pk: int, pv: V, ps: Tree<V>,
                     gid: nat, gk: int, gv: V, u: Tree<V>, t: Tree<V>): Tree<V>
  {
    if t.Nil? then Nil
    else if gd == Left then
      Node(t.id, Black, t.key, t.value, Node(pid, Red, pk, pv, ps, t.left), Node(gid, Red, gk, gv, t.right, u))
    else
      Node(t.id, Black, t.key, t.value, Node(gid, Red, gk, gv, u, t.left), Node(pid, Red, pk, pv, t.right, ps))
  }

  datatype FixupStepResult<V> =
    | Stop(tree: Tree<V>, events: seq<Event>)
    | Continue(path: Path<V>, focus: Tree<V>, events: seq<Event>)

  /** One turn of the fix-up loop for the red node `t` at the hole of `p`. */
  function FixupStep<V>(p: Path<V>, t: Tree<V>): (r: FixupStepResult<V>)
    ensures r.Continue? ==> Depth(r.path) < Depth(p)
  {
    match p
    case Top => Stop(t, [])
    case Up(pd, pid, pc, pk, pv, ps, rest) =>
      if pc == Black then Stop(Plug(p, t), [])
      else match rest
        case Top => Stop(Plug(p, t), [])
        case Up(gd, gid, gc, gk, gv, u, rest2) =>
          var ev := [FixupTree(gd, pd, ColorOf(u))];
          if ColorOf(u) == Black then
            if pd == gd then Stop(Plug(rest2, Straight(gd, pid, pk, pv, ps, gid, gk, gv, u, t)), ev)
            else Stop(Plug(rest2, ZigZag(gd, pid, pk, pv, ps, gid, gk, gv, u, t)), ev)
          else
            var parent := Attach(pd, pid, Black, pk, pv, ps, t);
            if rest2.Top? then
              Stop(Attach(gd, gid, gc, gk, gv, Painted(u, Black), parent), ev + [BlackenRootNode])
            else Continue(rest2, Attach(gd, gid, Red, gk, gv, Painted(u, Black), parent), ev)
  }

  /** The events of a turn at a red parent: one `fixup_tree`, and `blacken_root_node` when a red uncle sits under the root. */
  lemma FixupStepEvents<V>(p: Path<V>, t: Tree<V>)
    requires p.Up? && p.rest.Up? && p.color == Red
    ensures var u, rest2 := p.rest.sibling, p.rest.rest;
      var r := FixupStep(p, t);
      r.events == [FixupTree(p.rest.dir, p.dir, ColorOf(u))] + (if ColorOf(u) == Red && rest2.Top? then [BlackenRootNode] else []) &&
      (r.Stop? <==> ColorOf(u) == Black || rest2.Top?)
  {
  }

  /** The tree a turn leaves behind: the finished tree, or the new focus plugged into the shorter path. */
  function Outcome<V>(r: FixupStepResult<V>): Tree<V>
  {
    if r.Stop? then r.tree else Plug(r.path, r.focus)
  }

  /** The fix-up loop: its turns until one stops, `acc` holding the events already emitted. */
  function Fixup<V>(p: Path<V>, t: Tree<V>, acc: seq<Event>): (Tree<V>, seq<Event>)
    decreases Depth(p)
  {
    match FixupStep(p, t)
    case Stop(r, es) => (r, acc + es)
    case Continue(p', t', es) => Fixup(p', t', acc + es)
  }

  /** What holds at the head of the fix-up loop: a red node whose only fault may be a red parent. */
  predicate FixupInv<V>(p: Path<V>, t: Tree<V>)
  {
    p.Up? && IsRed(t) && Balanced(t) && RedRedFree(t) &&
    FramesOk(p, BlackHeight(t), true, true) && TopColor(p) == Black
  }

  /** Entries, ids and distinctness of a plugged tree depend only on those of the plug. */
  lemma SamePlug<V>(p: Path<V>, a: Tree<V>, b: Tree<V>)
    requires Entries(a) == Entries(b) && Ids(a) == Ids(b)
    requires DistinctIds(a) ==> DistinctIds(b)
    ensures Entries(Plug(p, a)) == Entries(Plug(p, b)) && Ids(Plug(p, a)) == Ids(Plug(p, b))
    ensures DistinctIds(Plug(p, a)) ==> DistinctIds(Plug(p, b))
  {
    EntriesOfPlug(p, a); EntriesOfPlug(p, b);
    IdsOfPlug(p, a); IdsOfPlug(p, b);
  }

  lemma FramesOkRelax<V>(p: Path<V>, h: nat, a: bool, b: bool, a': bool)
    requires FramesOk(p, h, a, b)
    ensures FramesOk(p, h, a', true)
  {
  }

  /** Both rotations keep contents, identities and black height, and repair the red-red fault. */
  lemma RotationsOk<V>(pd: Direction, pid: nat, pk: int, pv: V, ps: Tree<V>,
                       gd: Direction, gid: nat, gk: int, gv: V, u: Tree<V>, t: Tree<V>, h: nat)
    requires Balanced(t) && RedRedFree(t) && IsRed(t) && BlackHeight(t) == h
    requires Balanced(ps) && RedRedFree(ps) && !IsRed(ps) && BlackHeight(ps) == h
    requires Balanced(u) && RedRedFree(u) && !IsRed(u) && BlackHeight(u) == h
    ensures var g := Attach(gd, gid, Black, gk, gv, u, Attach(pd, pid, Red, pk, pv, ps, t));
      var x := if pd == gd then Straight(gd, pid, pk, pv, ps, gid, gk, gv, u, t)
               else ZigZag(gd, pid, pk, pv, ps, gid, gk, gv, u, t);
      Balanced(x) && RedRedFree(x) && BlackHeight(x) == h + 1 && !IsRed(x) &&
      Entries(x) == Entries(g) && Ids(x) == Ids(g) && (DistinctIds(g) ==> DistinctIds(x))
  {
    if pd == gd {
      if gd == Left { StraightLeftOk(pid, pk, pv, ps, gid, gk, gv, u, t, h); }
      else { StraightRightOk(pid, pk, pv, ps, gid, gk, gv, u, t, h); }
    } else {
      if gd == Left {
        ZigZagLeftOk(pid, pk, pv, ps, gid, gk, gv, u, t, h);
        ZigZagLeftEntries(pid, pk, pv, ps, gid, gk, gv, u, t);
        ZigZagLeftIds(pid, pk, pv, ps, gid, gk, gv, u, t);
      }
      else {
        ZigZagRightOk(pid, pk, pv, ps, gid, gk, gv, u, t, h);
        ZigZagRightEntries(pid, pk, pv, ps, gid, gk, gv, u, t);
        ZigZagRightIds(pid, pk, pv, ps, gid, gk, gv, u, t);
      }
    }
  }

  lemma StraightLeftOk<V>(pid: nat, pk: int, pv: V, ps: Tree<V>, gid: nat, gk: int, gv: V, u: Tree<V>, t: Tree<V>, h: nat)
    requires Balanced(t) && RedRedFree(t) && IsRed(t) && BlackHeight(t) == h
    requires Balanced(ps) && RedRedFree(ps) && !IsRed(ps) && BlackHeight(ps) == h
    requires Balanced(u) && RedRedFree(u) && !IsRed(u) && BlackHeight(u) == h
    ensures var g := Node(gid, Black, gk, gv, Node(pid, Red, pk, pv, t, ps), u);
      var x := Node(pid, Black, pk, pv, t, Node(gid, Red, gk, gv, ps, u));
      Balanced(x) && RedRedFree(x) && BlackHeight(x) == h + 1 &&
      Entries(x) == Entries(g) && Ids(x) == Ids(g) && (DistinctIds(g) ==> DistinctIds(x))
  {
    var g' := Node(gid, Red, gk, gv, ps, u);
    assert Balanced(g') && RedRedFree(g') && BlackHeight(g') == h;
    assert Entries(t) + [(pk, pv)] + Entries(ps) + [(gk, gv)] + Entries(u)
        == Entries(t) + [(pk, pv)] + (Entries(ps) + [(gk, gv)] + Entries(u));
    var p := Node(pid, Red, pk, pv, t, ps);
    var g := Node(gid, Black, gk, gv, p, u);
    assert Ids(p) == {pid} + Ids(t) + Ids(ps);
    assert Ids(g') == {gid} + Ids(ps) + Ids(u);
    if DistinctIds(g) {
      assert DistinctIds(p) && gid !in Ids(p) && Ids(p) !! Ids(u);
      assert pid !in Ids(g') && Ids(t) !! Ids(g');
      assert DistinctIds(g');
    }
  }

  lemma StraightRightOk<V>(pid: nat, pk: int, pv: V, ps: Tree<V>, gid: nat, gk: int, gv: V, u: Tree<V>, t: Tree<V>, h: nat)
    requires Balanced(t) && RedRedFree(t) && IsRed(t) && BlackHeight(t) == h
    requires Balanced(ps) && RedRedFree(ps) && !IsRed(ps) && BlackHeight(ps) == h
    requires Balanced(u) && RedRedFree(u) && !IsRed(u) && BlackHeight(u) == h
    ensures var g := Node(gid, Black, gk, gv, u, Node(pid, Red, pk, pv, ps, t));
      var x := Node(pid, Black, pk, pv, Node(gid, Red, gk, gv, u, ps), t);
      Balanced(x) && RedRedFree(x) && BlackHeight(x) == h + 1 &&
      Entries(x) == Entries(g) && Ids(x) == Ids(g) && (DistinctIds(g) ==> DistinctIds(x))
  {
    var g' := Node(gid, Red, gk, gv, u, ps);
    assert Balanced(g') && RedRedFree(g') && BlackHeight(g') == h;
    assert Entries(u) + [(gk, gv)] + (Entries(ps) + [(pk, pv)] + Entries(t))
        == Entries(u) + [(gk, gv)] + Entries(ps) + [(pk, pv)] + Entries(t);
    var p := Node(pid, Red, pk, pv, ps, t);
    var g := Node(gid, Black, gk, gv, u, p);
    assert Ids(p) == {pid} + Ids(ps) + Ids(t);
    assert Ids(g') == {gid} + Ids(u) + Ids(ps);
    if DistinctIds(g) {
      assert DistinctIds(p) && gid !in Ids(p) && Ids(p) !! Ids(u);
      assert pid !in Ids(g') && Ids(t) !! Ids(g');
      assert DistinctIds(g');
    }
  }

  lemma ZigZagLeftOk<V>(pid: nat, pk: int, pv: V, ps: Tree<V>, gid: nat, gk: int, gv: V, u: Tree<V>, t: Tree<V>, h: nat)
    requires Balanced(t) && RedRedFree(t) && IsRed(t) && BlackHeight(t) == h
    requires Balanced(ps) && RedRedFree(ps) && !IsRed(ps) && BlackHeight(ps) == h
    requires Balanced(u) && RedRedFree(u) && !IsRed(u) && BlackHeight(u) == h
    ensures t.Node?
    ensures var x := Node(t.id, Black, t.key, t.value, Node(pid, Red, pk, pv, ps, t.left), Node(gid, Red, gk, gv, t.right, u));
      Balanced(x) && RedRedFree(x) && BlackHeight(x) == h + 1
  {
    var a, b := Node(pid, Red, pk, pv, ps, t.left), Node(gid, Red, gk, gv, t.right, u);
    assert BlackHeight(t.left) == h && BlackHeight(t.right) == h;
    assert Balanced(a) && RedRedFree(a) && BlackHeight(a) == h;
    assert Balanced(b) && RedRedFree(b) && BlackHeight(b) == h;
  }

  lemma ZigZagLeftEntries<V>(pid: nat, pk: int, pv: V, ps: Tree<V>, gid: nat, gk: int, gv: V, u: Tree<V>, t: Tree<V>)
    requires t.Node?
    ensures var g := Node(gid, Black, gk, gv, Node(pid, Red, pk, pv, ps, t), u);
      var x := Node(t.id, Black, t.key, t.value, Node(pid, Red, pk, pv, ps, t.left), Node(gid, Red, gk, gv, t.right, u));
      Entries(x) == Entries(g)
  {
    var l, m, r := Entries(t.left), (t.key, t.value), Entries(t.right);
    assert Entries(t) == l + [m] + r;
    assert Entries(ps) + [(pk, pv)] + (l + [m] + r) + [(gk, gv)] + Entries(u)
        == (Entries(ps) + [(pk, pv)] + l) + [m] + (r + [(gk, gv)] + Entries(u));
  }

  lemma ZigZagLeftIds<V>(pid: nat, pk: int, pv: V, ps: Tree<V>, gid: nat, gk: int, gv: V, u: Tree<V>, t: Tree<V>)
    requires t.Node?
    ensures var g := Node(gid, Black, gk, gv, Node(pid, Red, pk, pv, ps, t), u);
      var x := Node(t.id, Black, t.key, t.value, Node(pid, Red, pk, pv, ps, t.left), Node(gid, Red, gk, gv, t.right, u));
      Ids(x) == Ids(g) && (DistinctIds(g) ==> DistinctIds(x))
  {
    var a, b := Node(pid, Red, pk, pv, ps, t.left), Node(gid, Red, gk, gv, t.right, u);
    var p := Node(pid, Red, pk, pv, ps, t);
    var g := Node(gid, Black, gk, gv, p, u);
    assert Ids(t) == {t.id} + Ids(t.left) + Ids(t.right);
    assert Ids(a) == {pid} + Ids(ps) + Ids(t.left);
    assert Ids(b) == {gid} + Ids(t.right) + Ids(u);
    assert Ids(g) == {gid} + ({pid} + Ids(ps) + Ids(t)) + Ids(u);
    if DistinctIds(g) {
      assert DistinctIds(p) && gid !in Ids(p) && Ids(p) !! Ids(u);
      assert DistinctIds(t) && pid !in Ids(t) && Ids(ps) !! Ids(t);
      assert DistinctIds(a) && DistinctIds(b);
      assert t.id !in Ids(a) && t.id !in Ids(b) && Ids(a) !! Ids(b);
    }
  }

  lemma ZigZagRightOk<V>(pid: nat, pk: int, pv: V, ps: Tree<V>, gid: nat, gk: int, gv: V, u: Tree<V>, t: Tree<V>, h: nat)
    requires Balanced(t) && RedRedFree(t) && IsRed(t) && BlackHeight(t) == h
    requires Balanced(ps) && RedRedFree(ps) && !IsRed(ps) && BlackHeight(ps) == h
    requires Balanced(u) && RedRedFree(u) && !IsRed(u) && BlackHeight(u) == h
    ensures t.Node?
    ensures var x := Node(t.id, Black, t.key, t.value, Node(gid, Red, gk, gv, u, t.left), Node(pid, Red, pk, pv, t.right, ps));
      Balanced(x) && RedRedFree(x) && BlackHeight(x) == h + 1
  {
    var a, b := Node(gid, Red, gk, gv, u, t.left), Node(pid, Red, pk, pv, t.right, ps);
    assert BlackHeight(t.left) == h && BlackHeight(t.right) == h;
    assert Balanced(a) && RedRedFree(a) && BlackHeight(a) == h;
    assert Balanced(b) && RedRedFree(b) && BlackHeight(b) == h;
  }

  lemma ZigZagRightEntries<V>(pid: nat, pk: int, pv: V, ps: Tree<V>, gid: nat, gk: int, gv: V, u: Tree<V>, t: Tree<V>)
    requires t.Node?
    ensures var g := Node(gid, Black, gk, gv, u, Node(pid, Red, pk, pv, t, ps));
      var x := Node(t.id, Black, t.key, t.value, Node(gid, Red, gk, gv, u, t.left), Node(pid, Red, pk, pv, t.right, ps));
      Entries(x) == Entries(g)
  {
    var l, m, r := Entries(t.left), (t.key, t.value), Entries(t.right);
    assert Entries(t) == l + [m] + r;
    assert Entries(u) + [(gk, gv)] + ((l + [m] + r) + [(pk, pv)] + Entries(ps))
        == (Entries(u) + [(gk, gv)] + l) + [m] + (r + [(pk, pv)] + Entries(ps));
  }

  lemma ZigZagRightIds<V>(pid: nat, pk: int, pv: V, ps: Tree<V>, gid: nat, gk: int, gv: V, u: Tree<V>, t: Tree<V>)
    requires t.Node?
    ensures var g := Node(gid, Black, gk, gv, u, Node(pid, Red, pk, pv, t, ps));
      var x := Node(t.id, Black, t.key, t.value, Node(gid, Red, gk, gv, u, t.left), Node(pid, Red, pk, pv, t.right, ps));
      Ids(x) == Ids(g) && (DistinctIds(g) ==> DistinctIds(x))
  {
    var a, b := Node(gid, Red, gk, gv, u, t.left), Node(pid, Red, pk, pv, t.right, ps);
    var p := Node(pid, Red, pk, pv, t, ps);
    var g := Node(gid, Black, gk, gv, u, p);
    assert Ids(t) == {t.id} + Ids(t.left) + Ids(t.right);
    assert Ids(a) == {gid} + Ids(u) + Ids(t.left);
    assert Ids(b) == {pid} + Ids(t.right) + Ids(ps);
    assert Ids(g) == {gid} + Ids(u) + ({pid} + Ids(t) + Ids(ps));
    if DistinctIds(g) {
      assert DistinctIds(p) && gid !in Ids(p) && Ids(p) !! Ids(u);
      assert DistinctIds(t) && pid !in Ids(t) && Ids(ps) !! Ids(t);
      assert DistinctIds(a) && DistinctIds(b);
      assert t.id !in Ids(a) && t.id !in Ids(b) && Ids(a) !! Ids(b);
    }
  }


  /** The red-uncle recolouring keeps contents and identities and raises the black height by one. */
  lemma RecolorOk<V>(pd: Direction, pid: nat, pk: int, pv: V, ps: Tree<V>,
                     gd: Direction, gid: nat, gc: Color, gk: int, gv: V, u: Tree<V>, t: Tree<V>, h: nat)
    requires Balanced(t) && RedRedFree(t) && IsRed(t) && BlackHeight(t) == h
    requires Balanced(ps) && RedRedFree(ps) && !IsRed(ps) && BlackHeight(ps) == h
    requires Balanced(u) && RedRedFree(u) && IsRed(u) && BlackHeight(u) == h
    ensures var g := Attach(gd, gid, Black, gk, gv, u, Attach(pd, pid, Red, pk, pv, ps, t));
      var g' := Attach(gd, gid, gc, gk, gv, Painted(u, Black), Attach(pd, pid, Black, pk, pv, ps, t));
      Balanced(g') && RedRedFree(g') && BlackHeight(g') == h + 1 + (if gc == Black then 1 else 0) &&
      Entries(g') == Entries(g) && Ids(g') == Ids(g) && (DistinctIds(g) ==> DistinctIds(g'))
  {
    var g := Attach(gd, gid, Black, gk, gv, u, Attach(pd, pid, Red, pk, pv, ps, t));
    var u' := Painted(u, Black);
    assert u' == Node(u.id, Black, u.key, u.value, u.left, u.right);
    assert Entries(u') == Entries(u) && Ids(u') == Ids(u);
    assert BlackHeight(u') == h + 1;
    var p' := Attach(pd, pid, Black, pk, pv, ps, t);
    assert Balanced(p') && RedRedFree(p') && BlackHeight(p') == h + 1;
    var g' := Attach(gd, gid, gc, gk, gv, u', p');
    if gd == Left {
      assert g' == Node(gid, gc, gk, gv, p', u');
    } else {
      assert g' == Node(gid, gc, gk, gv, u', p');
    }
    if DistinctIds(g) {
      assert DistinctIds(Attach(pd, pid, Red, pk, pv, ps, t));
      assert DistinctIds(u);
      assert DistinctIds(p') && DistinctIds(u');
    }
  }

  lemma {:induction false} FixupStepCorrect<V>(p: Path<V>, t: Tree<V>)
    requires FixupInv(p, t)
    ensures match FixupStep(p, t)
      case Stop(r, _) =>
        Balanced(r) && RedRedFree(r) && !IsRed(r) &&
        Entries(r) == Entries(Plug(p, t)) && Ids(r) == Ids(Plug(p, t)) &&
        (DistinctIds(Plug(p, t)) ==> DistinctIds(r))
      case Continue(p', t', _) =>
        FixupInv(p', t') &&
        Entries(Plug(p', t')) == Entries(Plug(p, t)) && Ids(Plug(p', t')) == Ids(Plug(p, t)) &&
        (DistinctIds(Plug(p, t)) ==> DistinctIds(Plug(p', t')))
  {
    var h := BlackHeight(t);
    match p
    case Up(pd, pid, pc, pk, pv, ps, rest) =>
      if pc == Black {
        Compose(p, t);
        ColorOfPlug(p, t);
      } else {
        assert FramesOk(rest, h, true, false);
        match rest
        case Up(gd, gid, gc, gk, gv, u, rest2) =>
          assert gc == Black;
          assert FramesOk(rest2, h + 1, false, false);
          var g := Attach(gd, gid, gc, gk, gv, u, Attach(pd, pid, pc, pk, pv, ps, t));
          assert Plug(p, t) == Plug(rest2, g);
          if ColorOf(u) == Black {
            var x := if pd == gd then Straight(gd, pid, pk, pv, ps, gid, gk, gv, u, t)
                     else ZigZag(gd, pid, pk, pv, ps, gid, gk, gv, u, t);
            RotationsOk(pd, pid, pk, pv, ps, gd, gid, gk, gv, u, t, h);
            Compose(rest2, x);
            SamePlug(rest2, g, x);
            if rest2.Up? {
              ColorOfPlug(rest2, x);
              assert TopColor(p) == TopColor(rest) == TopColor(rest2);
            }
          } else {
            var gc' := if rest2.Top? then gc else Red;
            var g' := Attach(gd, gid, gc', gk, gv, Painted(u, Black), Attach(pd, pid, Black, pk, pv, ps, t));
            RecolorOk(pd, pid, pk, pv, ps, gd, gid, gc', gk, gv, u, t, h);
            SamePlug(rest2, g, g');
            if rest2.Up? {
              FramesOkRelax(rest2, h + 1, false, false, true);
              assert TopColor(p) == TopColor(rest) == TopColor(rest2);
            }
          }
      }
  }

  lemma {:induction false} FixupCorrect<V>(p: Path<V>, t: Tree<V>, acc: seq<Event>)
    requires FixupInv(p, t)
    ensures var (r, _) := Fixup(p, t, acc);
      Balanced(r) && RedRedFree(r) && !IsRed(r) &&
      Entries(r) == Entries(Plug(p, t)) && Ids(r) == Ids(Plug(p, t)) &&
      (DistinctIds(Plug(p, t)) ==> DistinctIds(r))
    decreases Depth(p)
  {
    FixupStepCorrect(p, t);
    match FixupStep(p, t)
    case Stop(_, _) =>
    case Continue(p', t', es) => FixupCorrect(p', t', acc + es);
  }

  lemma SortedMiddle<V>(a: seq<(int, V)>, m: seq<(int, V)>, b: seq<(int, V)>)
    requires Sorted(a + m + b)
    ensures Sorted(m)
  {
    var s := a + m + b;
    forall i, j | 0 <= i < j < |m| ensures m[i].0 <= m[j].0 {
      assert s[|a| + i] == m[i] && s[|a| + j] == m[j];
    }
  }

  lemma NoKeyBetween<V>(a: seq<(int, V)>, b: seq<(int, V)>, k: int)
    requires AllBelow(a, k) && AllAbove(b, k)
    ensures !HasKey(a + b, k)
  {
    var s := a + b;
    forall i | 0 <= i < |s| ensures s[i].0 != k {
      if i < |a| { assert s[i] == a[i]; } else { assert s[i] == b[i - |a|]; }
    }
  }

  /** The descent below `s` on the way `p`, whose entries bracket `k`. */
  lemma {:induction false} DescendCorrect<V>(s: Tree<V>, p: Path<V>, k: int, v: V, n: nat, allowDup: bool, acc: seq<Event>)
    requires s.Node?
    requires var t := Plug(p, s); Balanced(t) && RedRedFree(t) && !IsRed(t) && Sorted(Entries(t))
    requires AllBelow(Before(p), k) && NoneBelow(After(p), k)
    requires !allowDup ==> AllAbove(After(p), k)
    ensures var t, r := Plug(p, s), Descend(s, p, k, v, n, allowDup, acc);
      (r.Duplicated? <==> !allowDup && HasKey(Entries(t), k)) &&
      (r.Duplicated? ==> r.key == k) &&
      (r.Inserted? ==>
         Balanced(r.tree) && RedRedFree(r.tree) && !IsRed(r.tree) &&
         Entries(r.tree) == InsertAt(Entries(t), k, v) &&
         Ids(r.tree) == Ids(t) + {n} &&
         (DistinctIds(t) && n !in Ids(t) ==> DistinctIds(r.tree)))
    decreases s
  {
    var t := Plug(p, s);
    if !allowDup && k == s.key {
      KeyOnPath(p, s);
    } else {
      var d := if k <= s.key then Left else Right;
      var p' := Up(d, s.id, s.color, s.key, s.value, Sub(s, Other(d)), p);
      assert Plug(p', Sub(s, d)) == t;
      if d == Left { BracketLeft(p, s, k, allowDup); } else { BracketRight(p, s, k, allowDup); }
      if Sub(s, d).Nil? {
        InsertHere(p', k, v, n, allowDup, acc + [SearchNode(s.key, d, true)]);
      } else {
        DescendCorrect(Sub(s, d), p', k, v, n, allowDup, acc + [SearchNode(s.key, d, false)]);
      }
    }
  }

  lemma KeyOnPath<V>(p: Path<V>, s: Tree<V>)
    requires s.Node?
    ensures HasKey(Entries(Plug(p, s)), s.key)
  {
    EntriesOfPlug(p, s);
    var l := Entries(s.left);
    assert Entries(s) == l + [(s.key, s.value)] + Entries(s.right);
    assert Entries(Plug(p, s))[|Before(p)| + |l|] == (s.key, s.value);
  }

  lemma BracketLeft<V>(p: Path<V>, s: Tree<V>, k: int, allowDup: bool)
    requires s.Node? && Sorted(Entries(Plug(p, s))) && k <= s.key
    requires NoneBelow(After(p), k)
    requires !allowDup ==> AllAbove(After(p), k) && k != s.key
    ensures var p' := Up(Left, s.id, s.color, s.key, s.value, s.right, p);
      NoneBelow(After(p'), k) && (!allowDup ==> AllAbove(After(p'), k))
  {
    EntriesOfPlug(p, s);
    SortedMiddle(Before(p), Entries(s), After(p));
    SortedNode(s);
    var p' := Up(Left, s.id, s.color, s.key, s.value, s.right, p);
    var a := [(s.key, s.value)] + Entries(s.right);
    var w := a + After(p);
    assert After(p') == w;
    forall i | 0 <= i < |w| ensures k <= w[i].0 && (!allowDup ==> k < w[i].0) {
      if i < |a| {
        assert w[i] == a[i];
        if i > 0 { assert a[i] == Entries(s.right)[i - 1]; }
      } else {
        assert w[i] == After(p)[i - |a|];
      }
    }
  }

  lemma BracketRight<V>(p: Path<V>, s: Tree<V>, k: int, allowDup: bool)
    requires s.Node? && Sorted(Entries(Plug(p, s))) && k > s.key
    requires AllBelow(Before(p), k)
    ensures var p' := Up(Right, s.id, s.color, s.key, s.value, s.left, p);
      AllBelow(Before(p'), k)
  {
    EntriesOfPlug(p, s);
    SortedMiddle(Before(p), Entries(s), After(p));
    SortedNode(s);
    var p' := Up(Right, s.id, s.color, s.key, s.value, s.left, p);
    var b := Entries(s.left) + [(s.key, s.value)];
    assert Before(p') == Before(p) + b;
    assert forall i :: 0 <= i < |b| ==> b[i].0 <= s.key;
  }

  /** The new red node hung at the empty place `p'`, then the fix-up. */
  lemma InsertHere<V>(p': Path<V>, k: int, v: V, n: nat, allowDup: bool, acc: seq<Event>)
    requires p'.Up?
    requires var t := Plug(p', Nil); Balanced(t) && RedRedFree(t) && !IsRed(t)
    requires AllBelow(Before(p'), k) && NoneBelow(After(p'), k)
    requires !allowDup ==> AllAbove(After(p'), k)
    ensures var t, nd := Plug(p', Nil), Node(n, Red, k, v, Nil, Nil);
      var r := Fixup(p', nd, acc).0;
      (!allowDup ==> !HasKey(Entries(t), k)) &&
      Balanced(r) && RedRedFree(r) && !IsRed(r) &&
      Entries(r) == InsertAt(Entries(t), k, v) &&
      Ids(r) == Ids(t) + {n} &&
      (DistinctIds(t) && n !in Ids(t) ==> DistinctIds(r))
  {
    var t, nd := Plug(p', Nil), Node(n, Red, k, v, Nil, Nil);
    FixupStart(p', n, k, v);
    FixupCorrect(p', nd, acc);
    NewLeafEntries(p', k, v, n);
    if !allowDup { NoKeyBetween(Before(p'), After(p'), k); }
  }

  /** A red leaf hung at an empty place of a red-black tree meets the fix-up loop's invariant. */
  lemma FixupStart<V>(p: Path<V>, n: nat, k: int, v: V)
    requires p.Up?
    requires var t := Plug(p, Nil); Balanced(t) && RedRedFree(t) && !IsRed(t)
    ensures FixupInv(p, Node(n, Red, k, v, Nil, Nil))
  {
    Decompose(p, Nil);
    FramesOkRelax(p, 0, false, false, true);
    ColorOfPlug(p, Nil);
  }

  /** The red leaf `n` hung on the empty side `d` of `s` starts the fix-up loop with distinct ids. */
  lemma LeafStart<V>(p: Path<V>, s: Tree<V>, d: Direction, k: int, v: V, n: nat)
    requires s.Node? && Sub(s, d).Nil? && IsRedBlack(Plug(p, s)) && DistinctIds(Plug(p, s)) && n !in Ids(Plug(p, s))
    ensures var q := Up(d, s.id, s.color, s.key, s.value, Sub(s, Other(d)), p);
      var leaf := Node(n, Red, k, v, Nil, Nil);
      FixupInv(q, leaf) && DistinctIds(Plug(q, leaf))
  {
    var q := Up(d, s.id, s.color, s.key, s.value, Sub(s, Other(d)), p);
    var leaf := Node(n, Red, k, v, Nil, Nil);
    assert Plug(q, Nil) == Plug(p, s);
    FixupStart(q, n, k, v);
    IdsOfPlug(q, Nil);
    IdsOfPlug(q, leaf);
  }

  lemma NewLeafEntries<V>(p: Path<V>, k: int, v: V, n: nat)
    requires AllBelow(Before(p), k) && NoneBelow(After(p), k)
    ensures var t, nd := Plug(p, Nil), Node(n, Red, k, v, Nil, Nil);
      Entries(t) == Before(p) + After(p) &&
      Entries(Plug(p, nd)) == InsertAt(Entries(t), k, v) &&
      Ids(Plug(p, nd)) == Ids(t) + {n} &&
      (DistinctIds(t) && n !in Ids(t) ==> DistinctIds(Plug(p, nd)))
  {
    var nd := Node(n, Red, k, v, Nil, Nil);
    EntriesOfPlug(p, nd); EntriesOfPlug(p, Nil);
    IdsOfPlug(p, nd); IdsOfPlug(p, Nil);
    InsertAtSplit(Before(p), After(p), k, v);
    assert Entries(nd) == [(k, v)];
    assert Before(p) + [] + After(p) == Before(p) + After(p);
  }

  lemma {:induction false} InsertAtContents<V>(es: seq<(int, V)>, k: int, v: V)
    ensures multiset(InsertAt(es, k, v)) == multiset(es) + multiset{(k, v)}
  {
    if es != [] && k > es[0].0 {
      InsertAtContents(es[1..], k, v);
      assert es == [es[0]] + es[1..];
    }
  }

  /** Every entry of the result is the new one or one of `es`. */
  lemma InsertAtMember<V>(es: seq<(int, V)>, k: int, v: V, i: int)
    requires 0 <= i < |InsertAt(es, k, v)|
    ensures InsertAt(es, k, v)[i] == (k, v) || exists j :: 0 <= j < |es| && es[j] == InsertAt(es, k, v)[i]
  {
    var r := InsertAt(es, k, v);
    InsertAtContents(es, k, v);
    assert r[i] in multiset(r);
    if r[i] != (k, v) {
      assert r[i] in multiset(es);
      assert r[i] in es;
    }
  }

  lemma {:induction false} InsertAtSorted<V>(es: seq<(int, V)>, k: int, v: V)
    requires Sorted(es)
    ensures Sorted(InsertAt(es, k, v))
  {
    if es != [] && k > es[0].0 {
      var r := InsertAt(es[1..], k, v);
      InsertAtSorted(es[1..], k, v);
      forall i | 0 <= i < |r| ensures es[0].0 <= r[i].0 {
        InsertAtMember(es[1..], k, v, i);
        if r[i] != (k, v) {
          var j :| 0 <= j < |es[1..]| && es[1..][j] == r[i];
          assert es[j + 1] == r[i];
        }
      }
      var w := [es[0]] + r;
      forall i, j | 0 <= i < j < |w| ensures w[i].0 <= w[j].0 {
        if i > 0 { assert w[i] == r[i - 1] && w[j] == r[j - 1]; }
      }
    }
  }

  lemma {:induction false} InsertAtStrict<V>(es: seq<(int, V)>, k: int, v: V)
    requires StrictlySorted(es) && !HasKey(es, k)
    ensures StrictlySorted(InsertAt(es, k, v))
  {
    if es != [] && k > es[0].0 {
      var r := InsertAt(es[1..], k, v);
      forall j | 0 <= j < |es[1..]| ensures es[1..][j].0 != k {
        assert es[1..][j] == es[j + 1];
      }
      InsertAtStrict(es[1..], k, v);
      forall i | 0 <= i < |r| ensures es[0].0 < r[i].0 {
        InsertAtMember(es[1..], k, v, i);
        if r[i] != (k, v) {
          var j :| 0 <= j < |es[1..]| && es[1..][j] == r[i];
          assert es[j + 1] == r[i];
        }
      }
      var w := [es[0]] + r;
      forall i, j | 0 <= i < j < |w| ensures w[i].0 < w[j].0 {
        if i > 0 { assert w[i] == r[i - 1] && w[j] == r[j - 1]; }
      }
    } else if es != [] {
      assert es[0].0 != k;
    }
  }

  /** What `insert` promises: the red-black shape kept and the entry placed in order. */
  lemma InsertCorrect<V>(t: Tree<V>, k: int, v: V, n: nat, allowDup: bool)
    requires IsRedBlack(t)
    ensures var r := SpecInsert(t, k, v, n, allowDup);
      (r.Duplicated? <==> !allowDup && HasKey(Entries(t), k)) &&
      (r.Duplicated? ==> r.key == k) &&
      (r.Inserted? ==>
         IsRedBlack(r.tree) &&
         Entries(r.tree) == InsertAt(Entries(t), k, v) &&
         Ids(r.tree) == Ids(t) + {n} &&
         (DistinctIds(t) && n !in Ids(t) ==> DistinctIds(r.tree)) &&
         (StrictlySorted(Entries(t)) && !allowDup ==> StrictlySorted(Entries(r.tree))))
  {
    if t.Node? {
      DescendCorrect(t, Top, k, v, n, allowDup, []);
    }
    InsertAtSorted(Entries(t), k, v);
    if StrictlySorted(Entries(t)) && !allowDup && !HasKey(Entries(t), k) {
      InsertAtStrict(Entries(t), k, v);
    }
  }

  // ---------------------------------------------------------------------
  // Deletion: the cases settled without rebalancing

  /** The walk of `delete` to the first node holding `k`. */
  function Locate<V>(t: Tree<V>, k: int, p: Path<V>): (r: Option<(Path<V>, Tree<V>)>)
    ensures r.Some? ==> r.value.1.Node? && r.value.1.key == k && Plug(r.value.0, r.value.1) == Plug(p, t)
    decreases t
  {
    if t.Nil? then None
    else if k < t.key then Locate(t.left, k, Up(Left, t.id, t.color, t.key, t.value, t.right, p))
    else if k > t.key then Locate(t.right, k, Up(Right, t.id, t.color, t.key, t.value, t.left, p))
    else Some((p, t))
  }

  /** The rightmost node below `s`, reached along `p`: the in-order predecessor's place. */
  function Rightmost<V>(s: Tree<V>, p: Path<V>): (r: (Path<V>, Tree<V>))
    requires s.Node?
    ensures r.1.Node? && r.1.right.Nil? && Plug(r.0, r.1) == Plug(p, s) && After(r.0) == After(p)
    decreases s
  {
    if s.right.Nil? then (p, s)
    else Rightmost(s.right, Up(Right, s.id, s.color, s.key, s.value, s.left, p))
  }

  /**
   * The node `delete` finally unlinks, and the path to it: the matched node
   * itself when it has no left child, otherwise its predecessor, whose key
   * and value have been copied into the matched node.
   */
  function Target<V>(pm: Path<V>, m: Tree<V>): (Path<V>, Tree<V>)
    requires m.Node?
  {
    if m.left.Nil? then (pm, m)
    else
      var (pl, x) := Rightmost(m.left, Top);
      (Extend(pl, Up(Left, m.id, m.color, x.key, x.value, m.right, pm)), x)
  }

  /**
   * After the predecessor's key and value are copied into the matched node,
   * the tree is the node `delete` unlinks plugged into its path.
   */
  lemma TargetPlug<V>(pm: Path<V>, m: Tree<V>)
    requires m.Node?
    ensures var (q, y) := Target(pm, m);
      var m' := if m.left.Nil? then m else Node(m.id, m.color, y.key, y.value, m.left, m.right);
      y.Node? && Plug(q, y) == Plug(pm, m') && Ids(Plug(pm, m')) == Ids(Plug(pm, m)) &&
      (m.left.Node? ==> y.id in Ids(m.left) && q.Up?) &&
      (DistinctIds(Plug(pm, m)) ==> DistinctIds(Plug(q, y)))
  {
    if m.left.Node? {
      var (pl, x) := Rightmost(m.left, Top);
      var outer := Up(Left, m.id, m.color, x.key, x.value, m.right, pm);
      var m' := Node(m.id, m.color, x.key, x.value, m.left, m.right);
      PlugExtend(pl, outer, x);
      IdsOfPlug(pl, x);
      IdsOfPlug(pm, m);
      IdsOfPlug(pm, m');
    }
  }

  datatype DeleteResult<V> = NotFound | Removed(tree: Tree<V>) | DoubleBlack

  /** `delete`: missing key, a red node unlinked, a red right child absorbed, or the rebalancing loop. */
  function SpecDelete<V>(t: Tree<V>, k: int): DeleteResult<V>
  {
    match Locate(t, k, Top)
    case None => NotFound
    case Some((pm, m)) =>
      var (q, y) := Target(pm, m);
      if y.color == Red then Removed(Plug(q, Nil))
      else if IsRed(y.right) then Removed(Plug(q, Node(y.id, y.color, y.right.key, y.right.value, y.left, Nil)))
      else DoubleBlack
  }

  /** A tree of one node holding `k`: deleting `k` from it meets the lone-root defect. */
  predicate LoneRoot<V>(t: Tree<V>, k: int)
  {
    t.Node? && t.key == k && t.left.Nil? && t.right.Nil?
  }

  /** `e'` is `e` without its entry at index `j`. */
  ghost predicate DropsEntry<V>(e: seq<(int, V)>, j: nat, e': seq<(int, V)>)
  {
    j < |e| && e' == RemoveAt(e, j)
  }

  function RemoveAt<V>(es: seq<(int, V)>, j: nat): seq<(int, V)>
    requires j < |es|
  {
    es[..j] + es[j + 1..]
  }

  /** `delete` walks exactly as `search` does. */
  lemma {:induction false} LocateIsSearch<V>(t: Tree<V>, k: int, p: Path<V>, acc: seq<Event>)
    ensures Locate(t, k, p).Some? <==> SearchFrom(t, k, acc).found.Some?
    ensures Locate(t, k, p).Some? ==> Locate(t, k, p).value.1 == SearchFrom(t, k, acc).found.value
    decreases t
  {
    if t.Node? {
      if k < t.key { LocateIsSearch(t.left, k, Up(Left, t.id, t.color, t.key, t.value, t.right, p), acc + [SearchNode(t.key, Left, false)]); }
      else if k > t.key { LocateIsSearch(t.right, k, Up(Right, t.id, t.color, t.key, t.value, t.left, p), acc + [SearchNode(t.key, Right, false)]); }
    }
  }

  /** A non-red tree of black height zero is empty. */
  lemma EmptyByHeight<V>(t: Tree<V>)
    requires Balanced(t) && !IsRed(t) && BlackHeight(t) == 0
    ensures t.Nil?
  {
  }

  /** A red node, or a black node over a red right child and no left child, whose left is empty is a leaf. */
  lemma RedWithEmptyLeft<V>(t: Tree<V>)
    requires t.Node? && Balanced(t) && RedRedFree(t) && t.color == Red && t.left.Nil?
    ensures t.right.Nil?
  {
    EmptyByHeight(t.right);
  }

  lemma RemoveRedLeaf<V>(q: Path<V>, y: Tree<V>)
    requires y.Node? && y.color == Red && y.left.Nil? && y.right.Nil?
    requires IsRedBlack(Plug(q, y))
    ensures IsRedBlack(Plug(q, Nil))
    ensures |Before(q)| < |Entries(Plug(q, y))|
    ensures Entries(Plug(q, y))[|Before(q)|] == (y.key, y.value)
    ensures Entries(Plug(q, Nil)) == RemoveAt(Entries(Plug(q, y)), |Before(q)|)
    ensures Ids(Plug(q, Nil)) <= Ids(Plug(q, y))
    ensures DistinctIds(Plug(q, y)) ==> DistinctIds(Plug(q, Nil))
  {
    Decompose(q, y);
    FramesOkWeaken(q, 0, true, false);
    Compose(q, Nil);
    if q.Up? { ColorOfPlug(q, y); ColorOfPlug(q, Nil); }
    IdsOfPlug(q, y); IdsOfPlug(q, Nil);
    assert Entries(y) == [(y.key, y.value)];
    RemovedEntries(q, y, Nil);
  }

  /** Replacing the plug `y` by `y'`, whose entries are those of `y` without the first. */
  lemma RemovedEntries<V>(q: Path<V>, y: Tree<V>, y': Tree<V>)
    requires |Entries(y)| > 0 && Entries(y') == Entries(y)[1..]
    requires Sorted(Entries(Plug(q, y)))
    ensures |Before(q)| < |Entries(Plug(q, y))|
    ensures Entries(Plug(q, y))[|Before(q)|] == Entries(y)[0]
    ensures Entries(Plug(q, y')) == RemoveAt(Entries(Plug(q, y)), |Before(q)|)
    ensures Sorted(Entries(Plug(q, y')))
    ensures StrictlySorted(Entries(Plug(q, y))) ==> StrictlySorted(Entries(Plug(q, y')))
  {
    EntriesOfPlug(q, y); EntriesOfPlug(q, y');
    RemoveMiddle(Before(q), Entries(y), After(q));
    SortedRemove(Entries(Plug(q, y)), |Before(q)|);
  }

  lemma RemoveMiddle<V>(b: seq<(int, V)>, ys: seq<(int, V)>, a: seq<(int, V)>)
    requires |ys| > 0
    ensures |b| < |b + ys + a| && (b + ys + a)[|b|] == ys[0]
    ensures RemoveAt(b + ys + a, |b|) == b + ys[1..] + a
  {
    var e := b + ys + a;
    assert e[..|b|] == b;
    assert e[|b| + 1..] == ys[1..] + a;
  }

  lemma AbsorbRedChild<V>(q: Path<V>, y: Tree<V>)
    requires y.Node? && y.color == Black && y.left.Nil? && IsRed(y.right)
    requires IsRedBlack(Plug(q, y))
    ensures var y' := Node(y.id, y.color, y.right.key, y.right.value, y.left, Nil);
      IsRedBlack(Plug(q, y')) &&
      |Before(q)| < |Entries(Plug(q, y))| &&
      Entries(Plug(q, y))[|Before(q)|] == (y.key, y.value) &&
      Entries(Plug(q, y')) == RemoveAt(Entries(Plug(q, y)), |Before(q)|) &&
      Ids(Plug(q, y')) <= Ids(Plug(q, y)) &&
      (DistinctIds(Plug(q, y)) ==> DistinctIds(Plug(q, y')))
  {
    var r := y.right;
    var y' := Node(y.id, y.color, r.key, r.value, y.left, Nil);
    Decompose(q, y);
    EmptyByHeight(r.left);
    RedWithEmptyLeft(r);
    assert Balanced(y') && RedRedFree(y') && BlackHeight(y') == BlackHeight(y);
    Compose(q, y');
    if q.Up? { ColorOfPlug(q, y); ColorOfPlug(q, y'); }
    IdsOfPlug(q, y); IdsOfPlug(q, y');
    assert Entries(y) == [(y.key, y.value)] + [(r.key, r.value)];
    assert Entries(y') == [(r.key, r.value)];
    RemovedEntries(q, y, y');
    if DistinctIds(Plug(q, y)) { assert DistinctIds(y); }
  }

  lemma SortedRemove<V>(es: seq<(int, V)>, j: nat)
    requires j < |es|
    ensures Sorted(es) ==> Sorted(RemoveAt(es, j))
    ensures StrictlySorted(es) ==> StrictlySorted(RemoveAt(es, j))
  {
    var r := RemoveAt(es, j);
    assert forall i :: 0 <= i < |r| ==> r[i] == es[if i < j then i else i + 1];
  }

  lemma RedWithEmptyRight<V>(t: Tree<V>)
    requires t.Node? && Balanced(t) && RedRedFree(t) && t.color == Red && t.right.Nil?
    ensures t.left.Nil?
  {
    EmptyByHeight(t.left);
  }

  /** `t'` is `t` with one entry of key `k` removed, still red-black, with no new node ids. */
  ghost predicate RemovedOk<V>(t: Tree<V>, k: int, t': Tree<V>)
  {
    var e := Entries(t);
    IsRedBlack(t') &&
    (exists j :: 0 <= j < |e| && e[j].0 == k && Entries(t') == RemoveAt(e, j)) &&
    (StrictlySorted(e) ==> StrictlySorted(Entries(t'))) &&
    Ids(t') <= Ids(t) &&
    (DistinctIds(t) ==> DistinctIds(t'))
  }

  /** Assembles `RemovedOk` from its parts, for `t'` = `t` without its entry at `j`. */
  lemma RemovedOkIntro<V>(t: Tree<V>, k: int, t': Tree<V>, j: nat)
    requires Balanced(t') && RedRedFree(t') && !IsRed(t') && Sorted(Entries(t))
    requires j < |Entries(t)| && Entries(t)[j].0 == k && DropsEntry(Entries(t), j, Entries(t'))
    requires Ids(t') <= Ids(t) && (DistinctIds(t) ==> DistinctIds(t'))
    ensures RemovedOk(t, k, t')
  {
    SortedRemove(Entries(t), j);
  }

  /**
   * The matched node has a left child: its predecessor's entry moves up,
   * and a red predecessor is unlinked.
   */
  lemma RemovePredecessor<V>(pm: Path<V>, m: Tree<V>)
    requires m.Node? && m.left.Node? && IsRedBlack(Plug(pm, m))
    ensures var (pl, x) := Rightmost(m.left, Top);
      var q := Extend(pl, Up(Left, m.id, m.color, x.key, x.value, m.right, pm));
      x.color == Red ==> RemovedOk(Plug(pm, m), m.key, Plug(q, Nil))
  {
    var (pl, x) := Rightmost(m.left, Top);
    var outer := Up(Left, m.id, m.color, x.key, x.value, m.right, pm);
    var q := Extend(pl, outer);
    if x.color == Red {
      var m' := Node(m.id, m.color, x.key, x.value, m.left, m.right);
      var m'' := Node(m.id, m.color, x.key, x.value, Plug(pl, Nil), m.right);
      PlugExtend(pl, outer, x);
      PlugExtend(pl, outer, Nil);
      PredecessorShape(pm, m, pl, x, q);
      var j := |Before(pm)| + |Before(pl)| + 1;
      PredecessorEntries(pm, m, pl, x, q, j);
      PredecessorIds(pm, m, pl, x, q);
      RemovedOkIntro(Plug(pm, m), m.key, Plug(q, Nil), j);
    }
  }

  lemma PredecessorShape<V>(pm: Path<V>, m: Tree<V>, pl: Path<V>, x: Tree<V>, q: Path<V>)
    requires m.Node? && x.Node? && x.color == Red && x.right.Nil? && IsRedBlack(Plug(pm, m))
    requires Plug(q, x) == Plug(pm, Node(m.id, m.color, x.key, x.value, m.left, m.right))
    requires Plug(q, Nil) == Plug(pm, Node(m.id, m.color, x.key, x.value, Plug(pl, Nil), m.right))
    ensures x.left.Nil? && Balanced(Plug(q, Nil)) && RedRedFree(Plug(q, Nil)) && !IsRed(Plug(q, Nil))
  {
    var m' := Node(m.id, m.color, x.key, x.value, m.left, m.right);
    var m'' := Node(m.id, m.color, x.key, x.value, Plug(pl, Nil), m.right);
    Decompose(pm, m);
    Compose(pm, m');
    Decompose(q, x);
    RedWithEmptyRight(x);
    FramesOkWeaken(q, 0, true, false);
    Compose(q, Nil);
    if pm.Up? { ColorOfPlug(pm, m); ColorOfPlug(pm, m''); }
  }

  lemma PredecessorEntries<V>(pm: Path<V>, m: Tree<V>, pl: Path<V>, x: Tree<V>, q: Path<V>, j: nat)
    requires m.Node? && x.Node? && x.left.Nil? && x.right.Nil?
    requires Plug(pl, x) == m.left && After(pl) == []
    requires Plug(q, Nil) == Plug(pm, Node(m.id, m.color, x.key, x.value, Plug(pl, Nil), m.right))
    requires j == |Before(pm)| + |Before(pl)| + 1
    ensures j < |Entries(Plug(pm, m))| && Entries(Plug(pm, m))[j] == (m.key, m.value)
    ensures DropsEntry(Entries(Plug(pm, m)), j, Entries(Plug(q, Nil)))
  {
    EntriesWithPredecessor(pm, m, pl, x);
    EntriesWithoutPredecessor(pm, m, pl, x, q);
    DropPredecessor(Entries(Plug(pm, m)), Entries(Plug(q, Nil)), j,
      Before(pm), Before(pl), (x.key, x.value), (m.key, m.value), Entries(m.right), After(pm));
  }

  lemma EntriesWithPredecessor<V>(pm: Path<V>, m: Tree<V>, pl: Path<V>, x: Tree<V>)
    requires m.Node? && x.Node? && x.left.Nil? && x.right.Nil?
    requires Plug(pl, x) == m.left && After(pl) == []
    ensures Entries(Plug(pm, m)) ==
      Before(pm) + ((Before(pl) + [(x.key, x.value)]) + [(m.key, m.value)] + Entries(m.right)) + After(pm)
  {
    var xe := (x.key, x.value);
    assert Entries(m.left) == Before(pl) + [xe] by {
      assert Entries(x) == [xe];
      EntriesOfPlug(pl, x);
      assert Entries(m.left) == Before(pl) + [xe] + [];
    }
    assert Entries(Plug(pm, m)) == Before(pm) + Entries(m) + After(pm) by {
      EntriesOfPlug(pm, m);
    }
    assert Entries(m) == Entries(m.left) + [(m.key, m.value)] + Entries(m.right);
  }

  lemma EntriesWithoutPredecessor<V>(pm: Path<V>, m: Tree<V>, pl: Path<V>, x: Tree<V>, q: Path<V>)
    requires m.Node? && x.Node? && After(pl) == []
    requires Plug(q, Nil) == Plug(pm, Node(m.id, m.color, x.key, x.value, Plug(pl, Nil), m.right))
    ensures Entries(Plug(q, Nil)) == Before(pm) + (Before(pl) + [(x.key, x.value)] + Entries(m.right)) + After(pm)
  {
    var m'' := Node(m.id, m.color, x.key, x.value, Plug(pl, Nil), m.right);
    assert Entries(Plug(pl, Nil)) == Before(pl) by {
      EntriesOfPlug(pl, Nil);
      assert Entries(Plug(pl, Nil)) == Before(pl) + [] + [];
    }
    assert Entries(Plug(pm, m'')) == Before(pm) + Entries(m'') + After(pm) by {
      EntriesOfPlug(pm, m'');
    }
  }

  lemma DropPredecessor<V>(e: seq<(int, V)>, e': seq<(int, V)>, j: nat, bm: seq<(int, V)>, bl: seq<(int, V)>,
                           xe: (int, V), me: (int, V), rt: seq<(int, V)>, am: seq<(int, V)>)
    requires e == bm + ((bl + [xe]) + [me] + rt) + am
    requires e' == bm + (bl + [xe] + rt) + am
    requires j == |bm| + |bl| + 1
    ensures j < |e| && e[j] == me && DropsEntry(e, j, e')
  {
    var front := bm + bl + [xe];
    assert e == front + ([me] + rt) + am;
    RemoveMiddle(front, [me] + rt, am);
    assert ([me] + rt)[1..] == rt;
    assert e' == front + rt + am;
  }

  lemma PredecessorIds<V>(pm: Path<V>, m: Tree<V>, pl: Path<V>, x: Tree<V>, q: Path<V>)
    requires m.Node? && x.Node?
    requires Plug(q, x) == Plug(pm, Node(m.id, m.color, x.key, x.value, m.left, m.right))
    ensures Ids(Plug(q, Nil)) <= Ids(Plug(pm, m))
    ensures DistinctIds(Plug(pm, m)) ==> DistinctIds(Plug(q, Nil))
  {
    var m' := Node(m.id, m.color, x.key, x.value, m.left, m.right);
    IdsOfPlug(pm, m); IdsOfPlug(pm, m');
    IdsOfPlug(q, x); IdsOfPlug(q, Nil);
    assert Ids(m') == Ids(m);
    if DistinctIds(Plug(pm, m)) { assert DistinctIds(m); assert DistinctIds(m'); }
  }

  lemma RemoveMatched<V>(pm: Path<V>, m: Tree<V>)
    requires m.Node? && m.left.Nil? && IsRedBlack(Plug(pm, m))
    ensures m.color == Red ==> RemovedOk(Plug(pm, m), m.key, Plug(pm, Nil))
    ensures m.color == Black && IsRed(m.right) ==>
      RemovedOk(Plug(pm, m), m.key, Plug(pm, Node(m.id, m.color, m.right.key, m.right.value, m.left, Nil)))
  {
    var e := Entries(Plug(pm, m));
    if m.color == Red {
      Decompose(pm, m);
      RedWithEmptyLeft(m);
      RemoveRedLeaf(pm, m);
      SortedRemove(e, |Before(pm)|);
      assert e[|Before(pm)|].0 == m.key;
    } else if IsRed(m.right) {
      AbsorbRedChild(pm, m);
      SortedRemove(e, |Before(pm)|);
      assert e[|Before(pm)|].0 == m.key;
    }
  }

  /** What `delete` promises once the rebalancing loop is not needed. */
  lemma DeleteCorrect<V>(t: Tree<V>, k: int)
    requires IsRedBlack(t)
    ensures var r := SpecDelete(t, k);
      (r.NotFound? <==> !HasKey(Entries(t), k)) &&
      (r.Removed? ==> RemovedOk(t, k, r.tree))
  {
    LocateIsSearch(t, k, Top, []);
    SearchCorrect(t, k, []);
    match Locate(t, k, Top)
    case None =>
    case Some((pm, m)) =>
      if m.left.Nil? {
        RemoveMatched(pm, m);
      } else {
        RemovePredecessor(pm, m);
      }
  }
}
