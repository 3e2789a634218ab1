/**
 * `RedBlackTree` of `lib/algorithms/red_black_tree.py`: the node arena, the
 * root index, the duplicate-key switch and the recorder switch inherited from
 * `AlgorithmBase` (held here as the `base` object).  The ghost field `tree`
 * is the abstract tree the arena holds; `insert`, `search` and the fast paths
 * of `delete` are proved to act on it as `RedBlackSpec` describes.
 */
module RedBlackTrees {
  import opened Wrappers
  import opened RedBlackSpec
  import opened RedBlackArena
  import opened StepRecording
  import opened Algorithm

  /** `RBTreeException.insert_duplicated_key`, carrying the key. */
  datatype TreeError = InsertDuplicatedKey(dupKey: int)

  /** How the double-black loop of `delete` can end other than normally. */
  datatype Fault = AttributeError | OutOfFuel

  /** Reading an attribute of what may be Python `None`. */
  function Deref(x: Option<nat>): (r: Result<nat, Fault>)
    ensures r.Success? <==> x.Some?
    ensures x.Some? ==> r.value == x.value
  {
    if x.Some? then Success(x.value) else Failure(AttributeError)
  }

  /** The engine calls a run makes on the recorder: none while recording is off. */
  function Logged(on: bool, es: seq<Event>): seq<Event>
  {
    if on then es else []
  }

  /** One more engine call at the end of a run. */
  lemma LogStep(pending: seq<Event>, on: bool, acc: seq<Event>, e: Event)
    ensures (pending + Logged(on, acc)) + Logged(on, [e]) == pending + Logged(on, acc + [e])
  {
  }

  /** More engine calls at the end of a run. */
  lemma LogRun(pending: seq<Event>, on: bool, acc: seq<Event>, es: seq<Event>)
    ensures (pending + Logged(on, acc)) + Logged(on, es) == pending + Logged(on, acc + es)
  {
  }

  /** What a run of engine calls leaves in the queue. */
  function Trace(on: bool, es: seq<Event>): seq<StepTuple>
  {
    RecordAll(Logged(on, es))
  }

  class RedBlackTree<V> {
    var nodes: seq<Slot<V>>
    var root: nat
    const allowDupKeys: bool
    const base: AlgorithmBase
    ghost var tree: Tree<V>

    /** Every link stays inside the arena and the recorder switch is coherent. */
    ghost predicate Sound()
      reads this, base
    {
      base.Valid() && WellFormed(nodes, root)
    }

    /** The arena holds a red-black search tree with distinct node identities. */
    ghost predicate Valid()
      reads this, base
    {
      Sound() && nodes[NullIndex].color == Black && Holds(nodes, root, tree) &&
      IsRedBlack(tree) && DistinctIds(tree) &&
      (!allowDupKeys ==> StrictlySorted(Entries(tree)))
    }

    /** The recorder's queue, empty when there is no recorder. */
    ghost function Steps(): seq<StepTuple>
      reads base, base.stepRecorder
    {
      if base.stepRecorder == null then [] else base.stepRecorder.steps
    }

    /** The recorder, when there is one, keeps its queue in step with its calls. */
    ghost predicate RecorderOk()
      reads base, base.stepRecorder
    {
      base.Valid() && (base.stepRecorder != null ==> base.stepRecorder.Valid())
    }

    ghost function Mark(): seq<StepTuple>
      reads base, base.stepRecorder
    {
      if base.stepRecorder == null then [] else base.stepRecorder.mark
    }

    ghost function Pending(): seq<Event>
      reads base, base.stepRecorder
    {
      if base.stepRecorder == null then [] else base.stepRecorder.pending
    }

    /** The queue after a run that started with `pending` and made the calls `es`. */
    lemma Replayed(mark: seq<StepTuple>, pending: seq<Event>, on: bool, es: seq<Event>)
      requires RecorderOk() && Mark() == mark && Pending() == pending + Logged(on, es)
      ensures Steps() == mark + RecordAll(pending) + Trace(on, es)
    {
      Replay(mark, pending, Logged(on, es));
      assert RecordAll([]) == [];
    }


    constructor(allowDupKeys: bool, stepRecorder: StepRecorder?)
      requires stepRecorder != null ==> stepRecorder.Valid()
      ensures Valid() && RecorderOk() && tree == Nil && root == NullIndex && |nodes| == 1
      ensures this.allowDupKeys == allowDupKeys
      ensures fresh(base) && base.stepRecorder == stepRecorder && !base.enableStepRecorder
    {
      this.allowDupKeys := allowDupKeys;
      base := new AlgorithmBase(stepRecorder);
      nodes := [Sentinel(Black, None, None, None, None)];
      root := NullIndex;
      tree := Nil;
    }

    /**
     * The guard the engine puts around every recorder call: the call is made
     * only while `enable_step_recorder` is on.
     */
    method Report(e: Event)
      requires RecorderOk()
      modifies base.stepRecorder
      ensures RecorderOk() && Mark() == old(Mark())
      ensures Pending() == old(Pending()) + Logged(base.enableStepRecorder, [e])
    {
      if base.enableStepRecorder {
        match e
        case InitTree => base.stepRecorder.InitTree();
        case SearchNode(k, d, finished) => base.stepRecorder.SearchNode(k, d, finished);
        case MatchNode(k) => base.stepRecorder.MatchNode(k);
        case UnmatchNode => base.stepRecorder.UnmatchNode();
        case FixupTree(pf, mf, uncle) => base.stepRecorder.FixupTree(pf, mf, uncle);
        case BlackenRootNode => base.stepRecorder.BlackenRootNode();
      }
    }

    /**
     * Lines 202-217 (and 234-249): `x` turns black and `gp` red, `x` takes
     * `gp`'s place under `gp`'s parent on `gp`'s side, or becomes the root,
     * and `gp` hangs from `x`.
     */
    method Lift(x: nat, gp: nat)
      requires WellFormed(nodes, root) && 1 <= x < |nodes| && 1 <= gp < |nodes| && x != gp
      requires gp == root <==> nodes[gp].parent.None?
      requires gp == root ==> nodes[gp].fromDirection.None?
      requires gp != root ==> nodes[gp].fromDirection.Some? && nodes[gp].parent.value !in {NullIndex, x, gp}
      modifies this
      ensures Lifted(old(nodes), nodes, old(root), root, x, gp, old(nodes)[gp].parent, old(nodes)[gp].fromDirection)
      ensures tree == old(tree)
    {
      ghost var a, root0 := nodes, root;
      nodes := nodes[x := WithColor(nodes[x], Black)];
      nodes := nodes[gp := WithColor(nodes[gp], Red)];
      if gp != root {
        var up := nodes[gp].parent.value;
        nodes := nodes[x := WithParent(nodes[x], Some(up))];
        if nodes[gp].fromDirection == Some(Left) {
          nodes := nodes[up := SetChild(nodes[up], Left, x)];
          nodes := nodes[x := WithSide(nodes[x], Some(Left))];
        } else {
          nodes := nodes[up := SetChild(nodes[up], Right, x)];
          nodes := nodes[x := WithSide(nodes[x], Some(Right))];
        }
      } else {
        root := x;
        nodes := nodes[x := WithSide(WithParent(nodes[x], None), None)];
      }
      nodes := nodes[gp := WithParent(nodes[gp], Some(x))];
      assert (nodes, root) == LiftAt(a, root0, x, gp);
      LiftWrites(a, root0, x, gp);
    }

    /**
     * Lines 219-223 and their mirror image (and lines 252-263): `low` goes
     * down on side `Other(e)` of `top`, taking `top`'s child on that side as
     * its own child on side `e`.
     */
    method Turn(top: nat, low: nat, e: Direction)
      requires WellFormed(nodes, root) && 1 <= top < |nodes| && 1 <= low < |nodes| && top != low
      requires nodes[top].Record? && nodes[low].Record?
      requires Child(nodes[top], Other(e)) != top && Child(nodes[top], Other(e)) != low
      modifies this
      ensures WellFormed(nodes, root) && Turned(old(nodes), nodes, top, low, e)
      ensures root == old(root) && tree == old(tree)
    {
      ghost var a := nodes;
      var inner := Child(nodes[top], Other(e));
      nodes := nodes[low := SetChild(nodes[low], e, inner)];
      nodes := nodes[inner := WithSide(WithParent(nodes[inner], Some(low)), Some(e))];
      nodes := nodes[top := SetChild(nodes[top], Other(e), low)];
      nodes := nodes[low := WithSide(nodes[low], Some(Other(e)))];
      assert nodes == TurnAt(a, top, low, e);
      TurnWrites(a, root, top, low, e);
    }

    /**
     * Black uncle, node and parent on the same side (lines 199-231): the
     * single rotation at the grandparent `gp`, after which the parent `par`
     * is the black top of the rotated part.  This is the rotation as
     * intended, not as written: lines 206-217 overwrite the parent's
     * `from_direction` with the grandparent's side (or `None` at the root)
     * before line 220 tests it to choose the side `gp` goes down on.  Here
     * the parent's own side is read before the lift.  The rotation as
     * written is `RedBlackArena.StraightAsWritten`, and
     * `RedBlackArena.ThreeTwoOneAfter` shows it leaving no tree.
     */
    method RotateStraight(me: nat, par: nat, gp: nat, ghost fp: Path<V>, ghost t: Tree<V>)
      requires fp.Up? && fp.rest.Up? && fp.dir == fp.rest.dir && par == fp.id && gp == fp.rest.id
      requires WellFormed(nodes, root) && nodes[NullIndex].color == Black
      requires ReprPath(nodes, fp, me, root) && Represents(nodes, me, t, HoleParent(fp, None), HoleSide(fp, None))
      requires DistinctIds(Plug(fp, t))
      modifies this
      ensures WellFormed(nodes, root) && nodes[NullIndex].color == Black && |nodes| == old(|nodes|)
      ensures Holds(nodes, root, Plug(fp.rest.rest, Straight(fp.dir, par, fp.key, fp.value, fp.sibling,
                                                            gp, fp.rest.key, fp.rest.value, fp.rest.sibling, t)))
      ensures tree == old(tree)
    {
      StraightPlan(nodes, fp, me, t, root);
      ghost var a, root0 := nodes, root;
      var pd := if nodes[par].fromDirection == Some(Left) then Left else Right;
      Lift(par, gp);
      ghost var l, root1 := nodes, root;
      Turn(par, gp, pd);
      StraightStep(a, l, nodes, root0, root1, fp, me, t, pd);
    }

    /**
     * Lines 252-263 (and their mirror image): after the lift of `me`, `gp`
     * goes down on side `Other(pd)` of `me` and `par` on side `pd`, and `par`
     * hangs from `me`.
     */
    method TurnBoth(me: nat, par: nat, gp: nat, pd: Direction) returns (ghost n4: seq<Slot<V>>, ghost n5: seq<Slot<V>>)
      requires WellFormed(nodes, root) && 1 <= me < |nodes| && 1 <= par < |nodes| && 1 <= gp < |nodes|
      requires me != par && me != gp && par != gp
      requires nodes[me].Record? && nodes[par].Record? && nodes[gp].Record?
      requires Child(nodes[me], Other(pd)) !in {me, par, gp} && Child(nodes[me], pd) !in {me, par, gp}
      modifies this
      ensures WellFormed(nodes, root) && |nodes| == old(|nodes|)
      ensures Turned(old(nodes), n4, me, gp, pd) && Turned(n4, n5, me, par, Other(pd))
      ensures nodes == n5[par := WithParent(n5[par], Some(me))]
      ensures root == old(root) && tree == old(tree)
    {
      Turn(me, gp, pd);
      n4 := nodes;
      assert Other(Other(pd)) == pd;
      Turn(me, par, Other(pd));
      n5 := nodes;
      nodes := nodes[par := WithParent(nodes[par], Some(me))];
      StoreOk(n5, root, par, WithParent(n5[par], Some(me)));
    }

    /**
     * Black uncle, parent on side `gd` of the grandparent and node on the
     * other side of the parent (lines 233-281): the node `me` is lifted into
     * the grandparent's place, the grandparent turned down on one side and
     * the parent on the other.
     */
    method RotateZigZag(me: nat, par: nat, gp: nat, ghost fp: Path<V>, ghost t: Tree<V>)
      requires fp.Up? && fp.rest.Up? && fp.dir == Other(fp.rest.dir) && par == fp.id && gp == fp.rest.id && t.Node?
      requires WellFormed(nodes, root) && nodes[NullIndex].color == Black && fp.color == Red
      requires ReprPath(nodes, fp, me, root) && Represents(nodes, me, t, HoleParent(fp, None), HoleSide(fp, None))
      requires DistinctIds(Plug(fp, t))
      modifies this
      ensures WellFormed(nodes, root) && nodes[NullIndex].color == Black && |nodes| == old(|nodes|)
      ensures Holds(nodes, root, Plug(fp.rest.rest, ZigZag(fp.rest.dir, fp.id, fp.key, fp.value, fp.sibling,
                                                          fp.rest.id, fp.rest.key, fp.rest.value, fp.rest.sibling, t)))
      ensures tree == old(tree)
    {
      ZigZagPlan(nodes, fp, me, t, root);
      ghost var a, root0 := nodes, root;
      var pd := if nodes[par].fromDirection == Some(Left) then Left else Right;
      Lift(me, gp);
      ghost var l, root1 := nodes, root;
      ghost var n4, n5 := TurnBoth(me, par, gp, pd);
      ZigZagStep(a, l, n4, n5, nodes, root0, root1, fp, me, t, pd);
    }

    /**
     * `insert` (lines 91-315): the entry gets the fresh record numbered
     * `|nodes|`, placed as `SpecInsert` describes, whose index is the node
     * returned; or `insert_duplicated_key` is raised with the arena as it was.
     */
    method Insert(key: int, value: V) returns (r: Result<nat, TreeError>)
      requires Valid() && RecorderOk()
      modifies this, base.stepRecorder
      ensures Valid() && RecorderOk()
      ensures var spec := SpecInsert(old(tree), key, value, old(|nodes|), allowDupKeys);
        Steps() == old(Steps()) + Trace(base.enableStepRecorder, spec.events) &&
        (r.Failure? <==> spec.Duplicated?) &&
        (r.Failure? ==> r.error == InsertDuplicatedKey(key) && nodes == old(nodes) && root == old(root) && tree == old(tree)) &&
        (r.Success? ==> r.value == old(|nodes|) && |nodes| == old(|nodes|) + 1 && tree == spec.tree)
      ensures r.Failure? <==> !allowDupKeys && HasKey(Entries(old(tree)), key)
      ensures r.Success? ==> Entries(tree) == InsertAt(Entries(old(tree)), key, value) && Ids(tree) == Ids(old(tree)) + {old(|nodes|)}
    {
      ghost var spec := SpecInsert(tree, key, value, |nodes|, allowDupKeys);
      InsertCorrect(tree, key, value, |nodes|, allowDupKeys);
      ghost var on, mark, pend := base.enableStepRecorder, Mark(), Pending();
      assert Steps() == mark + RecordAll(pend);
      if root == NullIndex {
        var n := |nodes|;
        InsertEmpty(key, value);
        r := Success(n);
      } else {
        r := InsertBelow(key, value);
      }
      Replayed(mark, pend, on, spec.events);
    }

    /** `insert` into a tree with a root: the search, the new leaf and the fix-up. */
    method InsertBelow(key: int, value: V) returns (r: Result<nat, TreeError>)
      requires Valid() && RecorderOk() && root != NullIndex
      modifies this, base.stepRecorder
      ensures Valid() && RecorderOk() && Mark() == old(Mark())
      ensures var spec := SpecInsert(old(tree), key, value, old(|nodes|), allowDupKeys);
        Pending() == old(Pending()) + Logged(base.enableStepRecorder, spec.events) &&
        (r.Failure? <==> spec.Duplicated?) &&
        (r.Failure? ==> r.error == InsertDuplicatedKey(key) && nodes == old(nodes) && root == old(root) && tree == old(tree)) &&
        (r.Success? ==> r.value == old(|nodes|) && |nodes| == old(|nodes|) + 1 && tree == spec.tree && Holds(nodes, root, tree))
    {
      ghost var on, pend := base.enableStepRecorder, Pending();
      var n := |nodes|;
      ghost var spec := SpecInsert(tree, key, value, n, allowDupKeys);
      var cur, d, dup, p, s, acc := FindSlot(key, value);
      if dup {
        return Failure(InsertDuplicatedKey(key));
      }
      ReprIds(nodes, root, tree, None, None);
      InsertCorrect(tree, key, value, n, allowDupKeys);
      ghost var q := Up(d, s.id, s.color, s.key, s.value, Sub(s, Other(d)), p);
      AddLeaf(cur, d, key, value, p, s, pend, acc, q, Node(n, Red, key, value, Nil, Nil));
      tree := spec.tree;
      return Success(n);
    }

    /**
     * Lines 121-313: the fresh red record hung on the empty side `d` of
     * `cur`, then the fix-up loop.
     */
    method AddLeaf(cur: nat, d: Direction, key: int, value: V, ghost p: Path<V>, ghost s: Tree<V>,
                   ghost pend: seq<Event>, ghost acc: seq<Event>, ghost q: Path<V>, ghost leaf: Tree<V>)
      requires WellFormed(nodes, root) && nodes[NullIndex].color == Black && RecorderOk()
      requires s.Node? && Sub(s, d).Nil? && cur == s.id && IsRedBlack(Plug(p, s)) && DistinctIds(Plug(p, s))
      requires ReprPath(nodes, p, cur, root) && Represents(nodes, cur, s, HoleParent(p, None), HoleSide(p, None))
      requires forall j :: j in Ids(Plug(p, s)) ==> j < |nodes|
      requires Pending() == pend + Logged(base.enableStepRecorder, acc)
      requires q == Up(d, s.id, s.color, s.key, s.value, Sub(s, Other(d)), p)
      requires leaf == Node(|nodes|, Red, key, value, Nil, Nil)
      modifies this, base.stepRecorder
      ensures Holds(nodes, root, Fixup(q, leaf, acc + [SearchNode(s.key, d, true)]).0)
      ensures Pending() == pend + Logged(base.enableStepRecorder, Fixup(q, leaf, acc + [SearchNode(s.key, d, true)]).1)
      ensures WellFormed(nodes, root) && nodes[NullIndex].color == Black && tree == old(tree)
      ensures RecorderOk() && Mark() == old(Mark()) && |nodes| == old(|nodes|) + 1
    {
      var me := HangLeaf(cur, d, key, value, p, s, pend, acc, q, leaf);
      FixUp(me, q, leaf, pend, acc + [SearchNode(s.key, d, true)]);
    }

    /** The new red record linked below `cur` on side `d`: the start of the fix-up loop. */
    method HangLeaf(cur: nat, d: Direction, key: int, value: V, ghost p: Path<V>, ghost s: Tree<V>,
                    ghost pend: seq<Event>, ghost acc: seq<Event>, ghost q: Path<V>, ghost leaf: Tree<V>) returns (me: nat)
      requires WellFormed(nodes, root) && nodes[NullIndex].color == Black && RecorderOk()
      requires s.Node? && Sub(s, d).Nil? && cur == s.id && IsRedBlack(Plug(p, s)) && DistinctIds(Plug(p, s))
      requires ReprPath(nodes, p, cur, root) && Represents(nodes, cur, s, HoleParent(p, None), HoleSide(p, None))
      requires forall j :: j in Ids(Plug(p, s)) ==> j < |nodes|
      requires Pending() == pend + Logged(base.enableStepRecorder, acc)
      requires q == Up(d, s.id, s.color, s.key, s.value, Sub(s, Other(d)), p)
      requires leaf == Node(|nodes|, Red, key, value, Nil, Nil)
      modifies this, base.stepRecorder
      ensures WellFormed(nodes, root) && nodes[NullIndex].color == Black && RecorderOk()
      ensures FixupInv(q, leaf) && DistinctIds(Plug(q, leaf)) && Holds(nodes, root, Plug(q, leaf)) && me == leaf.id
      ensures Pending() == pend + Logged(base.enableStepRecorder, acc + [SearchNode(s.key, d, true)])
      ensures tree == old(tree) && Mark() == old(Mark()) && |nodes| == old(|nodes|) + 1
    {
      var n := |nodes|;
      assert n !in Ids(Plug(p, s));
      LeafStart(p, s, d, key, value, n);
      me := Link(cur, d, key, value, p, s);
      LogStep(pend, base.enableStepRecorder, acc, SearchNode(s.key, d, true));
    }

    /** Lines 101-109: the entry becomes the black root of the empty tree. */
    method InsertEmpty(key: int, value: V)
      requires Valid() && RecorderOk() && root == NullIndex
      modifies this, base.stepRecorder
      ensures Sound() && nodes[NullIndex].color == Black && |nodes| == old(|nodes|) + 1
      ensures tree == Node(old(|nodes|), Black, key, value, Nil, Nil) && Holds(nodes, root, tree)
      ensures RecorderOk() && Mark() == old(Mark())
      ensures Pending() == old(Pending()) + Logged(base.enableStepRecorder, [InitTree])
    {
      var n := |nodes|;
      GrowOk(nodes, root, Record(key, value, Black, NullIndex, NullIndex, None, None), n);
      nodes := nodes + [Record(key, value, Black, NullIndex, NullIndex, None, None)];
      root := n;
      tree := Node(n, Black, key, value, Nil, Nil);
      Report(InitTree);
    }

    /**
     * The search for the insertion point (lines 112-138): left on keys up to
     * the record's own, right on larger ones, one `search_node` per step
     * down.  It stops at the record whose side `d` is empty, or, when
     * duplicate keys are refused, at the first record holding `key`.
     */
    method FindSlot(key: int, value: V) returns (cur: nat, d: Direction, dup: bool,
                                                 ghost p: Path<V>, ghost s: Tree<V>, ghost acc: seq<Event>)
      requires Valid() && RecorderOk() && root != NullIndex
      modifies base.stepRecorder
      ensures RecorderOk() && Mark() == old(Mark())
      ensures Pending() == old(Pending()) + Logged(base.enableStepRecorder, acc)
      ensures s.Node? && cur == s.id && Plug(p, s) == tree
      ensures ReprPath(nodes, p, cur, root) && Represents(nodes, cur, s, HoleParent(p, None), HoleSide(p, None))
      ensures Descend(s, p, key, value, |nodes|, allowDupKeys, acc) == SpecInsert(tree, key, value, |nodes|, allowDupKeys)
      ensures dup <==> !allowDupKeys && key == s.key
      ensures !dup ==> d == (if key <= s.key then Left else Right) && Sub(s, d).Nil?
    {
      ghost var on, pend := base.enableStepRecorder, Pending();
      cur, p, s, acc := root, Top, tree, [];
      while true
        invariant RecorderOk() && Mark() == old(Mark()) && on == base.enableStepRecorder
        invariant Pending() == pend + Logged(on, acc)
        invariant s.Node? && cur == s.id && Plug(p, s) == tree
        invariant ReprPath(nodes, p, cur, root) && Represents(nodes, cur, s, HoleParent(p, None), HoleSide(p, None))
        invariant Descend(s, p, key, value, |nodes|, allowDupKeys, acc) == SpecInsert(tree, key, value, |nodes|, allowDupKeys)
        decreases s
      {
        if key <= nodes[cur].key {
          if !allowDupKeys && key == nodes[cur].key {
            return cur, Left, true, p, s, acc;
          }
          d := Left;
        } else {
          d := Right;
        }
        if Child(nodes[cur], d) == NullIndex {
          return cur, d, false, p, s, acc;
        }
        DescendRepr(nodes, p, s, root, d);
        ghost var e := SearchNode(s.key, d, false);
        p := Up(d, s.id, s.color, s.key, s.value, Sub(s, Other(d)), p);
        cur, s := Child(nodes[cur], d), Sub(s, d);
        var up := nodes[cur].parent.value;
        Report(SearchNode(nodes[up].key, d, false));
        LogStep(pend, on, acc, e);
        acc := acc + [e];
      }
    }

    /**
     * Lines 121-148: the fresh red record hangs on the empty side `d` of the
     * record `cur`, and the `search_node` call that closes the search.
     */
    method Link(cur: nat, d: Direction, key: int, value: V, ghost p: Path<V>, ghost s: Tree<V>) returns (me: nat)
      requires WellFormed(nodes, root) && nodes[NullIndex].color == Black && RecorderOk()
      requires s.Node? && Sub(s, d).Nil? && DistinctIds(Plug(p, s)) && cur == s.id
      requires ReprPath(nodes, p, cur, root) && Represents(nodes, cur, s, HoleParent(p, None), HoleSide(p, None))
      modifies this, base.stepRecorder
      ensures WellFormed(nodes, root) && nodes[NullIndex].color == Black && root == old(root) && tree == old(tree)
      ensures me == old(|nodes|) && |nodes| == old(|nodes|) + 1
      ensures Holds(nodes, root, Plug(Up(d, s.id, s.color, s.key, s.value, Sub(s, Other(d)), p), Node(me, Red, key, value, Nil, Nil)))
      ensures RecorderOk() && Mark() == old(Mark())
      ensures Pending() == old(Pending()) + Logged(base.enableStepRecorder, [SearchNode(s.key, d, true)])
    {
      ghost var a := nodes;
      me := |nodes|;
      var leaf := Record(key, value, Red, NullIndex, NullIndex, Some(cur), Some(d));
      GrowOk(nodes, root, leaf, root);
      var grown := nodes + [leaf];
      StoreOk(grown, root, cur, SetChild(grown[cur], d, me));
      nodes := grown[cur := SetChild(grown[cur], d, me)];
      LinkRepr(a, nodes, p, s, d, key, value, root);
      ReprPlug(nodes, Up(d, s.id, s.color, s.key, s.value, Sub(s, Other(d)), p), Node(me, Red, key, value, Nil, Nil), root);
      Report(SearchNode(nodes[cur].key, d, true));
    }

    /**
     * The fix-up loop of `insert` (lines 152-313), started at the red node
     * `me0` at the hole of `fp0`: it runs the turns `Fixup` describes and
     * leaves the arena holding the tree `Fixup` ends with, its engine calls
     * recorded in order.
     */
    method FixUp(me0: nat, ghost fp0: Path<V>, ghost ft0: Tree<V>, ghost pend: seq<Event>, ghost acc0: seq<Event>)
      requires WellFormed(nodes, root) && nodes[NullIndex].color == Black && RecorderOk()
      requires FixupInv(fp0, ft0) && DistinctIds(Plug(fp0, ft0))
      requires Holds(nodes, root, Plug(fp0, ft0)) && me0 == ft0.id
      requires Pending() == pend + Logged(base.enableStepRecorder, acc0)
      modifies this, base.stepRecorder
      ensures WellFormed(nodes, root) && nodes[NullIndex].color == Black && |nodes| == old(|nodes|)
      ensures RecorderOk() && Mark() == old(Mark()) && tree == old(tree)
      ensures Holds(nodes, root, Fixup(fp0, ft0, acc0).0)
      ensures Pending() == pend + Logged(base.enableStepRecorder, Fixup(fp0, ft0, acc0).1)
    {
      ghost var on := base.enableStepRecorder;
      var me := me0;
      ghost var fp, ft, acc := fp0, ft0, acc0;
      while true
        invariant WellFormed(nodes, root) && nodes[NullIndex].color == Black && |nodes| == old(|nodes|)
        invariant RecorderOk() && Mark() == old(Mark()) && tree == old(tree) && on == base.enableStepRecorder
        invariant FixupInv(fp, ft) && DistinctIds(Plug(fp, ft)) && Holds(nodes, root, Plug(fp, ft)) && me == ft.id
        invariant Pending() == pend + Logged(on, acc) && Fixup(fp, ft, acc) == Fixup(fp0, ft0, acc0)
        decreases Depth(fp)
      {
        FixupStepCorrect(fp, ft);
        ghost var r := FixupStep(fp, ft);
        var done, next := FixupTurn(me, fp, ft);
        LogRun(pend, on, acc, r.events);
        if done {
          return;
        }
        me := next;
        fp, ft, acc := r.path, r.focus, acc + r.events;
      }
    }

    /**
     * One turn of the fix-up loop (lines 153-313) at the red node `me`, the
     * hole of `fp`: nothing more when the parent is black, otherwise one
     * `fixup_tree` call and then a rotation, which ends the loop, or a
     * recolouring.  The loop goes on at `next` exactly when `FixupStep`
     * continues.
     */
    method FixupTurn(me: nat, ghost fp: Path<V>, ghost ft: Tree<V>) returns (done: bool, next: nat)
      requires WellFormed(nodes, root) && nodes[NullIndex].color == Black && RecorderOk()
      requires fp.Up? && ft.Node? && (fp.color == Red ==> fp.rest.Up?) && DistinctIds(Plug(fp, ft))
      requires Holds(nodes, root, Plug(fp, ft)) && me == ft.id
      modifies this, base.stepRecorder
      ensures WellFormed(nodes, root) && nodes[NullIndex].color == Black && |nodes| == old(|nodes|)
      ensures RecorderOk() && Mark() == old(Mark()) && tree == old(tree)
      ensures Pending() == old(Pending()) + Logged(base.enableStepRecorder, FixupStep(fp, ft).events)
      ensures var r := FixupStep(fp, ft);
        (done <==> r.Stop?) && Holds(nodes, root, Outcome(r)) && (!done ==> next == RootId(r.focus))
    {
      ParentLinks(nodes, root, fp, me, ft);
      var par := nodes[me].parent.value;
      if nodes[par].color == Black {
        return true, me;
      }
      done, next := Rebalance(me, par, fp, ft);
    }

    /**
     * The red parent `par` of the red node `me` (lines 158-313): the uncle
     * is the grandparent's child on the side away from the parent, and its
     * colour chooses between rotating and recolouring.
     */
    method Rebalance(me: nat, par: nat, ghost fp: Path<V>, ghost ft: Tree<V>) returns (done: bool, next: nat)
      requires WellFormed(nodes, root) && nodes[NullIndex].color == Black && RecorderOk()
      requires fp.Up? && fp.rest.Up? && fp.color == Red && par == fp.id && ft.Node? && DistinctIds(Plug(fp, ft))
      requires Holds(nodes, root, Plug(fp, ft)) && me == ft.id
      modifies this, base.stepRecorder
      ensures WellFormed(nodes, root) && nodes[NullIndex].color == Black && |nodes| == old(|nodes|)
      ensures RecorderOk() && Mark() == old(Mark()) && tree == old(tree)
      ensures Pending() == old(Pending()) + Logged(base.enableStepRecorder, FixupStep(fp, ft).events)
      ensures var r := FixupStep(fp, ft);
        (done <==> r.Stop?) && Holds(nodes, root, Outcome(r)) && (!done ==> next == RootId(r.focus))
    {
      ParentLinks(nodes, root, fp, me, ft);
      UncleLinks(nodes, root, fp, me, ft);
      var gp := nodes[par].parent.value;
      var uid := if nodes[par].fromDirection == Some(Left) then Child(nodes[gp], Right) else Child(nodes[gp], Left);
      if nodes[uid].color == Black {
        BlackUncle(me, par, gp, uid, fp, ft);
        return true, me;
      }
      done, next := RedUncleTurn(me, par, gp, uid, fp, ft);
    }

    /** Black uncle (lines 164-283): one `fixup_tree` call, then one rotation or two, and the loop ends. */
    method BlackUncle(me: nat, par: nat, gp: nat, uid: nat, ghost fp: Path<V>, ghost ft: Tree<V>)
      requires WellFormed(nodes, root) && nodes[NullIndex].color == Black && RecorderOk()
      requires fp.Up? && fp.rest.Up? && fp.color == Red && par == fp.id && gp == fp.rest.id && ft.Node?
      requires uid == RootId(fp.rest.sibling) && uid < |nodes| && nodes[uid].color == Black && DistinctIds(Plug(fp, ft))
      requires me < |nodes| && nodes[me].fromDirection == Some(fp.dir)
      requires par < |nodes| && nodes[par].fromDirection == Some(fp.rest.dir)
      requires Holds(nodes, root, Plug(fp, ft)) && me == ft.id && !IsRed(fp.rest.sibling)
      modifies this, base.stepRecorder
      ensures WellFormed(nodes, root) && nodes[NullIndex].color == Black && |nodes| == old(|nodes|)
      ensures RecorderOk() && Mark() == old(Mark()) && tree == old(tree)
      ensures Pending() == old(Pending()) + Logged(base.enableStepRecorder, FixupStep(fp, ft).events)
      ensures FixupStep(fp, ft).Stop? && Holds(nodes, root, Outcome(FixupStep(fp, ft)))
    {
      FixupStepEvents(fp, ft);
      Report(FixupTree(nodes[par].fromDirection.value, nodes[me].fromDirection.value, nodes[uid].color));
      ReprPlug(nodes, fp, ft, root);
      if nodes[me].fromDirection == nodes[par].fromDirection {
        RotateStraight(me, par, gp, fp, ft);
      } else {
        RotateZigZag(me, par, gp, fp, ft);
      }
    }

    /** Red uncle (lines 164-166, 300-313): one `fixup_tree` call, then the recolouring. */
    method RedUncleTurn(me: nat, par: nat, gp: nat, uid: nat, ghost fp: Path<V>, ghost ft: Tree<V>)
      returns (done: bool, next: nat)
      requires WellFormed(nodes, root) && nodes[NullIndex].color == Black && RecorderOk()
      requires fp.Up? && fp.rest.Up? && fp.color == Red && par == fp.id && gp == fp.rest.id && ft.Node?
      requires uid == RootId(fp.rest.sibling) && 1 <= uid < |nodes| && nodes[uid].color == Red && DistinctIds(Plug(fp, ft))
      requires 1 <= me < |nodes| && nodes[me].fromDirection == Some(fp.dir)
      requires 1 <= par < |nodes| && nodes[par].fromDirection == Some(fp.rest.dir) && 1 <= gp < |nodes|
      requires Holds(nodes, root, Plug(fp, ft)) && me == ft.id && IsRed(fp.rest.sibling)
      modifies this, base.stepRecorder
      ensures WellFormed(nodes, root) && nodes[NullIndex].color == Black && |nodes| == old(|nodes|)
      ensures RecorderOk() && Mark() == old(Mark()) && tree == old(tree)
      ensures Pending() == old(Pending()) + Logged(base.enableStepRecorder, FixupStep(fp, ft).events)
      ensures var r := FixupStep(fp, ft);
        (done <==> r.Stop?) && Holds(nodes, root, Outcome(r)) && (!done ==> next == RootId(r.focus))
    {
      ghost var a := nodes;
      done := RedUncle(me, par, uid, gp);
      RedUncleRepr(a, nodes, fp, me, ft, root, done);
      next := gp;
    }

    /**
     * Red uncle (lines 164-166, 300-313): `fixup_tree` is recorded, parent and
     * uncle turn black; at the root the grandparent keeps its colour,
     * `blacken_root_node` is recorded and the loop ends, otherwise the
     * grandparent turns red.
     */
    method RedUncle(me: nat, par: nat, uid: nat, gp: nat) returns (done: bool)
      requires WellFormed(nodes, root) && 1 <= par < |nodes| && 1 <= uid < |nodes| && 1 <= gp < |nodes| && me < |nodes|
      requires nodes[me].fromDirection.Some? && nodes[par].fromDirection.Some? && nodes[uid].color == Red
      requires RecorderOk()
      modifies this, base.stepRecorder
      ensures done <==> gp == root
      ensures Recoloured(old(nodes), nodes, par, uid, gp, done)
      ensures WellFormed(nodes, root) && root == old(root) && tree == old(tree)
      ensures RecorderOk() && Mark() == old(Mark())
      ensures Pending() == old(Pending()) + Logged(base.enableStepRecorder,
        [FixupTree(old(nodes[par].fromDirection.value), old(nodes[me].fromDirection.value), Red)] +
        (if done then [BlackenRootNode] else []))
    {
      ghost var pend, on := Pending(), base.enableStepRecorder;
      ghost var e := FixupTree(nodes[par].fromDirection.value, nodes[me].fromDirection.value, Red);
      Report(FixupTree(nodes[par].fromDirection.value, nodes[me].fromDirection.value, nodes[uid].color));
      Paint(par, Black);
      Paint(uid, Black);
      if gp == root {
        Report(BlackenRootNode);
        LogStep(pend, on, [e], BlackenRootNode);
        return true;
      }
      Paint(gp, Red);
      return false;
    }

    /** `node.color = c` on the record at index `i`. */
    method Paint(i: nat, c: Color)
      requires WellFormed(nodes, root) && i < |nodes|
      modifies this
      ensures nodes == old(nodes)[i := WithColor(old(nodes)[i], c)]
      ensures WellFormed(nodes, root) && root == old(root) && tree == old(tree)
    {
      StoreOk(nodes, root, i, WithColor(nodes[i], c));
      nodes := nodes[i := WithColor(nodes[i], c)];
    }

    /**
     * The walk of `search`: the index of the first record holding `key`, with
     * one `search_node` per step and a closing `match_node` or
     * `unmatch_node`.  Nothing in the tree changes.
     */
    method Search(key: int) returns (found: Option<nat>)
      requires RecorderOk() && Holds(nodes, root, tree)
      modifies base.stepRecorder
      ensures RecorderOk()
      ensures var spec := SpecSearch(tree, key);
        Steps() == old(Steps()) + Trace(base.enableStepRecorder, spec.events) &&
        (found.Some? <==> spec.found.Some?) &&
        (found.Some? ==> spec.found.value.Node? && found.value == spec.found.value.id)
    {
      var cur := root;
      ghost var s := tree;
      ghost var up: Option<nat> := None;
      ghost var side: Option<Direction> := None;
      ghost var acc: seq<Event> := [];
      ghost var on, mark, pending := base.enableStepRecorder, Mark(), Pending();
      assert Steps() == mark + RecordAll(pending);
      ghost var arena := nodes;
      while cur != NullIndex && key != nodes[cur].key
        invariant RecorderOk() && nodes == arena && on == base.enableStepRecorder
        invariant Represents(arena, cur, s, up, side)
        invariant SearchFrom(s, key, acc) == SpecSearch(tree, key)
        invariant Mark() == mark && Pending() == pending + Logged(on, acc)
        decreases s
      {
        var d := if key < nodes[cur].key then Left else Right;
        ghost var e := SearchNode(s.key, d, false);
        Report(SearchNode(nodes[cur].key, d, false));
        LogStep(pending, on, acc, e);
        acc := acc + [e];
        up, side := Some(cur), Some(d);
        cur, s := Child(nodes[cur], d), Sub(s, d);
      }
      ghost var e;
      if cur == NullIndex {
        e := UnmatchNode;
        Report(UnmatchNode);
        found := None;
      } else {
        e := MatchNode(s.key);
        Report(MatchNode(nodes[cur].key));
        found := Some(cur);
      }
      LogStep(pending, on, acc, e);
      acc := acc + [e];
      Replayed(mark, pending, on, acc);
      assert SpecSearch(tree, key).events == acc;
      assert on == base.enableStepRecorder;
      assert old(Steps()) == mark + RecordAll(pending);
      assert Steps() == mark + RecordAll(pending) + Trace(on, acc);
    }

    /**
     * `delete` (lines 349-675).  A missing key gives `False` and leaves the
     * arena alone.  Otherwise the matched record first takes the key and
     * value of its in-order predecessor when it has a left child; then a red
     * record is unlinked, or a black one absorbs its red right child, both
     * giving `True` and the tree `SpecDelete` describes.  In every other case
     * the double-black loop runs as written.
     */
    method Delete(key: int) returns (r: Result<bool, Fault>)
      requires Valid()
      modifies this
      ensures Sound()
      ensures var spec := SpecDelete(old(tree), key);
        (r == Success(false) <==> spec.NotFound?) &&
        (spec.NotFound? ==> Valid() && nodes == old(nodes) && root == old(root) && tree == old(tree)) &&
        (spec.Removed? ==> r == Success(true) && Valid() && tree == spec.tree && |nodes| == old(|nodes|))
      ensures r == Success(false) <==> !HasKey(Entries(old(tree)), key)
      ensures SpecDelete(old(tree), key).Removed? ==> RemovedOk(old(tree), key, tree)
      ensures LoneRoot(old(tree), key) ==> r == Failure(AttributeError) && root == NullIndex
    {
      DeleteCorrect(tree, key);
      var found, pm, m := Navigate(key);
      if found.None? {
        return Success(false);
      }
      r := DeleteFound(key, found.value, pm, m);
    }

    /** `delete` once the walk has matched the record `matched`, the root of `m` at the hole of `pm`. */
    method DeleteFound(key: int, matched: nat, ghost pm: Path<V>, ghost m: Tree<V>) returns (r: Result<bool, Fault>)
      requires Valid() && Locate(tree, key, Top) == Some((pm, m)) && matched == m.id
      modifies this
      ensures Sound() && r != Success(false)
      ensures var spec := SpecDelete(old(tree), key);
        spec.Removed? ==> r == Success(true) && Valid() && tree == spec.tree && |nodes| == old(|nodes|)
      ensures LoneRoot(old(tree), key) ==> r == Failure(AttributeError) && root == NullIndex
    {
      ghost var spec := SpecDelete(tree, key);
      DeleteCorrect(tree, key);
      var me, q, y := Replacement(matched, pm, m);
      ReprPlug(nodes, q, y, root);
      assert spec == if y.color == Red then Removed(Plug(q, Nil))
        else if IsRed(y.right) then Removed(Plug(q, Node(y.id, y.color, y.right.key, y.right.value, y.left, Nil)))
        else DoubleBlack;
      if nodes[me].color == Red {
        DropRed(me, q, y);
        tree := spec.tree;
        return Success(true);
      }
      var right := nodes[me].right;
      if nodes[right].color == Red {
        AbsorbRight(me, q, y);
        tree := spec.tree;
        return Success(true);
      }
      r := RemoveBlack(me);
    }

    /** The walk of `delete` (lines 362-373): no recorder calls, nothing changed. */
    method Navigate(key: int) returns (found: Option<nat>, ghost pm: Path<V>, ghost m: Tree<V>)
      requires WellFormed(nodes, root) && Holds(nodes, root, tree)
      ensures found.None? <==> Locate(tree, key, Top).None?
      ensures found.Some? ==> Locate(tree, key, Top) == Some((pm, m)) && found.value == m.id
    {
      var cur := root;
      ghost var s, p := tree, Top;
      ghost var up: Option<nat>, side: Option<Direction> := None, None;
      while true
        invariant Represents(nodes, cur, s, up, side)
        invariant Locate(s, key, p) == Locate(tree, key, Top)
        decreases s
      {
        if cur == NullIndex {
          return None, p, s;
        }
        if key < nodes[cur].key {
          p := Up(Left, s.id, s.color, s.key, s.value, s.right, p);
          up, side := Some(cur), Some(Left);
          cur, s := nodes[cur].left, s.left;
        } else if key > nodes[cur].key {
          p := Up(Right, s.id, s.color, s.key, s.value, s.left, p);
          up, side := Some(cur), Some(Right);
          cur, s := nodes[cur].right, s.right;
        } else {
          return Some(cur), p, s;
        }
      }
    }

    /**
     * Lines 375-385: with a left child, the walk to the rightmost record of
     * the left subtree, whose key and value are copied into the matched
     * record.  The result is the record left to unlink.
     */
    method Replacement(matched: nat, ghost pm: Path<V>, ghost m: Tree<V>) returns (me: nat, ghost q: Path<V>, ghost y: Tree<V>)
      requires Valid() && m.Node? && matched == m.id && Plug(pm, m) == tree
      modifies this
      ensures WellFormed(nodes, root) && nodes[NullIndex].color == Black && |nodes| == old(|nodes|)
      ensures root == old(root) && tree == old(tree)
      ensures (q, y) == Target(pm, m) && y.Node? && me == y.id
      ensures Holds(nodes, root, Plug(q, y)) && DistinctIds(Plug(q, y)) && (y.color == Red ==> q.Up?)
    {
      TargetPlug(pm, m);
      ReprPlug(nodes, pm, m, root);
      q, y := Target(pm, m).0, Target(pm, m).1;
      if nodes[matched].left == NullIndex {
        return matched, q, y;
      }
      var cur := nodes[matched].left;
      ghost var s, pl := m.left, Top;
      ghost var up, side := Some(matched), Some(Left);
      while nodes[cur].right != NullIndex
        invariant s.Node? && Represents(nodes, cur, s, up, side)
        invariant Rightmost(s, pl) == Rightmost(m.left, Top)
        decreases s
      {
        pl := Up(Right, s.id, s.color, s.key, s.value, s.left, pl);
        up, side := Some(cur), Some(Right);
        cur, s := nodes[cur].right, s.right;
      }
      ghost var a := nodes;
      var copied := nodes[matched].(key := nodes[cur].key, value := nodes[cur].value);
      StoreOk(nodes, root, matched, copied);
      nodes := nodes[matched := copied];
      CopyRepr(a, nodes, pm, m, y.key, y.value, root);
      me := cur;
    }

    /** Lines 475-480: the red record `me` is unlinked from its parent. */
    method DropRed(me: nat, ghost q: Path<V>, ghost y: Tree<V>)
      requires WellFormed(nodes, root) && nodes[NullIndex].color == Black
      requires q.Up? && y.Node? && me == y.id && Holds(nodes, root, Plug(q, y)) && DistinctIds(Plug(q, y))
      modifies this
      ensures WellFormed(nodes, root) && nodes[NullIndex].color == Black && |nodes| == old(|nodes|)
      ensures root == old(root) && tree == old(tree) && Holds(nodes, root, Plug(q, Nil))
    {
      ReprPlug(nodes, q, y, root);
      ghost var a := nodes;
      var up := nodes[me].parent.value;
      if nodes[me].fromDirection == Some(Left) {
        SetChildAt(up, Left, NullIndex);
      } else {
        SetChildAt(up, Right, NullIndex);
      }
      UnlinkRepr(a, nodes, q, y, root);
    }

    /** Lines 482-487: the black record `me` takes its red right child's key and value and drops the child. */
    method AbsorbRight(me: nat, ghost q: Path<V>, ghost y: Tree<V>)
      requires WellFormed(nodes, root) && nodes[NullIndex].color == Black
      requires y.Node? && y.right.Node? && me == y.id && Holds(nodes, root, Plug(q, y)) && DistinctIds(Plug(q, y))
      modifies this
      ensures WellFormed(nodes, root) && nodes[NullIndex].color == Black && |nodes| == old(|nodes|)
      ensures root == old(root) && tree == old(tree)
      ensures Holds(nodes, root, Plug(q, Node(y.id, y.color, y.right.key, y.right.value, y.left, Nil)))
    {
      ReprPlug(nodes, q, y, root);
      ghost var a := nodes;
      var right := nodes[me].right;
      var absorbed := nodes[me].(key := nodes[right].key, value := nodes[right].value, right := NullIndex);
      StoreOk(nodes, root, me, absorbed);
      nodes := nodes[me := absorbed];
      AbsorbRepr(a, nodes, q, y, root);
    }

    /**
     * Lines 489-675 as written: a lone root empties the tree, the loop runs
     * on the record `me`, and `me` is finally unlinked from its parent.
     * Only memory safety of the arena is promised, and that the loop ends at
     * once in an `AttributeError` when `me` has no parent.
     */
    method RemoveBlack(me: nat) returns (r: Result<bool, Fault>)
      requires WellFormed(nodes, root) && me < |nodes|
      modifies this
      ensures WellFormed(nodes, root) && |nodes| == old(|nodes|) && r != Success(false)
      ensures old(nodes)[me].parent.None? && me == old(root) ==> r == Failure(AttributeError) && root == NullIndex
    {
      if me == root {
        root := NullIndex;
      }
      var doomed := me;
      var loop := DoubleBlackLoop(me, 2 * |nodes|);
      if loop.Failure? {
        return Failure(loop.error);
      }
      SlotLinks(nodes, root, doomed);
      var up := Deref(nodes[doomed].parent);
      if up.Failure? {
        return Failure(up.error);
      }
      if nodes[doomed].fromDirection == Some(Left) {
        SetChildAt(up.value, Left, NullIndex);
      } else {
        SetChildAt(up.value, Right, NullIndex);
      }
      return Success(true);
    }

    /** The `while True` loop of lines 494-667, given at most `fuel` turns. */
    method DoubleBlackLoop(me0: nat, fuel: nat) returns (r: Result<(), Fault>)
      requires WellFormed(nodes, root) && me0 < |nodes|
      modifies this
      ensures WellFormed(nodes, root) && |nodes| == old(|nodes|)
      ensures fuel > 0 && old(nodes)[me0].parent.None? ==> r == Failure(AttributeError) && nodes == old(nodes) && root == old(root)
    {
      var me: nat := me0;
      var left := fuel;
      while left > 0
        invariant WellFormed(nodes, root) && |nodes| == old(|nodes|) && me < |nodes| && left <= fuel
        invariant left == fuel ==> nodes == old(nodes) && root == old(root) && me == me0
        invariant left < fuel ==> old(nodes)[me0].parent.Some?
        decreases left
      {
        var turn := DoubleBlackTurn(me);
        if turn.Failure? {
          return Failure(turn.error);
        }
        if turn.value.None? {
          return Success(());
        }
        me := turn.value.value;
        left := left - 1;
      }
      return Failure(OutOfFuel);
    }

    /**
     * One turn of the double-black loop at `me` (lines 495-667): `Some(x)`
     * to go on at `x`, `None` to leave the loop.  A red sibling is rotated
     * above the parent; two black nephews paint the sibling red and move up
     * or stop; otherwise the far-nephew rotation, when it applies, falls
     * through into the near-nephew rotation, and the loop ends.
     */
    method DoubleBlackTurn(me: nat) returns (r: Result<Option<nat>, Fault>)
      requires WellFormed(nodes, root) && me < |nodes|
      modifies this
      ensures WellFormed(nodes, root) && |nodes| == old(|nodes|)
      ensures r.Success? && r.value.Some? ==> r.value.value < |nodes|
      ensures old(nodes)[me].parent.None? ==> r == Failure(AttributeError) && nodes == old(nodes) && root == old(root)
    {
      SlotLinks(nodes, root, me);
      var pr := Deref(nodes[me].parent);
      if pr.Failure? {
        return Failure(pr.error);
      }
      var par := pr.value;
      SlotLinks(nodes, root, par);
      var grand := nodes[par].parent;
      var sr := Deref(ChildOf(nodes[par], if nodes[me].fromDirection == Some(Left) then Right else Left));
      if sr.Failure? {
        return Failure(sr.error);
      }
      var sib := sr.value;
      SlotLinks(nodes, root, sib);
      var nl, nr := ChildOf(nodes[sib], Left), ChildOf(nodes[sib], Right);
      if nodes[sib].color == Red {
        var rotated := RedSibling(me, par, grand, sib, nl, nr);
        if rotated.Failure? {
          return Failure(rotated.error);
        }
        return Success(Some(me));
      }
      var ln := Deref(nl);
      if ln.Failure? {
        return Failure(ln.error);
      }
      var rn := Deref(nr);
      if rn.Failure? {
        return Failure(rn.error);
      }
      if nodes[ln.value].color == nodes[rn.value].color == Black {
        Paint(sib, Red);
        if nodes[par].color == Red {
          Paint(par, Black);
          return Success(None);
        }
        if par == root {
          return Success(None);
        }
        return Success(Some(par));
      }
      if (nodes[me].fromDirection == Some(Left) && nodes[rn.value].color == Red) ||
         (nodes[me].fromDirection == Some(Right) && nodes[ln.value].color == Red) {
        var far := FarNephew(me, par, grand, sib, ln.value, rn.value);
        if far.Failure? {
          return Failure(far.error);
        }
      }
      var near := NearNephew(me, par, grand, sib, ln.value, rn.value);
      if near.Failure? {
        return Failure(near.error);
      }
      return Success(None);
    }

    /** Lines 503-534: the red sibling turns black, the parent red, and the sibling rises above the parent. */
    method RedSibling(me: nat, par: nat, grand: Option<nat>, sib: nat, nl: Option<nat>, nr: Option<nat>)
      returns (r: Result<(), Fault>)
      requires WellFormed(nodes, root) && me < |nodes| && par < |nodes| && sib < |nodes|
      requires LinkOk(|nodes|, grand) && LinkOk(|nodes|, nl) && LinkOk(|nodes|, nr)
      modifies this
      ensures WellFormed(nodes, root) && |nodes| == old(|nodes|)
    {
      Paint(sib, Black);
      Paint(par, Red);
      var hoisted := Hoist(par, grand, sib);
      if hoisted.Failure? {
        return Failure(hoisted.error);
      }
      var pivot := Pivot(me, par, sib, nl, nr);
      if pivot.Failure? {
        return Failure(pivot.error);
      }
      return Success(());
    }

    /**
     * Lines 561-593: the far nephew is red.  The sibling takes the parent's
     * colour and rises above the black parent, and the far nephew turns
     * black.  There is no `break` after it.
     */
    method FarNephew(me: nat, par: nat, grand: Option<nat>, sib: nat, nl: nat, nr: nat) returns (r: Result<(), Fault>)
      requires WellFormed(nodes, root) && me < |nodes| && par < |nodes| && sib < |nodes| && nl < |nodes| && nr < |nodes|
      requires LinkOk(|nodes|, grand)
      modifies this
      ensures WellFormed(nodes, root) && |nodes| == old(|nodes|)
    {
      Paint(sib, nodes[par].color);
      Paint(par, Black);
      var hoisted := Hoist(par, grand, sib);
      if hoisted.Failure? {
        return Failure(hoisted.error);
      }
      var pivot := Pivot(me, par, sib, Some(nl), Some(nr));
      if pivot.Failure? {
        return Failure(pivot.error);
      }
      Paint(if pivot.value == Left then nr else nl, Black);
      return Success(());
    }

    /**
     * Lines 601-665: the near nephew `x` takes the parent's colour and rises
     * two levels, the parent going down on `me`'s side and the sibling on
     * the other, each taking one of `x`'s children.  The nephews are those
     * read at the start of the turn.
     */
    method NearNephew(me: nat, par: nat, grand: Option<nat>, sib: nat, nl: nat, nr: nat) returns (r: Result<(), Fault>)
      requires WellFormed(nodes, root) && me < |nodes| && par < |nodes| && sib < |nodes| && nl < |nodes| && nr < |nodes|
      requires LinkOk(|nodes|, grand)
      modifies this
      ensures WellFormed(nodes, root) && |nodes| == old(|nodes|)
    {
      var e := if nodes[me].fromDirection == Some(Left) then Left else Right;
      var x := if e == Left then nl else nr;
      Paint(x, nodes[par].color);
      Paint(par, Black);
      var hoisted := Hoist(par, grand, x);
      if hoisted.Failure? {
        return Failure(hoisted.error);
      }
      var adopted := Adopt(x, e, par);
      if adopted.Failure? {
        return Failure(adopted.error);
      }
      r := Adopt(x, Other(e), sib);
    }

    /**
     * `y` goes down on side `f` of `x` and takes `x`'s child on that side as
     * its own child on the other side (lines 619-624 and 626-632, and their
     * mirror images).
     */
    method Adopt(x: nat, f: Direction, y: nat) returns (r: Result<(), Fault>)
      requires WellFormed(nodes, root) && x < |nodes| && y < |nodes|
      modifies this
      ensures WellFormed(nodes, root) && |nodes| == old(|nodes|)
    {
      SlotLinks(nodes, root, x);
      var c := Deref(ChildOf(nodes[x], f));
      if c.Failure? {
        return Failure(c.error);
      }
      SetChildAt(y, Other(f), c.value);
      SetSideAt(c.value, Some(Other(f)));
      SetParentAt(c.value, Some(y));
      SetChildAt(x, f, y);
      SetSideAt(y, Some(f));
      SetParentAt(y, Some(x));
      return Success(());
    }

    /**
     * `x` takes the parent's place (lines 507-517, 565-575 and 607-617): it
     * hangs from the grandparent on the parent's side, or becomes the root.
     */
    method Hoist(par: nat, grand: Option<nat>, x: nat) returns (r: Result<(), Fault>)
      requires WellFormed(nodes, root) && par < |nodes| && x < |nodes| && LinkOk(|nodes|, grand)
      modifies this
      ensures WellFormed(nodes, root) && |nodes| == old(|nodes|)
    {
      SetParentAt(x, grand);
      if par == root {
        root := x;
        return Success(());
      }
      var g := Deref(grand);
      if g.Failure? {
        return Failure(g.error);
      }
      if nodes[par].fromDirection == Some(Left) {
        SetChildAt(g.value, Left, x);
        SetSideAt(x, Some(Left));
      } else {
        SetChildAt(g.value, Right, x);
        SetSideAt(x, Some(Right));
      }
      return Success(());
    }

    /**
     * The parent goes down on `me`'s side of the sibling (lines 519-532 and
     * 577-591), taking the nephew on that side as its other child.  Gives
     * the side it used.
     */
    method Pivot(me: nat, par: nat, sib: nat, nl: Option<nat>, nr: Option<nat>) returns (r: Result<Direction, Fault>)
      requires WellFormed(nodes, root) && me < |nodes| && par < |nodes| && sib < |nodes|
      requires LinkOk(|nodes|, nl) && LinkOk(|nodes|, nr)
      modifies this
      ensures WellFormed(nodes, root) && |nodes| == old(|nodes|)
    {
      var e := if nodes[me].fromDirection == Some(Left) then Left else Right;
      var n := Deref(if e == Left then nl else nr);
      if n.Failure? {
        return Failure(n.error);
      }
      SetChildAt(par, Other(e), n.value);
      SetSideAt(n.value, Some(Other(e)));
      SetParentAt(n.value, Some(par));
      SetChildAt(sib, e, par);
      SetSideAt(par, Some(e));
      SetParentAt(par, Some(sib));
      return Success(e);
    }

    /** `node.left = c` or `node.right = c`, on a record or on the sentinel. */
    method SetChildAt(i: nat, d: Direction, c: nat)
      requires WellFormed(nodes, root) && i < |nodes| && c < |nodes|
      modifies this
      ensures nodes == old(nodes)[i := SetChild(old(nodes)[i], d, c)]
      ensures WellFormed(nodes, root) && root == old(root) && tree == old(tree)
    {
      StoreOk(nodes, root, i, SetChild(nodes[i], d, c));
      nodes := nodes[i := SetChild(nodes[i], d, c)];
    }

    /** `node.parent = p` */
    method SetParentAt(i: nat, p: Option<nat>)
      requires WellFormed(nodes, root) && i < |nodes| && LinkOk(|nodes|, p)
      modifies this
      ensures nodes == old(nodes)[i := WithParent(old(nodes)[i], p)]
      ensures WellFormed(nodes, root) && root == old(root) && tree == old(tree)
    {
      StoreOk(nodes, root, i, WithParent(nodes[i], p));
      nodes := nodes[i := WithParent(nodes[i], p)];
    }

    /** `node.from_direction = d` */
    method SetSideAt(i: nat, d: Option<Direction>)
      requires WellFormed(nodes, root) && i < |nodes|
      modifies this
      ensures nodes == old(nodes)[i := WithSide(old(nodes)[i], d)]
      ensures WellFormed(nodes, root) && root == old(root) && tree == old(tree)
    {
      StoreOk(nodes, root, i, WithSide(nodes[i], d));
      nodes := nodes[i := WithSide(nodes[i], d)];
    }
  }
}
