/**
 * The named container tree of `lib/tree.py`: scalar and container nodes,
 * each with a name (its unique id), an eigenvalue and an optional parent;
 * a container also keeps a dictionary from child name to child node.
 *
 * Python nodes are separate heap objects that refer to each other. Here they
 * live in one `NodeStore`: a node is its index in `nodes`, its parent link is
 * an `Option` of an index and a container's `_children` dictionary is a map
 * from name to index. Node identity, which the parent walk compares, is index
 * equality.
 */
module NamedTrees {
  import opened Wrappers

  datatype Kind = Scalar | Container

  /** One node: `_name`, the eigenvalue's text, the class, `_parent` and `_children`. */
  datatype Node = Node(name: string, eigenvalue: string, kind: Kind, parent: Option<nat>, children: map<string, nat>)

  /**
   * What the tree operations raise: `circular_dependency` with the ids walked
   * so far, a failed `assert ...is_container`, the `KeyError` of popping a
   * name the old parent no longer lists, a failed `assert display_level >= 0`,
   * and the `RecursionError` of rendering a cycle.
   */
  datatype TreeError =
    | CircularDependency(circularNodes: seq<string>)
    | NotAContainer
    | MissingChild(name: string)
    | NegativeLevel
    | RecursionLimit

  /** Every parent link and every child entry refers to a node of the store. */
  predicate NodeLinked(nd: Node, size: nat)
  {
    (nd.parent.Some? ==> nd.parent.value < size) &&
    forall k :: k in nd.children ==> nd.children[k] < size
  }

  predicate Linked(ns: seq<Node>)
  {
    forall i :: 0 <= i < |ns| ==> NodeLinked(ns[i], |ns|)
  }

  /** The indices `0 .. size - 1`. */
  function Ids(size: nat): (r: set<nat>)
    ensures forall i :: i in r <==> 0 <= i < size
  {
    if size == 0 then {}
    else
      var s := Ids(size - 1);
      assert forall i :: i in s + {size - 1} <==> i in s || i == size - 1;
      s + {size - 1}
  }

  function Visited(seen: seq<nat>): set<nat>
  {
    set x | x in seen
  }

  predicate InStore(ns: seq<Node>, w: seq<nat>)
  {
    forall i :: 0 <= i < |w| ==> w[i] < |ns|
  }

  // ---------------------------------------------------------------------------
  // The parent walk (`_get_required_nodes`)
  // ---------------------------------------------------------------------------

  /**
   * The walk from `n` up the parent links, `seen` being the nodes already
   * listed: it fails with the list so far when it meets a listed node again,
   * and ends with the first node that has no parent.
   */
  function Climb(ns: seq<Node>, n: nat, seen: seq<nat>): (r: Result<seq<nat>, seq<nat>>)
    requires Linked(ns) && n < |ns| && InStore(ns, seen)
    ensures InStore(ns, if r.Success? then r.value else r.error)
    ensures r.Success? ==> |r.value| > |seen|
    decreases Ids(|ns|) - Visited(seen)
  {
    if n in seen then Failure(seen)
    else
      assert Visited(seen + [n]) == Visited(seen) + {n};
      match ns[n].parent
      case None => Success(seen + [n])
      case Some(q) => Climb(ns, q, seen + [n])
  }

  /** The names of a list of nodes, `[n.unique_id for n in ...]`. */
  function NamesOf(ns: seq<Node>, w: seq<nat>): (r: seq<string>)
    requires InStore(ns, w)
    ensures |r| == |w| && forall i :: 0 <= i < |w| ==> r[i] == ns[w[i]].name
  {
    seq(|w|, i requires 0 <= i < |w| => ns[w[i]].name)
  }

  /** `_get_required_nodes` from `n`: the walk, or `circular_dependency` with the names listed so far. */
  function Required(ns: seq<Node>, n: nat): Result<seq<nat>, TreeError>
    requires Linked(ns) && n < |ns|
  {
    match Climb(ns, n, [])
    case Success(w) => Success(w)
    case Failure(ids) => Failure(CircularDependency(NamesOf(ns, ids)))
  }

  /** Consecutive nodes of `w` are child and parent. */
  predicate Chain(ns: seq<Node>, w: seq<nat>)
  {
    InStore(ns, w) &&
    forall i {:trigger ns[w[i]]} :: 0 <= i < |w| - 1 ==> w[i] < |ns| && ns[w[i]].parent == Some(w[i + 1])
  }

  predicate Distinct(w: seq<nat>)
  {
    forall i, j :: 0 <= i < j < |w| ==> w[i] != w[j]
  }

  /** `w` climbs from `n` through distinct nodes to a node without a parent. */
  predicate WalkToRoot(ns: seq<Node>, n: nat, w: seq<nat>)
  {
    |w| > 0 && w[0] == n && Chain(ns, w) && Distinct(w) &&
    w[|w| - 1] < |ns| && ns[w[|w| - 1]].parent.None?
  }

  /** The last node of `e` has its parent among the nodes of `e`. */
  predicate ClosesCycle(ns: seq<Node>, e: seq<nat>)
  {
    |e| > 0 && e[|e| - 1] < |ns| && ns[e[|e| - 1]].parent.Some? && ns[e[|e| - 1]].parent.value in e
  }

  /** `w` climbs from `n` through distinct nodes, and the last one's parent is already in `w`. */
  predicate WalkIntoCycle(ns: seq<Node>, n: nat, w: seq<nat>)
  {
    |w| > 0 && w[0] == n && Chain(ns, w) && Distinct(w) && ClosesCycle(ns, w)
  }

  lemma ChainSnoc(ns: seq<Node>, w: seq<nat>, q: nat)
    requires Chain(ns, w) && |w| > 0 && q < |ns| && ns[w[|w| - 1]].parent == Some(q)
    ensures Chain(ns, w + [q])
  {
    forall i | 0 <= i < |w + [q]| - 1
      ensures (w + [q])[i] < |ns| && ns[(w + [q])[i]].parent == Some((w + [q])[i + 1])
    {
      if i < |w| - 1 {
        assert (w + [q])[i] == w[i] && (w + [q])[i + 1] == w[i + 1];
      }
    }
  }

  lemma ChainPrefix(ns: seq<Node>, w: seq<nat>, k: nat)
    requires Chain(ns, w) && k <= |w|
    ensures Chain(ns, w[..k])
  {
    assert forall i :: 0 <= i < k ==> w[..k][i] == w[i];
  }

  lemma DistinctSnoc(w: seq<nat>, n: nat)
    requires Distinct(w) && n !in w
    ensures Distinct(w + [n])
  {
    forall i, j | 0 <= i < j < |w + [n]| ensures (w + [n])[i] != (w + [n])[j] {
      assert (w + [n])[i] == w[i];
    }
  }

  /** The walk's list: `seen` extended along parent links. */
  function Listed(r: Result<seq<nat>, seq<nat>>): seq<nat>
  {
    if r.Success? then r.value else r.error
  }

  /** What the walk lists extends `seen` along parent links, through distinct nodes. */
  lemma {:induction false} ClimbSound(ns: seq<Node>, n: nat, seen: seq<nat>)
    requires Linked(ns) && n < |ns| && InStore(ns, seen)
    requires Chain(ns, seen + [n]) && Distinct(seen)
    ensures |seen| <= |Listed(Climb(ns, n, seen))| && Listed(Climb(ns, n, seen))[..|seen|] == seen
    ensures Chain(ns, Listed(Climb(ns, n, seen))) && Distinct(Listed(Climb(ns, n, seen)))
    decreases Ids(|ns|) - Visited(seen)
  {
    var w := seen + [n];
    if n in seen {
      assert Climb(ns, n, seen) == Failure(seen);
      assert seen[..|seen|] == seen;
      ChainPrefix(ns, w, |seen|);
      assert w[..|seen|] == seen;
    } else {
      assert w[..|seen|] == seen;
      assert Visited(w) == Visited(seen) + {n};
      DistinctSnoc(seen, n);
      if ns[n].parent.None? {
        assert Climb(ns, n, seen) == Success(w);
      } else {
        var q := ns[n].parent.value;
        ChainSnoc(ns, w, q);
        ClimbSound(ns, q, w);
        var r := Climb(ns, q, w);
        assert Climb(ns, n, seen) == r;
        var e := Listed(r);
        assert e[..|seen|] == e[..|w|][..|seen|];
      }
    }
  }

  /** A successful walk lists `n` after `seen` and ends at a node without a parent. */
  lemma {:induction false} ClimbEndsAtRoot(ns: seq<Node>, n: nat, seen: seq<nat>)
    requires Linked(ns) && n < |ns| && InStore(ns, seen)
    requires Climb(ns, n, seen).Success?
    ensures var e := Climb(ns, n, seen).value;
      |e| > |seen| && e[|seen|] == n && e[|e| - 1] < |ns| && ns[e[|e| - 1]].parent.None?
    decreases Ids(|ns|) - Visited(seen)
  {
    var w := seen + [n];
    assert Visited(w) == Visited(seen) + {n};
    if ns[n].parent.Some? {
      var q := ns[n].parent.value;
      ClimbEndsAtRoot(ns, q, w);
      var e := Climb(ns, q, w).value;
      assert e[..|w|] == w by {
        ClimbPrefix(ns, q, w);
      }
      assert e[|seen|] == e[..|w|][|seen|];
    }
  }

  /** A failed walk lists at least one node, and the last one's parent is among those listed. */
  lemma {:induction false} ClimbEndsInCycle(ns: seq<Node>, n: nat, seen: seq<nat>)
    requires Linked(ns) && n < |ns| && InStore(ns, seen)
    requires |seen| > 0 ==> ns[seen[|seen| - 1]].parent == Some(n)
    requires Climb(ns, n, seen).Failure?
    ensures ClosesCycle(ns, Climb(ns, n, seen).error)
    decreases Ids(|ns|) - Visited(seen)
  {
    if n in seen {
      assert Climb(ns, n, seen) == Failure(seen);
      assert ClosesCycle(ns, seen);
    } else {
      var w := seen + [n];
      assert Visited(w) == Visited(seen) + {n};
      var q := ns[n].parent.value;
      assert w[|w| - 1] == n;
      ClimbEndsInCycle(ns, q, w);
      assert Climb(ns, n, seen) == Climb(ns, q, w);
    }
  }

  /** The walk from `seen` keeps `seen` as its prefix. */
  lemma {:induction false} ClimbPrefix(ns: seq<Node>, n: nat, seen: seq<nat>)
    requires Linked(ns) && n < |ns| && InStore(ns, seen)
    ensures |seen| <= |Listed(Climb(ns, n, seen))| && Listed(Climb(ns, n, seen))[..|seen|] == seen
    decreases Ids(|ns|) - Visited(seen)
  {
    var w := seen + [n];
    assert w[..|seen|] == seen;
    if n !in seen {
      assert Visited(w) == Visited(seen) + {n};
      if ns[n].parent.Some? {
        var q := ns[n].parent.value;
        ClimbPrefix(ns, q, w);
        var e := Listed(Climb(ns, q, w));
        assert e[..|seen|] == e[..|w|][..|seen|];
      }
    }
  }

  /** A walk to a root is what `Climb` returns, from any point of it. */
  lemma {:induction false} ClimbToRoot(ns: seq<Node>, w: seq<nat>, k: nat)
    requires Linked(ns) && |w| > 0 && WalkToRoot(ns, w[0], w) && k < |w|
    ensures Climb(ns, w[k], w[..k]) == Success(w)
    decreases |w| - k
  {
    assert w[..k] + [w[k]] == w[..k + 1];
    assert w[k] !in w[..k];
    if k < |w| - 1 {
      ClimbToRoot(ns, w, k + 1);
    } else {
      assert w[..k + 1] == w;
    }
  }

  /** A walk into a cycle is what `Climb` fails with, from any point of it. */
  lemma {:induction false} ClimbToCycle(ns: seq<Node>, w: seq<nat>, k: nat)
    requires Linked(ns) && |w| > 0 && WalkIntoCycle(ns, w[0], w) && k < |w|
    ensures Climb(ns, w[k], w[..k]) == Failure(w)
    decreases |w| - k
  {
    assert w[..k] + [w[k]] == w[..k + 1];
    assert w[k] !in w[..k];
    if k < |w| - 1 {
      ClimbToCycle(ns, w, k + 1);
    } else {
      assert w[..k + 1] == w;
    }
  }

  /** `_get_required_nodes` returns `w` exactly when `w` is the distinct walk from `n` to a root. */
  lemma RequiredIsWalk(ns: seq<Node>, n: nat, w: seq<nat>)
    requires Linked(ns) && n < |ns|
    ensures Required(ns, n) == Success(w) <==> WalkToRoot(ns, n, w)
  {
    assert Chain(ns, [] + [n]);
    ClimbSound(ns, n, []);
    if Climb(ns, n, []).Success? {
      ClimbEndsAtRoot(ns, n, []);
    }
    if WalkToRoot(ns, n, w) {
      ClimbToRoot(ns, w, 0);
      assert w[..0] == [];
    }
  }

  /** The walk fails with `ids` exactly when `ids` walks from `n` into a node it already listed. */
  lemma CircularIsCycle(ns: seq<Node>, n: nat, ids: seq<nat>)
    requires Linked(ns) && n < |ns|
    ensures Climb(ns, n, []) == Failure(ids) <==> WalkIntoCycle(ns, n, ids)
  {
    assert Chain(ns, [] + [n]);
    ClimbSound(ns, n, []);
    if Climb(ns, n, []).Failure? {
      ClimbEndsInCycle(ns, n, []);
      assert [] + [n] == [n];
      var q := ns[n].parent.value;
      assert Climb(ns, n, []) == Climb(ns, q, [n]);
      ClimbPrefix(ns, q, [n]);
      var e := Climb(ns, n, []).error;
      assert e[0] == e[..1][0];
    }
    if WalkIntoCycle(ns, n, ids) {
      ClimbToCycle(ns, ids, 0);
      assert ids[..0] == [];
    }
  }

  /** The walk from a node is the node followed by the walk from its parent. */
  lemma RequiredThroughParent(ns: seq<Node>, n: nat, w: seq<nat>)
    requires Linked(ns) && n < |ns| && Required(ns, n) == Success(w) && ns[n].parent.Some?
    ensures |w| > 1 && Required(ns, ns[n].parent.value) == Success(w[1..])
  {
    RequiredIsWalk(ns, n, w);
    assert |w| > 1;
    var q := ns[n].parent.value;
    assert WalkToRoot(ns, q, w[1..]) by {
      assert w[1..][0] == w[1];
      forall i, j | 0 <= i < j < |w[1..]| ensures w[1..][i] != w[1..][j] {
        assert w[1..][i] == w[i + 1] && w[1..][j] == w[j + 1];
      }
      forall i | 0 <= i < |w[1..]| - 1
        ensures w[1..][i] < |ns| && ns[w[1..][i]].parent == Some(w[1..][i + 1])
      {
        assert w[1..][i] == w[i + 1] && w[1..][i + 1] == w[i + 2];
      }
    }
    RequiredIsWalk(ns, q, w[1..]);
  }

  /** `list.reverse()` */
  function Reverse(w: seq<nat>): (r: seq<nat>)
    ensures |r| == |w| && forall i :: 0 <= i < |w| ==> r[i] == w[|w| - 1 - i]
  {
    seq(|w|, i requires 0 <= i < |w| => w[|w| - 1 - i])
  }

  // ---------------------------------------------------------------------------
  // Re-linking (`parent` setter, `remove`, the node constructors)
  // ---------------------------------------------------------------------------

  /** `self._parent._children.pop(self.unique_id)`: a `KeyError` when the old parent no longer lists the name. */
  function Unlink(ns: seq<Node>, n: nat): (r: Result<seq<Node>, TreeError>)
    requires Linked(ns) && n < |ns| && ns[n].parent.Some?
  {
    var q := ns[n].parent.value;
    if ns[n].name in ns[q].children
    then Success(ns[q := ns[q].(children := ns[q].children - {ns[n].name})])
    else Failure(MissingChild(ns[n].name))
  }

  /**
   * The `parent` setter: refuse a scalar parent, pop the node from its old
   * parent, link it under `p`, then walk up from it; the new links stay even
   * when the walk raises.
   */
  function SetParentSpec(ns: seq<Node>, n: nat, p: nat): (seq<Node>, Result<(), TreeError>)
    requires Linked(ns) && n < |ns| && p < |ns|
  {
    if ns[p].kind == Scalar then (ns, Failure(NotAContainer))
    else
      var d := if ns[n].parent.None? then Success(ns) else Unlink(ns, n);
      if d.Failure? then (ns, Failure(d.error))
      else
        var ns1 := d.value;
        var ns2 := ns1[n := ns1[n].(parent := Some(p))];
        var ns3 := ns2[p := ns2[p].(children := ns2[p].children[ns[n].name := n])];
        assert Linked(ns3) by {
          assert forall i :: 0 <= i < |ns| && i != n && i != p ==> ns3[i].parent == ns[i].parent;
          assert forall i :: 0 <= i < |ns| ==> ns3[i].children.Keys <= ns[i].children.Keys + {ns[n].name};
        }
        (ns3, match Required(ns3, n) case Success(_) => Success(()) case Failure(e) => Failure(e))
  }

  /** `remove`: nothing for a root; otherwise pop the node from its parent and drop the link. */
  function RemoveSpec(ns: seq<Node>, n: nat): (seq<Node>, Result<(), TreeError>)
    requires Linked(ns) && n < |ns|
  {
    if ns[n].parent.None? then (ns, Success(()))
    else match Unlink(ns, n)
      case Failure(e) => (ns, Failure(e))
      case Success(ns1) => (ns1[n := ns1[n].(parent := None)], Success(()))
  }

  /**
   * `ScalarNode(name, EigenValue(v), parent)` and `ContainerNode(...)`: refuse
   * a scalar parent; otherwise append the node and, when a parent is given,
   * run the setter. The result is the new node's index.
   */
  function NewNodeSpec(ns: seq<Node>, name: string, eigenvalue: string, kind: Kind, parent: Option<nat>): (seq<Node>, Result<nat, TreeError>)
    requires Linked(ns) && (parent.Some? ==> parent.value < |ns|)
  {
    if parent.Some? && ns[parent.value].kind == Scalar then (ns, Failure(NotAContainer))
    else
      var ns1 := ns + [Node(name, eigenvalue, kind, None, map[])];
      assert Linked(ns1) by {
        assert forall i :: 0 <= i < |ns| ==> ns1[i] == ns[i];
      }
      if parent.None? then (ns1, Success(|ns|))
      else
        var (ns2, r) := SetParentSpec(ns1, |ns|, parent.value);
        (ns2, if r.Success? then Success(|ns|) else Failure(r.error))
  }

  /** Linking keeps every reference inside the store. */
  lemma SetParentLinked(ns: seq<Node>, n: nat, p: nat)
    requires Linked(ns) && n < |ns| && p < |ns|
    ensures Linked(SetParentSpec(ns, n, p).0) && |SetParentSpec(ns, n, p).0| == |ns|
  {
  }

  /**
   * Setting a parent, whether or not the walk then raises, leaves `n` under
   * `p`, lists it in `p`'s children under its name, takes the name out of a
   * different old parent's children and changes no other node.
   */
  lemma SetParentMoves(ns: seq<Node>, n: nat, p: nat)
    requires Linked(ns) && n < |ns| && p < |ns|
    requires ns[p].kind == Container
    requires ns[n].parent.Some? ==> ns[n].name in ns[ns[n].parent.value].children
    ensures var ns' := SetParentSpec(ns, n, p).0;
      |ns'| == |ns| && ns'[n].parent == Some(p) && ns'[p].children == ns[p].children[ns[n].name := n] &&
      (ns[n].parent.Some? && ns[n].parent.value != p ==>
        ns'[ns[n].parent.value].children == ns[ns[n].parent.value].children - {ns[n].name}) &&
      (forall i :: 0 <= i < |ns| && i != n && i != p && Some(i) != ns[n].parent ==> ns'[i] == ns[i]) &&
      (forall i :: 0 <= i < |ns| ==> ns'[i].name == ns[i].name && ns'[i].kind == ns[i].kind)
  {
  }

  /**
   * Building a node under a container appends it and links it both ways
   * before the walk runs, so a construction that raises `circular_dependency`
   * still leaves the new node in the store and listed among the parent's
   * children, as the half-built Python object is.
   */
  lemma NewNodeLinksFirst(ns: seq<Node>, name: string, eigenvalue: string, kind: Kind, p: nat)
    requires Linked(ns) && p < |ns| && ns[p].kind == Container
    ensures var (ns', r) := NewNodeSpec(ns, name, eigenvalue, kind, Some(p));
      |ns'| == |ns| + 1 && Linked(ns') &&
      ns'[|ns|] == Node(name, eigenvalue, kind, Some(p), map[]) &&
      ns'[p].children == ns[p].children[name := |ns|] &&
      (forall i :: 0 <= i < |ns| && i != p ==> ns'[i] == ns[i]) &&
      (r.Success? <==> Required(ns', |ns|).Success?) &&
      (r.Success? ==> r.value == |ns|)
  {
    var ns1 := ns + [Node(name, eigenvalue, kind, None, map[])];
    assert forall i :: 0 <= i < |ns| ==> ns1[i] == ns[i];
    assert Linked(ns1);
    SetParentMoves(ns1, |ns|, p);
    SetParentRaises(ns1, |ns|, p);
  }

  /** The setter succeeds exactly when the walk up from the re-linked node reaches a root. */
  lemma SetParentRaises(ns: seq<Node>, n: nat, p: nat)
    requires Linked(ns) && n < |ns| && p < |ns|
    ensures var (ns', r) := SetParentSpec(ns, n, p);
      (ns[p].kind == Scalar ==> r == Failure(NotAContainer) && ns' == ns) &&
      (ns[p].kind == Container && ns[n].parent.Some? && ns[n].name !in ns[ns[n].parent.value].children ==>
        r == Failure(MissingChild(ns[n].name)) && ns' == ns) &&
      (ns[p].kind == Container && (ns[n].parent.Some? ==> ns[n].name in ns[ns[n].parent.value].children) ==>
        Linked(ns') && (r.Success? <==> Required(ns', n).Success?))
  {
  }

  /** Removing a node that has a parent makes it a root and takes its name out of the parent's children. */
  lemma RemoveDetaches(ns: seq<Node>, n: nat)
    requires Linked(ns) && n < |ns|
    ensures var (ns', r) := RemoveSpec(ns, n);
      |ns'| == |ns| && Linked(ns') &&
      (ns[n].parent.None? ==> ns' == ns && r == Success(())) &&
      (ns[n].parent.Some? && ns[n].name !in ns[ns[n].parent.value].children ==> ns' == ns && r == Failure(MissingChild(ns[n].name))) &&
      (ns[n].parent.Some? && ns[n].name in ns[ns[n].parent.value].children ==>
        r == Success(()) && ns'[n].parent.None? &&
        ns'[ns[n].parent.value].children == ns[ns[n].parent.value].children - {ns[n].name} &&
        forall i :: 0 <= i < |ns| && i != n && Some(i) != ns[n].parent ==> ns'[i] == ns[i])
  {
  }

  // ---------------------------------------------------------------------------
  // `sorted` on names
  // ---------------------------------------------------------------------------

  /** Python's `<` on `str`: code point by code point, a proper prefix first. */
  predicate Below(a: string, b: string)
    decreases |a|
  {
    if |a| == 0 then |b| > 0
    else |b| > 0 && (a[0] < b[0] || (a[0] == b[0] && Below(a[1..], b[1..])))
  }

  lemma {:induction false} BelowIrreflexive(a: string)
    ensures !Below(a, a)
    decreases |a|
  {
    if |a| > 0 {
      BelowIrreflexive(a[1..]);
    }
  }

  lemma {:induction false} BelowTransitive(a: string, b: string, c: string)
    requires Below(a, b) && Below(b, c)
    ensures Below(a, c)
    decreases |a|
  {
    if |a| > 0 && a[0] == b[0] && b[0] == c[0] {
      BelowTransitive(a[1..], b[1..], c[1..]);
    }
  }

  lemma {:induction false} BelowTotal(a: string, b: string)
    ensures a == b || Below(a, b) || Below(b, a)
    decreases |a|
  {
    if |a| > 0 && |b| > 0 && a[0] == b[0] {
      BelowTotal(a[1..], b[1..]);
      if a[1..] == b[1..] {
        assert a == [a[0]] + a[1..] && b == [b[0]] + b[1..];
      }
    }
  }

  predicate IsLeast(k: string, s: set<string>)
  {
    k in s && forall j :: j in s && j != k ==> Below(k, j)
  }

  lemma {:induction false} LeastExists(s: set<string>)
    requires s != {}
    ensures exists k :: IsLeast(k, s)
    decreases s
  {
    var x :| x in s;
    if s == {x} {
      assert IsLeast(x, s);
    } else {
      LeastExists(s - {x});
      var k :| IsLeast(k, s - {x});
      BelowTotal(k, x);
      if Below(x, k) {
        forall j | j in s && j != x
          ensures Below(x, j)
        {
          if j != k {
            BelowTransitive(x, k, j);
          }
        }
        assert IsLeast(x, s);
      } else {
        assert IsLeast(k, s);
      }
    }
  }

  lemma LeastUnique(a: string, b: string, s: set<string>)
    requires IsLeast(a, s) && IsLeast(b, s)
    ensures a == b
  {
    if a != b {
      BelowTransitive(a, b, a);
      BelowIrreflexive(a);
    }
  }

  /** `sorted(names)`: the names in ascending order. */
  ghost function SortedKeys(s: set<string>): (r: seq<string>)
    ensures forall x :: x in r <==> x in s
    decreases s
  {
    if s == {} then []
    else
      LeastExists(s);
      var k :| IsLeast(k, s);
      [k] + SortedKeys(s - {k})
  }

  predicate Ascending(w: seq<string>)
  {
    forall i, j :: 0 <= i < j < |w| ==> Below(w[i], w[j])
  }

  lemma SortedKeysHead(s: set<string>, k: string)
    requires IsLeast(k, s)
    ensures SortedKeys(s) == [k] + SortedKeys(s - {k})
  {
    var k' := SortedKeys(s)[0];
    assert IsLeast(k', s) && SortedKeys(s) == [k'] + SortedKeys(s - {k'});
    LeastUnique(k, k', s);
  }

  lemma AscendingCons(k: string, r: seq<string>)
    requires Ascending(r) && forall x :: x in r ==> Below(k, x)
    ensures Ascending([k] + r)
  {
    var w := [k] + r;
    forall i, j | 0 <= i < j < |w| ensures Below(w[i], w[j]) {
      assert w[j] == r[j - 1];
      if i > 0 {
        assert w[i] == r[i - 1];
      }
    }
  }

  /** `sorted` lists every name once, in strictly ascending order. */
  lemma {:induction false} SortedKeysSorted(s: set<string>)
    ensures Ascending(SortedKeys(s)) && |SortedKeys(s)| == |s|
    ensures forall x :: x in SortedKeys(s) <==> x in s
    decreases s
  {
    if s != {} {
      LeastExists(s);
      var k :| IsLeast(k, s);
      SortedKeysHead(s, k);
      var r := SortedKeys(s - {k});
      SortedKeysSorted(s - {k});
      forall x | x in r ensures Below(k, x) {
        assert x in s - {k};
      }
      AscendingCons(k, r);
      assert |s - {k}| == |s| - 1;
    }
  }

  /** Any strictly ascending listing of exactly the names of `s` is `sorted`'s. */
  lemma {:induction false} SortedKeysUnique(w: seq<string>, s: set<string>)
    requires Ascending(w) && forall x :: x in w <==> x in s
    ensures w == SortedKeys(s)
    decreases |w|
  {
    if w == [] {
      assert forall x :: x !in s;
    } else {
      var k := w[0];
      assert IsLeast(k, s) by {
        forall j | j in s && j != k ensures Below(k, j) {
          var i :| 0 <= i < |w| && w[i] == j;
        }
      }
      SortedKeysHead(s, k);
      assert k !in w[1..] by {
        forall i | 0 <= i < |w[1..]| ensures w[1..][i] != k {
          assert Below(w[0], w[i + 1]);
          BelowIrreflexive(k);
        }
      }
      assert forall x :: x in w[1..] <==> x in s - {k} by {
        forall x ensures x in w[1..] <==> x in s - {k} {
          if x in s - {k} {
            assert x in w;
            var i :| 0 <= i < |w| && w[i] == x;
            assert w[1..][i - 1] == x;
          }
        }
      }
      SortedKeysUnique(w[1..], s - {k});
    }
  }

  // ---------------------------------------------------------------------------
  // `output_tree_mode`
  // ---------------------------------------------------------------------------

  const Elbow: string := "\U{2514}\U{2500}\U{2500}"
  const Tee: string := "\U{251c}\U{2500}\U{2500}"
  const Pipe: string := "\U{2502}  "
  const Blank: string := "   "

  /** `shown_data`: `name: eigenvalue`. */
  function ShownData(nd: Node): string
  {
    nd.name + ": " + nd.eigenvalue
  }

  /** How many more levels a positive `display_level` lets the renderer descend. */
  function Depth(displayLevel: nat, level: nat): nat
  {
    if displayLevel == 0 || level >= displayLevel then 0 else displayLevel - level
  }

  /**
   * The lines `_print_tree` appends for node `n`: its own line, then, unless
   * `display_level` stops it or `n` is a scalar, the lines of its children in
   * sorted name order. Re-entering a node on the way down with no display
   * level is an unbounded recursion in Python, here `RecursionLimit`.
   */
  ghost function Rows(ns: seq<Node>, n: nat, level: nat, last: bool, header: string, anc: set<nat>, displayLevel: nat): Result<seq<string>, TreeError>
    requires Linked(ns) && n < |ns|
    decreases Depth(displayLevel, level), Ids(|ns|) - anc, 1, 0
  {
    if displayLevel == 0 && n in anc then Failure(RecursionLimit)
    else
      var row := if level == 0 then header + ShownData(ns[n]) else header + (if last then Elbow else Tee) + ShownData(ns[n]);
      if displayLevel != 0 && level >= displayLevel then Success([row])
      else if ns[n].kind == Scalar then Success([row])
      else
        var keys := SortedKeys(ns[n].children.Keys);
        var kidHeader := if level == 0 then "" else header + (if last then Blank else Pipe);
        KidsRows(ns, ns[n].children, keys, 0, level + 1, kidHeader, anc + {n}, displayLevel, [row])
  }

  /** The loop over the sorted children: their lines after `acc`, the last child drawn with the elbow. */
  ghost function KidsRows(ns: seq<Node>, kids: map<string, nat>, keys: seq<string>, i: nat, level: nat, header: string,
                          anc: set<nat>, displayLevel: nat, acc: seq<string>): Result<seq<string>, TreeError>
    requires Linked(ns) && i <= |keys|
    requires (forall k :: k in keys ==> k in kids) && forall k :: k in kids ==> kids[k] < |ns|
    decreases Depth(displayLevel, level), Ids(|ns|) - anc, 2, |keys| - i
  {
    if i == |keys| then Success(acc)
    else match Rows(ns, kids[keys[i]], level, i + 1 == |keys|, header, anc, displayLevel)
      case Failure(e) => Failure(e)
      case Success(rs) => KidsRows(ns, kids, keys, i + 1, level, header, anc, displayLevel, acc + rs)
  }

  /** `'\n'.join(lines)` */
  function JoinLines(lines: seq<string>): string
  {
    if |lines| == 0 then ""
    else if |lines| == 1 then lines[0]
    else lines[0] + "\n" + JoinLines(lines[1..])
  }

  /** `output_tree_mode`: a container's lines joined by newlines. */
  ghost function TreeModeSpec(ns: seq<Node>, n: nat, displayLevel: int): Result<string, TreeError>
    requires Linked(ns) && n < |ns|
  {
    if ns[n].kind == Scalar then Failure(NotAContainer)
    else if displayLevel < 0 then Failure(NegativeLevel)
    else match Rows(ns, n, 0, false, "", {}, displayLevel)
      case Failure(e) => Failure(e)
      case Success(rs) => Success(JoinLines(rs))
  }

  /** A container's lines below the display level: its own line, then the children's loop. */
  lemma RowsOfContainer(ns: seq<Node>, n: nat, level: nat, last: bool, header: string, anc: set<nat>, displayLevel: nat)
    requires Linked(ns) && n < |ns|
    requires !(displayLevel == 0 && n in anc) && !(displayLevel != 0 && level >= displayLevel) && ns[n].kind == Container
    ensures Rows(ns, n, level, last, header, anc, displayLevel) ==
      KidsRows(ns, ns[n].children, SortedKeys(ns[n].children.Keys), 0, level + 1,
        if level == 0 then "" else header + (if last then Blank else Pipe), anc + {n}, displayLevel,
        [if level == 0 then header + ShownData(ns[n]) else header + (if last then Elbow else Tee) + ShownData(ns[n])])
  {
  }

  /** A turn of the children's loop that renders its child appends the child's lines. */
  lemma KidsRowsNext(ns: seq<Node>, kids: map<string, nat>, keys: seq<string>, i: nat, level: nat, header: string,
                     anc: set<nat>, displayLevel: nat, acc: seq<string>, rs: seq<string>)
    requires Linked(ns) && i < |keys|
    requires (forall k :: k in keys ==> k in kids) && forall k :: k in kids ==> kids[k] < |ns|
    requires Rows(ns, kids[keys[i]], level, i + 1 == |keys|, header, anc, displayLevel) == Success(rs)
    ensures KidsRows(ns, kids, keys, i, level, header, anc, displayLevel, acc) ==
      KidsRows(ns, kids, keys, i + 1, level, header, anc, displayLevel, acc + rs)
  {
  }

  /** A child that fails to render fails the whole loop. */
  lemma KidsRowsStop(ns: seq<Node>, kids: map<string, nat>, keys: seq<string>, i: nat, level: nat, header: string,
                     anc: set<nat>, displayLevel: nat, acc: seq<string>, e: TreeError)
    requires Linked(ns) && i < |keys|
    requires (forall k :: k in keys ==> k in kids) && forall k :: k in kids ==> kids[k] < |ns|
    requires Rows(ns, kids[keys[i]], level, i + 1 == |keys|, header, anc, displayLevel) == Failure(e)
    ensures KidsRows(ns, kids, keys, i, level, header, anc, displayLevel, acc) == Failure(e)
  {
  }

  /** The children's loop only appends to the lines it starts from. */
  lemma {:induction false} KidsRowsExtend(ns: seq<Node>, kids: map<string, nat>, keys: seq<string>, i: nat, level: nat, header: string,
                                          anc: set<nat>, displayLevel: nat, acc: seq<string>)
    requires Linked(ns) && i <= |keys|
    requires (forall k :: k in keys ==> k in kids) && forall k :: k in kids ==> kids[k] < |ns|
    ensures var r := KidsRows(ns, kids, keys, i, level, header, anc, displayLevel, acc);
      r.Success? ==> |acc| <= |r.value| && r.value[..|acc|] == acc
    decreases |keys| - i
  {
    if i < |keys| {
      var r := Rows(ns, kids[keys[i]], level, i + 1 == |keys|, header, anc, displayLevel);
      if r.Success? {
        KidsRowsExtend(ns, kids, keys, i + 1, level, header, anc, displayLevel, acc + r.value);
        var out := KidsRows(ns, kids, keys, i + 1, level, header, anc, displayLevel, acc + r.value);
        if out.Success? {
          assert out.value[..|acc|] == out.value[..|acc + r.value|][..|acc|];
        }
      }
    } else {
      assert acc[..|acc|] == acc;
    }
  }

  /** The first line `_print_tree` appends for a node is the node's own: `name: eigenvalue` after the header and marker. */
  lemma RowsHead(ns: seq<Node>, n: nat, level: nat, last: bool, header: string, anc: set<nat>, displayLevel: nat)
    requires Linked(ns) && n < |ns|
    ensures var r := Rows(ns, n, level, last, header, anc, displayLevel);
      r.Success? ==> (|r.value| >= 1 &&
        r.value[0] == header + (if level == 0 then "" else if last then Elbow else Tee) + ShownData(ns[n]))
  {
    var row := if level == 0 then header + ShownData(ns[n]) else header + (if last then Elbow else Tee) + ShownData(ns[n]);
    assert row == header + (if level == 0 then "" else if last then Elbow else Tee) + ShownData(ns[n]);
    if !(displayLevel == 0 && n in anc) && !(displayLevel != 0 && level >= displayLevel) && ns[n].kind == Container {
      RowsOfContainer(ns, n, level, last, header, anc, displayLevel);
      KidsRowsExtend(ns, ns[n].children, SortedKeys(ns[n].children.Keys), 0, level + 1,
        if level == 0 then "" else header + (if last then Blank else Pipe), anc + {n}, displayLevel, [row]);
      var r := Rows(ns, n, level, last, header, anc, displayLevel);
      if r.Success? {
        assert r.value[0] == r.value[..1][0];
      }
    }
  }

  /** Every line drawn for a node below the top starts with the header its parent handed down. */
  lemma {:induction false} RowsUnderHeader(ns: seq<Node>, n: nat, level: nat, last: bool, header: string, anc: set<nat>, displayLevel: nat)
    requires Linked(ns) && n < |ns| && (level > 0 || header == "")
    ensures var r := Rows(ns, n, level, last, header, anc, displayLevel);
      r.Success? ==> forall j :: 0 <= j < |r.value| ==> header <= r.value[j]
    decreases Depth(displayLevel, level), Ids(|ns|) - anc, 1, 0
  {
    var row := if level == 0 then header + ShownData(ns[n]) else header + (if last then Elbow else Tee) + ShownData(ns[n]);
    assert header <= row;
    if !(displayLevel == 0 && n in anc) && !(displayLevel != 0 && level >= displayLevel) && ns[n].kind == Container {
      RowsOfContainer(ns, n, level, last, header, anc, displayLevel);
      var kidHeader := if level == 0 then "" else header + (if last then Blank else Pipe);
      KidsUnderHeader(ns, ns[n].children, SortedKeys(ns[n].children.Keys), 0, level + 1, kidHeader, anc + {n}, displayLevel, [row], header);
    }
  }

  lemma {:induction false} KidsUnderHeader(ns: seq<Node>, kids: map<string, nat>, keys: seq<string>, i: nat, level: nat, header: string,
                                           anc: set<nat>, displayLevel: nat, acc: seq<string>, base: string)
    requires Linked(ns) && i <= |keys| && level > 0
    requires (forall k :: k in keys ==> k in kids) && forall k :: k in kids ==> kids[k] < |ns|
    requires base <= header && forall j :: 0 <= j < |acc| ==> base <= acc[j]
    ensures var r := KidsRows(ns, kids, keys, i, level, header, anc, displayLevel, acc);
      r.Success? ==> forall j :: 0 <= j < |r.value| ==> base <= r.value[j]
    decreases Depth(displayLevel, level), Ids(|ns|) - anc, 2, |keys| - i
  {
    if i < |keys| {
      var r := Rows(ns, kids[keys[i]], level, i + 1 == |keys|, header, anc, displayLevel);
      if r.Success? {
        RowsUnderHeader(ns, kids[keys[i]], level, i + 1 == |keys|, header, anc, displayLevel);
        var acc' := acc + r.value;
        forall j | 0 <= j < |acc'| ensures base <= acc'[j] {
          if j >= |acc| {
            var m := j - |acc|;
            assert acc'[j] == r.value[m];
            assert header <= r.value[m];
            assert acc'[j][..|base|] == header[..|base|];
          }
        }
        KidsUnderHeader(ns, kids, keys, i + 1, level, header, anc, displayLevel, acc', base);
      }
    }
  }

  // ---------------------------------------------------------------------------
  // The nodes, updated in place
  // ---------------------------------------------------------------------------

  lemma AppendAssoc(a: seq<string>, b: seq<string>, c: seq<string>)
    ensures (a + b) + c == a + (b + c)
  {
  }

  /** `sorted(node._children)`: picks the least remaining name until none is left. */
  method SortedNames(children: map<string, nat>) returns (keys: seq<string>)
    ensures keys == SortedKeys(children.Keys)
  {
    var rest := children.Keys;
    keys := [];
    while rest != {}
      invariant keys + SortedKeys(rest) == SortedKeys(children.Keys)
      decreases rest
    {
      LeastExists(rest);
      var k :| IsLeast(k, rest);
      SortedKeysHead(rest, k);
      AppendAssoc(keys, [k], SortedKeys(rest - {k}));
      keys := keys + [k];
      rest := rest - {k};
    }
  }

  /** Every scalar and container node, by index. */
  class NodeStore {
    var nodes: seq<Node>

    predicate Valid()
      reads this
    {
      Linked(nodes)
    }

    constructor ()
      ensures Valid() && nodes == []
    {
      nodes := [];
    }

    /** `is_root`: the node has no `_parent`. */
    predicate IsRoot(n: nat)
      reads this
      requires n < |nodes|
    {
      nodes[n].parent.None?
    }

    /** `ScalarNode(name, EigenValue(v), parent)` or `ContainerNode(...)`: the new node's index. */
    method NewNode(name: string, eigenvalue: string, kind: Kind, parent: Option<nat>) returns (r: Result<nat, TreeError>)
      requires Valid() && (parent.Some? ==> parent.value < |nodes|)
      modifies this
      ensures Valid()
      ensures (nodes, r) == NewNodeSpec(old(nodes), name, eigenvalue, kind, parent)
    {
      if parent.Some? && nodes[parent.value].kind == Scalar {
        return Failure(NotAContainer);
      }
      nodes := nodes + [Node(name, eigenvalue, kind, None, map[])];
      assert Linked(nodes) by {
        assert forall i :: 0 <= i < |old(nodes)| ==> nodes[i] == old(nodes)[i];
      }
      var id := |nodes| - 1;
      if parent.Some? {
        var linked := SetParent(id, parent.value);
        if linked.Failure? {
          return Failure(linked.error);
        }
      }
      return Success(id);
    }

    /** The `parent` setter. */
    method SetParent(n: nat, p: nat) returns (r: Result<(), TreeError>)
      requires Valid() && n < |nodes| && p < |nodes|
      modifies this
      ensures Valid()
      ensures (nodes, r) == SetParentSpec(old(nodes), n, p)
    {
      SetParentLinked(nodes, n, p);
      if nodes[p].kind == Scalar {
        return Failure(NotAContainer);
      }
      var name := nodes[n].name;
      if nodes[n].parent.Some? {
        var q := nodes[n].parent.value;
        if name !in nodes[q].children {
          return Failure(MissingChild(name));
        }
        nodes := nodes[q := nodes[q].(children := nodes[q].children - {name})];
      }
      nodes := nodes[n := nodes[n].(parent := Some(p))];
      nodes := nodes[p := nodes[p].(children := nodes[p].children[name := n])];
      var required := RequiredNodes(n);
      if required.Failure? {
        return Failure(required.error);
      }
      return Success(());
    }

    /** `remove` */
    method Remove(n: nat) returns (r: Result<(), TreeError>)
      requires Valid() && n < |nodes|
      modifies this
      ensures Valid()
      ensures (nodes, r) == RemoveSpec(old(nodes), n)
    {
      RemoveDetaches(nodes, n);
      if IsRoot(n) {
        return Success(());
      }
      var q := nodes[n].parent.value;
      var name := nodes[n].name;
      if name !in nodes[q].children {
        return Failure(MissingChild(name));
      }
      nodes := nodes[q := nodes[q].(children := nodes[q].children - {name})];
      nodes := nodes[n := nodes[n].(parent := None)];
      return Success(());
    }

    /**
     * `_get_required_nodes`: the node, its parent and so on up to a root, or
     * `circular_dependency` with the names listed before a node repeats.
     */
    method RequiredNodes(n: nat) returns (r: Result<seq<nat>, TreeError>)
      requires Valid() && n < |nodes|
      ensures r == Required(nodes, n)
    {
      var required: seq<nat> := [];
      var node: nat := n;
      while true
        invariant node < |nodes| && InStore(nodes, required)
        invariant Climb(nodes, node, required) == Climb(nodes, n, [])
        decreases Ids(|nodes|) - Visited(required)
      {
        if node in required {
          assert Climb(nodes, node, required) == Failure(required);
          return Failure(CircularDependency(NamesOf(nodes, required)));
        }
        ghost var before := required;
        assert Visited(before + [node]) == Visited(before) + {node};
        required := required + [node];
        if IsRoot(node) {
          assert Climb(nodes, node, before) == Success(required);
          break;
        }
        assert Climb(nodes, node, before) == Climb(nodes, nodes[node].parent.value, required);
        node := nodes[node].parent.value;
      }
      return Success(required);
    }

    /** `root`: the last node of the walk, which has no parent. */
    method Root(n: nat) returns (r: Result<nat, TreeError>)
      requires Valid() && n < |nodes|
      ensures r.Success? <==> Required(nodes, n).Success?
      ensures r.Failure? ==> r.error == Required(nodes, n).error
      ensures r.Success? ==> var w := Required(nodes, n).value;
        r.value == w[|w| - 1] && r.value < |nodes| && IsRoot(r.value)
    {
      var required := RequiredNodes(n);
      if required.Failure? {
        return Failure(required.error);
      }
      RequiredIsWalk(nodes, n, required.value);
      return Success(required.value[|required.value| - 1]);
    }

    /** `path`: the walk reversed, from the root down to the node. */
    method Path(n: nat) returns (r: Result<seq<nat>, TreeError>)
      requires Valid() && n < |nodes|
      ensures r.Success? <==> Required(nodes, n).Success?
      ensures r.Failure? ==> r.error == Required(nodes, n).error
      ensures r.Success? ==> r.value == Reverse(Required(nodes, n).value)
      ensures r.Success? ==> var path := r.value;
        |path| > 0 && path[|path| - 1] == n && InStore(nodes, path) && IsRoot(path[0]) &&
        forall i :: 0 <= i < |path| - 1 ==> nodes[path[i + 1]].parent == Some(path[i])
    {
      var required := RequiredNodes(n);
      if required.Failure? {
        return Failure(required.error);
      }
      var w := required.value;
      RequiredIsWalk(nodes, n, w);
      var path := Reverse(w);
      forall i | 0 <= i < |path| - 1
        ensures nodes[path[i + 1]].parent == Some(path[i])
      {
        assert path[i + 1] == w[|w| - 2 - i] && path[i] == w[|w| - 1 - i];
      }
      return Success(path);
    }

    /** `path_level`: how many nodes the walk lists, at least one. */
    method PathLevel(n: nat) returns (r: Result<nat, TreeError>)
      requires Valid() && n < |nodes|
      ensures r.Success? <==> Required(nodes, n).Success?
      ensures r.Failure? ==> r.error == Required(nodes, n).error
      ensures r.Success? ==> r.value == |Required(nodes, n).value| && r.value >= 1
    {
      var required := RequiredNodes(n);
      if required.Failure? {
        return Failure(required.error);
      }
      RequiredIsWalk(nodes, n, required.value);
      return Success(|required.value|);
    }

    /** `_print_tree`: this node's line, then its children's, appended in sorted name order. */
    method PrintTree(n: nat, level: nat, last: bool, header: string, anc: set<nat>, displayLevel: nat) returns (r: Result<seq<string>, TreeError>)
      requires Valid() && n < |nodes|
      ensures r == Rows(nodes, n, level, last, header, anc, displayLevel)
      decreases Depth(displayLevel, level), Ids(|nodes|) - anc, 1
    {
      if displayLevel == 0 && n in anc {
        return Failure(RecursionLimit);
      }
      var row := if level == 0 then header + ShownData(nodes[n]) else header + (if last then Elbow else Tee) + ShownData(nodes[n]);
      if displayLevel != 0 && level >= displayLevel {
        return Success([row]);
      }
      if nodes[n].kind == Scalar {
        return Success([row]);
      }
      var children := nodes[n].children;
      var keys := SortedNames(children);
      var kidHeader := if level == 0 then "" else header + (if last then Blank else Pipe);
      RowsOfContainer(nodes, n, level, last, header, anc, displayLevel);
      r := PrintChildren(children, keys, level + 1, kidHeader, anc + {n}, displayLevel, [row]);
    }

    /** The `for key in sorted(node._children)` loop of `_print_tree`, appending each child's lines. */
    method PrintChildren(children: map<string, nat>, keys: seq<string>, level: nat, header: string, anc: set<nat>,
                         displayLevel: nat, init: seq<string>) returns (r: Result<seq<string>, TreeError>)
      requires Valid()
      requires (forall k :: k in keys ==> k in children) && forall k :: k in children ==> children[k] < |nodes|
      ensures r == KidsRows(nodes, children, keys, 0, level, header, anc, displayLevel, init)
      decreases Depth(displayLevel, level), Ids(|nodes|) - anc, 2
    {
      var result := init;
      var index := 1;
      var length := |keys|;
      while index <= length
        invariant 1 <= index <= length + 1
        invariant KidsRows(nodes, children, keys, index - 1, level, header, anc, displayLevel, result)
          == KidsRows(nodes, children, keys, 0, level, header, anc, displayLevel, init)
      {
        ghost var i := index - 1;
        assert (index == length) == (i + 1 == |keys|);
        var key := keys[index - 1];
        var rows := PrintTree(children[key], level, index == length, header, anc, displayLevel);
        if rows.Failure? {
          KidsRowsStop(nodes, children, keys, i, level, header, anc, displayLevel, result, rows.error);
          return Failure(rows.error);
        }
        KidsRowsNext(nodes, children, keys, i, level, header, anc, displayLevel, result, rows.value);
        result := result + rows.value;
        index := index + 1;
      }
      return Success(result);
    }

    /** `output_tree_mode` */
    method OutputTreeMode(n: nat, displayLevel: int) returns (r: Result<string, TreeError>)
      requires Valid() && n < |nodes|
      ensures r == TreeModeSpec(nodes, n, displayLevel)
    {
      if nodes[n].kind == Scalar {
        return Failure(NotAContainer);
      }
      if displayLevel < 0 {
        return Failure(NegativeLevel);
      }
      var rows := PrintTree(n, 0, false, "", {}, displayLevel);
      if rows.Failure? {
        return Failure(rows.error);
      }
      return Success(JoinLines(rows.value));
    }
  }
}
