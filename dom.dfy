/**
 * The parsed page as an arena of nodes, and `_dom_distance`.
 *
 * Node 0 is the document object itself; every other node is an element,
 * and the arena lists them in document order (the order of
 * `find_all(True)`). A parent always comes before its children, so the
 * walk up the `parent` links ends.
 */
module Dom {
  import opened Wrappers

  /**
   * One element: its tag name, its attributes, `get_text(strip=True)`,
   * `get_text(separator=" ", strip=True)`, its parent and its child tags.
   */
  datatype Node = Node(
    tag: string,
    attrs: map<string, string>,
    text: string,
    spacedText: string,
    parent: Option<nat>,
    children: seq<nat>)

  type Tree = seq<Node>

  /** Parents precede their children, children point back at their parent, and every node is listed among its parent's children. */
  predicate WellFormed(t: Tree) {
    && |t| > 0
    && t[0].parent == None
    && (forall i :: 0 <= i < |t| && t[i].parent.Some? ==> t[i].parent.value < i)
    && (forall i, k :: 0 <= i < |t| && 0 <= k < |t[i].children| ==>
          t[i].children[k] < |t| && t[t[i].children[k]].parent == Some(i))
    && (forall j :: 0 <= j < |t| && t[j].parent.Some? ==> j in t[t[j].parent.value].children)
  }

  /** A node without child tags is no element's parent. */
  lemma NoChildTagsNoChildren(t: Tree, i: nat)
    requires WellFormed(t) && i < |t| && t[i].children == []
    ensures forall j :: 0 <= j < |t| ==> t[j].parent != Some(i)
  {
  }

  /** The node and its ancestors, nearest first: the walk `node = node.parent`. */
  function Chain(t: Tree, i: nat): (c: seq<nat>)
    requires WellFormed(t) && i < |t|
    ensures |c| >= 1 && c[0] == i
    ensures forall k :: 0 <= k < |c| ==> c[k] <= i
    ensures forall k :: 0 < k < |c| ==> c[k] < c[k - 1]
    ensures forall x :: x in c ==> x < |t|
    decreases i
  {
    match t[i].parent
    case None => [i]
    case Some(p) => [i] + Chain(t, p)
  }

  /** Number of edges from the node up to the top of its tree. */
  function Depth(t: Tree, i: nat): nat
    requires WellFormed(t) && i < |t|
  {
    |Chain(t, i)| - 1
  }

  /** First index of `x` in `s`. */
  function IndexOf(s: seq<nat>, x: nat): (k: nat)
    requires x in s
    ensures k < |s| && s[k] == x
    ensures forall j :: 0 <= j < k ==> s[j] != x
  {
    if s[0] == x then 0 else 1 + IndexOf(s[1..], x)
  }

  /** The first position, from `k` on, at which `cb` reaches a node of `ca`. */
  function FirstCommon(ca: seq<nat>, cb: seq<nat>, k: nat): (r: Option<nat>)
    requires k <= |cb|
    ensures r.Some? ==> k <= r.value < |cb| && cb[r.value] in ca
    ensures r.Some? ==> forall j :: k <= j < r.value ==> cb[j] !in ca
    ensures r.None? <==> forall j :: k <= j < |cb| ==> cb[j] !in ca
    decreases |cb| - k
  {
    if k == |cb| then None
    else if cb[k] in ca then Some(k)
    else FirstCommon(ca, cb, k + 1)
  }

  /** The value `_dom_distance(a, b)` returns. */
  function Distance(t: Tree, a: nat, b: nat): nat
    requires WellFormed(t) && a < |t| && b < |t|
  {
    var ca := Chain(t, a);
    var cb := Chain(t, b);
    match FirstCommon(ca, cb, 0)
    case None => 10000
    case Some(k) => IndexOf(ca, cb[k]) + k
  }

  /**
   * `_dom_distance`: record the depth of every ancestor of `a`, then walk up
   * from `b` until an ancestor of `a` is reached.
   */
  method DomDistance(t: Tree, a: nat, b: nat) returns (d: nat)
    requires WellFormed(t) && a < |t| && b < |t|
    ensures d == Distance(t, a, b)
  {
    ghost var ca := Chain(t, a);
    ghost var cb := Chain(t, b);
    var ancestorsA := AncestorDepths(t, a);
    ChainDistinct(t, a);
    var node: Option<nat>;
    var depth: nat;
    node := Some(b);
    depth := 0;
    while node.Some?
      invariant depth <= |cb|
      invariant node.Some? ==> depth < |cb| && node.value == cb[depth]
      invariant node.None? ==> depth == |cb|
      invariant FirstCommon(ca, cb, depth) == FirstCommon(ca, cb, 0)
      decreases |cb| - depth
    {
      if node.value in ancestorsA {
        assert ca[ancestorsA[node.value]] == node.value;
        IndexOfUnique(ca, node.value, ancestorsA[node.value]);
        return ancestorsA[node.value] + depth;
      }
      assert node.value !in ca;
      ChainStep(t, b, depth);
      node := t[node.value].parent;
      depth := depth + 1;
    }
    return 10000;
  }

  /** The first loop of `_dom_distance`: every ancestor of `a` (itself included) mapped to its depth above `a`. */
  method AncestorDepths(t: Tree, a: nat) returns (ancestorsA: map<nat, nat>)
    requires WellFormed(t) && a < |t|
    ensures forall k :: 0 <= k < |Chain(t, a)| ==> Chain(t, a)[k] in ancestorsA && ancestorsA[Chain(t, a)[k]] == k
    ensures forall x :: x in ancestorsA ==> ancestorsA[x] < |Chain(t, a)| && Chain(t, a)[ancestorsA[x]] == x
  {
    ghost var ca := Chain(t, a);
    ancestorsA := map[];
    var node: Option<nat> := Some(a);
    var depth: nat := 0;
    ChainDistinct(t, a);
    while node.Some?
      invariant depth <= |ca|
      invariant node.Some? ==> depth < |ca| && node.value == ca[depth]
      invariant node.None? ==> depth == |ca|
      invariant forall k :: 0 <= k < depth ==> ca[k] in ancestorsA && ancestorsA[ca[k]] == k
      invariant forall x :: x in ancestorsA ==> ancestorsA[x] < depth && ca[ancestorsA[x]] == x
      decreases |ca| - depth
    {
      ChainStep(t, a, depth);
      ancestorsA := ancestorsA[node.value := depth];
      node := t[node.value].parent;
      depth := depth + 1;
    }
  }

  /** One step of the walk: the parent of the `k`-th ancestor is the next one. */
  lemma ChainStep(t: Tree, i: nat, k: nat)
    requires WellFormed(t) && i < |t| && k < |Chain(t, i)|
    ensures var c := Chain(t, i);
      match t[c[k]].parent
      case None => k + 1 == |c|
      case Some(p) => k + 1 < |c| && c[k + 1] == p
  {
    ChainSuffix(t, i, k);
  }

  /** Above the `k`-th ancestor, the chain is that ancestor's own chain. */
  lemma {:induction false} ChainSuffix(t: Tree, i: nat, k: nat)
    requires WellFormed(t) && i < |t| && k < |Chain(t, i)|
    ensures Chain(t, i)[k..] == Chain(t, Chain(t, i)[k])
    decreases k
  {
    if k > 0 {
      var p := t[i].parent.value;
      assert Chain(t, i) == [i] + Chain(t, p);
      ChainSuffix(t, p, k - 1);
      assert Chain(t, i)[k..] == Chain(t, p)[k - 1..];
    }
  }

  /** The `k`-th ancestor is `k` levels higher. */
  lemma ChainDepth(t: Tree, i: nat, k: nat)
    requires WellFormed(t) && i < |t| && k < |Chain(t, i)|
    ensures Depth(t, Chain(t, i)[k]) == Depth(t, i) - k
  {
    ChainSuffix(t, i, k);
  }

  /** The chain never visits a node twice. */
  lemma ChainDistinct(t: Tree, i: nat)
    requires WellFormed(t) && i < |t|
    ensures forall j, k :: 0 <= j < k < |Chain(t, i)| ==> Chain(t, i)[k] < Chain(t, i)[j]
  {
    var c := Chain(t, i);
    forall j, k | 0 <= j < k < |c|
      ensures c[k] < c[j]
    {
      ChainDecreasing(c, j, k);
    }
  }

  lemma {:induction false} ChainDecreasing(c: seq<nat>, j: nat, k: nat)
    requires forall m :: 0 < m < |c| ==> c[m] < c[m - 1]
    requires j < k < |c|
    ensures c[k] < c[j]
    decreases k - j
  {
    if k > j + 1 {
      ChainDecreasing(c, j, k - 1);
    }
  }

  lemma IndexOfUnique(s: seq<nat>, x: nat, k: nat)
    requires forall j, m :: 0 <= j < m < |s| ==> s[m] < s[j]
    requires k < |s| && s[k] == x
    ensures IndexOf(s, x) == k
  {
    var m := IndexOf(s, x);
    if m < k {
      assert false;
    }
  }

  /** The position of an ancestor in the chain is the difference of depths. */
  lemma IndexOfAncestor(t: Tree, i: nat, x: nat)
    requires WellFormed(t) && i < |t| && x in Chain(t, i)
    ensures x < |t| && IndexOf(Chain(t, i), x) == Depth(t, i) - Depth(t, x)
  {
    ChainDepth(t, i, IndexOf(Chain(t, i), x));
  }

  /** `x` is `i` itself or one of its ancestors. */
  ghost predicate IsAncestor(t: Tree, x: nat, i: nat)
    requires WellFormed(t) && i < |t|
  {
    x in Chain(t, i)
  }

  /** `l` is a common ancestor of `a` and `b`, and no common ancestor is deeper. */
  ghost predicate IsLowestCommonAncestor(t: Tree, l: nat, a: nat, b: nat)
    requires WellFormed(t) && a < |t| && b < |t|
  {
    && IsAncestor(t, l, a) && IsAncestor(t, l, b)
    && forall c :: IsAncestor(t, c, a) && IsAncestor(t, c, b) ==> Depth(t, c) <= Depth(t, l)
  }

  /**
   * The distance is the number of edges on the path through the lowest
   * common ancestor, and 10 000 when the two nodes share no ancestor.
   */
  lemma DistanceThroughLca(t: Tree, a: nat, b: nat)
    requires WellFormed(t) && a < |t| && b < |t|
    ensures (forall c :: !(IsAncestor(t, c, a) && IsAncestor(t, c, b))) ==> Distance(t, a, b) == 10000
    ensures forall l :: IsLowestCommonAncestor(t, l, a, b) ==>
      Distance(t, a, b) == Depth(t, a) + Depth(t, b) - 2 * Depth(t, l)
  {
    var ca := Chain(t, a);
    var cb := Chain(t, b);
    match FirstCommon(ca, cb, 0)
    case None =>
      forall l | l in ca
        ensures l !in cb
      {
        if l in cb {
          assert false;
        }
      }
    case Some(k) =>
      var m := cb[k];
      assert IsAncestor(t, m, a) && IsAncestor(t, m, b);
      IndexOfAncestor(t, a, m);
      ChainDepth(t, b, k);
      forall l | IsLowestCommonAncestor(t, l, a, b)
        ensures Depth(t, l) == Depth(t, m)
      {
        var j := IndexOf(cb, l);
        ChainDepth(t, b, j);
        assert k <= j;
      }
  }

  /** The node reached first from `b` is the lowest common ancestor. */
  lemma LcaExists(t: Tree, a: nat, b: nat)
    requires WellFormed(t) && a < |t| && b < |t|
    requires exists c :: IsAncestor(t, c, a) && IsAncestor(t, c, b)
    ensures exists l :: IsLowestCommonAncestor(t, l, a, b)
  {
    var c :| IsAncestor(t, c, a) && IsAncestor(t, c, b);
    var ca := Chain(t, a);
    var cb := Chain(t, b);
    assert cb[IndexOf(cb, c)] in ca;
    var k := FirstCommon(ca, cb, 0).value;
    var m := cb[k];
    ChainDepth(t, b, k);
    forall c' | IsAncestor(t, c', a) && IsAncestor(t, c', b)
      ensures Depth(t, c') <= Depth(t, m)
    {
      var j := IndexOf(cb, c');
      ChainDepth(t, b, j);
    }
    assert IsLowestCommonAncestor(t, m, a, b);
  }

  /** `_dom_distance` is symmetric. */
  lemma DistanceSymmetric(t: Tree, a: nat, b: nat)
    requires WellFormed(t) && a < |t| && b < |t|
    ensures Distance(t, a, b) == Distance(t, b, a)
  {
    DistanceThroughLca(t, a, b);
    DistanceThroughLca(t, b, a);
    if exists c :: IsAncestor(t, c, a) && IsAncestor(t, c, b) {
      LcaExists(t, a, b);
      var l :| IsLowestCommonAncestor(t, l, a, b);
      assert IsLowestCommonAncestor(t, l, b, a);
    }
  }

  /** A node is at distance 0 from itself and at distance 1 from its parent. */
  lemma DistanceSelfAndParent(t: Tree, c: nat)
    requires WellFormed(t) && c < |t|
    ensures Distance(t, c, c) == 0
    ensures t[c].parent.Some? ==> Distance(t, c, t[c].parent.value) == 1
    ensures t[c].parent.Some? ==> Distance(t, t[c].parent.value, c) == 1
  {
    assert Chain(t, c)[0] in Chain(t, c);
    if t[c].parent.Some? {
      var p := t[c].parent.value;
      assert Chain(t, c) == [c] + Chain(t, p);
      assert Chain(t, p)[0] in Chain(t, c);
      assert IndexOf(Chain(t, c), p) == 1;
      assert c !in Chain(t, p);
      assert Chain(t, c)[1] in Chain(t, p);
      assert FirstCommon(Chain(t, p), Chain(t, c), 0) == Some(1);
    }
  }
}
