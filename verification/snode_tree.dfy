/**
 * The SNode trees as the Python wrappers see them: an arena of nodes, each
 * knowing its type, its parent and its ordered children. Nodes are only ever
 * appended, so a parent always has a smaller id than its children. Several
 * trees share the arena: the default tree behind `ti.root` and one per
 * `FieldsBuilder`.
 */
module SNodeTree {
  import opened Results

  datatype SNodeType = Root | Dense | Pointer | Bitmasked | Dynamic | Hash | BitStruct | BitArray | Place

  type Axis = nat
  type SNodeId = nat

  /** Per-node arguments the child was created with, beyond its type. */
  datatype Extra = NoExtra | ChunkSize(size: int) | NumBits(bits: int)
  datatype Config = Config(axes: seq<Axis>, extents: seq<int>, extra: Extra, packed: bool)

  datatype Node = Node(kind: SNodeType, parent: Option<SNodeId>, children: seq<SNodeId>, config: Config)

  type Forest = seq<Node>

  /** Parent links and child lists agree, parents precede children, and exactly the roots are parentless. */
  predicate WellFormed(f: Forest) {
    (forall i :: 0 <= i < |f| ==> (f[i].parent.None? <==> f[i].kind == Root)) &&
    (forall i :: 0 <= i < |f| && f[i].parent.Some? ==>
       f[i].parent.value < i && i in f[f[i].parent.value].children) &&
    (forall i, k :: 0 <= i < |f| && 0 <= k < |f[i].children| ==>
       f[i].children[k] < |f| && f[f[i].children[k]].parent == Some(i)) &&
    (forall i, k, l :: 0 <= i < |f| && 0 <= k < l < |f[i].children| ==>
       f[i].children[k] != f[i].children[l])
  }

  const RootConfig := Config([], [], NoExtra, false)

  /** `SNodeRegistry.create_root`: a fresh parentless root. */
  function CreateRoot(f: Forest): (r: (Forest, SNodeId))
    requires WellFormed(f)
    ensures WellFormed(r.0)
    ensures r.1 == |f| && r.0 == f + [Node(Root, None, [], RootConfig)]
  {
    (f + [Node(Root, None, [], RootConfig)], |f|)
  }

  /** A new child of `p`, appended to the arena and to the end of `p`'s children. */
  function AddChild(f: Forest, p: SNodeId, kind: SNodeType, config: Config): (r: (Forest, SNodeId))
    requires WellFormed(f) && p < |f| && kind != Root
    ensures WellFormed(r.0)
    ensures r.1 == |f| && |r.0| == |f| + 1
    ensures r.0[r.1] == Node(kind, Some(p), [], config)
    ensures r.0[p].children == f[p].children + [r.1]
    ensures r.0[p] == f[p].(children := r.0[p].children)
    ensures forall i :: 0 <= i < |f| && i != p ==> r.0[i] == f[i]
  {
    var g := Grown(f, p, kind, config);
    GrownRoots(f, p, kind, config);
    GrownParents(f, p, kind, config);
    GrownChildren(f, p, kind, config);
    GrownDistinct(f, p, kind, config);
    (g, |f|)
  }

  /** The arena after adding the child: `p` gains it as its last child. */
  function Grown(f: Forest, p: SNodeId, kind: SNodeType, config: Config): (g: Forest)
    requires p < |f|
    ensures |g| == |f| + 1
  {
    f[p := f[p].(children := f[p].children + [|f|])] + [Node(kind, Some(p), [], config)]
  }

  lemma GrownRoots(f: Forest, p: SNodeId, kind: SNodeType, config: Config)
    requires WellFormed(f) && p < |f| && kind != Root
    ensures var g := Grown(f, p, kind, config);
            forall i :: 0 <= i < |g| ==> (g[i].parent.None? <==> g[i].kind == Root)
  {
    var g := Grown(f, p, kind, config);
    forall i | 0 <= i < |g| ensures g[i].parent.None? <==> g[i].kind == Root {
      if i < |f| {
        assert g[i].parent == f[i].parent && g[i].kind == f[i].kind;
      }
    }
  }

  lemma GrownParents(f: Forest, p: SNodeId, kind: SNodeType, config: Config)
    requires WellFormed(f) && p < |f| && kind != Root
    ensures var g := Grown(f, p, kind, config);
            forall i :: 0 <= i < |g| && g[i].parent.Some? ==>
              g[i].parent.value < i && i in g[g[i].parent.value].children
  {
    var g := Grown(f, p, kind, config);
    forall i | 0 <= i < |g| && g[i].parent.Some?
      ensures g[i].parent.value < i && i in g[g[i].parent.value].children
    {
      if i < |f| {
        var q := f[i].parent.value;
        assert g[i].parent == f[i].parent;
        assert i in f[q].children;
        if q == p {
          assert g[q].children == f[q].children + [|f|];
        } else {
          assert g[q] == f[q];
        }
      } else {
        assert g[p].children[|f[p].children|] == |f|;
      }
    }
  }

  lemma GrownChildren(f: Forest, p: SNodeId, kind: SNodeType, config: Config)
    requires WellFormed(f) && p < |f| && kind != Root
    ensures var g := Grown(f, p, kind, config);
            forall i, k :: 0 <= i < |g| && 0 <= k < |g[i].children| ==>
              g[i].children[k] < |g| && g[g[i].children[k]].parent == Some(i)
  {
    var g := Grown(f, p, kind, config);
    forall i, k | 0 <= i < |g| && 0 <= k < |g[i].children|
      ensures g[i].children[k] < |g| && g[g[i].children[k]].parent == Some(i)
    {
      if i == p && k == |f[p].children| {
      } else {
        assert i < |f|;
        assert g[i].children[k] == f[i].children[k];
        var c := f[i].children[k];
        assert c < |f| && f[c].parent == Some(i);
        assert g[c].parent == f[c].parent;
      }
    }
  }

  lemma GrownDistinct(f: Forest, p: SNodeId, kind: SNodeType, config: Config)
    requires WellFormed(f) && p < |f| && kind != Root
    ensures var g := Grown(f, p, kind, config);
            forall i, k, l :: 0 <= i < |g| && 0 <= k < l < |g[i].children| ==> g[i].children[k] != g[i].children[l]
  {
    var g := Grown(f, p, kind, config);
    forall i, k, l | 0 <= i < |g| && 0 <= k < l < |g[i].children|
      ensures g[i].children[k] != g[i].children[l]
    {
      assert i < |f|;
      if i == p && l == |f[p].children| {
        assert f[p].children[k] < |f|;
        assert g[i].children[k] == f[p].children[k];
      } else {
        assert g[i].children[k] == f[i].children[k] && g[i].children[l] == f[i].children[l];
      }
    }
  }

  /** The `n`-th ancestor, following `parent` links; `None` once a root is passed. */
  function Ancestor(f: Forest, id: SNodeId, n: int): (r: Option<SNodeId>)
    requires WellFormed(f) && id < |f|
    ensures r.Some? ==> r.value <= id
    decreases id
  {
    if n <= 0 then Some(id)
    else match f[id].parent
      case None => None
      case Some(q) => Ancestor(f, q, n - 1)
  }

  /** Number of `parent` links from a node up to its root. */
  function Depth(f: Forest, id: SNodeId): nat
    requires WellFormed(f) && id < |f|
    decreases id
  {
    match f[id].parent
    case None => 0
    case Some(q) => 1 + Depth(f, q)
  }

  /** `d` lies in the subtree rooted at `a` (possibly `d == a`). */
  predicate Descends(f: Forest, d: SNodeId, a: SNodeId)
    requires WellFormed(f) && d < |f|
    decreases d
  {
    d == a || (f[d].parent.Some? && Descends(f, f[d].parent.value, a))
  }

  /** Walking up exactly `Depth` links ends at a root; walking further falls off the tree. */
  lemma {:induction false} AncestorDepth(f: Forest, id: SNodeId, n: int)
    requires WellFormed(f) && id < |f|
    ensures Ancestor(f, id, n).None? <==> n > Depth(f, id)
    ensures n == Depth(f, id) ==> f[Ancestor(f, id, n).value].kind == Root
    ensures 0 <= n ==> (Ancestor(f, id, n).Some? ==> Depth(f, Ancestor(f, id, n).value) == Depth(f, id) - n)
    decreases id
  {
    if n > 0 {
      match f[id].parent
      case None =>
      case Some(q) => AncestorDepth(f, q, n - 1);
    }
  }

  /** Ancestors are subtree roots of their descendants, and only nodes with ids no larger qualify. */
  lemma {:induction false} DescendsBelow(f: Forest, d: SNodeId, a: SNodeId)
    requires WellFormed(f) && d < |f| && Descends(f, d, a)
    ensures a <= d
    decreases d
  {
    if d != a {
      DescendsBelow(f, f[d].parent.value, a);
    }
  }

  /** A strict descendant of `a` lies below exactly one child of `a`. */
  lemma {:induction false} DescendsViaChild(f: Forest, d: SNodeId, a: SNodeId)
    requires WellFormed(f) && d < |f| && a < |f| && d != a && Descends(f, d, a)
    ensures exists k :: 0 <= k < |f[a].children| && Descends(f, d, f[a].children[k])
    decreases d
  {
    var q := f[d].parent.value;
    if q == a {
      var k :| 0 <= k < |f[a].children| && f[a].children[k] == d;
    } else {
      DescendsViaChild(f, q, a);
      var k :| 0 <= k < |f[a].children| && Descends(f, q, f[a].children[k]);
      assert Descends(f, d, f[a].children[k]);
    }
  }

  /** Two subtree roots above the same node are comparable. */
  lemma {:induction false} DescendsComparable(f: Forest, d: SNodeId, a: SNodeId, b: SNodeId)
    requires WellFormed(f) && d < |f| && Descends(f, d, a) && Descends(f, d, b)
    requires a < |f| && b < |f|
    ensures Descends(f, a, b) || Descends(f, b, a)
    decreases d
  {
    if d != a && d != b {
      DescendsComparable(f, f[d].parent.value, a, b);
    }
  }

  /** No node lies below two different children of the same node. */
  lemma SiblingsDisjoint(f: Forest, d: SNodeId, a: SNodeId, k: nat, l: nat)
    requires WellFormed(f) && d < |f| && a < |f|
    requires k < |f[a].children| && l < |f[a].children| && k != l
    ensures !(Descends(f, d, f[a].children[k]) && Descends(f, d, f[a].children[l]))
  {
    var ck := f[a].children[k];
    var cl := f[a].children[l];
    if Descends(f, d, ck) && Descends(f, d, cl) {
      DescendsComparable(f, d, ck, cl);
      if Descends(f, ck, cl) {
        assert ck != cl;
        DescendsBelow(f, a, cl);
      } else {
        assert cl != ck;
        DescendsBelow(f, a, ck);
      }
    }
  }
}
