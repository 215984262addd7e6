/**
 * `SNode.deactivate_all`: recurse into every child in order, then deactivate
 * the node itself if it is sparse — element-wise for `pointer` and
 * `bitmasked`, by dropping its chunk list for `dynamic`. The deactivation
 * kernels themselves are represented by the calls they receive.
 */
module Deactivation {
  import opened Results
  import opened SNodeTree

  datatype Action = Deactivate(node: SNodeId) | DeactivateDynamic(node: SNodeId)

  /** The kernel a node of each type receives, if any. */
  function ActionOf(f: Forest, d: SNodeId): (r: Option<Action>)
    requires d < |f|
    ensures r.Some? ==> r.value.node == d
    ensures r.Some? <==> f[d].kind in {Pointer, Bitmasked, Dynamic}
    ensures r.Some? ==> (r.value.DeactivateDynamic? <==> f[d].kind == Dynamic)
  {
    match f[d].kind
    case Pointer => Some(Deactivate(d))
    case Bitmasked => Some(Deactivate(d))
    case Dynamic => Some(DeactivateDynamic(d))
    case _ => None
  }

  function Own(f: Forest, d: SNodeId): seq<Action>
    requires d < |f|
  {
    if ActionOf(f, d).Some? then [ActionOf(f, d).value] else []
  }

  /** `cs` is a suffix of the children of `id`; `offset` is where it starts. */
  predicate ChildSuffix(f: Forest, id: SNodeId, cs: seq<SNodeId>, offset: nat)
    requires id < |f|
  {
    offset + |cs| == |f[id].children| && cs == f[id].children[offset..]
  }

  /** The kernel calls `deactivate_all` makes on the subtree at `id`, in order. */
  function DeactivateAll(f: Forest, id: SNodeId): (r: seq<Action>)
    requires WellFormed(f) && id < |f|
    ensures forall i :: 0 <= i < |r| ==> id <= r[i].node < |f|
    ensures ActionOf(f, id).Some? ==> |r| > 0 && r[|r| - 1] == ActionOf(f, id).value
    ensures ActionOf(f, id).None? ==> forall i :: 0 <= i < |r| ==> r[i].node != id
    decreases |f| - id, |f[id].children| + 1
  {
    DeactivateChildren(f, id, f[id].children, 0) + Own(f, id)
  }

  function DeactivateChildren(f: Forest, id: SNodeId, cs: seq<SNodeId>, offset: nat): (r: seq<Action>)
    requires WellFormed(f) && id < |f| && ChildSuffix(f, id, cs, offset)
    ensures forall i :: 0 <= i < |r| ==> id < r[i].node < |f|
    decreases |f| - id, |cs|
  {
    if cs == [] then []
    else
      assert cs[0] == f[id].children[offset];
      assert id < cs[0] < |f| by {
        assert f[cs[0]].parent == Some(id);
      }
      DeactivateAll(f, cs[0]) + DeactivateChildren(f, id, cs[1..], offset + 1)
  }

  /** Every call in `r` goes to a sparse node at or below `a`, with that node's own kernel. */
  predicate CallsBelow(f: Forest, r: seq<Action>, a: SNodeId, strict: bool)
    requires WellFormed(f)
  {
    forall i :: 0 <= i < |r| ==>
      r[i].node < |f| && Descends(f, r[i].node, a) && (strict ==> r[i].node != a) &&
      ActionOf(f, r[i].node) == Some(r[i])
  }

  /** Soundness: every call made goes to a sparse node of the subtree, with its own kernel. */
  lemma {:induction false} DeactivateAllSound(f: Forest, id: SNodeId)
    requires WellFormed(f) && id < |f|
    ensures CallsBelow(f, DeactivateAll(f, id), id, false)
    decreases |f| - id, |f[id].children| + 1
  {
    var a := DeactivateChildren(f, id, f[id].children, 0);
    DeactivateChildrenSound(f, id, f[id].children, 0);
    var r := a + Own(f, id);
    assert DeactivateAll(f, id) == r;
    forall i | 0 <= i < |r|
      ensures r[i].node < |f| && Descends(f, r[i].node, id) && ActionOf(f, r[i].node) == Some(r[i])
    {
      if i < |a| {
        assert r[i] == a[i];
      }
    }
  }

  lemma {:induction false} DeactivateChildrenSound(f: Forest, id: SNodeId, cs: seq<SNodeId>, offset: nat)
    requires WellFormed(f) && id < |f| && ChildSuffix(f, id, cs, offset)
    ensures CallsBelow(f, DeactivateChildren(f, id, cs, offset), id, true)
    decreases |f| - id, |cs|
  {
    if cs != [] {
      var c := cs[0];
      assert c == f[id].children[offset];
      assert f[c].parent == Some(id) && id < c < |f|;
      DeactivateAllSound(f, c);
      DeactivateChildrenSound(f, id, cs[1..], offset + 1);
      var a := DeactivateAll(f, c);
      var b := DeactivateChildren(f, id, cs[1..], offset + 1);
      var r := a + b;
      assert DeactivateChildren(f, id, cs, offset) == r;
      forall i | 0 <= i < |r|
        ensures r[i].node < |f| && Descends(f, r[i].node, id) && r[i].node != id &&
                ActionOf(f, r[i].node) == Some(r[i])
      {
        if i < |a| {
          assert r[i] == a[i];
          assert a[i].node < |f| && Descends(f, a[i].node, c);
          DescendsTransitive(f, a[i].node, c, id);
          DescendsBelow(f, a[i].node, c);
        } else {
          assert r[i] == b[i - |a|];
        }
      }
    }
  }

  lemma {:induction false} DescendsTransitive(f: Forest, d: SNodeId, m: SNodeId, a: SNodeId)
    requires WellFormed(f) && d < |f| && m < |f|
    requires Descends(f, d, m) && Descends(f, m, a)
    ensures Descends(f, d, a)
    decreases d
  {
    if d != m {
      DescendsTransitive(f, f[d].parent.value, m, a);
    }
  }

  /** Completeness: every sparse node of the subtree receives its kernel. */
  lemma {:induction false} DeactivateAllComplete(f: Forest, id: SNodeId, d: SNodeId)
    requires WellFormed(f) && id < |f| && d < |f| && Descends(f, d, id) && ActionOf(f, d).Some?
    ensures ActionOf(f, d).value in DeactivateAll(f, id)
    decreases |f| - id, |f[id].children| + 1
  {
    if d != id {
      DescendsViaChild(f, d, id);
      var k :| 0 <= k < |f[id].children| && Descends(f, d, f[id].children[k]);
      DeactivateChildrenComplete(f, id, f[id].children, 0, d, k);
    }
  }

  lemma {:induction false} DeactivateChildrenComplete(f: Forest, id: SNodeId, cs: seq<SNodeId>, offset: nat,
                                                      d: SNodeId, k: nat)
    requires WellFormed(f) && id < |f| && ChildSuffix(f, id, cs, offset)
    requires d < |f| && ActionOf(f, d).Some?
    requires offset <= k < |f[id].children| && Descends(f, d, f[id].children[k])
    ensures ActionOf(f, d).value in DeactivateChildren(f, id, cs, offset)
    decreases |f| - id, |cs|
  {
    var c := cs[0];
    assert c == f[id].children[offset];
    assert f[c].parent == Some(id) && id < c < |f|;
    var a := DeactivateAll(f, c);
    var b := DeactivateChildren(f, id, cs[1..], offset + 1);
    assert DeactivateChildren(f, id, cs, offset) == a + b;
    if k == offset {
      DeactivateAllComplete(f, c, d);
    } else {
      DeactivateChildrenComplete(f, id, cs[1..], offset + 1, d, k);
    }
  }

  /**
   * Post-order without repetition: no call is followed by a call on the same
   * node or on a node above it, so a subtree is finished before its root.
   */
  predicate PostOrder(f: Forest, r: seq<Action>)
    requires WellFormed(f)
  {
    forall i, j :: 0 <= i < j < |r| && r[j].node < |f| ==> !Descends(f, r[j].node, r[i].node)
  }

  /** Every call in `r` goes to a node below a child of `id` at position `offset` or later. */
  predicate CallsUnderChildren(f: Forest, r: seq<Action>, id: SNodeId, offset: nat)
    requires WellFormed(f) && id < |f|
  {
    forall i :: 0 <= i < |r| ==> UnderChildFrom(f, r[i].node, id, offset)
  }

  predicate UnderChildFrom(f: Forest, d: SNodeId, id: SNodeId, offset: nat)
    requires WellFormed(f) && id < |f|
  {
    d < |f| && exists k :: offset <= k < |f[id].children| && Descends(f, d, f[id].children[k])
  }

  lemma {:induction false} DeactivateAllPostOrder(f: Forest, id: SNodeId)
    requires WellFormed(f) && id < |f|
    ensures PostOrder(f, DeactivateAll(f, id))
    decreases |f| - id, |f[id].children| + 1
  {
    var a := DeactivateChildren(f, id, f[id].children, 0);
    DeactivateChildrenPostOrder(f, id, f[id].children, 0);
    DeactivateChildrenSound(f, id, f[id].children, 0);
    var r := a + Own(f, id);
    assert DeactivateAll(f, id) == r;
    forall i, j | 0 <= i < j < |r| && r[j].node < |f| ensures !Descends(f, r[j].node, r[i].node) {
      if j >= |a| {
        assert r[j].node == id;
        if i < |a| {
          assert r[i] == a[i];
          assert a[i].node < |f| && a[i].node != id && Descends(f, a[i].node, id);
          if Descends(f, id, a[i].node) {
            DescendsBelow(f, a[i].node, id);
            DescendsBelow(f, id, a[i].node);
          }
        }
      }
    }
  }

  lemma {:induction false} DeactivateChildrenPostOrder(f: Forest, id: SNodeId, cs: seq<SNodeId>, offset: nat)
    requires WellFormed(f) && id < |f| && ChildSuffix(f, id, cs, offset)
    ensures PostOrder(f, DeactivateChildren(f, id, cs, offset))
    decreases |f| - id, |cs|
  {
    if cs != [] {
      var c := cs[0];
      assert c == f[id].children[offset];
      assert f[c].parent == Some(id) && id < c < |f|;
      var a := DeactivateAll(f, c);
      var b := DeactivateChildren(f, id, cs[1..], offset + 1);
      assert DeactivateChildren(f, id, cs, offset) == a + b;
      DeactivateAllPostOrder(f, c);
      DeactivateAllSound(f, c);
      DeactivateChildrenPostOrder(f, id, cs[1..], offset + 1);
      DeactivateChildrenUnder(f, id, cs[1..], offset + 1);
      PostOrderConcat(f, id, offset, a, b);
    }
  }

  /** Calls under one child, then calls under later siblings, stay in post-order. */
  lemma PostOrderConcat(f: Forest, id: SNodeId, offset: nat, a: seq<Action>, b: seq<Action>)
    requires WellFormed(f) && id < |f| && offset < |f[id].children|
    requires PostOrder(f, a) && PostOrder(f, b)
    requires CallsBelow(f, a, f[id].children[offset], false)
    requires CallsUnderChildren(f, b, id, offset + 1)
    ensures PostOrder(f, a + b)
  {
    var r := a + b;
    forall i, j | 0 <= i < j < |r| && r[j].node < |f| ensures !Descends(f, r[j].node, r[i].node) {
      if i < |a| && j >= |a| {
        assert r[i] == a[i] && r[j] == b[j - |a|];
        assert UnderChildFrom(f, b[j - |a|].node, id, offset + 1);
        LaterSubtreeNotBelow(f, id, offset, a[i].node, b[j - |a|].node);
      } else if i >= |a| {
        assert r[i] == b[i - |a|] && r[j] == b[j - |a|];
      } else {
        assert r[i] == a[i] && r[j] == a[j];
      }
    }
  }

  /** A node under a later sibling never lies below a node under an earlier one. */
  lemma LaterSubtreeNotBelow(f: Forest, id: SNodeId, offset: nat, x: SNodeId, y: SNodeId)
    requires WellFormed(f) && id < |f| && offset < |f[id].children|
    requires x < |f| && Descends(f, x, f[id].children[offset])
    requires UnderChildFrom(f, y, id, offset + 1)
    ensures !Descends(f, y, x)
  {
    var l :| offset + 1 <= l < |f[id].children| && Descends(f, y, f[id].children[l]);
    if Descends(f, y, x) {
      DescendsTransitive(f, y, x, f[id].children[offset]);
      SiblingsDisjoint(f, y, id, offset, l);
    }
  }

  lemma {:induction false} DeactivateChildrenUnder(f: Forest, id: SNodeId, cs: seq<SNodeId>, offset: nat)
    requires WellFormed(f) && id < |f| && ChildSuffix(f, id, cs, offset)
    ensures CallsUnderChildren(f, DeactivateChildren(f, id, cs, offset), id, offset)
    decreases |cs|
  {
    if cs != [] {
      var c := cs[0];
      assert c == f[id].children[offset];
      assert f[c].parent == Some(id) && id < c < |f|;
      var a := DeactivateAll(f, c);
      var b := DeactivateChildren(f, id, cs[1..], offset + 1);
      var r := a + b;
      assert DeactivateChildren(f, id, cs, offset) == r;
      DeactivateAllSound(f, c);
      DeactivateChildrenUnder(f, id, cs[1..], offset + 1);
      forall i | 0 <= i < |r| ensures UnderChildFrom(f, r[i].node, id, offset) {
        if i < |a| {
          assert r[i] == a[i];
          assert a[i].node < |f| && Descends(f, a[i].node, f[id].children[offset]);
        } else {
          assert r[i] == b[i - |a|];
          assert UnderChildFrom(f, b[i - |a|].node, id, offset + 1);
        }
      }
    }
  }
}
