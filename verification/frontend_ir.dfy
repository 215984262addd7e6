/**
 * The frontend statement tree that the AST builder grows while a kernel body is
 * traced. Statements are abstract: a leaf statement only records which builder
 * made it, a compound statement owns one or two child blocks. A child block is
 * addressed by a path of (index in block, child slot) steps from the root block,
 * which plays the role of the C++ pointer held by a scope guard.
 */
module FrontendIr {
  import opened Results

  /** The three constructors of FrontendForStmt; `mesh_for` is set only by the mesh one. */
  datatype ForKind = RangeFor | StructFor | MeshFor

  /** The non-compound statements the builder inserts (assign, print, break, ...). */
  datatype LeafKind = Assign | Print | Return | Break | Continue | ExprStmt | AssertStmt | ExternalCall | ScalarAlloca

  datatype Stmt =
    | Leaf(kind: LeafKind)
      /** FrontendAllocaStmt of a local tensor with the given shape. */
    | TensorAlloca(shape: seq<int>)
      /** Assignment of `elements[element]` to the tensor element at `indices`. */
    | TensorElemAssign(indices: seq<int>, element: nat)
    | If(trueBlock: seq<Stmt>, falseBlock: seq<Stmt>)
    | For(forKind: ForKind, body: seq<Stmt>)
    | While(body: seq<Stmt>)
    | FuncDef(funcId: string, body: seq<Stmt>)

  /** The kind of the statement that owns a block, as the loop helpers see it (`parent_stmt`). */
  datatype ParentKind = NoParent | ForParent(forKind: ForKind) | IfParent | WhileParent | FuncParent

  /** Which child block of a compound statement a step enters. */
  datatype Slot = Body | TrueBranch | FalseBranch

  datatype Step = Step(index: nat, slot: Slot)

  type Path = seq<Step>

  /** A resolved block together with the kind of the statement that owns it. */
  datatype Located = Located(parent: ParentKind, block: seq<Stmt>)

  /** The constructor of a statement, ignoring its children. */
  datatype StmtTag = LeafTag(leaf: LeafKind) | AllocaTag | ElemAssignTag | IfTag | ForTag(forKind: ForKind) | WhileTag | FuncTag

  function Tag(s: Stmt): StmtTag {
    match s
    case Leaf(k) => LeafTag(k)
    case TensorAlloca(_) => AllocaTag
    case TensorElemAssign(_, _) => ElemAssignTag
    case If(_, _) => IfTag
    case For(k, _) => ForTag(k)
    case While(_) => WhileTag
    case FuncDef(_, _) => FuncTag
  }

  /** The parent kind a scope bound to one of `s`'s child blocks reports. */
  function KindOf(s: Stmt): ParentKind {
    match s
    case If(_, _) => IfParent
    case For(k, _) => ForParent(k)
    case While(_) => WhileParent
    case FuncDef(_, _) => FuncParent
    case _ => NoParent
  }

  /** The child block of `s` in `slot`, if `s` has one there. */
  function ChildBlock(s: Stmt, slot: Slot): (r: Option<seq<Stmt>>)
    ensures r.Some? ==> KindOf(s) != NoParent
    ensures r.Some? <==> (s.If? && slot != Body) || ((s.For? || s.While? || s.FuncDef?) && slot == Body)
  {
    match (s, slot)
    case (If(t, _), TrueBranch) => Some(t)
    case (If(_, f), FalseBranch) => Some(f)
    case (For(_, b), Body) => Some(b)
    case (While(b), Body) => Some(b)
    case (FuncDef(_, b), Body) => Some(b)
    case _ => None
  }

  /** `s` with the child block in `slot` replaced by `b`. */
  function WithChild(s: Stmt, slot: Slot, b: seq<Stmt>): (r: Stmt)
    requires ChildBlock(s, slot).Some?
    ensures Tag(r) == Tag(s) && KindOf(r) == KindOf(s)
    ensures ChildBlock(r, slot) == Some(b)
    ensures forall other: Slot :: other != slot ==> ChildBlock(r, other) == ChildBlock(s, other)
  {
    match s
    case If(t, f) => if slot == TrueBranch then If(b, f) else If(t, b)
    case For(k, _) => For(k, b)
    case While(_) => While(b)
    case FuncDef(id, _) => FuncDef(id, b)
  }

  /** Resolves `path` from `block`; the empty path is the root block, which has no parent. */
  function Locate(block: seq<Stmt>, path: Path): Option<Located>
    decreases |path|
  {
    if path == [] then Some(Located(NoParent, block))
    else if path[0].index < |block| && ChildBlock(block[path[0].index], path[0].slot).Some? then
      var child := ChildBlock(block[path[0].index], path[0].slot).value;
      if |path| == 1 then Some(Located(KindOf(block[path[0].index]), child))
      else Locate(child, path[1..])
    else None
  }

  /** Appends `s` to the block that `path` addresses, leaving every other statement in place. */
  function AppendAt(block: seq<Stmt>, path: Path, s: Stmt): (r: seq<Stmt>)
    requires Locate(block, path).Some?
    decreases |path|
  {
    if path == [] then block + [s]
    else
      var i := path[0].index;
      var child := ChildBlock(block[i], path[0].slot).value;
      block[i := WithChild(block[i], path[0].slot, AppendAt(child, path[1..], s))]
  }

  /** After an append at `p`, the block at `p` is the old block followed by `s`. */
  lemma {:induction false} AppendAtTarget(block: seq<Stmt>, p: Path, s: Stmt)
    requires Locate(block, p).Some?
    ensures Locate(AppendAt(block, p, s), p)
            == Some(Located(Locate(block, p).value.parent, Locate(block, p).value.block + [s]))
    decreases |p|
  {
    AppendAtOthers(block, p, s, p);
  }

  /**
   * An append at `p` keeps every resolvable path `q` resolvable with the same
   * parent kind and the same statement constructors; the block at `q` grows by
   * one exactly when `q == p`, and is untouched unless `q` is a prefix of `p`.
   */
  lemma {:induction false} AppendAtOthers(block: seq<Stmt>, p: Path, s: Stmt, q: Path)
    requires Locate(block, p).Some? && Locate(block, q).Some?
    ensures Locate(AppendAt(block, p, s), q).Some?
    ensures Locate(AppendAt(block, p, s), q).value.parent == Locate(block, q).value.parent
    ensures q == p ==> Locate(AppendAt(block, p, s), q).value.block == Locate(block, q).value.block + [s]
    ensures q != p ==> |Locate(AppendAt(block, p, s), q).value.block| == |Locate(block, q).value.block|
    ensures forall j :: 0 <= j < |Locate(block, q).value.block| ==>
              Tag(Locate(AppendAt(block, p, s), q).value.block[j]) == Tag(Locate(block, q).value.block[j])
    ensures !(q <= p) ==> Locate(AppendAt(block, p, s), q) == Locate(block, q)
    decreases |q|
  {
    var r := AppendAt(block, p, s);
    if q == [] {
      if p != [] {
        var i := p[0].index;
        assert |r| == |block|;
        forall j | 0 <= j < |block| ensures Tag(r[j]) == Tag(block[j]) {
        }
      }
    } else if p == [] {
      assert r[q[0].index] == block[q[0].index];
      assert Locate(r, q) == Locate(block, q);
    } else {
      var i := p[0].index;
      var child := ChildBlock(block[i], p[0].slot).value;
      var child' := AppendAt(child, p[1..], s);
      assert r[i] == WithChild(block[i], p[0].slot, child');
      if q[0].index != i {
        assert r[q[0].index] == block[q[0].index];
        assert Locate(r, q) == Locate(block, q);
      } else if q[0].slot != p[0].slot {
        assert ChildBlock(r[i], q[0].slot) == ChildBlock(block[i], q[0].slot);
        assert Locate(r, q) == Locate(block, q);
        assert !(q <= p);
      } else {
        assert q[0] == p[0];
        assert ChildBlock(r[i], q[0].slot) == Some(child');
        if |q| == 1 {
          AppendAtOthers(child, p[1..], s, []);
          assert q == p <==> p[1..] == [];
        } else {
          AppendAtOthers(child, p[1..], s, q[1..]);
          assert Locate(r, q) == Locate(child', q[1..]);
          assert q == p <==> q[1..] == p[1..];
          assert q <= p <==> q[1..] <= p[1..];
        }
      }
    }
  }

  /** Extending a resolvable path by one step into a child of its block stays resolvable. */
  lemma {:induction false} LocateExtend(block: seq<Stmt>, p: Path, st: Step)
    requires Locate(block, p).Some?
    requires st.index < |Locate(block, p).value.block|
    requires ChildBlock(Locate(block, p).value.block[st.index], st.slot).Some?
    ensures Locate(block, p + [st]) == Some(Located(
              KindOf(Locate(block, p).value.block[st.index]),
              ChildBlock(Locate(block, p).value.block[st.index], st.slot).value))
    decreases |p|
  {
    if p != [] {
      var child := ChildBlock(block[p[0].index], p[0].slot).value;
      assert (p + [st])[0] == p[0];
      assert (p + [st])[1..] == p[1..] + [st];
      if |p| > 1 {
        LocateExtend(child, p[1..], st);
      } else {
        assert p[1..] == [];
        assert Locate(child, [st]) == Some(Located(KindOf(child[st.index]), ChildBlock(child[st.index], st.slot).value));
      }
    } else {
      assert p + [st] == [st];
    }
  }
}
