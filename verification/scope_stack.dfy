/**
 * The global scope stack of the Python bindings and the `begin_*` / `end_*` /
 * `pop_scope` calls that drive it. A builder is the root block of the traced
 * body plus the stack; each scope records the kind of the statement that owns
 * its block and the path of that block. Statements are inserted into the block
 * of the top scope, or into the root block when the stack is empty.
 */
module ScopeStack {
  import opened Results
  import opened FrontendIr

  datatype Scope = Scope(parent: ParentKind, path: Path)

  datatype Builder = Builder(root: seq<Stmt>, stack: seq<Scope>)

  /** Misuse that the trace driver reports: popping an empty stack, or opening an if-branch with no if-statement to open. */
  datatype TraceError = PopOnEmpty | NotAnIf

  /** A fresh trace: empty root block, empty stack. */
  const Init: Builder := Builder([], [])

  /** Every scope addresses a real block owned by a statement of the recorded kind. */
  predicate ScopesResolve(b: Builder) {
    forall k :: 0 <= k < |b.stack| ==>
      Locate(b.root, b.stack[k].path).Some? && Locate(b.root, b.stack[k].path).value.parent == b.stack[k].parent
  }

  /** Scopes nest: level `k` is `k + 1` steps deep and extends every scope below it. */
  predicate Nested(stack: seq<Scope>) {
    && (forall k :: 0 <= k < |stack| ==> |stack[k].path| == k + 1)
    && (forall j, k :: 0 <= j <= k < |stack| ==> stack[j].path <= stack[k].path)
  }

  predicate WellFormed(b: Builder) {
    ScopesResolve(b) && Nested(b.stack)
  }

  /** Pushing a scope that resolves and extends the current path by one step keeps the builder well formed. */
  lemma PushWellFormed(b: Builder, top: Scope)
    requires WellFormed(b)
    requires Locate(b.root, top.path).Some? && Locate(b.root, top.path).value.parent == top.parent
    requires |top.path| == |b.stack| + 1 && CurrentPath(b) <= top.path
    ensures WellFormed(Builder(b.root, b.stack + [top]))
  {
    var s := b.stack + [top];
    forall j, k | 0 <= j <= k < |s| ensures s[j].path <= s[k].path {
      if k == |b.stack| && j < k {
        assert b.stack[j].path <= CurrentPath(b);
      }
    }
  }

  function CurrentPath(b: Builder): Path {
    if b.stack == [] then [] else b.stack[|b.stack| - 1].path
  }

  /** The block that `insert` appends to (the role of ASTBuilder's current block). */
  function CurrentBlock(b: Builder): seq<Stmt>
    requires WellFormed(b)
  {
    assert b.stack != [] ==> Locate(b.root, b.stack[|b.stack| - 1].path).Some?;
    Locate(b.root, CurrentPath(b)).value.block
  }

  lemma InitWellFormed()
    ensures WellFormed(Init) && CurrentBlock(Init) == []
  {
  }

  /** `ASTBuilder::insert`: append `s` to the current block; the stack is untouched. */
  function Insert(b: Builder, s: Stmt): (r: Builder)
    requires WellFormed(b)
    ensures WellFormed(r)
    ensures r.stack == b.stack
    ensures CurrentBlock(r) == CurrentBlock(b) + [s]
    ensures Frames(b.root, r.root, CurrentPath(b))
  {
    var p := CurrentPath(b);
    assert b.stack != [] ==> Locate(b.root, b.stack[|b.stack| - 1].path).Some?;
    var r := Builder(AppendAt(b.root, p, s), b.stack);
    forall k | 0 <= k < |b.stack|
      ensures Locate(r.root, b.stack[k].path).Some?
      ensures Locate(r.root, b.stack[k].path).value.parent == b.stack[k].parent
    {
      AppendAtOthers(b.root, p, s, b.stack[k].path);
    }
    forall q | Locate(b.root, q).Some? && q != p
      ensures Keeps(b.root, r.root, q)
      ensures !(q <= p) ==> Locate(r.root, q) == Locate(b.root, q)
    {
      AppendKeepsOthers(b.root, p, s, q);
    }
    AppendAtTarget(b.root, p, s);
    r
  }

  /**
   * An append at `p` turned `before` into `after`: every other block keeps the
   * kinds of its statements, and blocks off the path to `p` are untouched.
   */
  ghost predicate Frames(before: seq<Stmt>, after: seq<Stmt>, p: Path) {
    && (forall q :: Locate(before, q).Some? && q != p ==> Keeps(before, after, q))
    && (forall q :: Locate(before, q).Some? && !(q <= p) ==> Locate(after, q) == Locate(before, q))
  }

  /** The compound statements whose constructor pushes a scope for their body. */
  datatype Compound = RangeForLoop | StructForLoop | MeshForLoop | WhileLoop | Func(funcId: string)

  /** The freshly built compound statement, with an empty body. */
  function Fresh(c: Compound): Stmt {
    match c
    case RangeForLoop => For(RangeFor, [])
    case StructForLoop => For(StructFor, [])
    case MeshForLoop => For(MeshFor, [])
    case WhileLoop => While([])
    case Func(id) => FuncDef(id, [])
  }

  /**
   * `begin_frontend_range_for`, `begin_frontend_struct_for`, `begin_frontend_mesh_for`,
   * `begin_frontend_while` and `begin_func`: insert the statement, then push one
   * scope bound to its body.
   */
  function BeginCompound(b: Builder, c: Compound): (r: Builder)
    requires WellFormed(b)
    ensures WellFormed(r)
    ensures r.root == Insert(b, Fresh(c)).root
    ensures r.stack == b.stack + [Scope(KindOf(Fresh(c)), CurrentPath(b) + [Step(|CurrentBlock(b)|, Body)])]
    ensures Locate(r.root, CurrentPath(b)).Some?
    ensures Locate(r.root, CurrentPath(b)).value.block == CurrentBlock(b) + [Fresh(c)]
    ensures Locate(r.root, CurrentPath(r)) == Some(Located(KindOf(Fresh(c)), []))
  {
    var r1 := Insert(b, Fresh(c));
    var top := Scope(KindOf(Fresh(c)), CurrentPath(b) + [Step(|CurrentBlock(b)|, Body)]);
    FreshBodyResolves(b, c);
    PushWellFormed(r1, top);
    Builder(r1.root, b.stack + [top])
  }

  /** After inserting a fresh compound statement, its (empty) body block is addressable one step below. */
  lemma FreshBodyResolves(b: Builder, c: Compound)
    requires WellFormed(b)
    ensures var r1 := Insert(b, Fresh(c));
            var top := CurrentPath(b) + [Step(|CurrentBlock(b)|, Body)];
            CurrentPath(r1) == CurrentPath(b) &&
            Locate(r1.root, top) == Some(Located(KindOf(Fresh(c)), [])) &&
            |top| == |b.stack| + 1
  {
    var p := CurrentPath(b);
    var cb := CurrentBlock(b);
    var r1 := Insert(b, Fresh(c));
    assert CurrentPath(r1) == p;
    assert b.stack != [] ==> |b.stack[|b.stack| - 1].path| == |b.stack|;
    assert r1.stack != [] ==> Locate(r1.root, r1.stack[|r1.stack| - 1].path).Some?;
    assert Locate(r1.root, p).value.block == cb + [Fresh(c)];
    LocateExtend(r1.root, p, Step(|cb|, Body));
  }

  /** The statement that `get_last_stmt()` returns, when the current block is non-empty. */
  predicate LastIsIf(b: Builder)
    requires WellFormed(b)
  {
    |CurrentBlock(b)| > 0 && CurrentBlock(b)[|CurrentBlock(b)| - 1].If?
  }

  /**
   * `begin_frontend_if_true` / `begin_frontend_if_false`: recover the last statement
   * of the current block as an if-statement and push one scope bound to its true
   * (or false) block. The tree itself is not changed.
   */
  function BeginIfBranch(b: Builder, trueBranch: bool): (r: Result<Builder, TraceError>)
    requires WellFormed(b)
    ensures r.Ok? <==> LastIsIf(b)
    ensures r.Err? ==> r.error == NotAnIf
    ensures r.Ok? ==> WellFormed(r.value) && r.value.root == b.root
    ensures r.Ok? ==>
              var st := Step(|CurrentBlock(b)| - 1, if trueBranch then TrueBranch else FalseBranch);
              r.value.stack == b.stack + [Scope(IfParent, CurrentPath(b) + [st])]
    ensures r.Ok? ==>
              var last := CurrentBlock(b)[|CurrentBlock(b)| - 1];
              Locate(r.value.root, CurrentPath(r.value))
                == Some(Located(IfParent, if trueBranch then last.trueBlock else last.falseBlock))
  {
    if !LastIsIf(b) then Err(NotAnIf)
    else
      var p := CurrentPath(b);
      var cb := CurrentBlock(b);
      var st := Step(|cb| - 1, if trueBranch then TrueBranch else FalseBranch);
      var r := Builder(b.root, b.stack + [Scope(IfParent, p + [st])]);
      assert b.stack != [] ==> Locate(b.root, b.stack[|b.stack| - 1].path).Some?;
      assert b.stack != [] ==> |b.stack[|b.stack| - 1].path| == |b.stack|;
      assert |p| == |b.stack| && p <= p + [st];
      LocateExtend(b.root, p, st);
      assert Locate(b.root, p + [st]) == Some(Located(IfParent, ChildBlock(cb[|cb| - 1], st.slot).value));
      PushWellFormed(b, Scope(IfParent, p + [st]));
      assert CurrentPath(r) == p + [st];
      Ok(r)
  }

  /** `end_frontend_*_for`, `end_func` and `pop_scope`: drop the top scope and nothing else. */
  function PopScope(b: Builder): (r: Builder)
    requires WellFormed(b) && |b.stack| > 0
    ensures WellFormed(r)
    ensures r.root == b.root
    ensures r.stack + [b.stack[|b.stack| - 1]] == b.stack
  {
    Builder(b.root, b.stack[..|b.stack| - 1])
  }

  /** The calls that pop one scope; they differ only in name. */
  datatype EndCall = EndRangeFor | EndStructFor | EndMeshFor | EndFunc(funcId: string) | PopScopeCall

  /** One call of the tracing interface. */
  datatype Op =
    | InsertLeaf(leaf: LeafKind)
    | Begin(compound: Compound)
    | BeginIf
    | BeginBranch(trueBranch: bool)
    | End(call: EndCall)

  /** The change in stack depth an op makes when it succeeds. */
  function Delta(op: Op): int {
    match op
    case InsertLeaf(_) => 0
    case BeginIf => 0
    case Begin(_) => 1
    case BeginBranch(_) => 1
    case End(_) => -1
  }

  /** One traced call. A pop on an empty stack is reported rather than left undefined. */
  function Apply(b: Builder, op: Op): (r: Result<Builder, TraceError>)
    requires WellFormed(b)
    ensures r.Err? <==> (op.End? && |b.stack| == 0) || (op.BeginBranch? && !LastIsIf(b))
    ensures r.Err? ==> r.error == (if op.End? then PopOnEmpty else NotAnIf)
    ensures r.Ok? ==> |r.value.stack| == |b.stack| + Delta(op)
  {
    match op
    case InsertLeaf(k) => Ok(Insert(b, Leaf(k)))
    case Begin(c) => Ok(BeginCompound(b, c))
    case BeginIf => Ok(Insert(b, If([], [])))
    case BeginBranch(t) => BeginIfBranch(b, t)
    case End(_) => if |b.stack| == 0 then Err(PopOnEmpty) else Ok(PopScope(b))
  }

  /** Every successful call leaves the builder well formed. */
  lemma ApplyWellFormed(b: Builder, op: Op)
    requires WellFormed(b)
    ensures Apply(b, op).Ok? ==> WellFormed(Apply(b, op).value)
  {
  }

  /** A successful call only pushes onto or pops off the top of the stack. */
  lemma ApplyExtends(b: Builder, op: Op)
    requires WellFormed(b) && Apply(b, op).Ok?
    ensures if Delta(op) >= 0 then b.stack <= Apply(b, op).value.stack else Apply(b, op).value.stack <= b.stack
  {
  }

  /** Drives a whole trace, stopping at the first misuse. */
  function Run(b: Builder, ops: seq<Op>): (r: Result<Builder, TraceError>)
    requires WellFormed(b)
    ensures r.Ok? ==> WellFormed(r.value)
    decreases |ops|
  {
    if ops == [] then Ok(b)
    else
      ApplyWellFormed(b, ops[0]);
      match Apply(b, ops[0])
      case Err(e) => Err(e)
      case Ok(b') => Run(b', ops[1..])
  }

  /** Net depth change of a trace. */
  function Net(ops: seq<Op>): int
    decreases |ops|
  {
    if ops == [] then 0 else Delta(ops[0]) + Net(ops[1..])
  }

  /** Starting at depth `d`, no prefix of `ops` takes the depth below `lo`. */
  predicate Stays(d: int, lo: int, ops: seq<Op>)
    decreases |ops|
  {
    ops == [] || (d + Delta(ops[0]) >= lo && Stays(d + Delta(ops[0]), lo, ops[1..]))
  }

  predicate NoBranch(ops: seq<Op>) {
    forall i :: 0 <= i < |ops| ==> !ops[i].BeginBranch?
  }

  /** A successful trace changes the depth by its net push count and never pops an empty stack. */
  lemma {:induction false} RunDepth(b: Builder, ops: seq<Op>)
    requires WellFormed(b)
    ensures Run(b, ops).Ok? ==> |Run(b, ops).value.stack| == |b.stack| + Net(ops) && Stays(|b.stack|, 0, ops)
    decreases |ops|
  {
    if ops != [] {
      var a := Apply(b, ops[0]);
      ApplyWellFormed(b, ops[0]);
      if a.Ok? {
        RunDepth(a.value, ops[1..]);
      }
    }
  }

  /** Without if-branch calls, a trace fails exactly when some prefix pops more scopes than it has. */
  lemma {:induction false} BranchFreeRun(b: Builder, ops: seq<Op>)
    requires WellFormed(b) && NoBranch(ops)
    ensures Run(b, ops).Ok? <==> Stays(|b.stack|, 0, ops)
    ensures Run(b, ops).Err? ==> Run(b, ops).error == PopOnEmpty
    decreases |ops|
  {
    RunDepth(b, ops);
    if ops != [] {
      assert !ops[0].BeginBranch?;
      var a := Apply(b, ops[0]);
      ApplyWellFormed(b, ops[0]);
      if a.Ok? {
        assert NoBranch(ops[1..]) by {
          forall i | 0 <= i < |ops[1..]| ensures !ops[1..][i].BeginBranch? {
            assert ops[1..][i] == ops[i + 1];
          }
        }
        BranchFreeRun(a.value, ops[1..]);
      }
    }
  }

  /** Every push matched by exactly one pop. */
  predicate Balanced(ops: seq<Op>) {
    Stays(0, 0, ops) && Net(ops) == 0
  }

  /** From a fresh trace, a successful sequence of calls ends with an empty stack iff its pushes and pops are balanced. */
  lemma TraceReturnsToEmpty(ops: seq<Op>)
    ensures Run(Init, ops).Ok? ==> (Run(Init, ops).value.stack == [] <==> Balanced(ops))
  {
    InitWellFormed();
    RunDepth(Init, ops);
  }

  /** Without if-branch calls success needs no assumption: such a trace ends with an empty stack iff it is balanced. */
  lemma BranchFreeReturnsToEmpty(ops: seq<Op>)
    requires NoBranch(ops)
    ensures (Run(Init, ops).Ok? && Run(Init, ops).value.stack == []) <==> Balanced(ops)
  {
    InitWellFormed();
    BranchFreeRun(Init, ops);
    TraceReturnsToEmpty(ops);
  }

  /** An if with both branches opened and closed is a balanced trace that succeeds and returns to an empty stack. */
  lemma IfElseTraceBalanced()
    ensures var ops := [BeginIf, BeginBranch(true), End(PopScopeCall), BeginBranch(false), End(PopScopeCall)];
            Run(Init, ops).Ok? && Run(Init, ops).value.stack == [] && Balanced(ops)
  {
    var ops := [BeginIf, BeginBranch(true), End(PopScopeCall), BeginBranch(false), End(PopScopeCall)];
    InitWellFormed();
    var b1 := Insert(Init, If([], []));
    BranchesAfterBeginIf(Init);
    var b2 := BeginIfBranch(b1, true).value;
    var b3 := PopScope(b2);
    assert b3 == b1;
    var b4 := BeginIfBranch(b3, false).value;
    assert Run(Init, ops) == Run(b4, ops[4..]);
    assert Run(Init, ops) == Ok(PopScope(b4));
  }

  /** A successful trace extended by one call ends where that call takes the trace's result. */
  lemma {:induction false} RunSnoc(b: Builder, ops: seq<Op>, op: Op)
    requires WellFormed(b) && Run(b, ops).Ok?
    ensures Run(b, ops + [op]) == Apply(Run(b, ops).value, op)
    decreases |ops|
  {
    if ops == [] {
      assert ops + [op] == [op];
      assert [op][1..] == [];
    } else {
      RunStep(b, ops);
      assert (ops + [op])[0] == ops[0];
      assert (ops + [op])[1..] == ops[1..] + [op];
      RunSnoc(Apply(b, ops[0]).value, ops[1..], op);
    }
  }

  /** After a successful balanced trace, one more pop is rejected. */
  lemma ExtraPopRejected(ops: seq<Op>)
    requires Run(Init, ops).Ok? && Balanced(ops)
    ensures Run(Init, ops + [End(PopScopeCall)]) == Err(PopOnEmpty)
  {
    InitWellFormed();
    TraceReturnsToEmpty(ops);
    RunSnoc(Init, ops, End(PopScopeCall));
  }

  /** The branch-free case, where a balanced trace always succeeds. */
  lemma BranchFreeExtraPopRejected(ops: seq<Op>)
    requires NoBranch(ops) && Balanced(ops)
    ensures Run(Init, ops + [End(PopScopeCall)]) == Err(PopOnEmpty)
  {
    InitWellFormed();
    BranchFreeRun(Init, ops);
    ExtraPopRejected(ops);
  }

  /** Right after `begin_frontend_if`, both branches can be opened, each bound to the new if-statement. */
  lemma BranchesAfterBeginIf(b: Builder)
    requires WellFormed(b)
    ensures BeginIfBranch(Insert(b, If([], [])), true).Ok?
    ensures BeginIfBranch(Insert(b, If([], [])), false).Ok?
    ensures CurrentPath(BeginIfBranch(Insert(b, If([], [])), true).value)
            == CurrentPath(b) + [Step(|CurrentBlock(b)|, TrueBranch)]
  {
  }

  /**
   * One call made while the scope at level `d - 1` stays open only appends to
   * blocks strictly below the block at `P`, so that block keeps its length and
   * the kinds of its statements, and the bottom `d` scopes are unchanged.
   */
  lemma ApplyKeepsEnclosing(r: Builder, op: Op, d: nat, P: Path)
    requires WellFormed(r) && 1 <= d <= |r.stack| && |r.stack| + Delta(op) >= d
    requires P <= r.stack[d - 1].path && |P| < |r.stack[d - 1].path|
    requires Locate(r.root, P).Some?
    requires Apply(r, op).Ok?
    ensures r.stack[..d] <= Apply(r, op).value.stack
    ensures Keeps(r.root, Apply(r, op).value.root, P)
  {
    ApplyKeepsStack(r, op, d);
    assert r.stack[d - 1].path <= CurrentPath(r);
    ApplyKeepsTree(r, op, P);
  }

  lemma ApplyKeepsStack(r: Builder, op: Op, d: nat)
    requires WellFormed(r) && d <= |r.stack| && |r.stack| + Delta(op) >= d
    requires Apply(r, op).Ok?
    ensures r.stack[..d] <= Apply(r, op).value.stack
  {
    var r' := Apply(r, op).value;
    ApplyExtends(r, op);
    if Delta(op) < 0 {
      assert r.stack[..d] == r'.stack[..d];
    }
  }

  lemma ApplyKeepsTree(r: Builder, op: Op, P: Path)
    requires WellFormed(r) && P <= CurrentPath(r) && |P| < |CurrentPath(r)|
    requires Locate(r.root, P).Some?
    requires Apply(r, op).Ok?
    ensures Keeps(r.root, Apply(r, op).value.root, P)
  {
    var cp := CurrentPath(r);
    assert Locate(r.root, cp).Some?;
    match op {
      case InsertLeaf(k) =>
        AppendKeepsOthers(r.root, cp, Leaf(k), P);
      case BeginIf =>
        AppendKeepsOthers(r.root, cp, If([], []), P);
      case Begin(c) =>
        AppendKeepsOthers(r.root, cp, Fresh(c), P);
      case BeginBranch(_) =>
      case End(_) =>
    }
  }

  /** Appending at `cp` keeps the statement kinds of every other block, and leaves blocks off the path to `cp` untouched. */
  lemma AppendKeepsOthers(root: seq<Stmt>, cp: Path, s: Stmt, q: Path)
    requires Locate(root, cp).Some? && Locate(root, q).Some? && q != cp
    ensures Keeps(root, AppendAt(root, cp, s), q)
    ensures !(q <= cp) ==> Locate(AppendAt(root, cp, s), q) == Locate(root, q)
  {
    AppendAtOthers(root, cp, s, q);
    assert Tags(Locate(AppendAt(root, cp, s), q).value.block) == Tags(Locate(root, q).value.block);
  }

  /** The kinds of a block's statements, in order. */
  function Tags(block: seq<Stmt>): (t: seq<StmtTag>)
    ensures |t| == |block| && forall j :: 0 <= j < |block| ==> t[j] == Tag(block[j])
  {
    seq(|block|, j requires 0 <= j < |block| => Tag(block[j]))
  }

  /** The block at `P` in `after` holds statements of the same kinds, in the same order, as in `before`. */
  predicate Keeps(before: seq<Stmt>, after: seq<Stmt>, P: Path) {
    Locate(before, P).Some? && Locate(after, P).Some? &&
    Tags(Locate(after, P).value.block) == Tags(Locate(before, P).value.block)
  }

  lemma KeepsTransitive(a: seq<Stmt>, b: seq<Stmt>, c: seq<Stmt>, P: Path)
    requires Keeps(a, b, P) && Keeps(b, c, P)
    ensures Keeps(a, c, P)
  {
  }

  /** A successful trace is a successful first call followed by a successful rest. */
  lemma RunStep(b: Builder, ops: seq<Op>)
    requires WellFormed(b) && ops != [] && Run(b, ops).Ok?
    ensures Apply(b, ops[0]).Ok?
    ensures WellFormed(Apply(b, ops[0]).value)
    ensures Run(b, ops) == Run(Apply(b, ops[0]).value, ops[1..])
  {
    ApplyWellFormed(b, ops[0]);
  }

  /** A trace that never drops below depth `d` leaves the bottom `d` scopes in place. */
  lemma {:induction false} RunKeepsStack(r: Builder, ops: seq<Op>, d: nat)
    requires WellFormed(r) && d <= |r.stack| && Stays(|r.stack|, d, ops)
    requires Run(r, ops).Ok?
    ensures r.stack[..d] <= Run(r, ops).value.stack
    decreases |ops|
  {
    if ops != [] {
      RunStep(r, ops);
      var r1 := Apply(r, ops[0]).value;
      ApplyKeepsStack(r, ops[0], d);
      assert r1.stack[..d] == r.stack[..d];
      RunKeepsStack(r1, ops[1..], d);
    }
  }

  /**
   * `ops` succeeds from `r`, never drops below depth `d`, and `P` is a block
   * strictly enclosing scope `d - 1`.
   */
  predicate Encloses(r: Builder, ops: seq<Op>, d: nat, P: Path) {
    && WellFormed(r) && 1 <= d <= |r.stack| && Stays(|r.stack|, d, ops)
    && P <= r.stack[d - 1].path && |P| < |r.stack[d - 1].path|
    && Locate(r.root, P).Some?
    && Run(r, ops).Ok?
  }

  /** One call of such a trace keeps the block at `P`, and the rest of the trace still qualifies. */
  lemma EnclosesStep(r: Builder, ops: seq<Op>, d: nat, P: Path)
    requires Encloses(r, ops, d, P) && ops != []
    ensures Apply(r, ops[0]).Ok?
    ensures Encloses(Apply(r, ops[0]).value, ops[1..], d, P)
    ensures Keeps(r.root, Apply(r, ops[0]).value.root, P)
    ensures Run(r, ops) == Run(Apply(r, ops[0]).value, ops[1..])
  {
    RunStep(r, ops);
    var r1 := Apply(r, ops[0]).value;
    ApplyKeepsEnclosing(r, ops[0], d, P);
    assert r1.stack[d - 1] == r.stack[..d][d - 1];
    assert |r1.stack| == |r.stack| + Delta(ops[0]);
    StaysTail(|r.stack|, |r1.stack|, d, ops);
  }

  lemma StaysTail(n: int, next: int, lo: int, ops: seq<Op>)
    requires Stays(n, lo, ops) && ops != [] && next == n + Delta(ops[0])
    ensures next >= lo && Stays(next, lo, ops[1..])
  {
  }

  /** Such a trace also keeps the statements of every block strictly enclosing scope `d - 1`. */
  lemma {:induction false} RunKeepsTree(r: Builder, ops: seq<Op>, d: nat, P: Path)
    requires Encloses(r, ops, d, P)
    ensures Keeps(r.root, Run(r, ops).value.root, P)
    decreases |ops|
  {
    if ops != [] {
      EnclosesStep(r, ops, d, P);
      var r1 := Apply(r, ops[0]).value;
      RunKeepsTree(r1, ops[1..], d, P);
      KeepsTransitive(r.root, r1.root, Run(r1, ops[1..]).value.root, P);
    } else {
      assert Keeps(r.root, r.root, P);
    }
  }

  /** The multi-call form of `ApplyKeepsEnclosing`. */
  lemma RunKeepsEnclosing(r: Builder, ops: seq<Op>, d: nat, P: Path)
    requires WellFormed(r) && 1 <= d <= |r.stack| && Stays(|r.stack|, d, ops)
    requires P <= r.stack[d - 1].path && |P| < |r.stack[d - 1].path|
    requires Locate(r.root, P).Some?
    requires Run(r, ops).Ok?
    ensures r.stack[..d] <= Run(r, ops).value.stack
    ensures Keeps(r.root, Run(r, ops).value.root, P)
  {
    RunKeepsStack(r, ops, d);
    RunKeepsTree(r, ops, d, P);
  }

  /**
   * The if-statement protocol: after `begin_frontend_if` and `begin_frontend_if_true`,
   * any successful body that never pops the true-branch scope and ends at the
   * same depth, followed by `pop_scope`, returns to the enclosing block whose last
   * statement is still the if-statement, so `begin_frontend_if_false` succeeds
   * (`BeginIfBranch` is `Ok` exactly when `LastIsIf`) and binds to its false block.
   */
  lemma IfFalseAfterTrueBranch(b: Builder, t: Builder, body: seq<Op>, r: Builder)
    requires WellFormed(b)
    requires BeginIfBranch(Insert(b, If([], [])), true) == Ok(t)
    requires Run(t, body) == Ok(r) && Stays(|t.stack|, |t.stack|, body) && Net(body) == 0
    ensures WellFormed(r) && |r.stack| == |b.stack| + 1
    ensures PopScope(r).stack == b.stack
    ensures |CurrentBlock(PopScope(r))| == |CurrentBlock(b)| + 1
    ensures LastIsIf(PopScope(r))
  {
    var P := CurrentPath(b);
    var n := |b.stack|;
    TrueBranchOpened(b, t);
    RunDepth(t, body);
    RunKeepsEnclosing(t, body, n + 1, P);
    FalseBranchAfterPop(b, t, r);
  }

  /** Popping back to the enclosing block whose last statement is still an if lets `begin_frontend_if_false` open it. */
  lemma FalseBranchAfterPop(b: Builder, t: Builder, r: Builder)
    requires WellFormed(b) && WellFormed(r)
    requires |t.stack| == |b.stack| + 1 && t.stack[..|b.stack|] == b.stack
    requires |r.stack| == |b.stack| + 1 && t.stack[..|b.stack| + 1] <= r.stack
    requires Locate(t.root, CurrentPath(b)).Some?
    requires Locate(t.root, CurrentPath(b)).value.block == CurrentBlock(b) + [If([], [])]
    requires Keeps(t.root, r.root, CurrentPath(b))
    ensures PopScope(r).stack == b.stack
    ensures |CurrentBlock(PopScope(r))| == |CurrentBlock(b)| + 1
    ensures LastIsIf(PopScope(r))
  {
    var cb := CurrentBlock(b);
    var popped := PopScope(r);
    assert popped.stack == r.stack[..|b.stack|];
    assert popped.stack == b.stack;
    assert CurrentPath(popped) == CurrentPath(b);
    assert CurrentBlock(popped) == Locate(r.root, CurrentPath(b)).value.block;
    assert Tags(CurrentBlock(popped))[|cb|] == Tags(cb + [If([], [])])[|cb|];
  }

  /** What `begin_frontend_if` followed by `begin_frontend_if_true` leaves behind. */
  lemma TrueBranchOpened(b: Builder, t: Builder)
    requires WellFormed(b)
    requires BeginIfBranch(Insert(b, If([], [])), true) == Ok(t)
    ensures |t.stack| == |b.stack| + 1 && t.stack[..|b.stack|] == b.stack
    ensures CurrentPath(b) <= t.stack[|b.stack|].path && |CurrentPath(b)| < |t.stack[|b.stack|].path|
    ensures Locate(t.root, CurrentPath(b)).Some?
    ensures Locate(t.root, CurrentPath(b)).value.block == CurrentBlock(b) + [If([], [])]
  {
    var b1 := Insert(b, If([], []));
    var n := |b.stack|;
    assert n > 0 ==> |b.stack[n - 1].path| == n;
    assert CurrentPath(b1) == CurrentPath(b);
    assert t.stack[..n] == b.stack;
  }
}
