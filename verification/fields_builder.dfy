/**
 * `FieldsBuilder`: a builder owning a fresh root in the shared SNode arena.
 * Until it is finalized, every structural call first clears the `empty` flag
 * and then delegates to the root; finalizing builds the tree once, warning if
 * nothing was ever added. After finalization every structural call fails and
 * nothing changes.
 */
module FieldsBuilders {
  import opened Results
  import opened SNodeTree
  import SNodes
  import Placement
  import Deactivation

  /** What the builder hands to the compiled side, in order. */
  datatype CoreCall =
    | PlaceOn(node: SNodeId, call: Placement.PlaceCall)
    | LazyGrad(node: SNodeId)
    | Kernel(action: Deactivation.Action)
    | FinalizeTree(root: SNodeId, compileOnly: bool)

  datatype Warning = DeactivateBeforeFinalize | FinalizeEmpty

  datatype FieldsBuilder = FieldsBuilder(
    forest: Forest, root: SNodeId, finalized: bool, empty: bool,
    calls: seq<CoreCall>, warnings: seq<Warning>)

  datatype FbError =
    | AlreadyFinalized                  // TaichiRuntimeError('FieldsBuilder finalized')
    | NotImplemented                    // `hash`
    | Delegate(error: SNodes.SNodeError)
    | CannotPlace                       // ValueError from `place`

  /** What a call returns: the new child, nothing, or the finalized tree's root. */
  datatype Value = NewNode(id: SNodeId) | NoValue | Tree(root: SNodeId)

  /** A call's effect on the builder together with its outcome; a raising call may still have changed the builder. */
  datatype Step = Step(fb: FieldsBuilder, result: Result<Value, FbError>)

  predicate Valid(fb: FieldsBuilder) {
    WellFormed(fb.forest) && fb.root < |fb.forest| && fb.forest[fb.root].kind == Root
  }

  /** `__init__`: a new root, not finalized, empty. */
  function Init(f: Forest): (fb: FieldsBuilder)
    requires WellFormed(f)
    ensures Valid(fb) && !fb.finalized && fb.empty
    ensures fb.root == |f| && fb.forest[..|f|] == f
    ensures fb.calls == [] && fb.warnings == []
  {
    var (g, root) := CreateRoot(f);
    assert g[..|f|] == f;
    FieldsBuilder(g, root, false, true, [], [])
  }

  /** `_check_not_finalized` followed by `_empty = False`: the common prologue of the structural calls. */
  function Touch(fb: FieldsBuilder): (r: Result<FieldsBuilder, FbError>)
    ensures r.Err? <==> fb.finalized
    ensures r.Err? ==> r.error == AlreadyFinalized
    ensures r.Ok? ==> r.value == fb.(empty := false)
  {
    if fb.finalized then Err(AlreadyFinalized) else Ok(fb.(empty := false))
  }

  /** `dense`, `pointer`, `bitmasked`, `bit_array` on the builder's root. */
  function AddContainer(fb: FieldsBuilder, c: SNodes.ContainerType, axes: seq<Axis>, dims: SNodes.Dimensions,
                        numBits: int, packed: bool): (r: Step)
    requires Valid(fb)
    ensures Valid(r.fb)
    ensures fb.finalized ==> r == Step(fb, Err(AlreadyFinalized))
    ensures !fb.finalized ==> r.result == Ok(NewNode(|fb.forest|)) && !r.fb.empty
    ensures !fb.finalized ==> |r.fb.forest| == |fb.forest| + 1
    ensures !fb.finalized ==> r.fb.forest[|fb.forest|].parent == Some(fb.root)
    ensures !fb.finalized ==> r.fb.forest[|fb.forest|].kind == SNodes.KindOf(c)
    ensures r.fb.root == fb.root && r.fb.finalized == fb.finalized && r.fb.calls == fb.calls
  {
    match Touch(fb)
    case Err(e) => Step(fb, Err(e))
    case Ok(t) =>
      var (g, id) := SNodes.AddContainer(t.forest, t.root, c, axes, dims, numBits, packed);
      assert g[t.root].kind == t.forest[t.root].kind;
      Step(t.(forest := g), Ok(NewNode(id)))
  }

  function AddBitStruct(fb: FieldsBuilder, numBits: int, packed: bool): (r: Step)
    requires Valid(fb)
    ensures Valid(r.fb)
    ensures fb.finalized ==> r == Step(fb, Err(AlreadyFinalized))
    ensures !fb.finalized ==> r.result == Ok(NewNode(|fb.forest|)) && !r.fb.empty
    ensures !fb.finalized ==> |r.fb.forest| == |fb.forest| + 1
    ensures !fb.finalized ==> r.fb.forest[|fb.forest|].kind == BitStruct
    ensures r.fb.root == fb.root && r.fb.finalized == fb.finalized && r.fb.calls == fb.calls
  {
    match Touch(fb)
    case Err(e) => Step(fb, Err(e))
    case Ok(t) =>
      var (g, id) := SNodes.AddBitStruct(t.forest, t.root, numBits, packed);
      assert g[t.root].kind == t.forest[t.root].kind;
      Step(t.(forest := g), Ok(NewNode(id)))
  }

  /** `dynamic`: a rejected axis list raises after the builder was already marked non-empty. */
  function AddDynamic(fb: FieldsBuilder, axis: seq<Axis>, dimension: int, chunkSize: Option<int>,
                      packed: bool): (r: Step)
    requires Valid(fb)
    ensures Valid(r.fb)
    ensures fb.finalized ==> r == Step(fb, Err(AlreadyFinalized))
    ensures !fb.finalized ==> !r.fb.empty
    ensures !fb.finalized && |axis| != 1 ==>
              r.result == Err(Delegate(SNodes.AssertionError)) && r.fb == fb.(empty := false)
    ensures !fb.finalized && |axis| == 1 ==> r.result == Ok(NewNode(|fb.forest|))
    ensures r.fb.root == fb.root && r.fb.finalized == fb.finalized && r.fb.calls == fb.calls
  {
    match Touch(fb)
    case Err(e) => Step(fb, Err(e))
    case Ok(t) =>
      match SNodes.AddDynamic(t.forest, t.root, axis, dimension, chunkSize, packed)
      case Err(e) => Step(t, Err(Delegate(e)))
      case Ok((g, id)) =>
        assert g[t.root].kind == t.forest[t.root].kind;
        Step(t.(forest := g), Ok(NewNode(id)))
  }

  /** `hash` raises before looking at the builder, finalized or not. */
  function Hash(fb: FieldsBuilder, axes: seq<Axis>, dims: SNodes.Dimensions): (r: Step)
    ensures r == Step(fb, Err(NotImplemented))
  {
    Step(fb, Err(NotImplemented))
  }

  function PlaceOnAll(node: SNodeId, calls: seq<Placement.PlaceCall>): (r: seq<CoreCall>)
    ensures |r| == |calls| && forall i :: 0 <= i < |r| ==> r[i] == PlaceOn(node, calls[i])
  {
    seq(|calls|, i requires 0 <= i < |calls| => PlaceOn(node, calls[i]))
  }

  /** `place` on the root: the calls are issued even when a later argument is rejected. */
  function Place(fb: FieldsBuilder, args: seq<Placement.Arg>, offset: Placement.OffsetArg,
                 sharedExponent: bool): (r: Step)
    requires Valid(fb)
    ensures Valid(r.fb)
    ensures fb.finalized ==> r == Step(fb, Err(AlreadyFinalized))
    ensures !fb.finalized ==>
              var o := Placement.Place(args, offset, sharedExponent);
              r.fb == fb.(empty := false, calls := fb.calls + PlaceOnAll(fb.root, o.calls)) &&
              (r.result.Err? <==> Placement.OtherArg in Placement.Flatten(args)) &&
              (r.result.Err? ==> r.result.error == CannotPlace)
  {
    match Touch(fb)
    case Err(e) => Step(fb, Err(e))
    case Ok(t) =>
      var o := Placement.Place(args, offset, sharedExponent);
      var t' := t.(calls := t.calls + PlaceOnAll(t.root, o.calls));
      Step(t', if o.failed then Err(CannotPlace) else Ok(NoValue))
  }

  function LazyGradCall(fb: FieldsBuilder): (r: Step)
    requires Valid(fb)
    ensures Valid(r.fb)
    ensures fb.finalized ==> r == Step(fb, Err(AlreadyFinalized))
    ensures !fb.finalized ==> r == Step(fb.(empty := false, calls := fb.calls + [LazyGrad(fb.root)]), Ok(NoValue))
  {
    match Touch(fb)
    case Err(e) => Step(fb, Err(e))
    case Ok(t) => Step(t.(calls := t.calls + [LazyGrad(t.root)]), Ok(NoValue))
  }

  /**
   * `_finalize(raise_warning, compile_only)`: fails on a finalized builder;
   * otherwise warns exactly when the builder is empty and warnings are
   * wanted, marks it finalized and builds the tree.
   */
  function FinalizeWith(fb: FieldsBuilder, raiseWarning: bool, compileOnly: bool): (r: Step)
    requires Valid(fb)
    ensures Valid(r.fb)
    ensures fb.finalized ==> r == Step(fb, Err(AlreadyFinalized))
    ensures !fb.finalized ==> r.result == Ok(Tree(fb.root)) && r.fb.finalized
    ensures !fb.finalized ==> r.fb.calls == fb.calls + [FinalizeTree(fb.root, compileOnly)]
    ensures !fb.finalized ==> r.fb.warnings == fb.warnings + (if fb.empty && raiseWarning then [FinalizeEmpty] else [])
    ensures r.fb.forest == fb.forest && r.fb.empty == fb.empty && r.fb.root == fb.root
  {
    if fb.finalized then Step(fb, Err(AlreadyFinalized))
    else
      var warned := if fb.empty && raiseWarning then fb.warnings + [FinalizeEmpty] else fb.warnings;
      Step(fb.(finalized := true, warnings := warned,
               calls := fb.calls + [FinalizeTree(fb.root, compileOnly)]), Ok(Tree(fb.root)))
  }

  /** `finalize(raise_warning=True)`: a full build. */
  function Finalize(fb: FieldsBuilder, raiseWarning: bool): (r: Step)
    requires Valid(fb)
    ensures !fb.finalized ==> r.fb.calls == fb.calls + [FinalizeTree(fb.root, false)]
    ensures !fb.finalized ==> |r.fb.warnings| == |fb.warnings| + (if fb.empty && raiseWarning then 1 else 0)
    ensures fb.finalized ==> r.result == Err(AlreadyFinalized)
  {
    FinalizeWith(fb, raiseWarning, false)
  }

  /** `_finalize_for_aot`: a compile-only build that never warns. */
  function FinalizeForAot(fb: FieldsBuilder): (r: Step)
    requires Valid(fb)
    ensures !fb.finalized ==> r.fb.calls == fb.calls + [FinalizeTree(fb.root, true)]
    ensures r.fb.warnings == fb.warnings
    ensures fb.finalized ==> r.result == Err(AlreadyFinalized)
  {
    FinalizeWith(fb, false, true)
  }

  function Kernels(actions: seq<Deactivation.Action>): (r: seq<CoreCall>)
    ensures |r| == |actions| && forall i :: 0 <= i < |r| ==> r[i] == Kernel(actions[i])
  {
    seq(|actions|, i requires 0 <= i < |actions| => Kernel(actions[i]))
  }

  /** `deactivate_all`: runs on a finalized tree; before that it only warns. */
  function DeactivateAll(fb: FieldsBuilder): (r: Step)
    requires Valid(fb)
    ensures r.result == Ok(NoValue)
    ensures fb.finalized ==>
              r.fb == fb.(calls := fb.calls + Kernels(Deactivation.DeactivateAll(fb.forest, fb.root)))
    ensures !fb.finalized ==> r.fb == fb.(warnings := fb.warnings + [DeactivateBeforeFinalize])
  {
    if fb.finalized then
      Step(fb.(calls := fb.calls + Kernels(Deactivation.DeactivateAll(fb.forest, fb.root))), Ok(NoValue))
    else Step(fb.(warnings := fb.warnings + [DeactivateBeforeFinalize]), Ok(NoValue))
  }

  // Sequences of calls on one builder; a raised error is caught and the next call made.

  datatype Op =
    | ContainerOp(c: SNodes.ContainerType, axes: seq<Axis>, dims: SNodes.Dimensions, numBits: int)
    | BitStructOp(numBits: int)
    | DynamicOp(axis: seq<Axis>, dimension: int, chunkSize: Option<int>)
    | HashOp(axes: seq<Axis>, dims: SNodes.Dimensions)
    | PlaceOp(args: seq<Placement.Arg>, offset: Placement.OffsetArg, sharedExponent: bool)
    | LazyGradOp
    | FinalizeOp(raiseWarning: bool)
    | FinalizeForAotOp
    | DeactivateAllOp

  /** The calls that begin with `_check_not_finalized(); _empty = False`. */
  predicate Structural(op: Op) {
    op.ContainerOp? || op.BitStructOp? || op.DynamicOp? || op.PlaceOp? || op.LazyGradOp?
  }

  predicate Finalizes(op: Op) {
    op.FinalizeOp? || op.FinalizeForAotOp?
  }

  function Apply(fb: FieldsBuilder, op: Op, packed: bool): (r: Step)
    requires Valid(fb)
    ensures Valid(r.fb)
  {
    match op
    case ContainerOp(c, axes, dims, numBits) => AddContainer(fb, c, axes, dims, numBits, packed)
    case BitStructOp(numBits) => AddBitStruct(fb, numBits, packed)
    case DynamicOp(axis, dimension, chunkSize) => AddDynamic(fb, axis, dimension, chunkSize, packed)
    case HashOp(axes, dims) => Hash(fb, axes, dims)
    case PlaceOp(args, offset, shared) => Place(fb, args, offset, shared)
    case LazyGradOp => LazyGradCall(fb)
    case FinalizeOp(raiseWarning) => FinalizeWith(fb, raiseWarning, false)
    case FinalizeForAotOp => FinalizeWith(fb, false, true)
    case DeactivateAllOp => DeactivateAll(fb)
  }

  /** How one call moves the two flags. */
  lemma ApplyFlags(fb: FieldsBuilder, op: Op, packed: bool)
    requires Valid(fb)
    ensures Apply(fb, op, packed).fb.finalized == (fb.finalized || Finalizes(op))
    ensures Apply(fb, op, packed).fb.empty == (fb.empty && !(Structural(op) && !fb.finalized))
    ensures fb.finalized ==> Apply(fb, op, packed).fb.forest == fb.forest
    ensures fb.finalized ==> (Apply(fb, op, packed).result.Ok? <==> op.DeactivateAllOp?)
  {
  }

  function RunAll(fb: FieldsBuilder, ops: seq<Op>, packed: bool): (r: FieldsBuilder)
    requires Valid(fb)
    ensures Valid(r)
    decreases |ops|
  {
    if ops == [] then fb else RunAll(Apply(fb, ops[0], packed).fb, ops[1..], packed)
  }

  /** Some call before the first finalization touches the builder. */
  predicate TouchedBeforeFinalize(ops: seq<Op>) {
    exists i :: 0 <= i < |ops| && Structural(ops[i]) && OpenBefore(ops, i)
  }

  /** No call before position `i` finalizes. */
  predicate OpenBefore(ops: seq<Op>, i: nat)
    requires i <= |ops|
  {
    forall j :: 0 <= j < i ==> !Finalizes(ops[j])
  }

  predicate EverFinalizes(ops: seq<Op>) {
    exists j :: 0 <= j < |ops| && Finalizes(ops[j])
  }

  /**
   * Over any sequence of calls: the builder ends finalized exactly when it
   * started so or some call finalizes it; it ends empty exactly when it
   * started so and no structural call came while it was still open; and once
   * finalized its tree never changes.
   */
  lemma {:induction false} RunFlags(fb: FieldsBuilder, ops: seq<Op>, packed: bool)
    requires Valid(fb)
    ensures RunAll(fb, ops, packed).finalized == (fb.finalized || EverFinalizes(ops))
    ensures RunAll(fb, ops, packed).empty == (fb.empty && !(!fb.finalized && TouchedBeforeFinalize(ops)))
    ensures fb.finalized ==> RunAll(fb, ops, packed).forest == fb.forest
    decreases |ops|
  {
    if ops != [] {
      var next := Apply(fb, ops[0], packed).fb;
      ApplyFlags(fb, ops[0], packed);
      RunFlags(next, ops[1..], packed);
      FinalizesStep(ops);
      TouchedStep(ops);
    }
  }

  lemma FinalizesStep(ops: seq<Op>)
    requires ops != []
    ensures EverFinalizes(ops) <==> Finalizes(ops[0]) || EverFinalizes(ops[1..])
  {
    if EverFinalizes(ops[1..]) {
      var j :| 0 <= j < |ops[1..]| && Finalizes(ops[1..][j]);
      assert Finalizes(ops[j + 1]);
    }
    if EverFinalizes(ops) && !Finalizes(ops[0]) {
      var j :| 0 <= j < |ops| && Finalizes(ops[j]);
      assert ops[1..][j - 1] == ops[j];
    }
  }

  lemma TouchedStep(ops: seq<Op>)
    requires ops != []
    ensures TouchedBeforeFinalize(ops) <==>
            Structural(ops[0]) || (!Finalizes(ops[0]) && TouchedBeforeFinalize(ops[1..]))
  {
    var tail := ops[1..];
    if TouchedBeforeFinalize(ops) && !Structural(ops[0]) {
      var i :| 0 <= i < |ops| && Structural(ops[i]) && OpenBefore(ops, i);
      assert i > 0;
      assert !Finalizes(ops[0]);
      assert Structural(tail[i - 1]);
      forall j | 0 <= j < i - 1 ensures !Finalizes(tail[j]) {
        assert tail[j] == ops[j + 1];
      }
      assert OpenBefore(tail, i - 1);
    }
    if Structural(ops[0]) {
      assert OpenBefore(ops, 0);
    }
    if !Finalizes(ops[0]) && TouchedBeforeFinalize(tail) {
      var i :| 0 <= i < |tail| && Structural(tail[i]) && OpenBefore(tail, i);
      assert Structural(ops[i + 1]);
      forall j | 0 <= j < i + 1 ensures !Finalizes(ops[j]) {
        if j > 0 {
          assert ops[j] == tail[j - 1];
        }
      }
      assert OpenBefore(ops, i + 1);
    }
  }

  function CountFinalizeTree(calls: seq<CoreCall>): nat {
    if calls == [] then 0
    else (if calls[0].FinalizeTree? then 1 else 0) + CountFinalizeTree(calls[1..])
  }

  lemma {:induction false} CountAppend(a: seq<CoreCall>, b: seq<CoreCall>)
    ensures CountFinalizeTree(a + b) == CountFinalizeTree(a) + CountFinalizeTree(b)
    decreases |a|
  {
    if a == [] {
      assert a + b == b;
    } else {
      assert (a + b)[1..] == a[1..] + b;
      CountAppend(a[1..], b);
    }
  }

  lemma NoFinalizeIn(calls: seq<CoreCall>)
    requires forall i :: 0 <= i < |calls| ==> !calls[i].FinalizeTree?
    ensures CountFinalizeTree(calls) == 0
  {
    if calls != [] {
      NoFinalizeIn(calls[1..]);
    }
  }

  /** Extending a call log by calls that build nothing keeps the count. */
  lemma AppendNoFinalize(calls: seq<CoreCall>, added: seq<CoreCall>)
    requires forall i :: 0 <= i < |added| ==> !added[i].FinalizeTree?
    ensures CountFinalizeTree(calls + added) == CountFinalizeTree(calls)
  {
    NoFinalizeIn(added);
    CountAppend(calls, added);
  }

  /** The calls that grow the tree add nothing to the log. */
  lemma ShapeBuildsNothing(fb: FieldsBuilder, op: Op, packed: bool)
    requires Valid(fb) && (op.ContainerOp? || op.BitStructOp? || op.DynamicOp? || op.HashOp?)
    ensures Apply(fb, op, packed).fb.calls == fb.calls
  {
  }

  /** `place` only adds placement calls to the log: it never builds the tree. */
  lemma PlaceBuildsNothing(fb: FieldsBuilder, op: Op, packed: bool)
    requires Valid(fb) && op.PlaceOp?
    ensures CountFinalizeTree(Apply(fb, op, packed).fb.calls) == CountFinalizeTree(fb.calls)
  {
    if !fb.finalized {
      AppendNoFinalize(fb.calls, PlaceOnAll(fb.root, Placement.Place(op.args, op.offset, op.sharedExponent).calls));
    }
  }

  lemma LazyGradBuildsNothing(fb: FieldsBuilder, op: Op, packed: bool)
    requires Valid(fb) && op.LazyGradOp?
    ensures CountFinalizeTree(Apply(fb, op, packed).fb.calls) == CountFinalizeTree(fb.calls)
  {
    if !fb.finalized {
      AppendNoFinalize(fb.calls, [LazyGrad(fb.root)]);
    }
  }

  /** The deactivation kernels run on the built tree but never build it again. */
  lemma DeactivateBuildsNothing(fb: FieldsBuilder, op: Op, packed: bool)
    requires Valid(fb) && op.DeactivateAllOp?
    ensures CountFinalizeTree(Apply(fb, op, packed).fb.calls) == CountFinalizeTree(fb.calls)
  {
    if fb.finalized {
      AppendNoFinalize(fb.calls, Kernels(Deactivation.DeactivateAll(fb.forest, fb.root)));
    }
  }

  /** Both finalizations build the tree exactly once when the builder is open, and not at all otherwise. */
  lemma FinalizeBuildsOnce(fb: FieldsBuilder, op: Op, packed: bool)
    requires Valid(fb) && Finalizes(op)
    ensures CountFinalizeTree(Apply(fb, op, packed).fb.calls) ==
            CountFinalizeTree(fb.calls) + (if fb.finalized then 0 else 1)
  {
    if !fb.finalized {
      CountAppend(fb.calls, [FinalizeTree(fb.root, op.FinalizeForAotOp?)]);
    }
  }

  /** One call builds the tree at most once, and never on a finalized builder. */
  lemma ApplyFinalizeCount(fb: FieldsBuilder, op: Op, packed: bool)
    requires Valid(fb)
    ensures CountFinalizeTree(Apply(fb, op, packed).fb.calls) ==
            CountFinalizeTree(fb.calls) + (if !fb.finalized && Finalizes(op) then 1 else 0)
  {
    if Finalizes(op) {
      FinalizeBuildsOnce(fb, op, packed);
    } else if op.PlaceOp? {
      PlaceBuildsNothing(fb, op, packed);
    } else if op.LazyGradOp? {
      LazyGradBuildsNothing(fb, op, packed);
    } else if op.DeactivateAllOp? {
      DeactivateBuildsNothing(fb, op, packed);
    } else {
      ShapeBuildsNothing(fb, op, packed);
    }
  }

  /** Over any sequence of calls on a fresh builder, the tree is built at most once. */
  lemma {:induction false} TreeBuiltAtMostOnce(fb: FieldsBuilder, ops: seq<Op>, packed: bool)
    requires Valid(fb)
    ensures CountFinalizeTree(RunAll(fb, ops, packed).calls) ==
            CountFinalizeTree(fb.calls) + (if !fb.finalized && EverFinalizes(ops) then 1 else 0)
    decreases |ops|
  {
    if ops != [] {
      var next := Apply(fb, ops[0], packed).fb;
      ApplyFinalizeCount(fb, ops[0], packed);
      ApplyFlags(fb, ops[0], packed);
      TreeBuiltAtMostOnce(next, ops[1..], packed);
      RunFlags(fb, ops, packed);
      RunFlags(next, ops[1..], packed);
    }
  }
}
