/**
 * The Python-side `SNode` wrapper: adding children of each type with the
 * argument normalisation the wrapper performs, walking up the tree with
 * `parent(n)`, and listing `path_from_root`.
 */
module SNodes {
  import opened Results
  import opened SNodeTree

  /** The `dimensions` argument: one extent for every axis, or one per axis. */
  datatype Dimensions = IntDims(n: int) | ListDims(extents: seq<int>)

  datatype SNodeError =
    | AssertionError          // `dynamic` given other than exactly one axis
    | HashNotSupported        // RuntimeError('hash not yet supported')
    | AttributeError          // `path_from_root` walked past the top of the tree

  /** `if isinstance(dimensions, int): dimensions = [dimensions] * len(axes)`. */
  function Normalize(d: Dimensions, axes: seq<Axis>): (r: seq<int>)
    ensures d.IntDims? ==> |r| == |axes| && forall i :: 0 <= i < |r| ==> r[i] == d.n
    ensures d.ListDims? ==> r == d.extents
  {
    match d
    case IntDims(n) => seq(|axes|, _ => n)
    case ListDims(e) => e
  }

  /** The four container types that take `(axes, dimensions)`. */
  datatype ContainerType = DenseType | PointerType | BitmaskedType | BitArrayType

  function KindOf(c: ContainerType): SNodeType {
    match c
    case DenseType => Dense
    case PointerType => Pointer
    case BitmaskedType => Bitmasked
    case BitArrayType => BitArray
  }

  /**
   * `dense`, `pointer`, `bitmasked` and `bit_array`: a new last child of
   * `self` with one extent per axis; `numBits` is used by `bit_array` only.
   */
  function AddContainer(f: Forest, self: SNodeId, c: ContainerType, axes: seq<Axis>, dims: Dimensions,
                        numBits: int, packed: bool): (r: (Forest, SNodeId))
    requires WellFormed(f) && self < |f|
    ensures WellFormed(r.0) && r.1 == |f| && |r.0| == |f| + 1
    ensures r.0[r.1].kind == KindOf(c) && r.0[r.1].parent == Some(self)
    ensures r.0[r.1].config.axes == axes && r.0[r.1].config.extents == Normalize(dims, axes)
    ensures r.0[r.1].config.extra == (if c == BitArrayType then NumBits(numBits) else NoExtra)
    ensures r.0[self].children == f[self].children + [r.1]
  {
    var extra := if c == BitArrayType then NumBits(numBits) else NoExtra;
    AddChild(f, self, KindOf(c), Config(axes, Normalize(dims, axes), extra, packed))
  }

  /** An integer dimension is shorthand for the list repeating it once per axis: both add the same child. */
  lemma IntDimsAsList(f: Forest, self: SNodeId, c: ContainerType, axes: seq<Axis>, n: int, extents: seq<int>,
                      numBits: int, packed: bool)
    requires WellFormed(f) && self < |f|
    requires |extents| == |axes| && forall i :: 0 <= i < |extents| ==> extents[i] == n
    ensures AddContainer(f, self, c, axes, IntDims(n), numBits, packed)
            == AddContainer(f, self, c, axes, ListDims(extents), numBits, packed)
  {
    assert Normalize(IntDims(n), axes) == extents;
  }

  /** `bit_struct(num_bits)`: a new last child with no axes. */
  function AddBitStruct(f: Forest, self: SNodeId, numBits: int, packed: bool): (r: (Forest, SNodeId))
    requires WellFormed(f) && self < |f|
    ensures WellFormed(r.0) && r.1 == |f| && |r.0| == |f| + 1
    ensures r.0[r.1].kind == BitStruct && r.0[r.1].parent == Some(self)
    ensures r.0[r.1].config.extra == NumBits(numBits) && r.0[r.1].config.axes == []
    ensures r.0[self].children == f[self].children + [r.1]
  {
    AddChild(f, self, BitStruct, Config([], [], NumBits(numBits), packed))
  }

  /**
   * `dynamic(axis, dimension, chunk_size=None)`: exactly one axis is required;
   * the chunk size defaults to the dimension.
   */
  function AddDynamic(f: Forest, self: SNodeId, axis: seq<Axis>, dimension: int, chunkSize: Option<int>,
                      packed: bool): (r: Result<(Forest, SNodeId), SNodeError>)
    requires WellFormed(f) && self < |f|
    ensures r.Err? <==> |axis| != 1
    ensures r.Err? ==> r.error == AssertionError
    ensures r.Ok? ==> WellFormed(r.value.0) && r.value.1 == |f| && |r.value.0| == |f| + 1
    ensures r.Ok? ==> r.value.0[r.value.1].kind == Dynamic && r.value.0[r.value.1].parent == Some(self)
    ensures r.Ok? ==> r.value.0[r.value.1].config.axes == axis
    ensures r.Ok? ==> r.value.0[r.value.1].config.extents == [dimension]
    ensures r.Ok? ==> r.value.0[r.value.1].config.extra ==
                      ChunkSize(if chunkSize.Some? then chunkSize.value else dimension)
    ensures r.Ok? ==> r.value.0[self].children == f[self].children + [r.value.1]
  {
    if |axis| != 1 then Err(AssertionError)
    else
      var chunk := if chunkSize.None? then dimension else chunkSize.value;
      Ok(AddChild(f, self, Dynamic, Config([axis[0]], [dimension], ChunkSize(chunk), packed)))
  }

  /** `hash` is not supported: it raises whatever the arguments are. */
  function AddHash(f: Forest, axes: seq<Axis>, dims: Dimensions): (r: Result<(Forest, SNodeId), SNodeError>)
    ensures r == Err(HashNotSupported)
  {
    Err(HashNotSupported)
  }

  /** A Python value standing for a node: `None`, the default root object `ti.root`, or a wrapper. */
  datatype NodeRef = NoneRef | RootRef | Wrapper(ptr: SNodeId)

  /** How `parent` hands a node back: any root-type node becomes `ti.root`. */
  function Wrap(f: Forest, p: Option<SNodeId>): (r: NodeRef)
    requires forall q :: p == Some(q) ==> q < |f|
    ensures r.NoneRef? <==> p.None?
    ensures r.RootRef? <==> p.Some? && f[p.value].kind == Root
    ensures p.Some? && f[p.value].kind != Root ==> r == Wrapper(p.value)
  {
    match p
    case None => NoneRef
    case Some(q) => if f[q].kind == Root then RootRef else Wrapper(q)
  }

  /**
   * `parent(n=1)`: follow `n` parent links, stopping early at the top of the
   * tree.
   */
  method Parent(f: Forest, self: SNodeId, n: int) returns (r: NodeRef)
    requires WellFormed(f) && self < |f|
    ensures r == Wrap(f, Ancestor(f, self, n))
    ensures r.NoneRef? <==> n > Depth(f, self)
    ensures n == Depth(f, self) ==> r == RootRef
  {
    var p: Option<SNodeId> := Some(self);
    var k := n;
    while p.Some? && k > 0
      invariant p.Some? ==> p.value < |f|
      invariant Ancestor(f, self, n) == if p.Some? then Ancestor(f, p.value, k) else None
      decreases if p.Some? then p.value + 1 else 0
    {
      p := f[p.value].parent;
      k := k - 1;
    }
    AncestorDepth(f, self, n);
    r := Wrap(f, p);
  }

  /** `SNode.__ne__` against `ti.root`: wrappers compare by pointer; `None` never equals it. */
  predicate IsDefaultRoot(r: NodeRef, defaultRoot: SNodeId) {
    r.RootRef? || (r.Wrapper? && r.ptr == defaultRoot)
  }

  /**
   * `path_from_root`: starting from `self`, append `parent()` until the value
   * equals `ti.root`, then reverse. A node below any root ends its walk at
   * `ti.root`; a root other than the default one has no parent, so the walk
   * reaches `None` and fails calling `parent` on it.
   */
  function PathFromRoot(f: Forest, defaultRoot: SNodeId, self: SNodeId): (r: Result<seq<NodeRef>, SNodeError>)
    requires WellFormed(f) && self < |f| && defaultRoot < |f| && f[defaultRoot].kind == Root
    ensures r.Err? <==> f[self].kind == Root && self != defaultRoot
    ensures r.Err? ==> r.error == AttributeError
    ensures r.Ok? ==> |r.value| == Depth(f, self) + 1
    ensures r.Ok? ==> r.value[|r.value| - 1] == Wrapper(self)
    ensures r.Ok? && self != defaultRoot ==> r.value[0] == RootRef
    ensures r.Ok? ==> forall i :: 0 < i < |r.value| ==> r.value[i] == Wrap(f, Ancestor(f, self, |r.value| - 1 - i))
    decreases self
  {
    if self == defaultRoot then Ok([Wrapper(self)])
    else match f[self].parent
      case None => Err(AttributeError)
      case Some(q) =>
        if f[q].kind == Root then Ok([RootRef, Wrapper(self)])
        else
          match PathFromRoot(f, defaultRoot, q)
          case Err(e) => Err(e)
          case Ok(up) => Ok(up + [Wrapper(self)])
  }
}
