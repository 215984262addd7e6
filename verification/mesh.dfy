/**
 * The ad-hoc mesh setters of the bindings. Each per-key setter inserts into a
 * `std::map`, and `std::map::insert` keeps an existing entry: the first value
 * set for a key wins. `set_num_patches` assigns, so the last value wins.
 */
module Mesh {
  import opened Results

  datatype ElementType = Vertex | Edge | Face | Cell
  datatype ConvType = LocalToGlobal | LocalToReordered | GlobalToReordered
  /** A relation between two element types, e.g. vertex-to-face. */
  datatype RelationType = RelationType(from: ElementType, to: ElementType)

  /** An SNode handle, by identity. */
  type SNodeId = nat
  type Int32 = x: int | -0x8000_0000 <= x < 0x8000_0000

  /** A fixed relation stores only its value field; a dynamic one also stores an offset field. */
  datatype LocalRelation = Fixed(value: SNodeId) | Dynamic(value: SNodeId, offset: SNodeId)

  datatype MeshData = MeshData(
    numPatches: Option<Int32>,
    numElements: map<ElementType, Int32>,
    patchMaxElementNum: map<ElementType, Int32>,
    ownedOffset: map<ElementType, SNodeId>,
    totalOffset: map<ElementType, SNodeId>,
    indexMapping: map<(ElementType, ConvType), SNodeId>,
    relations: map<RelationType, LocalRelation>)

  /** `create_mesh`: a fresh mesh with nothing set. */
  function CreateMesh(): (m: MeshData)
    ensures m.numPatches.None?
    ensures m.numElements == map[] && m.patchMaxElementNum == map[]
    ensures m.ownedOffset == map[] && m.totalOffset == map[]
    ensures m.indexMapping == map[] && m.relations == map[]
  {
    MeshData(None, map[], map[], map[], map[], map[], map[])
  }

  /** `std::map::insert`: adds the pair only when the key is absent. */
  function MapInsert<K, V>(m: map<K, V>, k: K, v: V): (r: map<K, V>)
    ensures r.Keys == m.Keys + {k}
    ensures k in m ==> r[k] == m[k]
    ensures k !in m ==> r[k] == v
    ensures forall j :: j in m && j != k ==> r[j] == m[j]
  {
    if k in m then m else m[k := v]
  }

  function SetOwnedOffset(m: MeshData, t: ElementType, snode: SNodeId): (r: MeshData)
    ensures r.ownedOffset == MapInsert(m.ownedOffset, t, snode)
    ensures r == m.(ownedOffset := r.ownedOffset)
  {
    m.(ownedOffset := MapInsert(m.ownedOffset, t, snode))
  }

  function SetTotalOffset(m: MeshData, t: ElementType, snode: SNodeId): (r: MeshData)
    ensures r.totalOffset == MapInsert(m.totalOffset, t, snode)
    ensures r == m.(totalOffset := r.totalOffset)
  {
    m.(totalOffset := MapInsert(m.totalOffset, t, snode))
  }

  /** The one plain assignment among the setters. */
  function SetNumPatches(m: MeshData, n: Int32): (r: MeshData)
    ensures r.numPatches == Some(n)
    ensures r == m.(numPatches := r.numPatches)
  {
    m.(numPatches := Some(n))
  }

  function SetNumElements(m: MeshData, t: ElementType, n: Int32): (r: MeshData)
    ensures r.numElements == MapInsert(m.numElements, t, n)
    ensures r == m.(numElements := r.numElements)
  {
    m.(numElements := MapInsert(m.numElements, t, n))
  }

  /** `get_num_elements` dereferences `find(type)` unchecked, so the key must have been set. */
  function GetNumElements(m: MeshData, t: ElementType): (n: Int32)
    requires t in m.numElements
    ensures n == m.numElements[t]
  {
    m.numElements[t]
  }

  /** Reading a count back after setting it: the new value only when the type had none before. */
  lemma ReadAfterSetNumElements(m: MeshData, t: ElementType, n: Int32)
    ensures t in SetNumElements(m, t, n).numElements
    ensures GetNumElements(SetNumElements(m, t, n), t) ==
            if t in m.numElements then GetNumElements(m, t) else n
  {
  }

  function SetPatchMaxElementNum(m: MeshData, t: ElementType, n: Int32): (r: MeshData)
    ensures r.patchMaxElementNum == MapInsert(m.patchMaxElementNum, t, n)
    ensures r == m.(patchMaxElementNum := r.patchMaxElementNum)
  {
    m.(patchMaxElementNum := MapInsert(m.patchMaxElementNum, t, n))
  }

  function SetIndexMapping(m: MeshData, t: ElementType, conv: ConvType, snode: SNodeId): (r: MeshData)
    ensures r.indexMapping == MapInsert(m.indexMapping, (t, conv), snode)
    ensures r == m.(indexMapping := r.indexMapping)
  {
    m.(indexMapping := MapInsert(m.indexMapping, (t, conv), snode))
  }

  function SetRelationFixed(m: MeshData, rel: RelationType, value: SNodeId): (r: MeshData)
    ensures r.relations == MapInsert(m.relations, rel, Fixed(value))
    ensures r == m.(relations := r.relations)
  {
    m.(relations := MapInsert(m.relations, rel, Fixed(value)))
  }

  function SetRelationDynamic(m: MeshData, rel: RelationType, value: SNodeId, offset: SNodeId): (r: MeshData)
    ensures r.relations == MapInsert(m.relations, rel, Dynamic(value, offset))
    ensures r == m.(relations := r.relations)
  {
    m.(relations := MapInsert(m.relations, rel, Dynamic(value, offset)))
  }

  /** A mesh-setting call, for reasoning about sequences of calls. */
  datatype SetCall =
    | OwnedOffset(t: ElementType, snode: SNodeId)
    | TotalOffset(t: ElementType, snode: SNodeId)
    | NumPatches(n: Int32)
    | NumElements(t: ElementType, n: Int32)
    | PatchMaxElementNum(t: ElementType, n: Int32)
    | IndexMapping(t: ElementType, conv: ConvType, snode: SNodeId)
    | RelationFixed(rel: RelationType, value: SNodeId)
    | RelationDynamic(rel: RelationType, value: SNodeId, offset: SNodeId)

  function ApplyCall(m: MeshData, c: SetCall): MeshData {
    match c
    case OwnedOffset(t, s) => SetOwnedOffset(m, t, s)
    case TotalOffset(t, s) => SetTotalOffset(m, t, s)
    case NumPatches(n) => SetNumPatches(m, n)
    case NumElements(t, n) => SetNumElements(m, t, n)
    case PatchMaxElementNum(t, n) => SetPatchMaxElementNum(m, t, n)
    case IndexMapping(t, conv, s) => SetIndexMapping(m, t, conv, s)
    case RelationFixed(rel, v) => SetRelationFixed(m, rel, v)
    case RelationDynamic(rel, v, o) => SetRelationDynamic(m, rel, v, o)
  }

  function ApplyCalls(m: MeshData, cs: seq<SetCall>): MeshData
    decreases |cs|
  {
    if cs == [] then m else ApplyCalls(ApplyCall(m, cs[0]), cs[1..])
  }

  /** Reference: the element count recorded for `t` after `cs`: the existing one, else the first one set. */
  function FirstNumElements(m: MeshData, cs: seq<SetCall>, t: ElementType): Option<Int32> {
    if t in m.numElements then Some(m.numElements[t]) else FirstNumElementsCall(cs, t)
  }

  function FirstNumElementsCall(cs: seq<SetCall>, t: ElementType): Option<Int32>
    decreases |cs|
  {
    if cs == [] then None
    else if cs[0].NumElements? && cs[0].t == t then Some(cs[0].n)
    else FirstNumElementsCall(cs[1..], t)
  }

  /** Reference: the patch count after `cs`: the last one set, else the existing one. */
  function LastNumPatches(m: MeshData, cs: seq<SetCall>): Option<Int32>
    decreases |cs|
  {
    if cs == [] then m.numPatches
    else if cs[|cs| - 1].NumPatches? then Some(cs[|cs| - 1].n)
    else LastNumPatches(m, cs[..|cs| - 1])
  }

  lemma ApplyCallsSnoc(m: MeshData, cs: seq<SetCall>, c: SetCall)
    ensures ApplyCalls(m, cs + [c]) == ApplyCall(ApplyCalls(m, cs), c)
    decreases |cs|
  {
    if cs != [] {
      assert (cs + [c])[1..] == cs[1..] + [c];
      ApplyCallsSnoc(ApplyCall(m, cs[0]), cs[1..], c);
    }
  }

  /** One call changes the element counts only when it sets one for a type not yet present. */
  lemma NumElementsStep(m: MeshData, c: SetCall)
    ensures ApplyCall(m, c).numElements ==
            if c.NumElements? then MapInsert(m.numElements, c.t, c.n) else m.numElements
  {
  }

  /** Across any sequence of setter calls, the first element count set for a type is the one kept. */
  lemma {:induction false} FirstNumElementsWins(m: MeshData, cs: seq<SetCall>, t: ElementType)
    ensures var r := ApplyCalls(m, cs);
            (t in r.numElements <==> FirstNumElements(m, cs, t).Some?) &&
            (t in r.numElements ==> r.numElements[t] == FirstNumElements(m, cs, t).value)
    decreases |cs|
  {
    if cs != [] {
      var m' := ApplyCall(m, cs[0]);
      NumElementsStep(m, cs[0]);
      FirstNumElementsWins(m', cs[1..], t);
      if t in m.numElements {
        assert m'.numElements[t] == m.numElements[t];
      } else if cs[0].NumElements? && cs[0].t == t {
        assert m'.numElements[t] == cs[0].n;
      } else {
        assert t !in m'.numElements;
      }
    }
  }

  /** Only `set_num_patches` changes the patch count, and it always does. */
  lemma NumPatchesStep(m: MeshData, c: SetCall)
    ensures ApplyCall(m, c).numPatches == if c.NumPatches? then Some(c.n) else m.numPatches
  {
  }

  /** Across any sequence of setter calls, the last patch count set is the one kept. */
  lemma {:induction false} LastNumPatchesWins(m: MeshData, cs: seq<SetCall>)
    ensures ApplyCalls(m, cs).numPatches == LastNumPatches(m, cs)
    decreases |cs|
  {
    if cs != [] {
      var n := |cs| - 1;
      assert cs == cs[..n] + [cs[n]];
      ApplyCallsSnoc(m, cs[..n], cs[n]);
      LastNumPatchesWins(m, cs[..n]);
      NumPatchesStep(ApplyCalls(m, cs[..n]), cs[n]);
    }
  }
}
