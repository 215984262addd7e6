# Taichi frontend core, modelled in Dafny

This project models the part of Taichi's Python-facing core that builds
programs and data layouts. It covers five areas.

- **Scope stack.** This is the global stack of the C++ bindings, driven by the
  `begin_frontend_*`, `end_frontend_*`, `begin_func`/`end_func` and
  `pop_scope` calls while a kernel body is traced.
  - The frontend statement tree is abstract. Leaf statements record only
    which call made them. Compound statements own their child blocks.
  - A scope is the path of the block it is bound to, plus the kind of the
    statement owning that block.
  - `insert_thread_idx_expr` and `insert_patch_idx_expr` search this stack
    for the nearest enclosing for-loop.
- **Local tensors.** `expr_alloca_local_tensor` emits one alloca and then
  one element store per initial value. Each store addresses the row-major
  multi-index of its element, computed with C++ `int` division.
- **`DataType` pickling** of primitive types.
- **The ad-hoc mesh setters.** `create_mesh`, the `set_*` calls and
  `get_num_elements`.
- **SNodes and `FieldsBuilder`.** This part covers:
  - the Python `SNode` wrapper, which adds children of each type with its
    argument normalisation;
  - `place`, `parent`, `path_from_root`, `deactivate_all`,
    `physical_index_position` and `rescale_index`;
  - `FieldsBuilder`, which owns a fresh root, marks itself non-empty on
    each structural call, and refuses every structural call once
    finalized.

Files and modules:

| file | module | what it holds |
|---|---|---|
| `results.dfy` | `Results` | `Option` and `Result` |
| `frontend_ir.dfy` | `FrontendIr` | statements, paths into the block tree, `Locate`, `AppendAt` |
| `scope_stack.dfy` | `ScopeStack` | the builder (root block + scope stack), each call, whole traces |
| `loop_helpers.dfy` | `LoopHelpers` | the enclosing-loop scan, thread and patch index |
| `local_tensor.dfy` | `LocalTensor` | C++ division, unravel/linearise, the alloca |
| `data_type.dfy` | `DataTypes` | primitive ids, pickle and unpickle |
| `mesh.dfy` | `Mesh` | mesh record, the setters, sequences of setter calls |
| `snode_tree.dfy` | `SNodeTree` | the shared SNode arena, ancestors, subtrees |
| `snode.dfy` | `SNodes` | child creation, `parent`, `path_from_root` |
| `snode_place.dfy` | `Placement` | `place` |
| `snode_deactivate.dfy` | `Deactivation` | `deactivate_all` |
| `snode_index.dfy` | `SNodeIndex` | `physical_index_position`, `rescale_index` |
| `fields_builder.dfy` | `FieldsBuilders` | `FieldsBuilder` and sequences of its calls |

Some effects cannot be computed here: kernels, the compiled tree,
warnings and the placements `place` makes on the C++ node. They are
recorded instead, in order, as logs of the calls the core would make.

`begin_frontend_if` only inserts the if-statement
(`export_lang.cpp:726-729`). It pushes no scope. The true and false
branches are opened by `begin_frontend_if_true` and
`begin_frontend_if_false`.

## Model

| member | source | states |
|---|---|---|
| ScopeStack.Insert | taichi/python/export_lang.cpp:743-757 | The statement is appended to the block of the top scope (or to the root block), and the stack is unchanged. Every other block, the root block included, keeps the kinds of its statements in order. Every block off the path to the current one is left exactly as it was. |
| ScopeStack.BeginCompound | taichi/python/export_lang.cpp:690-721 | The loop, while or function statement is appended to the current block. Exactly one scope is then pushed, bound to that statement's empty body one step below the current path. |
| ScopeStack.BeginIfBranch | taichi/python/export_lang.cpp:726-741 | Succeeds exactly when the last statement of the current block is an if-statement. It then pushes one scope bound to that statement's true or false block and leaves the tree untouched. Otherwise it fails with `NotAnIf`. |
| ScopeStack.PopScope | taichi/python/export_lang.cpp:723-724 | Removes exactly the top scope. The tree is untouched and the builder stays well formed. |
| ScopeStack.Apply | taichi/python/export_lang.cpp:690-766 | A traced call fails exactly on a pop of an empty stack (`PopOnEmpty`) or an if-branch with no if-statement (`NotAnIf`). Otherwise the depth changes by +1 for a push, -1 for a pop and 0 for an insert. |
| ScopeStack.ApplyExtends | taichi/python/export_lang.cpp:690-766 | A successful call only pushes onto or pops off the top: the old stack is a prefix of the new one, or the reverse. |
| ScopeStack.RunDepth | taichi/python/export_lang.cpp:690-766 | A successful trace changes the depth by its net push count and never takes a prefix below depth zero. |
| ScopeStack.BranchFreeRun | taichi/python/export_lang.cpp:723-724 | Without if-branch calls, a trace succeeds exactly when no prefix pops more scopes than are open. Any failure is `PopOnEmpty`. |
| ScopeStack.TraceReturnsToEmpty | taichi/python/export_lang.cpp:690-766 | From a fresh trace, any successful call sequence, if-branches included, ends with an empty stack if and only if every push is matched by exactly one pop. |
| ScopeStack.BranchFreeReturnsToEmpty | taichi/python/export_lang.cpp:690-766 | Without if-branch calls, success needs no assumption: a call sequence succeeds and ends with an empty stack if and only if it is balanced. |
| ScopeStack.IfElseTraceBalanced | taichi/python/export_lang.cpp:726-741 | `begin_frontend_if`, the true branch opened and popped, then the false branch opened and popped, is a balanced trace that succeeds and ends with an empty stack. |
| ScopeStack.RunSnoc | taichi/python/export_lang.cpp:690-766 | A successful trace followed by one more call ends where that call takes the trace's result. |
| ScopeStack.ExtraPopRejected | taichi/python/export_lang.cpp:724 | After any successful balanced trace, if-branches included, one more `pop_scope` is rejected with `PopOnEmpty`. |
| ScopeStack.BranchFreeExtraPopRejected | taichi/python/export_lang.cpp:724 | After a balanced trace without if-branch calls, which always succeeds, one more `pop_scope` is rejected with `PopOnEmpty`. |
| ScopeStack.BranchesAfterBeginIf | taichi/python/export_lang.cpp:726-741 | Right after `begin_frontend_if`, both the true and the false branch can be opened, and each is bound to the new if-statement. |
| ScopeStack.RunKeepsEnclosing | taichi/python/export_lang.cpp:690-766 | A trace that never pops below a given scope keeps the scopes beneath it. Every block enclosing it keeps its length and the kinds of its statements. |
| ScopeStack.IfFalseAfterTrueBranch | taichi/python/export_lang.cpp:726-741 | After `begin_frontend_if`, `begin_frontend_if_true`, any balanced body that stays inside the branch, and `pop_scope`, the stack is back where it started. The if-statement is still the last statement of the current block, so `begin_frontend_if_false` succeeds on it. |
| LoopHelpers.NearestForCharacterised | taichi/python/export_lang.cpp:1055-1064 | The scan finds level `k` exactly when `k` holds a for-scope and every scope above it has a parent statement that is not a for-statement. |
| LoopHelpers.FindEnclosingLoop | taichi/python/export_lang.cpp:1055-1064 | The downward walk as written returns the reference answer `NearestFor`. That answer is a level holding a for-statement. |
| LoopHelpers.InsertThreadIdx | taichi/python/export_lang.cpp:1052-1070 | Fails on any arch other than CUDA or CPU, whatever the stack. Otherwise it succeeds, with the `linear_thread_idx` call, exactly when a nearest enclosing for-loop exists. |
| LoopHelpers.InsertPatchIdx | taichi/python/export_lang.cpp:1072-1087 | Succeeds, with the patch-index expression, exactly when the nearest enclosing for-loop is a mesh-for. |
| LoopHelpers.RangeForShadowsMeshFor | taichi/python/export_lang.cpp:1072-1087 | A range-for on top of the stack is the nearest loop, so an outer mesh-for never enables `mesh_patch_idx`. |
| LocalTensor.CDivNonNegative | taichi/python/export_lang.cpp:878-880 | On a non-negative index and a positive extent, C++ `/` and `%` agree with Euclidean division. |
| LocalTensor.ElementIndices | taichi/python/export_lang.cpp:874-883 | The two loops (digits from the last axis, then reversal) compute exactly `Unravel(i, shape)`. |
| LocalTensor.AllocaLocalTensor | taichi/python/export_lang.cpp:866-891 | The current block gains the alloca followed by one store per element, in element order. Store `k` addresses `Unravel(k, shape)`. The scope stack is unchanged. A zero extent is accepted when there are no elements to store. |
| LocalTensor.UnravelInBounds | taichi/python/export_lang.cpp:876-883 | Every index computed for a non-negative element lies inside a positive shape. |
| LocalTensor.LinearizeUnravel | taichi/python/export_lang.cpp:876-883 | Re-linearising the indices of element `i` gives `i` modulo the element count. |
| LocalTensor.RoundTripBelowCount | taichi/python/export_lang.cpp:876-883 | Below the element count, the unravelled index is in bounds and re-linearises to exactly `i`. |
| LocalTensor.LinearizeInRange | taichi/python/export_lang.cpp:876-883 | An in-bounds multi-index linearises to a position below the element count. |
| LocalTensor.UnravelLinearize | taichi/python/export_lang.cpp:876-883 | Every in-bounds multi-index is the unravelling of its own row-major position. |
| DataTypes.Pickle | taichi/python/export_lang.cpp:116-122 | Succeeds exactly on primitive types, giving a one-element tuple that holds a `size_t` code. |
| DataTypes.Unpickle | taichi/python/export_lang.cpp:123-130 | A tuple of the wrong size fails with `InvalidState` before anything else. A non-`size_t` element fails with `CastError`. Success rebuilds a primitive whose code is the single element. |
| DataTypes.CastSizeT | taichi/python/export_lang.cpp:127-128 | The cast succeeds exactly on integers in `[0, 2^64)` and keeps the value. |
| DataTypes.PickleRoundTrip | taichi/python/export_lang.cpp:115-131 | Unpickling the pickle of any primitive type gives the same type back. |
| DataTypes.UnpickleRoundTrip | taichi/python/export_lang.cpp:115-131 | Every accepted state is exactly the pickle of the type it rebuilds. |
| DataTypes.UnpickleAccepts | taichi/python/export_lang.cpp:123-130 | A state is accepted if and only if it is a one-element tuple holding the code of some primitive id. |
| DataTypes.CodeInjective | taichi/python/export_lang.cpp:121 | Distinct primitive ids have distinct codes. |
| Mesh.CreateMesh | taichi/python/export_lang.cpp:1324-1331 | A fresh mesh has no patch count and every map empty. |
| Mesh.MapInsert | taichi/python/export_lang.cpp:1334-1337 | `std::map::insert` adds the key, keeps an existing value for it, and leaves every other key alone. |
| Mesh.SetOwnedOffset | taichi/python/export_lang.cpp:1334-1337 | Inserts into the owned-offset map only, and the first value for a type wins. Nothing else changes. |
| Mesh.SetTotalOffset | taichi/python/export_lang.cpp:1338-1341 | Inserts into the total-offset map only, and the first value wins. Nothing else changes. |
| Mesh.SetNumPatches | taichi/python/export_lang.cpp:1342-1344 | Assigns the patch count and changes nothing else. |
| Mesh.SetNumElements | taichi/python/export_lang.cpp:1346-1349 | Inserts into the element-count map only, and the first value wins. Nothing else changes. |
| Mesh.GetNumElements | taichi/python/export_lang.cpp:1351-1354 | `get_num_elements` returns the count stored for `t`. |
| Mesh.ReadAfterSetNumElements | taichi/python/export_lang.cpp:1346-1354 | Reading a count right after `set_num_elements` gives the new value only if the type had none before; an earlier count is kept, as `std::map::insert` does not overwrite. |
| Mesh.SetPatchMaxElementNum | taichi/python/export_lang.cpp:1356-1361 | Inserts into the per-patch maximum map only, and the first value wins. Nothing else changes. |
| Mesh.SetIndexMapping | taichi/python/export_lang.cpp:1363-1368 | Inserts into the index-mapping map, keyed by (element type, conversion), and the first value wins. Nothing else changes. |
| Mesh.SetRelationFixed | taichi/python/export_lang.cpp:1370-1374 | Inserts a value-only relation, and an existing relation of that type is kept. Nothing else changes. |
| Mesh.SetRelationDynamic | taichi/python/export_lang.cpp:1376-1381 | Inserts a value-and-offset relation, and an existing relation of that type is kept. Nothing else changes. |
| Mesh.FirstNumElementsWins | taichi/python/export_lang.cpp:1346-1349 | Across any sequence of setter calls, a type has an element count exactly when one existed or was set. The count kept is the existing one, else the first one set. |
| Mesh.LastNumPatchesWins | taichi/python/export_lang.cpp:1342-1344 | Across any sequence of setter calls, the patch count is the last one set, else the original. |
| SNodeTree.CreateRoot | python/taichi/_snode/fields_builder.py:37 | A fresh parentless root is appended to the arena, which stays well formed. |
| SNodeTree.AddChild | python/taichi/lang/snode.py:35-37 | A child is appended to the arena and to the end of the parent's child list. The arena stays well formed, and no other node changes. |
| SNodeTree.AncestorDepth | python/taichi/lang/snode.py:179-182 | Walking up exactly the depth of a node ends at a root. Walking further falls off the tree. |
| SNodeTree.DescendsComparable | python/taichi/lang/snode.py:295-299 | Two subtrees containing the same node are nested one in the other. |
| SNodeTree.SiblingsDisjoint | python/taichi/lang/snode.py:295-299 | No node lies in the subtrees of two different children of the same node. |
| SNodes.Normalize | python/taichi/lang/snode.py:33-34 | An integer dimension becomes one extent per axis. A list is kept. |
| SNodes.IntDimsAsList | python/taichi/lang/snode.py:33-37 | Passing an integer dimension adds exactly the child that passing the list repeating it once per axis adds. |
| SNodes.AddContainer | python/taichi/lang/snode.py:23-37 | `dense`, `pointer`, `bitmasked` and `bit_array` add a new last child of `self` of that type, with the given axes and normalised extents. Only `bit_array` records its bit count. |
| SNodes.AddBitStruct | python/taichi/lang/snode.py:99-108 | Adds a new last child of type bit_struct, with no axes and the bit count. |
| SNodes.AddDynamic | python/taichi/lang/snode.py:65-81 | Fails with `AssertionError` exactly when the axis list does not have one element. Otherwise it adds a dynamic child, as the new last child of `self`, whose chunk size defaults to the dimension. |
| SNodes.AddHash | python/taichi/lang/snode.py:55-59 | Always raises. |
| SNodes.Wrap | python/taichi/lang/snode.py:183-187 | `None` stays `None`. Every root-type node becomes the default root object, and any other node becomes its wrapper. |
| SNodes.Parent | python/taichi/lang/snode.py:170-187 | `parent(n)` is the wrapped `n`-th ancestor. It is `None` exactly when `n` exceeds the depth, and the default root object when `n` equals it. |
| SNodes.PathFromRoot | python/taichi/lang/snode.py:189-201 | Fails exactly when `self` is a root other than the default one. Otherwise the path has depth + 1 entries and ends at `self`. Entry `i` is the wrapped ancestor `len - 1 - i` steps up, and the first entry is the default root object. |
| Placement.NormalizeOffset | python/taichi/lang/snode.py:138-141 | `None` becomes the empty tuple, a number a one-element tuple, and a sequence is kept. |
| Placement.PlaceArgs | python/taichi/lang/snode.py:145-153 | The argument loop, recursing into lists, fails exactly when some non-field, non-list argument occurs. It issues exactly the placements of every field member before the first such argument. |
| Placement.Place | python/taichi/lang/snode.py:127-156 | The shared-exponent bracket opens first, then the member placements follow with the normalised offset. The bracket closes only when no argument was rejected. |
| Placement.PlacementsShareOffset | python/taichi/lang/snode.py:145-150 | Every placement carries the same normalised offset, whatever the nesting. |
| Placement.FieldsOnlyPlacesAll | python/taichi/lang/snode.py:145-148 | With only field arguments, nothing fails. The calls are exactly one placement of each member, field by field and in member order, each with the offset. |
| Deactivation.ActionOf | python/taichi/lang/snode.py:301-311 | Pointer and bitmasked nodes get the element-wise kernel, and dynamic nodes get the chunk-list kernel. No other type gets a kernel. |
| Deactivation.DeactivateAll | python/taichi/lang/snode.py:295-311 | Every kernel call goes to `self` or a node created after it. A sparse node's own kernel is the last call, after its children's. A node that is not sparse receives no call. |
| Deactivation.DeactivateAllSound | python/taichi/lang/snode.py:295-311 | Every kernel call goes to a sparse node of the subtree, with that node's own kernel. |
| Deactivation.DeactivateAllComplete | python/taichi/lang/snode.py:295-311 | Every sparse node of the subtree receives its kernel. |
| Deactivation.DeactivateAllPostOrder | python/taichi/lang/snode.py:295-311 | No call is followed by one on the same node or on a node above it, so every subtree is finished before its root. |
| SNodeIndex.PhysicalIndexPosition | python/taichi/lang/snode.py:328-339 | Virtual axis `v` is a key exactly when the physical position at `v` is not -1, and it maps to that position. |
| SNodeIndex.RescaleIndex | python/taichi/lang/snode.py:342-376 | Fails with `ZeroDivisionError` exactly when some common axis pairs a zero extent with a different one. Otherwise each common axis is floor-divided or multiplied by the extent ratio, and later entries are kept. |
| SNodeIndex.GrowThenShrink | python/taichi/lang/snode.py:372-375 | Growing an axis and shrinking it back restores the index. |
| SNodeIndex.GrowInBounds | python/taichi/lang/snode.py:374-375 | Growing an in-range index keeps it inside the larger extent. |
| SNodeIndex.ShrinkInBounds | python/taichi/lang/snode.py:372-373 | Shrinking an in-range index by a whole ratio keeps it inside the smaller extent. |
| FieldsBuilders.Init | python/taichi/_snode/fields_builder.py:36-40 | A new builder owns a fresh root, is neither finalized nor non-empty, and leaves the existing arena in place. |
| FieldsBuilders.Touch | python/taichi/_snode/fields_builder.py:167-169 | Fails with the finalized error exactly on a finalized builder. Otherwise it only clears `empty`. |
| FieldsBuilders.AddContainer | python/taichi/_snode/fields_builder.py:83-95 | On a finalized builder it fails and changes nothing. Otherwise it clears `empty` and adds a child of the root of the requested type. |
| FieldsBuilders.AddBitStruct | python/taichi/_snode/fields_builder.py:117-121 | On a finalized builder it fails and changes nothing. Otherwise it clears `empty` and adds a bit_struct child of the root. |
| FieldsBuilders.AddDynamic | python/taichi/_snode/fields_builder.py:101-108 | On a finalized builder it fails and changes nothing. Otherwise it clears `empty` even when the wrapper then rejects the axis list. |
| FieldsBuilders.Hash | python/taichi/_snode/fields_builder.py:97-99 | Always raises, before the finalized check, and changes nothing. |
| FieldsBuilders.Place | python/taichi/_snode/fields_builder.py:130-137 | On a finalized builder it fails and changes nothing. Otherwise it clears `empty` and logs the root's placement calls. It fails exactly when an argument cannot be placed. |
| FieldsBuilders.LazyGradCall | python/taichi/_snode/fields_builder.py:139-144 | On a finalized builder it fails and changes nothing. Otherwise it clears `empty` and logs one `lazy_grad` on the root. |
| FieldsBuilders.FinalizeWith | python/taichi/_snode/fields_builder.py:157-165 | On a finalized builder it fails. Otherwise it warns exactly when the builder is empty and warnings are wanted, marks the builder finalized, builds the tree once and returns its root. |
| FieldsBuilders.Finalize | python/taichi/_snode/fields_builder.py:146-151 | Builds the tree for execution. It adds a warning exactly when the builder is empty and `raise_warning` is set. |
| FieldsBuilders.FinalizeForAot | python/taichi/_snode/fields_builder.py:153-155 | Builds the tree compile-only and never warns. |
| FieldsBuilders.DeactivateAll | python/taichi/_snode/fields_builder.py:74-81 | On a finalized builder it logs the root's `deactivate_all` kernels. Otherwise it only warns. |
| FieldsBuilders.ApplyFlags | python/taichi/_snode/fields_builder.py:83-169 | One call finalizes the builder exactly when it is a finalize. It clears `empty` exactly when it is structural and the builder is open. Once finalized, only `deactivate_all` succeeds and the tree never changes. |
| FieldsBuilders.RunFlags | python/taichi/_snode/fields_builder.py:83-169 | Over any call sequence, the builder ends finalized exactly when it started so or some call finalizes it. It ends empty exactly when no structural call came while it was open. A finalized tree never changes. |
| FieldsBuilders.ApplyFinalizeCount | python/taichi/_snode/fields_builder.py:157-169 | One call builds the tree once exactly when it is a finalize on an open builder, and otherwise not at all. |
| FieldsBuilders.TreeBuiltAtMostOnce | python/taichi/_snode/fields_builder.py:157-169 | Over any call sequence, the tree is built at most once. It is built exactly when the builder was open and some call finalizes it. |

## Left out

- The C++ side of SNode creation (`SNode::dense` and so on) is not part of this model. A new child is modelled as appended to its parent's child list, with its type, axes, extents and extra argument recorded. Layout, `packed` handling and the per-axis bookkeeping of the C++ node are left out.
- Argument conversion by pybind (a Python object that is not an `int`, an `Expr` and so on) is left out, except for the `size_t` cast in unpickling. Calls are modelled on already converted values.
- The ids of `PrimitiveTypeID` come from a header that is not part of this model. The model uses its own numbering: the order of its `PrimitiveTypeId` datatype (floats, then signed, then unsigned integers, with `unknown` last). This numbering need not match the C++ ids or the order of `primitive_types.py`. Only its injectivity is relied on.
- DataTypes.Unpickle: a code no primitive id has fails with `NoSuchPrimitive`. `PrimitiveType::get` on such a code is not part of this model.
- `TI_ASSERT(primitive)` in the pickler is modelled as the `NotPrimitive` error.
- Mesh.GetNumElements: requires that the element type was set. The source dereferences `find(type)` unchecked, which is undefined behaviour otherwise.
- The initial value of `num_patches` comes from a header that is not part of this model. It is modelled as absent until set.
- The mesh stores SNode pointers. These are modelled as SNode ids.
- The arch list and `arch_is_cpu` are not part of this model. Archs are split into CPU, CUDA and the rest.
- `TI_ERROR_IF` aborts tracing. The model returns an error value instead.
- ScopeStack.BeginIfBranch: `NotAnIf` stands for two different C++ failures. `get_last_stmt()` on an empty block is undefined behaviour, and `as<FrontendIfStmt>` on a statement that is not an if fails its assertion. Both are reported as the same error.
- ScopeStack.PopScope: `pop_scope` and the `end_*` calls call `std::vector::pop_back` unchecked (`export_lang.cpp:724`), which is undefined behaviour on an empty stack. `PopScope` requires a non-empty stack, and only the trace driver `ScopeStack.Apply` reports `PopOnEmpty`.
- `SNode.hash` raises `RuntimeError` and `FieldsBuilder.hash` raises `NotImplementedError`. No hash node is ever created, so hash-node layout is not modelled.
- LocalTensor.AllocaLocalTensor: requires non-zero extents when there are elements. In C++, a zero extent with elements divides by zero, which is undefined behaviour.
- Placement.Place: the `return self` at `snode.py:156` is not modelled. The returned node is the receiver the caller already holds. The model returns only the calls issued and whether a `ValueError` ended the placement.
- Placed fields are never added as children of the forest, although `self.ptr.place` adds a place node in C++ (`snode.py:149`). Placements are only logged as `PlaceVar` calls.
- `FieldsBuilder.finalized_roots`, the `ptr`, `root`, `empty` and `finalized` accessors, and `SNode` properties outside the core (`dtype`, `shape`, `name` and so on) are left out.
- The effect of `lazy_grad` is left out. The model logs the call on the root only.
- The compiled deactivation kernels are left out, and so is the `SNodeTree` built by finalization. Both are logged as calls.
- Warnings are logged, not emitted.
- `rescale_index`'s `isinstance` assertions are left out. Fields and SNodes are given by their shapes, and the index by its entries.
- `rescale_index` converts a list index to a vector; this is left out too.
- The module-level scope-stack calls are modelled. `end_frontend_struct_for` and `end_frontend_mesh_for` exist only as `ASTBuilder` methods (`export_lang.cpp:319-320`, `330-331`), and they pop the same global stack. They are modelled as `EndStructFor` and `EndMeshFor`. At module level those loops are closed by `pop_scope`. The other `ASTBuilder` methods at `export_lang.cpp:279-344` act on the same stack as their module-level twins.
- Expressions, conditions and loop bounds are not tracked. A statement records only its kind.
- The statement tree is held by value and addressed by paths. The C++ code holds it by pointers and owning `unique_ptr`s.
- Threading and the "current program" context are left out. Tracing is single-threaded.
