/**
 * `insert_thread_idx_expr` and `insert_patch_idx_expr`: helpers that are only
 * meaningful inside a loop. Both walk the scope stack from the top down looking
 * for the nearest enclosing for-statement; the walk stops early at a scope whose
 * block has no parent statement.
 */
module LoopHelpers {
  import opened Results
  import opened FrontendIr
  import opened ScopeStack

  /** Backends, classified as the thread-index check needs them (the full arch list is not part of this model). */
  datatype Arch = CpuArch(name: string) | CudaArch | OtherArch(name: string)

  datatype LoopError =
    | ThreadIdxUnsupportedArch  // "ti.thread_idx() is only available in cuda or cpu context."
    | ThreadIdxOutsideLoop      // "ti.thread_idx() is only valid within loops."
    | PatchIdxOutsideMeshFor    // "ti.mesh_patch_idx() is only valid within mesh-for loops."

  /** The expressions the helpers build. */
  datatype LoopExpr = InternalCall(funcName: string) | MeshPatchIndex

  /**
   * Reference definition of the scan: the level of the nearest scope, from the
   * top down, whose parent statement is a for-statement, unless a scope with no
   * parent statement, or the bottom of the stack, comes first.
   */
  function NearestFor(stack: seq<Scope>): Option<nat>
    decreases |stack|
  {
    if stack == [] then None
    else if stack[|stack| - 1].parent.ForParent? then Some(|stack| - 1)
    else if stack[|stack| - 1].parent == NoParent then None
    else NearestFor(stack[..|stack| - 1])
  }

  /** Level `k` holds a for-scope and every scope above it has a parent that is not a for-statement. */
  predicate IsNearestFor(stack: seq<Scope>, k: int) {
    && 0 <= k < |stack|
    && stack[k].parent.ForParent?
    && forall j :: k < j < |stack| ==> !stack[j].parent.ForParent? && stack[j].parent != NoParent
  }

  /** The scan finds level `k` exactly when `k` is the nearest for-scope with nothing parentless above it. */
  lemma {:induction false} NearestForCharacterised(stack: seq<Scope>, k: int)
    ensures NearestFor(stack) == Some(k) <==> IsNearestFor(stack, k)
    decreases |stack|
  {
    if stack != [] {
      var n := |stack| - 1;
      var below := stack[..n];
      if !stack[n].parent.ForParent? && stack[n].parent != NoParent {
        NearestForCharacterised(below, k);
        if IsNearestFor(stack, k) {
          assert k != n;
          assert IsNearestFor(below, k) by {
            forall j | k < j < |below| ensures !below[j].parent.ForParent? && below[j].parent != NoParent {
              assert below[j] == stack[j];
            }
          }
        }
        if IsNearestFor(below, k) {
          assert IsNearestFor(stack, k) by {
            forall j | k < j < |stack| ensures !stack[j].parent.ForParent? && stack[j].parent != NoParent {
              if j < n { assert below[j] == stack[j]; }
            }
          }
        }
      }
    }
  }

  /**
   * The scan as the bindings write it: start from the top scope's parent
   * statement and step down one level while that statement is not a
   * for-statement, giving up at a null parent or below the bottom level.
   * Returns the level whose parent statement is the loop.
   */
  method FindEnclosingLoop(stack: seq<Scope>) returns (loop: Option<nat>)
    ensures loop == NearestFor(stack)
    ensures loop.Some? ==> loop.value < |stack| && stack[loop.value].parent.ForParent?
  {
    if |stack| == 0 {
      return None;
    }
    var i := |stack| - 1;
    var cur := stack[i].parent;
    assert stack[..i + 1] == stack;
    if cur != NoParent {
      while !cur.ForParent?
        invariant 0 <= i < |stack|
        invariant cur == stack[i].parent && cur != NoParent
        invariant NearestFor(stack) == NearestFor(stack[..i + 1])
        decreases i
      {
        assert stack[..i + 1][..i] == stack[..i];
        if i > 0 {
          i := i - 1;
          cur := stack[i].parent;
        } else {
          cur := NoParent;
        }
        if cur == NoParent {
          break;
        }
      }
    }
    if cur.ForParent? {
      assert stack[..i + 1][i] == stack[i];
      loop := Some(i);
    } else {
      loop := None;
    }
  }

  predicate ThreadIdxArch(arch: Arch) {
    arch.CudaArch? || arch.CpuArch?
  }

  /**
   * `insert_thread_idx_expr`: the arch check comes first and does not depend on
   * the stack; inside a supported arch the call succeeds exactly when the scan
   * finds an enclosing for-statement.
   */
  method InsertThreadIdx(arch: Arch, b: Builder) returns (r: Result<LoopExpr, LoopError>)
    ensures !ThreadIdxArch(arch) ==> r == Err(ThreadIdxUnsupportedArch)
    ensures ThreadIdxArch(arch) ==> (r.Ok? <==> exists k :: IsNearestFor(b.stack, k))
    ensures ThreadIdxArch(arch) && r.Err? ==> r.error == ThreadIdxOutsideLoop
    ensures r.Ok? ==> r.value == InternalCall("linear_thread_idx")
  {
    if !ThreadIdxArch(arch) {
      return Err(ThreadIdxUnsupportedArch);
    }
    var loop := FindEnclosingLoop(b.stack);
    if loop.None? {
      forall k | IsNearestFor(b.stack, k) ensures false {
        NearestForCharacterised(b.stack, k);
      }
      return Err(ThreadIdxOutsideLoop);
    }
    NearestForCharacterised(b.stack, loop.value);
    r := Ok(InternalCall("linear_thread_idx"));
  }

  /**
   * `insert_patch_idx_expr`: the same scan, and the loop it finds must be a
   * mesh-for. An outer mesh-for does not help once a nearer for-statement of
   * another kind is found.
   */
  method InsertPatchIdx(b: Builder) returns (r: Result<LoopExpr, LoopError>)
    ensures r.Ok? <==> exists k :: IsNearestFor(b.stack, k) && b.stack[k].parent == ForParent(MeshFor)
    ensures r.Err? ==> r.error == PatchIdxOutsideMeshFor
    ensures r.Ok? ==> r.value == MeshPatchIndex
  {
    var loop := FindEnclosingLoop(b.stack);
    if loop.None? || b.stack[loop.value].parent != ForParent(MeshFor) {
      forall k | IsNearestFor(b.stack, k) && b.stack[k].parent == ForParent(MeshFor) ensures false {
        NearestForCharacterised(b.stack, k);
      }
      return Err(PatchIdxOutsideMeshFor);
    }
    NearestForCharacterised(b.stack, loop.value);
    r := Ok(MeshPatchIndex);
  }

  /** A scope stack whose top scope belongs to a range-for has that range-for as its nearest loop, whatever lies below. */
  lemma RangeForShadowsMeshFor(below: seq<Scope>, top: Scope)
    requires top.parent == ForParent(RangeFor)
    ensures IsNearestFor(below + [top], |below|)
    ensures forall k :: IsNearestFor(below + [top], k) ==> (below + [top])[k].parent != ForParent(MeshFor)
  {
    forall k | IsNearestFor(below + [top], k) ensures (below + [top])[k].parent != ForParent(MeshFor) {
      NearestForCharacterised(below + [top], k);
      NearestForCharacterised(below + [top], |below|);
    }
  }
}
