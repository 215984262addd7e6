/**
 * Index helpers of `snode.py`: the virtual-to-physical axis map of a node, and
 * `rescale_index`, which converts a loop index over one field's shape into an
 * index over another's, axis by axis, by the ratio of their extents.
 */
module SNodeIndex {
  import opened Results

  /** The physical axis for each virtual axis, or -1 where the virtual axis is not used. */
  method PhysicalIndexPosition(positions: seq<int>) returns (r: map<nat, int>)
    ensures forall v :: v in r <==> 0 <= v < |positions| && positions[v] != -1
    ensures forall v :: v in r ==> r[v] == positions[v]
  {
    r := map[];
    var v := 0;
    while v < |positions|
      invariant 0 <= v <= |positions|
      invariant forall u :: u in r <==> 0 <= u < v && positions[u] != -1
      invariant forall u :: u in r ==> r[u] == positions[u]
    {
      if positions[v] != -1 {
        r := r[v := positions[v]];
      }
      v := v + 1;
    }
  }

  datatype RescaleError = ZeroDivisionError

  /** An axis can be rescaled unless the smaller of two different extents is zero (Python's `//` then raises). */
  predicate Rescalable(a: nat, b: nat) {
    a == b || (a > 0 && b > 0)
  }

  /**
   * One axis: shrinking divides by the ratio of extents, growing multiplies by
   * it; Python's `//` floors, which for a positive divisor is Dafny's `/`.
   */
  function RescaleEntry(x: int, a: nat, b: nat): int
    requires Rescalable(a, b)
  {
    if a > b then x / (a / b)
    else if a < b then x * (b / a)
    else x
  }

  function MinLen(idx: seq<int>, a: seq<nat>, b: seq<nat>): nat {
    var m := if |a| < |b| then |a| else |b|;
    if |idx| < m then |idx| else m
  }

  /**
   * `rescale_index(a, b, I)`: the axes common to `I` and both shapes are
   * rescaled; any further entries of `I` are kept.
   */
  method RescaleIndex(a: seq<nat>, b: seq<nat>, idx: seq<int>) returns (r: Result<seq<int>, RescaleError>)
    ensures r.Err? <==> exists n :: 0 <= n < MinLen(idx, a, b) && !Rescalable(a[n], b[n])
    ensures r.Ok? ==> |r.value| == |idx|
    ensures r.Ok? ==> forall n :: 0 <= n < MinLen(idx, a, b) ==> r.value[n] == RescaleEntry(idx[n], a[n], b[n])
    ensures r.Ok? ==> forall n :: MinLen(idx, a, b) <= n < |idx| ==> r.value[n] == idx[n]
  {
    var m := MinLen(idx, a, b);
    var entries := idx;
    var n := 0;
    while n < m
      invariant 0 <= n <= m
      invariant |entries| == |idx|
      invariant forall k :: 0 <= k < n ==> Rescalable(a[k], b[k]) && entries[k] == RescaleEntry(idx[k], a[k], b[k])
      invariant forall k :: n <= k < |idx| ==> entries[k] == idx[k]
    {
      if a[n] > b[n] {
        if b[n] == 0 {
          return Err(ZeroDivisionError);
        }
        entries := entries[n := idx[n] / (a[n] / b[n])];
      }
      if a[n] < b[n] {
        if a[n] == 0 {
          return Err(ZeroDivisionError);
        }
        entries := entries[n := idx[n] * (b[n] / a[n])];
      }
      n := n + 1;
    }
    r := Ok(entries);
  }

  lemma MulMonotone(x: int, y: int, k: int)
    requires k >= 0
    ensures x <= y ==> x * k <= y * k
  {
    assert y * k - x * k == (y - x) * k;
  }

  /** Division is determined by any quotient/remainder decomposition. */
  lemma DivUnique(n: int, d: int, q: int, r: int)
    requires d > 0 && n == q * d + r && 0 <= r < d
    ensures n / d == q
  {
    var q' := n / d;
    var r' := n % d;
    assert (q' - q) * d == r - r';
    MulMonotone(1, q' - q, d);
    MulMonotone(q' - q, -1, d);
  }

  lemma RatioPositive(small: nat, large: nat)
    requires 0 < small <= large
    ensures large / small >= 1
  {
    var k := large / small;
    assert large == k * small + large % small;
    MulMonotone(k, 0, small);
  }

  /** Growing an axis and shrinking it back restores the index. */
  lemma GrowThenShrink(x: int, a: nat, b: nat)
    requires 0 < a < b
    ensures RescaleEntry(RescaleEntry(x, a, b), b, a) == x
  {
    var k := b / a;
    RatioPositive(a, b);
    DivUnique(x * k, k, x, 0);
  }

  /** Growing an in-range index keeps it in range of the larger extent. */
  lemma GrowInBounds(x: int, a: nat, b: nat)
    requires 0 < a < b && 0 <= x < a
    ensures 0 <= RescaleEntry(x, a, b) < b
  {
    var k := b / a;
    RatioPositive(a, b);
    assert b == k * a + b % a;
    MulMonotone(x, a - 1, k);
    MulMonotone(0, x, k);
    assert (a - 1) * k == k * a - k;
  }

  /** Shrinking an in-range index by a whole ratio keeps it in range of the smaller extent. */
  lemma ShrinkInBounds(x: int, a: nat, b: nat)
    requires a > b > 0 && a % b == 0 && 0 <= x < a
    ensures 0 <= RescaleEntry(x, a, b) < b
  {
    var k := a / b;
    RatioPositive(b, a);
    assert a == k * b;
    var q := x / k;
    assert x == q * k + x % k;
    MulMonotone(b, q, k);
  }
}
