/**
 * `expr_alloca_local_tensor`: allocate a local tensor of a given shape, then
 * insert one assignment per initial element, addressing element `i` by the
 * row-major multi-index obtained by repeatedly taking `i % shape[d]` and
 * `i / shape[d]` from the last axis to the first, with C++ `int` division.
 */
module LocalTensor {
  import opened FrontendIr
  import opened ScopeStack

  /** C++ integer division: truncates toward zero. */
  function CDiv(a: int, b: int): int
    requires b != 0
  {
    if a >= 0 && b > 0 then a / b
    else if a >= 0 then -(a / -b)
    else if b > 0 then -((-a) / b)
    else (-a) / (-b)
  }

  /** C++ `%`: the remainder that goes with `CDiv`, taking the sign of `a`. */
  function CMod(a: int, b: int): int
    requires b != 0
  {
    a - b * CDiv(a, b)
  }

  /** On a non-negative dividend and a positive divisor, C++ and Euclidean division agree. */
  lemma CDivNonNegative(a: int, b: int)
    requires a >= 0 && b > 0
    ensures CDiv(a, b) == a / b && CMod(a, b) == a % b
  {
  }

  predicate NonZero(shape: seq<int>) {
    forall d :: 0 <= d < |shape| ==> shape[d] != 0
  }

  predicate Positive(shape: seq<int>) {
    forall d :: 0 <= d < |shape| ==> shape[d] > 0
  }

  /** Reference definition of the multi-index of linear index `i`: the last axis varies fastest. */
  function Unravel(i: int, shape: seq<int>): (idx: seq<int>)
    requires NonZero(shape)
    ensures |idx| == |shape|
    decreases |shape|
  {
    if shape == [] then []
    else
      var n := |shape| - 1;
      Unravel(CDiv(i, shape[n]), shape[..n]) + [CMod(i, shape[n])]
  }

  /** Row-major linearisation of a multi-index. */
  function Linearize(idx: seq<int>, shape: seq<int>): int
    requires |idx| == |shape|
    decreases |shape|
  {
    if shape == [] then 0
    else
      var n := |shape| - 1;
      Linearize(idx[..n], shape[..n]) * shape[n] + idx[n]
  }

  /** Number of elements of a shape with positive extents. */
  function Product(shape: seq<int>): (p: int)
    requires Positive(shape)
    ensures p > 0
    decreases |shape|
  {
    if shape == [] then 1
    else
      var n := |shape| - 1;
      assert Positive(shape[..n]);
      Product(shape[..n]) * shape[n]
  }

  predicate InBounds(idx: seq<int>, shape: seq<int>) {
    |idx| == |shape| && forall d :: 0 <= d < |shape| ==> 0 <= idx[d] < shape[d]
  }

  /** Every index of a non-negative element lies inside the shape, whether or not `i` is below the element count. */
  lemma {:induction false} UnravelInBounds(i: int, shape: seq<int>)
    requires i >= 0 && Positive(shape)
    ensures InBounds(Unravel(i, shape), shape)
    decreases |shape|
  {
    if shape != [] {
      var n := |shape| - 1;
      CDivNonNegative(i, shape[n]);
      UnravelInBounds(CDiv(i, shape[n]), shape[..n]);
      var idx := Unravel(i, shape);
      assert idx[..n] == Unravel(CDiv(i, shape[n]), shape[..n]);
      forall d | 0 <= d < |shape| ensures 0 <= idx[d] < shape[d] {
        if d < n {
          assert idx[d] == idx[..n][d];
        }
      }
    }
  }

  /** (q % p) * s + r == (q * s + r) % (p * s) for a digit `r` of base `s`. */
  lemma ModDigit(q: int, r: int, p: int, s: int)
    requires q >= 0 && p > 0 && s > 0 && 0 <= r < s
    ensures (q % p) * s + r == (q * s + r) % (p * s)
  {
    var a := q / p;
    var m := q % p;
    assert q == a * p + m;
    assert q * s + r == a * (p * s) + (m * s + r) by {
      assert q * s == a * p * s + m * s;
    }
    assert 0 <= m * s + r < p * s by {
      assert m <= p - 1;
      assert m * s <= (p - 1) * s;
    }
    var x := q * s + r;
    var y := p * s;
    assert x == a * y + (m * s + r);
    assert x % y == m * s + r by {
      LemmaModUnique(x, y, a, m * s + r);
    }
  }

  lemma LemmaModUnique(x: int, y: int, a: int, b: int)
    requires y > 0 && x == a * y + b && 0 <= b < y
    ensures x % y == b && x / y == a
  {
    var q := x / y;
    var m := x % y;
    assert (q - a) * y == b - m;
    MulAwayFromZero(q - a, y);
  }

  lemma MulAwayFromZero(k: int, y: int)
    requires y > 0
    ensures k >= 1 ==> k * y >= y
    ensures k <= -1 ==> k * y <= -y
  {
  }

  /** Re-linearising the indices of element `i` gives `i` modulo the element count of the shape. */
  lemma {:induction false} LinearizeUnravel(i: int, shape: seq<int>)
    requires i >= 0 && Positive(shape)
    ensures Linearize(Unravel(i, shape), shape) == i % Product(shape)
    decreases |shape|
  {
    if shape != [] {
      var n := |shape| - 1;
      var s := shape[n];
      var q := i / s;
      CDivNonNegative(i, s);
      assert Positive(shape[..n]);
      LinearizeUnravel(q, shape[..n]);
      var idx := Unravel(i, shape);
      assert idx[..n] == Unravel(q, shape[..n]);
      assert idx[n] == i % s;
      ModDigit(q, i % s, Product(shape[..n]), s);
      assert i == q * s + i % s;
    } else {
      assert i % 1 == 0;
    }
  }

  /** Below the element count, the multi-index re-linearises to exactly `i`. */
  lemma RoundTripBelowCount(i: int, shape: seq<int>)
    requires Positive(shape) && 0 <= i < Product(shape)
    ensures InBounds(Unravel(i, shape), shape)
    ensures Linearize(Unravel(i, shape), shape) == i
  {
    UnravelInBounds(i, shape);
    LinearizeUnravel(i, shape);
    LemmaModUnique(i, Product(shape), 0, i);
  }

  /** An in-bounds multi-index linearises to a position below the element count. */
  lemma {:induction false} LinearizeInRange(idx: seq<int>, shape: seq<int>)
    requires Positive(shape) && InBounds(idx, shape)
    ensures 0 <= Linearize(idx, shape) < Product(shape)
    decreases |shape|
  {
    if shape != [] {
      var n := |shape| - 1;
      assert InBounds(idx[..n], shape[..n]);
      LinearizeInRange(idx[..n], shape[..n]);
      DigitInRange(Linearize(idx[..n], shape[..n]), idx[n], Product(shape[..n]), shape[n]);
    }
  }

  lemma DigitInRange(l: int, r: int, p: int, s: int)
    requires 0 <= l < p && 0 <= r < s
    ensures 0 <= l * s + r < p * s
  {
    assert l * s <= (p - 1) * s;
  }

  /** Conversely, every in-bounds multi-index is the unravelling of its own row-major position. */
  lemma {:induction false} UnravelLinearize(idx: seq<int>, shape: seq<int>)
    requires Positive(shape) && InBounds(idx, shape)
    ensures Unravel(Linearize(idx, shape), shape) == idx
    decreases |shape|
  {
    if shape != [] {
      var n := |shape| - 1;
      var s := shape[n];
      var inner := idx[..n];
      assert InBounds(inner, shape[..n]);
      UnravelLinearize(inner, shape[..n]);
      var l := Linearize(inner, shape[..n]);
      LinearizeInRange(inner, shape[..n]);
      var x := l * s + idx[n];
      assert Linearize(idx, shape) == x;
      LemmaModUnique(x, s, l, idx[n]);
      CDivNonNegative(x, s);
      assert idx == inner + [idx[n]];
    }
  }

  /**
   * The index computation of one element as the bindings write it: a first loop
   * collects the digits from the last axis to the first, a second loop reverses
   * them.
   */
  method ElementIndices(shape: seq<int>, i: int) returns (indices: seq<int>)
    requires NonZero(shape)
    ensures indices == Unravel(i, shape)
  {
    ghost var u := Unravel(i, shape);
    var reversed: seq<int> := [];
    var lin := i;
    var d := |shape| - 1;
    assert shape[..d + 1] == shape;
    while d >= 0
      invariant -1 <= d < |shape|
      invariant |reversed| == |shape| - 1 - d
      invariant NonZero(shape[..d + 1])
      invariant Unravel(lin, shape[..d + 1]) == u[..d + 1]
      invariant forall k :: 0 <= k < |reversed| ==> reversed[k] == u[|shape| - 1 - k]
    {
      var sd := shape[d];
      assert shape[..d + 1][..d] == shape[..d];
      assert u[..d + 1][..d] == u[..d];
      assert Unravel(lin, shape[..d + 1]) == Unravel(CDiv(lin, sd), shape[..d]) + [CMod(lin, sd)];
      assert u[d] == u[..d + 1][d];
      reversed := reversed + [CMod(lin, sd)];
      lin := CDiv(lin, sd);
      d := d - 1;
    }
    indices := [];
    var e := 0;
    while e < |shape|
      invariant 0 <= e <= |shape|
      invariant |indices| == e
      invariant forall k :: 0 <= k < e ==> indices[k] == u[k]
    {
      indices := indices + [reversed[|shape| - 1 - e]];
      e := e + 1;
    }
  }

  /** The element stores emitted for the first `n` linear positions, in order. */
  function ElementAssigns(shape: seq<int>, n: nat): (ss: seq<Stmt>)
    requires n > 0 ==> NonZero(shape)
    ensures |ss| == n
    ensures forall k :: 0 <= k < n ==> ss[k] == TensorElemAssign(Unravel(k, shape), k)
  {
    if n == 0 then [] else ElementAssigns(shape, n - 1) + [TensorElemAssign(Unravel(n - 1, shape), n - 1)]
  }

  /**
   * `expr_alloca_local_tensor` on the current block: one alloca, then one
   * assignment per element, in element order, each addressing that element's
   * multi-index. The scope stack is untouched. Extents are only divided by
   * inside the per-element loop, so a zero extent is fine when there are no elements.
   */
  method AllocaLocalTensor(b: Builder, shape: seq<int>, numElements: nat) returns (r: Builder)
    requires WellFormed(b) && (numElements > 0 ==> NonZero(shape))
    ensures WellFormed(r) && r.stack == b.stack
    ensures CurrentBlock(r) == CurrentBlock(b) + [TensorAlloca(shape)] + ElementAssigns(shape, numElements)
  {
    r := Insert(b, TensorAlloca(shape));
    var i := 0;
    while i < numElements
      invariant 0 <= i <= numElements
      invariant WellFormed(r) && r.stack == b.stack
      invariant CurrentBlock(r) == CurrentBlock(b) + [TensorAlloca(shape)] + ElementAssigns(shape, i)
    {
      var indices := ElementIndices(shape, i);
      StoreNext(r, CurrentBlock(b) + [TensorAlloca(shape)], shape, i);
      r := Insert(r, TensorElemAssign(indices, i));
      i := i + 1;
    }
  }

  /** Inserting the store of element `i` extends the stores of the first `i` elements to the first `i + 1`. */
  lemma StoreNext(r: Builder, prefix: seq<Stmt>, shape: seq<int>, i: nat)
    requires WellFormed(r) && NonZero(shape)
    requires CurrentBlock(r) == prefix + ElementAssigns(shape, i)
    ensures WellFormed(Insert(r, TensorElemAssign(Unravel(i, shape), i)))
    ensures Insert(r, TensorElemAssign(Unravel(i, shape), i)).stack == r.stack
    ensures CurrentBlock(Insert(r, TensorElemAssign(Unravel(i, shape), i))) == prefix + ElementAssigns(shape, i + 1)
  {
    assert ElementAssigns(shape, i + 1) == ElementAssigns(shape, i) + [TensorElemAssign(Unravel(i, shape), i)];
  }
}
