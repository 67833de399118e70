/** Folding a subview of a subview into one subview of the underlying buffer. */
module SubViewFold {

  /** Offsets as the operation has them: a static offset that is not negative counts, a negative
      one stands for the next of the dynamic operands. Sizes and strides are resolved. */
  datatype SubView = SubView(statics: seq<int>, offsets: seq<int>, sizes: seq<nat>, strides: seq<int>)

  /** How many offsets are dynamic. */
  function Dynamic(statics: seq<int>): nat {
    if statics == [] then 0
    else Dynamic(statics[..|statics| - 1]) + if statics[|statics| - 1] < 0 then 1 else 0
  }

  ghost predicate IsSubView(v: SubView) {
    && |v.offsets| == Dynamic(v.statics)
    && |v.sizes| == |v.strides| == |v.statics|
  }

  /** The offset of every dimension. */
  function Resolved(statics: seq<int>, offsets: seq<int>): (r: seq<int>)
    requires |offsets| >= Dynamic(statics)
    ensures |r| == |statics|
  {
    if statics == [] then []
    else
      var init, last := statics[..|statics| - 1], statics[|statics| - 1];
      Resolved(init, offsets) + [if last < 0 then offsets[Dynamic(init)] else last]
  }

  function Sum(a: seq<int>, b: seq<int>): (r: seq<int>)
    requires |a| == |b|
    ensures |r| == |a|
  {
    seq(|a|, d requires 0 <= d < |a| => a[d] + b[d])
  }

  // ---------- The two lists of operands ----------

  lemma {:induction false} MoreOperands(statics: seq<int>, offsets: seq<int>, more: seq<int>)
    requires |offsets| >= Dynamic(statics)
    ensures Resolved(statics, offsets + more) == Resolved(statics, offsets)
    decreases |statics|
  {
    if statics != [] {
      MoreOperands(statics[..|statics| - 1], offsets, more);
    }
  }

  lemma ResolvedSnoc(statics: seq<int>, offsets: seq<int>, fixed: int, more: seq<int>)
    requires |offsets| == Dynamic(statics) && |more| == if fixed < 0 then 1 else 0
    ensures Dynamic(statics + [fixed]) == |offsets + more|
    ensures Resolved(statics + [fixed], offsets + more)
            == Resolved(statics, offsets) + [if fixed < 0 then more[0] else fixed]
  {
    assert (statics + [fixed])[..|statics|] == statics;
    MoreOperands(statics, offsets, more);
  }

  lemma {:induction false} ResolvedPrefix(statics: seq<int>, offsets: seq<int>, n: nat)
    requires |offsets| >= Dynamic(statics) && n <= |statics|
    ensures Dynamic(statics[..n]) <= Dynamic(statics)
    ensures Resolved(statics[..n], offsets) == Resolved(statics, offsets)[..n]
    decreases |statics|
  {
    if n == |statics| {
      assert statics[..n] == statics && Resolved(statics, offsets)[..n] == Resolved(statics, offsets);
    } else {
      ResolvedPrefix(statics[..|statics| - 1], offsets, n);
      assert statics[..|statics| - 1][..n] == statics[..n];
    }
  }

  /** What the loop finds at dimension n when the operands before it are consumed. */
  lemma AtDimension(statics: seq<int>, offsets: seq<int>, n: nat)
    requires |offsets| == Dynamic(statics) && n < |statics|
    ensures var k := Dynamic(statics[..n]);
      && Dynamic(statics[..n + 1]) == k + (if statics[n] < 0 then 1 else 0) <= |offsets|
      && Resolved(statics, offsets)[n] == if statics[n] < 0 then offsets[k] else statics[n]
  {
    ResolvedPrefix(statics, offsets, n + 1);
    assert statics[..n + 1][..n] == statics[..n];
    assert Resolved(statics, offsets)[..n + 1][n] == Resolved(statics, offsets)[n];
  }

  /** One dimension: which static offset is pushed, and which operand if one is. */
  method FoldDimension(opStatic: int, sourceStatic: int, opOperand: int, sourceOperand: int)
      returns (fixed: int, operands: seq<int>)
    ensures (fixed < 0 <==> opStatic < 0 || sourceStatic < 0) && |operands| == if fixed < 0 then 1 else 0
    ensures (if fixed < 0 then operands[0] else fixed) ==
            (if opStatic < 0 then opOperand else opStatic) + (if sourceStatic < 0 then sourceOperand else sourceStatic)
  {
    if opStatic >= 0 && sourceStatic >= 0 {
      fixed, operands := opStatic + sourceStatic, [];
    } else if opStatic < 0 && sourceStatic >= 0 {
      fixed := opStatic;
      if sourceStatic == 0 {
        operands := [opOperand];
      } else {
        operands := [opOperand + sourceStatic];
      }
    } else if opStatic >= 0 && sourceStatic < 0 {
      fixed := sourceStatic;
      if opStatic == 0 {
        operands := [sourceOperand];
      } else {
        operands := [sourceOperand + opStatic];
      }
    } else {
      fixed, operands := sourceStatic, [sourceOperand + opOperand];
    }
  }

  /** The dimensions that the loop goes through: those of the shorter list. */
  function Rank(op: SubView, source: SubView): nat {
    if |op.statics| < |source.statics| then |op.statics| else |source.statics|
  }

  ghost function Sums(op: SubView, source: SubView): (r: seq<int>)
    requires IsSubView(op) && IsSubView(source)
    ensures |r| == Rank(op, source)
  {
    var n := Rank(op, source);
    Sum(Resolved(op.statics, op.offsets)[..n], Resolved(source.statics, source.offsets)[..n])
  }

  /** After n dimensions: k and l operands are consumed, and what is pushed resolves to sums. */
  ghost predicate Progress(op: SubView, source: SubView, n: nat, k: nat, l: nat, statics: seq<int>, offsets: seq<int>)
    requires IsSubView(op) && IsSubView(source)
  {
    && n <= Rank(op, source) && |statics| == n && |offsets| == Dynamic(statics)
    && k == Dynamic(op.statics[..n]) && l == Dynamic(source.statics[..n])
    && Resolved(statics, offsets) == Sums(op, source)[..n]
  }

  lemma NextDimension(op: SubView, source: SubView, n: nat, k: nat, l: nat, statics: seq<int>, offsets: seq<int>,
                      fixed: int, operands: seq<int>)
    requires IsSubView(op) && IsSubView(source)
    requires n < Rank(op, source) && Progress(op, source, n, k, l, statics, offsets)
    requires |operands| == if fixed < 0 then 1 else 0
    requires (if fixed < 0 then operands[0] else fixed)
             == Resolved(op.statics, op.offsets)[n] + Resolved(source.statics, source.offsets)[n]
    ensures Progress(op, source, n + 1,
                     k + (if op.statics[n] < 0 then 1 else 0), l + (if source.statics[n] < 0 then 1 else 0),
                     statics + [fixed], offsets + operands)
  {
    AtDimension(op.statics, op.offsets, n);
    AtDimension(source.statics, source.offsets, n);
    ResolvedSnoc(statics, offsets, fixed, operands);
    var sums := Sums(op, source);
    assert sums[..n + 1] == sums[..n] + [sums[n]];
  }

  lemma WholeRank(op: SubView, source: SubView, n: nat)
    requires IsSubView(op) && IsSubView(source) && n == Rank(op, source)
    ensures Sums(op, source)[..n] == Sums(op, source)
  {
  }

  /** For equal ranks these are the sums in all dimensions. */
  lemma EqualRanks(op: SubView, source: SubView)
    requires IsSubView(op) && IsSubView(source) && |op.statics| == |source.statics|
    ensures Sums(op, source) == Sum(Resolved(op.statics, op.offsets), Resolved(source.statics, source.offsets))
  {
    var a, b := Resolved(op.statics, op.offsets), Resolved(source.statics, source.offsets);
    assert a[..|a|] == a && b[..|b|] == b;
  }

  /** Both operand lists are consumed in step; the new offsets are the sums, the sizes and
      strides those of the outer operation. */
  method Fold(op: SubView, source: SubView) returns (r: SubView)
    requires IsSubView(op) && IsSubView(source)
    ensures r.sizes == op.sizes && r.strides == op.strides && |r.offsets| == Dynamic(r.statics)
    ensures Resolved(r.statics, r.offsets) == Sums(op, source)
  {
    var offsets: nat, sourceOffsets: nat := 0, 0;
    var resultOffsets: seq<int>, resultStatics: seq<int> := [], [];
    var n: nat := 0;
    while n < Rank(op, source)
      invariant Progress(op, source, n, offsets, sourceOffsets, resultStatics, resultOffsets)
    {
      AtDimension(op.statics, op.offsets, n);
      AtDimension(source.statics, source.offsets, n);
      var opStatic, sourceStatic := op.statics[n], source.statics[n];
      var opOperand := if opStatic < 0 then op.offsets[offsets] else 0;
      var sourceOperand := if sourceStatic < 0 then source.offsets[sourceOffsets] else 0;
      var fixed, operands := FoldDimension(opStatic, sourceStatic, opOperand, sourceOperand);
      NextDimension(op, source, n, offsets, sourceOffsets, resultStatics, resultOffsets, fixed, operands);
      offsets := offsets + if opStatic < 0 then 1 else 0;
      sourceOffsets := sourceOffsets + if sourceStatic < 0 then 1 else 0;
      resultStatics := resultStatics + [fixed];
      resultOffsets := resultOffsets + operands;
      n := n + 1;
    }
    WholeRank(op, source, n);
    r := SubView(resultStatics, resultOffsets, op.sizes, op.strides);
  }

  // ---------- The elements addressed ----------

  /** The index, in the buffer below, of the element at x. */
  function Place(offsets: seq<int>, strides: seq<int>, x: seq<int>): (r: seq<int>)
    requires |offsets| == |strides| == |x|
    ensures |r| == |x|
  {
    seq(|x|, d requires 0 <= d < |x| => offsets[d] + strides[d] * x[d])
  }

  ghost predicate InBox(sizes: seq<nat>, x: seq<int>) {
    |x| == |sizes| && forall d :: 0 <= d < |x| ==> 0 <= x[d] < sizes[d]
  }

  /** Through both subviews, and through the folded one. */
  function Nested(op: SubView, source: SubView, x: seq<int>): seq<int>
    requires IsSubView(op) && IsSubView(source) && |op.statics| == |source.statics| == |x|
  {
    Place(Resolved(source.statics, source.offsets), source.strides,
          Place(Resolved(op.statics, op.offsets), op.strides, x))
  }

  ghost function Folded(op: SubView, source: SubView, x: seq<int>): seq<int>
    requires IsSubView(op) && IsSubView(source) && |op.statics| == |source.statics| == |x|
  {
    Place(Sums(op, source), op.strides, x)
  }

  /** In this dimension the stride of the source makes no difference. */
  predicate StrideIdle(offset: int, stride: int, size: nat, sourceStride: int) {
    sourceStride == 1 || (offset == 0 && (stride == 0 || size <= 1))
  }

  predicate AllIdle(op: SubView, source: SubView)
    requires |op.statics| == |source.statics| == |op.sizes| == |op.strides| == |source.strides|
    requires |op.offsets| >= Dynamic(op.statics)
  {
    forall d :: 0 <= d < |op.statics| ==>
      StrideIdle(Resolved(op.statics, op.offsets)[d], op.strides[d], op.sizes[d], source.strides[d])
  }

  /** One dimension: both sums agree for every index exactly when the stride is idle. */
  lemma DimensionIff(offset: int, stride: int, size: nat, sourceOffset: int, sourceStride: int)
    requires size > 0
    ensures StrideIdle(offset, stride, size, sourceStride) ==>
      forall x: nat :: x < size ==>
        sourceOffset + sourceStride * (offset + stride * x) == offset + sourceOffset + stride * x
    ensures !StrideIdle(offset, stride, size, sourceStride) ==>
      Differs(offset, stride, sourceOffset, sourceStride, 0)
      || (size > 1 && Differs(offset, stride, sourceOffset, sourceStride, 1))
  {
    if StrideIdle(offset, stride, size, sourceStride) {
      forall x: nat | x < size
        ensures sourceOffset + sourceStride * (offset + stride * x) == offset + sourceOffset + stride * x
      {
        if sourceStride != 1 {
          assert stride * x == 0;
        }
      }
    } else {
      NotFixed(offset, sourceStride);
      NotFixed(offset + stride, sourceStride);
    }
  }

  predicate Differs(offset: int, stride: int, sourceOffset: int, sourceStride: int, x: int) {
    sourceOffset + sourceStride * (offset + stride * x) != offset + sourceOffset + stride * x
  }

  /** Only zero stays where it is under a factor other than one. */
  lemma NotFixed(y: int, factor: int)
    requires factor != 1
    ensures factor * y == y <==> y == 0
  {
    assert factor * y - y == (factor - 1) * y;
    if y != 0 && (factor - 1) * y == 0 {
      assert false;
    }
  }

  /** The folded operation has an offset for each dimension of the buffer below, as a subview
      must, and addresses the elements of the nested ones. */
  ghost predicate FoldRight(op: SubView, source: SubView)
    requires IsSubView(op) && IsSubView(source)
  {
    && |Sums(op, source)| == |source.statics| == |op.statics|
    && forall x :: InBox(op.sizes, x) ==> Nested(op, source, x) == Folded(op, source, x)
  }

  predicate IsEmpty(op: SubView) {
    exists d :: 0 <= d < |op.sizes| && op.sizes[d] == 0
  }

  /** The folded subview is right, for any ranks and any mix of static and dynamic offsets,
      exactly when the source keeps the rank and the subview is empty or every stride of the
      source is one or idle. */
  lemma FoldRightIff(op: SubView, source: SubView)
    requires IsSubView(op) && IsSubView(source)
    ensures FoldRight(op, source)
            <==> (|op.statics| == |source.statics| && (AllIdle(op, source) || IsEmpty(op)))
  {
    if |op.statics| == |source.statics| {
      SameRankIff(op, source);
    }
  }

  lemma EmptyBox(op: SubView, x: seq<int>)
    requires IsEmpty(op)
    ensures !InBox(op.sizes, x)
  {
  }

  lemma SameRankIff(op: SubView, source: SubView)
    requires IsSubView(op) && IsSubView(source) && |op.statics| == |source.statics|
    ensures FoldRight(op, source) <==> (AllIdle(op, source) || IsEmpty(op))
  {
    if IsEmpty(op) {
      forall x
        ensures !InBox(op.sizes, x)
      {
        EmptyBox(op, x);
      }
    } else if AllIdle(op, source) {
      forall x | InBox(op.sizes, x)
        ensures Nested(op, source, x) == Folded(op, source, x)
      {
        IdleFolds(op, source, x);
      }
    } else {
      var x := Witness(op, source);
      assert InBox(op.sizes, x) && Nested(op, source, x) != Folded(op, source, x);
    }
  }

  lemma IdleFolds(op: SubView, source: SubView, x: seq<int>)
    requires IsSubView(op) && IsSubView(source) && |op.statics| == |source.statics|
    requires AllIdle(op, source) && InBox(op.sizes, x)
    ensures Nested(op, source, x) == Folded(op, source, x)
  {
    var a, b := Resolved(op.statics, op.offsets), Resolved(source.statics, source.offsets);
    EqualRanks(op, source);
    forall d | 0 <= d < |x|
      ensures Nested(op, source, x)[d] == Folded(op, source, x)[d]
    {
      assert StrideIdle(a[d], op.strides[d], op.sizes[d], source.strides[d]);
      DimensionIff(a[d], op.strides[d], op.sizes[d], b[d], source.strides[d]);
    }
  }

  lemma Witness(op: SubView, source: SubView) returns (x: seq<int>)
    requires IsSubView(op) && IsSubView(source) && |op.statics| == |source.statics|
    requires !AllIdle(op, source) && forall d :: 0 <= d < |op.sizes| ==> op.sizes[d] > 0
    ensures InBox(op.sizes, x) && Nested(op, source, x) != Folded(op, source, x)
  {
    var a, b := Resolved(op.statics, op.offsets), Resolved(source.statics, source.offsets);
    EqualRanks(op, source);
    var d :| 0 <= d < |op.statics| && !StrideIdle(a[d], op.strides[d], op.sizes[d], source.strides[d]);
    DimensionIff(a[d], op.strides[d], op.sizes[d], b[d], source.strides[d]);
    x := seq(|op.sizes|, _ => 0);
    if !Differs(a[d], op.strides[d], b[d], source.strides[d], 0) {
      x := x[d := 1];
    }
    assert Nested(op, source, x)[d] != Folded(op, source, x)[d];
  }
}
