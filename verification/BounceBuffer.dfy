/** The host's side of a four-dimensional copy: the row-major offset of a tensor element,
    and gathering to and scattering from the bounce buffer. Elements are 32-bit words;
    memory and bounce buffer are addressed by element. */
module BounceBuffer {
  import opened Arithmetic
  import IndexWalk

  // ---------- Row-major offsets ----------

  /** Row-major index of a multi-index, outermost dimension first. */
  function RowMajor(index: seq<nat>, shape: seq<nat>): nat
    requires |index| == |shape|
  {
    if shape == [] then 0 else index[0] * Product(shape[1..]) + RowMajor(index[1..], shape[1..])
  }

  ghost predicate InRange(index: seq<nat>, shape: seq<nat>) {
    |index| == |shape| && forall i :: 0 <= i < |shape| ==> index[i] < shape[i]
  }

  /** An index in range lies inside the tensor's volume. */
  lemma {:induction false} RowMajorBound(index: seq<nat>, shape: seq<nat>)
    requires InRange(index, shape)
    ensures RowMajor(index, shape) < Product(shape)
  {
    if shape != [] {
      RowMajorBound(index[1..], shape[1..]);
      DigitBound(index[0], shape[0], Product(shape[1..]), RowMajor(index[1..], shape[1..]));
    }
  }

  /** Different elements have different offsets. */
  lemma {:induction false} RowMajorInjective(index: seq<nat>, other: seq<nat>, shape: seq<nat>)
    requires InRange(index, shape) && InRange(other, shape)
    requires RowMajor(index, shape) == RowMajor(other, shape)
    ensures index == other
  {
    if shape != [] {
      RowMajorBound(index[1..], shape[1..]);
      RowMajorBound(other[1..], shape[1..]);
      SameDigits(index[0], other[0], RowMajor(index[1..], shape[1..]), RowMajor(other[1..], shape[1..]),
                 Product(shape[1..]));
      RowMajorInjective(index[1..], other[1..], shape[1..]);
      assert index == [index[0]] + index[1..] && other == [other[0]] + other[1..];
    }
  }

  /** The first element is at offset 0. */
  lemma {:induction false} RowMajorZero(shape: seq<nat>)
    ensures RowMajor(seq(|shape|, _ => 0), shape) == 0
  {
    if shape != [] {
      RowMajorZero(shape[1..]);
      assert seq(|shape|, _ => 0)[1..] == seq(|shape[1..]|, _ => 0);
    }
  }

  /** The next element along dimension k is one block of the dimensions inside it further on. */
  lemma {:induction false} RowMajorStep(index: seq<nat>, shape: seq<nat>, k: nat)
    requires |index| == |shape| && k < |shape|
    ensures RowMajor(index[k := index[k] + 1], shape) == RowMajor(index, shape) + Product(shape[k + 1..])
  {
    var next := index[k := index[k] + 1];
    if k == 0 {
      assert next[1..] == index[1..];
      assert (index[0] + 1) * Product(shape[1..]) == index[0] * Product(shape[1..]) + Product(shape[1..]);
    } else {
      RowMajorStep(index[1..], shape[1..], k - 1);
      assert next[1..] == index[1..][k - 1 := index[k] + 1];
      assert shape[1..][k..] == shape[k + 1..];
    }
  }

  /** One index comes before another in lexicographic order. */
  predicate LexBefore(index: seq<nat>, other: seq<nat>)
    requires |index| == |other|
  {
    index != [] && (index[0] < other[0] || (index[0] == other[0] && LexBefore(index[1..], other[1..])))
  }

  /** Lexicographic order of the elements is the order of their offsets. */
  lemma {:induction false} RowMajorOrder(index: seq<nat>, other: seq<nat>, shape: seq<nat>)
    requires InRange(index, shape) && InRange(other, shape)
    ensures LexBefore(index, other) <==> RowMajor(index, shape) < RowMajor(other, shape)
  {
    if shape != [] {
      var p, x, y := Product(shape[1..]), RowMajor(index[1..], shape[1..]), RowMajor(other[1..], shape[1..]);
      RowMajorBound(index[1..], shape[1..]);
      RowMajorBound(other[1..], shape[1..]);
      RowMajorOrder(index[1..], other[1..], shape[1..]);
      if index[0] < other[0] {
        LaterDigit(index[0], other[0], p, x, y);
      } else if other[0] < index[0] {
        LaterDigit(other[0], index[0], p, y, x);
      }
    }
  }

  lemma LaterDigit(a: nat, b: nat, p: nat, x: nat, y: nat)
    requires a < b && x < p
    ensures a * p + x < b * p + y
  {
    DigitBound(a, b, p, x);
  }

  /** The offset loop; offsets[0] belongs to the innermost dimension. */
  method BaseOffset(offsets: seq<nat>, shape: seq<nat>, elementSize: nat) returns (offset: nat)
    requires |offsets| >= |shape|
    ensures offset
         == elementSize * RowMajor(seq(|shape|, i requires 0 <= i < |shape| => offsets[|shape| - 1 - i]), shape)
  {
    var rank := |shape|;
    ghost var index := seq(rank, i requires 0 <= i < rank => offsets[rank - 1 - i]);
    var stride := 1;
    offset := 0;
    for i := 0 to rank
      invariant stride == Product(shape[rank - i..])
      invariant offset == elementSize * RowMajor(index[rank - i..], shape[rank - i..])
    {
      ghost var k := rank - i - 1;
      assert index[k..][0] == offsets[i] && index[k..][1..] == index[k + 1..];
      assert shape[k..][0] == shape[k] && shape[k..][1..] == shape[k + 1..];
      NextOffset(offsets[i], stride, elementSize, RowMajor(index[k + 1..], shape[k + 1..]));
      offset := offset + offsets[i] * stride * elementSize;
      stride := stride * shape[rank - i - 1];
    }
    assert index[0..] == index && shape[0..] == shape;
  }

  lemma NextOffset(o: nat, stride: nat, size: nat, rest: nat)
    ensures size * rest + o * stride * size == size * (o * stride + rest)
  {
    assert o * stride * size == size * (o * stride);
  }

  // ---------- Gather and scatter ----------

  /** A strided copy of segments of len1 elements. */
  datatype Region = Region(base: nat, len1: nat, len2: nat, str2: nat, len3: nat, str3: nat, len4: nat, str4: nat)

  function Address(p: Region, i4: nat, i3: nat, i2: nat): nat {
    p.base + i4 * p.str4 + i3 * p.str3 + i2 * p.str2
  }

  function AddressIn(p: Region): IndexWalk.Locator {
    (i4: nat, i3: nat, i2: nat) => Address(p, i4, i3, i2)
  }

  function ExtentsOf(p: Region): IndexWalk.Extents {
    IndexWalk.Extents(p.len4, p.len3, p.len2)
  }

  /** Segments visited before (i4, i3, i2), in order. */
  function Before(p: Region, i4: nat, i3: nat, i2: nat): seq<nat> {
    IndexWalk.Before(AddressIn(p), ExtentsOf(p), i4, i3, i2)
  }

  function Segments(p: Region): seq<nat> {
    IndexWalk.Walk(AddressIn(p), ExtentsOf(p))
  }

  ghost predicate InBounds(segs: seq<nat>, n: nat, size: nat) {
    forall k :: 0 <= k < |segs| ==> segs[k] + n <= size
  }

  function Volume(segs: seq<nat>, n: nat): nat {
    if segs == [] then 0 else Volume(segs[..|segs| - 1], n) + n
  }

  /** The contents of the segments, one after the other. */
  function Gathered(m: seq<int>, segs: seq<nat>, n: nat): (b: seq<int>)
    requires InBounds(segs, n, |m|)
    ensures |b| == Volume(segs, n)
  {
    if segs == [] then []
    else Gathered(m, segs[..|segs| - 1], n) + m[segs[|segs| - 1]..segs[|segs| - 1] + n]
  }

  function Overwrite(m: seq<int>, a: nat, b: seq<int>): (r: seq<int>)
    requires a + |b| <= |m|
    ensures |r| == |m|
  {
    m[..a] + b + m[a + |b|..]
  }

  /** Memory after the buffer has been written to the segments in order. */
  function Scattered(m: seq<int>, segs: seq<nat>, n: nat, b: seq<int>): (r: seq<int>)
    requires InBounds(segs, n, |m|) && |b| == Volume(segs, n)
    ensures |r| == |m|
  {
    if segs == [] then m
    else Overwrite(Scattered(m, segs[..|segs| - 1], n, b[..|b| - n]), segs[|segs| - 1], b[|b| - n..])
  }

  /** Gathering and scattering back through the same descriptor changes nothing, even when
      segments overlap. */
  lemma {:induction false} GatherThenScatter(m: seq<int>, segs: seq<nat>, n: nat)
    requires InBounds(segs, n, |m|)
    ensures Scattered(m, segs, n, Gathered(m, segs, n)) == m
  {
    if segs != [] {
      var b, init := Gathered(m, segs, n), segs[..|segs| - 1];
      assert b[..|b| - n] == Gathered(m, init, n);
      GatherThenScatter(m, init, n);
    }
  }

  /** Two segments of n elements have none in common. */
  predicate Apart(a: nat, b: nat, n: nat) {
    n == 0 || a + n <= b || b + n <= a
  }

  ghost predicate Disjoint(segs: seq<nat>, n: nat) {
    forall j, k :: 0 <= j < k < |segs| ==> Apart(segs[j], segs[k], n)
  }

  /** Writing elsewhere does not change what is gathered. */
  lemma {:induction false} GatherElsewhere(m: seq<int>, segs: seq<nat>, n: nat, a: nat, b: seq<int>)
    requires InBounds(segs, n, |m|) && a + n <= |m| && |b| == n
    requires forall j :: 0 <= j < |segs| ==> Apart(segs[j], a, n)
    ensures Gathered(Overwrite(m, a, b), segs, n) == Gathered(m, segs, n)
  {
    if segs != [] {
      var s := segs[|segs| - 1];
      GatherElsewhere(m, segs[..|segs| - 1], n, a, b);
      assert Overwrite(m, a, b)[s..s + n] == m[s..s + n];
    }
  }

  /** With disjoint segments, scattering and gathering again returns the buffer. */
  lemma {:induction false} ScatterThenGather(m: seq<int>, segs: seq<nat>, n: nat, b: seq<int>)
    requires InBounds(segs, n, |m|) && |b| == Volume(segs, n) && Disjoint(segs, n)
    ensures Gathered(Scattered(m, segs, n, b), segs, n) == b
  {
    if segs != [] {
      var init, last := segs[..|segs| - 1], segs[|segs| - 1];
      var m' := Scattered(m, init, n, b[..|b| - n]);
      ScatterThenGather(m, init, n, b[..|b| - n]);
      GatherElsewhere(m', init, n, last, b[|b| - n..]);
      assert Overwrite(m', last, b[|b| - n..])[last..last + n] == b[|b| - n..];
    }
  }

  /** Where the x-th element of segment j is in the buffer. */
  lemma {:induction false} GatheredAt(m: seq<int>, segs: seq<nat>, n: nat, j: nat, x: nat)
    requires InBounds(segs, n, |m|) && j < |segs| && x < n
    ensures Volume(segs[..j], n) + n <= Volume(segs, n)
    ensures Gathered(m, segs, n)[Volume(segs[..j], n) + x] == m[segs[j] + x]
  {
    var init := segs[..|segs| - 1];
    if j < |segs| - 1 {
      GatheredAt(m, init, n, j, x);
      assert init[..j] == segs[..j];
    }
  }

  lemma {:induction false} VolumeIs(segs: seq<nat>, n: nat)
    ensures Volume(segs, n) == |segs| * n
  {
    if segs != [] {
      VolumeIs(segs[..|segs| - 1], n);
      assert |segs| * n == (|segs| - 1) * n + n;
    }
  }

  /** The segment of (i4, i3, i2), and how many there are. */
  lemma SegmentAt(p: Region, i4: nat, i3: nat, i2: nat)
    requires i4 < p.len4 && i3 < p.len3 && i2 < p.len2
    ensures |Segments(p)| == p.len4 * p.len3 * p.len2
    ensures 0 <= (i4 * p.len3 + i3) * p.len2 + i2 < |Segments(p)|
    ensures Segments(p)[(i4 * p.len3 + i3) * p.len2 + i2]
         == p.base + i4 * p.str4 + i3 * p.str3 + i2 * p.str2
  {
    IndexWalk.WalkAt(AddressIn(p), ExtentsOf(p), i4, i3, i2);
  }

  /** Element x of segment j is element j * n + x of the buffer. */
  lemma {:induction false} GatheredPlace(m: seq<int>, segs: seq<nat>, n: nat, j: nat, x: nat)
    requires InBounds(segs, n, |m|) && j < |segs| && x < n
    ensures |Gathered(m, segs, n)| == |segs| * n && segs[j] + x < |m|
    ensures 0 <= j * n + x < |Gathered(m, segs, n)|
    ensures Gathered(m, segs, n)[j * n + x] == m[segs[j] + x]
  {
    GatheredAt(m, segs, n, j, x);
    VolumeIs(segs, n);
    VolumeIs(segs[..j], n);
  }

  predicate Holds(a: nat, n: nat, e: nat) {
    a <= e < a + n
  }

  /** An element in no segment keeps its value. */
  lemma {:induction false} ScatteredElsewhere(m: seq<int>, segs: seq<nat>, n: nat, b: seq<int>, e: nat)
    requires InBounds(segs, n, |m|) && |b| == Volume(segs, n) && e < |m|
    requires forall k :: 0 <= k < |segs| ==> !Holds(segs[k], n, e)
    ensures Scattered(m, segs, n, b)[e] == m[e]
  {
    if segs != [] {
      var last := |segs| - 1;
      assert !Holds(segs[last], n, e);
      ScatteredElsewhere(m, segs[..last], n, b[..|b| - n], e);
    }
  }

  /** An element gets the value that the buffer has for it in the last segment that holds it. */
  lemma {:induction false} ScatteredAt(m: seq<int>, segs: seq<nat>, n: nat, b: seq<int>, j: nat, x: nat)
    requires InBounds(segs, n, |m|) && |b| == Volume(segs, n) && j < |segs| && x < n
    requires forall k :: j < k < |segs| ==> !Holds(segs[k], n, segs[j] + x)
    ensures 0 <= j * n + x < |b| && segs[j] + x < |m|
    ensures Scattered(m, segs, n, b)[segs[j] + x] == b[j * n + x]
  {
    var last := |segs| - 1;
    PlaceInBuffer(segs, n, j, x);
    var before := Scattered(m, segs[..last], n, b[..|b| - n]);
    OverwriteAt(before, segs[last], b[|b| - n..], segs[j] + x);
    if j < last {
      assert !Holds(segs[last], n, segs[j] + x);
      ScatteredAt(m, segs[..last], n, b[..|b| - n], j, x);
    }
  }

  lemma OverwriteAt(m: seq<int>, a: nat, b: seq<int>, e: nat)
    requires a + |b| <= |m| && e < |m|
    ensures Overwrite(m, a, b)[e] == if Holds(a, |b|, e) then b[e - a] else m[e]
  {
  }

  /** The places of the last segment come after those of the others. */
  lemma {:induction false} PlaceInBuffer(segs: seq<nat>, n: nat, j: nat, x: nat)
    requires j < |segs| && x < n
    ensures 0 <= j * n + x < Volume(segs, n)
    ensures j < |segs| - 1 ==> j * n + x < Volume(segs, n) - n
    ensures j == |segs| - 1 ==> j * n + x - (Volume(segs, n) - n) == x
  {
    VolumeIs(segs, n);
    DigitBound(j, |segs|, n, x);
    assert (|segs| - 1) * n == |segs| * n - n;
    if j < |segs| - 1 {
      DigitBound(j, |segs| - 1, n, x);
    }
  }

  lemma {:induction false} VolumeGrows(segs: seq<nat>, n: nat, j: nat, k: nat)
    requires j < k <= |segs|
    ensures Volume(segs[..j], n) + n <= Volume(segs[..k], n)
  {
    assert segs[..k][..k - 1] == segs[..k - 1];
    if j < k - 1 {
      VolumeGrows(segs, n, j, k - 1);
    }
  }

  /** A buffer of different values does not survive when two segments share an element. */
  lemma {:induction false} OverlapLoses(m: seq<int>, segs: seq<nat>, n: nat, j: nat, k: nat, b: seq<int>)
    requires InBounds(segs, n, |m|) && j < k < |segs| && !Apart(segs[j], segs[k], n)
    requires |b| == Volume(segs, n) && forall i :: 0 <= i < |b| ==> b[i] == i
    ensures Gathered(Scattered(m, segs, n, b), segs, n) != b
  {
    var shared := if segs[j] < segs[k] then segs[k] else segs[j];
    SharedElement(Scattered(m, segs, n, b), segs, n, j, k, shared);
    VolumeGrows(segs, n, j, k);
  }

  /** An element that two segments share is gathered twice. */
  lemma {:induction false} SharedElement(m: seq<int>, segs: seq<nat>, n: nat, j: nat, k: nat, e: nat)
    requires InBounds(segs, n, |m|) && j < |segs| && k < |segs|
    requires segs[j] <= e < segs[j] + n && segs[k] <= e < segs[k] + n
    ensures var p, q := Volume(segs[..j], n) + (e - segs[j]), Volume(segs[..k], n) + (e - segs[k]);
      p < Volume(segs, n) && q < Volume(segs, n) && Gathered(m, segs, n)[p] == Gathered(m, segs, n)[q]
  {
    GatheredAt(m, segs, n, j, e - segs[j]);
    GatheredAt(m, segs, n, k, e - segs[k]);
  }

  /** Scattering and gathering again returns the buffer, whatever it holds, if and only if
      the segments are disjoint. */
  lemma {:induction false} ScatterGatherIff(m: seq<int>, segs: seq<nat>, n: nat)
    requires InBounds(segs, n, |m|)
    ensures Disjoint(segs, n) <==>
      forall b :: |b| == Volume(segs, n) ==> Gathered(Scattered(m, segs, n, b), segs, n) == b
  {
    if Disjoint(segs, n) {
      forall b | |b| == Volume(segs, n)
        ensures Gathered(Scattered(m, segs, n, b), segs, n) == b
      {
        ScatterThenGather(m, segs, n, b);
      }
    } else {
      var j, k :| 0 <= j < k < |segs| && !Apart(segs[j], segs[k], n);
      OverlapLoses(m, segs, n, j, k, seq(Volume(segs, n), i => i));
    }
  }

  // ---------- The loops ----------

  lemma {:induction false} VolumePrefix(segs: seq<nat>, all: seq<nat>, n: nat)
    requires segs <= all
    ensures Volume(segs, n) <= Volume(all, n)
  {
    if segs == all {
    } else {
      VolumePrefix(segs, all[..|all| - 1], n);
    }
  }

  /** The next segment lies in memory and its part of the buffer in the buffer. */
  lemma NextSegment(p: Region, i4: nat, i3: nat, i2: nat, size: nat)
    requires i4 < p.len4 && i3 < p.len3 && i2 < p.len2 && InBounds(Segments(p), p.len1, size)
    ensures Address(p, i4, i3, i2) + p.len1 <= size
    ensures Before(p, i4, i3, i2 + 1) == Before(p, i4, i3, i2) + [Address(p, i4, i3, i2)]
    ensures InBounds(Before(p, i4, i3, i2), p.len1, size) && InBounds(Before(p, i4, i3, i2 + 1), p.len1, size)
    ensures Volume(Before(p, i4, i3, i2), p.len1) + p.len1 == Volume(Before(p, i4, i3, i2 + 1), p.len1)
         <= Volume(Segments(p), p.len1)
  {
    var before, next := Before(p, i4, i3, i2), Before(p, i4, i3, i2 + 1);
    IndexWalk.BeforeIsPrefix(AddressIn(p), ExtentsOf(p), i4, i3, i2 + 1);
    assert next == before + [Address(p, i4, i3, i2)] && next[|next| - 1] == Segments(p)[|next| - 1];
    assert next[..|next| - 1] == before;
    assert before <= next;
    VolumePrefix(next, Segments(p), p.len1);
  }

  method Memcpy(dst: array<int>, d: nat, src: array<int>, s: nat, n: nat)
    requires dst != src && d + n <= dst.Length && s + n <= src.Length
    modifies dst
    ensures dst[..] == Overwrite(old(dst[..]), d, src[s..s + n])
  {
    forall k | 0 <= k < n {
      dst[d + k] := src[s + k];
    }
  }

  lemma OverwriteAtEnd(b: seq<int>, at: nat, x: seq<int>)
    requires at + |x| <= |b|
    ensures Overwrite(b, at, x)[..at + |x|] == b[..at] + x
  {
  }

  /** The first length elements of the buffer are the segments gathered so far. */
  ghost predicate GatheredUpTo(m: seq<int>, segs: seq<nat>, n: nat, b: seq<int>, length: nat) {
    InBounds(segs, n, |m|) && length == Volume(segs, n) <= |b| && b[..length] == Gathered(m, segs, n)
  }

  lemma GatherStep(m: seq<int>, p: Region, i4: nat, i3: nat, i2: nat, b: seq<int>, length: nat)
    requires i4 < p.len4 && i3 < p.len3 && i2 < p.len2 && InBounds(Segments(p), p.len1, |m|)
    requires GatheredUpTo(m, Before(p, i4, i3, i2), p.len1, b, length) && Volume(Segments(p), p.len1) <= |b|
    ensures Address(p, i4, i3, i2) + p.len1 <= |m| && length + p.len1 <= |b|
    ensures var a := Address(p, i4, i3, i2);
      GatheredUpTo(m, Before(p, i4, i3, i2 + 1), p.len1, Overwrite(b, length, m[a..a + p.len1]), length + p.len1)
  {
    NextSegment(p, i4, i3, i2, |m|);
    GatherSnoc(m, Before(p, i4, i3, i2), p.len1, b, length, Address(p, i4, i3, i2));
  }

  lemma GatherSnoc(m: seq<int>, segs: seq<nat>, n: nat, b: seq<int>, length: nat, a: nat)
    requires GatheredUpTo(m, segs, n, b, length) && a + n <= |m| && length + n <= |b|
    ensures GatheredUpTo(m, segs + [a], n, Overwrite(b, length, m[a..a + n]), length + n)
  {
    var next := segs + [a];
    assert next[..|next| - 1] == segs;
    assert InBounds(next, n, |m|);
    OverwriteAtEnd(b, length, m[a..a + n]);
  }

  lemma StepAddress(p: Region, i4: nat, i3: nat, i2: nat)
    ensures Address(p, i4, i3, i2) + p.str2 == Address(p, i4, i3, i2 + 1)
    ensures Address(p, i4, i3, i2) + p.str3 == Address(p, i4, i3 + 1, i2)
    ensures Address(p, i4, i3, i2) + p.str4 == Address(p, i4 + 1, i3, i2)
  {
    assert (i2 + 1) * p.str2 == i2 * p.str2 + p.str2;
    assert (i3 + 1) * p.str3 == i3 * p.str3 + p.str3;
    assert (i4 + 1) * p.str4 == i4 * p.str4 + p.str4;
  }

  method GatherSegment(
    mem: array<int>, p: Region, ghost i4: nat, ghost i3: nat, ghost i2: nat, bounce: array<int>, length: nat,
    paddr1: nat)
    requires mem != bounce && i4 < p.len4 && i3 < p.len3 && i2 < p.len2
    requires InBounds(Segments(p), p.len1, mem.Length) && Volume(Segments(p), p.len1) <= bounce.Length
    requires GatheredUpTo(mem[..], Before(p, i4, i3, i2), p.len1, bounce[..], length)
    requires paddr1 == Address(p, i4, i3, i2)
    modifies bounce
    ensures GatheredUpTo(mem[..], Before(p, i4, i3, i2 + 1), p.len1, bounce[..], length + p.len1)
  {
    GatherStep(mem[..], p, i4, i3, i2, bounce[..], length);
    assert mem[..][paddr1..paddr1 + p.len1] == mem[paddr1..paddr1 + p.len1];
    Memcpy(bounce, length, mem, paddr1, p.len1);
  }

  /** Copies every segment of memory to the bounce buffer, as for a host-to-device copy. */
  method Gather(mem: array<int>, p: Region, bounce: array<int>) returns (length: nat)
    requires mem != bounce && InBounds(Segments(p), p.len1, mem.Length)
    requires Volume(Segments(p), p.len1) <= bounce.Length
    modifies bounce
    ensures length == Volume(Segments(p), p.len1)
    ensures bounce[..length] == Gathered(mem[..], Segments(p), p.len1)
  {
    length := 0;
    ghost var m := mem[..];
    var paddr3: nat := p.base;
    for i4 := 0 to p.len4
      invariant paddr3 == Address(p, i4, 0, 0) && mem[..] == m
      invariant GatheredUpTo(m, Before(p, i4, 0, 0), p.len1, bounce[..], length)
    {
      var paddr2: nat := paddr3;
      for i3 := 0 to p.len3
        invariant paddr2 == Address(p, i4, i3, 0) && mem[..] == m
        invariant GatheredUpTo(m, Before(p, i4, i3, 0), p.len1, bounce[..], length)
      {
        var paddr1: nat := paddr2;
        for i2 := 0 to p.len2
          invariant paddr1 == Address(p, i4, i3, i2) && mem[..] == m
          invariant GatheredUpTo(m, Before(p, i4, i3, i2), p.len1, bounce[..], length)
        {
          GatherSegment(mem, p, i4, i3, i2, bounce, length, paddr1);
          length := length + p.len1;
          StepAddress(p, i4, i3, i2);
          paddr1 := paddr1 + p.str2;
        }
        StepAddress(p, i4, i3, 0);
        paddr2 := paddr2 + p.str3;
      }
      StepAddress(p, i4, 0, 0);
      paddr3 := paddr3 + p.str4;
    }
  }

  /** Memory is what it was, with the first length elements of the buffer scattered. */
  ghost predicate ScatteredUpTo(m: seq<int>, segs: seq<nat>, n: nat, b: seq<int>, length: nat, now: seq<int>) {
    && InBounds(segs, n, |m|) && length == Volume(segs, n) <= |b|
    && now == Scattered(m, segs, n, b[..length])
  }

  lemma ScatterStep(m: seq<int>, p: Region, i4: nat, i3: nat, i2: nat, b: seq<int>, length: nat, now: seq<int>)
    requires i4 < p.len4 && i3 < p.len3 && i2 < p.len2 && InBounds(Segments(p), p.len1, |m|)
    requires ScatteredUpTo(m, Before(p, i4, i3, i2), p.len1, b, length, now) && Volume(Segments(p), p.len1) <= |b|
    ensures Address(p, i4, i3, i2) + p.len1 <= |now| && length + p.len1 <= |b|
    ensures ScatteredUpTo(m, Before(p, i4, i3, i2 + 1), p.len1, b, length + p.len1,
                          Overwrite(now, Address(p, i4, i3, i2), b[length..length + p.len1]))
  {
    NextSegment(p, i4, i3, i2, |m|);
    ScatterSnoc(m, Before(p, i4, i3, i2), p.len1, b, length, now, Address(p, i4, i3, i2));
  }

  lemma ScatterSnoc(m: seq<int>, segs: seq<nat>, n: nat, b: seq<int>, length: nat, now: seq<int>, a: nat)
    requires ScatteredUpTo(m, segs, n, b, length, now) && a + n <= |m| && length + n <= |b|
    ensures |now| == |m| && ScatteredUpTo(m, segs + [a], n, b, length + n, Overwrite(now, a, b[length..length + n]))
  {
    var next, c := segs + [a], b[..length + n];
    assert next[..|next| - 1] == segs;
    assert InBounds(next, n, |m|);
    assert c[..|c| - n] == b[..length] && c[|c| - n..] == b[length..length + n];
  }

  method ScatterSegment(
    mem: array<int>, p: Region, ghost i4: nat, ghost i3: nat, ghost i2: nat, bounce: array<int>, length: nat,
    paddr1: nat, ghost m: seq<int>)
    requires mem != bounce && i4 < p.len4 && i3 < p.len3 && i2 < p.len2
    requires InBounds(Segments(p), p.len1, |m|) && Volume(Segments(p), p.len1) <= bounce.Length
    requires ScatteredUpTo(m, Before(p, i4, i3, i2), p.len1, bounce[..], length, mem[..])
    requires paddr1 == Address(p, i4, i3, i2)
    modifies mem
    ensures ScatteredUpTo(m, Before(p, i4, i3, i2 + 1), p.len1, bounce[..], length + p.len1, mem[..])
  {
    ghost var b, now := bounce[..], mem[..];
    ScatterStep(m, p, i4, i3, i2, b, length, now);
    assert b[length..length + p.len1] == bounce[length..length + p.len1];
    Memcpy(mem, paddr1, bounce, length, p.len1);
    assert bounce[..] == b && mem[..] == Overwrite(now, paddr1, b[length..length + p.len1]);
  }

  /** Copies the bounce buffer to the segments, as for a device-to-host copy. */
  method Scatter(mem: array<int>, p: Region, bounce: array<int>)
    requires mem != bounce && InBounds(Segments(p), p.len1, mem.Length)
    requires Volume(Segments(p), p.len1) <= bounce.Length
    modifies mem
    ensures mem[..] == Scattered(old(mem[..]), Segments(p), p.len1, bounce[..Volume(Segments(p), p.len1)])
  {
    var length: nat := 0;
    ghost var m, b := mem[..], bounce[..];
    var paddr3: nat := p.base;
    for i4 := 0 to p.len4
      invariant paddr3 == Address(p, i4, 0, 0) && bounce[..] == b
      invariant ScatteredUpTo(m, Before(p, i4, 0, 0), p.len1, b, length, mem[..])
    {
      var paddr2: nat := paddr3;
      for i3 := 0 to p.len3
        invariant paddr2 == Address(p, i4, i3, 0) && bounce[..] == b
        invariant ScatteredUpTo(m, Before(p, i4, i3, 0), p.len1, b, length, mem[..])
      {
        var paddr1: nat := paddr2;
        for i2 := 0 to p.len2
          invariant paddr1 == Address(p, i4, i3, i2) && bounce[..] == b
          invariant ScatteredUpTo(m, Before(p, i4, i3, i2), p.len1, b, length, mem[..])
        {
          ScatterSegment(mem, p, i4, i3, i2, bounce, length, paddr1, m);
          length := length + p.len1;
          StepAddress(p, i4, i3, i2);
          paddr1 := paddr1 + p.str2;
        }
        StepAddress(p, i4, i3, 0);
        paddr2 := paddr2 + p.str3;
      }
      StepAddress(p, i4, 0, 0);
      paddr3 := paddr3 + p.str4;
    }
  }
}
