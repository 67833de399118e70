/** The tiled loop nest that takes the place of a band of loops, one loop for each prime
    factor of each trip count. */
module Tiling {
  import opened Arithmetic
  import opened Factors

  /** A constant, or the value of an enclosing loop plus a shift. */
  datatype Bound = Const(value: nat) | Outer(level: nat, shift: nat)

  datatype Loop = Loop(lb: Bound, ub: Bound, step: nat)

  // ---------- What a nest executes ----------

  function Value(b: Bound, ivs: seq<nat>): nat {
    match b
    case Const(value) => value
    case Outer(level, shift) => if level < |ivs| then ivs[level] + shift else 0
  }

  /** The tuples of loop variables with which the innermost body runs, in order, when loops
      0..k-1 are at `ivs`. */
  function Runs(loops: seq<Loop>, k: nat, ivs: seq<nat>): seq<seq<nat>>
    requires k <= |loops|
    decreases |loops| - k, 0, 0
  {
    if k == |loops| then [ivs]
    else RunsFrom(loops, k, ivs, Value(loops[k].lb, ivs), Value(loops[k].ub, ivs))
  }

  /** The same when loop k is at v; a loop whose step is not positive does not run. */
  function RunsFrom(loops: seq<Loop>, k: nat, ivs: seq<nat>, v: nat, ub: nat): seq<seq<nat>>
    requires k < |loops|
    decreases |loops| - k - 1, 1, if v < ub then ub - v else 0
  {
    if v >= ub || loops[k].step == 0 then []
    else Runs(loops, k + 1, ivs + [v]) + RunsFrom(loops, k, ivs, v + loops[k].step, ub)
  }

  /** What the body sees of a tuple: the variables of the levels given. */
  function Seen(levels: seq<nat>, ivs: seq<nat>): seq<nat> {
    seq<nat>(|levels|, i requires 0 <= i < |levels| => if levels[i] < |ivs| then ivs[levels[i]] else 0)
  }

  function AllSeen(levels: seq<nat>, runs: seq<seq<nat>>): seq<seq<nat>> {
    seq(|runs|, i requires 0 <= i < |runs| => Seen(levels, runs[i]))
  }

  // ---------- The original band ----------

  /** The tuples from (x, 0, ..) up to (hi, 0, ..) in dimension d, in lexicographic order. */
  function Tuples(bounds: seq<nat>, d: nat, orig: seq<nat>, x: nat, hi: nat): seq<seq<nat>>
    requires d < |bounds|
    decreases |bounds| - d, 0, if x < hi then hi - x else 0
  {
    if x >= hi then [] else AllTuples(bounds, d + 1, orig + [x]) + Tuples(bounds, d, orig, x + 1, hi)
  }

  function AllTuples(bounds: seq<nat>, d: nat, orig: seq<nat>): seq<seq<nat>>
    requires d <= |bounds|
    decreases |bounds| - d, 1, 0
  {
    if d == |bounds| then [orig] else Tuples(bounds, d, orig, 0, bounds[d])
  }

  // ---------- The tiled nest ----------

  /** Loops before dimension d. */
  function Base(factors: seq<seq<nat>>, d: nat): nat
    requires d <= |factors|
  {
    if d == 0 then 0 else Base(factors, d - 1) + |factors[d - 1]|
  }

  /** Loop j of a dimension with trip count n, whose first loop is at level `base`. */
  function TiledLoop(n: nat, primes: seq<nat>, base: nat, j: nat): Loop
    requires j < |primes|
  {
    if j == 0 then Loop(Const(0), Const(n), Product(primes[1..]))
    else Loop(Outer(base + j - 1, 0), Outer(base + j - 1, Product(primes[j..])), Product(primes[j + 1..]))
  }

  /** The loops and levels of the first n dimensions. */
  ghost predicate IsNest(bounds: seq<nat>, factors: seq<seq<nat>>, n: nat, loops: seq<Loop>, levels: seq<nat>)
    requires |bounds| == |factors| && n <= |factors|
  {
    && Base(factors, n) <= |loops| && |levels| == n
    && forall d :: 0 <= d < n ==> IsDimension(bounds, factors, d, loops) && levels[d] + 1 == Base(factors, d + 1)
  }

  ghost predicate IsDimension(bounds: seq<nat>, factors: seq<seq<nat>>, d: nat, loops: seq<Loop>)
    requires |bounds| == |factors| && d < |factors|
  {
    && Base(factors, d + 1) <= |loops|
    && forall j :: 0 <= j < |factors[d]| ==>
         loops[Base(factors, d) + j] == TiledLoop(bounds[d], factors[d], Base(factors, d), j)
  }

  /** Every trip count is the product of its factors, and has one. */
  ghost predicate AreFactors(bounds: seq<nat>, factors: seq<seq<nat>>) {
    && |bounds| == |factors|
    && forall d :: 0 <= d < |bounds| ==>
         && |factors[d]| > 0 && Product(factors[d]) == bounds[d]
         && forall j :: 0 <= j < |factors[d]| ==> factors[d][j] > 0
  }

  // ---------- The tiled nest runs the body on the original tuples ----------

  lemma {:induction false} TuplesSplit(bounds: seq<nat>, d: nat, orig: seq<nat>, x: nat, mid: nat, hi: nat)
    requires d < |bounds| && x <= mid <= hi
    ensures Tuples(bounds, d, orig, x, hi) == Tuples(bounds, d, orig, x, mid) + Tuples(bounds, d, orig, mid, hi)
    decreases mid - x
  {
    if x < mid {
      TuplesSplit(bounds, d, orig, x + 1, mid, hi);
    }
  }

  lemma AllSeenConcat(levels: seq<nat>, a: seq<seq<nat>>, b: seq<seq<nat>>)
    ensures AllSeen(levels, a + b) == AllSeen(levels, a) + AllSeen(levels, b)
  {
  }

  lemma {:induction false} PositiveProduct(s: seq<nat>)
    requires forall i :: 0 <= i < |s| ==> s[i] > 0
    ensures Product(s) > 0
  {
    if s != [] {
      PositiveProduct(s[1..]);
    }
  }

  lemma {:induction false} BaseGrows(factors: seq<seq<nat>>, d: nat, e: nat)
    requires d <= e <= |factors|
    ensures Base(factors, d) <= Base(factors, e)
  {
    if d < e {
      BaseGrows(factors, d, e - 1);
    }
  }

  /** A tuple under way: the original variables so far are where the levels say. */
  ghost predicate Stands(factors: seq<seq<nat>>, levels: seq<nat>, d: nat, ivs: seq<nat>, orig: seq<nat>)
    requires d <= |levels|
  {
    |orig| == d && forall i :: 0 <= i < d ==> levels[i] < |ivs| && ivs[levels[i]] == orig[i]
  }

  /** From dimension d on. */
  lemma {:induction false} DimensionRuns(bounds: seq<nat>, factors: seq<seq<nat>>, loops: seq<Loop>, levels: seq<nat>,
                                         d: nat, ivs: seq<nat>, orig: seq<nat>)
    requires AreFactors(bounds, factors) && d <= |bounds|
    requires IsNest(bounds, factors, |factors|, loops, levels) && |loops| == Base(factors, |factors|)
    requires |ivs| == Base(factors, d) && Stands(factors, levels, d, ivs, orig)
    ensures Base(factors, d) <= |loops|
    ensures AllSeen(levels, Runs(loops, Base(factors, d), ivs)) == AllTuples(bounds, d, orig)
    decreases |bounds| - d, 0, 0, 0
  {
    BaseGrows(factors, d, |factors|);
    if d == |bounds| {
      assert Seen(levels, ivs) == orig;
    } else {
      BaseGrows(factors, d + 1, |factors|);
      var primes := factors[d];
      assert IsDimension(bounds, factors, d, loops);
      assert loops[Base(factors, d) + 0] == TiledLoop(bounds[d], primes, Base(factors, d), 0);
      StepOfLoop(bounds, factors, loops, levels, d, 0);
      StepsMultiply(primes[0], Product(primes[1..]));
      LevelRuns(bounds, factors, loops, levels, d, 0, ivs, orig, 0, primes[0], bounds[d]);
    }
  }

  /** One iteration at v and those from v + step on make those from v on. */
  lemma {:induction false} LevelStep(bounds: seq<nat>, loops: seq<Loop>, levels: seq<nat>, d: nat, ivs: seq<nat>,
                                     orig: seq<nat>, v: nat, hi: nat)
    requires d < |bounds| && |ivs| < |loops| && 0 < loops[|ivs|].step && v + loops[|ivs|].step <= hi
    requires var step := loops[|ivs|].step;
      && AllSeen(levels, Runs(loops, |ivs| + 1, ivs + [v])) == Tuples(bounds, d, orig, v, v + step)
      && AllSeen(levels, RunsFrom(loops, |ivs|, ivs, v + step, hi)) == Tuples(bounds, d, orig, v + step, hi)
    ensures AllSeen(levels, RunsFrom(loops, |ivs|, ivs, v, hi)) == Tuples(bounds, d, orig, v, hi)
  {
    var k, step := |ivs|, loops[|ivs|].step;
    AllSeenConcat(levels, Runs(loops, k + 1, ivs + [v]), RunsFrom(loops, k, ivs, v + step, hi));
    TuplesSplit(bounds, d, orig, v, v + step, hi);
  }

  /** How far count steps lead. */
  function Steps(count: nat, step: nat): nat {
    if count == 0 then 0 else step + Steps(count - 1, step)
  }

  lemma {:induction false} StepsMultiply(count: nat, step: nat)
    ensures Steps(count, step) == count * step
  {
    if count > 0 {
      StepsMultiply(count - 1, step);
    }
  }

  lemma {:induction false} StepOfLoop(bounds: seq<nat>, factors: seq<seq<nat>>, loops: seq<Loop>, levels: seq<nat>,
                                      d: nat, j: nat)
    requires AreFactors(bounds, factors) && d < |bounds| && j < |factors[d]|
    requires IsNest(bounds, factors, |factors|, loops, levels)
    ensures Base(factors, d) + j < |loops|
    ensures loops[Base(factors, d) + j].step == Product(factors[d][j + 1..]) > 0
  {
    PositiveProduct(factors[d][j + 1..]);
    assert IsDimension(bounds, factors, d, loops);
    assert loops[Base(factors, d) + j] == TiledLoop(bounds[d], factors[d], Base(factors, d), j);
  }

  lemma {:induction false} NoRuns(bounds: seq<nat>, loops: seq<Loop>, levels: seq<nat>, d: nat, ivs: seq<nat>,
                                  orig: seq<nat>, v: nat)
    requires d < |bounds| && |ivs| < |loops|
    ensures AllSeen(levels, RunsFrom(loops, |ivs|, ivs, v, v)) == Tuples(bounds, d, orig, v, v)
  {
  }

  /** Loop j of dimension d, at v with count iterations to go, up to hi. */
  lemma {:induction false} LevelRuns(bounds: seq<nat>, factors: seq<seq<nat>>, loops: seq<Loop>, levels: seq<nat>,
                                     d: nat, j: nat, ivs: seq<nat>, orig: seq<nat>, v: nat, count: nat, hi: nat)
    requires AreFactors(bounds, factors) && d < |bounds| && j < |factors[d]|
    requires IsNest(bounds, factors, |factors|, loops, levels) && |loops| == Base(factors, |factors|)
    requires |ivs| == Base(factors, d) + j < |loops| && Stands(factors, levels, d, ivs, orig)
    requires loops[|ivs|].step > 0 && hi == v + Steps(count, loops[|ivs|].step)
    ensures AllSeen(levels, RunsFrom(loops, |ivs|, ivs, v, hi)) == Tuples(bounds, d, orig, v, hi)
    decreases |bounds| - d - 1, |factors[d]| - j, 1, count
  {
    if count == 0 {
      NoRuns(bounds, loops, levels, d, ivs, orig, v);
    } else {
      LevelRuns(bounds, factors, loops, levels, d, j, ivs, orig, v + loops[|ivs|].step, count - 1, hi);
      IterationRuns(bounds, factors, loops, levels, d, j, ivs, orig, v);
      LevelStep(bounds, loops, levels, d, ivs, orig, v, hi);
    }
  }

  /** One iteration of loop j of dimension d, at v, runs through the step of the loop. */
  lemma {:induction false} IterationRuns(bounds: seq<nat>, factors: seq<seq<nat>>, loops: seq<Loop>, levels: seq<nat>,
                                         d: nat, j: nat, ivs: seq<nat>, orig: seq<nat>, v: nat)
    requires AreFactors(bounds, factors) && d < |bounds| && j < |factors[d]|
    requires IsNest(bounds, factors, |factors|, loops, levels) && |loops| == Base(factors, |factors|)
    requires |ivs| == Base(factors, d) + j < |loops| && Stands(factors, levels, d, ivs, orig)
    ensures AllSeen(levels, Runs(loops, |ivs| + 1, ivs + [v])) == Tuples(bounds, d, orig, v, v + loops[|ivs|].step)
    decreases |bounds| - d - 1, |factors[d]| - j, 0, 0
  {
    var primes, k := factors[d], |ivs|;
    StepOfLoop(bounds, factors, loops, levels, d, j);
    if j + 1 < |primes| {
      BaseGrows(factors, d + 1, |factors|);
      InnerLoop(bounds, factors, loops, levels, d, j, ivs + [v]);
      LevelRuns(bounds, factors, loops, levels, d, j + 1, ivs + [v], orig, v, primes[j + 1], v + loops[k].step);
    } else {
      assert primes[j + 1..] == [];
      assert Stands(factors, levels, d + 1, ivs + [v], orig + [v]);
      DimensionRuns(bounds, factors, loops, levels, d + 1, ivs + [v], orig + [v]);
      assert Tuples(bounds, d, orig, v + 1, v + 1) == [];
    }
  }

  /** The loop inside runs through one step of the loop outside it. */
  lemma {:induction false} InnerLoop(bounds: seq<nat>, factors: seq<seq<nat>>, loops: seq<Loop>, levels: seq<nat>,
                                     d: nat, j: nat, ivs: seq<nat>)
    requires AreFactors(bounds, factors) && d < |bounds| && j + 1 < |factors[d]|
    requires IsNest(bounds, factors, |factors|, loops, levels) && |ivs| == Base(factors, d) + j + 1 < |loops|
    ensures loops[|ivs|].step > 0 && loops[|ivs| - 1].step == Steps(factors[d][j + 1], loops[|ivs|].step)
    ensures Value(loops[|ivs|].lb, ivs) == ivs[|ivs| - 1]
    ensures Value(loops[|ivs|].ub, ivs) == ivs[|ivs| - 1] + loops[|ivs| - 1].step
  {
    var primes := factors[d];
    StepOfLoop(bounds, factors, loops, levels, d, j);
    StepOfLoop(bounds, factors, loops, levels, d, j + 1);
    StepsMultiply(primes[j + 1], Product(primes[j + 2..]));
    assert primes[j + 1..][0] == primes[j + 1] && primes[j + 1..][1..] == primes[j + 2..];
    assert IsDimension(bounds, factors, d, loops);
    assert loops[Base(factors, d) + (j + 1)] == TiledLoop(bounds[d], primes, Base(factors, d), j + 1);
  }

  /** The theorem: the body runs on exactly the original tuples, once each, in their order. */
  lemma NestRunsOriginalTuples(bounds: seq<nat>, factors: seq<seq<nat>>, loops: seq<Loop>, levels: seq<nat>)
    requires AreFactors(bounds, factors)
    requires IsNest(bounds, factors, |factors|, loops, levels) && |loops| == Base(factors, |factors|)
    ensures AllSeen(levels, Runs(loops, 0, [])) == AllTuples(bounds, 0, [])
  {
    DimensionRuns(bounds, factors, loops, levels, 0, [], []);
  }

  /** The factors of each trip count are its prime factors in ascending order. */
  ghost predicate PrimesOf(bounds: seq<nat>, factors: seq<seq<nat>>) {
    && |bounds| == |factors|
    && forall d :: 0 <= d < |bounds| ==> AscendingPrimes(factors[d]) && Product(factors[d]) == bounds[d]
  }

  lemma PrimesAreFactors(bounds: seq<nat>, factors: seq<seq<nat>>)
    requires PrimesOf(bounds, factors) && forall d :: 0 <= d < |bounds| ==> bounds[d] > 1
    ensures AreFactors(bounds, factors)
  {
    forall d, j | 0 <= d < |bounds| && 0 <= j < |factors[d]|
      ensures factors[d][j] > 0
    {
      assert IsPrime(factors[d][j]);
    }
  }

  /** Each loop runs as often as its factor says, whatever the loops around it are at, and the last
      loop of a dimension goes in steps of one. */
  lemma {:induction false} LoopRunsItsFactor(
    bounds: seq<nat>, factors: seq<seq<nat>>, loops: seq<Loop>, levels: seq<nat>, d: nat, j: nat, ivs: seq<nat>)
    requires AreFactors(bounds, factors) && IsNest(bounds, factors, |factors|, loops, levels)
    requires d < |bounds| && j < |factors[d]| && |ivs| == Base(factors, d) + j
    ensures |ivs| < |loops|
    ensures var loop := loops[|ivs|];
      && loop.step > 0
      && Value(loop.ub, ivs) == Value(loop.lb, ivs) + factors[d][j] * loop.step
      && (j == |factors[d]| - 1 ==> loop.step == 1)
      && (j == 0 ==> Value(loop.lb, ivs) == 0) && (j > 0 ==> Value(loop.lb, ivs) == ivs[|ivs| - 1])
  {
    var primes := factors[d];
    StepOfLoop(bounds, factors, loops, levels, d, j);
    assert IsDimension(bounds, factors, d, loops);
    assert loops[Base(factors, d) + j] == TiledLoop(bounds[d], primes, Base(factors, d), j);
    assert primes[j..][0] == primes[j] && primes[j..][1..] == primes[j + 1..];
    assert Product(primes[j..]) == primes[j] * Product(primes[j + 1..]);
    assert primes[0..] == primes;
  }

  // ---------- The pass ----------

  /** Product of the factors from number j on. */
  method ProductFrom(primes: seq<nat>, j: nat) returns (product: nat)
    requires j <= |primes|
    ensures product == Product(primes[j..])
  {
    product := 1;
    var k := j;
    assert primes[j..j] == [];
    while k < |primes|
      invariant j <= k <= |primes| && product == Product(primes[j..k])
    {
      ProductSnoc(primes[j..k], primes[k]);
      assert primes[j..k] + [primes[k]] == primes[j..k + 1];
      product := product * primes[k];
      k := k + 1;
    }
    assert primes[j..k] == primes[j..];
  }

  class AutomaticTiling {
    /** The next free level of the nest; it outlives a call. */
    var forOpLevel: nat

    constructor ()
      ensures forOpLevel == 0
    {
      forOpLevel := 0;
    }

    /** Bounds and steps of the loops of all dimensions. A loop number beyond the nest, which
        a second band would need, ends the pass without result. */
    method ConstructTiledLoopNest(bounds: seq<nat>, tiledLoops: array<Loop>, factors: seq<seq<nat>>)
        returns (ok: bool, loopLevels: seq<nat>)
      requires |bounds| == |factors| > 0 && tiledLoops.Length == Base(factors, |factors|)
      requires forall d :: 0 <= d < |factors| ==> |factors[d]| > 0
      modifies this, tiledLoops
      ensures ok <==> old(forOpLevel) == 0
      ensures ok ==> IsNest(bounds, factors, |factors|, tiledLoops[..], loopLevels)
      ensures ok ==> forOpLevel == Base(factors, |factors|)
      ensures forOpLevel > 0
    {
      loopLevels := [];
      var i: nat := 0;
      while i < |factors|
        invariant i <= |factors| && forOpLevel == old(forOpLevel) + Base(factors, i)
        invariant forOpLevel <= tiledLoops.Length || i == 0
        invariant old(forOpLevel) == 0 ==> IsNest(bounds, factors, i, tiledLoops[..], loopLevels)
      {
        ghost var before := tiledLoops[..];
        BaseGrows(factors, i + 1, |factors|);
        var singleWidth := |factors[i]|;
        if forOpLevel + singleWidth > tiledLoops.Length {
          return false, loopLevels;
        }
        SetDimension(bounds[i], factors[i], tiledLoops);
        if old(forOpLevel) == 0 {
          OtherDimensions(bounds, factors, i, before, tiledLoops[..], loopLevels);
        }
        loopLevels := loopLevels + [forOpLevel + singleWidth - 1];
        forOpLevel := forOpLevel + singleWidth;
        i := i + 1;
      }
      BaseGrows(factors, 1, |factors|);
      return true, loopLevels;
    }

    /** The loops of one dimension, from level forOpLevel on. */
    method SetDimension(bound: nat, primes: seq<nat>, tiledLoops: array<Loop>)
      requires |primes| > 0 && forOpLevel + |primes| <= tiledLoops.Length
      modifies tiledLoops
      ensures forall j :: 0 <= j < |primes| ==> tiledLoops[forOpLevel + j] == TiledLoop(bound, primes, forOpLevel, j)
      ensures forall k :: 0 <= k < forOpLevel ==> tiledLoops[k] == old(tiledLoops[k])
    {
      var stepSize := ProductFrom(primes, 1);
      tiledLoops[forOpLevel] := Loop(Const(0), Const(bound), stepSize);
      var j: nat := 1;
      while j < |primes|
        invariant 1 <= j <= |primes|
        invariant forall i :: 0 <= i < j ==> tiledLoops[forOpLevel + i] == TiledLoop(bound, primes, forOpLevel, i)
        invariant forall k :: 0 <= k < forOpLevel ==> tiledLoops[k] == old(tiledLoops[k])
      {
        var shiftAmount := ProductFrom(primes, j);
        var newStepSize := ProductFrom(primes, j + 1);
        tiledLoops[forOpLevel + j] :=
          Loop(Outer(forOpLevel + j - 1, 0), Outer(forOpLevel + j - 1, shiftAmount), newStepSize);
        j := j + 1;
      }
    }

    static lemma OtherDimensions(bounds: seq<nat>, factors: seq<seq<nat>>, n: nat, before: seq<Loop>, after: seq<Loop>,
                                 levels: seq<nat>)
      requires |bounds| == |factors| && n < |factors| && IsNest(bounds, factors, n, before, levels)
      requires |before| == |after| && Base(factors, n + 1) <= |after|
      requires forall k :: 0 <= k < Base(factors, n) ==> before[k] == after[k]
      ensures IsNest(bounds, factors, n, after, levels)
    {
      forall d | 0 <= d < n
        ensures IsDimension(bounds, factors, d, after)
      {
        assert IsDimension(bounds, factors, d, before);
        BaseGrows(factors, d + 1, n);
      }
    }

    /** One band of normalized loops: no result when the factorization does not return or the
        level that an earlier band has left is not zero. A tiled band has one loop for each prime
        factor of each trip count. */
    method TileLoops(bounds: seq<nat>)
        returns (tiled: bool, loops: seq<Loop>, loopLevels: seq<nat>, ghost factors: seq<seq<nat>>)
      requires |bounds| > 0 && forall d :: 0 <= d < |bounds| ==> bounds[d] > 1
      modifies this
      ensures tiled <==> old(forOpLevel) == 0 && forall d :: 0 <= d < |bounds| ==> !HasPrimeFrom(bounds[d], UINT)
      ensures tiled ==> AllSeen(loopLevels, Runs(loops, 0, [])) == AllTuples(bounds, 0, [])
      ensures tiled ==> PrimesOf(bounds, factors) && |loops| == Base(factors, |factors|)
      ensures tiled ==> IsNest(bounds, factors, |factors|, loops, loopLevels)
      ensures tiled ==> forOpLevel > 0
    {
      var primes: seq<seq<nat>> := [];
      factors := [];
      var totalWidth: nat := 0;
      loops, loopLevels := [], [];
      var d: nat := 0;
      while d < |bounds|
        invariant d <= |bounds| && |primes| == d && totalWidth == Base(primes, d)
        invariant PrimesOf(bounds[..d], primes) && forOpLevel == old(forOpLevel)
        invariant forall i :: 0 <= i < d ==> !HasPrimeFrom(bounds[i], UINT)
      {
        var r := FactorConstant(bounds[d]);
        if r.Diverges? {
          return false, loops, loopLevels, factors;
        }
        BaseSame(primes, r.factors, d);
        totalWidth := totalWidth + |r.factors|;
        primes := primes + [r.factors];
        d := d + 1;
      }
      assert bounds[..d] == bounds;
      PrimesAreFactors(bounds, primes);
      factors := primes;
      var tiledLoops := new Loop[totalWidth](_ => Loop(Const(0), Const(0), 1));
      tiled, loopLevels := ConstructTiledLoopNest(bounds, tiledLoops, primes);
      if tiled {
        NestRunsOriginalTuples(bounds, primes, tiledLoops[..], loopLevels);
      }
      return tiled, tiledLoops[..], loopLevels, factors;
    }

    static lemma {:induction false} BaseSame(factors: seq<seq<nat>>, more: seq<nat>, d: nat)
      requires d <= |factors|
      ensures Base(factors + [more], d) == Base(factors, d)
    {
      if d > 0 {
        BaseSame(factors, more, d - 1);
      }
    }
  }
}
