/** Dependency graphs over operations numbered in program order, and their
    transitive reduction. An edge (u, v) says that v waits for u. */
module DependencyGraph {

  type Graph = set<(nat, nat)>

  /** Every edge runs from an operation to a later one among the first n. */
  ghost predicate Forward(g: Graph, n: nat) {
    forall u, v :: (u, v) in g ==> u < v < n
  }

  /** There is a path, possibly empty, from u to v. */
  ghost predicate Reach(g: Graph, u: nat, v: nat)
    decreases v - u
  {
    u == v || exists w: nat :: u < w <= v && (u, w) in g && Reach(g, w, v)
  }

  lemma ReachBounds(g: Graph, u: nat, v: nat)
    requires Reach(g, u, v)
    ensures u <= v
  {
  }

  lemma {:induction false} ReachTransitive(g: Graph, u: nat, v: nat, w: nat)
    requires Reach(g, u, v) && Reach(g, v, w)
    ensures Reach(g, u, w)
    decreases v - u
  {
    ReachBounds(g, v, w);
    if u != v {
      var x: nat :| u < x <= v && (u, x) in g && Reach(g, x, v);
      ReachTransitive(g, x, v, w);
    }
  }

  lemma {:induction false} ReachMonotone(g: Graph, h: Graph, u: nat, v: nat)
    requires g <= h && Reach(g, u, v)
    ensures Reach(h, u, v)
    decreases v - u
  {
    if u != v {
      var x: nat :| u < x <= v && (u, x) in g && Reach(g, x, v);
      ReachMonotone(g, h, x, v);
    }
  }

  /** Edge (u, v) is implied by another path that leaves u by a different edge. */
  ghost predicate Implied(g: Graph, u: nat, v: nat) {
    exists w: nat :: u < w < v && (u, w) in g && Reach(g, w, v)
  }

  /** The edges that no other path implies. */
  ghost function Reduced(g: Graph): Graph {
    set e | e in g && !Implied(g, e.0, e.1)
  }

  /** The reduction orders exactly the pairs that the full graph orders. */
  lemma {:induction false} ReductionKeepsReach(g: Graph, n: nat, u: nat, v: nat)
    requires Forward(g, n)
    ensures Reach(g, u, v) <==> Reach(Reduced(g), u, v)
    decreases v - u
  {
    if Reach(Reduced(g), u, v) {
      ReachMonotone(Reduced(g), g, u, v);
    }
    if Reach(g, u, v) && u != v {
      var x: nat :| u < x <= v && (u, x) in g && Reach(g, x, v);
      EdgeSurvives(g, n, u, x);
      ReductionKeepsReach(g, n, x, v);
      ReachTransitive(Reduced(g), u, x, v);
    }
  }

  /** The ends of every edge stay connected when the graph is reduced. */
  lemma {:induction false} EdgeSurvives(g: Graph, n: nat, u: nat, v: nat)
    requires Forward(g, n) && (u, v) in g
    ensures Reach(Reduced(g), u, v)
    decreases v - u, 0
  {
    if Implied(g, u, v) {
      var w: nat :| u < w < v && (u, w) in g && Reach(g, w, v);
      EdgeSurvives(g, n, u, w);
      ReductionKeepsReach(g, n, w, v);
      ReachTransitive(Reduced(g), u, w, v);
    } else {
      assert (u, v) in Reduced(g) && Reach(Reduced(g), v, v);
    }
  }

  /** No edge of the reduction can be spared. */
  lemma {:induction false} ReductionIsMinimal(g: Graph, n: nat, u: nat, v: nat)
    requires Forward(g, n) && (u, v) in Reduced(g)
    ensures !Reach(Reduced(g) - {(u, v)}, u, v)
  {
    var h := Reduced(g) - {(u, v)};
    if Reach(h, u, v) {
      assert u < v;
      var w: nat :| u < w <= v && (u, w) in h && Reach(h, w, v);
      ReachMonotone(h, g, w, v);
      assert false;
    }
  }

  /** All vertices reachable from u, u included. */
  ghost predicate IsClosure(g: Graph, n: nat, u: nat, row: set<nat>) {
    forall v: nat :: v in row <==> v < n && Reach(g, u, v)
  }

  /** Vertices reachable from u through its successors below limit, and u. */
  ghost predicate IsPartialClosure(g: Graph, n: nat, u: nat, limit: nat, row: set<nat>) {
    forall v: nat :: v in row <==>
      v < n && (v == u || exists w: nat :: u < w < limit && (u, w) in g && Reach(g, w, v))
  }

  /** The targets below limit of the edges that u keeps. */
  ghost predicate IsKept(g: Graph, u: nat, limit: nat, kept: set<nat>) {
    forall v: nat :: v in kept <==> v < limit && (u, v) in Reduced(g)
  }

  /** The reduced edges that leave u or a later vertex. */
  ghost function ReducedFrom(g: Graph, u: nat): Graph {
    set e | e in Reduced(g) && u <= e.0
  }

  /** Adding one successor's closure extends a partial closure. */
  lemma ExtendClosure(g: Graph, n: nat, u: nat, w: nat, row: set<nat>, rowOfW: set<nat>)
    requires Forward(g, n) && u < w < n && (u, w) in g
    requires IsPartialClosure(g, n, u, w, row) && IsClosure(g, n, w, rowOfW)
    ensures IsPartialClosure(g, n, u, w + 1, row + rowOfW)
  {
    forall v: nat
      ensures v in row + rowOfW <==>
        v < n && (v == u || exists x: nat :: u < x < w + 1 && (u, x) in g && Reach(g, x, v))
    {
      if v < n && Reach(g, w, v) {
        assert u < w < w + 1 && (u, w) in g && Reach(g, w, v);
      }
    }
  }

  /** A successor that is already in the row is implied, and its closure adds nothing. */
  lemma ReachedEarlier(g: Graph, n: nat, u: nat, w: nat, row: set<nat>, rowOfW: set<nat>)
    requires Forward(g, n) && u < w < n && (u, w) in g
    requires IsPartialClosure(g, n, u, w, row) && IsClosure(g, n, w, rowOfW)
    ensures w in row <==> Implied(g, u, w)
    ensures w in row ==> row + rowOfW == row
  {
    if w in row {
      var x: nat :| u < x < w && (u, x) in g && Reach(g, x, w);
      forall v | v in rowOfW
        ensures v in row
      {
        ReachTransitive(g, x, w, v);
      }
    }
  }

  lemma SkipVertex(g: Graph, n: nat, u: nat, w: nat, row: set<nat>)
    requires u < w && (u, w) !in g && IsPartialClosure(g, n, u, w, row)
    ensures IsPartialClosure(g, n, u, w + 1, row)
  {
    forall v: nat
      ensures v in row <==>
        v < n && (v == u || exists x: nat :: u < x < w + 1 && (u, x) in g && Reach(g, x, v))
    {
      if v in row && v != u {
        var x: nat :| u < x < w && (u, x) in g && Reach(g, x, v);
        assert u < x < w + 1;
      }
    }
  }

  lemma KeepEdge(g: Graph, u: nat, w: nat, kept: set<nat>)
    requires IsKept(g, u, w, kept)
    ensures (u, w) in g && !Implied(g, u, w) ==> IsKept(g, u, w + 1, kept + {w})
    ensures (u, w) !in g || Implied(g, u, w) ==> IsKept(g, u, w + 1, kept)
  {
    assert (u, w) in Reduced(g) <==> (u, w) in g && !Implied(g, u, w);
  }

  /** One successor of u: its edge is kept when it is not yet reached. */
  lemma RowStep(g: Graph, n: nat, u: nat, w: nat, row: set<nat>, kept: set<nat>, rowOfW: set<nat>)
    requires Forward(g, n) && u < w < n
    requires IsPartialClosure(g, n, u, w, row) && IsKept(g, u, w, kept) && IsClosure(g, n, w, rowOfW)
    ensures var first := (u, w) in g && w !in row;
      && IsPartialClosure(g, n, u, w + 1, if first then row + rowOfW else row)
      && IsKept(g, u, w + 1, if first then kept + {w} else kept)
  {
    KeepEdge(g, u, w, kept);
    if (u, w) in g {
      ExtendClosure(g, n, u, w, row, rowOfW);
      ReachedEarlier(g, n, u, w, row, rowOfW);
    } else {
      SkipVertex(g, n, u, w, row);
    }
  }

  lemma RowDone(g: Graph, n: nat, u: nat, row: set<nat>, kept: set<nat>)
    requires Forward(g, n) && u < n && IsPartialClosure(g, n, u, n, row) && IsKept(g, u, n, kept)
    ensures IsClosure(g, n, u, row) && kept == set e | e in Reduced(g) && e.0 == u :: e.1
  {
    PartialClosureIsClosure(g, n, u, row);
    assert forall v: nat :: (u, v) in Reduced(g) ==> v < n;
  }

  lemma FirstRow(g: Graph, n: nat, u: nat)
    requires Forward(g, n) && u < n
    ensures IsPartialClosure(g, n, u, u + 1, {u}) && IsKept(g, u, u + 1, {})
  {
    assert forall v: nat :: (u, v) in Reduced(g) ==> u < v;
  }

  /** The successors of u in topological order; an edge is kept only when its target is not
      already reached through an earlier successor. */
  method ReduceRow(g: Graph, n: nat, u: nat, closure: array<set<nat>>) returns (row: set<nat>, kept: set<nat>)
    requires Forward(g, n) && u < n == closure.Length
    requires forall k: nat :: u < k < n ==> IsClosure(g, n, k, closure[k])
    ensures IsClosure(g, n, u, row) && kept == set e | e in Reduced(g) && e.0 == u :: e.1
  {
    row, kept := {u}, {};
    FirstRow(g, n, u);
    var w := u + 1;
    while w < n
      invariant u < w <= n
      invariant IsPartialClosure(g, n, u, w, row) && IsKept(g, u, w, kept)
    {
      RowStep(g, n, u, w, row, kept, closure[w]);
      if (u, w) in g && w !in row {
        kept := kept + {w};
        row := row + closure[w];
      }
      w := w + 1;
    }
    RowDone(g, n, u, row, kept);
  }

  lemma AddRow(g: Graph, u: nat, kept: set<nat>)
    requires kept == set e | e in Reduced(g) && e.0 == u :: e.1
    ensures ReducedFrom(g, u) == ReducedFrom(g, u + 1) + set v | v in kept :: (u, v)
  {
    forall e
      ensures e in ReducedFrom(g, u) <==> e in ReducedFrom(g, u + 1) || (e.0 == u && e.1 in kept)
    {
      if e in ReducedFrom(g, u) && e.0 == u {
        assert e in Reduced(g) && e.0 == u;
      }
    }
  }

  /** Computes the reduction the way the graph library does, vertex by vertex in reverse
      topological order. */
  method TransitiveReduction(g: Graph, n: nat) returns (tr: Graph)
    requires Forward(g, n)
    ensures tr == Reduced(g)
  {
    tr := {};
    var closure := new set<nat>[n](_ => {});
    var u := n;
    NothingFrom(g, n);
    while u > 0
      invariant 0 <= u <= n
      invariant forall k: nat :: u <= k < n ==> IsClosure(g, n, k, closure[k])
      invariant tr == ReducedFrom(g, u)
    {
      u := u - 1;
      var row, kept := ReduceRow(g, n, u, closure);
      AddRow(g, u, kept);
      tr := tr + set v | v in kept :: (u, v);
      closure[u] := row;
    }
    assert ReducedFrom(g, 0) == Reduced(g);
  }

  lemma NothingFrom(g: Graph, n: nat)
    requires Forward(g, n)
    ensures ReducedFrom(g, n) == {}
  {
    forall e | e in Reduced(g)
      ensures e.0 < n
    {
      assert (e.0, e.1) in g;
    }
  }

  lemma PartialClosureIsClosure(g: Graph, n: nat, u: nat, row: set<nat>)
    requires Forward(g, n) && u < n && IsPartialClosure(g, n, u, n, row)
    ensures IsClosure(g, n, u, row)
  {
    forall v: nat
      ensures v in row <==> v < n && Reach(g, u, v)
    {
      if exists w: nat :: u < w < n && (u, w) in g && Reach(g, w, v) {
        var w: nat :| u < w < n && (u, w) in g && Reach(g, w, v);
        ReachBounds(g, w, v);
        assert Reach(g, u, v);
      }
    }
  }
}
