/** What a list of operations does to memory, in program order and in any other order
    that respects a dependency graph. */
module DependencyMeaning {
  import opened DependencyGraph

  /** A memory element of a buffer, an SSA value (an index, or a buffer handle), what has been
      put into a channel, what is still to be got from one, or the copy of a cell that belongs
      to one iteration of a loop. */
  datatype Cell =
    | Element(memref: nat, point: nat)
    | Value(id: nat)
    | Sent(channel: nat)
    | Received(channel: nat)
    | Private(iterations: seq<nat>, cell: Cell)

  /** The cells an operation may read and the cells it may write. */
  datatype Footprint = Footprint(ins: set<Cell>, outs: set<Cell>)

  type Store = map<Cell, int>

  /** What each operation computes: an arbitrary function of the operation's number, of
      the part of the store it accesses, and of the cell it writes; it may keep the old value. */
  type Semantics = (nat, Store, Cell) -> int

  ghost function Restrict(s: Store, cells: set<Cell>): Store {
    map c | c in s && c in cells :: s[c]
  }

  ghost function Exec(prog: seq<Footprint>, f: Semantics, i: nat, s: Store): Store
    requires i < |prog|
  {
    map c | c in s :: if c in prog[i].outs then f(i, Restrict(s, prog[i].ins + prog[i].outs), c) else s[c]
  }

  ghost predicate Below(ord: seq<nat>, n: nat) {
    forall k :: 0 <= k < |ord| ==> ord[k] < n
  }

  /** The store after executing the operations listed in ord, one after the other. */
  ghost function Run(prog: seq<Footprint>, f: Semantics, ord: seq<nat>, s: Store): Store
    requires Below(ord, |prog|)
  {
    if ord == [] then s
    else Exec(prog, f, ord[|ord| - 1], Run(prog, f, ord[..|ord| - 1], s))
  }

  ghost function ProgramOrder(n: nat): seq<nat> {
    seq(n, i => i)
  }

  /** Both write a cell, or one writes what the other reads and makes something of. */
  ghost predicate Conflict(a: Footprint, b: Footprint) {
    || !(a.outs !! b.outs)
    || (!(a.outs !! b.ins) && b.outs != {})
    || (!(a.ins !! b.outs) && a.outs != {})
  }

  /** ord lists each of the operations 0..n once. */
  ghost predicate IsOrder(ord: seq<nat>, n: nat) {
    && |ord| == n
    && Below(ord, n)
    && (forall i: nat :: i < n ==> i in ord)
    && (forall p, q :: 0 <= p < q < |ord| ==> ord[p] != ord[q])
  }

  /** No operation is listed before one that it waits for. */
  ghost predicate Respects(ord: seq<nat>, g: Graph) {
    forall p, q :: 0 <= p < q < |ord| ==> (ord[q], ord[p]) !in g
  }

  /** Every two conflicting operations are ordered by a path. */
  ghost predicate OrdersConflicts(prog: seq<Footprint>, g: Graph) {
    forall j: nat, i: nat :: j < i < |prog| && Conflict(prog[j], prog[i]) ==> Reach(g, j, i)
  }

  /** The edges among the first n operations. */
  ghost function Truncated(g: Graph, n: nat): Graph {
    set e | e in g && e.1 < n
  }

  lemma {:induction false} RunConcat(prog: seq<Footprint>, f: Semantics, a: seq<nat>, b: seq<nat>, s: Store)
    requires Below(a, |prog|) && Below(b, |prog|)
    ensures Run(prog, f, a + b, s) == Run(prog, f, b, Run(prog, f, a, s))
  {
    if b == [] {
      assert a + b == a;
    } else {
      assert (a + b)[..|a + b| - 1] == a + b[..|b| - 1];
      RunConcat(prog, f, a, b[..|b| - 1], s);
    }
  }

  lemma ExecsCommute(prog: seq<Footprint>, f: Semantics, i: nat, j: nat, s: Store)
    requires i < |prog| && j < |prog| && !Conflict(prog[i], prog[j])
    ensures Exec(prog, f, i, Exec(prog, f, j, s)) == Exec(prog, f, j, Exec(prog, f, i, s))
  {
    var si, sj := Exec(prog, f, i, s), Exec(prog, f, j, s);
    var a, b := prog[i], prog[j];
    if a.outs != {} && b.outs != {} {
      assert Restrict(sj, a.ins + a.outs) == Restrict(s, a.ins + a.outs);
      assert Restrict(si, b.ins + b.outs) == Restrict(s, b.ins + b.outs);
    } else if a.outs == {} {
      assert si == s && Exec(prog, f, i, sj) == sj;
    } else {
      assert sj == s && Exec(prog, f, j, si) == si;
    }
  }

  /** An operation moves past operations that it does not conflict with. */
  lemma {:induction false} MoveToEnd(prog: seq<Footprint>, f: Semantics, x: nat, rest: seq<nat>, s: Store)
    requires x < |prog| && Below(rest, |prog|)
    requires forall k :: 0 <= k < |rest| ==> !Conflict(prog[x], prog[rest[k]])
    ensures Run(prog, f, [x] + rest, s) == Run(prog, f, rest + [x], s)
  {
    if rest == [] {
      assert [x] + rest == rest + [x];
    } else {
      var init, last := rest[..|rest| - 1], rest[|rest| - 1];
      MoveToEnd(prog, f, x, init, s);
      assert ([x] + rest)[..|rest|] == [x] + init;
      assert (init + [x])[..|init|] == init;
      assert (rest + [x])[..|rest|] == rest;
      ExecsCommute(prog, f, last, x, Run(prog, f, init, s));
    }
  }

  /** An order that respects the edges also respects the paths. */
  lemma {:induction false} RespectsPaths(ord: seq<nat>, n: nat, g: Graph, p: nat, q: nat)
    requires IsOrder(ord, n) && Forward(g, n) && Respects(ord, g)
    requires p < |ord| && q < |ord| && Reach(g, ord[p], ord[q])
    ensures p <= q
    decreases ord[q] - ord[p]
  {
    if ord[p] != ord[q] {
      var w: nat :| ord[p] < w <= ord[q] && (ord[p], w) in g && Reach(g, w, ord[q]);
      assert w in ord;
      var r :| 0 <= r < |ord| && ord[r] == w;
      assert (ord[p], ord[r]) in g;
      RespectsPaths(ord, n, g, r, q);
    } else if p > q {
      assert false;
    }
  }

  /** In a legal order nothing that comes after the last operation conflicts with it. */
  lemma NoLaterConflict(prog: seq<Footprint>, g: Graph, n: nat, ord: seq<nat>, p: nat, q: nat)
    requires 0 < n <= |prog| && Forward(g, n) && OrdersConflicts(prog[..n], g)
    requires IsOrder(ord, n) && Respects(ord, g) && p < q < n && ord[p] == n - 1
    ensures !Conflict(prog[n - 1], prog[ord[q]])
  {
    if Conflict(prog[n - 1], prog[ord[q]]) {
      assert Conflict(prog[..n][ord[q]], prog[..n][n - 1]);
      RespectsPaths(ord, n, g, q, p);
      assert false;
    }
  }

  /** An operation that conflicts with nothing after it may as well come last. */
  lemma MoveOperationLast(prog: seq<Footprint>, f: Semantics, ord: seq<nat>, p: nat, s: Store)
    requires Below(ord, |prog|) && p < |ord|
    requires forall q :: p < q < |ord| ==> !Conflict(prog[ord[p]], prog[ord[q]])
    ensures Below(ord[..p] + ord[p + 1..], |prog|)
    ensures Run(prog, f, ord, s) == Exec(prog, f, ord[p], Run(prog, f, ord[..p] + ord[p + 1..], s))
  {
    var x, before, after := ord[p], ord[..p], ord[p + 1..];
    assert ord == before + ([x] + after);
    RunConcat(prog, f, before, [x] + after, s);
    MoveToEnd(prog, f, x, after, Run(prog, f, before, s));
    assert (after + [x])[..|after|] == after;
    RunConcat(prog, f, before, after, s);
  }

  lemma LastCanMove(prog: seq<Footprint>, f: Semantics, g: Graph, n: nat, ord: seq<nat>, p: nat, s: Store)
    requires 0 < n <= |prog| && Forward(g, n) && OrdersConflicts(prog[..n], g)
    requires IsOrder(ord, n) && Respects(ord, g) && p < n && ord[p] == n - 1
    ensures Below(ord[..p] + ord[p + 1..], |prog|)
    ensures Run(prog, f, ord, s) == Exec(prog, f, n - 1, Run(prog, f, ord[..p] + ord[p + 1..], s))
  {
    forall q | p < q < n
      ensures !Conflict(prog[n - 1], prog[ord[q]])
    {
      NoLaterConflict(prog, g, n, ord, p, q);
    }
    MoveOperationLast(prog, f, ord, p, s);
  }

  /** Any order that respects a graph which orders all conflicts computes what program
      order computes, from any store and for any meaning of the operations. */
  lemma {:induction false} LegalOrdersAgree(
    prog: seq<Footprint>, f: Semantics, g: Graph, n: nat, ord: seq<nat>, s: Store)
    requires n <= |prog| && Forward(g, n) && OrdersConflicts(prog[..n], g)
    requires IsOrder(ord, n) && Respects(ord, g)
    ensures Run(prog, f, ord, s) == Run(prog, f, ProgramOrder(n), s)
    decreases n
  {
    if n == 0 {
      assert ord == ProgramOrder(0);
    } else {
      var x := n - 1;
      assert x in ord;
      var p :| 0 <= p < |ord| && ord[p] == x;
      LastCanMove(prog, f, g, n, ord, p, s);
      DropLast(ord, n, g, p);
      DropVertex(prog, g, n);
      LegalOrdersAgree(prog, f, Truncated(g, x), x, ord[..p] + ord[p + 1..], s);
      assert ProgramOrder(n)[..x] == ProgramOrder(x);
    }
  }

  /** Removing the last operation from a legal order leaves a legal order. */
  lemma DropLast(ord: seq<nat>, n: nat, g: Graph, p: nat)
    requires n > 0 && IsOrder(ord, n) && Respects(ord, g) && p < n && ord[p] == n - 1
    ensures IsOrder(ord[..p] + ord[p + 1..], n - 1)
    ensures Respects(ord[..p] + ord[p + 1..], Truncated(g, n - 1))
  {
    var shorter := ord[..p] + ord[p + 1..];
    forall i: nat | i < n - 1
      ensures i in shorter
    {
      assert i in ord;
      var k :| 0 <= k < |ord| && ord[k] == i;
      assert k != p;
      assert if k < p then shorter[k] == i else shorter[k - 1] == i;
    }
  }

  /** Dropping the last operation loses no path between the others. */
  lemma DropVertex(prog: seq<Footprint>, g: Graph, n: nat)
    requires 0 < n <= |prog| && Forward(g, n) && OrdersConflicts(prog[..n], g)
    ensures Forward(Truncated(g, n - 1), n - 1)
    ensures OrdersConflicts(prog[..n - 1], Truncated(g, n - 1))
  {
    var h := Truncated(g, n - 1);
    forall j: nat, i: nat | j < i < n - 1 && Conflict(prog[..n - 1][j], prog[..n - 1][i])
      ensures Reach(h, j, i)
    {
      assert Conflict(prog[..n][j], prog[..n][i]);
      ReachBelow(g, n - 1, j, i);
    }
  }

  lemma {:induction false} ReachBelow(g: Graph, n: nat, u: nat, v: nat)
    requires Reach(g, u, v) && v < n
    ensures Reach(Truncated(g, n), u, v)
    decreases v - u
  {
    if u != v {
      var x: nat :| u < x <= v && (u, x) in g && Reach(g, x, v);
      ReachBelow(g, n, x, v);
    }
  }

  // ---------- The order of a conflict matters ----------

  /** The operations below n from which there is a path to i, and those from which there is none. */
  ghost function Before(g: Graph, i: nat, n: nat, before: bool): seq<nat> {
    if n == 0 then []
    else Before(g, i, n - 1, before) + if Reach(g, n - 1, i) == before then [n - 1] else []
  }

  lemma {:induction false} BeforeIs(g: Graph, i: nat, n: nat, before: bool)
    ensures var b := Before(g, i, n, before);
      && (forall k: nat :: k in b <==> k < n && Reach(g, k, i) == before)
      && (forall p, q :: 0 <= p < q < |b| ==> b[p] < b[q])
  {
    if n > 0 {
      BeforeIs(g, i, n - 1, before);
      var init, b := Before(g, i, n - 1, before), Before(g, i, n, before);
      forall p, q | 0 <= p < q < |b|
        ensures b[p] < b[q]
      {
        assert init[p] in init;
      }
    }
  }

  lemma {:induction false} BeforeLengths(g: Graph, i: nat, n: nat)
    ensures |Before(g, i, n, true)| + |Before(g, i, n, false)| == n
  {
    if n > 0 {
      BeforeLengths(g, i, n - 1);
    }
  }

  lemma NoEdgeInto(g: Graph, n: nat, u: nat, v: nat, i: nat)
    requires Forward(g, n) && Reach(g, v, i) && !Reach(g, u, i)
    ensures (u, v) !in g
  {
    ReachBounds(g, v, i);
  }

  /** A legal order that runs i and all that it waits for before everything else. */
  lemma HurriedOrder(g: Graph, n: nat, i: nat)
    requires Forward(g, n)
    ensures var ord := Before(g, i, n, true) + Before(g, i, n, false); IsOrder(ord, n) && Respects(ord, g)
  {
    var a, b := Before(g, i, n, true), Before(g, i, n, false);
    var ord := a + b;
    BeforeIs(g, i, n, true);
    BeforeIs(g, i, n, false);
    BeforeLengths(g, i, n);
    assert Below(ord, n) by {
      forall k | 0 <= k < |ord|
        ensures ord[k] < n
      {
        assert ord[k] in a || ord[k] in b;
      }
    }
    forall p, q | 0 <= p < q < |ord|
      ensures ord[p] != ord[q] && (ord[q], ord[p]) !in g
    {
      if p < |a| <= q {
        assert ord[p] in a && ord[q] in b;
        NoEdgeInto(g, n, ord[q], ord[p], i);
      }
    }
  }

  /** Position of the last of two operations in a list. */
  ghost predicate InOrder(ord: seq<nat>, a: nat, b: nat) {
    exists p, q :: 0 <= p < q < |ord| && ord[p] == a && ord[q] == b
  }

  ghost predicate Distinct(ord: seq<nat>) {
    forall p, q :: 0 <= p < q < |ord| ==> ord[p] != ord[q]
  }

  lemma SomeOrder(ord: seq<nat>, a: nat, b: nat)
    requires Distinct(ord) && a in ord && b in ord && a != b
    ensures InOrder(ord, a, b) <==> !InOrder(ord, b, a)
  {
    var p :| 0 <= p < |ord| && ord[p] == a;
    var q :| 0 <= q < |ord| && ord[q] == b;
    assert p < q ==> InOrder(ord, a, b);
    assert q < p ==> InOrder(ord, b, a);
  }

  lemma InOrderSnoc(ord: seq<nat>, a: nat, b: nat)
    requires Distinct(ord) && ord != [] && a != b
    ensures var init, last := ord[..|ord| - 1], ord[|ord| - 1];
      InOrder(ord, a, b) <==> InOrder(init, a, b) || (last == b && a in init)
  {
    var init, last := ord[..|ord| - 1], ord[|ord| - 1];
    if InOrder(ord, a, b) {
      var p, q :| 0 <= p < q < |ord| && ord[p] == a && ord[q] == b;
      assert init[p] == a;
      if q < |init| {
        assert init[q] == b;
      }
    }
    if InOrder(init, a, b) {
      var p, q :| 0 <= p < q < |init| && init[p] == a && init[q] == b;
      assert ord[p] == a && ord[q] == b;
    }
    if last == b && a in init {
      var p :| 0 <= p < |init| && init[p] == a;
      assert ord[p] == a && ord[|init|] == b;
    }
  }

  /** Both write cell c, with 1 and 2; nothing else changes anything. */
  ghost function BothWrite(j: nat, i: nat, c: Cell): Semantics {
    (k: nat, s: Store, d: Cell) =>
      if d == c && k == j then 1 else if d == c && k == i then 2 else if d in s then s[d] else 0
  }

  /** Of the two operations x is the one that comes last in the list. */
  ghost predicate ComesLast(ord: seq<nat>, x: nat, other: nat) {
    if ord == [] then false
    else
      var last := ord[|ord| - 1];
      last == x || (last != other && ComesLast(ord[..|ord| - 1], x, other))
  }

  lemma {:induction false} ComesLastAt(ord: seq<nat>, x: nat, other: nat, p: nat, q: nat)
    requires Distinct(ord) && p < q < |ord| && ord[p] == other && ord[q] == x
    ensures ComesLast(ord, x, other) && !ComesLast(ord, other, x)
    decreases |ord|
  {
    var init, last := ord[..|ord| - 1], ord[|ord| - 1];
    if q < |init| {
      assert init[p] == other && init[q] == x;
      assert ord[p] != last && ord[q] != last;
      ComesLastAt(init, x, other, p, q);
    }
  }

  lemma {:induction false} BothWriteRun(prog: seq<Footprint>, ord: seq<nat>, j: nat, i: nat, c: Cell)
    requires Below(ord, |prog|) && j != i && j < |prog| && i < |prog|
    requires c in prog[j].outs && c in prog[i].outs
    ensures var r := Run(prog, BothWrite(j, i, c), ord, map[c := 0]);
      c in r && r[c] == if ComesLast(ord, j, i) then 1 else if ComesLast(ord, i, j) then 2 else 0
    decreases |ord|
  {
    if ord != [] {
      var init, last := ord[..|ord| - 1], ord[|ord| - 1];
      BothWriteRun(prog, init, j, i, c);
    }
  }

  lemma BothWriteShows(prog: seq<Footprint>, j: nat, i: nat, c: Cell, a: seq<nat>, b: seq<nat>)
    requires j != i && j < |prog| && i < |prog| && c in prog[j].outs && c in prog[i].outs
    requires Below(a, |prog|) && Below(b, |prog|) && Distinct(a) && Distinct(b) && InOrder(a, j, i) && InOrder(b, i, j)
    ensures Run(prog, BothWrite(j, i, c), a, map[c := 0]) != Run(prog, BothWrite(j, i, c), b, map[c := 0])
  {
    var p, q :| 0 <= p < q < |a| && a[p] == j && a[q] == i;
    ComesLastAt(a, i, j, p, q);
    var p', q' :| 0 <= p' < q' < |b| && b[p'] == i && b[q'] == j;
    ComesLastAt(b, j, i, p', q');
    BothWriteRun(prog, a, j, i, c);
    BothWriteRun(prog, b, j, i, c);
  }

  /** The writer puts 1 into c and the reader copies c to d; nothing else changes anything. */
  ghost function WriteRead(writer: nat, reader: nat, c: Cell, d: Cell): Semantics {
    (k: nat, s: Store, e: Cell) =>
      if k == writer && e == c then 1
      else if k == reader && e == d then (if c in s then s[c] else 0)
      else if e in s then s[e] else 0
  }

  lemma WriteReadStep(prog: seq<Footprint>, k: nat, writer: nat, reader: nat, c: Cell, d: Cell, s: Store)
    requires k < |prog| && writer != reader && writer < |prog| && reader < |prog| && c in s && d in s && c != d
    requires c in prog[writer].outs && c in prog[reader].ins && d in prog[reader].outs && c !in prog[reader].outs
    ensures var r := Exec(prog, WriteRead(writer, reader, c, d), k, s);
      && c in r && d in r
      && r[c] == (if k == writer then 1 else s[c]) && r[d] == (if k == reader then s[c] else s[d])
  {
  }

  lemma {:induction false} WriteReadRun(prog: seq<Footprint>, ord: seq<nat>, writer: nat, reader: nat, c: Cell, d: Cell)
    requires Below(ord, |prog|) && Distinct(ord) && writer != reader && writer < |prog| && reader < |prog|
    requires c in prog[writer].outs && c in prog[reader].ins && d in prog[reader].outs && c !in prog[reader].outs
    ensures var r := Run(prog, WriteRead(writer, reader, c, d), ord, map[c := 0, d := 0]);
      && c in r && d in r
      && r[c] == (if writer in ord then 1 else 0) && r[d] == (if InOrder(ord, writer, reader) then 1 else 0)
  {
    if ord != [] {
      var init, last := ord[..|ord| - 1], ord[|ord| - 1];
      WriteReadRun(prog, init, writer, reader, c, d);
      InOrderSnoc(ord, writer, reader);
      assert ord == init + [last];
      assert last !in init;
      assert last == reader ==> !InOrder(init, writer, reader);
      WriteReadStep(prog, last, writer, reader, c, d,
                    Run(prog, WriteRead(writer, reader, c, d), init, map[c := 0, d := 0]));
    }
  }

  /** Some meaning of the operations shows in which order two conflicting ones ran. */
  lemma ConflictShows(prog: seq<Footprint>, j: nat, i: nat, a: seq<nat>, b: seq<nat>)
    returns (f: Semantics, s: Store)
    requires j < i < |prog| && Conflict(prog[j], prog[i])
    requires IsOrder(a, |prog|) && IsOrder(b, |prog|) && InOrder(a, j, i) && InOrder(b, i, j)
    ensures Run(prog, f, a, s) != Run(prog, f, b, s)
  {
    SomeOrder(a, j, i);
    SomeOrder(b, j, i);
    if c :| c in prog[j].outs && c in prog[i].outs {
      f, s := BothWrite(j, i, c), map[c := 0];
      BothWriteShows(prog, j, i, c, a, b);
    } else if c :| c in prog[j].outs && c in prog[i].ins && prog[i].outs != {} {
      var d :| d in prog[i].outs;
      f, s := WriteRead(j, i, c, d), map[c := 0, d := 0];
      WriteReadRun(prog, a, j, i, c, d);
      WriteReadRun(prog, b, j, i, c, d);
    } else {
      var c :| c in prog[j].ins && c in prog[i].outs;
      var d :| d in prog[j].outs;
      f, s := WriteRead(i, j, c, d), map[c := 0, d := 0];
      WriteReadRun(prog, a, i, j, c, d);
      WriteReadRun(prog, b, i, j, c, d);
    }
  }

  /** Two conflicting operations that no path orders can be run the other way round. */
  lemma UnorderedConflict(prog: seq<Footprint>, g: Graph, j: nat, i: nat) returns (ord: seq<nat>, f: Semantics,
                          s: Store)
    requires Forward(g, |prog|) && j < i < |prog| && Conflict(prog[j], prog[i]) && !Reach(g, j, i)
    ensures IsOrder(ord, |prog|) && Respects(ord, g)
    ensures Run(prog, f, ord, s) != Run(prog, f, ProgramOrder(|prog|), s)
  {
    var n := |prog|;
    var a, b := Before(g, i, n, true), Before(g, i, n, false);
    ord := a + b;
    HurriedOrder(g, n, i);
    BeforeIs(g, i, n, true);
    BeforeIs(g, i, n, false);
    assert Reach(g, i, i);
    var p :| 0 <= p < |a| && a[p] == i;
    var q :| 0 <= q < |b| && b[q] == j;
    assert ord[p] == i && ord[|a| + q] == j;
    ProgramOrderIsOrder(n, j, i);
    f, s := ConflictShows(prog, j, i, ProgramOrder(n), ord);
  }

  lemma ProgramOrderIsOrder(n: nat, j: nat, i: nat)
    requires j < i < n
    ensures IsOrder(ProgramOrder(n), n) && InOrder(ProgramOrder(n), j, i)
  {
    var ord := ProgramOrder(n);
    assert ord[j] == j && ord[i] == i;
    forall k: nat | k < n
      ensures k in ord
    {
      assert ord[k] == k;
    }
  }

  /** A dependency graph keeps the meaning, whatever the operations compute, exactly when it
      orders all conflicts. */
  lemma LegalOrdersAgreeIff(prog: seq<Footprint>, g: Graph)
    requires Forward(g, |prog|)
    ensures (forall ord, f: Semantics, s :: IsOrder(ord, |prog|) && Respects(ord, g) ==>
               Run(prog, f, ord, s) == Run(prog, f, ProgramOrder(|prog|), s))
            <==> OrdersConflicts(prog, g)
  {
    if OrdersConflicts(prog, g) {
      assert prog[..|prog|] == prog;
      forall ord, f: Semantics, s | IsOrder(ord, |prog|) && Respects(ord, g)
        ensures Run(prog, f, ord, s) == Run(prog, f, ProgramOrder(|prog|), s)
      {
        LegalOrdersAgree(prog, f, g, |prog|, ord, s);
      }
    } else {
      var j: nat, i: nat :| j < i < |prog| && Conflict(prog[j], prog[i]) && !Reach(g, j, i);
      var ord, f, s := UnorderedConflict(prog, g, j, i);
    }
  }
}
