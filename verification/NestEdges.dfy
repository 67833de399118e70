/** Exactly which dependencies the tokens of a nest make: what is at the end of every edge, and that
    allocations of different iterations stay unordered. */
module NestEdges {
  import opened DependencyGraph
  import opened DependencyMeaning
  import opened DependencyNest
  import opened Wrappers

  /** A block inside a block: the block itself, or a place in iteration k of the loop at item x. */
  datatype Place = Here | Inside(x: nat, k: nat, rest: Place)

  ghost predicate IsPlace(b: Block, p: Place)
    decreases p
  {
    match p
    case Here => true
    case Inside(x, k, rest) => IsLoop(b, x) && k < Trips(b, x) && IsPlace(Body(b, x, k), rest)
  }

  ghost function BlockAt(b: Block, p: Place): Block
    requires IsPlace(b, p)
    decreases p
  {
    match p
    case Here => b
    case Inside(x, k, rest) => BlockAt(Body(b, x, k), rest)
  }

  /** The token of a block comes before its nodes. */
  ghost predicate Starts(b: Block) {
    b.tok.Some? ==> b.tok.value < b.pos
  }

  // ---------- Where the edges of a block end ----------

  lemma {:induction false} EdgeRange(c: Context, b: Block, u: nat, v: nat)
    requires IsEdge(c, b, u, v)
    ensures b.pos <= v < Entry(b, |b.items|)
    decreases b.items
  {
    if y: nat :| y < |b.items| && v == Entry(b, y) {
      EntryGrows(b, 0, y);
      EntryGrows(b, y, |b.items|);
      EntryBeforeExit(b, y);
    } else {
      var x: nat, k: nat :| IsLoop(b, x) && k < Trips(b, x)
        && (IsYield(c, b, x, k, u, v) || IsEdge(c, Body(b, x, k), u, v));
      InIteration(b, x, k);
      EntryGrows(b, 0, x);
      if IsEdge(c, Body(b, x, k), u, v) {
        EdgeRange(c, Body(b, x, k), u, v);
      }
    }
  }

  /** Everything in iteration k of a loop, with the wait_all that it yields. */
  ghost predicate InIterationOf(b: Block, x: nat, k: nat, v: nat)
    requires IsLoop(b, x)
  {
    Token(b, x, k) < v <= Token(b, x, k + 1)
  }

  /** A node is in one iteration of one loop, or starts an item. */
  lemma {:induction false} OneIteration(b: Block, x: nat, k: nat, x': nat, k': nat, v: nat)
    requires IsLoop(b, x) && k < Trips(b, x) && IsLoop(b, x') && k' < Trips(b, x')
    requires InIterationOf(b, x, k, v) && InIterationOf(b, x', k', v)
    ensures x == x' && k == k'
  {
    IterationInItem(b, x, k, v);
    IterationInItem(b, x', k', v);
    if x < x' {
      EntryGrows(b, x, x');
      assert false;
    } else if x' < x {
      EntryGrows(b, x', x);
      assert false;
    } else if k < k' {
      TokenGrows(b, x, k + 1, k');
      assert false;
    } else if k' < k {
      TokenGrows(b, x, k' + 1, k);
      assert false;
    }
  }

  lemma {:induction false} IterationInItem(b: Block, x: nat, k: nat, v: nat)
    requires IsLoop(b, x) && k < Trips(b, x) && InIterationOf(b, x, k, v)
    ensures Entry(b, x) < v <= Exit(b, x)
  {
    TokenGrows(b, x, 0, k);
    TokenGrows(b, x, k + 1, Trips(b, x));
  }

  lemma {:induction false} NotAtEntry(b: Block, x: nat, k: nat, v: nat, y: nat)
    requires IsLoop(b, x) && k < Trips(b, x) && InIterationOf(b, x, k, v) && y <= |b.items|
    ensures v != Entry(b, y)
  {
    IterationInItem(b, x, k, v);
    if y <= x {
      EntryGrows(b, y, x);
    } else {
      EntryGrows(b, x, y);
    }
  }

  lemma {:induction false} BodyRange(c: Context, b: Block, x: nat, k: nat, u: nat, v: nat)
    requires IsLoop(b, x) && k < Trips(b, x) && (IsYield(c, b, x, k, u, v) || IsEdge(c, Body(b, x, k), u, v))
    ensures InIterationOf(b, x, k, v)
    ensures IsEdge(c, Body(b, x, k), u, v) ==> v < Token(b, x, k + 1)
  {
    TokenGrows(b, x, k, k + 1);
    if IsEdge(c, Body(b, x, k), u, v) {
      EdgeRange(c, Body(b, x, k), u, v);
      TokenAfterBody(b, x, k);
    }
  }

  /** Inside an iteration only the edges of its body and what it yields end. */
  lemma {:induction false} EdgesInto(c: Context, b: Block, x: nat, k: nat, u: nat, v: nat)
    requires IsLoop(b, x) && k < Trips(b, x) && InIterationOf(b, x, k, v)
    ensures IsEdge(c, b, u, v) <==> IsYield(c, b, x, k, u, v) || IsEdge(c, Body(b, x, k), u, v)
  {
    forall y: nat | y < |b.items|
      ensures v != Entry(b, y)
    {
      NotAtEntry(b, x, k, v, y);
    }
    forall x': nat, k': nat | IsLoop(b, x') && k' < Trips(b, x')
      && (IsYield(c, b, x', k', u, v) || IsEdge(c, Body(b, x', k'), u, v))
      ensures x' == x && k' == k
    {
      BodyRange(c, b, x', k', u, v);
      OneIteration(b, x, k, x', k', v);
    }
  }

  // ---------- What an item waits for ----------

  /** What there has to be for a token of u in front of item y. */
  ghost predicate WaitsForNode(c: Context, b: Block, y: nat, u: nat) {
    || (exists x: nat :: WaitsFor(c, b, y, x) && u == Exit(b, x))
    || (b.tok == Some(u) && GetsIterArg(c, b, y))
  }

  lemma {:induction false} EntryEdges(c: Context, b: Block, y: nat, u: nat)
    requires IsItem(b, y)
    ensures IsEdge(c, b, u, Entry(b, y)) <==> WaitsForNode(c, b, y, u)
  {
    forall z: nat | IsItem(b, z) && Entry(b, z) == Entry(b, y)
      ensures z == y
    {
      OneEntry(b, y, z);
    }
    forall x: nat, k: nat | IsLoop(b, x) && k < Trips(b, x)
      ensures !IsYield(c, b, x, k, u, Entry(b, y)) && !IsEdge(c, Body(b, x, k), u, Entry(b, y))
    {
      if IsYield(c, b, x, k, u, Entry(b, y)) || IsEdge(c, Body(b, x, k), u, Entry(b, y)) {
        BodyRange(c, b, x, k, u, Entry(b, y));
        NotAtEntry(b, x, k, Entry(b, y), y);
        assert false;
      }
    }
  }

  lemma {:induction false} OneEntry(b: Block, y: nat, z: nat)
    requires IsItem(b, y) && IsItem(b, z) && Entry(b, z) == Entry(b, y)
    ensures z == y
  {
    EntryBeforeExit(b, y);
    EntryBeforeExit(b, z);
    if y < z {
      EntryGrows(b, y, z);
    } else if z < y {
      EntryGrows(b, z, y);
    }
  }

  lemma {:induction false} YieldEdges(c: Context, b: Block, x: nat, k: nat, u: nat)
    requires IsLoop(b, x) && k < Trips(b, x)
    ensures IsEdge(c, b, u, Token(b, x, k + 1)) <==> IsYield(c, b, x, k, u, Token(b, x, k + 1))
  {
    TokenGrows(b, x, k, k + 1);
    EdgesInto(c, b, x, k, u, Token(b, x, k + 1));
    if IsEdge(c, Body(b, x, k), u, Token(b, x, k + 1)) {
      BodyRange(c, b, x, k, u, Token(b, x, k + 1));
      assert false;
    }
  }

  // ---------- Every node of a nest ----------

  lemma {:induction false} PlaceRange(b: Block, p: Place)
    requires IsPlace(b, p)
    ensures b.pos <= BlockAt(b, p).pos
    ensures Entry(BlockAt(b, p), |BlockAt(b, p).items|) <= Entry(b, |b.items|)
    decreases p
  {
    if p.Inside? {
      PlaceRange(Body(b, p.x, p.k), p.rest);
      InIteration(b, p.x, p.k);
      EntryGrows(b, 0, p.x);
    }
  }

  /** At a place only the edges of the block that is there end. */
  lemma {:induction false} EdgesAtPlace(c: Context, b: Block, p: Place, u: nat, v: nat)
    requires IsPlace(b, p) && BlockAt(b, p).pos <= v < Entry(BlockAt(b, p), |BlockAt(b, p).items|)
    ensures IsEdge(c, b, u, v) <==> IsEdge(c, BlockAt(b, p), u, v)
    decreases p
  {
    if p.Inside? {
      var body := Body(b, p.x, p.k);
      PlaceRange(body, p.rest);
      TokenAfterBody(b, p.x, p.k);
      EdgesInto(c, b, p.x, p.k, u, v);
      EdgesAtPlace(c, body, p.rest, u, v);
    }
  }

  lemma {:induction false} InGraph(c: Context, items: seq<Item>, u: nat, v: nat)
    ensures (u, v) in NestGraph(c, items) <==> IsEdge(c, Top(items), u, v)
  {
    GraphHasEdges(c, items);
  }

  /** A traced dependency of an operation in item y on one in item x. */
  ghost predicate IsUse(c: Context, b: Block, x: nat, y: nat, e: (nat, nat)) {
    x < y && e in c.flat && InItem(b, x, e.0) && InItem(b, y, e.1)
  }

  /** An operation, or the begin token of a loop, depends on the items of its body that it uses, and
      on the token of its iteration if it is a loop, a carried operation, or uses something from in
      front of the loop. */
  lemma {:induction false} ItemEdges(c: Context, items: seq<Item>, p: Place, y: nat, u: nat)
    requires IsPlace(Top(items), p) && y < |BlockAt(Top(items), p).items|
    ensures var b := BlockAt(Top(items), p);
      (u, Entry(b, y)) in NestGraph(c, items) <==>
        || (exists x: nat, e :: IsUse(c, b, x, y, e) && u == Exit(b, x))
        || (b.tok == Some(u)
            && (b.items[y].Loop? || Lo(b, y) in c.carried
                || exists e :: e in c.flat && e.0 < b.lo && InItem(b, y, e.1)))
  {
    var b := BlockAt(Top(items), p);
    InGraph(c, items, u, Entry(b, y));
    EntryBeforeExit(b, y);
    EntryGrows(b, 0, y);
    EntryGrows(b, y, |b.items|);
    EdgesAtPlace(c, Top(items), p, u, Entry(b, y));
    EntryEdges(c, b, y, u);
    forall x: nat
      ensures WaitsFor(c, b, y, x) <==> exists e :: IsUse(c, b, x, y, e)
    {
      UsesOf(c, b, x, y);
    }
  }

  lemma {:induction false} UsesOf(c: Context, b: Block, x: nat, y: nat)
    ensures WaitsFor(c, b, y, x) <==> exists e :: IsUse(c, b, x, y, e)
  {
    assert forall e: (nat, nat) :: IsUse(c, b, x, y, e) <==>
      x < y && e in c.flat && InItem(b, x, e.0) && InItem(b, y, e.1);
  }

  /** No later item that depends on item z is a loop or carried. */
  ghost predicate OnlyUsedByExempt(c: Context, b: Block, z: nat) {
    forall y: nat, e :: IsUse(c, b, z, y, e) ==> b.items[y].Op? && Lo(b, y) !in c.carried
  }

  /** The wait_all that an iteration yields depends on the token of the iteration, and on the loops and
      carried operations of the body that only allocations and deallocations of the body use. */
  lemma {:induction false} TokenEdges(c: Context, items: seq<Item>, p: Place, x: nat, k: nat, u: nat)
    requires IsPlace(Top(items), p) && IsLoop(BlockAt(Top(items), p), x) && k < Trips(BlockAt(Top(items), p), x)
    ensures var b := BlockAt(Top(items), p);
      var body := Body(b, x, k);
      (u, Token(b, x, k + 1)) in NestGraph(c, items) <==>
        || u == Token(b, x, k)
        || (exists z: nat :: z < |body.items| && u == Exit(body, z)
              && (body.items[z].Loop? || Lo(body, z) in c.carried) && OnlyUsedByExempt(c, body, z))
  {
    var b := BlockAt(Top(items), p);
    var body := Body(b, x, k);
    InGraph(c, items, u, Token(b, x, k + 1));
    InIteration(b, x, k);
    TokenGrows(b, x, 0, k + 1);
    EntryGrows(b, 0, x);
    EdgesAtPlace(c, Top(items), p, u, Token(b, x, k + 1));
    YieldEdges(c, b, x, k, u);
    forall z: nat
      ensures Yielded(c, body, z) <==>
        z < |body.items| && (body.items[z].Loop? || Lo(body, z) in c.carried) && OnlyUsedByExempt(c, body, z)
    {
      CollectedIff(c, body, z);
    }
  }

  lemma {:induction false} CollectedIff(c: Context, b: Block, z: nat)
    ensures Yielded(c, b, z) <==>
      z < |b.items| && (b.items[z].Loop? || Lo(b, z) in c.carried) && OnlyUsedByExempt(c, b, z)
  {
    forall y: nat
      ensures (WaitsFor(c, b, y, z) ==> !CarriedItem(c, b, y)) <==>
              (forall e :: IsUse(c, b, z, y, e) ==> b.items[y].Op? && Lo(b, y) !in c.carried)
    {
      UsesOf(c, b, z, y);
      assert forall e :: IsUse(c, b, z, y, e) ==> IsItem(b, y);
    }
  }

  // ---------- What runs at each node ----------

  lemma {:induction false} ProgramPrefix(fp: Footprints, items: seq<Item>, env: seq<nat>, lo: nat, n: nat)
    requires n <= |items|
    ensures Program(fp, items[..n], env, lo) <= Program(fp, items, env, lo)
    decreases |items|
  {
    if n == |items| {
      assert items[..n] == items;
    } else {
      ProgramPrefix(fp, items[..|items| - 1], env, lo, n);
      assert items[..|items| - 1][..n] == items[..n];
    }
  }

  lemma {:induction false} IterationsPrefix(fp: Footprints, body: seq<Item>, env: seq<nat>, lo: nat, k: nat, n: nat)
    requires k <= n
    ensures Iterations(fp, body, env, lo, k) <= Iterations(fp, body, env, lo, n)
    decreases n
  {
    if k < n {
      IterationsPrefix(fp, body, env, lo, k, n - 1);
    }
  }

  /** The nodes of one item. */
  ghost function Part(fp: Footprints, item: Item, env: seq<nat>, lo: nat): seq<Footprint> {
    match item
    case Op => [fp(lo, env)]
    case Loop(trips, body) => [WAIT_ALL] + Iterations(fp, body, env, lo, trips(env))
  }

  lemma {:induction false} LastPart(fp: Footprints, items: seq<Item>, env: seq<nat>, lo: nat)
    requires items != []
    ensures var n := |items| - 1;
      Program(fp, items, env, lo)
        == Program(fp, items[..n], env, lo) + Part(fp, items[n], env, lo + Ops(items[..n]))
  {
  }

  lemma {:induction false} ProgramSnoc(fp: Footprints, items: seq<Item>, env: seq<nat>, lo: nat, x: nat)
    requires x < |items|
    ensures Program(fp, items[..x + 1], env, lo)
         == Program(fp, items[..x], env, lo) + Part(fp, items[x], env, lo + Ops(items[..x]))
  {
    var front := items[..x + 1];
    assert |front| - 1 == x && front[..x] == items[..x];
    LastPart(fp, front, env, lo);
  }

  /** The nodes of item x follow those of the items before it. */
  lemma {:induction false} PartInProgram(fp: Footprints, items: seq<Item>, env: seq<nat>, lo: nat, x: nat)
    requires x < |items|
    ensures Program(fp, items[..x], env, lo) + Part(fp, items[x], env, lo + Ops(items[..x]))
         <= Program(fp, items, env, lo)
  {
    ProgramSnoc(fp, items, env, lo, x);
    ProgramPrefix(fp, items, env, lo, x + 1);
  }

  lemma Follows(front: seq<Footprint>, part: seq<Footprint>, all: seq<Footprint>, i: nat)
    requires front + part <= all && i < |part|
    ensures |front| + i < |all| && all[|front| + i] == part[i]
  {
    assert (front + part)[|front| + i] == part[i];
  }

  /** The nodes of item x follow each other from its entry on. */
  lemma {:induction false} ItemRuns(fp: Footprints, b: Block, x: nat, i: nat)
    requires IsItem(b, x) && i < |Part(fp, b.items[x], b.env, Lo(b, x))|
    ensures b.pos <= Entry(b, x) && Entry(b, x) - b.pos + i < |ProgramOf(fp, b)|
    ensures ProgramOf(fp, b)[Entry(b, x) - b.pos + i] == Part(fp, b.items[x], b.env, Lo(b, x))[i]
  {
    PartInProgram(fp, b.items, b.env, b.lo, x);
    Follows(Program(fp, b.items[..x], b.env, b.lo), Part(fp, b.items[x], b.env, Lo(b, x)), ProgramOf(fp, b), i);
  }

  lemma LoopPart(fp: Footprints, item: Item, env: seq<nat>, lo: nat, i: nat)
    requires item.Loop? && i < |Iterations(fp, item.body, env, lo, item.trips(env))|
    ensures 1 + i < |Part(fp, item, env, lo)|
    ensures Part(fp, item, env, lo)[1 + i] == Iterations(fp, item.body, env, lo, item.trips(env))[i]
  {
  }

  /** The part of the program that is iteration k of the loop at item x. */
  lemma {:induction false} BodyRuns(fp: Footprints, b: Block, x: nat, k: nat, at: nat)
    requires IsLoop(b, x) && k < Trips(b, x) && at < |ProgramOf(fp, Body(b, x, k))|
    ensures b.pos <= Body(b, x, k).pos && Body(b, x, k).pos - b.pos + at < |ProgramOf(fp, b)|
    ensures ProgramOf(fp, b)[Body(b, x, k).pos - b.pos + at] == ProgramOf(fp, Body(b, x, k))[at]
  {
    var items, lo := b.items[x].body, Lo(b, x);
    var i := LoopLen(items, b.env, k) + at;
    IterationAt(fp, items, b.env, lo, Trips(b, x), k, at);
    LoopPart(fp, b.items[x], b.env, lo, i);
    ItemRuns(fp, b, x, 1 + i);
  }

  /** The node of an instance runs its operation, in its iterations. */
  lemma {:induction false} InstanceRuns(fp: Footprints, b: Block, w: Instance)
    requires IsInstance(b, w)
    ensures b.pos <= NodeAt(b, w) < b.pos + |ProgramOf(fp, b)|
    ensures ProgramOf(fp, b)[NodeAt(b, w) - b.pos] == InstanceFootprint(fp, b, w)
    decreases w
  {
    if w.InLoop? {
      var body := Body(b, w.x, w.k);
      InstanceRuns(fp, body, w.rest);
      BodyRuns(fp, b, w.x, w.k, NodeAt(body, w.rest) - body.pos);
    } else {
      ItemRuns(fp, b, w.x, 0);
    }
  }

  lemma {:induction false} IterationAt(
    fp: Footprints, body: seq<Item>, env: seq<nat>, lo: nat, trips: nat, k: nat, at: nat)
    requires k < trips && at < |Program(fp, body, env + [k], lo)|
    ensures LoopLen(body, env, k) + at < |Iterations(fp, body, env, lo, trips)|
    ensures Iterations(fp, body, env, lo, trips)[LoopLen(body, env, k) + at] == Program(fp, body, env + [k], lo)[at]
  {
    IterationsPrefix(fp, body, env, lo, k + 1, trips);
    var front, middle := Iterations(fp, body, env, lo, k), Program(fp, body, env + [k], lo);
    assert front + middle <= front + middle + [WAIT_ALL];
    Follows(front, middle, Iterations(fp, body, env, lo, trips), at);
  }

  /** Every node that is no instance of an operation is a wait_all, and each instance has its own node. */
  lemma {:induction false} OtherNodesWait(fp: Footprints, b: Block, u: nat)
    requires u < |ProgramOf(fp, b)| && forall w :: IsInstance(b, w) ==> NodeAt(b, w) != b.pos + u
    ensures ProgramOf(fp, b)[u] == WAIT_ALL
  {
    if ProgramOf(fp, b)[u] != WAIT_ALL {
      var w := Locate(fp, b, u);
      assert false;
    }
  }

  lemma {:induction false} OneNode(b: Block, v: Instance, w: Instance)
    requires IsInstance(b, v) && IsInstance(b, w) && NodeAt(b, v) == NodeAt(b, w)
    ensures v == w
    decreases v
  {
    NodeInItem(b, v);
    NodeInItem(b, w);
    if v.x < w.x {
      EntryGrows(b, v.x, w.x);
      assert false;
    } else if w.x < v.x {
      EntryGrows(b, w.x, v.x);
      assert false;
    } else if v.InLoop? {
      OneIteration(b, v.x, v.k, w.x, w.k, NodeAt(b, v));
      OneNode(Body(b, v.x, v.k), v.rest, w.rest);
    }
  }

  // ---------- Operations that nothing orders ----------

  ghost function PlaceOf(w: Instance): Place {
    match w
    case AtOp(_) => Here
    case InLoop(x, k, rest) => Inside(x, k, PlaceOf(rest))
  }

  /** Its item in the innermost body. */
  ghost function ItemAt(w: Instance): nat {
    match w
    case AtOp(x) => x
    case InLoop(_, _, rest) => ItemAt(rest)
  }

  lemma {:induction false} InstanceAtPlace(b: Block, w: Instance)
    requires IsInstance(b, w)
    ensures IsPlace(b, PlaceOf(w)) && IsItem(BlockAt(b, PlaceOf(w)), ItemAt(w))
    ensures var at := BlockAt(b, PlaceOf(w));
      && at.items[ItemAt(w)].Op?
      && OpAt(b, w) == Lo(at, ItemAt(w)) && NodeAt(b, w) == Entry(at, ItemAt(w))
    decreases w
  {
    if w.InLoop? {
      InstanceAtPlace(Body(b, w.x, w.k), w.rest);
    }
  }

  /** Nothing comes before an operation that is not carried and that depends on nothing, in whatever
      iteration it runs. */
  lemma {:induction false} NothingBefore(c: Context, items: seq<Item>, w: Instance, u: nat)
    requires IsInstance(Top(items), w) && OpAt(Top(items), w) !in c.carried
    requires forall e :: e in c.flat ==> e.1 != OpAt(Top(items), w)
    requires u != NodeAt(Top(items), w)
    ensures !Reach(NestGraph(c, items), u, NodeAt(Top(items), w))
  {
    InstanceAtPlace(Top(items), w);
    forall v: nat
      ensures (v, NodeAt(Top(items), w)) !in NestGraph(c, items)
    {
      NoEdgeInto(c, items, PlaceOf(w), ItemAt(w), v);
    }
    NoWayIn(NestGraph(c, items), u, NodeAt(Top(items), w));
  }

  lemma {:induction false} NoEdgeInto(c: Context, items: seq<Item>, p: Place, y: nat, u: nat)
    requires IsPlace(Top(items), p) && IsItem(BlockAt(Top(items), p), y) && BlockAt(Top(items), p).items[y].Op?
    requires Lo(BlockAt(Top(items), p), y) !in c.carried
    requires forall e :: e in c.flat ==> e.1 != Lo(BlockAt(Top(items), p), y)
    ensures (u, Entry(BlockAt(Top(items), p), y)) !in NestGraph(c, items)
  {
    ItemAfterItem(BlockAt(Top(items), p), y);
    ItemEdges(c, items, p, y, u);
  }

  lemma NoWayIn(g: Graph, u: nat, v: nat)
    requires u != v && forall w: nat :: (w, v) !in g
    ensures !Reach(g, u, v)
  {
    if Reach(g, u, v) {
      var x, y := Crossing(g, v, u, v);
      assert false;
    }
  }

  /** Allocations of different iterations stay unordered: for two instances of operations that are not
      carried and depend on nothing there is no path either way. */
  lemma {:induction false} AllocationsUnordered(c: Context, items: seq<Item>, v: Instance, w: Instance)
    requires IsInstance(Top(items), v) && IsInstance(Top(items), w) && NodeAt(Top(items), v) != NodeAt(Top(items), w)
    requires OpAt(Top(items), v) !in c.carried && OpAt(Top(items), w) !in c.carried
    requires forall e :: e in c.flat ==> e.1 != OpAt(Top(items), v) && e.1 != OpAt(Top(items), w)
    ensures !Reach(NestGraph(c, items), NodeAt(Top(items), v), NodeAt(Top(items), w))
    ensures !Reach(NestGraph(c, items), NodeAt(Top(items), w), NodeAt(Top(items), v))
  {
    NothingBefore(c, items, v, NodeAt(Top(items), w));
    NothingBefore(c, items, w, NodeAt(Top(items), v));
  }

  // ---------- Without loops ----------

  lemma {:induction false} NoLoops(items: seq<Item>, x: nat)
    requires x <= |items| && forall i :: 0 <= i < |items| ==> items[i].Op?
    ensures Ops(items[..x]) == x && Len(items[..x], []) == x
  {
    if x > 0 {
      NoLoops(items, x - 1);
      assert items[..x][..x - 1] == items[..x - 1];
    }
  }

  /** A program without loops has the traced graph itself. */
  lemma {:induction false} FlatProgram(c: Context, items: seq<Item>)
    requires Forward(c.flat, |items|) && forall i :: 0 <= i < |items| ==> items[i].Op?
    ensures NestGraph(c, items) == c.flat
  {
    NoLoops(items, |items|);
    assert items[..|items|] == items;
    GraphHasEdges(c, items);
    forall e: (nat, nat)
      ensures e in NestGraph(c, items) <==> e in c.flat
    {
      if e.0 < |items| && e.1 < |items| {
        FlatEdge(c, items, e.0, e.1);
      }
    }
  }

  lemma {:induction false} FlatItem(items: seq<Item>, x: nat)
    requires x < |items| && forall i :: 0 <= i < |items| ==> items[i].Op?
    ensures Entry(Top(items), x) == Exit(Top(items), x) == x
    ensures forall a: nat :: InItem(Top(items), x, a) <==> a == x
  {
    NoLoops(items, x);
    NoLoops(items, x + 1);
  }

  lemma {:induction false} FlatEdge(c: Context, items: seq<Item>, u: nat, v: nat)
    requires Forward(c.flat, |items|) && forall i :: 0 <= i < |items| ==> items[i].Op?
    requires u < |items| && v < |items|
    ensures (u, v) in NestGraph(c, items) <==> (u, v) in c.flat
  {
    var b := Top(items);
    FlatItem(items, u);
    FlatItem(items, v);
    assert BlockAt(b, Here) == b;
    ItemEdges(c, items, Here, v, u);
    if (u, v) in c.flat {
      assert IsUse(c, b, u, v, (u, v));
    }
    if x: nat, e :| IsUse(c, b, x, v, e) && u == Exit(b, x) {
      FlatItem(items, x);
    }
  }
}
