/** Programs with loops in them, and loops inside loops: what the tokens order that the pass
    inserts into every scf.for, the inner ones first. */
module DependencyNest {
  import opened DependencyGraph
  import opened DependencyMeaning
  import opened Wrappers

  /** An asynchronous operation, or an scf.for. How often a loop runs may depend on the
      iterations of the loops around it. */
  datatype Item = Op | Loop(trips: seq<nat> -> nat, body: seq<Item>)

  // ---------- Operations of the program, and what runs ----------

  /** The number of operations. They are numbered in program order. */
  ghost function Ops(items: seq<Item>): nat {
    if items == [] then 0
    else
      Ops(items[..|items| - 1])
      + match items[|items| - 1]
        case Op => 1
        case Loop(_, body) => Ops(body)
  }

  /** How many nodes run in iterations env of the loops around: an operation is one, a loop has
      a begin token, and for each iteration the nodes of its body and the yielded wait_all. */
  ghost function Len(items: seq<Item>, env: seq<nat>): nat
    decreases items, 0, 0
  {
    if items == [] then 0
    else
      Len(items[..|items| - 1], env)
      + match items[|items| - 1]
        case Op => 1
        case Loop(trips, body) => 1 + LoopLen(body, env, trips(env))
  }

  ghost function LoopLen(body: seq<Item>, env: seq<nat>, k: nat): nat
    decreases body, 1, k
  {
    if k == 0 then 0 else LoopLen(body, env, k - 1) + Len(body, env + [k - 1]) + 1
  }

  /** A list of items in certain iterations of the loops around it: lo is the number of its first
      operation, pos its first node, tok the token of the iteration if it is a loop body. */
  datatype Block = Block(items: seq<Item>, env: seq<nat>, lo: nat, pos: nat, tok: Option<nat>)

  ghost predicate IsItem(b: Block, x: nat) {
    x < |b.items|
  }

  ghost predicate IsLoop(b: Block, x: nat) {
    x < |b.items| && b.items[x].Loop?
  }

  /** The number of the first operation in item x. */
  ghost function Lo(b: Block, x: nat): nat
    requires x <= |b.items|
  {
    b.lo + Ops(b.items[..x])
  }

  /** The node of an operation, or the begin token of a loop. */
  ghost function Entry(b: Block, x: nat): nat
    requires x <= |b.items|
  {
    b.pos + Len(b.items[..x], b.env)
  }

  ghost function Trips(b: Block, x: nat): nat
    requires IsLoop(b, x)
  {
    b.items[x].trips(b.env)
  }

  /** The token that iteration k of loop x receives. */
  ghost function Token(b: Block, x: nat, k: nat): nat
    requires IsLoop(b, x)
  {
    Entry(b, x) + LoopLen(b.items[x].body, b.env, k)
  }

  /** The node of an operation, or the result of a loop. */
  ghost function Exit(b: Block, x: nat): nat
    requires IsItem(b, x)
  {
    if IsLoop(b, x) then Token(b, x, Trips(b, x)) else Entry(b, x)
  }

  /** The body of loop x in iteration k. */
  ghost function Body(b: Block, x: nat, k: nat): Block
    requires IsLoop(b, x)
  {
    Block(b.items[x].body, b.env + [k], Lo(b, x), Token(b, x, k) + 1, Some(Token(b, x, k)))
  }

  lemma {:induction false} ItemAfterItem(b: Block, x: nat)
    requires IsItem(b, x)
    ensures Entry(b, x + 1) == Exit(b, x) + 1
    ensures Lo(b, x + 1) == Lo(b, x) + if IsLoop(b, x) then Ops(b.items[x].body) else 1
  {
    assert b.items[..x + 1][..x] == b.items[..x] && b.items[..x + 1][x] == b.items[x];
  }

  lemma {:induction false} TokenAfterBody(b: Block, x: nat, k: nat)
    requires IsLoop(b, x)
    ensures Token(b, x, k + 1) == Entry(Body(b, x, k), |b.items[x].body|)
  {
    assert b.items[x].body[..|b.items[x].body|] == b.items[x].body;
  }

  lemma {:induction false} BodyOps(b: Block, x: nat, k: nat)
    requires IsLoop(b, x)
    ensures Lo(Body(b, x, k), |b.items[x].body|) == Lo(b, x + 1)
  {
    ItemAfterItem(b, x);
    assert b.items[x].body[..|b.items[x].body|] == b.items[x].body;
  }

  lemma {:induction false} LoGrows(b: Block, x: nat, y: nat)
    requires x <= y <= |b.items|
    ensures Lo(b, x) <= Lo(b, y)
    decreases y
  {
    if x < y {
      ItemAfterItem(b, y - 1);
      LoGrows(b, x, y - 1);
    }
  }

  lemma {:induction false} TokenGrows(b: Block, x: nat, k: nat, l: nat)
    requires IsLoop(b, x) && k <= l
    ensures Token(b, x, k) <= Token(b, x, l) && (k < l ==> Token(b, x, k) < Token(b, x, l))
    decreases l
  {
    if k < l {
      TokenGrows(b, x, k, l - 1);
    }
  }

  lemma {:induction false} EntryBeforeExit(b: Block, x: nat)
    requires IsItem(b, x)
    ensures Entry(b, x) <= Exit(b, x)
  {
  }

  lemma {:induction false} EntryGrows(b: Block, x: nat, y: nat)
    requires x <= y <= |b.items|
    ensures Entry(b, x) <= Entry(b, y) && (x < y ==> Exit(b, x) < Entry(b, y))
    decreases y
  {
    if x < y {
      ItemAfterItem(b, y - 1);
      EntryBeforeExit(b, y - 1);
      EntryGrows(b, x, y - 1);
    }
  }

  // ---------- The tokens ----------

  /** The reduced traced graph of the operations, and which of them are neither allocation nor
      deallocation. */
  datatype Context = Context(flat: Graph, carried: set<nat>)

  ghost predicate InItem(b: Block, x: nat, a: nat) {
    IsItem(b, x) && Lo(b, x) <= a < Lo(b, x + 1)
  }

  /** The begin token of a loop is a wait_all, which is carried. */
  ghost predicate CarriedItem(c: Context, b: Block, x: nat) {
    IsItem(b, x) && (IsLoop(b, x) || Lo(b, x) in c.carried)
  }

  /** Item y waits for item x: an operation in y depends on one in x. Seen from outside, what a
      loop's body waits for is what its begin token waits for, and the loop's result is what
      others wait for. */
  ghost predicate WaitsFor(c: Context, b: Block, y: nat, x: nat) {
    x < y && exists e :: e in c.flat && InItem(b, x, e.0) && InItem(b, y, e.1)
  }

  /** Item y of a loop body depends on something in front of the loop. */
  ghost predicate FromOutside(c: Context, b: Block, y: nat) {
    exists e :: e in c.flat && e.0 < b.lo && InItem(b, y, e.1)
  }

  /** Item y of a loop body gets the iteration argument. */
  ghost predicate GetsIterArg(c: Context, b: Block, y: nat) {
    IsItem(b, y) && (CarriedItem(c, b, y) || FromOutside(c, b, y))
  }

  /** The yielded wait_all collects item z. */
  ghost predicate Yielded(c: Context, b: Block, z: nat) {
    CarriedItem(c, b, z) && forall y :: WaitsFor(c, b, y, z) ==> !CarriedItem(c, b, y)
  }

  ghost predicate IsLink(c: Context, b: Block, u: nat, v: nat) {
    exists x: nat, y: nat :: WaitsFor(c, b, y, x) && u == Exit(b, x) && v == Entry(b, y)
  }

  ghost predicate IsIterArg(c: Context, b: Block, u: nat, v: nat) {
    b.tok == Some(u) && exists y: nat :: GetsIterArg(c, b, y) && v == Entry(b, y)
  }

  /** The yielded wait_all of an iteration gets the iteration argument and what it collects. */
  ghost predicate IsYield(c: Context, b: Block, x: nat, k: nat, u: nat, v: nat)
    requires IsLoop(b, x)
  {
    && v == Token(b, x, k + 1)
    && (u == Token(b, x, k) || exists z: nat :: Yielded(c, Body(b, x, k), z) && u == Exit(Body(b, x, k), z))
  }

  /** The dependencies of everything that runs in a block. */
  ghost predicate IsEdge(c: Context, b: Block, u: nat, v: nat)
    decreases b.items
  {
    || IsLink(c, b, u, v)
    || IsIterArg(c, b, u, v)
    || (exists x: nat, k: nat :: IsLoop(b, x) && k < Trips(b, x)
          && (IsYield(c, b, x, k, u, v) || IsEdge(c, Body(b, x, k), u, v)))
  }

  /** g has the dependencies of the block. */
  ghost predicate HasEdges(c: Context, b: Block, g: Graph) {
    forall u: nat, v: nat :: IsEdge(c, b, u, v) ==> (u, v) in g
  }

  lemma {:induction false} BodyHasEdges(c: Context, b: Block, g: Graph, x: nat, k: nat)
    requires HasEdges(c, b, g) && IsLoop(b, x) && k < Trips(b, x)
    ensures HasEdges(c, Body(b, x, k), g)
  {
  }

  lemma EdgeIsPath(g: Graph, u: nat, v: nat)
    requires (u, v) in g && u < v
    ensures Reach(g, u, v)
  {
    assert Reach(g, v, v);
  }

  lemma {:induction false} Link(c: Context, b: Block, g: Graph, x: nat, y: nat)
    requires HasEdges(c, b, g) && WaitsFor(c, b, y, x)
    ensures Reach(g, Exit(b, x), Entry(b, y))
  {
    assert IsLink(c, b, Exit(b, x), Entry(b, y));
    assert IsEdge(c, b, Exit(b, x), Entry(b, y));
    EntryGrows(b, x, y);
    EdgeIsPath(g, Exit(b, x), Entry(b, y));
  }

  lemma {:induction false} FromToken(c: Context, b: Block, g: Graph, x: nat, k: nat, y: nat)
    requires HasEdges(c, b, g) && IsLoop(b, x) && k < Trips(b, x) && GetsIterArg(c, Body(b, x, k), y)
    ensures Reach(g, Token(b, x, k), Entry(Body(b, x, k), y))
  {
    var body := Body(b, x, k);
    BodyHasEdges(c, b, g, x, k);
    assert IsIterArg(c, body, Token(b, x, k), Entry(body, y));
    assert IsEdge(c, body, Token(b, x, k), Entry(body, y));
    EdgeIsPath(g, Token(b, x, k), Entry(body, y));
  }

  lemma {:induction false} ToYield(c: Context, b: Block, g: Graph, x: nat, k: nat, u: nat)
    requires HasEdges(c, b, g) && IsLoop(b, x) && k < Trips(b, x)
    requires IsYield(c, b, x, k, u, Token(b, x, k + 1)) && u < Token(b, x, k + 1)
    ensures Reach(g, u, Token(b, x, k + 1))
  {
    assert IsEdge(c, b, u, Token(b, x, k + 1));
    EdgeIsPath(g, u, Token(b, x, k + 1));
  }

  // ---------- Paths through items ----------

  /** Each token leads to all later ones of the loop, whatever is in its body. */
  lemma {:induction false} TokenToToken(c: Context, b: Block, g: Graph, x: nat, k: nat, l: nat)
    requires HasEdges(c, b, g) && IsLoop(b, x) && k <= l <= Trips(b, x)
    ensures Reach(g, Token(b, x, k), Token(b, x, l))
    decreases l
  {
    if k < l {
      TokenToToken(c, b, g, x, k, l - 1);
      TokenGrows(b, x, l - 1, l);
      ToYield(c, b, g, x, l - 1, Token(b, x, l - 1));
      ReachTransitive(g, Token(b, x, k), Token(b, x, l - 1), Token(b, x, l));
    }
  }

  lemma {:induction false} Through(c: Context, b: Block, g: Graph, x: nat)
    requires HasEdges(c, b, g) && IsItem(b, x)
    ensures Reach(g, Entry(b, x), Exit(b, x))
  {
    if IsLoop(b, x) {
      TokenToToken(c, b, g, x, 0, Trips(b, x));
    }
  }

  /** Which item an operation is in. */
  lemma {:induction false} FindItem(b: Block, x: nat, y: nat, a: nat) returns (z: nat)
    requires x <= y < |b.items| && Lo(b, x) <= a < Lo(b, y + 1)
    ensures x <= z <= y && InItem(b, z, a)
    decreases y
  {
    if a >= Lo(b, y) {
      z := y;
    } else {
      z := FindItem(b, x, y - 1, a);
    }
  }

  /** A path from below n to n or above has an edge across n. */
  lemma {:induction false} Crossing(g: Graph, n: nat, u: nat, v: nat) returns (x: nat, y: nat)
    requires Reach(g, u, v) && u < n <= v
    ensures (x, y) in g && u <= x < n <= y <= v && Reach(g, u, x) && Reach(g, y, v)
    decreases v - u
  {
    var w: nat :| u < w <= v && (u, w) in g && Reach(g, w, v);
    if w >= n {
      x, y := u, w;
    } else {
      x, y := Crossing(g, n, w, v);
    }
  }

  /** How a path in the traced graph comes into an item: through operation d of the item, which
      depends on something in front of it. */
  ghost predicate ComesIn(c: Context, b: Block, y: nat, d: nat, a: nat) {
    InItem(b, y, d) && Reach(c.flat, d, a) && exists e :: e in c.flat && e.0 < Lo(b, y) && e.1 == d
  }

  /** A path between operations of two items of a block leads from item to item. */
  lemma {:induction false} ItemToItem(c: Context, b: Block, g: Graph, x: nat, y: nat, a: nat, a': nat) returns (d: nat)
    requires HasEdges(c, b, g) && x < y && InItem(b, x, a) && InItem(b, y, a') && Reach(c.flat, a, a')
    ensures Reach(g, Exit(b, x), Entry(b, y)) && ComesIn(c, b, y, d, a')
    decreases y - x
  {
    LoGrows(b, x + 1, y);
    var p, q := Crossing(c.flat, Lo(b, x + 1), a, a');
    var z := FindItem(b, x + 1, y, q);
    assert (p, q) in c.flat && InItem(b, x, (p, q).0) && InItem(b, z, (p, q).1);
    Link(c, b, g, x, z);
    if z == y {
      d := q;
      assert (p, q).0 < Lo(b, y) && (p, q).1 == d;
    } else {
      Through(c, b, g, z);
      d := ItemToItem(c, b, g, z, y, q, a');
      PathOfFour(g, Exit(b, x), Entry(b, z), Exit(b, z), Entry(b, y));
    }
  }

  lemma PathOfFour(g: Graph, a: nat, b: nat, c: nat, d: nat)
    requires Reach(g, a, b) && Reach(g, b, c) && Reach(g, c, d)
    ensures Reach(g, a, d)
  {
    ReachTransitive(g, a, b, c);
    ReachTransitive(g, a, c, d);
  }

  // ---------- Instances of an operation ----------

  /** Which instance of an operation: its item in the block, and if that is a loop the iteration
      and the instance inside the body. */
  datatype Instance = AtOp(x: nat) | InLoop(x: nat, k: nat, rest: Instance)

  ghost predicate IsInstance(b: Block, w: Instance)
    decreases w
  {
    match w
    case AtOp(x) => IsItem(b, x) && !IsLoop(b, x)
    case InLoop(x, k, rest) => IsLoop(b, x) && k < Trips(b, x) && IsInstance(Body(b, x, k), rest)
  }

  /** The number of the operation. */
  ghost function OpAt(b: Block, w: Instance): nat
    requires IsInstance(b, w)
    decreases w
  {
    match w
    case AtOp(x) => Lo(b, x)
    case InLoop(x, k, rest) => OpAt(Body(b, x, k), rest)
  }

  /** The node. */
  ghost function NodeAt(b: Block, w: Instance): nat
    requires IsInstance(b, w)
    decreases w
  {
    match w
    case AtOp(x) => Entry(b, x)
    case InLoop(x, k, rest) => NodeAt(Body(b, x, k), rest)
  }

  /** The iterations of all loops around it. */
  ghost function EnvAt(b: Block, w: Instance): seq<nat>
    requires IsInstance(b, w)
    decreases w
  {
    match w
    case AtOp(_) => b.env
    case InLoop(x, k, rest) => EnvAt(Body(b, x, k), rest)
  }

  lemma {:induction false} OpInItem(b: Block, w: Instance)
    requires IsInstance(b, w)
    ensures InItem(b, w.x, OpAt(b, w))
    decreases w
  {
    ItemAfterItem(b, w.x);
    if w.InLoop? {
      var body := Body(b, w.x, w.k);
      OpInItem(body, w.rest);
      LoGrows(body, 0, w.rest.x);
      LoGrows(body, w.rest.x + 1, |body.items|);
      BodyOps(b, w.x, w.k);
    }
  }

  lemma {:induction false} NodeInItem(b: Block, w: Instance)
    requires IsInstance(b, w)
    ensures Entry(b, w.x) <= NodeAt(b, w) <= Exit(b, w.x)
    ensures w.InLoop? ==> Token(b, w.x, w.k) < NodeAt(b, w) < Token(b, w.x, w.k + 1)
    decreases w
  {
    if w.InLoop? {
      var body := Body(b, w.x, w.k);
      NodeInItem(body, w.rest);
      EntryGrows(body, 0, w.rest.x);
      EntryGrows(body, w.rest.x, |body.items|);
      TokenAfterBody(b, w.x, w.k);
      TokenGrows(b, w.x, 0, w.k);
      TokenGrows(b, w.x, w.k + 1, Trips(b, w.x));
    }
  }

  // ---------- Into and out of loops ----------

  /** What comes into an item comes before the operation that it leads to, in every iteration. */
  lemma {:induction false} ComesBefore(c: Context, b: Block, g: Graph, w: Instance, d: nat)
    requires HasEdges(c, b, g) && IsInstance(b, w) && ComesIn(c, b, w.x, d, OpAt(b, w))
    ensures Reach(g, Entry(b, w.x), NodeAt(b, w))
    decreases w
  {
    if w.InLoop? {
      var body, y := Body(b, w.x, w.k), w.rest.x;
      BodyHasEdges(c, b, g, w.x, w.k);
      TokenToToken(c, b, g, w.x, 0, w.k);
      var z, d' := EntersBody(c, b, g, w, d);
      ComesBefore(c, body, g, w.rest, d');
      PathOfFour(g, Entry(b, w.x), Token(b, w.x, w.k), Entry(body, y), NodeAt(b, w));
    }
  }

  /** The same for one loop: from the iteration's token to the item that the instance is in. */
  lemma {:induction false} EntersBody(c: Context, b: Block, g: Graph, w: Instance, d: nat) returns (z: nat, d': nat)
    requires HasEdges(c, b, g) && IsInstance(b, w) && w.InLoop? && ComesIn(c, b, w.x, d, OpAt(b, w))
    ensures var body := Body(b, w.x, w.k);
      && IsItem(body, w.rest.x) && Reach(g, Token(b, w.x, w.k), Entry(body, w.rest.x))
      && ComesIn(c, body, w.rest.x, d', OpAt(body, w.rest))
  {
    var body, y, a := Body(b, w.x, w.k), w.rest.x, OpAt(b, w);
    OpInItem(body, w.rest);
    ReachBounds(c.flat, d, a);
    z := FindItem(body, 0, y, d);
    var e :| e in c.flat && e.0 < Lo(b, w.x) && e.1 == d;
    assert e.0 < body.lo && InItem(body, z, e.1);
    assert FromOutside(c, body, z);
    FromToken(c, b, g, w.x, w.k, z);
    if z == y {
      d' := d;
      LoGrows(body, 0, y);
    } else {
      BodyHasEdges(c, b, g, w.x, w.k);
      Through(c, body, g, z);
      d' := ItemToItem(c, body, g, z, y, d, a);
      PathOfFour(g, Token(b, w.x, w.k), Entry(body, z), Exit(body, z), Entry(body, y));
    }
  }

  /** A carried item of an iteration comes before the wait_all that it yields. */
  lemma {:induction false} ReachesYield(c: Context, b: Block, g: Graph, x: nat, k: nat, z: nat)
    requires HasEdges(c, b, g) && IsLoop(b, x) && k < Trips(b, x) && CarriedItem(c, Body(b, x, k), z)
    ensures Reach(g, Exit(Body(b, x, k), z), Token(b, x, k + 1))
    decreases |b.items[x].body| - z
  {
    var body := Body(b, x, k);
    if Yielded(c, body, z) {
      EntryGrows(body, z, |body.items|);
      TokenAfterBody(b, x, k);
      assert IsYield(c, b, x, k, Exit(body, z), Token(b, x, k + 1));
      ToYield(c, b, g, x, k, Exit(body, z));
    } else {
      var y :| WaitsFor(c, body, y, z) && CarriedItem(c, body, y);
      BodyHasEdges(c, b, g, x, k);
      Link(c, body, g, z, y);
      Through(c, body, g, y);
      ReachesYield(c, b, g, x, k, y);
      PathOfFour(g, Exit(body, z), Entry(body, y), Exit(body, y), Token(b, x, k + 1));
    }
  }

  /** A carried operation comes before the results of all loops around it. */
  lemma {:induction false} ComesOut(c: Context, b: Block, g: Graph, w: Instance)
    requires HasEdges(c, b, g) && IsInstance(b, w) && (w.InLoop? ==> OpAt(b, w) in c.carried)
    ensures Reach(g, NodeAt(b, w), Exit(b, w.x))
    decreases w
  {
    if w.InLoop? {
      BodyHasEdges(c, b, g, w.x, w.k);
      LeavesIteration(c, b, g, w);
      TokenToToken(c, b, g, w.x, w.k + 1, Trips(b, w.x));
      ReachTransitive(g, NodeAt(b, w), Token(b, w.x, w.k + 1), Exit(b, w.x));
    }
  }

  lemma {:induction false} LeavesIteration(c: Context, b: Block, g: Graph, w: Instance)
    requires HasEdges(c, b, g) && IsInstance(b, w) && w.InLoop? && OpAt(b, w) in c.carried
    ensures Reach(g, NodeAt(b, w), Token(b, w.x, w.k + 1))
    decreases w, 0
  {
    var body := Body(b, w.x, w.k);
    BodyHasEdges(c, b, g, w.x, w.k);
    ComesOut(c, body, g, w.rest);
    ReachesYield(c, b, g, w.x, w.k, w.rest.x);
    ReachTransitive(g, NodeAt(b, w), Exit(body, w.rest.x), Token(b, w.x, w.k + 1));
  }

  /** A carried operation comes after the begin tokens of all loops around it. */
  lemma {:induction false} CarriedComesAfter(c: Context, b: Block, g: Graph, w: Instance)
    requires HasEdges(c, b, g) && IsInstance(b, w) && OpAt(b, w) in c.carried
    ensures Reach(g, Entry(b, w.x), NodeAt(b, w))
    ensures w.InLoop? ==> Reach(g, Token(b, w.x, w.k), NodeAt(b, w))
    decreases w
  {
    if w.InLoop? {
      var body := Body(b, w.x, w.k);
      BodyHasEdges(c, b, g, w.x, w.k);
      CarriedComesAfter(c, body, g, w.rest);
      FromToken(c, b, g, w.x, w.k, w.rest.x);
      ReachTransitive(g, Token(b, w.x, w.k), Entry(body, w.rest.x), NodeAt(b, w));
      TokenToToken(c, b, g, w.x, 0, w.k);
      ReachTransitive(g, Entry(b, w.x), Token(b, w.x, w.k), NodeAt(b, w));
    }
  }

  // ---------- Two instances ----------

  /** What the tokens can order: instances in different iterations of a loop around both when both
      are carried, other instances when the traced graph has a path and the first one is carried if
      it is in a loop that the second one is not in. */
  ghost predicate Orderable(c: Context, b: Block, v: Instance, w: Instance)
    requires IsInstance(b, v) && IsInstance(b, w)
    decreases v
  {
    if v.InLoop? && w.InLoop? && v.x == w.x then
      if v.k == w.k then Orderable(c, Body(b, v.x, v.k), v.rest, w.rest)
      else OpAt(b, v) in c.carried && OpAt(b, w) in c.carried
    else
      Reach(c.flat, OpAt(b, v), OpAt(b, w)) && (v.InLoop? ==> OpAt(b, v) in c.carried)
  }

  /** Carried operations of one iteration come before those of any later one. */
  lemma {:induction false} IterationsInOrder(c: Context, b: Block, g: Graph, v: Instance, w: Instance)
    requires HasEdges(c, b, g) && IsInstance(b, v) && IsInstance(b, w)
    requires v.InLoop? && w.InLoop? && v.x == w.x && v.k < w.k
    requires OpAt(b, v) in c.carried && OpAt(b, w) in c.carried
    ensures Reach(g, NodeAt(b, v), NodeAt(b, w))
  {
    LeavesIteration(c, b, g, v);
    TokenToToken(c, b, g, v.x, v.k + 1, w.k);
    CarriedComesAfter(c, b, g, w);
    PathOfFour(g, NodeAt(b, v), Token(b, v.x, v.k + 1), Token(b, w.x, w.k), NodeAt(b, w));
  }

  lemma {:induction false} ItemsInOrder(c: Context, b: Block, g: Graph, v: Instance, w: Instance)
    requires HasEdges(c, b, g) && IsInstance(b, v) && IsInstance(b, w) && v.x < w.x
    requires Reach(c.flat, OpAt(b, v), OpAt(b, w)) && (v.InLoop? ==> OpAt(b, v) in c.carried)
    ensures Reach(g, NodeAt(b, v), NodeAt(b, w))
  {
    OpInItem(b, v);
    OpInItem(b, w);
    ComesOut(c, b, g, v);
    var d := ItemToItem(c, b, g, v.x, w.x, OpAt(b, v), OpAt(b, w));
    ComesBefore(c, b, g, w, d);
    PathOfFour(g, NodeAt(b, v), Exit(b, v.x), Entry(b, w.x), NodeAt(b, w));
  }

  /** Of two instances the one with the smaller node is in an earlier item, or in an earlier iteration
      of one loop, or they are in one iteration. */
  lemma {:induction false} WhichFirst(b: Block, v: Instance, w: Instance)
    requires IsInstance(b, v) && IsInstance(b, w) && NodeAt(b, v) < NodeAt(b, w)
    ensures v.x < w.x || (v.x == w.x && v.InLoop? && w.InLoop? && v.k <= w.k)
  {
    NodeInItem(b, v);
    NodeInItem(b, w);
    if w.x < v.x {
      EntryGrows(b, w.x, v.x);
      assert false;
    }
    if v.InLoop? && w.InLoop? && v.x == w.x && w.k < v.k {
      TokenGrows(b, v.x, w.k + 1, v.k);
      assert false;
    }
  }

  /** The tokens order what they can order. */
  lemma {:induction false} InstancesInOrder(c: Context, b: Block, g: Graph, v: Instance, w: Instance)
    requires HasEdges(c, b, g) && IsInstance(b, v) && IsInstance(b, w)
    requires NodeAt(b, v) < NodeAt(b, w) && Orderable(c, b, v, w)
    ensures Reach(g, NodeAt(b, v), NodeAt(b, w))
    decreases v
  {
    WhichFirst(b, v, w);
    if v.x < w.x {
      ItemsInOrder(c, b, g, v, w);
    } else if v.k < w.k {
      IterationsInOrder(c, b, g, v, w);
    } else {
      BodyHasEdges(c, b, g, v.x, v.k);
      InstancesInOrder(c, Body(b, v.x, v.k), g, v.rest, w.rest);
    }
  }

  // ---------- The sequential program ----------

  /** The footprint of an operation in iterations of the loops around it. */
  type Footprints = (nat, seq<nat>) -> Footprint

  const WAIT_ALL := Footprint({}, {})

  /** The nodes of a list of items in the order of the sequential program. */
  ghost function Program(fp: Footprints, items: seq<Item>, env: seq<nat>, lo: nat): (r: seq<Footprint>)
    ensures |r| == Len(items, env)
    decreases items, 0, 0
  {
    if items == [] then []
    else
      var n := |items| - 1;
      Program(fp, items[..n], env, lo)
      + match items[n]
        case Op => [fp(lo + Ops(items[..n]), env)]
        case Loop(trips, body) => [WAIT_ALL] + Iterations(fp, body, env, lo + Ops(items[..n]), trips(env))
  }

  ghost function Iterations(fp: Footprints, body: seq<Item>, env: seq<nat>, lo: nat, k: nat): (r: seq<Footprint>)
    ensures |r| == LoopLen(body, env, k)
    decreases body, 1, k
  {
    if k == 0 then []
    else Iterations(fp, body, env, lo, k - 1) + Program(fp, body, env + [k - 1], lo) + [WAIT_ALL]
  }

  ghost function ProgramOf(fp: Footprints, b: Block): (r: seq<Footprint>)
    ensures |r| == Len(b.items, b.env)
  {
    Program(fp, b.items, b.env, b.lo)
  }

  ghost function InstanceFootprint(fp: Footprints, b: Block, w: Instance): Footprint
    requires IsInstance(b, w)
  {
    fp(OpAt(b, w), EnvAt(b, w))
  }

  /** w is the instance at place u of the block. */
  ghost predicate StandsAt(fp: Footprints, b: Block, w: Instance, u: nat, x: Footprint) {
    IsInstance(b, w) && NodeAt(b, w) == b.pos + u && InstanceFootprint(fp, b, w) == x
  }

  ghost function FirstItems(b: Block, n: nat): Block
    requires n <= |b.items|
  {
    b.(items := b.items[..n])
  }

  lemma {:induction false} SameInstance(fp: Footprints, b: Block, n: nat, w: Instance, u: nat, x: Footprint)
    requires n <= |b.items| && StandsAt(fp, FirstItems(b, n), w, u, x)
    ensures StandsAt(fp, b, w, u, x)
  {
    assert b.items[..n][..w.x] == b.items[..w.x];
    if w.InLoop? {
      assert Body(FirstItems(b, n), w.x, w.k) == Body(b, w.x, w.k);
    }
  }

  /** Every node that accesses something is an instance of an operation. */
  lemma {:induction false} Locate(fp: Footprints, b: Block, u: nat) returns (w: Instance)
    requires u < |ProgramOf(fp, b)| && ProgramOf(fp, b)[u] != WAIT_ALL
    ensures StandsAt(fp, b, w, u, ProgramOf(fp, b)[u])
    decreases b.items, 0, 0
  {
    var n := |b.items| - 1;
    var init := FirstItems(b, n);
    if u < |ProgramOf(fp, init)| {
      w := Locate(fp, init, u);
      SameInstance(fp, b, n, w, u, ProgramOf(fp, b)[u]);
    } else if IsLoop(b, n) {
      var v := u - |ProgramOf(fp, init)|;
      w := LocateInLoop(fp, b, n, Trips(b, n), v - 1);
    } else {
      w := AtOp(n);
    }
  }

  lemma {:induction false} LocateInLoop(fp: Footprints, b: Block, x: nat, k: nat, u: nat) returns (w: Instance)
    requires IsLoop(b, x) && k <= Trips(b, x)
    requires u < LoopLen(b.items[x].body, b.env, k)
    requires Iterations(fp, b.items[x].body, b.env, Lo(b, x), k)[u] != WAIT_ALL
    ensures StandsAt(fp, b, w, Entry(b, x) - b.pos + 1 + u, Iterations(fp, b.items[x].body, b.env, Lo(b, x), k)[u])
    decreases b.items[x].body, 1, k
  {
    var before := LoopLen(b.items[x].body, b.env, k - 1);
    if u < before {
      w := LocateInLoop(fp, b, x, k - 1, u);
    } else {
      var rest := Locate(fp, Body(b, x, k - 1), u - before);
      w := InLoop(x, k - 1, rest);
    }
  }

  // ---------- Meaning ----------

  /** v comes before w in the sequential program, and they conflict. */
  ghost predicate ConflictInOrder(fp: Footprints, b: Block, v: Instance, w: Instance) {
    && IsInstance(b, v) && IsInstance(b, w) && NodeAt(b, v) < NodeAt(b, w)
    && Conflict(InstanceFootprint(fp, b, v), InstanceFootprint(fp, b, w))
  }

  /** What tracing has to give: every two conflicting instances can be ordered. */
  ghost predicate AllOrderable(c: Context, fp: Footprints, b: Block) {
    forall v, w :: ConflictInOrder(fp, b, v, w) ==> Orderable(c, b, v, w)
  }

  /** The whole program: no loop around it. */
  ghost function Top(items: seq<Item>): Block {
    Block(items, [], 0, 0, None)
  }

  ghost function NestGraph(c: Context, items: seq<Item>): Graph {
    set u: nat, v: nat | 0 <= u < Len(items, []) && 0 <= v < Len(items, []) && IsEdge(c, Top(items), u, v) :: (u, v)
  }

  lemma {:induction false} LinkAscends(c: Context, b: Block, u: nat, v: nat)
    requires IsLink(c, b, u, v)
    ensures b.pos <= u < v < Entry(b, |b.items|)
  {
    var x: nat, y: nat :| WaitsFor(c, b, y, x) && u == Exit(b, x) && v == Entry(b, y);
    EntryBeforeExit(b, x);
    EntryGrows(b, 0, x);
    EntryGrows(b, x, y);
    EntryGrows(b, y, |b.items|);
    EntryBeforeExit(b, y);
  }

  lemma {:induction false} IterArgAscends(c: Context, b: Block, u: nat, v: nat)
    requires IsIterArg(c, b, u, v) && (b.tok.Some? ==> b.tok.value < b.pos)
    ensures u < v < Entry(b, |b.items|)
  {
    var y: nat :| GetsIterArg(c, b, y) && v == Entry(b, y);
    EntryGrows(b, 0, y);
    EntryGrows(b, y, |b.items|);
    EntryBeforeExit(b, y);
  }

  lemma {:induction false} YieldAscends(c: Context, b: Block, x: nat, k: nat, u: nat, v: nat)
    requires IsLoop(b, x) && k < Trips(b, x) && IsYield(c, b, x, k, u, v)
    ensures u < v == Token(b, x, k + 1)
  {
    TokenGrows(b, x, k, k + 1);
    if u != Token(b, x, k) {
      var z: nat :| Yielded(c, Body(b, x, k), z) && u == Exit(Body(b, x, k), z);
      EntryGrows(Body(b, x, k), z, |b.items[x].body|);
      TokenAfterBody(b, x, k);
    }
  }

  lemma {:induction false} EdgeAscends(c: Context, b: Block, u: nat, v: nat)
    requires IsEdge(c, b, u, v) && (b.tok.Some? ==> b.tok.value < b.pos)
    ensures u < v < Entry(b, |b.items|)
    decreases b.items
  {
    if IsLink(c, b, u, v) {
      LinkAscends(c, b, u, v);
    } else if IsIterArg(c, b, u, v) {
      IterArgAscends(c, b, u, v);
    } else {
      var x: nat, k: nat :| IsLoop(b, x) && k < Trips(b, x)
        && (IsYield(c, b, x, k, u, v) || IsEdge(c, Body(b, x, k), u, v));
      InIteration(b, x, k);
      if IsYield(c, b, x, k, u, v) {
        YieldAscends(c, b, x, k, u, v);
      } else {
        EdgeAscends(c, Body(b, x, k), u, v);
      }
    }
  }

  lemma {:induction false} InIteration(b: Block, x: nat, k: nat)
    requires IsLoop(b, x) && k < Trips(b, x)
    ensures Entry(Body(b, x, k), |b.items[x].body|) == Token(b, x, k + 1) < Entry(b, |b.items|)
  {
    TokenAfterBody(b, x, k);
    TokenGrows(b, x, k + 1, Trips(b, x));
    EntryGrows(b, x, |b.items|);
  }

  lemma {:induction false} GraphHasEdges(c: Context, items: seq<Item>)
    ensures HasEdges(c, Top(items), NestGraph(c, items)) && Forward(NestGraph(c, items), Len(items, []))
  {
    assert items[..|items|] == items;
    forall u: nat, v: nat | IsEdge(c, Top(items), u, v)
      ensures u < v < Len(items, [])
    {
      EdgeAscends(c, Top(items), u, v);
    }
  }

  /** The tokens order every conflict of the sequential program. */
  lemma {:induction false} NestOrdersConflicts(c: Context, fp: Footprints, items: seq<Item>)
    requires AllOrderable(c, fp, Top(items))
    ensures OrdersConflicts(ProgramOf(fp, Top(items)), NestGraph(c, items))
  {
    var b, prog := Top(items), ProgramOf(fp, Top(items));
    GraphHasEdges(c, items);
    forall u: nat, v: nat | u < v < |prog| && Conflict(prog[u], prog[v])
      ensures Reach(NestGraph(c, items), u, v)
    {
      NodesOrdered(c, fp, b, NestGraph(c, items), u, v);
    }
  }

  lemma {:induction false} NodesOrdered(c: Context, fp: Footprints, b: Block, g: Graph, u: nat, v: nat)
    requires AllOrderable(c, fp, b) && HasEdges(c, b, g) && b.pos == 0
    requires u < v < |ProgramOf(fp, b)| && Conflict(ProgramOf(fp, b)[u], ProgramOf(fp, b)[v])
    ensures Reach(g, u, v)
  {
    var w := Locate(fp, b, u);
    var w' := Locate(fp, b, v);
    assert ConflictInOrder(fp, b, w, w');
    InstancesInOrder(c, b, g, w, w');
  }

  /** Any asynchronous run of a program with loops in it that respects the tokens computes what
      the sequential program computes, for any nesting and any trip counts. */
  lemma AsyncNestMeansSequential(c: Context, fp: Footprints, items: seq<Item>, ord: seq<nat>, f: Semantics, s: Store)
    requires AllOrderable(c, fp, Top(items))
    requires IsOrder(ord, Len(items, [])) && Respects(ord, NestGraph(c, items))
    ensures Run(ProgramOf(fp, Top(items)), f, ord, s)
         == Run(ProgramOf(fp, Top(items)), f, ProgramOrder(Len(items, [])), s)
  {
    var prog := ProgramOf(fp, Top(items));
    GraphHasEdges(c, items);
    NestOrdersConflicts(c, fp, items);
    assert prog[..|prog|] == prog;
    LegalOrdersAgree(prog, f, NestGraph(c, items), |prog|, ord, s);
  }
}
