/** The pass over all loops of a program: the dependency lists of every loop body, seen from that
    body, and the tokens inserted into it, the inner loops first. */
module InsertTokens {
  import opened DependencyGraph
  import opened DependencyLoop
  import opened DependencyNest
  import opened Wrappers

  /** A list of items as such, in no iteration. */
  ghost function Static(items: seq<Item>, lo: nat): Block {
    Block(items, [], lo, 0, None)
  }

  // ---------- What the lists have to be ----------

  /** The list of item y as the body has it once inner loops have their tokens and results. */
  ghost predicate IsItemList(c: Context, b: Block, y: nat, list: seq<Token>) {
    forall t :: t in list <==>
      match t
      case InBody(x) => WaitsFor(c, b, y, x)
      case Incoming(id) => id < b.lo && exists e :: e in c.flat && e.0 == id && InItem(b, y, e.1)
      case IterArg => false
  }

  /** The new lists of a body say what DependencyNest says of it. */
  ghost predicate IsBody(c: Context, b: Block, after: DepLists, yielded: seq<Token>) {
    && |after| == |b.items|
    && (forall y: nat, x: nat :: y < |after| ==> (InBody(x) in after[y] <==> WaitsFor(c, b, y, x)))
    && (forall y: nat :: y < |after| ==> (IterArg in after[y] <==> GetsIterArg(c, b, y)))
    && (forall z: nat :: InBody(z) in yielded <==> Yielded(c, b, z))
    && (forall y, id :: 0 <= y < |after| ==> Incoming(id) !in after[y])
    && IterArg in yielded && forall id :: Incoming(id) !in yielded
  }

  /** What the pass makes of an item: nothing of an operation, of a loop the lists of its body,
      what it yields, and what it makes of the items of the body. */
  datatype Inserted = NoLoop | Inserted(after: DepLists, yielded: seq<Token>, inner: seq<Inserted>)

  ghost predicate IsInserted(c: Context, items: seq<Item>, lo: nat, t: seq<Inserted>)
    decreases items, 0
  {
    && |t| == |items|
    && forall x: nat :: x < |items| && items[x].Loop? ==>
         IsLoopInserted(c, items[x].body, Lo(Static(items, lo), x), t[x])
  }

  ghost predicate IsLoopInserted(c: Context, body: seq<Item>, lo: nat, t: Inserted)
    decreases body, 1
  {
    t.Inserted? && IsBody(c, Static(body, lo), t.after, t.yielded) && IsInserted(c, body, lo, t.inner)
  }

  /** In which iterations a body runs makes no difference to its tokens. */
  lemma {:induction false} TokensAreStatic(c: Context, b: Block, x: nat, y: nat)
    ensures WaitsFor(c, b, y, x) <==> WaitsFor(c, Static(b.items, b.lo), y, x)
    ensures GetsIterArg(c, b, y) <==> GetsIterArg(c, Static(b.items, b.lo), y)
    ensures CarriedItem(c, b, x) <==> CarriedItem(c, Static(b.items, b.lo), x)
  {
    assert forall z: nat, a: nat :: InItem(b, z, a) <==> InItem(Static(b.items, b.lo), z, a);
  }

  // ---------- What the lists say of the program ----------

  /** Operation a is in item x of a list of items whose first operation is lo. */
  ghost predicate HasOp(items: seq<Item>, lo: nat, x: nat, a: nat) {
    x < |items| && lo + Ops(items[..x]) <= a < lo + Ops(items[..x + 1])
  }

  /** A traced dependency of a later item on item x. */
  ghost predicate IsLaterUse(c: Context, items: seq<Item>, lo: nat, x: nat, y: nat, e: (nat, nat)) {
    x < y && e in c.flat && HasOp(items, lo, x, e.0) && HasOp(items, lo, y, e.1)
  }

  /** Every later item that depends on item x is an allocation or deallocation. */
  ghost predicate OnlyUsedByExempt(c: Context, items: seq<Item>, lo: nat, x: nat) {
    forall y: nat, e: (nat, nat) :: IsLaterUse(c, items, lo, x, y, e) ==> items[y].Op? && e.1 !in c.carried
  }

  /** An operation is alone in its item. */
  lemma {:induction false} OneOperation(items: seq<Item>, lo: nat, x: nat)
    requires x < |items| && items[x].Op?
    ensures forall a: nat :: HasOp(items, lo, x, a) <==> a == lo + Ops(items[..x])
  {
    ItemAfterItem(Static(items, lo), x);
  }

  /** An operation of the body gets the iteration argument exactly when it is carried or depends on
      something in front of the loop. It is collected by the yielded wait_all exactly when it is
      carried and only allocations and deallocations of the body depend on it. */
  lemma {:induction false} OperationTokens(
    c: Context, items: seq<Item>, lo: nat, after: DepLists, yielded: seq<Token>, x: nat)
    requires IsBody(c, Static(items, lo), after, yielded) && x < |items| && items[x].Op?
    ensures var op := lo + Ops(items[..x]);
      && (IterArg in after[x] <==> op in c.carried || exists e :: e in c.flat && e.0 < lo && e.1 == op)
      && (InBody(x) in yielded <==> op in c.carried && OnlyUsedByExempt(c, items, lo, x))
  {
    var b := Static(items, lo);
    OneOperation(items, lo, x);
    assert forall a: nat :: InItem(b, x, a) <==> HasOp(items, lo, x, a);
    YieldedIff(c, items, lo, x);
  }

  /** A loop in the body gets the iteration argument, and is collected exactly when only allocations
      and deallocations of the body depend on operations in it. */
  lemma {:induction false} LoopTokens(
    c: Context, items: seq<Item>, lo: nat, after: DepLists, yielded: seq<Token>, x: nat)
    requires IsBody(c, Static(items, lo), after, yielded) && x < |items| && items[x].Loop?
    ensures IterArg in after[x]
    ensures InBody(x) in yielded <==> OnlyUsedByExempt(c, items, lo, x)
  {
    YieldedIff(c, items, lo, x);
  }

  lemma {:induction false} YieldedIff(c: Context, items: seq<Item>, lo: nat, x: nat)
    ensures Yielded(c, Static(items, lo), x)
      <==> CarriedItem(c, Static(items, lo), x) && OnlyUsedByExempt(c, items, lo, x)
  {
    var b := Static(items, lo);
    forall y: nat
      ensures (WaitsFor(c, b, y, x) ==> !CarriedItem(c, b, y)) <==>
              (forall e :: IsLaterUse(c, items, lo, x, y, e) ==> items[y].Op? && e.1 !in c.carried)
    {
      UsedByExempt(c, items, lo, x, y);
    }
  }

  lemma {:induction false} UsedByExempt(c: Context, items: seq<Item>, lo: nat, x: nat, y: nat)
    ensures (WaitsFor(c, Static(items, lo), y, x) ==> !CarriedItem(c, Static(items, lo), y)) <==>
            (forall e :: IsLaterUse(c, items, lo, x, y, e) ==> items[y].Op? && e.1 !in c.carried)
  {
    var b := Static(items, lo);
    assert forall e: (nat, nat) :: IsLaterUse(c, items, lo, x, y, e) <==>
      x < y && e in c.flat && InItem(b, x, e.0) && InItem(b, y, e.1);
    if y < |items| && items[y].Op? {
      OneOperation(items, lo, y);
    }
  }

  /** What the lists of a body say of its item y. */
  ghost predicate ItemTokens(
    c: Context, body: seq<Item>, first: nat, after: DepLists, yielded: seq<Token>, y: nat)
    requires y < |after| == |body|
  {
    && (forall z: nat :: InBody(z) in after[y] <==> exists e :: IsLaterUse(c, body, first, z, y, e))
    && (forall id :: Incoming(id) !in after[y])
    && match body[y]
       case Loop(_, _) =>
         IterArg in after[y] && (InBody(y) in yielded <==> OnlyUsedByExempt(c, body, first, y))
       case Op =>
         var op := first + Ops(body[..y]);
         && (IterArg in after[y] <==> op in c.carried || exists e :: e in c.flat && e.0 < first && e.1 == op)
         && (InBody(y) in yielded <==> op in c.carried && OnlyUsedByExempt(c, body, first, y))
  }

  lemma {:induction false} BodyTokens(
    c: Context, body: seq<Item>, first: nat, after: DepLists, yielded: seq<Token>, y: nat)
    requires IsBody(c, Static(body, first), after, yielded) && y < |body|
    ensures |after| == |body| && ItemTokens(c, body, first, after, yielded, y)
  {
    if body[y].Loop? {
      LoopTokens(c, body, first, after, yielded, y);
    } else {
      OperationTokens(c, body, first, after, yielded, y);
    }
    forall z: nat
      ensures InBody(z) in after[y] <==> exists e :: IsLaterUse(c, body, first, z, y, e)
    {
      WaitsForIff(c, body, first, y, z);
    }
  }

  /** The lists that the pass returns for the loop at item x: what they say of every item y of its
      body, of the items that the yielded wait_all collects, and the same for the loops in there. */
  lemma {:induction false} InsertedTokens(c: Context, items: seq<Item>, lo: nat, t: seq<Inserted>, x: nat)
    requires IsInserted(c, items, lo, t) && x < |items| && items[x].Loop?
    ensures t[x].Inserted? && |t[x].after| == |items[x].body|
    ensures var body, first := items[x].body, lo + Ops(items[..x]);
      && IsInserted(c, body, first, t[x].inner)
      && (forall y: nat :: y < |body| ==> ItemTokens(c, body, first, t[x].after, t[x].yielded, y))
      && (forall v :: v in t[x].yielded ==> v == IterArg || (v.InBody? && v.item < |body|))
      && IterArg in t[x].yielded
  {
    var body, first := items[x].body, lo + Ops(items[..x]);
    assert IsLoopInserted(c, body, Lo(Static(items, lo), x), t[x]);
    forall y: nat | y < |body|
      ensures ItemTokens(c, body, first, t[x].after, t[x].yielded, y)
    {
      BodyTokens(c, body, first, t[x].after, t[x].yielded, y);
    }
  }

  lemma {:induction false} WaitsForIff(c: Context, items: seq<Item>, lo: nat, y: nat, x: nat)
    ensures WaitsFor(c, Static(items, lo), y, x) <==> exists e :: IsLaterUse(c, items, lo, x, y, e)
  {
    assert forall e: (nat, nat) :: IsLaterUse(c, items, lo, x, y, e) <==>
      x < y && e in c.flat && InItem(Static(items, lo), x, e.0) && InItem(Static(items, lo), y, e.1);
  }

  // ---------- The lists of a body ----------

  /** bounds[x] is the number of the first operation of item x. */
  ghost predicate AreBounds(b: Block, bounds: seq<nat>) {
    |bounds| == |b.items| + 1 && forall x: nat :: x < |bounds| ==> bounds[x] == Lo(b, x)
  }

  /** The item that operation a is in. */
  method ItemOf(ghost b: Block, bounds: seq<nat>, y: nat, a: nat) returns (x: nat)
    requires AreBounds(b, bounds) && y < |b.items| && b.lo <= a < bounds[y]
    ensures x < y && InItem(b, x, a)
  {
    x := 0;
    while a >= bounds[x + 1]
      invariant x < y && bounds[x] <= a
      decreases y - x
    {
      x := x + 1;
    }
  }

  lemma {:induction false} OneItem(b: Block, x: nat, z: nat, a: nat)
    requires InItem(b, x, a) && InItem(b, z, a)
    ensures x == z
  {
    if x < z {
      LoGrows(b, x + 1, z);
    } else if z < x {
      LoGrows(b, z + 1, x);
    }
  }

  /** The token for operation a in the list of item y. */
  ghost predicate IsToken(b: Block, y: nat, a: nat, t: Token) {
    match t
    case InBody(x) => x < y && InItem(b, x, a)
    case Incoming(id) => id == a < b.lo
    case IterArg => false
  }

  /** t is the token for a dependency of one of the item's operations before number op, or of
      that one on an operation below n. */
  ghost predicate IsTokenBefore(flat: Graph, b: Block, y: nat, op: nat, n: nat, t: Token)
    requires y < |b.items|
  {
    exists e :: e in flat && Lo(b, y) <= e.1 && IsToken(b, y, e.0, t) && (e.1 < op || (e.1 == op && e.0 < n))
  }

  ghost predicate TokensSoFar(flat: Graph, b: Block, y: nat, op: nat, n: nat, list: seq<Token>)
    requires y < |b.items|
  {
    forall t :: t in list <==> IsTokenBefore(flat, b, y, op, n, t)
  }

  lemma {:induction false} NextSource(flat: Graph, b: Block, y: nat, op: nat, a: nat, list: seq<Token>,
                                      more: seq<Token>)
    requires y < |b.items| && Lo(b, y) <= op && TokensSoFar(flat, b, y, op, a, list)
    requires forall t :: t in more <==> (a, op) in flat && IsToken(b, y, a, t)
    ensures TokensSoFar(flat, b, y, op, a + 1, list + more)
  {
    forall t
      ensures t in list + more <==> IsTokenBefore(flat, b, y, op, a + 1, t)
    {
      if t in more {
        assert (a, op) in flat && IsToken(b, y, (a, op).0, t);
      }
    }
  }

  /** Dependencies of one operation of item y. */
  method OpList(flat: Graph, ghost b: Block, bounds: seq<nat>, y: nat, op: nat, list0: seq<Token>)
    returns (list: seq<Token>)
    requires AreBounds(b, bounds) && y < |b.items| && bounds[y] <= op
    requires TokensSoFar(flat, b, y, op, 0, list0)
    ensures TokensSoFar(flat, b, y, op, bounds[y], list)
  {
    list := list0;
    for a := 0 to bounds[y]
      invariant TokensSoFar(flat, b, y, op, a, list)
    {
      var more: seq<Token> := [];
      if (a, op) in flat {
        if a < bounds[0] {
          more := [Incoming(a)];
          NotInItem(b, y, a);
        } else {
          var x := ItemOf(b, bounds, y, a);
          more := [InBody(x)];
          OnlyToken(b, x, y, a);
        }
      }
      NextSource(flat, b, y, op, a, list, more);
      list := list + more;
    }
  }

  lemma {:induction false} NotInItem(b: Block, y: nat, a: nat)
    requires a < b.lo && y < |b.items|
    ensures forall t :: IsToken(b, y, a, t) <==> t == Incoming(a)
  {
    forall x: nat | x < y
      ensures !InItem(b, x, a)
    {
      LoGrows(b, 0, x);
    }
  }

  lemma {:induction false} OnlyToken(b: Block, x: nat, y: nat, a: nat)
    requires x < y < |b.items| && InItem(b, x, a) && b.lo <= a
    ensures forall t :: IsToken(b, y, a, t) <==> t == InBody(x)
  {
    forall z: nat | InItem(b, z, a)
      ensures z == x
    {
      OneItem(b, x, z, a);
    }
  }

  lemma {:induction false} NextOp(flat: Graph, b: Block, y: nat, op: nat, list: seq<Token>)
    requires y < |b.items| && Lo(b, y) <= op && TokensSoFar(flat, b, y, op, Lo(b, y), list)
    ensures TokensSoFar(flat, b, y, op + 1, 0, list)
  {
    forall a: nat, t: Token | IsToken(b, y, a, t)
      ensures a < Lo(b, y)
    {
      if t.InBody? {
        LoGrows(b, t.item + 1, y);
      } else {
        LoGrows(b, 0, y);
      }
    }
  }

  /** The list of one item: what its operations depend on outside it. */
  method ItemList(ghost c: Context, flat: Graph, ghost b: Block, bounds: seq<nat>, y: nat) returns (list: seq<Token>)
    requires flat == c.flat && AreBounds(b, bounds) && y < |b.items|
    ensures IsItemList(c, b, y, list)
  {
    list := [];
    LoGrows(b, y, y + 1);
    for op := bounds[y] to bounds[y + 1]
      invariant TokensSoFar(flat, b, y, op, 0, list)
    {
      list := OpList(flat, b, bounds, y, op, list);
      NextOp(flat, b, y, op, list);
    }
    AllTokens(c, b, y, list);
  }

  lemma {:induction false} AllTokens(c: Context, b: Block, y: nat, list: seq<Token>)
    requires y < |b.items| && TokensSoFar(c.flat, b, y, Lo(b, y + 1), 0, list)
    ensures IsItemList(c, b, y, list)
  {
    forall t
      ensures t in list <==>
        match t
        case InBody(x) => WaitsFor(c, b, y, x)
        case Incoming(id) => id < b.lo && exists e :: e in c.flat && e.0 == id && InItem(b, y, e.1)
        case IterArg => false
    {
    }
  }

  // ---------- The pass ----------

  ghost predicate AreCarried(c: Context, b: Block, carried: seq<bool>) {
    |carried| == |b.items| && forall x: nat :: x < |carried| ==> (carried[x] <==> CarriedItem(c, b, x))
  }

  ghost predicate AreItemLists(c: Context, b: Block, deps: DepLists) {
    |deps| == |b.items| && forall y: nat :: y < |deps| ==> IsItemList(c, b, y, deps[y])
  }

  lemma {:induction false} OutsideIsIncoming(c: Context, b: Block, y: nat, list: seq<Token>)
    requires IsItemList(c, b, y, list)
    ensures FromOutside(c, b, y) <==> exists v :: v in list && !v.InBody?
  {
    if FromOutside(c, b, y) {
      var e :| e in c.flat && e.0 < b.lo && InItem(b, y, e.1);
      assert Incoming(e.0) in list;
    }
    if v :| v in list && !v.InBody? {
      assert v.Incoming?;
    }
  }

  lemma {:induction false} UnusedIsYielded(c: Context, b: Block, carried: seq<bool>, deps: DepLists, z: nat)
    requires AreCarried(c, b, carried) && AreItemLists(c, b, deps)
    ensures Yielded(c, b, z) <==> z < |deps| && carried[z] && OnlyUsedByNoCarryOps(carried, deps, z)
  {
    if z < |deps| && carried[z] && OnlyUsedByNoCarryOps(carried, deps, z) {
      forall y: nat | WaitsFor(c, b, y, z)
        ensures !CarriedItem(c, b, y)
      {
        assert InBody(z) in deps[y];
      }
    }
    if Yielded(c, b, z) {
      forall y | 0 <= y < |deps| && InBody(z) in deps[y]
        ensures !carried[y]
      {
        assert WaitsFor(c, b, y, z);
      }
    }
  }

  /** The lists that are inserted into a body are the dependencies that DependencyNest has. */
  lemma {:induction false} ListsAreBody(
    c: Context, b: Block, carried: seq<bool>, deps: DepLists, after: DepLists, yielded: seq<Token>)
    requires AreCarried(c, b, carried) && AreItemLists(c, b, deps) && IsLoopCarried(carried, deps, after, yielded)
    ensures IsBody(c, b, after, yielded)
  {
    forall y: nat | y < |after|
      ensures IterArg in after[y] <==> GetsIterArg(c, b, y)
      ensures forall x: nat :: InBody(x) in after[y] <==> WaitsFor(c, b, y, x)
    {
      assert IsNewList(carried[y], deps[y], after[y]);
      OutsideIsIncoming(c, b, y, deps[y]);
    }
    forall z: nat
      ensures InBody(z) in yielded <==> Yielded(c, b, z)
    {
      UnusedIsYielded(c, b, carried, deps, z);
    }
  }

  /** Inserts the tokens of a body whose inner loops are done. */
  method InsertInBody(flat: Graph, ghost c: Context, carriedOps: set<nat>, items: seq<Item>, lo: nat, bounds: seq<nat>)
    returns (after: DepLists, yielded: seq<Token>)
    requires c == Context(flat, carriedOps) && AreBounds(Static(items, lo), bounds)
    ensures IsBody(c, Static(items, lo), after, yielded)
  {
    ghost var b := Static(items, lo);
    var carried: seq<bool>, deps: DepLists := [], [];
    for x := 0 to |items|
      invariant |carried| == |deps| == x
      invariant forall i: nat :: i < x ==> (carried[i] <==> CarriedItem(c, b, i))
      invariant forall i: nat :: i < x ==> IsItemList(c, b, i, deps[i])
    {
      var list := ItemList(c, flat, b, bounds, x);
      carried := carried + [items[x].Loop? || bounds[x] in carriedOps];
      deps := deps + [list];
    }
    after, yielded := InsertLoopCarriedDeps(carried, deps);
    ListsAreBody(c, b, carried, deps, after, yielded);
  }

  /** An item whose first operation is lo: in a loop first the loops in its body, then the body. */
  method InsertInItem(flat: Graph, ghost c: Context, carriedOps: set<nat>, item: Item, lo: nat)
    returns (t: Inserted, end: nat)
    requires c == Context(flat, carriedOps)
    ensures item.Loop? ==> IsLoopInserted(c, item.body, lo, t)
    ensures end == lo + if item.Loop? then Ops(item.body) else 1
    decreases item, 0
  {
    match item {
      case Op => t, end := NoLoop, lo + 1;
      case Loop(trips, body) =>
        var inner, bounds := InsertAll(flat, c, carriedOps, body, lo);
        var after, yielded := InsertInBody(flat, c, carriedOps, body, lo, bounds);
        t, end := Inserted(after, yielded, inner), bounds[|body|];
        assert body[..|body|] == body;
    }
  }

  /** All loops among the items. */
  method InsertAll(flat: Graph, ghost c: Context, carriedOps: set<nat>, items: seq<Item>, lo: nat)
    returns (t: seq<Inserted>, bounds: seq<nat>)
    requires c == Context(flat, carriedOps)
    ensures IsInserted(c, items, lo, t) && AreBounds(Static(items, lo), bounds)
    decreases items, 0
  {
    ghost var b := Static(items, lo);
    t, bounds := [], [lo];
    assert items[..0] == [];
    for x := 0 to |items|
      invariant |t| == x && |bounds| == x + 1 && forall i: nat :: i <= x ==> bounds[i] == Lo(b, i)
      invariant forall i: nat :: i < x && items[i].Loop? ==> IsLoopInserted(c, items[i].body, Lo(b, i), t[i])
    {
      ItemAfterItem(b, x);
      var inserted, end := InsertInItem(flat, c, carriedOps, items[x], bounds[x]);
      t, bounds := t + [inserted], bounds + [end];
    }
  }
}
