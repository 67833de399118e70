/** From tracing to the asynchronous program: operations and loops in any nesting, traced once,
    reduced, and with the tokens of all loops inserted, mean what the sequential program means. */
module TracedNest {
  import opened DependencyGraph
  import opened DependencyMeaning
  import opened DependencyNest
  import NestEdges
  import Trace = DependencyTrace

  /** A traced program: its operations, how they are nested in loops, the regions of their tiles
      in each iteration of the loops around them, how many loops are around the definition of a
      value or buffer, and which operations are allocations or deallocations. */
  datatype Source = Source(
    prog: seq<Trace.AsyncOp>, items: seq<Item>, regs: seq<nat> -> Trace.Region, home: nat -> nat, exempt: set<nat>)

  ghost function ContextOf(src: Source): Context {
    Context(Reduced(Trace.Edges(src.prog, |src.prog|)), set a | 0 <= a < |src.prog| && a !in src.exempt)
  }

  // ---------- Values and buffers of an iteration ----------

  /** The iterations of the loops around a definition with h loops around it. */
  function Key(env: seq<nat>, h: nat): seq<nat> {
    if h <= |env| then env[..h] else env
  }

  /** A value or a buffer that is defined in a loop is another one in each iteration. */
  ghost function Localize(env: seq<nat>, home: nat -> nat, c: Cell): Cell {
    match c
    case Element(m, _) => if home(m) == 0 then c else Private(Key(env, home(m)), c)
    case Value(v) => if home(v) == 0 then c else Private(Key(env, home(v)), c)
    case _ => c
  }

  ghost function LocalizeAll(env: seq<nat>, home: nat -> nat, cells: set<Cell>): set<Cell> {
    set c | c in cells :: Localize(env, home, c)
  }

  ghost function Localized(env: seq<nat>, home: nat -> nat, a: Footprint): Footprint {
    Footprint(LocalizeAll(env, home, a.ins), LocalizeAll(env, home, a.outs))
  }

  ghost predicate NoPrivate(a: Footprint) {
    forall c :: c in a.ins || c in a.outs ==> !c.Private?
  }

  /** A cell that two operations access, each in its iterations, and at least one writes. */
  ghost predicate Shares(env: seq<nat>, a: Footprint, env': seq<nat>, b: Footprint, home: nat -> nat, c: Cell) {
    && Localize(env, home, c) == Localize(env', home, c)
    && ((c in a.outs && (c in b.ins || c in b.outs)) || (c in a.ins && c in b.outs))
  }

  lemma Original(env: seq<nat>, home: nat -> nat, cells: set<Cell>, c: Cell) returns (d: Cell)
    requires c in LocalizeAll(env, home, cells)
    ensures d in cells && Localize(env, home, d) == c
  {
    d :| d in cells && Localize(env, home, d) == c;
  }

  /** Cells that become the same are the same. */
  lemma SameOriginal(env: seq<nat>, env': seq<nat>, home: nat -> nat, c: Cell, d: Cell)
    requires !c.Private? && !d.Private? && Localize(env, home, c) == Localize(env', home, d)
    ensures c == d
  {
  }

  lemma OneShared(env: seq<nat>, xs: set<Cell>, env': seq<nat>, ys: set<Cell>, home: nat -> nat) returns (c: Cell)
    requires !(LocalizeAll(env, home, xs) !! LocalizeAll(env', home, ys))
    requires forall c :: c in xs || c in ys ==> !c.Private?
    ensures c in xs && c in ys && Localize(env, home, c) == Localize(env', home, c)
  {
    var l :| l in LocalizeAll(env, home, xs) && l in LocalizeAll(env', home, ys);
    c := Original(env, home, xs, l);
    var d := Original(env', home, ys, l);
    SameOriginal(env, env', home, c, d);
  }

  /** A conflict of two operations in their iterations comes from a cell that they share. */
  lemma SharedCell(env: seq<nat>, a: Footprint, env': seq<nat>, b: Footprint, home: nat -> nat) returns (c: Cell)
    requires NoPrivate(a) && NoPrivate(b) && Conflict(Localized(env, home, a), Localized(env', home, b))
    ensures Shares(env, a, env', b, home, c) && Conflict(a, b)
  {
    assert a.outs == {} ==> LocalizeAll(env, home, a.outs) == {};
    assert b.outs == {} ==> LocalizeAll(env', home, b.outs) == {};
    if !(LocalizeAll(env, home, a.outs) !! LocalizeAll(env', home, b.outs)) {
      c := OneShared(env, a.outs, env', b.outs, home);
    } else if !(LocalizeAll(env, home, a.outs) !! LocalizeAll(env', home, b.ins)) {
      c := OneShared(env, a.outs, env', b.ins, home);
    } else {
      c := OneShared(env, a.ins, env', b.outs, home);
    }
  }

  // ---------- The program ----------

  ghost function OpNumbered(src: Source, a: nat): Trace.AsyncOp {
    if a < |src.prog| then src.prog[a] else Trace.AsyncOp(Trace.Unknown([]), [], {})
  }

  ghost function FootprintsOf(src: Source): Footprints {
    (a: nat, env: seq<nat>) =>
      Localized(env, src.home, Trace.OpFootprint(src.regs(env), OpNumbered(src, a)))
  }

  ghost predicate Valid(src: Source, w: Instance) {
    IsInstance(Top(src.items), w)
  }

  ghost function NumberOf(src: Source, w: Instance): nat
    requires Valid(src, w)
  {
    OpAt(Top(src.items), w)
  }

  ghost function OpOf(src: Source, w: Instance): Trace.AsyncOp
    requires Valid(src, w)
  {
    OpNumbered(src, NumberOf(src, w))
  }

  ghost function EnvOf(src: Source, w: Instance): seq<nat>
    requires Valid(src, w)
  {
    EnvAt(Top(src.items), w)
  }

  ghost function Raw(src: Source, w: Instance): Footprint
    requires Valid(src, w)
  {
    Trace.OpFootprint(src.regs(EnvOf(src, w)), OpOf(src, w))
  }

  ghost predicate Before(src: Source, v: Instance, w: Instance)
    requires Valid(src, v) && Valid(src, w)
  {
    NodeAt(Top(src.items), v) < NodeAt(Top(src.items), w)
  }

  /** The two instances are in the same iteration of every loop that is around both. */
  ghost predicate SamePass(v: Instance, w: Instance)
    decreases v
  {
    v.InLoop? && w.InLoop? && v.x == w.x ==> v.k == w.k && SamePass(v.rest, w.rest)
  }

  /** All loops around v are around w. */
  ghost predicate Around(v: Instance, w: Instance)
    decreases v
  {
    v.InLoop? ==> w.InLoop? && v.x == w.x && Around(v.rest, w.rest)
  }

  /** Both are operations of one body, in one iteration. */
  ghost predicate InSameBody(v: Instance, w: Instance)
    decreases v
  {
    match v
    case AtOp(_) => w.AtOp?
    case InLoop(x, k, rest) => w.InLoop? && w.x == x && w.k == k && InSameBody(rest, w.rest)
  }

  ghost predicate Uses(op: Trace.AsyncOp, v: nat) {
    (exists t :: t in Trace.AllTiles(op) && t.memref == v) || (exists k :: 0 <= k < |op.scalars| && op.scalars[k] == v)
  }

  // ---------- What is required of it ----------

  /** What is defined has as many loops around it as its home says. */
  ghost predicate AtHome(src: Source, w: Instance) {
    Valid(src, w) ==> forall x :: x in OpOf(src, w).results ==> src.home(x) == |EnvOf(src, w)|
  }

  /** The loops around a definition are around its uses. */
  ghost predicate InScope(src: Source, v: Instance, w: Instance) {
    Valid(src, v) && Valid(src, w) && (exists x :: x in OpOf(src, v).results && Uses(OpOf(src, w), x)) ==> Around(v, w)
  }

  /** Two operations in one pass access separate tiles or equal ones, and a read that tracing
      does not see is ordered by a path. */
  ghost predicate PassTraceable(src: Source, v: Instance, w: Instance) {
    Valid(src, v) && Valid(src, w) && Before(src, v, w) && SamePass(v, w) ==>
      var reg, reg' := src.regs(EnvOf(src, v)), src.regs(EnvOf(src, w));
      && Trace.Separate(reg, OpOf(src, v), reg', OpOf(src, w))
      && (Trace.LostRead(reg, OpOf(src, v), reg', OpOf(src, w)) ==>
            Reach(Trace.Edges(src.prog, |src.prog|), NumberOf(src, v), NumberOf(src, w)))
  }

  /** An allocation or deallocation concerns buffers that its own body allocates. */
  ghost predicate OwnBuffers(src: Source, w: Instance) {
    Valid(src, w) && NumberOf(src, w) in src.exempt ==>
      && Trace.ChannelCells(OpOf(src, w).kind) == {}
      && forall t :: t in Trace.AllTiles(OpOf(src, w)) ==>
           exists v :: Valid(src, v) && InSameBody(v, w) && t.memref in OpOf(src, v).results
  }

  ghost predicate Traceable(src: Source) {
    && |src.prog| == Ops(src.items)
    && Trace.SingleAssignment(src.prog) && Trace.OneOpPerChannelEnd(src.prog)
    && (forall w :: AtHome(src, w) && OwnBuffers(src, w))
    && (forall v, w :: InScope(src, v, w) && PassTraceable(src, v, w))
  }

  // ---------- Where instances stand ----------

  lemma {:induction false} NumberInRange(src: Source, w: Instance)
    requires Valid(src, w)
    ensures NumberOf(src, w) < Ops(src.items)
  {
    var b := Top(src.items);
    OpInItem(b, w);
    LoGrows(b, w.x + 1, |b.items|);
    assert b.items[..|b.items|] == b.items;
  }

  /** In one pass the later instance is of a later operation. */
  lemma {:induction false} PassInOrder(b: Block, v: Instance, w: Instance)
    requires IsInstance(b, v) && IsInstance(b, w) && NodeAt(b, v) < NodeAt(b, w) && SamePass(v, w)
    ensures OpAt(b, v) < OpAt(b, w)
    decreases v
  {
    WhichFirst(b, v, w);
    if v.x < w.x {
      OpInItem(b, v);
      OpInItem(b, w);
      LoGrows(b, v.x + 1, w.x);
    } else {
      PassInOrder(Body(b, v.x, v.k), v.rest, w.rest);
    }
  }

  lemma {:induction false} EnvExtends(b: Block, w: Instance)
    requires IsInstance(b, w)
    ensures b.env <= EnvAt(b, w) && (w.InLoop? ==> b.env + [w.k] <= EnvAt(b, w))
    decreases w
  {
    if w.InLoop? {
      EnvExtends(Body(b, w.x, w.k), w.rest);
    }
  }

  /** Instances of different passes differ in the iteration of a loop around both. */
  lemma {:induction false} PassesDiffer(b: Block, v: Instance, w: Instance) returns (d: nat)
    requires IsInstance(b, v) && IsInstance(b, w) && !SamePass(v, w)
    ensures d < |EnvAt(b, v)| && d < |EnvAt(b, w)| && EnvAt(b, v)[d] != EnvAt(b, w)[d]
    decreases v
  {
    if v.k == w.k {
      d := PassesDiffer(Body(b, v.x, v.k), v.rest, w.rest);
    } else {
      d := |b.env|;
      EnvExtends(b, v);
      EnvExtends(b, w);
    }
  }

  lemma {:induction false} SameBodySameEnv(b: Block, v: Instance, w: Instance)
    requires IsInstance(b, v) && IsInstance(b, w) && InSameBody(v, w)
    ensures EnvAt(b, v) == EnvAt(b, w)
    decreases v
  {
    if v.InLoop? {
      SameBodySameEnv(Body(b, v.x, v.k), v.rest, w.rest);
    }
  }

  lemma {:induction false} SameBodySameLoops(v: Instance, v': Instance, w: Instance)
    requires InSameBody(v', v) && Around(v', w)
    ensures Around(v, w)
    decreases v
  {
    if v.InLoop? {
      SameBodySameLoops(v.rest, v'.rest, w.rest);
    }
  }

  /** Iterations that differ show in the key of what is defined in one of them. */
  lemma KeysDiffer(env: seq<nat>, env': seq<nat>, h: nat, d: nat)
    requires d < |env| && d < |env'| && env[d] != env'[d] && (h == |env| || h == |env'|)
    ensures Key(env, h) != Key(env', h)
  {
    assert d < |Key(env, h)| && Key(env, h)[d] == env[d];
    assert d < |Key(env', h)| && Key(env', h)[d] == env'[d];
  }

  // ---------- Conflicts of instances ----------

  lemma RawNotPrivate(src: Source, w: Instance)
    requires Valid(src, w)
    ensures NoPrivate(Raw(src, w))
  {
    forall c | c in Raw(src, w).ins || c in Raw(src, w).outs
      ensures !c.Private?
    {
      Trace.NoPrivateCell(src.regs(EnvOf(src, w)), OpOf(src, w), c);
    }
  }

  /** In one pass the traced graph has a path. */
  lemma PassHasPath(src: Source, v: Instance, w: Instance)
    requires Traceable(src) && Valid(src, v) && Valid(src, w) && Before(src, v, w) && SamePass(v, w)
    requires Conflict(Raw(src, v), Raw(src, w))
    ensures NumberOf(src, v) < NumberOf(src, w) < |src.prog|
    ensures Reach(ContextOf(src).flat, NumberOf(src, v), NumberOf(src, w))
  {
    var a, a', g := NumberOf(src, v), NumberOf(src, w), Trace.Edges(src.prog, |src.prog|);
    PassInOrder(Top(src.items), v, w);
    NumberInRange(src, w);
    assert PassTraceable(src, v, w);
    TracedOrPath(src, a, a', src.regs(EnvOf(src, v)), src.regs(EnvOf(src, w)));
    Trace.EdgesForward(src.prog, |src.prog|);
    ReductionKeepsReach(g, |src.prog|, a, a');
  }

  lemma TracedOrPath(src: Source, a: nat, a': nat, reg: Trace.Region, reg': Trace.Region)
    requires Trace.SingleAssignment(src.prog) && Trace.OneOpPerChannelEnd(src.prog) && a < a' < |src.prog|
    requires Trace.Separate(reg, src.prog[a], reg', src.prog[a'])
    requires Trace.LostRead(reg, src.prog[a], reg', src.prog[a']) ==> Reach(Trace.Edges(src.prog, |src.prog|), a, a')
    requires Conflict(Trace.OpFootprint(reg, src.prog[a]), Trace.OpFootprint(reg', src.prog[a']))
    ensures Reach(Trace.Edges(src.prog, |src.prog|), a, a')
  {
    Trace.ConflictsAreTraced(reg, src.prog[a], reg', src.prog[a']);
    if Trace.SinkDependsOn(src.prog[a], src.prog[a']) {
      EdgeIsPath(Trace.Edges(src.prog, |src.prog|), a, a');
    }
  }

  /** A buffer that an exempt operation accesses is defined in its own body. */
  lemma OwnBuffer(src: Source, w: Instance, c: Cell) returns (v: Instance)
    requires Traceable(src) && Valid(src, w) && NumberOf(src, w) in src.exempt
    requires c.Element? && (c in Raw(src, w).ins || c in Raw(src, w).outs)
    ensures Valid(src, v) && InSameBody(v, w) && c.memref in OpOf(src, v).results
    ensures src.home(c.memref) == |EnvOf(src, w)|
  {
    assert OwnBuffers(src, w);
    v := OwnDefinition(src, w, c);
    assert AtHome(src, v);
    SameBodySameEnv(Top(src.items), v, w);
  }

  lemma OwnDefinition(src: Source, w: Instance, c: Cell) returns (v: Instance)
    requires Valid(src, w) && NumberOf(src, w) in src.exempt && OwnBuffers(src, w)
    requires c.Element? && (c in Raw(src, w).ins || c in Raw(src, w).outs)
    ensures Valid(src, v) && InSameBody(v, w) && c.memref in OpOf(src, v).results
  {
    var t := Trace.AccessTo(src.regs(EnvOf(src, w)), OpOf(src, w), c);
    v :| Valid(src, v) && InSameBody(v, w) && t.memref in OpOf(src, v).results;
  }

  lemma ElementUsed(src: Source, w: Instance, c: Cell)
    requires Valid(src, w) && c.Element? && (c in Raw(src, w).ins || c in Raw(src, w).outs)
    ensures Uses(OpOf(src, w), c.memref)
  {
    var t := Trace.AccessTo(src.regs(EnvOf(src, w)), OpOf(src, w), c);
  }

  lemma ValueUsed(src: Source, w: Instance, c: Cell)
    requires Valid(src, w) && c.Value? && c in Raw(src, w).ins
    ensures Uses(OpOf(src, w), c.id)
  {
    Trace.UsedValue(src.regs(EnvOf(src, w)), OpOf(src, w), c);
  }

  /** In one pass an allocation or deallocation shares cells only with operations that all its
      loops are around. */
  lemma ExemptInPass(src: Source, v: Instance, w: Instance, c: Cell)
    requires Traceable(src) && Valid(src, v) && Valid(src, w) && NumberOf(src, v) < NumberOf(src, w) < |src.prog|
    requires NumberOf(src, v) in src.exempt
    requires Shares(EnvOf(src, v), Raw(src, v), EnvOf(src, w), Raw(src, w), src.home, c)
    ensures Around(v, w)
  {
    var reg, reg' := src.regs(EnvOf(src, v)), src.regs(EnvOf(src, w));
    Trace.NoPrivateCell(reg, OpOf(src, v), c);
    if c.Element? {
      var v' := OwnBuffer(src, v, c);
      ElementUsed(src, w, c);
      assert InScope(src, v', w);
      SameBodySameLoops(v, v', w);
    } else if c.Value? {
      ValueInPass(src, v, w, c);
    } else {
      assert OwnBuffers(src, v);
      Trace.ChannelCellOf(reg, OpOf(src, v), c);
    }
  }

  lemma ValueInPass(src: Source, v: Instance, w: Instance, c: Cell)
    requires Traceable(src) && Valid(src, v) && Valid(src, w) && NumberOf(src, v) < NumberOf(src, w) < |src.prog|
    requires c.Value? && Shares(EnvOf(src, v), Raw(src, v), EnvOf(src, w), Raw(src, w), src.home, c)
    ensures Around(v, w)
  {
    var reg, reg' := src.regs(EnvOf(src, v)), src.regs(EnvOf(src, w));
    assert Trace.DefinesNew(OpOf(src, v), OpOf(src, w));
    Trace.NoLaterDefinition(reg, OpOf(src, v), reg', OpOf(src, w), c);
    Trace.DefinedValue(reg, OpOf(src, v), c);
    ValueUsed(src, w, c);
    assert InScope(src, v, w);
  }

  /** Different passes share nothing that an allocation or deallocation accesses. */
  lemma ExemptAcrossPasses(src: Source, v: Instance, w: Instance, c: Cell)
    requires Traceable(src) && Valid(src, v) && Valid(src, w) && !SamePass(v, w)
    requires Shares(EnvOf(src, v), Raw(src, v), EnvOf(src, w), Raw(src, w), src.home, c)
    ensures NumberOf(src, v) !in src.exempt && NumberOf(src, w) !in src.exempt
  {
    var env, env' := EnvOf(src, v), EnvOf(src, w);
    var d := PassesDiffer(Top(src.items), v, w);
    Trace.NoPrivateCell(src.regs(env), OpOf(src, v), c);
    if c.Value? {
      DefinedInPass(src, v, w, c);
      KeysDiffer(env, env', src.home(c.id), d);
    } else if c.Element? {
      if NumberOf(src, v) in src.exempt {
        var u := OwnBuffer(src, v, c);
        KeysDiffer(env, env', src.home(c.memref), d);
      }
      if NumberOf(src, w) in src.exempt {
        var u := OwnBuffer(src, w, c);
        KeysDiffer(env, env', src.home(c.memref), d);
      }
    } else {
      assert NumberOf(src, v) in src.exempt ==> OwnBuffers(src, v);
      assert NumberOf(src, w) in src.exempt ==> OwnBuffers(src, w);
      Trace.ChannelCellOf(src.regs(env), OpOf(src, v), c);
      Trace.ChannelCellOf(src.regs(env'), OpOf(src, w), c);
    }
  }

  lemma DefinedInPass(src: Source, v: Instance, w: Instance, c: Cell)
    requires Traceable(src) && Valid(src, v) && Valid(src, w) && c.Value?
    requires c in Raw(src, v).outs || c in Raw(src, w).outs
    ensures src.home(c.id) == |EnvOf(src, v)| || src.home(c.id) == |EnvOf(src, w)|
  {
    assert AtHome(src, v) && AtHome(src, w);
    if c in Raw(src, v).outs {
      Trace.DefinedValue(src.regs(EnvOf(src, v)), OpOf(src, v), c);
    } else {
      Trace.DefinedValue(src.regs(EnvOf(src, w)), OpOf(src, w), c);
    }
  }

  /** A path in one pass, and carried operations where they have to be, are all that is needed. */
  lemma {:induction false} EnoughToOrder(c: Context, b: Block, v: Instance, w: Instance)
    requires IsInstance(b, v) && IsInstance(b, w)
    requires SamePass(v, w) ==> Reach(c.flat, OpAt(b, v), OpAt(b, w)) && (Around(v, w) || OpAt(b, v) in c.carried)
    requires SamePass(v, w) || (OpAt(b, v) in c.carried && OpAt(b, w) in c.carried)
    ensures Orderable(c, b, v, w)
    decreases v
  {
    if v.InLoop? && w.InLoop? && v.x == w.x && v.k == w.k {
      EnoughToOrder(c, Body(b, v.x, v.k), v.rest, w.rest);
    }
  }

  /** What a conflict of instances shows. */
  lemma ConflictShows(src: Source, v: Instance, w: Instance)
    requires Traceable(src) && Valid(src, v) && Valid(src, w) && Before(src, v, w)
    requires Conflict(Localized(EnvOf(src, v), src.home, Raw(src, v)), Localized(EnvOf(src, w), src.home, Raw(src, w)))
    ensures SamePass(v, w) ==>
      && Reach(ContextOf(src).flat, NumberOf(src, v), NumberOf(src, w))
      && (Around(v, w) || NumberOf(src, v) !in src.exempt)
    ensures SamePass(v, w) || (NumberOf(src, v) !in src.exempt && NumberOf(src, w) !in src.exempt)
  {
    RawNotPrivate(src, v);
    RawNotPrivate(src, w);
    var c := SharedCell(EnvOf(src, v), Raw(src, v), EnvOf(src, w), Raw(src, w), src.home);
    if SamePass(v, w) {
      PassHasPath(src, v, w);
      if NumberOf(src, v) in src.exempt {
        ExemptInPass(src, v, w, c);
      }
    } else {
      ExemptAcrossPasses(src, v, w, c);
    }
  }

  /** Every conflict of the traced program can be ordered by the tokens. */
  lemma ConflictOrderable(src: Source, v: Instance, w: Instance)
    requires Traceable(src) && ConflictInOrder(FootprintsOf(src), Top(src.items), v, w)
    ensures Orderable(ContextOf(src), Top(src.items), v, w)
  {
    NumberInRange(src, v);
    NumberInRange(src, w);
    ConflictShows(src, v, w);
    EnoughToOrder(ContextOf(src), Top(src.items), v, w);
  }

  /** Tracing a program with loops in it once, reducing the graph and inserting the tokens of all
      its loops keeps its meaning, whatever tiles the iterations touch and however often the loops
      run. */
  lemma TracedNestMeansSequential(src: Source, ord: seq<nat>, f: Semantics, s: Store)
    requires Traceable(src)
    requires IsOrder(ord, Len(src.items, [])) && Respects(ord, NestGraph(ContextOf(src), src.items))
    ensures Run(ProgramOf(FootprintsOf(src), Top(src.items)), f, ord, s)
         == Run(ProgramOf(FootprintsOf(src), Top(src.items)), f, ProgramOrder(Len(src.items, [])), s)
  {
    forall v, w | ConflictInOrder(FootprintsOf(src), Top(src.items), v, w)
      ensures Orderable(ContextOf(src), Top(src.items), v, w)
    {
      ConflictOrderable(src, v, w);
    }
    AsyncNestMeansSequential(ContextOf(src), FootprintsOf(src), src.items, ord, f, s);
  }

  // ---------- What is shared between iterations ----------

  /** How many loops are around the definition of what a cell belongs to; a channel is outside all. */
  function HomeOf(home: nat -> nat, c: Cell): nat {
    match c
    case Element(m, _) => home(m)
    case Value(v) => home(v)
    case _ => 0
  }

  /** In two iterations a cell is the same exactly when the iterations of the loops around its
      definition are the same, and different cells never become the same. */
  lemma SharedIff(env: seq<nat>, env': seq<nat>, home: nat -> nat, c: Cell, d: Cell)
    requires !c.Private? && !d.Private? && HomeOf(home, c) <= |env| && HomeOf(home, c) <= |env'|
    ensures Localize(env, home, c) == Localize(env', home, d)
      <==> c == d && forall k :: 0 <= k < HomeOf(home, c) ==> env[k] == env'[k]
  {
    var h := HomeOf(home, c);
    assert env[..h] == env'[..h] <==> forall k :: 0 <= k < h ==> env[k] == env'[k];
  }

  // ---------- Without loops ----------

  lemma {:induction false} FlatProgramIs(fp: Footprints, items: seq<Item>, n: nat)
    requires n <= |items| && forall i :: 0 <= i < |items| ==> items[i].Op?
    ensures |Program(fp, items[..n], [], 0)| == n
    ensures forall k :: 0 <= k < n ==> Program(fp, items[..n], [], 0)[k] == fp(k, [])
  {
    NestEdges.NoLoops(items, n);
    if n > 0 {
      NestEdges.NoLoops(items, n - 1);
      FlatProgramIs(fp, items, n - 1);
      assert items[..n][..n - 1] == items[..n - 1];
    }
  }

  lemma LocalizedAtTop(env: seq<nat>, home: nat -> nat, a: Footprint)
    requires forall v :: home(v) == 0
    ensures Localized(env, home, a) == a
  {
    AllAtTop(env, home, a.ins);
    AllAtTop(env, home, a.outs);
  }

  lemma AllAtTop(env: seq<nat>, home: nat -> nat, cells: set<Cell>)
    requires forall v :: home(v) == 0
    ensures LocalizeAll(env, home, cells) == cells
  {
    assert forall c :: Localize(env, home, c) == c;
  }

  ghost predicate IsFlat(src: Source) {
    |src.items| == |src.prog| && (forall i :: 0 <= i < |src.items| ==> src.items[i].Op?)
    && forall v :: src.home(v) == 0
  }

  lemma FlatFootprint(src: Source, k: nat)
    requires IsFlat(src) && k < |src.prog|
    ensures FootprintsOf(src)(k, []) == Trace.OpFootprint(src.regs([]), src.prog[k])
  {
    var raw := Trace.OpFootprint(src.regs([]), OpNumbered(src, k));
    LocalizedAtTop([], src.home, raw);
    assert FootprintsOf(src)(k, []) == Localized([], src.home, raw);
  }

  lemma FlatFootprints(src: Source, fp: Footprints)
    requires IsFlat(src) && fp == FootprintsOf(src)
    ensures ProgramOf(fp, Top(src.items)) == Trace.Footprints(src.regs([]), src.prog)
  {
    FlatProgramIs(fp, src.items, |src.items|);
    assert src.items[..|src.items|] == src.items;
    forall k | 0 <= k < |src.prog|
      ensures fp(k, []) == Trace.OpFootprint(src.regs([]), src.prog[k])
    {
      FlatFootprint(src, k);
    }
  }

  /** A program without loops is the traced program itself, with its dependency lists. */
  lemma FlatSource(src: Source)
    requires IsFlat(src)
    ensures NestGraph(ContextOf(src), src.items) == Reduced(Trace.Edges(src.prog, |src.prog|))
    ensures ProgramOf(FootprintsOf(src), Top(src.items)) == Trace.Footprints(src.regs([]), src.prog)
  {
    Trace.EdgesForward(src.prog, |src.prog|);
    NestEdges.FlatProgram(ContextOf(src), src.items);
    FlatFootprints(src, FootprintsOf(src));
  }

  // ---------- An example ----------

  ghost const BUFFER: Trace.Tile := Trace.Tile(0, [])

  /** Allocates a buffer, gets it from channel 0, puts it into channel 1, and frees it. */
  ghost function StreamingOps(): seq<Trace.AsyncOp> {
    [Trace.AsyncOp(Trace.Unknown([]), [], {0}),
     Trace.AsyncOp(Trace.ChannelGet(0, BUFFER), [], {}),
     Trace.AsyncOp(Trace.ChannelPut(1, BUFFER), [], {}),
     Trace.AsyncOp(Trace.Unknown([BUFFER]), [], {})]
  }

  /** All this in a loop, the put in a loop inside it. */
  ghost function StreamingLoop(outer: seq<nat> -> nat, inner: seq<nat> -> nat): Source {
    Source(StreamingOps(), [Loop(outer, [Op, Op, Loop(inner, [Op]), Op])],
           _ => (_ => {0}), (v: nat) => if v == 0 then 1 else 0, {0, 3})
  }

  /** Where operation a is, in the iterations of w. */
  ghost predicate StreamsAt(w: Instance, a: nat) {
    && w.InLoop? && w.x == 0
    && if a == 2 then w.rest.InLoop? && w.rest.rest.AtOp? else w.rest == AtOp(a) && a in {0, 1, 3}
  }

  ghost predicate IsStreamingBody(body: seq<Item>) {
    |body| == 4 && body[0].Op? && body[1].Op? && body[2].Loop? && body[2].body == [Op] && body[3].Op?
  }

  lemma {:induction false} BodySizes(body: seq<Item>)
    requires IsStreamingBody(body)
    ensures Ops(body[..0]) == 0 && Ops(body[..1]) == 1 && Ops(body[..2]) == 2 && Ops(body[..3]) == 3 && Ops(body) == 4
  {
    assert body[..1][..0] == body[..0] && body[..2][..1] == body[..1];
    assert body[..3][..2] == body[..2] && body[..|body| - 1] == body[..3];
    assert [Op][..0] == [] && Ops([Op]) == 1;
  }

  /** Inside the outer loop. */
  lemma {:induction false} InnerInstance(b: Block, w: Instance) returns (a: nat)
    requires IsStreamingBody(b.items) && b.lo == 0 && |b.env| == 1 && IsInstance(b, w)
    ensures if w.InLoop? then a == 2 && w.rest.AtOp? else a in {0, 1, 3} && w == AtOp(a)
    ensures OpAt(b, w) == a && |EnvAt(b, w)| == if a == 2 then 2 else 1
  {
    BodySizes(b.items);
    a := w.x;
    if w.InLoop? {
      var body := Body(b, w.x, w.k);
      assert body.items == [Op] && body.items[..0] == [] && w.rest == AtOp(0);
      assert Lo(body, 0) == 2;
    }
  }

  lemma {:induction false} StreamingInstance(src: Source, outer: seq<nat> -> nat, inner: seq<nat> -> nat, w: Instance)
    returns (a: nat)
    requires src == StreamingLoop(outer, inner) && Valid(src, w)
    ensures StreamsAt(w, a) && NumberOf(src, w) == a < 4 && |EnvOf(src, w)| == if a == 2 then 2 else 1
  {
    var b := Top(src.items);
    assert w.x == 0 && IsLoop(b, 0) && w.InLoop?;
    assert src.items[..0] == [];
    a := InnerInstance(Body(b, 0, w.k), w.rest);
  }

  lemma StreamingTiles(a: nat, t: Trace.Tile)
    requires a < 4 && t in Trace.AllTiles(StreamingOps()[a])
    ensures t == BUFFER && a > 0
  {
  }

  lemma StreamingOwns(src: Source, outer: seq<nat> -> nat, inner: seq<nat> -> nat, w: Instance)
    requires src == StreamingLoop(outer, inner)
    ensures AtHome(src, w) && OwnBuffers(src, w)
  {
    if Valid(src, w) {
      var a := StreamingInstance(src, outer, inner, w);
      var v := InLoop(0, w.k, AtOp(0));
      assert Valid(src, v);
      var a' := StreamingInstance(src, outer, inner, v);
      forall t | t in Trace.AllTiles(OpOf(src, w))
        ensures t.memref in OpOf(src, v).results
      {
        StreamingTiles(a, t);
      }
      assert a in src.exempt ==> InSameBody(v, w);
    }
  }

  lemma StreamingPass(src: Source, outer: seq<nat> -> nat, inner: seq<nat> -> nat, v: Instance, w: Instance)
    requires src == StreamingLoop(outer, inner)
    ensures InScope(src, v, w) && PassTraceable(src, v, w)
  {
    if Valid(src, v) && Valid(src, w) {
      var a := StreamingInstance(src, outer, inner, v);
      var a' := StreamingInstance(src, outer, inner, w);
      forall t, t' | t in Trace.AllTiles(OpOf(src, v)) && t' in Trace.AllTiles(OpOf(src, w))
        ensures Trace.EqualTiles(t', t)
      {
        StreamingTiles(a, t);
        StreamingTiles(a', t');
      }
    }
  }

  /** The hypotheses are met by such a nest, however often its loops run. */
  lemma StreamingIsTraceable(outer: seq<nat> -> nat, inner: seq<nat> -> nat)
    ensures Traceable(StreamingLoop(outer, inner))
  {
    var src := StreamingLoop(outer, inner);
    forall w
      ensures AtHome(src, w) && OwnBuffers(src, w)
    {
      StreamingOwns(src, outer, inner, w);
    }
    forall v, w
      ensures InScope(src, v, w) && PassTraceable(src, v, w)
    {
      StreamingPass(src, outer, inner, v, w);
    }
    StreamingForm(src, outer, inner);
  }

  lemma StreamingForm(src: Source, outer: seq<nat> -> nat, inner: seq<nat> -> nat)
    requires src == StreamingLoop(outer, inner)
    ensures |src.prog| == Ops(src.items) && Trace.SingleAssignment(src.prog) && Trace.OneOpPerChannelEnd(src.prog)
  {
    BodySizes(src.items[0].body);
    assert src.items[..|src.items| - 1] == [];
    forall j: nat, i: nat | j < i < 4
      ensures Trace.DefinesNew(src.prog[j], src.prog[i])
      ensures Trace.ChannelCells(src.prog[j].kind) !! Trace.ChannelCells(src.prog[i].kind)
    {
    }
  }
}
