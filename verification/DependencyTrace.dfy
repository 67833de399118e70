/** Dependency tracing: from operations on buffer tiles to a dependency graph, and
    from its reduction to the dependency list of each operation. */
module DependencyTrace {
  import opened DependencyGraph
  import opened DependencyMeaning

  /** One index of a tile: missing (the whole dimension) or an SSA value. Constants with
      the same value count as one SSA value. */
  datatype Index = Whole | At(value: nat)

  /** A tile of a buffer. */
  datatype Tile = Tile(memref: nat, indices: seq<Index>)

  datatype Kind =
    | Dma(src: Tile, dst: Tile)
    | ChannelPut(channel: nat, src: Tile)
    | ChannelGet(channel: nat, dst: Tile)
    | Linalg(inputs: seq<Tile>, inits: seq<Tile>)
    | Copy(from: Tile, to: Tile)
    | Unknown(operands: seq<Tile>)

  /** An asynchronous operation: what it accesses, the SSA index values it uses, and the
      SSA values (scalars or buffer handles) it defines. */
  datatype AsyncOp = AsyncOp(kind: Kind, scalars: seq<nat>, results: set<nat>)

  /** Tracing mode: 'w' looks for earlier writers, 'n' for earlier accesses of any kind. */
  datatype Mode = Writers | Accesses

  predicate EqualIndices(a: Index, b: Index) {
    a.Whole? || b.Whole? || a == b
  }

  predicate EqualTiles(a: Tile, b: Tile) {
    && |a.indices| == |b.indices|
    && forall k :: 0 <= k < |a.indices| ==> EqualIndices(a.indices[k], b.indices[k])
  }

  /** Tiles that a sink operation reads. A linalg operation or a copy also reads what it
      overwrites; an unknown operation reads all its operands. */
  function ReadTiles(k: Kind): seq<Tile> {
    match k
    case Dma(src, _) => [src]
    case ChannelPut(_, src) => [src]
    case ChannelGet(_, _) => []
    case Linalg(inputs, inits) => inputs + inits
    case Copy(from, to) => [from, to]
    case Unknown(operands) => operands
  }

  function WriteTiles(k: Kind): seq<Tile> {
    match k
    case Dma(_, dst) => [dst]
    case ChannelPut(_, _) => []
    case ChannelGet(_, dst) => [dst]
    case Linalg(_, inits) => inits
    case Copy(_, to) => [to]
    case Unknown(operands) => operands
  }

  predicate Mentions(tiles: seq<Tile>, memref: nat) {
    exists k :: 0 <= k < |tiles| && tiles[k].memref == memref
  }

  /** Does an earlier operation of kind user, which uses buffer t.memref, become a
      dependency of an operation that accesses tile t? */
  predicate UseMatches(user: Kind, t: Tile, mode: Mode) {
    match user
    case Dma(src, dst) =>
      if mode.Writers? then t.memref == dst.memref && EqualTiles(t, dst)
      else if t.memref == dst.memref then EqualTiles(t, dst)
      else t.memref == src.memref && EqualTiles(t, src)
    case ChannelPut(_, src) =>
      mode.Accesses? && t.memref == src.memref && EqualTiles(t, src)
    case ChannelGet(_, dst) =>
      t.memref == dst.memref && EqualTiles(t, dst)
    case Linalg(inputs, inits) =>
      Mentions(inits, t.memref) || (mode.Accesses? && Mentions(inputs, t.memref))
    case Copy(from, to) =>
      t.memref == from.memref || t.memref == to.memref
    case Unknown(operands) =>
      Mentions(operands, t.memref)
  }

  /** Tracing tile t in the given mode makes the later operation wait for op. */
  predicate TileDependsOn(op: AsyncOp, t: Tile, mode: Mode) {
    t.memref in op.results || UseMatches(op.kind, t, mode)
  }

  predicate SinkDependsOn(op: AsyncOp, sink: AsyncOp) {
    || (exists k :: 0 <= k < |ReadTiles(sink.kind)| && TileDependsOn(op, ReadTiles(sink.kind)[k], Writers))
    || (exists k :: 0 <= k < |WriteTiles(sink.kind)| && TileDependsOn(op, WriteTiles(sink.kind)[k], Accesses))
    || (exists k :: 0 <= k < |sink.scalars| && sink.scalars[k] in op.results)
  }

  /** The dependency graph: edges run only from operations already visited. */
  ghost function Edges(prog: seq<AsyncOp>, n: nat): Graph
    requires n <= |prog|
  {
    set j, i | 0 <= i < n && 0 <= j < i && SinkDependsOn(prog[j], prog[i]) :: (j, i)
  }

  lemma EdgesForward(prog: seq<AsyncOp>, n: nat)
    requires n <= |prog|
    ensures Forward(Edges(prog, n), n)
  {
  }

  ghost predicate EachOnce(list: seq<nat>) {
    forall a, b :: 0 <= a < b < |list| ==> list[a] != list[b]
  }

  /** The pass object: the graph, its reduction, and the operations visited so far. */
  class AIRDependency {
    var asyncExecuteGraph: Graph
    var asyncExecuteGraphTR: Graph
    var opHistory: seq<nat>

    constructor ()
      ensures asyncExecuteGraph == {} && asyncExecuteGraphTR == {} && opHistory == []
    {
      asyncExecuteGraph, asyncExecuteGraphTR, opHistory := {}, {}, [];
    }

    /** Traces one operand of sink i through its defining operation and through all
        uses of its buffer, adding an edge for every match among the visited ones. */
    method PushDepsAtCurrentScope(prog: seq<AsyncOp>, i: nat, t: Tile, mode: Mode)
      requires i < |prog| && opHistory == ProgramOrder(i)
      modifies this`asyncExecuteGraph
      ensures forall e :: e in asyncExecuteGraph <==>
        (e in old(asyncExecuteGraph) || (e.1 == i && e.0 < i && TileDependsOn(prog[e.0], t, mode)))
    {
      for j := 0 to |prog|
        invariant forall e :: e in asyncExecuteGraph <==>
          (e in old(asyncExecuteGraph) || (e.1 == i && e.0 < i && e.0 < j && TileDependsOn(prog[e.0], t, mode)))
      {
        if TileDependsOn(prog[j], t, mode) {
          InHistory(i, j);
          if j in opHistory {
            asyncExecuteGraph := asyncExecuteGraph + {(j, i)};
          }
        }
      }
    }

    method TraceDeps(prog: seq<AsyncOp>, i: nat, operands: seq<Tile>, mode: Mode)
      requires i < |prog| && opHistory == ProgramOrder(i)
      modifies this`asyncExecuteGraph
      ensures forall e :: e in asyncExecuteGraph <==>
        (e in old(asyncExecuteGraph)
         || (e.1 == i && e.0 < i && exists k :: 0 <= k < |operands| && TileDependsOn(prog[e.0], operands[k], mode)))
    {
      for k := 0 to |operands|
        invariant forall e :: e in asyncExecuteGraph <==>
          (e in old(asyncExecuteGraph)
           || (e.1 == i && e.0 < i && exists k' :: 0 <= k' < k && TileDependsOn(prog[e.0], operands[k'], mode)))
      {
        PushDepsAtCurrentScope(prog, i, operands[k], mode);
      }
    }

    method TraceTileIndices(prog: seq<AsyncOp>, i: nat)
      requires i < |prog| && opHistory == ProgramOrder(i)
      modifies this`asyncExecuteGraph
      ensures forall e :: e in asyncExecuteGraph <==>
        (e in old(asyncExecuteGraph)
         || (e.1 == i && e.0 < i
             && exists k :: 0 <= k < |prog[i].scalars| && prog[i].scalars[k] in prog[e.0].results))
    {
      var scalars := prog[i].scalars;
      for k := 0 to |scalars|
        invariant forall e :: e in asyncExecuteGraph <==>
          (e in old(asyncExecuteGraph)
           || (e.1 == i && e.0 < i && exists k' :: 0 <= k' < k && scalars[k'] in prog[e.0].results))
      {
        label before:
        for j := 0 to |prog|
          invariant forall e :: e in asyncExecuteGraph <==>
            (e in old@before(asyncExecuteGraph) || (e.1 == i && e.0 < i && e.0 < j && scalars[k] in prog[e.0].results))
        {
          InHistory(i, j);
          if scalars[k] in prog[j].results && j in opHistory {
            asyncExecuteGraph := asyncExecuteGraph + {(j, i)};
          }
        }
      }
    }

    /** The second traversal: traces every operation in program order. */
    method TraceAll(prog: seq<AsyncOp>)
      requires asyncExecuteGraph == {} && opHistory == []
      modifies this`asyncExecuteGraph, this`opHistory
      ensures asyncExecuteGraph == Edges(prog, |prog|)
    {
      for i := 0 to |prog|
        invariant opHistory == ProgramOrder(i)
        invariant asyncExecuteGraph == Edges(prog, i)
      {
        TraceDeps(prog, i, ReadTiles(prog[i].kind), Writers);
        TraceDeps(prog, i, WriteTiles(prog[i].kind), Accesses);
        TraceTileIndices(prog, i);
        assert asyncExecuteGraph == Edges(prog, i + 1);
        opHistory := opHistory + [i];
      }
    }

    /** The third traversal: reduces the graph and turns the reduced in-edges of each
        operation into its dependency list. */
    method FillDepLists(prog: seq<AsyncOp>) returns (deps: seq<seq<nat>>)
      requires asyncExecuteGraph == Edges(prog, |prog|)
      modifies this`asyncExecuteGraphTR
      ensures asyncExecuteGraphTR == Reduced(Edges(prog, |prog|))
      ensures |deps| == |prog|
      ensures forall i, j: nat :: 0 <= i < |prog| ==> (j in deps[i] <==> (j, i) in asyncExecuteGraphTR)
      ensures forall i :: 0 <= i < |prog| ==> EachOnce(deps[i])
    {
      EdgesForward(prog, |prog|);
      asyncExecuteGraphTR := TransitiveReduction(asyncExecuteGraph, |prog|);
      deps := [];
      for i := 0 to |prog|
        invariant |deps| == i
        invariant forall k, j: nat :: 0 <= k < i ==> (j in deps[k] <==> (j, k) in asyncExecuteGraphTR)
        invariant forall k :: 0 <= k < i ==> EachOnce(deps[k])
      {
        var list: seq<nat> := [];
        for j := 0 to i
          invariant forall v: nat :: v in list <==> v < j && (v, i) in asyncExecuteGraphTR
          invariant EachOnce(list)
        {
          if (j, i) in asyncExecuteGraphTR {
            list := list + [j];
          }
        }
        deps := deps + [list];
      }
    }

    static lemma InHistory(i: nat, j: nat)
      ensures j in ProgramOrder(i) <==> j < i
    {
      if j < i {
        assert ProgramOrder(i)[j] == j;
      }
    }
  }

  // ---------- What the traced dependencies guarantee ----------

  /** The buffer elements that a tile covers. */
  type Region = Tile -> set<nat>

  ghost function TileCells(reg: Region, t: Tile): set<Cell> {
    set p | p in reg(t) :: Element(t.memref, p)
  }

  ghost function TilesCells(reg: Region, tiles: seq<Tile>): set<Cell> {
    set k, c | 0 <= k < |tiles| && c in TileCells(reg, tiles[k]) :: c
  }

  /** Handles of the buffers that an operation accesses. */
  ghost function Handles(tiles: seq<Tile>): set<Cell> {
    set k | 0 <= k < |tiles| :: Value(tiles[k].memref)
  }

  /** A put adds to what its channel has been sent, a get takes from what it receives. */
  function ChannelCells(k: Kind): set<Cell> {
    match k
    case ChannelPut(c, _) => {Sent(c)}
    case ChannelGet(c, _) => {Received(c)}
    case _ => {}
  }

  ghost function OpFootprint(reg: Region, op: AsyncOp): Footprint {
    var ins, outs := ReadTiles(op.kind), WriteTiles(op.kind);
    Footprint(
      TilesCells(reg, ins) + Handles(ins + outs) + ChannelCells(op.kind)
      + (set k | 0 <= k < |op.scalars| :: Value(op.scalars[k])),
      TilesCells(reg, outs) + ChannelCells(op.kind) + (set v | v in op.results :: Value(v)))
  }

  ghost function Footprints(reg: Region, prog: seq<AsyncOp>): (fp: seq<Footprint>)
    ensures |fp| == |prog|
  {
    seq(|prog|, i requires 0 <= i < |prog| => OpFootprint(reg, prog[i]))
  }

  ghost function AllTiles(op: AsyncOp): seq<Tile> {
    ReadTiles(op.kind) + WriteTiles(op.kind)
  }

  /** Tiles of one buffer that two operations access, each in its own regions, are equal by their
      indices or have no element in common. */
  ghost predicate Separate(reg: Region, op: AsyncOp, reg': Region, sink: AsyncOp) {
    forall a, b :: a in AllTiles(op) && b in AllTiles(sink) && a.memref == b.memref && !EqualTiles(b, a)
      ==> reg(a) !! reg'(b)
  }

  ghost predicate EqualOrDisjoint(reg: Region, prog: seq<AsyncOp>) {
    forall i, j :: 0 <= i < |prog| && 0 <= j < |prog| ==> Separate(reg, prog[i], reg, prog[j])
  }

  /** A later operation defines nothing that an earlier one defines or uses. */
  ghost predicate DefinesNew(op: AsyncOp, sink: AsyncOp) {
    && op.results !! sink.results
    && (forall k :: 0 <= k < |op.scalars| ==> op.scalars[k] !in sink.results)
    && (forall t :: t in AllTiles(op) ==> t.memref !in sink.results)
  }

  /** SSA form. */
  ghost predicate SingleAssignment(prog: seq<AsyncOp>) {
    forall j, i :: 0 <= j < i < |prog| ==> DefinesNew(prog[j], prog[i])
  }

  /** A channel connects one put with one get. */
  ghost predicate OneOpPerChannelEnd(prog: seq<AsyncOp>) {
    forall j, i :: 0 <= j < i < |prog| ==> ChannelCells(prog[j].kind) !! ChannelCells(prog[i].kind)
  }

  /** A DMA within one buffer whose source tile, but not its destination tile, matches a
      tile that is written later. */
  predicate UntracedRead(user: Kind, t: Tile) {
    && user.Dma?
    && user.src.memref == user.dst.memref == t.memref
    && EqualTiles(t, user.src)
    && !EqualTiles(t, user.dst)
  }

  ghost predicate NoUntracedRead(prog: seq<AsyncOp>) {
    forall j, i, t :: 0 <= j < i < |prog| && t in WriteTiles(prog[i].kind) ==> !UntracedRead(prog[j].kind, t)
  }

  /** Tracing a written tile finds an earlier operation that accesses a matching tile of
      the same buffer exactly when that access is not such an untraced read. */
  lemma WriteTracingExact(user: Kind, t: Tile)
    requires exists a :: a in ReadTiles(user) + WriteTiles(user) && a.memref == t.memref && EqualTiles(t, a)
    ensures UseMatches(user, t, Accesses) <==> !UntracedRead(user, t)
  {
    var a :| a in ReadTiles(user) + WriteTiles(user) && a.memref == t.memref && EqualTiles(t, a);
  }

  /** Tracing a read tile finds every earlier operation that writes a matching tile. */
  lemma ReadTracingComplete(user: Kind, t: Tile, a: Tile)
    requires a in WriteTiles(user) && a.memref == t.memref && EqualTiles(t, a)
    ensures UseMatches(user, t, Writers)
  {
  }

  /** The sink overwrites what a DMA within one buffer reads, and tracing does not see it. */
  ghost predicate LostRead(reg: Region, op: AsyncOp, reg': Region, sink: AsyncOp) {
    && OpFootprint(reg, op).outs != {}
    && exists t :: t in WriteTiles(sink.kind) && UntracedRead(op.kind, t) && !(reg'(t) !! reg(op.kind.src))
  }

  /** A cell is an element of a tile. */
  ghost predicate Covers(reg: Region, t: Tile, c: Cell) {
    c.Element? && c.memref == t.memref && c.point in reg(t)
  }

  /** The tile through which an operation reads a buffer element. */
  lemma ReadFrom(reg: Region, op: AsyncOp, c: Cell) returns (a: Tile)
    requires c.Element? && c in OpFootprint(reg, op).ins
    ensures a in ReadTiles(op.kind) && Covers(reg, a, c)
  {
    var tiles := ReadTiles(op.kind);
    var k :| 0 <= k < |tiles| && c in TileCells(reg, tiles[k]);
    a := tiles[k];
  }

  /** The tile through which an operation writes a buffer element. */
  lemma WriteTo(reg: Region, op: AsyncOp, c: Cell) returns (a: Tile)
    requires c.Element? && c in OpFootprint(reg, op).outs
    ensures a in WriteTiles(op.kind) && Covers(reg, a, c)
  {
    var tiles := WriteTiles(op.kind);
    var k :| 0 <= k < |tiles| && c in TileCells(reg, tiles[k]);
    a := tiles[k];
  }

  lemma ChannelCellOf(reg: Region, op: AsyncOp, c: Cell)
    requires (c.Sent? || c.Received?) && (c in OpFootprint(reg, op).ins || c in OpFootprint(reg, op).outs)
    ensures c in ChannelCells(op.kind)
  {
  }

  lemma DefinedValue(reg: Region, op: AsyncOp, c: Cell)
    requires c.Value? && c in OpFootprint(reg, op).outs
    ensures c.id in op.results
  {
  }

  lemma UsedValue(reg: Region, op: AsyncOp, c: Cell)
    requires c.Value? && c in OpFootprint(reg, op).ins
    ensures (exists t :: t in AllTiles(op) && t.memref == c.id)
         || (exists k :: 0 <= k < |op.scalars| && op.scalars[k] == c.id)
  {
    var tiles := AllTiles(op);
    if k :| 0 <= k < |tiles| && c == Value(tiles[k].memref) {
      assert tiles[k] in tiles;
    }
  }

  lemma NoPrivateCell(reg: Region, op: AsyncOp, c: Cell)
    requires c in OpFootprint(reg, op).ins || c in OpFootprint(reg, op).outs
    ensures !c.Private?
  {
  }

  /** Conflicting operations are joined by an edge, or a read is lost. */
  lemma ConflictsAreTraced(reg: Region, op: AsyncOp, reg': Region, sink: AsyncOp)
    requires Separate(reg, op, reg', sink) && DefinesNew(op, sink) && ChannelCells(op.kind) !! ChannelCells(sink.kind)
    requires Conflict(OpFootprint(reg, op), OpFootprint(reg', sink))
    ensures SinkDependsOn(op, sink) || LostRead(reg, op, reg', sink)
  {
    var a, b := OpFootprint(reg, op), OpFootprint(reg', sink);
    if !(a.outs !! b.outs) {
      var c :| c in a.outs && c in b.outs;
      WriteAfterAccess(reg, op, reg', sink, c);
    } else if !(a.outs !! b.ins) {
      var c :| c in a.outs && c in b.ins;
      ReadAfterWrite(reg, op, reg', sink, c);
    } else {
      var c :| c in a.ins && c in b.outs;
      WriteAfterAccess(reg, op, reg', sink, c);
    }
  }

  lemma ReadAfterWrite(reg: Region, op: AsyncOp, reg': Region, sink: AsyncOp, c: Cell)
    requires Separate(reg, op, reg', sink) && ChannelCells(op.kind) !! ChannelCells(sink.kind)
    requires c in OpFootprint(reg, op).outs && c in OpFootprint(reg', sink).ins
    ensures SinkDependsOn(op, sink)
  {
    NoPrivateCell(reg, op, c);
    if c.Value? {
      DefinedValue(reg, op, c);
      UsedValue(reg', sink, c);
      DefinitionTraced(op, sink, c.id);
    } else if c.Element? {
      var w := WriteTo(reg, op, c);
      var t := ReadFrom(reg', sink, c);
      SameTile(reg, op, reg', sink, w, t, c);
      ReadTracingComplete(op.kind, t, w);
      var k :| 0 <= k < |ReadTiles(sink.kind)| && ReadTiles(sink.kind)[k] == t;
    } else {
      ChannelCellOf(reg, op, c);
      ChannelCellOf(reg', sink, c);
    }
  }

  /** A value that an operation uses, or the handle of a buffer that it accesses, comes from
      the operation that defines it. */
  lemma DefinitionTraced(op: AsyncOp, sink: AsyncOp, v: nat)
    requires v in op.results
    requires (exists t :: t in AllTiles(sink) && t.memref == v)
          || (exists k :: 0 <= k < |sink.scalars| && sink.scalars[k] == v)
    ensures SinkDependsOn(op, sink)
  {
    if t :| t in AllTiles(sink) && t.memref == v {
      if t in ReadTiles(sink.kind) {
        var k :| 0 <= k < |ReadTiles(sink.kind)| && ReadTiles(sink.kind)[k] == t;
      } else {
        var k :| 0 <= k < |WriteTiles(sink.kind)| && WriteTiles(sink.kind)[k] == t;
      }
    }
  }

  /** Two accesses of one element are through equal tiles. */
  lemma SameTile(reg: Region, op: AsyncOp, reg': Region, sink: AsyncOp, a: Tile, t: Tile, c: Cell)
    requires Separate(reg, op, reg', sink)
    requires a in AllTiles(op) && t in AllTiles(sink) && Covers(reg, a, c) && Covers(reg', t, c)
    ensures a.memref == t.memref && EqualTiles(t, a)
  {
    assert !(reg(a) !! reg'(t));
  }

  lemma WriteAfterAccess(reg: Region, op: AsyncOp, reg': Region, sink: AsyncOp, c: Cell)
    requires Separate(reg, op, reg', sink) && DefinesNew(op, sink) && ChannelCells(op.kind) !! ChannelCells(sink.kind)
    requires c in OpFootprint(reg, op).ins || c in OpFootprint(reg, op).outs
    requires c in OpFootprint(reg', sink).outs && OpFootprint(reg, op).outs != {}
    ensures SinkDependsOn(op, sink) || LostRead(reg, op, reg', sink)
  {
    NoPrivateCell(reg', sink, c);
    if c.Value? {
      NoLaterDefinition(reg, op, reg', sink, c);
    } else if c.Element? {
      var t := WriteTo(reg', sink, c);
      var a := AccessTo(reg, op, c);
      WriteTraced(reg, op, reg', sink, a, t, c);
    } else {
      ChannelCellOf(reg, op, c);
      ChannelCellOf(reg', sink, c);
    }
  }

  lemma WriteTraced(reg: Region, op: AsyncOp, reg': Region, sink: AsyncOp, a: Tile, t: Tile, c: Cell)
    requires Separate(reg, op, reg', sink) && OpFootprint(reg, op).outs != {}
    requires a in AllTiles(op) && t in WriteTiles(sink.kind) && Covers(reg, a, c) && Covers(reg', t, c)
    ensures SinkDependsOn(op, sink) || LostRead(reg, op, reg', sink)
  {
    SameTile(reg, op, reg', sink, a, t, c);
    WriteTracingExact(op.kind, t);
    if UntracedRead(op.kind, t) {
      assert a == op.kind.src;
    } else {
      var k :| 0 <= k < |WriteTiles(sink.kind)| && WriteTiles(sink.kind)[k] == t;
    }
  }

  /** The tile through which an operation accesses a buffer element. */
  lemma AccessTo(reg: Region, op: AsyncOp, c: Cell) returns (a: Tile)
    requires c.Element? && (c in OpFootprint(reg, op).ins || c in OpFootprint(reg, op).outs)
    ensures a in AllTiles(op) && Covers(reg, a, c)
  {
    if c in OpFootprint(reg, op).ins {
      a := ReadFrom(reg, op, c);
    } else {
      a := WriteTo(reg, op, c);
    }
  }

  lemma NoLaterDefinition(reg: Region, op: AsyncOp, reg': Region, sink: AsyncOp, c: Cell)
    requires DefinesNew(op, sink) && c.Value?
    requires c in OpFootprint(reg, op).ins || c in OpFootprint(reg, op).outs
    ensures c !in OpFootprint(reg', sink).outs
  {
    if c in OpFootprint(reg, op).ins {
      UsedValue(reg, op, c);
    } else {
      DefinedValue(reg, op, c);
    }
    assert c.id !in sink.results;
  }

  /** Every lost read is made good by a path. */
  ghost predicate LostReadsOrdered(reg: Region, prog: seq<AsyncOp>) {
    forall j: nat, i: nat :: j < i < |prog| && LostRead(reg, prog[j], reg, prog[i]) ==> Reach(Edges(prog, |prog|), j, i)
  }

  lemma ReadCell(reg: Region, op: AsyncOp, t: Tile, x: nat)
    requires t in ReadTiles(op.kind) && x in reg(t)
    ensures Element(t.memref, x) in OpFootprint(reg, op).ins
  {
    var tiles := ReadTiles(op.kind);
    var k :| 0 <= k < |tiles| && tiles[k] == t;
    assert Element(t.memref, x) in TileCells(reg, tiles[k]);
  }

  lemma WrittenCell(reg: Region, op: AsyncOp, t: Tile, x: nat)
    requires t in WriteTiles(op.kind) && x in reg(t)
    ensures Element(t.memref, x) in OpFootprint(reg, op).outs
  {
    var tiles := WriteTiles(op.kind);
    var k :| 0 <= k < |tiles| && tiles[k] == t;
    assert Element(t.memref, x) in TileCells(reg, tiles[k]);
  }

  /** A lost read is a conflict. */
  lemma LostReadConflicts(reg: Region, op: AsyncOp, reg': Region, sink: AsyncOp)
    requires LostRead(reg, op, reg', sink)
    ensures Conflict(OpFootprint(reg, op), OpFootprint(reg', sink))
  {
    var t :| t in WriteTiles(sink.kind) && UntracedRead(op.kind, t) && !(reg'(t) !! reg(op.kind.src));
    var x :| x in reg'(t) && x in reg(op.kind.src);
    ReadCell(reg, op, op.kind.src, x);
    WrittenCell(reg', sink, t, x);
  }

  /** The traced graph orders every conflict exactly when it orders the lost reads. */
  lemma TracedGraphOrdersConflictsIff(reg: Region, prog: seq<AsyncOp>)
    requires EqualOrDisjoint(reg, prog) && SingleAssignment(prog) && OneOpPerChannelEnd(prog)
    ensures OrdersConflicts(Footprints(reg, prog), Edges(prog, |prog|)) <==> LostReadsOrdered(reg, prog)
  {
    var fp, g := Footprints(reg, prog), Edges(prog, |prog|);
    if LostReadsOrdered(reg, prog) {
      forall j: nat, i: nat | j < i < |prog| && Conflict(fp[j], fp[i])
        ensures Reach(g, j, i)
      {
        ConflictsAreTraced(reg, prog[j], reg, prog[i]);
        if SinkDependsOn(prog[j], prog[i]) {
          assert (j, i) in g && Reach(g, i, i);
        }
      }
    }
    if OrdersConflicts(fp, g) {
      forall j: nat, i: nat | j < i < |prog| && LostRead(reg, prog[j], reg, prog[i])
        ensures Reach(g, j, i)
      {
        LostReadConflicts(reg, prog[j], reg, prog[i]);
        assert Conflict(fp[j], fp[i]);
      }
    }
  }

  /** The reduced traced graph orders every conflict of a program without untraced reads. */
  lemma TracedGraphOrdersConflicts(reg: Region, prog: seq<AsyncOp>)
    requires EqualOrDisjoint(reg, prog) && SingleAssignment(prog) && OneOpPerChannelEnd(prog) && NoUntracedRead(prog)
    ensures OrdersConflicts(Footprints(reg, prog), Reduced(Edges(prog, |prog|)))
  {
    assert LostReadsOrdered(reg, prog);
    TracedGraphOrdersConflictsIff(reg, prog);
    ReducedGraphKeeps(prog, Footprints(reg, prog));
  }

  /** An execution order in which every operation comes after all operations in its
      dependency list. */
  ghost predicate RespectsDepLists(ord: seq<nat>, deps: seq<seq<nat>>)
    requires Below(ord, |deps|)
  {
    forall p, q :: 0 <= p < q < |ord| ==> ord[q] !in deps[ord[p]]
  }

  /** deps are the lists that FillDepLists returns. */
  ghost predicate AreDepLists(prog: seq<AsyncOp>, deps: seq<seq<nat>>) {
    && |deps| == |prog|
    && forall i, j: nat :: 0 <= i < |prog| ==> (j in deps[i] <==> (j, i) in Reduced(Edges(prog, |prog|)))
  }

  /** The asynchronous program means what the sequential one does: every order that
      respects only the reduced dependency lists ends in the memory of program order, and has
      put the same into every channel and got the same from it. */
  lemma AsyncProgramMeansSequential(
    reg: Region, prog: seq<AsyncOp>, deps: seq<seq<nat>>, ord: seq<nat>, f: Semantics, s: Store)
    requires EqualOrDisjoint(reg, prog) && SingleAssignment(prog) && OneOpPerChannelEnd(prog) && NoUntracedRead(prog)
    requires AreDepLists(prog, deps)
    requires IsOrder(ord, |prog|) && RespectsDepLists(ord, deps)
    ensures Run(Footprints(reg, prog), f, ord, s)
         == Run(Footprints(reg, prog), f, ProgramOrder(|prog|), s)
  {
    var fp, g := Footprints(reg, prog), Reduced(Edges(prog, |prog|));
    TracedGraphOrdersConflicts(reg, prog);
    assert fp[..|prog|] == fp;
    LegalOrdersAgree(fp, f, g, |prog|, ord, s);
  }

  lemma ReducedGraphKeeps(prog: seq<AsyncOp>, fp: seq<Footprint>)
    requires |fp| == |prog|
    ensures Forward(Reduced(Edges(prog, |prog|)), |prog|)
    ensures OrdersConflicts(fp, Reduced(Edges(prog, |prog|))) <==> OrdersConflicts(fp, Edges(prog, |prog|))
  {
    var g := Edges(prog, |prog|);
    EdgesForward(prog, |prog|);
    forall j: nat, i: nat
      ensures Reach(g, j, i) <==> Reach(Reduced(g), j, i)
    {
      ReductionKeepsReach(g, |prog|, j, i);
    }
  }

  /** Without any hypothesis on tiles: the reduced dependency lists keep the meaning, whatever
      the operations compute, exactly when the traced edges connect all conflicts. */
  lemma DepListsRightIff(reg: Region, prog: seq<AsyncOp>, deps: seq<seq<nat>>)
    requires AreDepLists(prog, deps)
    ensures (forall ord, f: Semantics, s :: IsOrder(ord, |prog|) && RespectsDepLists(ord, deps) ==>
               Run(Footprints(reg, prog), f, ord, s) == Run(Footprints(reg, prog), f, ProgramOrder(|prog|), s))
            <==> OrdersConflicts(Footprints(reg, prog), Edges(prog, |prog|))
  {
    var g := Reduced(Edges(prog, |prog|));
    var fp := Footprints(reg, prog);
    ReducedGraphKeeps(prog, fp);
    LegalOrdersAgreeIff(fp, g);
    forall ord | IsOrder(ord, |prog|)
      ensures RespectsDepLists(ord, deps) <==> Respects(ord, g)
    {
      ListsAreEdges(prog, deps, ord);
    }
  }

  /** With equal or disjoint tiles, in SSA form and with one operation at each end of a channel:
      the lists keep the meaning exactly when a path orders every read that a DMA within one
      buffer makes of a tile that is overwritten later. */
  lemma TracedListsRightIff(reg: Region, prog: seq<AsyncOp>, deps: seq<seq<nat>>)
    requires EqualOrDisjoint(reg, prog) && SingleAssignment(prog) && OneOpPerChannelEnd(prog)
    requires AreDepLists(prog, deps)
    ensures (forall ord, f: Semantics, s :: IsOrder(ord, |prog|) && RespectsDepLists(ord, deps) ==>
               Run(Footprints(reg, prog), f, ord, s) == Run(Footprints(reg, prog), f, ProgramOrder(|prog|), s))
            <==> LostReadsOrdered(reg, prog)
  {
    DepListsRightIff(reg, prog, deps);
    TracedGraphOrdersConflictsIff(reg, prog);
  }

  /** Two puts from different buffers into one channel get no edge, so the lists allow an order
      that sends them the other way round. */
  lemma TwoPutsUnordered(reg: Region, channel: nat, a: Tile, b: Tile)
    requires a.memref != b.memref
    ensures var prog := [AsyncOp(ChannelPut(channel, a), [], {}), AsyncOp(ChannelPut(channel, b), [], {})];
      && AreDepLists(prog, [[], []])
      && exists ord, f: Semantics, s :: IsOrder(ord, 2) && RespectsDepLists(ord, [[], []])
           && Run(Footprints(reg, prog), f, ord, s) != Run(Footprints(reg, prog), f, ProgramOrder(2), s)
  {
    var prog := [AsyncOp(ChannelPut(channel, a), [], {}), AsyncOp(ChannelPut(channel, b), [], {})];
    var fp := Footprints(reg, prog);
    assert !SinkDependsOn(prog[0], prog[1]);
    assert Edges(prog, 2) == {};
    assert Reduced(Edges(prog, 2)) == {};
    assert Sent(channel) in fp[0].outs && Sent(channel) in fp[1].outs;
    assert !OrdersConflicts(fp, Edges(prog, 2));
    DepListsRightIff(reg, prog, [[], []]);
  }

  lemma ListsAreEdges(prog: seq<AsyncOp>, deps: seq<seq<nat>>, ord: seq<nat>)
    requires AreDepLists(prog, deps) && IsOrder(ord, |prog|)
    ensures RespectsDepLists(ord, deps) <==> Respects(ord, Reduced(Edges(prog, |prog|)))
  {
    var g := Reduced(Edges(prog, |prog|));
    if Respects(ord, g) {
      forall p, q | 0 <= p < q < |ord|
        ensures ord[q] !in deps[ord[p]]
      {
        assert (ord[q], ord[p]) !in g;
      }
    }
    if RespectsDepLists(ord, deps) {
      forall p, q | 0 <= p < q < |ord|
        ensures (ord[q], ord[p]) !in g
      {
        assert ord[q] !in deps[ord[p]];
      }
    }
  }

  /** A DMA that copies tile 1 to tile 2 of buffer 0, and then a channel get that
      overwrites tile 1. */
  ghost function InPlaceProgram(): seq<AsyncOp> {
    [AsyncOp(Dma(Tile(0, [At(1)]), Tile(0, [At(2)])), [], {}), AsyncOp(ChannelGet(0, Tile(0, [At(1)])), [], {})]
  }

  ghost function OneElementTiles(t: Tile): set<nat> {
    if t.indices == [At(1)] then {1} else {2}
  }

  ghost function CopyOrSeven(i: nat, s: Store, c: Cell): int {
    if i == 0 && Element(0, 1) in s then s[Element(0, 1)] else 7
  }

  lemma InPlaceFootprints()
    ensures Footprints(OneElementTiles, InPlaceProgram()) ==
      [Footprint({Element(0, 1), Value(0)}, {Element(0, 2)}),
       Footprint({Value(0), Received(0)}, {Element(0, 1), Received(0)})]
  {
    var prog := InPlaceProgram();
    var one, two := Tile(0, [At(1)]), Tile(0, [At(2)]);
    assert TileCells(OneElementTiles, one) == {Element(0, 1)};
    assert TileCells(OneElementTiles, two) == {Element(0, 2)};
    assert TilesCells(OneElementTiles, [one]) == {Element(0, 1)} by { assert [one][0] == one; }
    assert TilesCells(OneElementTiles, [two]) == {Element(0, 2)} by { assert [two][0] == two; }
    assert TilesCells(OneElementTiles, []) == {};
    assert Handles([one] + [two]) == {Value(0)} by { assert ([one] + [two])[0] == one; }
    assert Handles([] + [one]) == {Value(0)} by { assert ([] + [one])[0] == one; }
    assert OpFootprint(OneElementTiles, prog[0]) == Footprint({Element(0, 1), Value(0)}, {Element(0, 2)});
    assert OpFootprint(OneElementTiles, prog[1]) == Footprint({Value(0), Received(0)}, {Element(0, 1), Received(0)});
  }

  lemma InPlaceTile(i: nat, t: Tile)
    requires i < 2 && t in AllTiles(InPlaceProgram()[i])
    ensures t == Tile(0, [At(1)]) || t == Tile(0, [At(2)])
  {
    var prog := InPlaceProgram();
    assert AllTiles(prog[0]) == [Tile(0, [At(1)]), Tile(0, [At(2)])];
    assert AllTiles(prog[1]) == [Tile(0, [At(1)])];
  }

  lemma InPlaceTiles()
    ensures EqualOrDisjoint(OneElementTiles, InPlaceProgram())
  {
    var prog := InPlaceProgram();
    forall i, j, a, b |
      0 <= i < |prog| && 0 <= j < |prog| && a in AllTiles(prog[i]) && b in AllTiles(prog[j])
      && a.memref == b.memref && !EqualTiles(a, b)
      ensures OneElementTiles(a) !! OneElementTiles(b)
    {
      InPlaceTile(i, a);
      InPlaceTile(j, b);
      assert a != b;
    }
  }

  lemma InPlaceSingleAssignment()
    ensures SingleAssignment(InPlaceProgram())
  {
    var prog := InPlaceProgram();
    assert prog[0].results == prog[1].results == {} && prog[0].scalars == [];
  }

  lemma InPlaceDmaIsUntraced()
    ensures !NoUntracedRead(InPlaceProgram())
  {
    var prog := InPlaceProgram();
    var one, two := Tile(0, [At(1)]), Tile(0, [At(2)]);
    assert !EqualIndices(one.indices[0], two.indices[0]);
    assert one in WriteTiles(prog[1].kind) && UntracedRead(prog[0].kind, one);
  }

  lemma InPlaceDependencies()
    ensures Edges(InPlaceProgram(), 2) == {}
    ensures AreDepLists(InPlaceProgram(), [[], []])
  {
    var prog := InPlaceProgram();
    var one, two := Tile(0, [At(1)]), Tile(0, [At(2)]);
    assert !EqualIndices(one.indices[0], two.indices[0]);
    assert !SinkDependsOn(prog[0], prog[1]);
    assert Edges(prog, 2) == {};
    assert Reduced(Edges(prog, 2)) == {};
  }

  lemma SwapIsOrder()
    ensures IsOrder([1, 0], 2) && RespectsDepLists([1, 0], [[], []])
  {
    assert [1, 0][0] == 1 && [1, 0][1] == 0;
  }

  lemma InPlaceHypotheses()
    ensures EqualOrDisjoint(OneElementTiles, InPlaceProgram()) && SingleAssignment(InPlaceProgram())
    ensures OneOpPerChannelEnd(InPlaceProgram()) && !NoUntracedRead(InPlaceProgram())
  {
    InPlaceTiles();
    InPlaceDmaIsUntraced();
    InPlaceSingleAssignment();
  }

  lemma SwapBreaks(start: Store)
    requires start == map[Element(0, 1) := 3, Element(0, 2) := 4]
    ensures Run(Footprints(OneElementTiles, InPlaceProgram()), CopyOrSeven, [1, 0], start)
         != Run(Footprints(OneElementTiles, InPlaceProgram()), CopyOrSeven, ProgramOrder(2), start)
  {
    InPlaceFootprints();
    InPlaceRuns(Footprints(OneElementTiles, InPlaceProgram()), start);
  }

  /** With a DMA inside one buffer the guarantee is lost: no edge is traced, and executing
      the two operations the other way round, which the dependency lists allow, ends in
      another memory. */
  lemma UntracedReadBreaksMeaning(start: Store)
    requires start == map[Element(0, 1) := 3, Element(0, 2) := 4]
    ensures AreDepLists(InPlaceProgram(), [[], []]) && !NoUntracedRead(InPlaceProgram())
    ensures EqualOrDisjoint(OneElementTiles, InPlaceProgram()) && SingleAssignment(InPlaceProgram())
    ensures OneOpPerChannelEnd(InPlaceProgram())
    ensures IsOrder([1, 0], 2) && RespectsDepLists([1, 0], [[], []])
    ensures Run(Footprints(OneElementTiles, InPlaceProgram()), CopyOrSeven, [1, 0], start)
         != Run(Footprints(OneElementTiles, InPlaceProgram()), CopyOrSeven, ProgramOrder(2), start)
  {
    InPlaceHypotheses();
    InPlaceDependencies();
    SwapIsOrder();
    SwapBreaks(start);
  }

  lemma InPlaceRuns(fp: seq<Footprint>, start: Store)
    requires start == map[Element(0, 1) := 3, Element(0, 2) := 4]
    requires fp == [Footprint({Element(0, 1), Value(0)}, {Element(0, 2)}),
                    Footprint({Value(0), Received(0)}, {Element(0, 1), Received(0)})]
    ensures Run(fp, CopyOrSeven, [1, 0], start) != Run(fp, CopyOrSeven, ProgramOrder(2), start)
  {
    var overwritten, copied := Exec(fp, CopyOrSeven, 1, start), Exec(fp, CopyOrSeven, 0, start);
    assert Run(fp, CopyOrSeven, [], start) == start;
    assert [1, 0][..1] == [1] && [1][..0] == [];
    assert Run(fp, CopyOrSeven, [1], start) == overwritten;
    assert ProgramOrder(2) == [0, 1] && [0, 1][..1] == [0] && [0][..0] == [];
    assert Run(fp, CopyOrSeven, [0], start) == copied;
    assert Exec(fp, CopyOrSeven, 0, overwritten)[Element(0, 2)] == 7;
    assert Exec(fp, CopyOrSeven, 1, copied)[Element(0, 2)] == 3;
  }
}
