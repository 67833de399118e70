/** Which earlier operations tracing finds, and no others; and what tiles and footprints stand for. */
module TracePrecision {
  import opened DependencyGraph
  import opened DependencyMeaning
  import opened DependencyTrace

  predicate IsTransfer(k: Kind) {
    k.Dma? || k.ChannelPut? || k.ChannelGet?
  }

  predicate SameTile(a: Tile, b: Tile) {
    a.memref == b.memref && EqualTiles(a, b)
  }

  // ---------- Edges ----------

  /** The earlier operation defines a buffer or a scalar that the later one uses. */
  ghost predicate Defines(op: AsyncOp, sink: AsyncOp) {
    || (exists t :: t in AllTiles(sink) && t.memref in op.results)
    || (exists v :: v in sink.scalars && v in op.results)
  }

  /** The operation writes a tile equal to t. */
  ghost predicate WritesTile(k: Kind, t: Tile) {
    exists a :: a in WriteTiles(k) && SameTile(t, a)
  }

  /** The operation reads a tile equal to t and writes nothing in its buffer. */
  ghost predicate OnlyReadsTile(k: Kind, t: Tile) {
    (exists a :: a in ReadTiles(k) && SameTile(t, a)) && forall w :: w in WriteTiles(k) ==> w.memref != t.memref
  }

  /** Tracing tile t, which the operation reads or writes, finds an earlier operation. */
  ghost predicate TraceFinds(k: Kind, sink: AsyncOp) {
    || (exists t :: t in ReadTiles(sink.kind) && UseMatches(k, t, Writers))
    || (exists t :: t in WriteTiles(sink.kind) && UseMatches(k, t, Accesses))
  }

  lemma DependsIff(op: AsyncOp, sink: AsyncOp)
    ensures SinkDependsOn(op, sink) <==> Defines(op, sink) || TraceFinds(op.kind, sink)
  {
    assert forall t :: t in AllTiles(sink) <==> t in ReadTiles(sink.kind) || t in WriteTiles(sink.kind);
    if SinkDependsOn(op, sink) {
      DependsOnlyIf(op, sink);
    }
    if Defines(op, sink) || TraceFinds(op.kind, sink) {
      DependsIf(op, sink);
    }
  }

  lemma DependsOnlyIf(op: AsyncOp, sink: AsyncOp)
    requires SinkDependsOn(op, sink)
    ensures Defines(op, sink) || TraceFinds(op.kind, sink)
  {
    var ins, outs := ReadTiles(sink.kind), WriteTiles(sink.kind);
    if k :| 0 <= k < |ins| && TileDependsOn(op, ins[k], Writers) {
      assert ins[k] in AllTiles(sink);
    } else if k :| 0 <= k < |outs| && TileDependsOn(op, outs[k], Accesses) {
      assert outs[k] in AllTiles(sink);
    }
  }

  lemma DependsIf(op: AsyncOp, sink: AsyncOp)
    requires Defines(op, sink) || TraceFinds(op.kind, sink)
    ensures SinkDependsOn(op, sink)
  {
    if t :| t in ReadTiles(sink.kind) && TileDependsOn(op, t, Writers) {
    } else if t :| t in WriteTiles(sink.kind) && TileDependsOn(op, t, Accesses) {
    }
  }

  /** Tracing joins a DMA or channel operation with a later operation exactly when it defines what
      the later one uses, or writes a tile that the later one accesses, or reads a tile that the
      later one writes in a buffer that it does not write itself. */
  lemma TransferEdgeIff(op: AsyncOp, sink: AsyncOp)
    requires IsTransfer(op.kind)
    ensures SinkDependsOn(op, sink) <==>
      || Defines(op, sink)
      || (exists t :: t in ReadTiles(sink.kind) + WriteTiles(sink.kind) && WritesTile(op.kind, t))
      || (exists t :: t in WriteTiles(sink.kind) && OnlyReadsTile(op.kind, t))
  {
    DependsIff(op, sink);
    forall t: Tile
      ensures UseMatches(op.kind, t, Writers) <==> WritesTile(op.kind, t)
      ensures UseMatches(op.kind, t, Accesses) <==> WritesTile(op.kind, t) || OnlyReadsTile(op.kind, t)
    {
      TransferFound(op.kind, t);
    }
  }

  lemma TransferFound(k: Kind, t: Tile)
    requires IsTransfer(k)
    ensures UseMatches(k, t, Writers) <==> WritesTile(k, t)
    ensures UseMatches(k, t, Accesses) <==> WritesTile(k, t) || OnlyReadsTile(k, t)
  {
    match k
    case Dma(src, dst) =>
      assert src in ReadTiles(k) && dst in WriteTiles(k);
    case ChannelPut(_, src) =>
      assert src in ReadTiles(k);
    case ChannelGet(_, dst) =>
      assert dst in WriteTiles(k);
  }

  /** Tracing joins any other operation with a later one exactly when it defines what the later one
      uses, or a buffer is shared that the later one writes, or that it reads and the earlier
      operation writes; a copy counts as a writer of both its buffers. */
  lemma BufferEdgeIff(op: AsyncOp, sink: AsyncOp)
    requires !IsTransfer(op.kind)
    ensures SinkDependsOn(op, sink) <==>
      || Defines(op, sink)
      || (exists a, t :: a in ReadTiles(op.kind) + WriteTiles(op.kind) && t in WriteTiles(sink.kind)
           && a.memref == t.memref)
      || (exists a, t :: a in ReadTiles(op.kind) + WriteTiles(op.kind) && t in ReadTiles(sink.kind)
           && a.memref == t.memref && (op.kind.Linalg? ==> a in op.kind.inits))
  {
    DependsIff(op, sink);
    forall t: Tile
      ensures UseMatches(op.kind, t, Accesses) <==> UsesBuffer(op.kind, t.memref)
      ensures UseMatches(op.kind, t, Writers) <==> MayWriteBuffer(op.kind, t.memref)
    {
      BufferFound(op.kind, t);
    }
  }

  ghost predicate UsesBuffer(k: Kind, memref: nat) {
    exists a :: a in ReadTiles(k) + WriteTiles(k) && a.memref == memref
  }

  ghost predicate MayWriteBuffer(k: Kind, memref: nat) {
    exists a :: a in ReadTiles(k) + WriteTiles(k) && a.memref == memref && (k.Linalg? ==> a in k.inits)
  }

  lemma BufferFound(k: Kind, t: Tile)
    requires !IsTransfer(k)
    ensures UseMatches(k, t, Accesses) <==> UsesBuffer(k, t.memref)
    ensures UseMatches(k, t, Writers) <==> MayWriteBuffer(k, t.memref)
  {
    match k
    case Linalg(inputs, inits) =>
      assert forall a :: a in ReadTiles(k) + WriteTiles(k) <==> a in inputs || a in inits;
      MentionsIff(inputs, t.memref);
      MentionsIff(inits, t.memref);
    case Copy(from, to) =>
      assert from in ReadTiles(k) && to in WriteTiles(k);
    case Unknown(operands) =>
      MentionsIff(operands, t.memref);
  }

  lemma MentionsIff(tiles: seq<Tile>, memref: nat)
    ensures Mentions(tiles, memref) <==> exists a :: a in tiles && a.memref == memref
  {
  }

  /** Two DMAs: an edge for each tile that one of them writes and both access, but none for a tile
      that both only read, and none where the later one overwrites what the earlier one read in the
      buffer that it wrote. */
  lemma DmaEdgeIff(op: AsyncOp, src: Tile, dst: Tile, sink: AsyncOp, src': Tile, dst': Tile)
    requires op.kind == Dma(src, dst) && sink.kind == Dma(src', dst')
    ensures SinkDependsOn(op, sink) <==>
      || Defines(op, sink)
      || SameTile(src', dst) || SameTile(dst', dst)
      || (SameTile(dst', src) && src.memref != dst.memref)
  {
    TransferEdgeIff(op, sink);
    assert src in ReadTiles(op.kind) && dst in WriteTiles(op.kind);
    assert src' in ReadTiles(sink.kind) && dst' in WriteTiles(sink.kind);
    assert forall t :: WritesTile(op.kind, t) <==> SameTile(t, dst);
    assert forall t :: OnlyReadsTile(op.kind, t) <==> SameTile(t, src) && dst.memref != t.memref;
  }

  /** A put and a later operation: an edge only for a tile that the later one writes. */
  lemma PutEdgeIff(op: AsyncOp, channel: nat, src: Tile, sink: AsyncOp)
    requires op.kind == ChannelPut(channel, src)
    ensures SinkDependsOn(op, sink) <==>
      Defines(op, sink) || exists t :: t in WriteTiles(sink.kind) && SameTile(t, src)
  {
    TransferEdgeIff(op, sink);
    assert src in ReadTiles(op.kind);
    assert forall t :: !WritesTile(op.kind, t);
    assert forall t :: OnlyReadsTile(op.kind, t) <==> SameTile(t, src);
  }

  /** A get and a later operation: an edge for a tile that the later one accesses. */
  lemma GetEdgeIff(op: AsyncOp, channel: nat, dst: Tile, sink: AsyncOp)
    requires op.kind == ChannelGet(channel, dst)
    ensures SinkDependsOn(op, sink) <==>
      Defines(op, sink) || exists t :: t in ReadTiles(sink.kind) + WriteTiles(sink.kind) && SameTile(t, dst)
  {
    TransferEdgeIff(op, sink);
    assert dst in WriteTiles(op.kind);
    assert forall t :: WritesTile(op.kind, t) <==> SameTile(t, dst);
    assert forall t :: !OnlyReadsTile(op.kind, t);
  }

  /** Copies that define nothing and write to buffers that no other of them accesses. */
  ghost predicate ShareOnlyReads(prog: seq<AsyncOp>) {
    forall i, j :: 0 <= i < |prog| && 0 <= j < |prog| ==>
      && IsTransfer(prog[i].kind) && prog[i].results == {}
      && (i != j ==> forall a, b :: a in WriteTiles(prog[i].kind) && b in AllTiles(prog[j]) ==> a.memref != b.memref)
  }

  /** Operations that share only what they read are left unordered. */
  lemma SharedReadsUnordered(prog: seq<AsyncOp>)
    requires ShareOnlyReads(prog)
    ensures Edges(prog, |prog|) == {} && Reduced(Edges(prog, |prog|)) == {}
  {
    forall j, i | 0 <= j < i < |prog|
      ensures !SinkDependsOn(prog[j], prog[i])
    {
      TransferEdgeIff(prog[j], prog[i]);
    }
  }

  // ---------- Tiles ----------

  /** The tile covers the element, given the values of its indices. */
  ghost predicate HasPoint(t: Tile, point: seq<nat>) {
    && |point| == |t.indices|
    && forall k :: 0 <= k < |point| ==> t.indices[k].Whole? || t.indices[k].value == point[k]
  }

  /** Two tiles count as equal exactly when some element is in both, if different index values
      stand for different numbers. */
  lemma EqualTilesIff(a: Tile, b: Tile)
    ensures EqualTiles(a, b) <==> exists point :: HasPoint(a, point) && HasPoint(b, point)
  {
    if EqualTiles(a, b) {
      var n := |a.indices|;
      var point := seq(n, k requires 0 <= k < n =>
        match a.indices[k] case At(v) => v case Whole => if b.indices[k].At? then b.indices[k].value else 0);
      assert HasPoint(a, point) && HasPoint(b, point);
    }
    if point :| HasPoint(a, point) && HasPoint(b, point) {
      forall k | 0 <= k < |a.indices|
        ensures EqualIndices(a.indices[k], b.indices[k])
      {
        assert a.indices[k].Whole? || a.indices[k].value == point[k];
        assert b.indices[k].Whole? || b.indices[k].value == point[k];
      }
    }
  }

  // ---------- Footprints ----------

  ghost predicate SomeCovers(reg: Region, tiles: seq<Tile>, c: Cell) {
    exists t :: t in tiles && Covers(reg, t, c)
  }

  lemma CellsIff(reg: Region, tiles: seq<Tile>, c: Cell)
    ensures c in TilesCells(reg, tiles) <==> SomeCovers(reg, tiles, c)
  {
    forall t
      ensures c in TileCells(reg, t) <==> Covers(reg, t, c)
    {
      if Covers(reg, t, c) {
        assert c == Element(t.memref, c.point);
      }
    }
    if t :| t in tiles && Covers(reg, t, c) {
      var k :| 0 <= k < |tiles| && tiles[k] == t;
      assert c in TileCells(reg, tiles[k]);
    }
  }

  /** Which buffer elements an operation reads and writes, kind by kind. */
  lemma ElementsAccessed(reg: Region, op: AsyncOp, c: Cell)
    requires c.Element?
    ensures c in OpFootprint(reg, op).ins <==>
      match op.kind
      case Dma(src, _) => Covers(reg, src, c)
      case ChannelPut(_, src) => Covers(reg, src, c)
      case ChannelGet(_, _) => false
      case Linalg(inputs, inits) => SomeCovers(reg, inputs, c) || SomeCovers(reg, inits, c)
      case Copy(from, to) => Covers(reg, from, c) || Covers(reg, to, c)
      case Unknown(operands) => SomeCovers(reg, operands, c)
    ensures c in OpFootprint(reg, op).outs <==>
      match op.kind
      case Dma(_, dst) => Covers(reg, dst, c)
      case ChannelPut(_, _) => false
      case ChannelGet(_, dst) => Covers(reg, dst, c)
      case Linalg(_, inits) => SomeCovers(reg, inits, c)
      case Copy(_, to) => Covers(reg, to, c)
      case Unknown(operands) => SomeCovers(reg, operands, c)
  {
    var ins, outs := ReadTiles(op.kind), WriteTiles(op.kind);
    CellsIff(reg, ins, c);
    CellsIff(reg, outs, c);
    assert c in OpFootprint(reg, op).ins <==> SomeCovers(reg, ins, c);
    assert c in OpFootprint(reg, op).outs <==> SomeCovers(reg, outs, c);
    TilesCover(reg, op.kind, c);
  }

  lemma TilesCover(reg: Region, k: Kind, c: Cell)
    ensures SomeCovers(reg, ReadTiles(k), c) <==>
      match k
      case Dma(src, _) => Covers(reg, src, c)
      case ChannelPut(_, src) => Covers(reg, src, c)
      case ChannelGet(_, _) => false
      case Linalg(inputs, inits) => SomeCovers(reg, inputs, c) || SomeCovers(reg, inits, c)
      case Copy(from, to) => Covers(reg, from, c) || Covers(reg, to, c)
      case Unknown(operands) => SomeCovers(reg, operands, c)
    ensures SomeCovers(reg, WriteTiles(k), c) <==>
      match k
      case Dma(_, dst) => Covers(reg, dst, c)
      case ChannelPut(_, _) => false
      case ChannelGet(_, dst) => Covers(reg, dst, c)
      case Linalg(_, inits) => SomeCovers(reg, inits, c)
      case Copy(_, to) => Covers(reg, to, c)
      case Unknown(operands) => SomeCovers(reg, operands, c)
  {
    if k.Linalg? {
      assert forall t :: t in k.inputs + k.inits <==> t in k.inputs || t in k.inits;
    }
  }

  /** A put adds to what was sent on its channel and a get takes from what was received, so both
      read and write that; an operation uses its scalars and the handles of the buffers it accesses,
      and writes what it defines. */
  lemma OtherCells(reg: Region, op: AsyncOp, id: nat)
    ensures Sent(id) in OpFootprint(reg, op).ins <==> op.kind.ChannelPut? && op.kind.channel == id
    ensures Sent(id) in OpFootprint(reg, op).outs <==> op.kind.ChannelPut? && op.kind.channel == id
    ensures Received(id) in OpFootprint(reg, op).ins <==> op.kind.ChannelGet? && op.kind.channel == id
    ensures Received(id) in OpFootprint(reg, op).outs <==> op.kind.ChannelGet? && op.kind.channel == id
    ensures Value(id) in OpFootprint(reg, op).ins <==>
      id in op.scalars || exists t :: t in AllTiles(op) && t.memref == id
    ensures Value(id) in OpFootprint(reg, op).outs <==> id in op.results
  {
    var tiles := AllTiles(op);
    HandleIff(tiles, id);
    assert Value(id) in OpFootprint(reg, op).ins <==> id in op.scalars || Value(id) in Handles(tiles);
  }

  lemma HandleIff(tiles: seq<Tile>, id: nat)
    ensures Value(id) in Handles(tiles) <==> exists t :: t in tiles && t.memref == id
  {
    if t :| t in tiles && t.memref == id {
      var k :| 0 <= k < |tiles| && tiles[k] == t;
      assert Value(tiles[k].memref) in Handles(tiles);
    }
  }
}
