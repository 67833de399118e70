/** Channels for DMA operations: which channel of a tile an operation uses, and which column
    and channel of the shim (or L2) DMAs is at the other end. */
module DmaAllocator {
  import opened Wrappers

  /** A DMA operation of the core at (col, row), known by its id. */
  datatype Request = Request(id: int, col: int, row: int)

  datatype TileAlloc = TileAlloc(id: int, col: int, row: int, channel: nat)

  datatype Alloc = Alloc(column: int, col: int, row: int, dmaChannel: nat, tileChannel: nat, ids: seq<int>)

  datatype Place = Place(column: int, channel: nat)

  const TILE_DMA_CHANNELS: nat := 2

  // ---------- Channels of a tile ----------

  predicate SameTile(t: TileAlloc, q: Request) {
    t.col == q.col && t.row == q.row
  }

  /** The channel recorded for an operation; the last record counts. */
  function Recorded(ts: seq<TileAlloc>, q: Request): Option<nat> {
    if ts == [] then None
    else
      var last := ts[|ts| - 1];
      if SameTile(last, q) && last.id == q.id then Some(last.channel) else Recorded(ts[..|ts| - 1], q)
  }

  function CountAt(ts: seq<TileAlloc>, q: Request): nat {
    if ts == [] then 0
    else CountAt(ts[..|ts| - 1], q) + if SameTile(ts[|ts| - 1], q) then 1 else 0
  }

  function TileChannelOf(ts: seq<TileAlloc>, q: Request): nat {
    match Recorded(ts, q)
    case Some(channel) => channel
    case None => CountAt(ts, q) % TILE_DMA_CHANNELS
  }

  function TilesAfter(ts: seq<TileAlloc>, q: Request): seq<TileAlloc> {
    if Recorded(ts, q).Some? then ts else ts + [TileAlloc(q.id, q.col, q.row, TileChannelOf(ts, q))]
  }

  // ---------- Columns and channels at the other end ----------

  predicate At(a: Alloc, q: Request) {
    a.col == q.col && a.row == q.row
  }

  predicate Serves(a: Alloc, q: Request, tileChannel: nat) {
    At(a, q) && (q.id in a.ids || a.tileChannel == tileChannel)
  }

  /** The first allocation that serves the request, or the length of the list. */
  function First(allocs: seq<Alloc>, q: Request, tileChannel: nat): (i: nat)
    ensures i <= |allocs| && (i < |allocs| ==> Serves(allocs[i], q, tileChannel))
    ensures forall j :: 0 <= j < i ==> !Serves(allocs[j], q, tileChannel)
  {
    if allocs == [] then 0
    else
      var before := First(allocs[..|allocs| - 1], q, tileChannel);
      if before < |allocs| - 1 || Serves(allocs[|allocs| - 1], q, tileChannel) then before else |allocs|
  }

  function WithId(a: Alloc, id: int): Alloc {
    if id in a.ids then a else a.(ids := a.ids + [id])
  }

  /** The list after a request; it stays as it is when all columns are in use. */
  function AllocsAfter(columns: seq<int>, channels: nat, allocs: seq<Alloc>, q: Request, tileChannel: nat): seq<Alloc>
    requires channels > 0
  {
    var i, n := First(allocs, q, tileChannel), |allocs|;
    if i < n then allocs[i := WithId(allocs[i], q.id)]
    else if n / channels < |columns| then
      allocs + [Alloc(columns[n / channels], q.col, q.row, n % channels, tileChannel, [q.id])]
    else allocs
  }

  function ColumnOf(columns: seq<int>, channels: nat, allocs: seq<Alloc>, q: Request, tileChannel: nat): Option<int>
    requires channels > 0
  {
    var i, n := First(allocs, q, tileChannel), |allocs|;
    if i < n then Some(allocs[i].column)
    else if n / channels < |columns| then Some(columns[n / channels])
    else None
  }

  /** The channel of the last allocation that serves the request. */
  function LastChannel(allocs: seq<Alloc>, q: Request, tileChannel: nat): Option<nat> {
    if allocs == [] then None
    else
      var last := allocs[|allocs| - 1];
      if Serves(last, q, tileChannel) then Some(last.dmaChannel)
      else LastChannel(allocs[..|allocs| - 1], q, tileChannel)
  }

  class DMAAllocator {
    const columns: seq<int>
    const channels: nat
    var mm2s: seq<Alloc>
    var s2mm: seq<Alloc>

    ghost predicate Valid()
      reads this
    {
      channels > 0
    }

    function Allocs(isMM2S: bool): seq<Alloc>
      reads this
    {
      if isMM2S then mm2s else s2mm
    }

    constructor (columns: seq<int>, channels: nat)
      requires channels > 0
      ensures Valid() && this.columns == columns && this.channels == channels && mm2s == [] && s2mm == []
    {
      this.columns, this.channels := columns, channels;
      mm2s, s2mm := [], [];
    }

    method SetAllocs(isMM2S: bool, allocs: seq<Alloc>)
      modifies this
      ensures Allocs(isMM2S) == allocs && Allocs(!isMM2S) == old(Allocs(!isMM2S))
    {
      if isMM2S {
        mm2s := allocs;
      } else {
        s2mm := allocs;
      }
    }

    /** The scan of the ids of one allocation. */
    static method HasId(ids: seq<int>, id: int) returns (found: bool)
      ensures found <==> id in ids
    {
      found := false;
      var k: nat := 0;
      while k < |ids| && !found
        invariant k <= |ids| && (found <==> id in ids[..k])
      {
        found := ids[k] == id;
        k := k + 1;
      }
    }

    /** The column for a request, from the first allocation that serves it or a new one; None
        where the columns run out. */
    method GetTile(isMM2S: bool, q: Request, tileChannel: nat) returns (column: Option<int>)
      requires Valid()
      modifies this
      ensures column == ColumnOf(columns, channels, old(Allocs(isMM2S)), q, tileChannel)
      ensures Allocs(isMM2S) == AllocsAfter(columns, channels, old(Allocs(isMM2S)), q, tileChannel)
      ensures Allocs(!isMM2S) == old(Allocs(!isMM2S))
    {
      var allocs := if isMM2S then mm2s else s2mm;
      var i: nat := 0;
      while i < |allocs|
        invariant i <= |allocs| && unchanged(this)
        invariant forall j :: 0 <= j < i ==> !Serves(allocs[j], q, tileChannel)
      {
        var a := allocs[i];
        if q.col == a.col && q.row == a.row {
          var found := HasId(a.ids, q.id);
          if found {
            assert First(allocs, q, tileChannel) == i && allocs[i := a] == allocs;
            return Some(a.column);
          }
          if tileChannel == a.tileChannel {
            assert First(allocs, q, tileChannel) == i;
            SetAllocs(isMM2S, allocs[i := a.(ids := a.ids + [q.id])]);
            return Some(a.column);
          }
        }
        i := i + 1;
      }
      if |allocs| / channels >= |columns| {
        return None;
      }
      var dmaColumn := columns[|allocs| / channels];
      SetAllocs(isMM2S, allocs + [Alloc(dmaColumn, q.col, q.row, |allocs| % channels, tileChannel, [q.id])]);
      return Some(dmaColumn);
    }

    /** The channel for a request, from the last allocation that serves it. */
    method GetChannel(isMM2S: bool, q: Request, tileChannel: nat) returns (channel: Option<nat>)
      ensures channel == LastChannel(Allocs(isMM2S), q, tileChannel)
    {
      var allocs := if isMM2S then mm2s else s2mm;
      channel := None;
      var i: nat := 0;
      while i < |allocs|
        invariant i <= |allocs|
        invariant channel == LastChannel(allocs[..i], q, tileChannel)
      {
        var a := allocs[i];
        assert allocs[..i + 1][..i] == allocs[..i];
        if q.col == a.col && q.row == a.row {
          var found := HasId(a.ids, q.id);
          if found {
            channel := Some(a.dmaChannel);
          }
          if tileChannel == a.tileChannel {
            channel := Some(a.dmaChannel);
          }
        }
        i := i + 1;
      }
      assert allocs[..i] == allocs;
    }
  }

  // ---------- The invariant ----------

  /** Allocation number i has column i / channels and channel i % channels; its ids are those
      of operations that use its tile channel; no tile channel has two allocations. */
  ghost predicate Table(columns: seq<int>, channels: nat, ts: seq<TileAlloc>, allocs: seq<Alloc>) {
    && channels > 0
    && (forall i :: 0 <= i < |allocs| ==>
          i / channels < |columns| && allocs[i].column == columns[i / channels] && allocs[i].dmaChannel == i % channels)
    && (forall i, id :: 0 <= i < |allocs| && id in allocs[i].ids ==>
          Recorded(ts, Request(id, allocs[i].col, allocs[i].row)) == Some(allocs[i].tileChannel))
    && (forall i, j :: 0 <= i < j < |allocs| ==> !SameEnd(allocs[i], allocs[j]))
  }

  predicate SameEnd(a: Alloc, b: Alloc) {
    a.col == b.col && a.row == b.row && a.tileChannel == b.tileChannel
  }

  /** A record is kept, and an operation's first request makes its record. */
  lemma RecordedAfter(ts: seq<TileAlloc>, q: Request, other: Request)
    ensures Recorded(TilesAfter(ts, q), q) == Some(TileChannelOf(ts, q))
    ensures other != q ==> Recorded(TilesAfter(ts, q), other) == Recorded(ts, other)
  {
    if Recorded(ts, q).None? {
      assert TilesAfter(ts, q)[..|ts|] == ts;
    }
  }

  /** Under the invariant an allocation serves a request exactly when it is at its tile channel. */
  lemma ServesIffTileChannel(columns: seq<int>, channels: nat, ts: seq<TileAlloc>, allocs: seq<Alloc>, q: Request,
                             i: nat)
    requires Table(columns, channels, ts, allocs) && i < |allocs| && Recorded(ts, q).Some?
    ensures Serves(allocs[i], q, Recorded(ts, q).value)
      <==> (At(allocs[i], q) && allocs[i].tileChannel == Recorded(ts, q).value)
  {
    if At(allocs[i], q) && q.id in allocs[i].ids {
      assert Recorded(ts, Request(q.id, allocs[i].col, allocs[i].row)) == Some(allocs[i].tileChannel);
    }
  }

  lemma TableGrows(columns: seq<int>, channels: nat, ts: seq<TileAlloc>, allocs: seq<Alloc>, q: Request)
    requires Table(columns, channels, ts, allocs)
    ensures Table(columns, channels, TilesAfter(ts, q), allocs)
  {
    forall i, id | 0 <= i < |allocs| && id in allocs[i].ids
      ensures Recorded(TilesAfter(ts, q), Request(id, allocs[i].col, allocs[i].row)) == Some(allocs[i].tileChannel)
    {
      RecordedAfter(ts, q, Request(id, allocs[i].col, allocs[i].row));
    }
  }

  /** Every request keeps the invariant. */
  lemma RequestKeepsTable(columns: seq<int>, channels: nat, ts: seq<TileAlloc>, allocs: seq<Alloc>, q: Request)
    requires Table(columns, channels, ts, allocs) && Recorded(ts, q).Some?
    ensures Table(columns, channels, ts, AllocsAfter(columns, channels, allocs, q, Recorded(ts, q).value))
  {
    var tc := Recorded(ts, q).value;
    var i, n := First(allocs, q, tc), |allocs|;
    var after := AllocsAfter(columns, channels, allocs, q, tc);
    if i < n {
      ServesIffTileChannel(columns, channels, ts, allocs, q, i);
    } else if n / channels < |columns| {
      forall j | 0 <= j < n
        ensures !SameEnd(after[j], after[n])
      {
        assert !Serves(allocs[j], q, tc);
      }
    }
  }

  // ---------- What the answers mean ----------

  /** One direction of an allocator, with the channels of the tiles. */
  datatype State = State(ts: seq<TileAlloc>, allocs: seq<Alloc>)

  /** A request served by this allocator, or one that another allocator serves. */
  datatype Event = Own(q: Request) | Elsewhere(q: Request)

  ghost predicate Ok(columns: seq<int>, channels: nat, s: State) {
    Table(columns, channels, s.ts, s.allocs)
  }

  function After(columns: seq<int>, channels: nat, s: State, e: Event): State
    requires channels > 0
  {
    var ts := TilesAfter(s.ts, e.q);
    match e
    case Own(q) => State(ts, AllocsAfter(columns, channels, s.allocs, q, TileChannelOf(s.ts, q)))
    case Elsewhere(_) => State(ts, s.allocs)
  }

  function AfterAll(columns: seq<int>, channels: nat, s: State, events: seq<Event>): State
    requires channels > 0
    decreases |events|
  {
    if events == [] then s else AfterAll(columns, channels, After(columns, channels, s, events[0]), events[1..])
  }

  /** The column and channel at the other end of a request. */
  function PlaceOf(s: State, q: Request): Option<Place> {
    match Recorded(s.ts, q)
    case None => None
    case Some(tc) =>
      var i := First(s.allocs, q, tc);
      if i < |s.allocs| then Some(Place(s.allocs[i].column, s.allocs[i].dmaChannel)) else None
  }

  lemma AfterOk(columns: seq<int>, channels: nat, s: State, e: Event)
    requires Ok(columns, channels, s)
    ensures Ok(columns, channels, After(columns, channels, s, e))
  {
    TableGrows(columns, channels, s.ts, s.allocs, e.q);
    RecordedAfter(s.ts, e.q, e.q);
    if e.Own? {
      RequestKeepsTable(columns, channels, TilesAfter(s.ts, e.q), s.allocs, e.q);
    }
  }

  /** Of the allocations only the right one serves a request, so the last is the first. */
  lemma {:induction false} LastIsFirst(columns: seq<int>, channels: nat, s: State, q: Request, n: nat)
    requires Ok(columns, channels, s) && Recorded(s.ts, q).Some? && n <= |s.allocs|
    ensures var tc := Recorded(s.ts, q).value;
      var i := First(s.allocs, q, tc);
      LastChannel(s.allocs[..n], q, tc) == if i < n then Some(s.allocs[i].dmaChannel) else None
  {
    var tc := Recorded(s.ts, q).value;
    var i := First(s.allocs, q, tc);
    if n > 0 {
      LastIsFirst(columns, channels, s, q, n - 1);
      assert s.allocs[..n][..n - 1] == s.allocs[..n - 1];
      ServesIffTileChannel(columns, channels, s.ts, s.allocs, q, n - 1);
      if i < n - 1 {
        ServesIffTileChannel(columns, channels, s.ts, s.allocs, q, i);
      }
    }
  }

  /** getChannel reports the channel of the allocation that getTile returned, and both find
      one unless the columns have run out. */
  lemma ChannelIsOfTile(columns: seq<int>, channels: nat, s: State, q: Request)
    requires Ok(columns, channels, s)
    ensures var tc := TileChannelOf(s.ts, q);
      var r := After(columns, channels, s, Own(q));
      var column, channel := ColumnOf(columns, channels, s.allocs, q, tc), LastChannel(r.allocs, q, tc);
      && (PlaceOf(r, q).Some? ==>
            column == Some(PlaceOf(r, q).value.column) && channel == Some(PlaceOf(r, q).value.channel))
      && (PlaceOf(r, q).None? ==> column == None && channel == None)
      && (PlaceOf(r, q).None? <==> First(s.allocs, q, tc) == |s.allocs| && |s.allocs| / channels >= |columns|)
  {
    var tc := TileChannelOf(s.ts, q);
    var r := After(columns, channels, s, Own(q));
    AfterOk(columns, channels, s, Own(q));
    RecordedAfter(s.ts, q, q);
    LastIsFirst(columns, channels, r, q, |r.allocs|);
    assert r.allocs[..|r.allocs|] == r.allocs;
    FirstAfter(columns, channels, s.allocs, q, tc);
  }

  /** After its request, an operation is served where it was served before, or by the new one. */
  lemma FirstAfter(columns: seq<int>, channels: nat, allocs: seq<Alloc>, q: Request, tc: nat)
    requires channels > 0
    ensures First(AllocsAfter(columns, channels, allocs, q, tc), q, tc) == First(allocs, q, tc)
  {
    var i, n := First(allocs, q, tc), |allocs|;
    var after := AllocsAfter(columns, channels, allocs, q, tc);
    assert forall j :: 0 <= j < i ==> after[j] == allocs[j];
    if i < n {
      assert Serves(after[i], q, tc);
    } else if n / channels < |columns| {
      assert Serves(after[n], q, tc);
    }
  }

  /** A request that is served lists its operation at the allocation that serves it, and nowhere else. */
  lemma RequestIsListed(columns: seq<int>, channels: nat, s: State, q: Request, i: nat, id: int)
    requires Ok(columns, channels, s) && i < |After(columns, channels, s, Own(q)).allocs|
    ensures var r := After(columns, channels, s, Own(q));
      id in r.allocs[i].ids <==>
        || (i < |s.allocs| && id in s.allocs[i].ids)
        || (id == q.id && At(r.allocs[i], q) && Recorded(r.ts, q) == Some(r.allocs[i].tileChannel))
  {
    var r := After(columns, channels, s, Own(q));
    var tc := TileChannelOf(s.ts, q);
    AfterOk(columns, channels, s, Own(q));
    RecordedAfter(s.ts, q, q);
    ServesIffTileChannel(columns, channels, r.ts, r.allocs, q, i);
    OneServes(columns, channels, r, q, i);
    FirstAfter(columns, channels, s.allocs, q, tc);
  }

  /** The allocation that serves a request is the only one at its tile channel. */
  lemma OneServes(columns: seq<int>, channels: nat, s: State, q: Request, i: nat)
    requires Ok(columns, channels, s) && Recorded(s.ts, q).Some? && i < |s.allocs|
    ensures At(s.allocs[i], q) && Recorded(s.ts, q) == Some(s.allocs[i].tileChannel)
      <==> i == First(s.allocs, q, Recorded(s.ts, q).value)
  {
    var tc := Recorded(s.ts, q).value;
    var k := First(s.allocs, q, tc);
    ServesIffTileChannel(columns, channels, s.ts, s.allocs, q, i);
    if k < |s.allocs| {
      ServesIffTileChannel(columns, channels, s.ts, s.allocs, q, k);
      assert i != k ==> !SameEnd(s.allocs[i], s.allocs[k]);
    }
  }

  /** An answer once given is given for ever, whatever is requested later. */
  lemma {:induction false} AnswersNeverChange(columns: seq<int>, channels: nat, s: State, q: Request,
                                              events: seq<Event>)
    requires Ok(columns, channels, s) && PlaceOf(s, q).Some?
    ensures PlaceOf(AfterAll(columns, channels, s, events), q) == PlaceOf(s, q)
    ensures Recorded(AfterAll(columns, channels, s, events).ts, q) == Recorded(s.ts, q)
    decreases |events|
  {
    if events != [] {
      AnswerStays(columns, channels, s, q, events[0]);
      AfterOk(columns, channels, s, events[0]);
      AnswersNeverChange(columns, channels, After(columns, channels, s, events[0]), q, events[1..]);
    }
  }

  lemma AnswerStays(columns: seq<int>, channels: nat, s: State, q: Request, e: Event)
    requires Ok(columns, channels, s) && PlaceOf(s, q).Some?
    ensures PlaceOf(After(columns, channels, s, e), q) == PlaceOf(s, q)
    ensures Recorded(After(columns, channels, s, e).ts, q) == Recorded(s.ts, q)
  {
    var r := After(columns, channels, s, e);
    RecordedAfter(s.ts, e.q, q);
    AfterOk(columns, channels, s, e);
    var tc := Recorded(s.ts, q).value;
    var i, k := First(s.allocs, q, tc), First(r.allocs, q, tc);
    ServesIffTileChannel(columns, channels, s.ts, s.allocs, q, i);
    ServesIffTileChannel(columns, channels, r.ts, r.allocs, q, i);
    assert SameEnd(r.allocs[i], s.allocs[i]);
    ServesIffTileChannel(columns, channels, r.ts, r.allocs, q, k);
  }

  lemma DistinctPlaces(channels: nat, i: nat, j: nat)
    requires channels > 0 && i / channels == j / channels && i % channels == j % channels
    ensures i == j
  {
    assert i == channels * (i / channels) + i % channels;
    assert j == channels * (j / channels) + j % channels;
  }

  /** The allocation that serves a recorded request is at its tile and for its tile channel. */
  lemma PlaceServes(columns: seq<int>, channels: nat, s: State, q: Request) returns (i: nat)
    requires Ok(columns, channels, s) && PlaceOf(s, q).Some?
    ensures i < |s.allocs| && At(s.allocs[i], q) && Recorded(s.ts, q) == Some(s.allocs[i].tileChannel)
    ensures PlaceOf(s, q) == Some(Place(s.allocs[i].column, s.allocs[i].dmaChannel))
  {
    i := First(s.allocs, q, Recorded(s.ts, q).value);
    ServesIffTileChannel(columns, channels, s.ts, s.allocs, q, i);
  }

  /** Allocations differ in column or channel, and no two are for one channel of one tile. */
  lemma PlacesDistinct(columns: seq<int>, channels: nat, s: State, i: nat, j: nat)
    requires Ok(columns, channels, s) && i < |s.allocs| && j < |s.allocs|
    requires forall i, j :: 0 <= i < j < |columns| ==> columns[i] != columns[j]
    ensures s.allocs[i].column == s.allocs[j].column && s.allocs[i].dmaChannel == s.allocs[j].dmaChannel ==> i == j
    ensures SameEnd(s.allocs[i], s.allocs[j]) ==> i == j
  {
    if s.allocs[i].column == s.allocs[j].column && s.allocs[i].dmaChannel == s.allocs[j].dmaChannel {
      DistinctPlaces(channels, i, j);
    }
  }

  /** Two operations have the same column and channel at the other end exactly when they use
      the same channel of the same tile. */
  lemma SharedOnlyByOneTileChannel(columns: seq<int>, channels: nat, s: State, q: Request, q': Request)
    requires Ok(columns, channels, s) && PlaceOf(s, q).Some? && PlaceOf(s, q').Some?
    requires forall i, j :: 0 <= i < j < |columns| ==> columns[i] != columns[j]
    ensures PlaceOf(s, q) == PlaceOf(s, q') <==>
            q.col == q'.col && q.row == q'.row && Recorded(s.ts, q) == Recorded(s.ts, q')
  {
    var i := PlaceServes(columns, channels, s, q);
    var j := PlaceServes(columns, channels, s, q');
    PlacesDistinct(columns, channels, s, i, j);
  }

  // ---------- From the empty lists on ----------

  const EMPTY := State([], [])

  /** The records of one tile in the order in which they were made. */
  function RecordsOf(ts: seq<TileAlloc>, col: int, row: int): seq<TileAlloc> {
    if ts == [] then []
    else
      var last := ts[|ts| - 1];
      RecordsOf(ts[..|ts| - 1], col, row) + if last.col == col && last.row == row then [last] else []
  }

  lemma {:induction false} CountIsLength(ts: seq<TileAlloc>, q: Request)
    ensures CountAt(ts, q) == |RecordsOf(ts, q.col, q.row)|
  {
    if ts != [] {
      CountIsLength(ts[..|ts| - 1], q);
    }
  }

  /** The channel of an operation is that of its record. */
  lemma {:induction false} RecordedIn(ts: seq<TileAlloc>, q: Request)
    ensures Recorded(ts, q).None? <==> forall t :: t in RecordsOf(ts, q.col, q.row) ==> t.id != q.id
    ensures Recorded(ts, q).Some? ==>
      exists t :: t in RecordsOf(ts, q.col, q.row) && t.id == q.id && Recorded(ts, q) == Some(t.channel)
  {
    if ts != [] {
      RecordedIn(ts[..|ts| - 1], q);
      var last := ts[|ts| - 1];
      assert SameTile(last, q) ==> last in RecordsOf(ts, q.col, q.row);
    }
  }

  /** The records of a tile take the two channels in turn, one record for an operation. */
  ghost predicate InTurn(records: seq<TileAlloc>) {
    && (forall k :: 0 <= k < |records| ==> records[k].channel == k % 2)
    && (forall j, k :: 0 <= j < k < |records| ==> records[j].id != records[k].id)
  }

  ghost predicate AllInTurn(ts: seq<TileAlloc>) {
    forall col, row :: InTurn(RecordsOf(ts, col, row))
  }

  lemma {:induction false} RequestKeepsTurn(ts: seq<TileAlloc>, q: Request, col: int, row: int)
    requires AllInTurn(ts)
    ensures InTurn(RecordsOf(TilesAfter(ts, q), col, row))
  {
    assert InTurn(RecordsOf(ts, col, row));
    if Recorded(ts, q).None? {
      CountIsLength(ts, q);
      RecordedIn(ts, q);
      assert TilesAfter(ts, q)[..|ts|] == ts;
    }
  }

  /** The channel of record number k of a tile is k % 2, after any requests. */
  lemma {:induction false} ChannelsInTurn(columns: seq<int>, channels: nat, s: State, events: seq<Event>)
    requires channels > 0 && AllInTurn(s.ts)
    ensures AllInTurn(AfterAll(columns, channels, s, events).ts)
    decreases |events|
  {
    if events != [] {
      forall col, row
        ensures InTurn(RecordsOf(TilesAfter(s.ts, events[0].q), col, row))
      {
        RequestKeepsTurn(s.ts, events[0].q, col, row);
      }
      ChannelsInTurn(columns, channels, After(columns, channels, s, events[0]), events[1..]);
    }
  }

  /** How many of the records use a channel. */
  function Load(records: seq<TileAlloc>, channel: nat): nat {
    if records == [] then 0
    else Load(records[..|records| - 1], channel) + if records[|records| - 1].channel == channel then 1 else 0
  }

  lemma {:induction false} TurnsAreFair(records: seq<TileAlloc>)
    requires InTurn(records)
    ensures Load(records, 0) == (|records| + 1) / 2 && Load(records, 1) == |records| / 2
  {
    if records != [] {
      TurnsAreFair(records[..|records| - 1]);
    }
  }

  /** After any requests, of the operations recorded at a tile each has the other channel than the
      one before it, and the loads of the two channels differ by at most one. */
  lemma ChannelsBalanced(columns: seq<int>, channels: nat, events: seq<Event>, col: int, row: int)
    requires channels > 0
    ensures var records := RecordsOf(AfterAll(columns, channels, EMPTY, events).ts, col, row);
      && (forall k :: 0 <= k < |records| ==> records[k].channel == k % 2)
      && (forall k :: 0 < k < |records| ==> records[k].channel != records[k - 1].channel)
      && Load(records, 0) + Load(records, 1) == |records| && 0 <= Load(records, 0) - Load(records, 1) <= 1
  {
    ChannelsInTurn(columns, channels, EMPTY, events);
    var records := RecordsOf(AfterAll(columns, channels, EMPTY, events).ts, col, row);
    TurnsAreFair(records);
    NextTurn(records);
  }

  /** An operation that is not recorded yet gets the channel that the tile's last record does not
      have, and channel 0 at a tile without records. */
  lemma NextChannel(columns: seq<int>, channels: nat, events: seq<Event>, q: Request)
    requires channels > 0
    ensures var ts := AfterAll(columns, channels, EMPTY, events).ts;
      var records := RecordsOf(ts, q.col, q.row);
      Recorded(ts, q).None? ==>
        Recorded(TilesAfter(ts, q), q)
          == Some(if records == [] then 0 else 1 - records[|records| - 1].channel)
  {
    ChannelsInTurn(columns, channels, EMPTY, events);
    NextInTurn(AfterAll(columns, channels, EMPTY, events).ts, q);
  }

  lemma NextInTurn(ts: seq<TileAlloc>, q: Request)
    requires AllInTurn(ts)
    ensures var records := RecordsOf(ts, q.col, q.row);
      Recorded(ts, q).None? ==>
        Recorded(TilesAfter(ts, q), q)
          == Some(if records == [] then 0 else 1 - records[|records| - 1].channel)
  {
    NextTurn(RecordsOf(ts, q.col, q.row));
    CountIsLength(ts, q);
    RecordedAfter(ts, q, q);
  }

  lemma NextTurn(records: seq<TileAlloc>)
    requires InTurn(records)
    ensures records != [] ==> |records| % 2 == 1 - records[|records| - 1].channel
    ensures forall k :: 0 < k < |records| ==> records[k].channel != records[k - 1].channel
  {
  }

  /** The allocations fill one column after the other, each from channel 0 on. */
  lemma {:induction false} ColumnsFillInOrder(columns: seq<int>, channels: nat, events: seq<Event>, i: nat)
    requires channels > 0 && i < |AfterAll(columns, channels, EMPTY, events).allocs|
    ensures i / channels < |columns|
    ensures var a := AfterAll(columns, channels, EMPTY, events).allocs[i];
      a.column == columns[i / channels] && a.dmaChannel == i % channels
  {
    AllOk(columns, channels, EMPTY, events);
  }

  lemma {:induction false} AllOk(columns: seq<int>, channels: nat, s: State, events: seq<Event>)
    requires Ok(columns, channels, s)
    ensures Ok(columns, channels, AfterAll(columns, channels, s, events))
    decreases |events|
  {
    if events != [] {
      AfterOk(columns, channels, s, events[0]);
      AllOk(columns, channels, After(columns, channels, s, events[0]), events[1..]);
    }
  }

  // ---------- The pass ----------

  class AIRToAIE {
    var tileS2MM: seq<TileAlloc>
    var tileMM2S: seq<TileAlloc>

    constructor ()
      ensures tileS2MM == [] && tileMM2S == []
    {
      tileS2MM, tileMM2S := [], [];
    }

    function Tiles(toCore: bool): seq<TileAlloc>
      reads this
    {
      if toCore then tileS2MM else tileMM2S
    }

    /** The channel of the tile: the recorded one, or the number of records of that tile
        modulo the number of channels. */
    method GetTileDMAChannel(toCore: bool, q: Request) returns (channel: nat)
      modifies this
      ensures channel == TileChannelOf(old(Tiles(toCore)), q)
      ensures Tiles(toCore) == TilesAfter(old(Tiles(toCore)), q)
      ensures Tiles(!toCore) == old(Tiles(!toCore))
    {
      var allocs := if toCore then tileS2MM else tileMM2S;
      var chan: Option<nat> := None;
      var numAllocs: nat := 0;
      var i: nat := 0;
      while i < |allocs|
        invariant i <= |allocs| && unchanged(this)
        invariant chan == Recorded(allocs[..i], q) && numAllocs == CountAt(allocs[..i], q)
      {
        var t := allocs[i];
        assert allocs[..i + 1][..i] == allocs[..i];
        if q.col == t.col && q.row == t.row {
          if q.id == t.id {
            chan := Some(t.channel);
          }
          numAllocs := numAllocs + 1;
        }
        i := i + 1;
      }
      assert allocs[..i] == allocs;
      if chan.Some? {
        return chan.value;
      }
      channel := numAllocs % TILE_DMA_CHANNELS;
      if toCore {
        tileS2MM := tileS2MM + [TileAlloc(q.id, q.col, q.row, channel)];
      } else {
        tileMM2S := tileMM2S + [TileAlloc(q.id, q.col, q.row, channel)];
      }
    }

    ghost function StateOf(toCore: bool, alloc: DMAAllocator): State
      reads this, alloc
    {
      State(Tiles(toCore), alloc.Allocs(toCore))
    }

    /** Both ends of an operation: its tile channel, and the column and channel of the shim or
        L2 DMA, which sends what the tile receives. */
    method Schedule(alloc: DMAAllocator, toCore: bool, q: Request) returns (tileChannel: nat, place: Option<Place>)
      requires alloc.Valid() && Ok(alloc.columns, alloc.channels, StateOf(toCore, alloc))
      modifies this, alloc
      ensures StateOf(toCore, alloc) == After(alloc.columns, alloc.channels, old(StateOf(toCore, alloc)), Own(q))
      ensures StateOf(!toCore, alloc) == old(StateOf(!toCore, alloc))
      ensures Ok(alloc.columns, alloc.channels, StateOf(toCore, alloc))
      ensures Recorded(Tiles(toCore), q) == Some(tileChannel) && place == PlaceOf(StateOf(toCore, alloc), q)
    {
      ghost var s := StateOf(toCore, alloc);
      ChannelIsOfTile(alloc.columns, alloc.channels, s, q);
      AfterOk(alloc.columns, alloc.channels, s, Own(q));
      RecordedAfter(s.ts, q, q);
      tileChannel := GetTileDMAChannel(toCore, q);
      var column := alloc.GetTile(toCore, q, tileChannel);
      var channel := alloc.GetChannel(toCore, q, tileChannel);
      place := if column.Some? && channel.Some? then Some(Place(column.value, channel.value)) else None;
    }
  }
}
