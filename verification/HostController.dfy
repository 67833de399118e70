/** From the host's packet to the descriptors: which slot a copy packet asks for, and what the
    controller pushes for it when it has completed it. */
module HostController {
  import opened DispatchSpec
  import DispatchSkips
  import Dispatch
  import NdCopy
  import IndexWalk
  import opened Wrappers
  import Packet
  import BounceBuffer

  /** The columns with shim DMAs. */
  const SHIM_DMA_COLS: seq<nat> := [2, 3, 6, 7, 10, 11, 18, 19, 26, 27, 34, 35, 42, 43, 46, 47]
  /** The columns with column DMAs. */
  const COL_DMA_COLS: seq<nat> := [7, 8, 9, 10]

  const COL_SPACE := 1
  const SHIM_DMA_S2MM: bv64 := 0
  const SHIM_CHNUM_S2MM0 := 0
  const SHIM_CHNUM_MM2S0 := 2

  // ---------- Slots ----------

  /** Where a column stands in a table, from position i on. */
  function PlaceFrom(cols: seq<nat>, col: nat, i: nat): (r: nat)
    requires i <= |cols|
    ensures i <= r <= |cols|
    decreases |cols| - i
  {
    if i == |cols| || cols[i] == col then i else PlaceFrom(cols, col, i + 1)
  }

  /** The first slot of a column; an unknown column gets the slots of the first one. */
  function SlotBase(col: nat, space: nat): nat {
    if space == SHIM_SPACE && PlaceFrom(SHIM_DMA_COLS, col, 0) < |SHIM_DMA_COLS| then
      PlaceFrom(SHIM_DMA_COLS, col, 0) * 4
    else if space == COL_SPACE && PlaceFrom(COL_DMA_COLS, col, 0) < |COL_DMA_COLS| then
      PlaceFrom(COL_DMA_COLS, col, 0) * 4 + SHIM_SLOTS
    else 0
  }

  /** get_slot: the two scans. */
  method GetSlot(col: nat, space: nat) returns (slot: nat)
    ensures slot == SlotBase(col, space)
  {
    if space == SHIM_SPACE {
      for i := 0 to |SHIM_DMA_COLS|
        invariant PlaceFrom(SHIM_DMA_COLS, col, 0) == PlaceFrom(SHIM_DMA_COLS, col, i)
      {
        if col == SHIM_DMA_COLS[i] {
          return i * 4;
        }
      }
    } else if space == COL_SPACE {
      for i := 0 to |COL_DMA_COLS|
        invariant PlaceFrom(COL_DMA_COLS, col, 0) == PlaceFrom(COL_DMA_COLS, col, i)
      {
        if col == COL_DMA_COLS[i] {
          return i * 4 + SHIM_SLOTS;
        }
      }
    }
    return 0;
  }

  function SlotOf(col: nat, toMemory: bool, channel: nat, space: nat): nat {
    channel + SlotBase(col, space) + if toMemory then SHIM_CHNUM_S2MM0 else SHIM_CHNUM_MM2S0
  }

  /** The column whose slots a shim copy uses. */
  function Home(col: nat): nat {
    if col in SHIM_DMA_COLS then col else SHIM_DMA_COLS[0]
  }

  lemma {:induction false} PlaceIsFirst(cols: seq<nat>, col: nat, i: nat)
    requires i <= |cols|
    ensures PlaceFrom(cols, col, i) < |cols| ==> cols[PlaceFrom(cols, col, i)] == col
    ensures PlaceFrom(cols, col, i) == |cols| <==> col !in cols[i..]
    decreases |cols| - i
  {
    if i < |cols| && cols[i] != col {
      PlaceIsFirst(cols, col, i + 1);
      assert cols[i..] == [cols[i]] + cols[i + 1..];
    }
  }

  /** The slots of a shim copy are those of its home column. */
  lemma {:induction false} BaseIsHome(col: nat) returns (i: nat)
    ensures i < |SHIM_DMA_COLS| && SHIM_DMA_COLS[i] == Home(col) && SlotBase(col, SHIM_SPACE) == 4 * i
  {
    PlaceIsFirst(SHIM_DMA_COLS, col, 0);
    assert SHIM_DMA_COLS[0..] == SHIM_DMA_COLS;
    i := if col in SHIM_DMA_COLS then PlaceFrom(SHIM_DMA_COLS, col, 0) else 0;
  }

  lemma {:induction false} ColumnsDiffer(i: nat, j: nat)
    requires i < |SHIM_DMA_COLS| && j < |SHIM_DMA_COLS|
    ensures SHIM_DMA_COLS[i] == SHIM_DMA_COLS[j] <==> i == j
  {
  }

  /** The column whose shim slots a packet asks for: its home column for shim copies, none for a
      column DMA, and the first one for every other packet. */
  function ShimColumn(col: nat, space: nat): Option<nat> {
    if space == SHIM_SPACE then Some(Home(col))
    else if space == COL_SPACE && col in COL_DMA_COLS then None
    else Some(SHIM_DMA_COLS[0])
  }

  /** Slots of packets for other spaces than that of shim copies. */
  lemma {:induction false} OtherBase(col: nat, space: nat)
    requires space != SHIM_SPACE
    ensures ShimColumn(col, space).None? ==> SlotBase(col, space) >= SHIM_SLOTS
    ensures ShimColumn(col, space).Some? ==> SlotBase(col, space) == 0
  {
    PlaceIsFirst(COL_DMA_COLS, col, 0);
    assert COL_DMA_COLS[0..] == COL_DMA_COLS;
  }

  /** Shim copies fit the slot table, and a packet of any space asks for the slot of one if and
      only if it is for the same channel and direction of the same column. */
  lemma {:induction false} SlotsEqualIff(
    col: nat, toMemory: bool, channel: nat, col': nat, toMemory': bool, channel': nat, space': nat)
    requires channel < 2 && channel' < 2
    ensures SlotOf(col, toMemory, channel, SHIM_SPACE) < SHIM_SLOTS
    ensures SlotOf(col, toMemory, channel, SHIM_SPACE) == SlotOf(col', toMemory', channel', space')
      <==> (ShimColumn(col', space') == Some(Home(col)) && toMemory == toMemory' && channel == channel')
  {
    var i := BaseIsHome(col);
    ColumnsDiffer(i, 0);
    if space' == SHIM_SPACE {
      var j := BaseIsHome(col');
      ColumnsDiffer(i, j);
    } else {
      OtherBase(col', space');
    }
  }

  lemma {:induction false} FirstPlace(cols: seq<nat>, i: nat, from: nat)
    requires from <= i < |cols| && forall j :: from <= j < i ==> cols[j] != cols[i]
    ensures PlaceFrom(cols, cols[i], from) == i
    decreases i - from
  {
    if from < i {
      FirstPlace(cols, i, from + 1);
    }
  }

  /** The four channels of a column have four slots in a row, first the two to memory; the sixteen
      columns with shim DMAs have the slots from 0 on, and the four with column DMAs those from 64 on. */
  lemma SlotNumbers(i: nat, toMemory: bool, channel: nat)
    ensures i < 16 ==> SlotOf(SHIM_DMA_COLS[i], toMemory, channel, 2) == 4 * i + channel + if toMemory then 0 else 2
    ensures i < 4 ==>
      SlotOf(COL_DMA_COLS[i], toMemory, channel, 1) == 64 + 4 * i + channel + if toMemory then 0 else 2
  {
    if i < 16 {
      FirstPlace(SHIM_DMA_COLS, i, 0);
    }
    if i < 4 {
      FirstPlace(COL_DMA_COLS, i, 0);
    }
  }

  /** Any other packet asks for one of the first slots. */
  lemma OtherSlots(col: nat, toMemory: bool, channel: nat, space: nat)
    requires !(space == 2 && col in SHIM_DMA_COLS) && !(space == 1 && col in COL_DMA_COLS)
    ensures SlotOf(col, toMemory, channel, space) == channel + if toMemory then 0 else 2
  {
    PlaceIsFirst(SHIM_DMA_COLS, col, 0);
    PlaceIsFirst(COL_DMA_COLS, col, 0);
    assert SHIM_DMA_COLS[0..] == SHIM_DMA_COLS && COL_DMA_COLS[0..] == COL_DMA_COLS;
  }

  // ---------- What is pushed ----------

  /** The shape that the controller decodes from the argument words. */
  function ShapeOf(w1: bv64, w2: bv64, w3: bv64): NdCopy.Shape {
    NdCopy.Shape(w1 as nat, Packet.Length1d(w2) as nat,
                 Packet.Length2d(w2) as nat, Packet.Stride2d(w2) as nat,
                 Packet.Length3d(w3) as nat, Packet.Stride3d(w3) as nat,
                 Packet.Length4d(w3) as nat, Packet.Stride4d(w3) as nat)
  }

  /** The slot and the memory space that the controller decodes. */
  function RequestOf(w0: bv64): Request {
    var space := Packet.MemorySpace(w0) as nat;
    var toMemory := Packet.Direction(w0) == SHIM_DMA_S2MM;
    NdMemcpy(SlotOf(Packet.Col(w0) as nat, toMemory, Packet.Channel(w0) as nat, space), space)
  }

  /** A copy packet with these argument words, as the host leaves it in the ring. */
  function PacketOf(w0: bv64, w1: bv64, w2: bv64, w3: bv64): Dispatch.RingPacket {
    Dispatch.RingPacket(AgentDispatch, false, true, RequestOf(w0), ShapeOf(w1, w2, w3))
  }

  /** The shape in bytes of a region of a tensor of 32-bit elements at byte address data. */
  function ByteShape(data: nat, p: BounceBuffer.Region): NdCopy.Shape {
    NdCopy.Shape(data + 4 * p.base, 4 * p.len1, p.len2, 4 * p.str2, p.len3, 4 * p.str3, p.len4, 4 * p.str4)
  }

  function ByteOf(data: nat): nat -> nat {
    (a: nat) => (data + 4 * a) % NdCopy.MOD64
  }

  lemma ByteAddress(data: nat, p: BounceBuffer.Region, i4: nat, i3: nat, i2: nat)
    ensures NdCopy.Address(ByteShape(data, p), i4, i3, i2) == ByteOf(data)(BounceBuffer.Address(p, i4, i3, i2))
  {
    var q := ByteShape(data, p);
    assert i4 * q.str4 == 4 * (i4 * p.str4) && i3 * q.str3 == 4 * (i3 * p.str3) && i2 * q.str2 == 4 * (i2 * p.str2);
  }

  /** Walking the byte shape visits the bytes of the segments in the order of the host's loops. */
  lemma {:induction false} WalksCorrespond(data: nat, p: BounceBuffer.Region)
    ensures |NdCopy.Walk(ByteShape(data, p))| == |BounceBuffer.Segments(p)|
    ensures forall k :: 0 <= k < |BounceBuffer.Segments(p)| ==>
      NdCopy.Walk(ByteShape(data, p))[k] == (data + 4 * BounceBuffer.Segments(p)[k]) % NdCopy.MOD64
  {
    var host, controller := BounceBuffer.AddressIn(p), NdCopy.AddressIn(ByteShape(data, p));
    forall a: nat, b: nat, c: nat
      ensures controller(a, b, c) == ByteOf(data)(host(a, b, c))
    {
      ByteAddress(data, p, a, b, c);
    }
    IndexWalk.WalksCorrespond(host, controller, ByteOf(data), BounceBuffer.ExtentsOf(p), p.len4, 0, 0);
  }

  lemma DecodedShape(physAddr: bv64, len1: bv64, len2: bv64, str2: bv64, len3: bv64, str3: bv64, len4: bv64, str4: bv64)
    requires len1 <= Packet.MAX32
    requires len2 <= Packet.MAX16 && str2 <= Packet.MAX16 && len3 <= Packet.MAX16 && str3 <= Packet.MAX16
    requires len4 <= Packet.MAX16 && str4 <= Packet.MAX16
    ensures ShapeOf(physAddr, Packet.Word2(len1, len2, str2), Packet.Word3(len3, str3, len4, str4)) == NdCopy.Shape(
      physAddr as nat, len1 as nat, len2 as nat, str2 as nat, len3 as nat, str3 as nat, len4 as nat, str4 as nat)
  {
    Packet.Word2RoundTrip(len1, len2, str2);
    Packet.Word3RoundTrip(len3, str3, len4, str4);
  }

  /** Only copies to or from memory space two are carried out. */
  lemma DecodedRequest(space: bv64, channel: bv64, col: bv64, burst: bv64, direction: bv64)
    requires space <= Packet.MAX8 && channel <= 1 && col <= Packet.MAX8 && burst <= Packet.MAX8 && direction <= 1
    ensures var w0 := Packet.Word0(space, channel, col, burst, direction);
      && RequestOf(w0)
         == NdMemcpy(SlotOf(col as nat, direction == SHIM_DMA_S2MM, channel as nat, space as nat), space as nat)
      && (Dispatch.IsCopy(RequestOf(w0)) <==> space == 2)
  {
    Packet.Word0RoundTrip(space, channel, col, burst, direction);
    SlotsEqualIff(col as nat, direction == SHIM_DMA_S2MM, channel as nat, 0, true, 0, SHIM_SPACE);
  }

  /** While a shim copy is in flight a later copy packet, of any memory space, is passed over if
      and only if it is for the same channel and direction of the same column; a packet of
      another space counts as one for the first column, unless it is for a column DMA. */
  lemma ClashIff(
    channel: bv64, col: bv64, direction: bv64, space': bv64, channel': bv64, col': bv64, direction': bv64, burst: bv64)
    requires channel <= 1 && col <= Packet.MAX8 && direction <= 1 && burst <= Packet.MAX8
    requires space' <= Packet.MAX8 && channel' <= 1 && col' <= Packet.MAX8 && direction' <= 1
    ensures DispatchSkips.SlotClash(
        Entry(AgentDispatch, RequestOf(Packet.Word0(2, channel, col, burst, direction))),
        Entry(AgentDispatch, RequestOf(Packet.Word0(space', channel', col', burst, direction'))))
      <==> (channel == channel' && direction == direction'
            && ShimColumn(col' as nat, space' as nat) == Some(Home(col as nat)))
  {
    DecodedRequest(2, channel, col, burst, direction);
    DecodedRequest(space', channel', col', burst, direction');
    SlotsEqualIff(col as nat, direction == SHIM_DMA_S2MM, channel as nat,
                  col' as nat, direction' == SHIM_DMA_S2MM, channel' as nat, space' as nat);
    SameBits(channel, channel');
    SameBits(direction, direction');
  }

  lemma SameBits(a: bv64, b: bv64)
    requires a <= 1 && b <= 1
    ensures a as nat < 2 && (a == b <==> a as nat == b as nat)
    ensures a == b <==> (a == 0 <==> b == 0)
  {
  }

  /** The descriptors of the segments of a region. */
  function SegmentDescriptors(id: nat, data: nat, p: BounceBuffer.Region): seq<NdCopy.Descriptor> {
    var segs := BounceBuffer.Segments(p);
    seq(|segs|, k requires 0 <= k < |segs| =>
      NdCopy.Descriptor(id, (data + 4 * segs[k]) % NdCopy.MOD64, 4 * p.len1))
  }

  lemma {:induction false} WalkDescriptors(id: nat, data: nat, p: BounceBuffer.Region)
    ensures NdCopy.Descriptors(NdCopy.Packet(id, ByteShape(data, p)), NdCopy.Walk(ByteShape(data, p)))
         == SegmentDescriptors(id, data, p)
  {
    WalksCorrespond(data, p);
  }

  /** End to end: the host packs the byte shape of a region, with lengths and strides that fit
      their fields, into packet id of the ring. When the handler has completed the packet it
      has pushed for it exactly the segments that the host's own gather loop visits, in the
      same order, if the memory space is two, and nothing at all if it is another one. */
  lemma HostAndControllerAgree(
    p: BounceBuffer.Region, data: nat, space: bv64, channel: bv64, col: bv64, burst: bv64, direction: bv64,
    physAddr: bv64, len1: bv64, len2: bv64, str2: bv64, len3: bv64, str3: bv64, len4: bv64, str4: bv64,
    pkt: Dispatch.RingPacket, id: nat, s: Sched, log: seq<NdCopy.Descriptor>)
    requires space <= Packet.MAX8 && channel <= 1 && col <= Packet.MAX8 && burst <= Packet.MAX8 && direction <= 1
    requires len1 <= Packet.MAX32
    requires len2 <= Packet.MAX16 && str2 <= Packet.MAX16 && len3 <= Packet.MAX16 && str3 <= Packet.MAX16
    requires len4 <= Packet.MAX16 && str4 <= Packet.MAX16
    requires ByteShape(data, p) == NdCopy.Shape(
      physAddr as nat, len1 as nat, len2 as nat, str2 as nat, len3 as nat, str3 as nat, len4 as nat, str4 as nat)
    requires pkt == PacketOf(Packet.Word0(space, channel, col, burst, direction), physAddr,
                             Packet.Word2(len1, len2, str2), Packet.Word3(len3, str3, len4, str4))
    requires id in s.done && Dispatch.FinalTransfer(id, pkt, s, log)
    ensures Dispatch.PushedFor(log, id) == if space == 2 then SegmentDescriptors(id, data, p) else []
  {
    DecodedRequest(space, channel, col, burst, direction);
    DecodedShape(physAddr, len1, len2, str2, len3, str3, len4, str4);
    WalkDescriptors(id, data, p);
  }
}
