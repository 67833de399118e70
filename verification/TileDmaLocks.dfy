/** The locks between a core and the DMA engines of its tile: the acquires and releases put
    around the core's block and around the buffer descriptors. */
module TileDmaLocks {

  /** A DMA channel of the tile, towards the core (S2MM) or away from it (MM2S), whose
      descriptors go round its buffers. */
  datatype Channel = Channel(toCore: bool, buffers: nat)

  datatype Slot = Slot(channel: nat, buffer: nat)

  datatype CoreOp = Acquire(slot: Slot, value: nat) | Use(slot: Slot) | Release(slot: Slot, value: nat)

  /** A descriptor of a chain: its lock values and the descriptor that follows. */
  datatype Bd = Bd(slot: Slot, acquire: nat, release: nat, next: nat)

  predicate IsSlot(channels: seq<Channel>, slot: Slot) {
    slot.channel < |channels| && slot.buffer < channels[slot.channel].buffers
  }

  predicate ToCore(channels: seq<Channel>, slot: Slot) {
    slot.channel < |channels| && channels[slot.channel].toCore
  }

  function AcquireOf(channels: seq<Channel>, slot: Slot): CoreOp {
    Acquire(slot, if ToCore(channels, slot) then 1 else 0)
  }

  function ReleaseOf(channels: seq<Channel>, slot: Slot): CoreOp {
    Release(slot, if ToCore(channels, slot) then 0 else 1)
  }

  function BdOf(channel: Channel, slot: Slot): Bd
    requires slot.buffer < channel.buffers
  {
    Bd(slot, if channel.toCore then 0 else 1, if channel.toCore then 1 else 0,
       if slot.buffer + 1 < channel.buffers then slot.buffer + 1 else 0)
  }

  predicate Done(script: seq<CoreOp>, pos: nat, op: CoreOp)
    requires pos <= |script|
  {
    op in script[..pos]
  }

  /** In one block the core acquires, uses and releases every buffer once, in any order that
      has each buffer's acquire before its use before its release. */
  ghost predicate IsScript(channels: seq<Channel>, script: seq<CoreOp>) {
    && (forall i :: 0 <= i < |script| ==> OpOk(channels, script, i))
    && (forall slot :: IsSlot(channels, slot) ==> ReleaseOf(channels, slot) in script)
  }

  predicate OpOk(channels: seq<Channel>, script: seq<CoreOp>, i: nat)
    requires i < |script|
  {
    var op := script[i];
    && IsSlot(channels, op.slot) && !Done(script, i, op)
    && (op.Acquire? ==> op == AcquireOf(channels, op.slot))
    && (op.Use? ==> Done(script, i, AcquireOf(channels, op.slot)))
    && (op.Release? ==> op == ReleaseOf(channels, op.slot) && Done(script, i, Use(op.slot)))
  }

  // ---------- The emitted code ----------

  function SlotsOf(channel: nat, buffers: nat): seq<Slot> {
    seq(buffers, b requires 0 <= b < buffers => Slot(channel, b))
  }

  /** The buffers of the first n channels. */
  function AllSlots(channels: seq<Channel>, n: nat): seq<Slot>
    requires n <= |channels|
  {
    if n == 0 then [] else AllSlots(channels, n - 1) + SlotsOf(n - 1, channels[n - 1].buffers)
  }

  /** What the core's block holds before and after locks are put in: a buffer defined by an
      alloca or by the tensor that it comes from, the core's use of it, its dealloc, and lock
      operations. */
  datatype Stmt = Define(slot: Slot) | Touch(slot: Slot) | Dealloc(slot: Slot) | Lock(op: CoreOp)

  function SlotOf(s: Stmt): Slot {
    if s.Lock? then s.op.slot else s.slot
  }

  /** The first place of a statement from k on, or the end. */
  function PlaceFrom(b: seq<Stmt>, x: Stmt, k: nat): (r: nat)
    requires k <= |b|
    ensures k <= r <= |b|
    decreases |b| - k
  {
    if k == |b| || b[k] == x then k else PlaceFrom(b, x, k + 1)
  }

  lemma {:induction false} PlaceIsFirst(b: seq<Stmt>, x: Stmt, k: nat)
    requires k <= |b|
    ensures var r := PlaceFrom(b, x, k); (r < |b| ==> b[r] == x) && x !in b[k..r]
    decreases |b| - k
  {
    if k < |b| && b[k] != x {
      PlaceIsFirst(b, x, k + 1);
      var r := PlaceFrom(b, x, k);
      assert b[k..r] == [b[k]] + b[k + 1..r];
    }
  }

  /** In front of the definition, or at the front of the block. */
  function WithAcquire(channels: seq<Channel>, slot: Slot, b: seq<Stmt>): seq<Stmt> {
    var k := PlaceFrom(b, Define(slot), 0);
    if k < |b| then b[..k] + [Lock(AcquireOf(channels, slot))] + b[k..]
    else [Lock(AcquireOf(channels, slot))] + b
  }

  /** In place of the dealloc, or at the end of the block. */
  function WithRelease(channels: seq<Channel>, slot: Slot, b: seq<Stmt>): seq<Stmt> {
    var k := PlaceFrom(b, Dealloc(slot), 0);
    if k < |b| then b[..k] + [Lock(ReleaseOf(channels, slot))] + b[k + 1..]
    else b + [Lock(ReleaseOf(channels, slot))]
  }

  /** Locks for these buffers put in one after the other. */
  function Locked(channels: seq<Channel>, slots: seq<Slot>, b: seq<Stmt>): seq<Stmt>
    decreases |slots|
  {
    if slots == [] then b
    else
      var n := |slots| - 1;
      WithRelease(channels, slots[n], WithAcquire(channels, slots[n], Locked(channels, slots[..n], b)))
  }

  /** Puts acquire and release of all buffers of the channels into the block. */
  method EmitCoreLocks(channels: seq<Channel>, block: seq<Stmt>) returns (b: seq<Stmt>)
    ensures b == Locked(channels, AllSlots(channels, |channels|), block)
  {
    b := block;
    var c: nat := 0;
    while c < |channels|
      invariant c <= |channels| && b == Locked(channels, AllSlots(channels, c), block)
    {
      b := EmitChannelLocks(channels, c, AllSlots(channels, c), block, b);
      c := c + 1;
    }
  }

  method EmitChannelLocks(channels: seq<Channel>, c: nat, ghost slots: seq<Slot>, ghost block: seq<Stmt>, b0: seq<Stmt>)
    returns (b: seq<Stmt>)
    requires c < |channels| && b0 == Locked(channels, slots, block)
    ensures b == Locked(channels, slots + SlotsOf(c, channels[c].buffers), block)
  {
    b := b0;
    var buffers := channels[c].buffers;
    var k: nat := 0;
    assert slots + SlotsOf(c, 0) == slots;
    while k < buffers
      invariant k <= buffers && b == Locked(channels, slots + SlotsOf(c, k), block)
    {
      LockedNext(channels, slots, c, k, block);
      b := EmitLock(channels, Slot(c, k), b);
      k := k + 1;
    }
  }

  lemma {:induction false} LockedSnoc(channels: seq<Channel>, slots: seq<Slot>, slot: Slot, b: seq<Stmt>)
    ensures Locked(channels, slots + [slot], b)
         == WithRelease(channels, slot, WithAcquire(channels, slot, Locked(channels, slots, b)))
  {
    assert (slots + [slot])[..|slots|] == slots;
  }

  lemma SlotsSnoc(slots: seq<Slot>, c: nat, k: nat)
    ensures slots + SlotsOf(c, k + 1) == (slots + SlotsOf(c, k)) + [Slot(c, k)]
  {
  }

  lemma {:induction false} LockedNext(channels: seq<Channel>, slots: seq<Slot>, c: nat, k: nat, b: seq<Stmt>)
    ensures Locked(channels, slots + SlotsOf(c, k + 1), b)
      == WithRelease(channels, Slot(c, k),
                     WithAcquire(channels, Slot(c, k), Locked(channels, slots + SlotsOf(c, k), b)))
  {
    SlotsSnoc(slots, c, k);
    LockedSnoc(channels, slots + SlotsOf(c, k), Slot(c, k), b);
  }

  method Find(b: seq<Stmt>, x: Stmt) returns (k: nat)
    ensures k == PlaceFrom(b, x, 0)
  {
    k := 0;
    while k < |b| && b[k] != x
      invariant k <= |b| && PlaceFrom(b, x, k) == PlaceFrom(b, x, 0)
    {
      k := k + 1;
    }
  }

  /** Acquire and release of one buffer. */
  method EmitLock(channels: seq<Channel>, slot: Slot, block: seq<Stmt>) returns (b: seq<Stmt>)
    requires slot.channel < |channels|
    ensures b == WithRelease(channels, slot, WithAcquire(channels, slot, block))
  {
    var lockAqValue: nat := 0;
    var lockRelValue: nat := 1;
    if channels[slot.channel].toCore {
      lockAqValue := 1;
      lockRelValue := 0;
    }
    var k := Find(block, Define(slot));
    if k < |block| {
      b := block[..k] + [Lock(Acquire(slot, lockAqValue))] + block[k..];
    } else {
      b := [Lock(Acquire(slot, lockAqValue))] + block;
    }
    k := Find(b, Dealloc(slot));
    if k < |b| {
      b := b[..k] + [Lock(Release(slot, lockRelValue))] + b[k + 1..];
    } else {
      b := b + [Lock(Release(slot, lockRelValue))];
    }
  }

  /** The descriptors of a channel, the last one leading back to the first. */
  method EmitChain(c: nat, channel: Channel) returns (chain: seq<Bd>)
    ensures |chain| == channel.buffers
    ensures forall b :: 0 <= b < |chain| ==> chain[b] == BdOf(channel, Slot(c, b))
    ensures forall b :: 0 <= b < |chain| ==> chain[b].next == (b + 1) % |chain|
  {
    chain := [];
    var b: nat := 0;
    while b < channel.buffers
      invariant b <= channel.buffers && |chain| == b
      invariant forall i :: 0 <= i < b ==> chain[i] == BdOf(channel, Slot(c, i))
    {
      var next := if b == channel.buffers - 1 then 0 else b + 1;
      var acquireValue: nat := 1;
      var releaseValue: nat := 0;
      if channel.toCore {
        acquireValue := 0;
        releaseValue := 1;
      }
      chain := chain + [Bd(Slot(c, b), acquireValue, releaseValue, next)];
      b := b + 1;
    }
  }

  lemma {:induction false} AllSlotsAre(channels: seq<Channel>, n: nat, slot: Slot)
    requires n <= |channels|
    ensures slot in AllSlots(channels, n) <==> IsSlot(channels, slot) && slot.channel < n
  {
    if n > 0 {
      AllSlotsAre(channels, n - 1, slot);
      var own := SlotsOf(n - 1, channels[n - 1].buffers);
      assert slot in own <==> slot.channel == n - 1 && slot.buffer < channels[n - 1].buffers by {
        if slot.channel == n - 1 && slot.buffer < |own| {
          assert own[slot.buffer] == slot;
        }
      }
    }
  }

  lemma {:induction false} AllSlotsDiffer(channels: seq<Channel>, n: nat, i: nat, j: nat)
    requires n <= |channels| && i < j < |AllSlots(channels, n)|
    ensures AllSlots(channels, n)[i] != AllSlots(channels, n)[j]
  {
    var before := AllSlots(channels, n - 1);
    if j < |before| {
      AllSlotsDiffer(channels, n - 1, i, j);
    } else if i < |before| {
      AllSlotsAre(channels, n - 1, before[i]);
    }
  }

  // ---------- Where the locks stand ----------

  /** A statement as it was in the block: a release that took the place of a dealloc is that dealloc,
      and other locks were not there. */
  function RestoreOne(x: Stmt, freed: set<Slot>): seq<Stmt> {
    match x
    case Lock(Release(slot, _)) => if slot in freed then [Dealloc(slot)] else []
    case Lock(_) => []
    case _ => [x]
  }

  function Restore(b: seq<Stmt>, freed: set<Slot>): seq<Stmt> {
    if b == [] then [] else RestoreOne(b[0], freed) + Restore(b[1..], freed)
  }

  lemma {:induction false} RestoreConcat(a: seq<Stmt>, b: seq<Stmt>, freed: set<Slot>)
    ensures Restore(a + b, freed) == Restore(a, freed) + Restore(b, freed)
  {
    if a == [] {
      assert a + b == b;
    } else {
      assert (a + b)[1..] == a[1..] + b;
      RestoreConcat(a[1..], b, freed);
    }
  }

  lemma {:induction false} RestoreAround(a: seq<Stmt>, x: Stmt, b: seq<Stmt>, freed: set<Slot>)
    ensures Restore(a + [x] + b, freed) == Restore(a, freed) + RestoreOne(x, freed) + Restore(b, freed)
  {
    RestoreConcat(a + [x], b, freed);
    RestoreConcat(a, [x], freed);
    assert [x][1..] == [];
  }

  lemma {:induction false} InsertRestored(b: seq<Stmt>, k: nat, x: Stmt, freed: set<Slot>)
    requires k <= |b| && RestoreOne(x, freed) == []
    ensures Restore(Insert(b, k, x), freed) == Restore(b, freed)
  {
    RestoreAround(b[..k], x, b[k..], freed);
    RestoreConcat(b[..k], b[k..], freed);
    assert b[..k] + b[k..] == b;
  }

  lemma {:induction false} AcquireRestored(channels: seq<Channel>, slot: Slot, b: seq<Stmt>, freed: set<Slot>)
    ensures Restore(WithAcquire(channels, slot, b), freed) == Restore(b, freed)
  {
    var k, j := LockPlaces(channels, slot, b);
    InsertRestored(b, k, Lock(AcquireOf(channels, slot)), freed);
  }

  lemma {:induction false} ReleaseRestored(channels: seq<Channel>, slot: Slot, b: seq<Stmt>, freed: set<Slot>)
    requires Dealloc(slot) in b <==> slot in freed
    ensures Restore(WithRelease(channels, slot, b), freed) == Restore(b, freed)
  {
    var k, j := LockPlaces(channels, slot, b);
    var x := Lock(ReleaseOf(channels, slot));
    if j < |b| {
      SplitAt(b, j);
      assert b[j := x] == b[..j] + [x] + b[j + 1..];
      RestoreAround(b[..j], x, b[j + 1..], freed);
      RestoreAround(b[..j], b[j], b[j + 1..], freed);
    } else {
      InsertRestored(b, j, x, freed);
    }
  }

  /** Locks of one buffer leave the deallocs of the others. */
  lemma OtherDealloc(channels: seq<Channel>, slot: Slot, b: seq<Stmt>, other: Slot)
    ensures Dealloc(other) in WithAcquire(channels, slot, b) <==> Dealloc(other) in b
    ensures other != slot ==> (Dealloc(other) in WithRelease(channels, slot, b) <==> Dealloc(other) in b)
  {
    var k, j := PlaceFrom(b, Define(slot), 0), PlaceFrom(b, Dealloc(slot), 0);
    PlaceIsFirst(b, Dealloc(slot), 0);
    assert b == b[..k] + b[k..];
    if j < |b| {
      SplitAt(b, j);
    }
  }

  ghost predicate NoneTwice(slots: seq<Slot>) {
    forall i, j :: 0 <= i < j < |slots| ==> slots[i] != slots[j]
  }

  lemma {:induction false} LockedRestored(channels: seq<Channel>, slots: seq<Slot>, b: seq<Stmt>, freed: set<Slot>)
    requires NoneTwice(slots) && forall slot :: slot in slots ==> (Dealloc(slot) in b <==> slot in freed)
    ensures Restore(Locked(channels, slots, b), freed) == Restore(b, freed)
    decreases |slots|
  {
    if slots != [] {
      var n := |slots| - 1;
      var init, slot := slots[..n], slots[n];
      assert slots == init + [slot] && slot !in init;
      LockedRestored(channels, init, b, freed);
      var before := Locked(channels, init, b);
      AcquireRestored(channels, slot, before, freed);
      DeallocKept(channels, init, b, slot);
      OtherDealloc(channels, slot, before, slot);
      ReleaseRestored(channels, slot, WithAcquire(channels, slot, before), freed);
    }
  }

  lemma {:induction false} NothingToRestore(b: seq<Stmt>, freed: set<Slot>)
    requires forall x :: x in b ==> !x.Lock?
    ensures Restore(b, freed) == b
  {
    if b != [] {
      NothingToRestore(b[1..], freed);
      assert b == [b[0]] + b[1..];
    }
  }

  lemma SlotsOnce(channels: seq<Channel>)
    ensures NoneTwice(AllSlots(channels, |channels|))
    ensures forall slot :: slot in AllSlots(channels, |channels|) <==> IsSlot(channels, slot)
  {
    forall i: nat, j: nat | i < j < |AllSlots(channels, |channels|)|
      ensures AllSlots(channels, |channels|)[i] != AllSlots(channels, |channels|)[j]
    {
      AllSlotsDiffer(channels, |channels|, i, j);
    }
    forall slot
      ensures slot in AllSlots(channels, |channels|) <==> IsSlot(channels, slot)
    {
      AllSlotsAre(channels, |channels|, slot);
    }
  }

  /** Nothing of the block is lost or moved, and a release stands exactly where its dealloc was. */
  lemma {:induction false} LocksKeepBlock(channels: seq<Channel>, block: seq<Stmt>, freed: set<Slot>)
    requires forall x :: x in block ==> !x.Lock?
    requires forall slot :: IsSlot(channels, slot) ==> (Dealloc(slot) in block <==> slot in freed)
    ensures Restore(Locked(channels, AllSlots(channels, |channels|), block), freed) == block
  {
    SlotsOnce(channels);
    LockedRestored(channels, AllSlots(channels, |channels|), block, freed);
    NothingToRestore(block, freed);
  }

  /** The acquire stands directly in front of the first definition, or, where there is none, in front
      of everything but other locks. */
  ghost predicate AcquireAt(channels: seq<Channel>, b: seq<Stmt>, slot: Slot, i: nat) {
    && i < |b| && b[i] == Lock(AcquireOf(channels, slot))
    && if Define(slot) in b then i + 1 < |b| && b[i + 1] == Define(slot) && Define(slot) !in b[..i]
       else forall j :: 0 <= j < i ==> b[j].Lock?
  }

  /** The release of a buffer without dealloc stands behind everything but other locks. */
  ghost predicate ReleaseAt(channels: seq<Channel>, b: seq<Stmt>, slot: Slot, i: nat) {
    i < |b| && b[i] == Lock(ReleaseOf(channels, slot)) && forall j :: i < j < |b| ==> b[j].Lock?
  }

  function Insert(b: seq<Stmt>, k: nat, x: Stmt): seq<Stmt>
    requires k <= |b|
  {
    b[..k] + [x] + b[k..]
  }

  /** How the two locks of a buffer change the block. */
  lemma {:induction false} LockPlaces(channels: seq<Channel>, slot: Slot, b: seq<Stmt>) returns (k: nat, j: nat)
    ensures k <= |b| && if k < |b| && b[k] == Define(slot) then Define(slot) !in b[..k]
                        else k == 0 && Define(slot) !in b
    ensures WithAcquire(channels, slot, b) == Insert(b, k, Lock(AcquireOf(channels, slot)))
    ensures j <= |b| && (j < |b| ==> b[j] == Dealloc(slot)) && (j == |b| ==> Dealloc(slot) !in b)
    ensures WithRelease(channels, slot, b)
         == if j < |b| then b[j := Lock(ReleaseOf(channels, slot))] else Insert(b, j, Lock(ReleaseOf(channels, slot)))
  {
    k, j := PlaceFrom(b, Define(slot), 0), PlaceFrom(b, Dealloc(slot), 0);
    PlaceIsFirst(b, Define(slot), 0);
    PlaceIsFirst(b, Dealloc(slot), 0);
    assert b[0..|b|] == b;
    if k == |b| {
      k := 0;
    }
  }

  /** A lock put in anywhere but between an acquire and its definition. */
  lemma {:induction false} InsertKeeps(channels: seq<Channel>, b: seq<Stmt>, k: nat, op: CoreOp, slot: Slot, i: nat)
    requires k <= |b|
    ensures AcquireAt(channels, b, slot, i) && (k != i + 1 || Define(slot) !in b) ==>
      AcquireAt(channels, Insert(b, k, Lock(op)), slot, if k <= i then i + 1 else i)
    ensures ReleaseAt(channels, b, slot, i) ==>
      ReleaseAt(channels, Insert(b, k, Lock(op)), slot, if k <= i then i + 1 else i)
  {
    var r := Insert(b, k, Lock(op));
    assert forall x :: x in r <==> x in b || x == Lock(op);
    if k <= i <= |b| {
      assert r[..i + 1] == b[..k] + [Lock(op)] + b[k..i] && b[..i] == b[..k] + b[k..i];
    } else if i < k {
      assert r[..i] == b[..i];
    }
  }

  lemma {:induction false} ReplaceKeeps(channels: seq<Channel>, b: seq<Stmt>, k: nat, op: CoreOp, slot: Slot, i: nat)
    requires k < |b| && b[k].Dealloc?
    ensures AcquireAt(channels, b, slot, i) ==> AcquireAt(channels, b[k := Lock(op)], slot, i)
    ensures ReleaseAt(channels, b, slot, i) ==> ReleaseAt(channels, b[k := Lock(op)], slot, i)
  {
    var r := b[k := Lock(op)];
    SplitAt(b, k);
    assert r == b[..k] + [Lock(op)] + b[k + 1..];
    assert forall x :: x != Lock(op) && x != b[k] ==> (x in r <==> x in b);
    assert i <= |b| && Define(slot) !in b[..i] ==> Define(slot) !in r[..i];
  }

  ghost predicate HasAcquire(channels: seq<Channel>, b: seq<Stmt>, slot: Slot) {
    exists i :: AcquireAt(channels, b, slot, i)
  }

  ghost predicate HasRelease(channels: seq<Channel>, b: seq<Stmt>, slot: Slot) {
    exists i :: ReleaseAt(channels, b, slot, i)
  }

  /** Locks of one buffer leave those of another one where they have to be. */
  lemma {:induction false} OtherLocksStand(channels: seq<Channel>, slot: Slot, b: seq<Stmt>, other: Slot)
    requires slot != other
    ensures HasAcquire(channels, b, other) ==> HasAcquire(channels, WithAcquire(channels, slot, b), other)
    ensures HasRelease(channels, b, other) ==> HasRelease(channels, WithAcquire(channels, slot, b), other)
  {
    var k, j := LockPlaces(channels, slot, b);
    if i: nat :| AcquireAt(channels, b, other, i) {
      InsertKeeps(channels, b, k, AcquireOf(channels, slot), other, i);
    }
    if i: nat :| ReleaseAt(channels, b, other, i) {
      InsertKeeps(channels, b, k, AcquireOf(channels, slot), other, i);
    }
  }

  lemma {:induction false} ReleaseLeavesStanding(channels: seq<Channel>, slot: Slot, b: seq<Stmt>, other: Slot)
    ensures HasAcquire(channels, b, other) ==> HasAcquire(channels, WithRelease(channels, slot, b), other)
    ensures HasRelease(channels, b, other) ==> HasRelease(channels, WithRelease(channels, slot, b), other)
  {
    var k, j := LockPlaces(channels, slot, b);
    var op := ReleaseOf(channels, slot);
    if i: nat :| AcquireAt(channels, b, other, i) {
      if j < |b| {
        ReplaceKeeps(channels, b, j, op, other, i);
      } else {
        InsertKeeps(channels, b, j, op, other, i);
      }
    }
    if i: nat :| ReleaseAt(channels, b, other, i) {
      if j < |b| {
        ReplaceKeeps(channels, b, j, op, other, i);
      } else {
        InsertKeeps(channels, b, j, op, other, i);
      }
    }
  }

  lemma {:induction false} NewLocksStand(channels: seq<Channel>, slot: Slot, b: seq<Stmt>)
    ensures HasAcquire(channels, WithAcquire(channels, slot, b), slot)
    ensures Dealloc(slot) !in b ==> HasRelease(channels, WithRelease(channels, slot, b), slot)
  {
    var k, j := LockPlaces(channels, slot, b);
    assert AcquireAt(channels, WithAcquire(channels, slot, b), slot, k);
    assert Dealloc(slot) !in b ==> ReleaseAt(channels, WithRelease(channels, slot, b), slot, |b|);
  }

  /** Every buffer has its acquire and, if it is not freed in the block, its release where they have
      to be. */
  lemma {:induction false} LocksStand(channels: seq<Channel>, slots: seq<Slot>, b: seq<Stmt>, slot: Slot)
    requires NoneTwice(slots) && slot in slots
    ensures HasAcquire(channels, Locked(channels, slots, b), slot)
    ensures Dealloc(slot) !in b ==> HasRelease(channels, Locked(channels, slots, b), slot)
    decreases |slots|
  {
    var n := |slots| - 1;
    var init, last := slots[..n], slots[n];
    assert slots == init + [last] && last !in init;
    var before := Locked(channels, init, b);
    var acquired := WithAcquire(channels, last, before);
    if last == slot {
      NewLocksStand(channels, slot, before);
      NewLocksStand(channels, slot, acquired);
      DeallocKept(channels, init, b, slot);
      OtherDealloc(channels, slot, before, slot);
    } else {
      LocksStand(channels, init, b, slot);
      OtherLocksStand(channels, last, before, slot);
    }
    ReleaseLeavesStanding(channels, last, acquired, slot);
  }

  lemma {:induction false} DeallocKept(channels: seq<Channel>, slots: seq<Slot>, b: seq<Stmt>, other: Slot)
    requires other !in slots
    ensures Dealloc(other) in Locked(channels, slots, b) <==> Dealloc(other) in b
    decreases |slots|
  {
    if slots != [] {
      var n := |slots| - 1;
      DeallocKept(channels, slots[..n], b, other);
      var before := Locked(channels, slots[..n], b);
      OtherDealloc(channels, slots[n], before, other);
      OtherDealloc(channels, slots[n], WithAcquire(channels, slots[n], before), other);
    }
  }

  /** Where EmitCoreLocks puts the locks of any buffer. */
  lemma {:induction false} EmittedLocksStand(channels: seq<Channel>, block: seq<Stmt>, slot: Slot)
    requires IsSlot(channels, slot)
    ensures var b := Locked(channels, AllSlots(channels, |channels|), block);
      HasAcquire(channels, b, slot) && (Dealloc(slot) !in block ==> HasRelease(channels, b, slot))
  {
    SlotsOnce(channels);
    LocksStand(channels, AllSlots(channels, |channels|), block, slot);
  }

  // ---------- The emitted block is a script ----------

  /** The statements about one buffer. */
  function About(b: seq<Stmt>, slot: Slot): seq<Stmt> {
    if b == [] then [] else (if SlotOf(b[0]) == slot then [b[0]] else []) + About(b[1..], slot)
  }

  lemma {:induction false} AboutIn(b: seq<Stmt>, slot: Slot, x: Stmt)
    ensures x in About(b, slot) <==> x in b && SlotOf(x) == slot
  {
    if b != [] {
      AboutIn(b[1..], slot, x);
      assert b == [b[0]] + b[1..];
    }
  }

  lemma {:induction false} AboutConcat(a: seq<Stmt>, b: seq<Stmt>, slot: Slot)
    ensures About(a + b, slot) == About(a, slot) + About(b, slot)
  {
    if a == [] {
      assert a + b == b;
    } else {
      assert (a + b)[1..] == a[1..] + b;
      AboutConcat(a[1..], b, slot);
    }
  }

  lemma AboutOne(x: Stmt, slot: Slot)
    ensures About([x], slot) == if SlotOf(x) == slot then [x] else []
  {
    assert [x][1..] == [];
  }

  lemma AboutThree(a: seq<Stmt>, x: Stmt, b: seq<Stmt>, slot: Slot)
    ensures About(a + [x] + b, slot) == About(a, slot) + (if SlotOf(x) == slot then [x] else []) + About(b, slot)
  {
    AboutConcat(a + [x], b, slot);
    AboutConcat(a, [x], slot);
    AboutOne(x, slot);
  }

  lemma SplitAt(b: seq<Stmt>, k: nat)
    requires k < |b|
    ensures b == b[..k] + [b[k]] + b[k + 1..] && b == b[..k] + b[k..] && b[k..] == [b[k]] + b[k + 1..]
  {
  }

  /** A buffer with its definition, if there is one in the block, and its one use. */
  function ToUse(slot: Slot, defined: bool): seq<Stmt> {
    if defined then [Define(slot), Touch(slot)] else [Touch(slot)]
  }

  /** The core touches the buffer once, behind its definition and in front of its dealloc if
      there are any. */
  predicate Once(b: seq<Stmt>, slot: Slot, defined: bool, freed: bool) {
    About(b, slot) == ToUse(slot, defined) + if freed then [Dealloc(slot)] else []
  }

  predicate Acquired(channels: seq<Channel>, b: seq<Stmt>, slot: Slot, defined: bool, freed: bool) {
    About(b, slot) == [Lock(AcquireOf(channels, slot))] + (ToUse(slot, defined) + if freed then [Dealloc(slot)] else [])
  }

  predicate Guarded(channels: seq<Channel>, b: seq<Stmt>, slot: Slot, defined: bool) {
    About(b, slot) == [Lock(AcquireOf(channels, slot))] + ToUse(slot, defined) + [Lock(ReleaseOf(channels, slot))]
  }

  /** Locks of one buffer do not change what is said about another one. */
  lemma {:induction false} AcquireLeavesOthers(channels: seq<Channel>, slot: Slot, b: seq<Stmt>, other: Slot)
    requires other != slot
    ensures About(WithAcquire(channels, slot, b), other) == About(b, other)
  {
    var k, x := PlaceFrom(b, Define(slot), 0), Lock(AcquireOf(channels, slot));
    if k < |b| {
      AboutThree(b[..k], x, b[k..], other);
      AboutConcat(b[..k], b[k..], other);
      SplitAt(b, k);
    } else {
      AboutConcat([x], b, other);
      AboutOne(x, other);
    }
  }

  lemma {:induction false} ReleaseLeavesOthers(channels: seq<Channel>, slot: Slot, b: seq<Stmt>, other: Slot)
    requires other != slot
    ensures About(WithRelease(channels, slot, b), other) == About(b, other)
  {
    var k, x := PlaceFrom(b, Dealloc(slot), 0), Lock(ReleaseOf(channels, slot));
    PlaceIsFirst(b, Dealloc(slot), 0);
    if k < |b| {
      AboutThree(b[..k], x, b[k + 1..], other);
      AboutThree(b[..k], b[k], b[k + 1..], other);
      SplitAt(b, k);
    } else {
      AboutConcat(b, [x], other);
      AboutOne(x, other);
    }
  }

  /** A list that starts with x, cut in front of the first x. */
  lemma CutAtStart(p: seq<Stmt>, q: seq<Stmt>, x: Stmt, defined: bool, rest: seq<Stmt>)
    requires p + q == (if defined then [x] else []) + rest && x !in p && x !in rest && |q| > 0 && q[0] == x
    ensures p == []
  {
    assert (p + q)[|p|] == x;
  }

  lemma {:induction false} AcquireFirst(channels: seq<Channel>, slot: Slot, b: seq<Stmt>, defined: bool, freed: bool)
    requires Once(b, slot, defined, freed)
    ensures Acquired(channels, WithAcquire(channels, slot, b), slot, defined, freed)
  {
    var k, x := PlaceFrom(b, Define(slot), 0), Lock(AcquireOf(channels, slot));
    PlaceIsFirst(b, Define(slot), 0);
    if k < |b| {
      DefinedFirst(b, slot, k, defined, freed);
      AboutThree(b[..k], x, b[k..], slot);
      AboutConcat(b[..k], b[k..], slot);
      SplitAt(b, k);
    } else {
      AboutConcat([x], b, slot);
      AboutOne(x, slot);
    }
  }

  /** What is said about the buffer of statement k: what comes before it, and from it on. */
  lemma {:induction false} AboutSplit(b: seq<Stmt>, slot: Slot, k: nat)
    requires k < |b| && SlotOf(b[k]) == slot
    ensures About(b, slot) == About(b[..k], slot) + About(b[k..], slot)
    ensures |About(b[k..], slot)| > 0 && About(b[k..], slot)[0] == b[k]
  {
    SplitAt(b, k);
    AboutConcat(b[..k], b[k..], slot);
    AboutConcat([b[k]], b[k + 1..], slot);
    AboutOne(b[k], slot);
  }

  /** Nothing is said about the buffer before its definition. */
  lemma {:induction false} DefinedFirst(b: seq<Stmt>, slot: Slot, k: nat, defined: bool, freed: bool)
    requires Once(b, slot, defined, freed) && k < |b| && b[k] == Define(slot) && Define(slot) !in b[..k]
    ensures About(b[..k], slot) == []
  {
    AboutSplit(b, slot, k);
    AboutIn(b[..k], slot, Define(slot));
    var rest := [Touch(slot)] + if freed then [Dealloc(slot)] else [];
    assert About(b, slot) == (if defined then [Define(slot)] else []) + rest;
    CutAtStart(About(b[..k], slot), About(b[k..], slot), Define(slot), defined, rest);
  }

  lemma {:induction false} ReleaseLast(channels: seq<Channel>, slot: Slot, b: seq<Stmt>, defined: bool, freed: bool)
    requires Acquired(channels, b, slot, defined, freed)
    ensures Guarded(channels, WithRelease(channels, slot, b), slot, defined)
  {
    var k, x := PlaceFrom(b, Dealloc(slot), 0), Lock(ReleaseOf(channels, slot));
    PlaceIsFirst(b, Dealloc(slot), 0);
    var first := [Lock(AcquireOf(channels, slot))] + ToUse(slot, defined);
    assert About(b, slot) == first + if freed then [Dealloc(slot)] else [];
    if k < |b| {
      SplitAt(b, k);
      AboutThree(b[..k], b[k], b[k + 1..], slot);
      AboutThree(b[..k], x, b[k + 1..], slot);
      CutAtEnd(About(b[..k], slot), About(b[k + 1..], slot), Dealloc(slot), freed, first);
    } else {
      AboutConcat(b, [x], slot);
      AboutOne(x, slot);
      assert b[0..k] == b;
      AboutIn(b, slot, Dealloc(slot));
      NotFreed(About(b, slot), first, Dealloc(slot), freed);
    }
  }

  /** A list that ends with x, cut around x. */
  lemma CutAtEnd(p: seq<Stmt>, q: seq<Stmt>, x: Stmt, freed: bool, first: seq<Stmt>)
    requires p + [x] + q == first + (if freed then [x] else []) && x !in first
    ensures q == [] && p == first
  {
    var all := p + [x] + q;
    assert all[|p|] == x && all[..|p|] == p;
  }

  lemma NotFreed(all: seq<Stmt>, first: seq<Stmt>, x: Stmt, freed: bool)
    requires all == first + (if freed then [x] else []) && x !in all
    ensures all == first
  {
  }

  /** Every buffer of the channels is touched once in the block, and nothing else is there. */
  ghost predicate IsBlock(channels: seq<Channel>, b: seq<Stmt>) {
    && AllOnSlots(channels, b)
    && (forall slot :: IsSlot(channels, slot) ==> exists defined, freed :: Once(b, slot, defined, freed))
  }

  predicate AllOnSlots(channels: seq<Channel>, b: seq<Stmt>) {
    forall i :: 0 <= i < |b| ==> IsSlot(channels, SlotOf(b[i]))
  }

  lemma {:induction false} LockedAbout(channels: seq<Channel>, slots: seq<Slot>, b: seq<Stmt>, slot: Slot,
                                       defined: bool, freed: bool)
    requires Once(b, slot, defined, freed)
    requires NoneTwice(slots)
    ensures slot in slots ==> Guarded(channels, Locked(channels, slots, b), slot, defined)
    ensures slot !in slots ==> About(Locked(channels, slots, b), slot) == About(b, slot)
    decreases |slots|
  {
    if slots != [] {
      var n := |slots| - 1;
      var init, last := slots[..n], slots[n];
      assert slots == init + [last];
      LockedAbout(channels, init, b, slot, defined, freed);
      var before := Locked(channels, init, b);
      if last == slot {
        AcquireFirst(channels, slot, before, defined, freed);
        ReleaseLast(channels, slot, WithAcquire(channels, slot, before), defined, freed);
      } else {
        AcquireLeavesOthers(channels, last, before, slot);
        ReleaseLeavesOthers(channels, last, WithAcquire(channels, last, before), slot);
      }
    }
  }

  /** What the core performs of a statement: lock operations and uses. */
  function OpsOf(x: Stmt): seq<CoreOp> {
    match x
    case Touch(slot) => [Use(slot)]
    case Lock(op) => [op]
    case Define(_) => []
    case Dealloc(_) => []
  }

  function ScriptOf(b: seq<Stmt>): seq<CoreOp> {
    if b == [] then [] else OpsOf(b[0]) + ScriptOf(b[1..])
  }

  /** The operations on one buffer. */
  function OpsOn(script: seq<CoreOp>, slot: Slot): seq<CoreOp> {
    if script == [] then [] else (if script[0].slot == slot then [script[0]] else []) + OpsOn(script[1..], slot)
  }

  lemma {:induction false} OpsOnIn(script: seq<CoreOp>, slot: Slot, op: CoreOp)
    ensures op in OpsOn(script, slot) <==> op in script && op.slot == slot
  {
    if script != [] {
      OpsOnIn(script[1..], slot, op);
      assert script == [script[0]] + script[1..];
    }
  }

  lemma {:induction false} OpsOnConcat(a: seq<CoreOp>, b: seq<CoreOp>, slot: Slot)
    ensures OpsOn(a + b, slot) == OpsOn(a, slot) + OpsOn(b, slot)
  {
    if a == [] {
      assert a + b == b;
    } else {
      assert (a + b)[1..] == a[1..] + b;
      OpsOnConcat(a[1..], b, slot);
    }
  }

  lemma OpsOfOn(x: Stmt, slot: Slot)
    ensures OpsOn(OpsOf(x), slot) == if SlotOf(x) == slot then OpsOf(x) else []
  {
    if OpsOf(x) != [] {
      assert OpsOf(x)[1..] == [];
    }
  }

  lemma ScriptCons(x: Stmt, b: seq<Stmt>)
    ensures ScriptOf([x] + b) == OpsOf(x) + ScriptOf(b)
  {
    assert ([x] + b)[1..] == b;
  }

  /** The core's operations on a buffer come from the statements about it. */
  lemma {:induction false} ScriptAbout(b: seq<Stmt>, slot: Slot)
    ensures OpsOn(ScriptOf(b), slot) == ScriptOf(About(b, slot))
  {
    if b != [] {
      ScriptAbout(b[1..], slot);
      OpsOnConcat(OpsOf(b[0]), ScriptOf(b[1..]), slot);
      OpsOfOn(b[0], slot);
      if SlotOf(b[0]) == slot {
        ScriptCons(b[0], About(b[1..], slot));
      } else {
        assert About(b, slot) == About(b[1..], slot);
      }
    }
  }

  lemma {:induction false} GuardedScript(channels: seq<Channel>, b: seq<Stmt>, slot: Slot, defined: bool)
    requires Guarded(channels, b, slot, defined)
    ensures OpsOn(ScriptOf(b), slot) == [AcquireOf(channels, slot), Use(slot), ReleaseOf(channels, slot)]
  {
    ScriptAbout(b, slot);
    var x, y, z := Lock(AcquireOf(channels, slot)), Touch(slot), Lock(ReleaseOf(channels, slot));
    ScriptCons(z, []);
    ScriptCons(y, [z]);
    ScriptCons(Define(slot), [y, z]);
    ScriptCons(x, [y, z]);
    ScriptCons(x, [Define(slot), y, z]);
    assert [z] + [] == [z] && [y] + [z] == [y, z] && [Define(slot)] + [y, z] == [Define(slot), y, z];
    assert About(b, slot) == [x] + if defined then [Define(slot), y, z] else [y, z];
  }

  /** Acquire, use and release of each buffer once and in this order make a script. */
  lemma {:induction false} InTurnIsScript(channels: seq<Channel>, script: seq<CoreOp>)
    requires forall i :: 0 <= i < |script| ==> IsSlot(channels, script[i].slot)
    requires forall slot :: IsSlot(channels, slot) ==>
      OpsOn(script, slot) == [AcquireOf(channels, slot), Use(slot), ReleaseOf(channels, slot)]
    ensures IsScript(channels, script)
  {
    forall i: nat | i < |script|
      ensures OpOk(channels, script, i)
    {
      TurnOf(channels, script, i);
    }
    forall slot | IsSlot(channels, slot)
      ensures ReleaseOf(channels, slot) in script
    {
      OpsOnIn(script, slot, ReleaseOf(channels, slot));
      assert OpsOn(script, slot)[2] == ReleaseOf(channels, slot);
    }
  }

  /** What is on a buffer before and after its operation at i. */
  lemma {:induction false} OpsAround(script: seq<CoreOp>, i: nat)
    requires i < |script|
    ensures var slot := script[i].slot;
      OpsOn(script, slot) == OpsOn(script[..i], slot) + [script[i]] + OpsOn(script[i + 1..], slot)
  {
    var op := script[i];
    OpsOnConcat(script[..i], [op], op.slot);
    OpsOnConcat(script[..i] + [op], script[i + 1..], op.slot);
    assert script[..i] + [op] + script[i + 1..] == script;
    assert [op][1..] == [];
  }

  lemma {:induction false} TurnOf(channels: seq<Channel>, script: seq<CoreOp>, i: nat)
    requires i < |script| && IsSlot(channels, script[i].slot)
    requires OpsOn(script, script[i].slot)
      == [AcquireOf(channels, script[i].slot), Use(script[i].slot), ReleaseOf(channels, script[i].slot)]
    ensures OpOk(channels, script, i)
  {
    var op := script[i];
    OpsAround(script, i);
    OpsOnIn(script[..i], op.slot, op);
    OpsOnIn(script[..i], op.slot, AcquireOf(channels, op.slot));
    OpsOnIn(script[..i], op.slot, Use(op.slot));
    InTurn(OpsOn(script[..i], op.slot), op, OpsOn(script[i + 1..], op.slot),
           AcquireOf(channels, op.slot), Use(op.slot), ReleaseOf(channels, op.slot));
  }

  /** One of three different operations, with those before it in front. */
  lemma InTurn(before: seq<CoreOp>, op: CoreOp, after: seq<CoreOp>, x: CoreOp, y: CoreOp, z: CoreOp)
    requires before + [op] + after == [x, y, z] && x != y && y != z && x != z
    ensures op !in before && (op == x || op == y || op == z)
    ensures (op == y ==> x in before) && (op == z ==> y in before)
  {
    var all := before + [op] + after;
    assert op == all[|before|] && before == all[..|before|];
    if op == y {
      assert before[0] == x;
    } else if op == z {
      assert before[1] == y;
    }
  }

  lemma {:induction false} ScriptSlots(channels: seq<Channel>, b: seq<Stmt>)
    requires AllOnSlots(channels, b)
    ensures forall i :: 0 <= i < |ScriptOf(b)| ==> IsSlot(channels, ScriptOf(b)[i].slot)
  {
    if b != [] {
      ScriptSlots(channels, b[1..]);
      assert forall i :: 0 <= i < |OpsOf(b[0])| ==> OpsOf(b[0])[i].slot == SlotOf(b[0]);
    }
  }

  lemma {:induction false} LockedSlots(channels: seq<Channel>, slots: seq<Slot>, b: seq<Stmt>)
    requires AllOnSlots(channels, b) && forall i :: 0 <= i < |slots| ==> IsSlot(channels, slots[i])
    ensures AllOnSlots(channels, Locked(channels, slots, b))
    decreases |slots|
  {
    if slots != [] {
      var n := |slots| - 1;
      var before := Locked(channels, slots[..n], b);
      LockedSlots(channels, slots[..n], b);
      AcquireSlots(channels, slots[n], before);
      ReleaseSlots(channels, slots[n], WithAcquire(channels, slots[n], before));
    }
  }

  lemma AcquireSlots(channels: seq<Channel>, slot: Slot, b: seq<Stmt>)
    requires AllOnSlots(channels, b) && IsSlot(channels, slot)
    ensures AllOnSlots(channels, WithAcquire(channels, slot, b))
  {
  }

  lemma ReleaseSlots(channels: seq<Channel>, slot: Slot, b: seq<Stmt>)
    requires AllOnSlots(channels, b) && IsSlot(channels, slot)
    ensures AllOnSlots(channels, WithRelease(channels, slot, b))
  {
  }

  /** Whatever block the locks are put into, with buffers defined and freed anywhere around
      their one use: what comes out is a script of the core. */
  lemma {:induction false} EmittedIsScript(channels: seq<Channel>, block: seq<Stmt>)
    requires IsBlock(channels, block)
    ensures IsScript(channels, ScriptOf(Locked(channels, AllSlots(channels, |channels|), block)))
  {
    var slots := AllSlots(channels, |channels|);
    var b := Locked(channels, slots, block);
    SlotsOnce(channels);
    LockedSlots(channels, slots, block);
    ScriptSlots(channels, b);
    forall slot | IsSlot(channels, slot)
      ensures OpsOn(ScriptOf(b), slot) == [AcquireOf(channels, slot), Use(slot), ReleaseOf(channels, slot)]
    {
      var defined, freed :| Once(block, slot, defined, freed);
      LockedAbout(channels, slots, block, slot, defined, freed);
      GuardedScript(channels, b, slot, defined);
    }
    InTurnIsScript(channels, ScriptOf(b));
  }
}
