/** A core and the DMA engines of its tile, in every interleaving of their steps. The core
    runs its block again and again, the engines go round their descriptor chains. */
module TileDmaMachine {
  import opened Arithmetic
  import opened TileDmaLocks

  /** What one transfer moves. */
  type Data = seq<int>

  /** streams[c] is what comes in on channel c; kernel gives what the core puts into a buffer,
      from all that it has read so far. The environment serves `blocks` blocks. */
  datatype Tile = Tile(channels: seq<Channel>, script: seq<CoreOp>, streams: seq<nat -> Data>,
                       kernel: (Slot, seq<Data>) -> Data, blocks: nat)

  /** The core: which block, before which operation of it, and what it has read. */
  datatype Core = Core(block: nat, pos: nat, seen: seq<Data>)

  /** An engine: how often round its chain, at which descriptor, before which part of it, how
      many items it has taken from its stream and what it has sent. */
  datatype Engine = Engine(round: nat, bd: nat, sub: nat, taken: nat, sent: seq<Data>)

  datatype Cell = Cell(value: nat, held: bool, buffer: Data)

  datatype State = State(core: Core, engines: seq<Engine>, cells: map<Slot, Cell>)

  ghost predicate IsTile(t: Tile) {
    && |t.channels| > 0 && |t.streams| == |t.channels|
    && (forall c :: 0 <= c < |t.channels| ==> t.channels[c].buffers > 0)
    && IsScript(t.channels, t.script) && |t.script| > 0
  }

  predicate IsCore(t: Tile, core: Core) {
    core.pos < |t.script| && core.block <= t.blocks && (core.block == t.blocks ==> core.pos == 0)
  }

  predicate IsEngine(t: Tile, c: nat, e: Engine)
    requires c < |t.channels|
  {
    && e.bd < t.channels[c].buffers && e.sub < 3
    && e.round <= t.blocks && (e.round == t.blocks ==> e.bd == 0 && e.sub == 0)
  }

  ghost predicate IsState(t: Tile, s: State) {
    && IsTile(t) && IsCore(t, s.core) && |s.engines| == |t.channels|
    && (forall c :: 0 <= c < |t.channels| ==> IsEngine(t, c, s.engines[c]))
    && (forall slot :: IsSlot(t.channels, slot) ==> slot in s.cells)
  }

  predicate Free(cell: Cell, value: nat) {
    !cell.held && cell.value == value
  }

  // ---------- The core ----------

  function CoreMoved(t: Tile, core: Core, buffer: Data): (r: Core)
    requires IsCore(t, core) && core.block < t.blocks
    ensures IsCore(t, r)
  {
    var op := t.script[core.pos];
    var seen := if op.Use? && ToCore(t.channels, op.slot) then core.seen + [buffer] else core.seen;
    if core.pos + 1 < |t.script| then Core(core.block, core.pos + 1, seen) else Core(core.block + 1, 0, seen)
  }

  function CoreEffect(t: Tile, core: Core, cell: Cell): Cell
    requires IsCore(t, core)
  {
    match t.script[core.pos]
    case Acquire(_, _) => cell.(held := true)
    case Use(slot) => if ToCore(t.channels, slot) then cell else cell.(buffer := t.kernel(slot, core.seen))
    case Release(_, value) => cell.(held := false, value := value)
  }

  predicate CoreReady(t: Tile, core: Core, cell: Cell)
    requires IsCore(t, core)
  {
    core.block < t.blocks && (t.script[core.pos].Acquire? ==> Free(cell, t.script[core.pos].value))
  }

  // ---------- An engine ----------

  function Descriptor(t: Tile, c: nat, e: Engine): Bd
    requires c < |t.channels| && IsEngine(t, c, e)
  {
    BdOf(t.channels[c], Slot(c, e.bd))
  }

  function EngineMoved(t: Tile, c: nat, e: Engine, buffer: Data): (r: Engine)
    requires c < |t.channels| && IsEngine(t, c, e) && e.round < t.blocks
    ensures IsEngine(t, c, r)
  {
    if e.sub == 0 then e.(sub := 1)
    else if e.sub == 1 then
      e.(sub := 2, taken := e.taken + 1, sent := if t.channels[c].toCore then e.sent else e.sent + [buffer])
    else
      var next := Descriptor(t, c, e).next;
      e.(sub := 0, bd := next, round := if next == 0 then e.round + 1 else e.round)
  }

  function EngineEffect(t: Tile, c: nat, e: Engine, cell: Cell): Cell
    requires c < |t.channels| == |t.streams| && IsEngine(t, c, e)
  {
    if e.sub == 0 then cell.(held := true)
    else if e.sub == 1 then (if t.channels[c].toCore then cell.(buffer := t.streams[c](e.taken)) else cell)
    else cell.(held := false, value := Descriptor(t, c, e).release)
  }

  predicate EngineReady(t: Tile, c: nat, e: Engine, cell: Cell)
    requires c < |t.channels| && IsEngine(t, c, e)
  {
    e.round < t.blocks && (e.sub == 0 ==> Free(cell, Descriptor(t, c, e).acquire))
  }

  // ---------- Steps and runs ----------

  datatype Actor = TheCore | TheEngine(c: nat)

  /** The buffer that an actor is at. */
  function At(t: Tile, s: State, actor: Actor): Slot
    requires IsCore(t, s.core)
  {
    match actor
    case TheCore => t.script[s.core.pos].slot
    case TheEngine(c) => Slot(c, if c < |s.engines| then s.engines[c].bd else 0)
  }

  lemma AtIsSlot(t: Tile, s: State, actor: Actor)
    requires IsState(t, s)
    ensures actor.TheCore? || actor.c < |t.channels| ==>
      IsSlot(t.channels, At(t, s, actor)) && At(t, s, actor) in s.cells
  {
    assert OpOk(t.channels, t.script, s.core.pos);
  }

  ghost predicate Enabled(t: Tile, s: State, actor: Actor)
    requires IsState(t, s)
  {
    AtIsSlot(t, s, actor);
    match actor
    case TheCore => CoreReady(t, s.core, s.cells[At(t, s, actor)])
    case TheEngine(c) => c < |t.channels| && EngineReady(t, c, s.engines[c], s.cells[At(t, s, actor)])
  }

  ghost function Step(t: Tile, s: State, actor: Actor): (r: State)
    requires IsState(t, s) && Enabled(t, s, actor)
    ensures IsState(t, r)
  {
    AtIsSlot(t, s, actor);
    var slot := At(t, s, actor);
    var cell := s.cells[slot];
    match actor
    case TheCore =>
      s.(core := CoreMoved(t, s.core, cell.buffer), cells := s.cells[slot := CoreEffect(t, s.core, cell)])
    case TheEngine(c) =>
      s.(engines := s.engines[c := EngineMoved(t, c, s.engines[c], cell.buffer)],
         cells := s.cells[slot := EngineEffect(t, c, s.engines[c], cell)])
  }

  /** All at their beginnings, all locks 0, anything in the buffers. */
  ghost predicate IsStart(t: Tile, s: State) {
    && IsState(t, s) && s.core == Core(0, 0, [])
    && (forall c :: 0 <= c < |t.channels| ==> s.engines[c] == Engine(0, 0, 0, 0, []))
    && (forall slot :: IsSlot(t.channels, slot) ==> Free(s.cells[slot], 0))
  }

  ghost predicate IsRun(t: Tile, schedule: seq<Actor>, s: State) {
    if schedule == [] then IsStart(t, s)
    else exists u: State ::
      IsRun(t, schedule[..|schedule| - 1], u) && IsState(t, u)
      && Enabled(t, u, schedule[|schedule| - 1]) && s == Step(t, u, schedule[|schedule| - 1])
  }

  // ---------- The locks ----------

  /** How many blocks of a buffer the core has finished. */
  function CoreDone(t: Tile, core: Core, slot: Slot): nat
    requires core.pos <= |t.script|
  {
    core.block + if Done(t.script, core.pos, ReleaseOf(t.channels, slot)) then 1 else 0
  }

  predicate CoreHolds(t: Tile, core: Core, slot: Slot)
    requires core.pos <= |t.script|
  {
    Done(t.script, core.pos, AcquireOf(t.channels, slot)) && !Done(t.script, core.pos, ReleaseOf(t.channels, slot))
  }

  predicate CoreUsed(t: Tile, core: Core, slot: Slot)
    requires core.pos <= |t.script|
  {
    Done(t.script, core.pos, Use(slot)) && !Done(t.script, core.pos, ReleaseOf(t.channels, slot))
  }

  /** How many transfers of a buffer the engine has finished. */
  function EngineDone(e: Engine, buffer: nat): nat {
    e.round + if buffer < e.bd then 1 else 0
  }

  predicate EngineHolds(e: Engine, buffer: nat) {
    e.bd == buffer && e.sub > 0
  }

  /** The side that fills the buffer is as far as the side that empties it or one ahead, and
      the lock says which; it is held by the side that is inside. */
  predicate LockOk(toCore: bool, engineDone: nat, coreDone: nat, engineHolds: bool, coreHolds: bool, cell: Cell) {
    && (cell.held <==> engineHolds || coreHolds)
    && if toCore then
         && coreDone <= engineDone <= coreDone + 1 && cell.value == engineDone - coreDone
         && (engineHolds ==> engineDone == coreDone) && (coreHolds ==> engineDone == coreDone + 1)
       else
         && engineDone <= coreDone <= engineDone + 1 && cell.value == coreDone - engineDone
         && (coreHolds ==> coreDone == engineDone) && (engineHolds ==> coreDone == engineDone + 1)
  }

  ghost predicate SlotControl(t: Tile, slot: Slot, core: Core, e: Engine, cell: Cell)
    requires core.pos <= |t.script|
  {
    LockOk(ToCore(t.channels, slot), EngineDone(e, slot.buffer), CoreDone(t, core, slot),
           EngineHolds(e, slot.buffer), CoreHolds(t, core, slot), cell)
  }

  ghost predicate Control(t: Tile, s: State) {
    && IsState(t, s)
    && forall slot :: IsSlot(t.channels, slot) ==>
         SlotControl(t, slot, s.core, s.engines[slot.channel], s.cells[slot])
  }

  lemma DoneStep(script: seq<CoreOp>, pos: nat, op: CoreOp)
    requires pos < |script|
    ensures Done(script, pos + 1, op) <==> Done(script, pos, op) || script[pos] == op
  {
    assert script[..pos + 1] == script[..pos] + [script[pos]];
  }

  lemma InOrder(t: Tile, pos: nat, slot: Slot)
    requires IsScript(t.channels, t.script) && pos <= |t.script|
    ensures Done(t.script, pos, Use(slot)) ==> Done(t.script, pos, AcquireOf(t.channels, slot))
    ensures Done(t.script, pos, ReleaseOf(t.channels, slot)) ==> Done(t.script, pos, Use(slot))
  {
    if Done(t.script, pos, Use(slot)) {
      var i :| 0 <= i < pos && t.script[i] == Use(slot);
      assert OpOk(t.channels, t.script, i);
    }
    if Done(t.script, pos, ReleaseOf(t.channels, slot)) {
      var i :| 0 <= i < pos && t.script[i] == ReleaseOf(t.channels, slot);
      assert OpOk(t.channels, t.script, i);
    }
  }

  /** Once the whole block is done, so are all its acquires, uses and releases. */
  lemma AllInBlock(t: Tile, slot: Slot)
    requires IsScript(t.channels, t.script) && IsSlot(t.channels, slot)
    ensures var n := |t.script|;
      && Done(t.script, n, AcquireOf(t.channels, slot)) && Done(t.script, n, Use(slot))
      && Done(t.script, n, ReleaseOf(t.channels, slot))
  {
    assert t.script[..|t.script|] == t.script;
    InOrder(t, |t.script|, slot);
  }

  /** What one operation of the core changes for one buffer. */
  lemma CoreAdvance(t: Tile, core: Core, buffer: Data, slot: Slot)
    requires IsTile(t) && IsCore(t, core) && core.block < t.blocks && IsSlot(t.channels, slot)
    ensures var op, r := t.script[core.pos], CoreMoved(t, core, buffer);
      && CoreDone(t, r, slot) == CoreDone(t, core, slot) + (if op == ReleaseOf(t.channels, slot) then 1 else 0)
      && (CoreHolds(t, r, slot) <==>
          op == AcquireOf(t.channels, slot) || (CoreHolds(t, core, slot) && op != ReleaseOf(t.channels, slot)))
      && (CoreUsed(t, r, slot) <==> op == Use(slot) || (CoreUsed(t, core, slot) && op != ReleaseOf(t.channels, slot)))
  {
    if t.script[core.pos].slot == slot {
      CoreInside(t, core, slot);
    }
    DoneStep(t.script, core.pos, AcquireOf(t.channels, slot));
    DoneStep(t.script, core.pos, Use(slot));
    DoneStep(t.script, core.pos, ReleaseOf(t.channels, slot));
    AllInBlock(t, slot);
  }

  /** The core uses and releases what it holds, and acquires what it does not. */
  lemma CoreInside(t: Tile, core: Core, slot: Slot)
    requires IsTile(t) && IsCore(t, core) && t.script[core.pos].slot == slot
    ensures IsSlot(t.channels, slot) && CoreDone(t, core, slot) == core.block
    ensures match t.script[core.pos]
      case Acquire(_, v) =>
        v == AcquireOf(t.channels, slot).value && !CoreHolds(t, core, slot) && !CoreUsed(t, core, slot)
      case Use(_) => CoreHolds(t, core, slot) && !CoreUsed(t, core, slot)
      case Release(_, v) =>
        v == ReleaseOf(t.channels, slot).value && CoreHolds(t, core, slot) && CoreUsed(t, core, slot)
  {
    assert OpOk(t.channels, t.script, core.pos);
    InOrder(t, core.pos, slot);
  }

  /** The core's next operation keeps the lock of any buffer right. */
  lemma CoreControl(t: Tile, slot: Slot, core: Core, e: Engine, cell: Cell, buffer: Data)
    requires IsTile(t) && IsCore(t, core) && core.block < t.blocks && IsSlot(t.channels, slot)
    requires SlotControl(t, slot, core, e, cell)
    requires t.script[core.pos].slot == slot ==> CoreReady(t, core, cell)
    ensures SlotControl(t, slot, CoreMoved(t, core, buffer), e,
                        if t.script[core.pos].slot == slot then CoreEffect(t, core, cell) else cell)
  {
    CoreAdvance(t, core, buffer, slot);
    if t.script[core.pos].slot == slot {
      CoreInside(t, core, slot);
    }
  }

  /** And so does the next part of a descriptor. */
  lemma EngineControl(t: Tile, slot: Slot, core: Core, e: Engine, cell: Cell, buffer: Data)
    requires IsTile(t) && IsCore(t, core) && IsSlot(t.channels, slot) && IsEngine(t, slot.channel, e)
    requires e.round < t.blocks && SlotControl(t, slot, core, e, cell)
    requires e.bd == slot.buffer ==> EngineReady(t, slot.channel, e, cell)
    ensures SlotControl(t, slot, core, EngineMoved(t, slot.channel, e, buffer),
                        if e.bd == slot.buffer then EngineEffect(t, slot.channel, e, cell) else cell)
  {
  }

  // ---------- The data ----------

  /** The item that buffer `slot` gets for block k. */
  function Item(t: Tile, slot: Slot, k: nat): Data
    requires IsSlot(t.channels, slot) && |t.streams| == |t.channels|
  {
    t.streams[slot.channel](k * t.channels[slot.channel].buffers + slot.buffer)
  }

  /** What the core has read before operation `pos` of block k, when it reads in block j of
      each buffer the item that the stream has for block j. */
  ghost function History(t: Tile, k: nat, pos: nat): seq<Data>
    requires IsTile(t) && pos <= |t.script|
    decreases k, pos
  {
    if pos > 0 then
      var op := t.script[pos - 1];
      assert OpOk(t.channels, t.script, pos - 1);
      History(t, k, pos - 1) + if op.Use? && ToCore(t.channels, op.slot) then [Item(t, op.slot, k)] else []
    else if k > 0 then History(t, k - 1, |t.script|) else []
  }

  /** The place of a buffer's use in the script. */
  ghost function UseAt(t: Tile, slot: Slot): (i: nat)
    ensures i <= |t.script|
    ensures Use(slot) in t.script ==> i < |t.script| && t.script[i] == Use(slot)
  {
    if Use(slot) in t.script then var i :| 0 <= i < |t.script| && t.script[i] == Use(slot); i else 0
  }

  lemma UseOnce(t: Tile, slot: Slot, pos: nat)
    requires IsTile(t) && pos < |t.script| && t.script[pos] == Use(slot)
    ensures UseAt(t, slot) == pos
  {
    var i := UseAt(t, slot);
    assert OpOk(t.channels, t.script, i) && OpOk(t.channels, t.script, pos);
  }

  /** What the core puts into a buffer in block k. */
  ghost function Written(t: Tile, slot: Slot, k: nat): Data
    requires IsTile(t)
  {
    t.kernel(slot, History(t, k, UseAt(t, slot)))
  }

  /** What channel c sends in its first k rounds and of the first b buffers after that. */
  ghost function Sent(t: Tile, c: nat, k: nat, b: nat): seq<Data>
    requires IsTile(t) && c < |t.channels|
    decreases k, b
  {
    if b > 0 then Sent(t, c, k, b - 1) + [Written(t, Slot(c, b - 1), k)]
    else if k > 0 then Sent(t, c, k - 1, t.channels[c].buffers) else []
  }

  /** A full buffer holds the item, or what the core made, of the right block. */
  ghost predicate BufferOk(t: Tile, slot: Slot, core: Core, e: Engine, buffer: Data)
    requires IsTile(t) && core.pos <= |t.script| && IsSlot(t.channels, slot)
  {
    var engineDone, coreDone := EngineDone(e, slot.buffer), CoreDone(t, core, slot);
    if ToCore(t.channels, slot) then
      && (engineDone > coreDone ==> buffer == Item(t, slot, coreDone))
      && (e.bd == slot.buffer && e.sub == 2 ==> buffer == Item(t, slot, engineDone))
    else
      && (coreDone > engineDone ==> buffer == Written(t, slot, engineDone))
      && (CoreUsed(t, core, slot) ==> buffer == Written(t, slot, coreDone))
  }

  ghost predicate EngineOk(t: Tile, c: nat, e: Engine)
    requires IsTile(t) && c < |t.channels|
  {
    var moved := e.bd + if e.sub == 2 then 1 else 0;
    && e.taken == e.round * t.channels[c].buffers + moved
    && (!t.channels[c].toCore ==> e.sent == Sent(t, c, e.round, moved))
  }

  ghost predicate Inv(t: Tile, s: State) {
    && Control(t, s)
    && s.core.seen == History(t, s.core.block, s.core.pos)
    && (forall c :: 0 <= c < |t.channels| ==> EngineOk(t, c, s.engines[c]))
    && (forall slot :: IsSlot(t.channels, slot) ==>
          BufferOk(t, slot, s.core, s.engines[slot.channel], s.cells[slot].buffer))
  }

  lemma CoreReads(t: Tile, core: Core, e: Engine, cell: Cell)
    requires IsTile(t) && IsCore(t, core) && core.block < t.blocks
    requires IsSlot(t.channels, t.script[core.pos].slot)
    requires SlotControl(t, t.script[core.pos].slot, core, e, cell)
    requires BufferOk(t, t.script[core.pos].slot, core, e, cell.buffer)
    requires core.seen == History(t, core.block, core.pos)
    ensures CoreMoved(t, core, cell.buffer).seen ==
            History(t, CoreMoved(t, core, cell.buffer).block, CoreMoved(t, core, cell.buffer).pos)
  {
    var slot := t.script[core.pos].slot;
    CoreInside(t, core, slot);
    assert History(t, core.block, core.pos + 1) == CoreMoved(t, core, cell.buffer).seen;
  }

  lemma CoreBuffer(t: Tile, slot: Slot, core: Core, e: Engine, cell: Cell, buffer: Data)
    requires IsTile(t) && IsCore(t, core) && core.block < t.blocks && IsSlot(t.channels, slot)
    requires SlotControl(t, slot, core, e, cell) && BufferOk(t, slot, core, e, cell.buffer)
    requires core.seen == History(t, core.block, core.pos)
    ensures BufferOk(t, slot, CoreMoved(t, core, buffer), e,
                     (if t.script[core.pos].slot == slot then CoreEffect(t, core, cell) else cell).buffer)
  {
    CoreAdvance(t, core, buffer, slot);
    if t.script[core.pos].slot == slot {
      CoreInside(t, core, slot);
      if t.script[core.pos].Use? {
        UseOnce(t, slot, core.pos);
      }
    }
  }

  lemma EngineBuffer(t: Tile, slot: Slot, core: Core, e: Engine, cell: Cell, buffer: Data)
    requires IsTile(t) && IsCore(t, core) && IsSlot(t.channels, slot) && IsEngine(t, slot.channel, e)
    requires e.round < t.blocks && SlotControl(t, slot, core, e, cell)
    requires BufferOk(t, slot, core, e, cell.buffer) && EngineOk(t, slot.channel, e)
    ensures BufferOk(t, slot, core, EngineMoved(t, slot.channel, e, buffer),
                     (if e.bd == slot.buffer then EngineEffect(t, slot.channel, e, cell) else cell).buffer)
  {
  }

  lemma EngineSends(t: Tile, c: nat, core: Core, e: Engine, cell: Cell)
    requires IsTile(t) && IsCore(t, core) && c < |t.channels| && IsEngine(t, c, e) && e.round < t.blocks
    requires EngineOk(t, c, e) && SlotControl(t, Slot(c, e.bd), core, e, cell)
    requires BufferOk(t, Slot(c, e.bd), core, e, cell.buffer)
    ensures EngineOk(t, c, EngineMoved(t, c, e, cell.buffer))
  {
    var m := t.channels[c].buffers;
    assert (e.round + 1) * m == e.round * m + m;
  }

  // ---------- Every step ----------

  lemma StepKeepsControl(t: Tile, s: State, actor: Actor)
    requires Control(t, s) && Enabled(t, s, actor)
    ensures Control(t, Step(t, s, actor))
  {
    AtIsSlot(t, s, actor);
    var buffer := s.cells[At(t, s, actor)].buffer;
    forall slot | IsSlot(t.channels, slot)
      ensures SlotControl(t, slot, Step(t, s, actor).core, Step(t, s, actor).engines[slot.channel],
                          Step(t, s, actor).cells[slot])
    {
      assert SlotControl(t, slot, s.core, s.engines[slot.channel], s.cells[slot]);
      if actor.TheCore? {
        CoreControl(t, slot, s.core, s.engines[slot.channel], s.cells[slot], buffer);
      } else if actor.c == slot.channel {
        EngineControl(t, slot, s.core, s.engines[slot.channel], s.cells[slot], buffer);
      }
    }
  }

  lemma CoreKeepsInv(t: Tile, s: State)
    requires Inv(t, s) && Enabled(t, s, TheCore)
    ensures Inv(t, Step(t, s, TheCore))
  {
    StepKeepsControl(t, s, TheCore);
    AtIsSlot(t, s, TheCore);
    var at := At(t, s, TheCore);
    var buffer := s.cells[at].buffer;
    assert SlotControl(t, at, s.core, s.engines[at.channel], s.cells[at]);
    CoreReads(t, s.core, s.engines[at.channel], s.cells[at]);
    forall slot | IsSlot(t.channels, slot)
      ensures BufferOk(t, slot, Step(t, s, TheCore).core, Step(t, s, TheCore).engines[slot.channel],
                       Step(t, s, TheCore).cells[slot].buffer)
    {
      assert SlotControl(t, slot, s.core, s.engines[slot.channel], s.cells[slot]);
      CoreBuffer(t, slot, s.core, s.engines[slot.channel], s.cells[slot], buffer);
    }
  }

  lemma EngineKeepsInv(t: Tile, s: State, c: nat)
    requires Inv(t, s) && Enabled(t, s, TheEngine(c))
    ensures Inv(t, Step(t, s, TheEngine(c)))
  {
    StepKeepsControl(t, s, TheEngine(c));
    AtIsSlot(t, s, TheEngine(c));
    var at := At(t, s, TheEngine(c));
    var buffer := s.cells[at].buffer;
    assert SlotControl(t, at, s.core, s.engines[c], s.cells[at]);
    assert BufferOk(t, at, s.core, s.engines[c], buffer);
    EngineSends(t, c, s.core, s.engines[c], s.cells[at]);
    forall slot | IsSlot(t.channels, slot)
      ensures BufferOk(t, slot, Step(t, s, TheEngine(c)).core, Step(t, s, TheEngine(c)).engines[slot.channel],
                       Step(t, s, TheEngine(c)).cells[slot].buffer)
    {
      assert SlotControl(t, slot, s.core, s.engines[slot.channel], s.cells[slot]);
      assert BufferOk(t, slot, s.core, s.engines[slot.channel], s.cells[slot].buffer);
      if slot.channel == c {
        EngineBuffer(t, slot, s.core, s.engines[c], s.cells[slot], buffer);
      }
    }
  }

  lemma StartInv(t: Tile, s: State)
    requires IsStart(t, s)
    ensures Inv(t, s)
  {
  }

  lemma {:induction false} RunKeepsInv(t: Tile, schedule: seq<Actor>, s: State)
    requires IsRun(t, schedule, s)
    ensures Inv(t, s)
  {
    if schedule == [] {
      StartInv(t, s);
    } else {
      var last := |schedule| - 1;
      var u: State :| IsRun(t, schedule[..last], u) && IsState(t, u)
        && Enabled(t, u, schedule[last]) && s == Step(t, u, schedule[last]);
      RunKeepsInv(t, schedule[..last], u);
      match schedule[last]
      case TheCore => CoreKeepsInv(t, u);
      case TheEngine(c) => EngineKeepsInv(t, u, c);
    }
  }

  // ---------- Safety ----------

  /** The core and the engine are never both inside a buffer. */
  lemma NeverBothInside(t: Tile, schedule: seq<Actor>, s: State, slot: Slot)
    requires IsRun(t, schedule, s) && IsState(t, s) && IsSlot(t.channels, slot)
    ensures !(EngineHolds(s.engines[slot.channel], slot.buffer) && CoreHolds(t, s.core, slot))
  {
    RunKeepsInv(t, schedule, s);
    assert SlotControl(t, slot, s.core, s.engines[slot.channel], s.cells[slot]);
  }

  /** While an engine fills a buffer the core has finished everything that was in it, and while
      the core fills one the engine has sent everything: nothing is overwritten. */
  lemma NothingOverwritten(t: Tile, schedule: seq<Actor>, s: State, slot: Slot)
    requires IsRun(t, schedule, s) && IsState(t, s) && IsSlot(t.channels, slot)
    requires if ToCore(t.channels, slot) then EngineHolds(s.engines[slot.channel], slot.buffer)
             else CoreHolds(t, s.core, slot)
    ensures EngineDone(s.engines[slot.channel], slot.buffer) == CoreDone(t, s.core, slot)
  {
    RunKeepsInv(t, schedule, s);
    assert SlotControl(t, slot, s.core, s.engines[slot.channel], s.cells[slot]);
  }

  lemma BufferAtUse(t: Tile, slot: Slot, core: Core, e: Engine, cell: Cell)
    requires IsTile(t) && IsCore(t, core) && IsSlot(t.channels, slot) && ToCore(t.channels, slot)
    requires t.script[core.pos] == Use(slot)
    requires SlotControl(t, slot, core, e, cell) && BufferOk(t, slot, core, e, cell.buffer)
    ensures cell.buffer == Item(t, slot, core.block)
  {
    CoreInside(t, core, slot);
  }

  /** Whatever the interleaving, block k of the core finds in buffer i of a channel with m
      buffers item k * m + i of the stream. */
  lemma CoreFindsItsItem(t: Tile, schedule: seq<Actor>, s: State, slot: Slot)
    requires IsRun(t, schedule, s) && IsState(t, s) && IsSlot(t.channels, slot)
    requires s.core.block < t.blocks && t.script[s.core.pos] == Use(slot) && ToCore(t.channels, slot)
    ensures s.cells[slot].buffer == Item(t, slot, s.core.block)
  {
    RunKeepsInv(t, schedule, s);
    assert SlotControl(t, slot, s.core, s.engines[slot.channel], s.cells[slot]);
    assert BufferOk(t, slot, s.core, s.engines[slot.channel], s.cells[slot].buffer);
    BufferAtUse(t, slot, s.core, s.engines[slot.channel], s.cells[slot]);
  }

  lemma {:induction false} SentAt(t: Tile, c: nat, k: nat, b: nat, j: nat, i: nat)
    requires IsTile(t) && c < |t.channels| && b <= t.channels[c].buffers
    ensures |Sent(t, c, k, b)| == k * t.channels[c].buffers + b
    ensures i < t.channels[c].buffers && (j < k || (j == k && i < b)) ==>
      var n := j * t.channels[c].buffers + i;
      n < |Sent(t, c, k, b)| && Sent(t, c, k, b)[n] == Written(t, Slot(c, i), j)
    decreases k, b
  {
    var m := t.channels[c].buffers;
    if b > 0 {
      SentAt(t, c, k, b - 1, j, i);
    } else if k > 0 {
      SentAt(t, c, k - 1, m, j, i);
      assert (k - 1) * m + m == k * m;
    }
  }

  lemma SentBefore(t: Tile, c: nat, e: Engine, j: nat, i: nat)
    requires IsTile(t) && c < |t.channels| && IsEngine(t, c, e) && EngineOk(t, c, e) && !t.channels[c].toCore
    requires i < t.channels[c].buffers && (j < e.round || (j == e.round && i < e.bd))
    ensures var n := j * t.channels[c].buffers + i; n < |e.sent| && e.sent[n] == Written(t, Slot(c, i), j)
  {
    SentAt(t, c, e.round, e.bd + if e.sub == 2 then 1 else 0, j, i);
  }

  /** And what channel c has sent is, in order, what the core made of its reads in each block. */
  lemma SendsInOrder(t: Tile, schedule: seq<Actor>, s: State, c: nat, j: nat, i: nat)
    requires IsRun(t, schedule, s) && IsState(t, s) && c < |t.channels| && !t.channels[c].toCore
    requires i < t.channels[c].buffers && (j < s.engines[c].round || (j == s.engines[c].round && i < s.engines[c].bd))
    ensures var n := j * t.channels[c].buffers + i;
      n < |s.engines[c].sent| && s.engines[c].sent[n] == Written(t, Slot(c, i), j)
  {
    RunKeepsInv(t, schedule, s);
    assert IsEngine(t, c, s.engines[c]) && EngineOk(t, c, s.engines[c]);
    SentBefore(t, c, s.engines[c], j, i);
  }

  // ---------- Liveness ----------

  /** An engine is blocked only at an acquire, and not by a lock that it holds itself. */
  lemma HolderMoves(t: Tile, s: State, slot: Slot)
    requires Control(t, s) && IsSlot(t.channels, slot) && EngineHolds(s.engines[slot.channel], slot.buffer)
    ensures Enabled(t, s, TheEngine(slot.channel))
  {
    assert IsEngine(t, slot.channel, s.engines[slot.channel]);
  }

  /** An engine towards the core that is no further than the core can step. */
  lemma FillerMoves(t: Tile, s: State, c: nat)
    requires Control(t, s) && c < |t.channels| && t.channels[c].toCore && s.engines[c].round < t.blocks
    requires s.engines[c].round <= s.core.block
    ensures Enabled(t, s, TheEngine(c))
  {
    var slot := Slot(c, s.engines[c].bd);
    assert SlotControl(t, slot, s.core, s.engines[c], s.cells[slot]);
  }

  /** An engine away from the core that is behind the core can step. */
  lemma EmptierMoves(t: Tile, s: State, c: nat)
    requires Control(t, s) && c < |t.channels| && !t.channels[c].toCore && s.engines[c].round < s.core.block
    ensures Enabled(t, s, TheEngine(c))
  {
    var slot := Slot(c, s.engines[c].bd);
    assert SlotControl(t, slot, s.core, s.engines[c], s.cells[slot]);
  }

  /** While the core has blocks left, it or an engine can step. */
  lemma CoreIsServed(t: Tile, s: State)
    requires Control(t, s) && s.core.block < t.blocks
    ensures Enabled(t, s, TheCore) || exists c :: 0 <= c < |t.channels| && Enabled(t, s, TheEngine(c))
  {
    AtIsSlot(t, s, TheCore);
    var slot := At(t, s, TheCore);
    var c := slot.channel;
    CoreInside(t, s.core, slot);
    assert SlotControl(t, slot, s.core, s.engines[c], s.cells[slot]);
    if !Enabled(t, s, TheCore) {
      if EngineHolds(s.engines[c], slot.buffer) {
        HolderMoves(t, s, slot);
      } else if t.channels[c].toCore {
        FillerMoves(t, s, c);
      } else {
        EmptierMoves(t, s, c);
      }
    }
  }

  predicate AllDone(t: Tile, s: State) {
    s.core.block == t.blocks && forall c :: 0 <= c < |s.engines| ==> s.engines[c].round == t.blocks
  }

  /** No run ends in a deadlock: until the core has done its blocks and the engines have served
      them, one of them can step. */
  lemma NoDeadlock(t: Tile, schedule: seq<Actor>, s: State)
    requires IsRun(t, schedule, s) && IsState(t, s) && !AllDone(t, s)
    ensures exists actor :: Enabled(t, s, actor)
  {
    RunKeepsInv(t, schedule, s);
    if s.core.block < t.blocks {
      CoreIsServed(t, s);
    } else {
      var c :| 0 <= c < |s.engines| && s.engines[c].round != t.blocks;
      assert IsEngine(t, c, s.engines[c]);
      if t.channels[c].toCore {
        FillerMoves(t, s, c);
      } else {
        EmptierMoves(t, s, c);
      }
    }
  }

  function CoreLeft(t: Tile, core: Core): int {
    (t.blocks - core.block) * |t.script| - core.pos
  }

  function EngineLeft(t: Tile, c: nat, e: Engine): int
    requires c < |t.channels|
  {
    (t.blocks - e.round) * (3 * t.channels[c].buffers) - 3 * e.bd - e.sub
  }

  /** The steps still to come of the engines from c on. */
  function EnginesLeft(t: Tile, engines: seq<Engine>, c: nat): int
    requires |engines| == |t.channels| && c <= |engines|
    decreases |engines| - c
  {
    if c == |engines| then 0 else EngineLeft(t, c, engines[c]) + EnginesLeft(t, engines, c + 1)
  }

  lemma CoreCountsDown(t: Tile, core: Core, buffer: Data)
    requires IsCore(t, core) && core.block < t.blocks
    ensures CoreLeft(t, CoreMoved(t, core, buffer)) == CoreLeft(t, core) - 1
  {
    assert (t.blocks - core.block) * |t.script| == (t.blocks - (core.block + 1)) * |t.script| + |t.script|;
  }

  lemma EngineCountsDown(t: Tile, c: nat, e: Engine, buffer: Data)
    requires c < |t.channels| && IsEngine(t, c, e) && e.round < t.blocks
    ensures EngineLeft(t, c, EngineMoved(t, c, e, buffer)) == EngineLeft(t, c, e) - 1
  {
    var steps := 3 * t.channels[c].buffers;
    assert (t.blocks - e.round) * steps == (t.blocks - (e.round + 1)) * steps + steps;
  }

  lemma {:induction false} OneEngineMoved(t: Tile, a: seq<Engine>, b: seq<Engine>, i: nat, c: nat)
    requires |a| == |b| == |t.channels| && c <= |a| && i < |a|
    requires forall k :: 0 <= k < |a| && k != i ==> a[k] == b[k]
    requires EngineLeft(t, i, b[i]) == EngineLeft(t, i, a[i]) - 1
    ensures EnginesLeft(t, b, c) == EnginesLeft(t, a, c) - if c <= i then 1 else 0
    decreases |a| - c
  {
    if c < |a| {
      OneEngineMoved(t, a, b, i, c + 1);
    }
  }

  lemma StepLeft(t: Tile, s: State, actor: Actor)
    requires IsState(t, s) && Enabled(t, s, actor)
    ensures var r := Step(t, s, actor);
      CoreLeft(t, r.core) + EnginesLeft(t, r.engines, 0) == CoreLeft(t, s.core) + EnginesLeft(t, s.engines, 0) - 1
  {
    AtIsSlot(t, s, actor);
    var buffer := s.cells[At(t, s, actor)].buffer;
    match actor
    case TheCore => CoreCountsDown(t, s.core, buffer);
    case TheEngine(c) =>
      EngineCountsDown(t, c, s.engines[c], buffer);
      OneEngineMoved(t, s.engines, Step(t, s, actor).engines, c, 0);
  }

  lemma {:induction false} RunLength(t: Tile, schedule: seq<Actor>, s: State)
    requires IsRun(t, schedule, s)
    ensures IsState(t, s)
    ensures |schedule| + CoreLeft(t, s.core) + EnginesLeft(t, s.engines, 0) == TotalSteps(t)
  {
    if schedule == [] {
      assert s.engines == seq(|t.channels|, _ => Engine(0, 0, 0, 0, []));
    } else {
      var last := |schedule| - 1;
      var u: State :| IsRun(t, schedule[..last], u) && IsState(t, u)
        && Enabled(t, u, schedule[last]) && s == Step(t, u, schedule[last]);
      RunLength(t, schedule[..last], u);
      StepLeft(t, u, schedule[last]);
    }
  }

  /** The steps of the core and of all engines for all blocks. */
  function TotalSteps(t: Tile): int {
    t.blocks * |t.script| + EnginesLeft(t, seq(|t.channels|, _ => Engine(0, 0, 0, 0, [])), 0)
  }

  lemma {:induction false} EnginesLeftBounds(t: Tile, s: State, c: nat)
    requires IsState(t, s) && c <= |s.engines|
    ensures EnginesLeft(t, s.engines, c) >= 0
    ensures EnginesLeft(t, s.engines, c) == 0 <==> forall k :: c <= k < |s.engines| ==> s.engines[k].round == t.blocks
    decreases |s.engines| - c
  {
    if c < |s.engines| {
      EnginesLeftBounds(t, s, c + 1);
      EngineLeftBounds(t, c, s.engines[c]);
    }
  }

  lemma EngineLeftBounds(t: Tile, c: nat, e: Engine)
    requires c < |t.channels| && IsEngine(t, c, e)
    ensures EngineLeft(t, c, e) >= 0 && (EngineLeft(t, c, e) == 0 <==> e.round == t.blocks)
  {
    if e.round < t.blocks {
      AtLeastOnce(t.blocks - e.round, 3 * t.channels[c].buffers);
    }
  }

  lemma CoreLeftBounds(t: Tile, core: Core)
    requires IsCore(t, core)
    ensures CoreLeft(t, core) >= 0 && (CoreLeft(t, core) == 0 <==> core.block == t.blocks)
  {
    if core.block < t.blocks {
      AtLeastOnce(t.blocks - core.block, |t.script|);
    }
  }

  /** Every run is finite, and takes all its steps exactly when core and engines are done. */
  lemma EveryRunCompletes(t: Tile, schedule: seq<Actor>, s: State)
    requires IsRun(t, schedule, s)
    ensures |schedule| <= TotalSteps(t)
    ensures |schedule| == TotalSteps(t) <==> AllDone(t, s)
  {
    RunKeepsInv(t, schedule, s);
    RunLength(t, schedule, s);
    CoreLeftBounds(t, s.core);
    EnginesLeftBounds(t, s, 0);
  }
}
