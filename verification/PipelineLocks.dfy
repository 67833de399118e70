/** A chain of pipeline stages on neighbouring cores, joined by one-buffer connectors: what
    replaces air.pipeline.put and air.pipeline.get, run in every interleaving of the cores. */
module PipelineLocks {
  import opened Arithmetic

  /** A ranked tensor, flattened. */
  type Tensor = seq<int>

  /** Operand number `operand` of the connector into stage `stage`, with its own buffer and lock. */
  datatype Slot = Slot(stage: nat, operand: nat)

  datatype Op =
    | Acquire(slot: Slot, value: nat)
    | Release(slot: Slot, value: nat)
    | Load(slot: Slot)
    | Store(slot: Slot)
    | Compute
    | Finish

  /** A lock is taken when it is free and has the value asked for, and given back with a new value. */
  datatype Cell = Cell(value: nat, held: bool, buffer: Tensor)

  function PutOps(slot: Slot): seq<Op> {
    [Acquire(slot, 0), Store(slot), Release(slot, 1)]
  }

  function GetOps(slot: Slot): seq<Op> {
    [Acquire(slot, 1), Load(slot), Release(slot, 0)]
  }

  // ---------- The rewriting of one put and get pair ----------

  /** The operations of all operands, in operand order. */
  function Script(ops: Slot -> seq<Op>, stage: nat, operands: nat): seq<Op> {
    if operands == 0 then [] else Script(ops, stage, operands - 1) + ops(Slot(stage, operands - 1))
  }

  lemma {:induction false} ScriptAt(ops: Slot -> seq<Op>, stage: nat, operands: nat, j: nat, sub: nat)
    requires (forall slot :: |ops(slot)| == 3) && j < operands && sub < 3
    ensures |Script(ops, stage, operands)| == 3 * operands
    ensures Script(ops, stage, operands)[3 * j + sub] == ops(Slot(stage, j))[sub]
    decreases operands
  {
    if operands > 1 {
      ScriptAt(ops, stage, operands - 1, if j < operands - 1 then j else 0, sub);
    }
  }

  /** Every operand pair gets a buffer and a lock, three operations in front of the put and
      three in front of the get. */
  method LowerPipeGetPut(stage: nat, operands: nat) returns (put: seq<Op>, get: seq<Op>)
    ensures put == Script(PutOps, stage, operands) && get == Script(GetOps, stage, operands)
    ensures |put| == |get| == 3 * operands
    ensures forall j: nat :: j < operands ==> IsLowered(put, get, Slot(stage, j))
  {
    put, get := [], [];
    var i: nat := 0;
    while i < operands
      invariant i <= operands
      invariant put == Script(PutOps, stage, i) && get == Script(GetOps, stage, i)
    {
      var slot := Slot(stage, i);
      put := put + [Acquire(slot, 0), Store(slot), Release(slot, 1)];
      get := get + [Acquire(slot, 1), Load(slot), Release(slot, 0)];
      i := i + 1;
    }
    forall j: nat | j < operands
      ensures IsLowered(put, get, Slot(stage, j))
    {
      SliceOf(PutOps, stage, operands, j);
      SliceOf(GetOps, stage, operands, j);
    }
    if operands > 0 {
      SliceOf(PutOps, stage, operands, 0);
      SliceOf(GetOps, stage, operands, 0);
    }
  }

  /** What an operand is lowered to, in operand order. */
  predicate IsLowered(put: seq<Op>, get: seq<Op>, slot: Slot) {
    var at := 3 * slot.operand;
    && at + 3 <= |put| && put[at..at + 3] == [Acquire(slot, 0), Store(slot), Release(slot, 1)]
    && at + 3 <= |get| && get[at..at + 3] == [Acquire(slot, 1), Load(slot), Release(slot, 0)]
  }

  lemma SliceOf(ops: Slot -> seq<Op>, stage: nat, operands: nat, j: nat)
    requires (forall slot :: |ops(slot)| == 3) && j < operands
    ensures |Script(ops, stage, operands)| == 3 * operands
    ensures Script(ops, stage, operands)[3 * j..3 * j + 3] == ops(Slot(stage, j))
  {
    ScriptAt(ops, stage, operands, j, 0);
    ScriptAt(ops, stage, operands, j, 1);
    ScriptAt(ops, stage, operands, j, 2);
    var three := Script(ops, stage, operands)[3 * j..3 * j + 3];
    assert three == [three[0], three[1], three[2]];
  }

  /** What a core performs at an operand is what was put in front of its put or its get. */
  lemma CurrentIsLowered(p: Pipeline, i: nat, st: Stage)
    requires IsPipeline(p) && i < |p.fs| && IsStage(p, i, st)
    ensures var lowered :=
              if st.putting then Script(PutOps, i + 1, p.widths[i + 1]) else Script(GetOps, i, p.widths[i]);
      var at := 3 * st.operand + st.sub;
      if at < |lowered| then Current(p, i, st) == lowered[at]
      else Current(p, i, st) == if st.putting then Finish else Compute
  {
    var stage, width := if st.putting then i + 1 else i, if st.putting then p.widths[i + 1] else p.widths[i];
    var ops := if st.putting then PutOps else GetOps;
    if width > 0 {
      ScriptAt(ops, stage, width, if st.operand < width then st.operand else 0, st.sub);
    }
  }

  // ---------- The machine ----------

  /** Stage i applies fs[i]; widths[i] operands come into it and widths[i + 1] leave it. */
  datatype Pipeline = Pipeline(fs: seq<seq<Tensor> -> seq<Tensor>>, widths: seq<nat>, inputs: seq<seq<Tensor>>)

  /** Where a core is in its loop: in the get or the put part, before which operation of which
      operand, with the operands got so far or the results to put. */
  datatype Stage = Stage(round: nat, putting: bool, operand: nat, sub: nat, values: seq<Tensor>)

  datatype State = State(stages: seq<Stage>, cells: map<Slot, Cell>, outputs: seq<seq<Tensor>>)

  ghost predicate Produces(f: seq<Tensor> -> seq<Tensor>, width: nat) {
    forall x :: |f(x)| == width
  }

  ghost predicate IsPipeline(p: Pipeline) {
    && |p.fs| > 0 && |p.widths| == |p.fs| + 1
    && p.widths[0] == 0 && p.widths[|p.fs|] == 0
    && forall i :: 0 <= i < |p.fs| - 1 ==> Produces(p.fs[i], p.widths[i + 1])
  }

  ghost predicate IsSlot(p: Pipeline, slot: Slot) {
    0 < slot.stage < |p.fs| && |p.widths| == |p.fs| + 1 && slot.operand < p.widths[slot.stage]
  }

  ghost predicate IsStage(p: Pipeline, i: nat, st: Stage)
    requires IsPipeline(p) && i < |p.fs|
  {
    var limit := if st.putting then p.widths[i + 1] else p.widths[i];
    && st.round <= |p.inputs| && st.sub < 3
    && st.operand <= limit && (st.operand == limit ==> st.sub == 0)
    && (st.putting ==> st.round < |p.inputs| && |st.values| >= limit)
    && (st.round == |p.inputs| ==> st.operand == 0 && st.sub == 0)
  }

  ghost predicate IsState(p: Pipeline, s: State) {
    && IsPipeline(p) && |s.stages| == |p.fs|
    && (forall i :: 0 <= i < |p.fs| ==> IsStage(p, i, s.stages[i]))
    && (forall slot :: IsSlot(p, slot) ==> slot in s.cells)
  }

  /** The operation that stage i performs next. */
  ghost function Current(p: Pipeline, i: nat, st: Stage): (op: Op)
    requires IsPipeline(p) && i < |p.fs| && IsStage(p, i, st)
    ensures op.Acquire? || op.Release? || op.Load? || op.Store? ==> IsSlot(p, op.slot) && i <= op.slot.stage <= i + 1
  {
    if !st.putting then
      if st.operand < p.widths[i] then GetOps(Slot(i, st.operand))[st.sub] else Compute
    else
      if st.operand < p.widths[i + 1] then PutOps(Slot(i + 1, st.operand))[st.sub] else Finish
  }

  function Advance(st: Stage): Stage {
    if st.sub < 2 then st.(sub := st.sub + 1) else st.(operand := st.operand + 1, sub := 0)
  }

  predicate UsesCell(op: Op) {
    op.Acquire? || op.Release? || op.Load? || op.Store?
  }

  /** Where the core is after an operation; a load finds `buffer`. */
  ghost function Moved(p: Pipeline, i: nat, st: Stage, buffer: Tensor): (r: Stage)
    requires IsPipeline(p) && i < |p.fs| && IsStage(p, i, st) && st.round < |p.inputs|
    ensures IsStage(p, i, r)
  {
    match Current(p, i, st)
    case Load(_) => Advance(st.(values := st.values + [buffer]))
    case Compute =>
      Stage(st.round, true, 0, 0, p.fs[i](if i == 0 then p.inputs[st.round] else st.values))
    case Finish => Stage(st.round + 1, false, 0, 0, [])
    case _ => Advance(st)
  }

  predicate Ready(op: Op, cell: Cell) {
    op.Acquire? ==> !cell.held && cell.value == op.value
  }

  function Effect(op: Op, st: Stage, cell: Cell): Cell
    requires op.Store? ==> st.operand < |st.values|
  {
    match op
    case Acquire(_, _) => cell.(held := true)
    case Release(_, value) => cell.(held := false, value := value)
    case Store(_) => cell.(buffer := st.values[st.operand])
    case _ => cell
  }

  ghost predicate Enabled(p: Pipeline, s: State, i: nat)
    requires IsState(p, s)
  {
    i < |p.fs| && s.stages[i].round < |p.inputs| &&
    var op := Current(p, i, s.stages[i]);
    UsesCell(op) ==> Ready(op, s.cells[op.slot])
  }

  ghost function Step(p: Pipeline, s: State, i: nat): (r: State)
    requires IsState(p, s) && Enabled(p, s, i)
    ensures IsState(p, r)
  {
    var st := s.stages[i];
    var op := Current(p, i, st);
    if UsesCell(op) then
      var cell := s.cells[op.slot];
      s.(stages := s.stages[i := Moved(p, i, st, cell.buffer)], cells := s.cells[op.slot := Effect(op, st, cell)])
    else
      s.(stages := s.stages[i := Moved(p, i, st, [])],
         outputs := if op.Finish? && i == |p.fs| - 1 then s.outputs + [st.values] else s.outputs)
  }

  /** All cores at the top of their loops, all locks 0, anything in the buffers. */
  ghost predicate IsStart(p: Pipeline, s: State) {
    && IsState(p, s) && s.outputs == []
    && (forall i :: 0 <= i < |p.fs| ==> s.stages[i] == Stage(0, false, 0, 0, []))
    && (forall slot :: IsSlot(p, slot) ==> s.cells[slot].value == 0 && !s.cells[slot].held)
  }

  ghost predicate IsRun(p: Pipeline, schedule: seq<nat>, s: State) {
    if schedule == [] then IsStart(p, s)
    else exists t: State ::
      IsRun(p, schedule[..|schedule| - 1], t) && IsState(p, t)
      && Enabled(p, t, schedule[|schedule| - 1]) && s == Step(p, t, schedule[|schedule| - 1])
  }

  // ---------- The meaning of the pipeline ----------

  /** What stage i makes of input number k. */
  ghost function Value(p: Pipeline, i: nat, k: nat): (v: seq<Tensor>)
    requires IsPipeline(p) && i < |p.fs| && k < |p.inputs|
    ensures i + 1 < |p.fs| ==> |v| == p.widths[i + 1]
  {
    p.fs[i](if i == 0 then p.inputs[k] else Value(p, i - 1, k))
  }

  // ---------- The invariant ----------

  function Puts(st: Stage, operand: nat): nat {
    st.round + if st.putting && st.operand > operand then 1 else 0
  }

  predicate PutHolds(st: Stage, operand: nat) {
    st.putting && st.operand == operand && st.sub > 0
  }

  function Gets(st: Stage, operand: nat): nat {
    st.round + if st.putting || st.operand > operand then 1 else 0
  }

  predicate GetHolds(st: Stage, operand: nat) {
    !st.putting && st.operand == operand && st.sub > 0
  }

  /** A connector has been put to as often as got from, or once more, and its lock says
      which; the lock is held by the side that is between acquire and release. */
  predicate LockOk(operand: nat, put: Stage, get: Stage, cell: Cell) {
    var puts, gets := Puts(put, operand), Gets(get, operand);
    && gets <= puts <= gets + 1 && cell.value == puts - gets
    && (cell.held <==> PutHolds(put, operand) || GetHolds(get, operand))
    && (PutHolds(put, operand) ==> puts == gets)
    && (GetHolds(get, operand) ==> puts == gets + 1)
  }

  /** Put to once more, it holds the value of the next get; so it does once that is stored. */
  ghost predicate BufferOk(p: Pipeline, slot: Slot, put: Stage, get: Stage, cell: Cell)
    requires IsPipeline(p) && IsSlot(p, slot)
  {
    var puts, gets := Puts(put, slot.operand), Gets(get, slot.operand);
    && (puts == gets + 1 ==> gets < |p.inputs| && cell.buffer == Value(p, slot.stage - 1, gets)[slot.operand])
    && (PutHolds(put, slot.operand) && put.sub == 2 ==>
          puts < |p.inputs| && cell.buffer == Value(p, slot.stage - 1, puts)[slot.operand])
  }

  ghost predicate CellOk(p: Pipeline, slot: Slot, put: Stage, get: Stage, cell: Cell)
    requires IsPipeline(p) && IsSlot(p, slot)
  {
    LockOk(slot.operand, put, get, cell) && BufferOk(p, slot, put, get, cell)
  }

  ghost predicate StageOk(p: Pipeline, i: nat, st: Stage)
    requires IsPipeline(p) && i < |p.fs| && IsStage(p, i, st)
  {
    if st.round == |p.inputs| then true
    else if st.putting then st.values == Value(p, i, st.round)
    else if i == 0 then st.values == []
    else st.values == Value(p, i - 1, st.round)[..st.operand + if st.sub == 2 then 1 else 0]
  }

  ghost predicate Inv(p: Pipeline, s: State) {
    && IsState(p, s)
    && (forall i :: 0 <= i < |p.fs| ==> StageOk(p, i, s.stages[i]))
    && (forall slot :: IsSlot(p, slot) ==>
          CellOk(p, slot, s.stages[slot.stage - 1], s.stages[slot.stage], s.cells[slot]))
    && |s.outputs| == s.stages[|p.fs| - 1].round
    && (forall k :: 0 <= k < |s.outputs| ==> s.outputs[k] == Value(p, |p.fs| - 1, k))
  }

  lemma StartInv(p: Pipeline, s: State)
    requires IsStart(p, s)
    ensures Inv(p, s)
  {
  }

  lemma StageStep(p: Pipeline, i: nat, st: Stage, buffer: Tensor)
    requires IsPipeline(p) && i < |p.fs| && IsStage(p, i, st) && st.round < |p.inputs| && StageOk(p, i, st)
    requires Current(p, i, st).Load? ==> buffer == Value(p, i - 1, st.round)[st.operand]
    ensures StageOk(p, i, Moved(p, i, st, buffer))
  {
    var op := Current(p, i, st);
    if op.Load? {
      var v := Value(p, i - 1, st.round);
      assert v[..st.operand] + [v[st.operand]] == v[..st.operand + 1];
    } else if op.Compute? && i > 0 {
      var v := Value(p, i - 1, st.round);
      assert v[..st.operand] == v;
    }
  }

  /** The stage before a connector takes a step. */
  lemma PutterStep(p: Pipeline, slot: Slot, put: Stage, get: Stage, cell: Cell, buffer: Tensor)
    requires IsPipeline(p) && IsSlot(p, slot) && CellOk(p, slot, put, get, cell)
    requires IsStage(p, slot.stage - 1, put) && StageOk(p, slot.stage - 1, put) && put.round < |p.inputs|
    requires var op := Current(p, slot.stage - 1, put); UsesCell(op) && op.slot == slot ==> Ready(op, cell)
    ensures var op := Current(p, slot.stage - 1, put);
      CellOk(p, slot, Moved(p, slot.stage - 1, put, buffer), get,
             if UsesCell(op) && op.slot == slot then Effect(op, put, cell) else cell)
  {
  }

  /** The stage after it takes a step. */
  lemma GetterStep(p: Pipeline, slot: Slot, put: Stage, get: Stage, cell: Cell, buffer: Tensor)
    requires IsPipeline(p) && IsSlot(p, slot) && CellOk(p, slot, put, get, cell)
    requires IsStage(p, slot.stage, get) && get.round < |p.inputs|
    requires var op := Current(p, slot.stage, get); UsesCell(op) && op.slot == slot ==> Ready(op, cell)
    ensures var op := Current(p, slot.stage, get);
      CellOk(p, slot, put, Moved(p, slot.stage, get, buffer),
             if UsesCell(op) && op.slot == slot then Effect(op, get, cell) else cell)
  {
  }

  /** What a step of stage i leaves of the stages and of one cell. */
  lemma StepAt(p: Pipeline, s: State, i: nat, slot: Slot, op: Op, buffer: Tensor)
    requires IsState(p, s) && Enabled(p, s, i) && IsSlot(p, slot)
    requires op == Current(p, i, s.stages[i])
    requires buffer == if UsesCell(op) then s.cells[op.slot].buffer else []
    ensures Step(p, s, i).stages == s.stages[i := Moved(p, i, s.stages[i], buffer)]
    ensures Step(p, s, i).cells[slot] ==
            if UsesCell(op) && op.slot == slot then Effect(op, s.stages[i], s.cells[slot]) else s.cells[slot]
    ensures UsesCell(op) && op.slot == slot ==> Ready(op, s.cells[slot])
  {
  }

  lemma CellStep(p: Pipeline, i: nat, slot: Slot, op: Op, buffer: Tensor, stages: seq<Stage>, cell: Cell)
    requires IsPipeline(p) && IsSlot(p, slot) && |stages| == |p.fs|
    requires forall j :: 0 <= j < |stages| ==> IsStage(p, j, stages[j])
    requires i < |p.fs| && stages[i].round < |p.inputs| && StageOk(p, i, stages[i])
    requires op == Current(p, i, stages[i]) && (UsesCell(op) && op.slot == slot ==> Ready(op, cell))
    requires CellOk(p, slot, stages[slot.stage - 1], stages[slot.stage], cell)
    ensures var r := stages[i := Moved(p, i, stages[i], buffer)];
      CellOk(p, slot, r[slot.stage - 1], r[slot.stage],
             if UsesCell(op) && op.slot == slot then Effect(op, stages[i], cell) else cell)
  {
    var put, get := stages[slot.stage - 1], stages[slot.stage];
    if i == slot.stage - 1 {
      PutterStep(p, slot, put, get, cell, buffer);
    } else if i == slot.stage {
      GetterStep(p, slot, put, get, cell, buffer);
    } else {
      assert !(UsesCell(op) && op.slot == slot);
    }
  }

  /** A load finds the value that the stage before has made in the same round. */
  lemma LoadFinds(p: Pipeline, slot: Slot, put: Stage, get: Stage, cell: Cell)
    requires IsPipeline(p) && IsSlot(p, slot) && CellOk(p, slot, put, get, cell)
    requires !get.putting && get.operand == slot.operand && get.sub == 1 && get.round < |p.inputs|
    ensures cell.buffer == Value(p, slot.stage - 1, get.round)[get.operand]
  {
  }

  lemma StageOkStep(p: Pipeline, i: nat, op: Op, st: Stage, before: Stage, cell: Cell, buffer: Tensor)
    requires IsPipeline(p) && i < |p.fs| && IsStage(p, i, st) && st.round < |p.inputs| && StageOk(p, i, st)
    requires op == Current(p, i, st)
    requires op.Load? ==> buffer == cell.buffer && CellOk(p, op.slot, before, st, cell)
    ensures StageOk(p, i, Moved(p, i, st, buffer))
  {
    if op.Load? {
      LoadFinds(p, op.slot, before, st, cell);
    }
    StageStep(p, i, st, buffer);
  }

  lemma OutputsStep(p: Pipeline, s: State, i: nat)
    requires Inv(p, s) && Enabled(p, s, i)
    ensures var r := Step(p, s, i);
      && |r.outputs| == r.stages[|p.fs| - 1].round
      && forall k :: 0 <= k < |r.outputs| ==> r.outputs[k] == Value(p, |p.fs| - 1, k)
  {
    assert StageOk(p, i, s.stages[i]);
  }

  lemma ActorAfter(p: Pipeline, s: State, i: nat, op: Op)
    requires Inv(p, s) && Enabled(p, s, i) && op == Current(p, i, s.stages[i])
    ensures StageOk(p, i, Moved(p, i, s.stages[i], if UsesCell(op) then s.cells[op.slot].buffer else []))
  {
    var st := s.stages[i];
    assert StageOk(p, i, st);
    if op.Load? {
      var cell := s.cells[op.slot];
      assert CellOk(p, op.slot, s.stages[i - 1], st, cell);
      StageOkStep(p, i, op, st, s.stages[i - 1], cell, cell.buffer);
    } else {
      StageOkStep(p, i, op, st, st, Cell(0, false, []), if UsesCell(op) then s.cells[op.slot].buffer else []);
    }
  }

  lemma StageAfter(p: Pipeline, s: State, i: nat, j: nat)
    requires Inv(p, s) && Enabled(p, s, i) && j < |p.fs|
    ensures StageOk(p, j, Step(p, s, i).stages[j])
  {
    if i == j {
      ActorAfter(p, s, i, Current(p, i, s.stages[i]));
    } else {
      assert StageOk(p, j, s.stages[j]);
    }
  }

  lemma CellAfter(p: Pipeline, s: State, i: nat, slot: Slot)
    requires Inv(p, s) && Enabled(p, s, i) && IsSlot(p, slot)
    ensures var r := Step(p, s, i);
      CellOk(p, slot, r.stages[slot.stage - 1], r.stages[slot.stage], r.cells[slot])
  {
    var op := Current(p, i, s.stages[i]);
    var buffer := if UsesCell(op) then s.cells[op.slot].buffer else [];
    assert StageOk(p, i, s.stages[i]);
    StepAt(p, s, i, slot, op, buffer);
    CellStep(p, i, slot, op, buffer, s.stages, s.cells[slot]);
  }

  lemma StepKeepsInv(p: Pipeline, s: State, i: nat)
    requires Inv(p, s) && Enabled(p, s, i)
    ensures Inv(p, Step(p, s, i))
  {
    var r := Step(p, s, i);
    OutputsStep(p, s, i);
    forall j | 0 <= j < |p.fs|
      ensures StageOk(p, j, r.stages[j])
    {
      StageAfter(p, s, i, j);
    }
    forall slot | IsSlot(p, slot)
      ensures CellOk(p, slot, r.stages[slot.stage - 1], r.stages[slot.stage], r.cells[slot])
    {
      CellAfter(p, s, i, slot);
    }
  }

  lemma {:induction false} RunKeepsInv(p: Pipeline, schedule: seq<nat>, s: State)
    requires IsRun(p, schedule, s)
    ensures Inv(p, s)
  {
    if schedule == [] {
      StartInv(p, s);
    } else {
      var last := |schedule| - 1;
      var t: State :| IsRun(p, schedule[..last], t) && IsState(p, t)
        && Enabled(p, t, schedule[last]) && s == Step(p, t, schedule[last]);
      RunKeepsInv(p, schedule[..last], t);
      StepKeepsInv(p, t, schedule[last]);
    }
  }

  // ---------- Safety ----------

  /** The invariant without the data. */
  ghost predicate Control(p: Pipeline, s: State) {
    && IsState(p, s)
    && forall slot :: IsSlot(p, slot) ==>
         LockOk(slot.operand, s.stages[slot.stage - 1], s.stages[slot.stage], s.cells[slot])
  }

  lemma RunControl(p: Pipeline, s: State)
    requires Inv(p, s)
    ensures Control(p, s)
  {
    forall slot | IsSlot(p, slot)
      ensures LockOk(slot.operand, s.stages[slot.stage - 1], s.stages[slot.stage], s.cells[slot])
    {
      assert CellOk(p, slot, s.stages[slot.stage - 1], s.stages[slot.stage], s.cells[slot]);
    }
  }

  /** Whatever the interleaving, what has come out is the composed function applied to the
      first inputs, one result for each, in order. */
  lemma DeliversInOrder(p: Pipeline, schedule: seq<nat>, s: State)
    requires IsRun(p, schedule, s)
    ensures |p.fs| > 0 && |s.stages| == |p.fs| && |s.outputs| == s.stages[|p.fs| - 1].round <= |p.inputs|
    ensures IsPipeline(p) && forall k :: 0 <= k < |s.outputs| ==> s.outputs[k] == Value(p, |p.fs| - 1, k)
  {
    RunKeepsInv(p, schedule, s);
  }

  lemma ControlExcludes(p: Pipeline, s: State, slot: Slot)
    requires Control(p, s) && IsSlot(p, slot)
    ensures !(PutHolds(s.stages[slot.stage - 1], slot.operand) && GetHolds(s.stages[slot.stage], slot.operand))
  {
    assert LockOk(slot.operand, s.stages[slot.stage - 1], s.stages[slot.stage], s.cells[slot]);
  }

  /** The cores on the two sides of a connector are never both between acquire and release. */
  lemma NeverBothInside(p: Pipeline, schedule: seq<nat>, s: State, slot: Slot)
    requires IsRun(p, schedule, s) && IsSlot(p, slot) && |s.stages| == |p.fs|
    ensures !(PutHolds(s.stages[slot.stage - 1], slot.operand) && GetHolds(s.stages[slot.stage], slot.operand))
  {
    RunKeepsInv(p, schedule, s);
    RunControl(p, s);
    ControlExcludes(p, s, slot);
  }

  // ---------- Liveness ----------

  /** The core that holds a lock is never blocked. */
  lemma HolderMoves(p: Pipeline, s: State, slot: Slot)
    requires Control(p, s) && IsSlot(p, slot) && s.cells[slot].held
    ensures Enabled(p, s, slot.stage - 1) || Enabled(p, s, slot.stage)
  {
    assert LockOk(slot.operand, s.stages[slot.stage - 1], s.stages[slot.stage], s.cells[slot]);
  }

  /** A core that waits for a value waits for a lock that is taken or for an empty connector. */
  lemma WaitingGet(p: Pipeline, s: State, i: nat)
    requires Control(p, s) && i < |p.fs| && s.stages[i].round < |p.inputs| && !s.stages[i].putting
    requires !Enabled(p, s, i)
    ensures var slot := Slot(i, s.stages[i].operand);
      IsSlot(p, slot) && (s.cells[slot].held || Puts(s.stages[i - 1], slot.operand) == s.stages[i].round)
  {
    var slot := Slot(i, s.stages[i].operand);
    assert Current(p, i, s.stages[i]) == Acquire(slot, 1);
    assert LockOk(slot.operand, s.stages[i - 1], s.stages[i], s.cells[slot]);
  }

  /** A core that waits for room waits for a lock that is taken or for a full connector. */
  lemma WaitingPut(p: Pipeline, s: State, i: nat)
    requires Control(p, s) && i < |p.fs| && s.stages[i].putting && !Enabled(p, s, i)
    ensures var slot := Slot(i + 1, s.stages[i].operand);
      IsSlot(p, slot) && (s.cells[slot].held || s.stages[i].round == Gets(s.stages[i + 1], slot.operand) + 1)
  {
    var slot := Slot(i + 1, s.stages[i].operand);
    assert IsStage(p, i, s.stages[i]);
    assert Current(p, i, s.stages[i]) == Acquire(slot, 0);
    assert LockOk(slot.operand, s.stages[i], s.stages[i + 1], s.cells[slot]);
  }

  /** Behind a core that is getting there is always one that can step. */
  lemma {:induction false} GettingProgress(p: Pipeline, s: State, i: nat)
    requires Control(p, s) && i < |p.fs| && s.stages[i].round < |p.inputs| && !s.stages[i].putting
    ensures exists j :: 0 <= j < |p.fs| && Enabled(p, s, j)
    decreases i
  {
    if !Enabled(p, s, i) {
      WaitingGet(p, s, i);
      var slot := Slot(i, s.stages[i].operand);
      if s.cells[slot].held {
        HolderMoves(p, s, slot);
      } else if !s.stages[i - 1].putting {
        GettingProgress(p, s, i - 1);
      } else if !Enabled(p, s, i - 1) {
        WaitingPut(p, s, i - 1);
        HolderMoves(p, s, Slot(i, s.stages[i - 1].operand));
      }
    }
  }

  /** Ahead of a core that is putting there is always one that can step. */
  lemma {:induction false} PuttingProgress(p: Pipeline, s: State, i: nat)
    requires Control(p, s) && i < |p.fs| && s.stages[i].putting
    ensures exists j :: 0 <= j < |p.fs| && Enabled(p, s, j)
    decreases |p.fs| - i
  {
    if !Enabled(p, s, i) {
      WaitingPut(p, s, i);
      assert IsStage(p, i, s.stages[i]);
      var slot := Slot(i + 1, s.stages[i].operand);
      if s.cells[slot].held {
        HolderMoves(p, s, slot);
      } else if s.stages[i + 1].putting {
        PuttingProgress(p, s, i + 1);
      } else {
        GettingProgress(p, s, i + 1);
      }
    }
  }

  predicate AllDone(p: Pipeline, s: State) {
    forall i :: 0 <= i < |s.stages| ==> s.stages[i].round == |p.inputs|
  }

  /** No run ends in a deadlock: unless every core has worked on every input, one can step. */
  lemma NoDeadlock(p: Pipeline, schedule: seq<nat>, s: State)
    requires IsRun(p, schedule, s) && IsState(p, s) && !AllDone(p, s)
    ensures exists j :: 0 <= j < |p.fs| && Enabled(p, s, j)
  {
    RunKeepsInv(p, schedule, s);
    RunControl(p, s);
    var i :| 0 <= i < |s.stages| && s.stages[i].round != |p.inputs|;
    assert IsStage(p, i, s.stages[i]);
    if s.stages[i].putting {
      PuttingProgress(p, s, i);
    } else {
      GettingProgress(p, s, i);
    }
  }

  /** The steps of stage i in one round. */
  function Cycle(p: Pipeline, i: nat): nat
    requires i + 1 < |p.widths|
  {
    3 * p.widths[i] + 3 * p.widths[i + 1] + 2
  }

  function Left(p: Pipeline, i: nat, st: Stage): int
    requires i + 1 < |p.widths|
  {
    (|p.inputs| - st.round) * Cycle(p, i) - (if st.putting then 3 * p.widths[i] + 1 else 0) - 3 * st.operand - st.sub
  }

  /** The steps still to come of the stages from i on. */
  function AllLeft(p: Pipeline, stages: seq<Stage>, i: nat): int
    requires |p.widths| == |stages| + 1 && i <= |stages|
    decreases |stages| - i
  {
    if i == |stages| then 0 else Left(p, i, stages[i]) + AllLeft(p, stages, i + 1)
  }

  lemma MovedLeft(p: Pipeline, i: nat, st: Stage, buffer: Tensor)
    requires IsPipeline(p) && i < |p.fs| && IsStage(p, i, st) && st.round < |p.inputs|
    ensures Left(p, i, Moved(p, i, st, buffer)) == Left(p, i, st) - 1
  {
    if Current(p, i, st).Finish? {
      assert (|p.inputs| - st.round) * Cycle(p, i) == (|p.inputs| - (st.round + 1)) * Cycle(p, i) + Cycle(p, i);
    }
  }

  lemma {:induction false} OneMoved(p: Pipeline, a: seq<Stage>, b: seq<Stage>, i: nat, j: nat)
    requires |p.widths| == |a| + 1 && |a| == |b| && j <= |a| && i < |a|
    requires forall k :: 0 <= k < |a| && k != i ==> a[k] == b[k]
    requires Left(p, i, b[i]) == Left(p, i, a[i]) - 1
    ensures AllLeft(p, b, j) == AllLeft(p, a, j) - if j <= i then 1 else 0
    decreases |a| - j
  {
    if j < |a| {
      OneMoved(p, a, b, i, j + 1);
    }
  }

  lemma StepLeft(p: Pipeline, s: State, i: nat)
    requires IsState(p, s) && Enabled(p, s, i)
    ensures AllLeft(p, Step(p, s, i).stages, 0) == AllLeft(p, s.stages, 0) - 1
  {
    var op := Current(p, i, s.stages[i]);
    MovedLeft(p, i, s.stages[i], if UsesCell(op) then s.cells[op.slot].buffer else []);
    OneMoved(p, s.stages, Step(p, s, i).stages, i, 0);
  }

  lemma {:induction false} RunLength(p: Pipeline, schedule: seq<nat>, s: State)
    requires IsRun(p, schedule, s)
    ensures IsState(p, s)
    ensures |schedule| + AllLeft(p, s.stages, 0) == AllLeft(p, seq(|p.fs|, _ => Stage(0, false, 0, 0, [])), 0)
  {
    if schedule == [] {
      assert s.stages == seq(|p.fs|, _ => Stage(0, false, 0, 0, []));
    } else {
      var last := |schedule| - 1;
      var t: State :| IsRun(p, schedule[..last], t) && IsState(p, t)
        && Enabled(p, t, schedule[last]) && s == Step(p, t, schedule[last]);
      RunLength(p, schedule[..last], t);
      StepLeft(p, t, schedule[last]);
    }
  }

  /** The steps of all cores for all inputs. */
  function TotalSteps(p: Pipeline, i: nat): nat
    requires i < |p.widths|
    decreases |p.widths| - i
  {
    if i + 1 == |p.widths| then 0 else |p.inputs| * Cycle(p, i) + TotalSteps(p, i + 1)
  }

  lemma {:induction false} LeftAtStart(p: Pipeline, n: nat, i: nat)
    requires |p.widths| == n + 1 && i <= n
    ensures AllLeft(p, seq(n, _ => Stage(0, false, 0, 0, [])), i) == TotalSteps(p, i)
    decreases n - i
  {
    if i < n {
      LeftAtStart(p, n, i + 1);
    }
  }

  lemma LeftBounds(p: Pipeline, i: nat, st: Stage)
    requires IsPipeline(p) && i < |p.fs| && IsStage(p, i, st)
    ensures Left(p, i, st) >= 0
    ensures Left(p, i, st) == 0 <==> st.round == |p.inputs|
  {
    if st.round < |p.inputs| {
      AtLeastOnce(|p.inputs| - st.round, Cycle(p, i));
    }
  }

  lemma {:induction false} AllLeftBounds(p: Pipeline, s: State, i: nat)
    requires IsState(p, s) && i <= |s.stages|
    ensures AllLeft(p, s.stages, i) >= 0
    ensures AllLeft(p, s.stages, i) == 0 <==> forall k :: i <= k < |s.stages| ==> s.stages[k].round == |p.inputs|
    decreases |s.stages| - i
  {
    if i < |s.stages| {
      AllLeftBounds(p, s, i + 1);
      LeftBounds(p, i, s.stages[i]);
    }
  }

  /** Every run is finite, and a run that has taken all its steps has delivered the composed
      function of every input: nothing is lost and nothing comes twice. */
  lemma EveryRunDelivers(p: Pipeline, schedule: seq<nat>, s: State)
    requires IsRun(p, schedule, s)
    ensures IsPipeline(p) && |schedule| <= TotalSteps(p, 0)
    ensures |schedule| == TotalSteps(p, 0) <==> AllDone(p, s)
    ensures |schedule| == TotalSteps(p, 0) ==>
      s.outputs == seq(|p.inputs|, k requires 0 <= k < |p.inputs| => Value(p, |p.fs| - 1, k))
  {
    RunKeepsInv(p, schedule, s);
    RunLength(p, schedule, s);
    LeftAtStart(p, |p.fs|, 0);
    AllLeftBounds(p, s, 0);
  }
}
