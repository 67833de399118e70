/** Moving an accumulator buffer out of the innermost loop: the copy into the buffer before
    the loop and the copy out of it after the loop, instead of both in every iteration. */
module HoistReduce {

  /** Operations of the loop body. The kernel is the work that uses the buffer. */
  datatype Op = Alloc | CopyIn | CopyOut | Dealloc | Work(id: nat, kernel: bool)

  /** Memory, and the buffer; an unallocated buffer has any contents. */
  datatype State = State(main: seq<int>, buffer: seq<int>)

  /** What work does in an iteration. */
  type Effect = (nat, nat, State) -> State

  // ---------- Copies ----------

  /** Places of the subview in memory, all different. */
  ghost predicate IsView(view: seq<nat>, size: nat) {
    && (forall j :: 0 <= j < |view| ==> view[j] < size)
    && (forall j, k :: 0 <= j < k < |view| ==> view[j] != view[k])
  }

  function Read(m: seq<int>, view: seq<nat>): seq<int> {
    seq(|view|, j requires 0 <= j < |view| => if view[j] < |m| then m[view[j]] else 0)
  }

  function Write(m: seq<int>, view: seq<nat>, b: seq<int>): (r: seq<int>)
    ensures |r| == |m|
    decreases |view|
  {
    if view == [] then m
    else
      var rest := Write(m, view[..|view| - 1], b);
      var j := |view| - 1;
      if j < |b| && view[j] < |m| then rest[view[j] := b[j]] else rest
  }

  ghost predicate AgreeOutside(m: seq<int>, n: seq<int>, view: seq<nat>) {
    |m| == |n| && forall a: nat :: a < |m| && a !in view ==> m[a] == n[a]
  }

  lemma {:induction false} WriteOutside(m: seq<int>, view: seq<nat>, b: seq<int>)
    ensures AgreeOutside(Write(m, view, b), m, view)
    decreases |view|
  {
    if view != [] {
      WriteOutside(m, view[..|view| - 1], b);
    }
  }

  lemma {:induction false} ReadWrite(m: seq<int>, view: seq<nat>, b: seq<int>, j: nat)
    requires IsView(view, |m|) && |b| >= |view| && j < |view|
    ensures Write(m, view, b)[view[j]] == b[j]
    decreases |view|
  {
    if j < |view| - 1 {
      ReadWrite(m, view[..|view| - 1], b, j);
    }
  }

  /** Memories that agree outside the view are the same once the view is written. */
  lemma WriteAgrees(m: seq<int>, n: seq<int>, view: seq<nat>, b: seq<int>)
    requires IsView(view, |m|) && |b| == |view| && AgreeOutside(m, n, view)
    ensures Write(m, view, b) == Write(n, view, b)
  {
    WriteOutside(m, view, b);
    WriteOutside(n, view, b);
    forall a: nat | a < |m|
      ensures Write(m, view, b)[a] == Write(n, view, b)[a]
    {
      if a in view {
        var j :| 0 <= j < |view| && view[j] == a;
        ReadWrite(m, view, b, j);
        ReadWrite(n, view, b, j);
      }
    }
  }

  lemma ReadBack(m: seq<int>, view: seq<nat>, b: seq<int>)
    requires IsView(view, |m|) && |b| == |view|
    ensures Read(Write(m, view, b), view) == b
  {
    forall j: nat | j < |view|
      ensures Read(Write(m, view, b), view)[j] == b[j]
    {
      ReadWrite(m, view, b, j);
    }
  }

  // ---------- Execution ----------

  function Exec(effect: Effect, view: seq<nat>, junk: seq<int>, i: nat, op: Op, s: State): State {
    match op
    case Alloc => s.(buffer := junk)
    case CopyIn => s.(buffer := Read(s.main, view))
    case CopyOut => s.(main := Write(s.main, view, s.buffer))
    case Dealloc => s.(buffer := junk)
    case Work(id, _) => effect(id, i, s)
  }

  function Run(effect: Effect, view: seq<nat>, junk: seq<int>, i: nat, ops: seq<Op>, s: State): State
    decreases |ops|
  {
    if ops == [] then s else Run(effect, view, junk, i, ops[1..], Exec(effect, view, junk, i, ops[0], s))
  }

  /** Iterations i.. up to `trips`. */
  function Loop(effect: Effect, view: seq<nat>, junk: seq<int>, i: nat, trips: nat, body: seq<Op>, s: State): State
    decreases trips - i
  {
    if i >= trips then s else Loop(effect, view, junk, i + 1, trips, body, Run(effect, view, junk, i, body, s))
  }

  // ---------- The rewriting ----------

  /** How far a body is: before the alloc, before the copy in, with the buffer in use, before
      the dealloc, and after it. */
  datatype Phase = Fresh | Allocated | InUse | CopiedOut | Freed

  function Next(phase: Phase, op: Op): Phase {
    match op
    case Alloc => Allocated
    case CopyIn => InUse
    case CopyOut => CopiedOut
    case Dealloc => Freed
    case Work(_, _) => phase
  }

  predicate Allowed(phase: Phase, op: Op) {
    match op
    case Alloc => phase == Fresh
    case CopyIn => phase == Allocated
    case CopyOut => phase == InUse
    case Dealloc => phase == CopiedOut
    case Work(_, kernel) => kernel ==> phase == InUse
  }

  /** The copies in their order, and the kernel while the buffer is in use; the body ends in
      the last phase. */
  predicate BodyOk(phase: Phase, ops: seq<Op>, last: Phase)
    decreases |ops|
  {
    if ops == [] then phase == last else Allowed(phase, ops[0]) && BodyOk(Next(phase, ops[0]), ops[1..], last)
  }

  /** A body from before the copy in to behind the copy out. It has the alloc and the dealloc,
      or they are outside the loop already. */
  predicate IsOrdered(first: Phase, ops: seq<Op>, last: Phase) {
    (first == Fresh || first == Allocated) && (last == CopiedOut || last == Freed) && BodyOk(first, ops, last)
  }

  function WorkOf(ops: seq<Op>): seq<Op>
    decreases |ops|
  {
    if ops == [] then [] else (if ops[0].Work? then [ops[0]] else []) + WorkOf(ops[1..])
  }

  /** What defines the memory that the buffer is copied from. */
  datatype Source = Subview(outsideLoop: bool) | OtherSource

  /** The operations around and in the loop that holds the kernel. */
  class LoopNest {
    const isFor: bool
    const source: Source
    var before: seq<Op>
    var body: seq<Op>
    var after: seq<Op>

    constructor (isFor: bool, source: Source, before: seq<Op>, body: seq<Op>, after: seq<Op>)
      ensures this.isFor == isFor && this.source == source
      ensures this.before == before && this.body == body && this.after == after
    {
      this.isFor, this.source := isFor, source;
      this.before, this.body, this.after := before, body, after;
    }

    /** Takes the first such operation out of a block. */
    static method TakeOut(ops: seq<Op>, op: Op) returns (rest: seq<Op>, found: bool)
      ensures found <==> op in ops
      ensures rest == Without(ops, op)
    {
      var k: nat := 0;
      while k < |ops|
        invariant k <= |ops| && op !in ops[..k]
      {
        if ops[k] == op {
          WithoutAt(ops, op, k);
          return ops[..k] + ops[k + 1..], true;
        }
        k := k + 1;
      }
      WithoutAbsent(ops, op, op);
      return ops, false;
    }

    /** Which of the operations that the pattern looks for are in a block. */
    static method Users(ops: seq<Op>) returns (alloc: bool, copyIn: bool, copyOut: bool, dealloc: bool, kernel: bool)
      ensures alloc <==> Alloc in ops
      ensures copyIn <==> CopyIn in ops
      ensures copyOut <==> CopyOut in ops
      ensures dealloc <==> Dealloc in ops
      ensures kernel <==> HasKernel(ops)
    {
      alloc, copyIn, copyOut, dealloc, kernel := false, false, false, false, false;
      var k: nat := 0;
      while k < |ops|
        invariant k <= |ops|
        invariant alloc <==> Alloc in ops[..k]
        invariant copyIn <==> CopyIn in ops[..k]
        invariant copyOut <==> CopyOut in ops[..k]
        invariant dealloc <==> Dealloc in ops[..k]
        invariant kernel <==> HasKernel(ops[..k])
      {
        assert ops[..k + 1] == ops[..k] + [ops[k]];
        KernelSnoc(ops[..k], ops[k]);
        match ops[k] {
          case Alloc => alloc := true;
          case CopyIn => copyIn := true;
          case CopyOut => copyOut := true;
          case Dealloc => dealloc := true;
          case Work(_, isKernel) => kernel := kernel || isKernel;
        }
        k := k + 1;
      }
      assert ops[..k] == ops;
    }

    /** The copies and the kernel are in the body of an scf.for, the buffer comes from an alloc
        and goes to a dealloc there or outside, and what is copied is a subview made next to
        the loop. */
    predicate IsCandidate()
      reads this
    {
      && isFor && source == Subview(true)
      && CopyIn in body && CopyOut in body && HasKernel(body)
      && (Alloc in body || Alloc in before) && (Dealloc in body || Dealloc in after)
    }

    method Matches() returns (matched: bool)
      ensures matched <==> IsCandidate()
    {
      var alloc, copyIn, copyOut, dealloc, kernel := Users(body);
      var allocBefore, _, _, _, _ := Users(before);
      var _, _, _, deallocAfter, _ := Users(after);
      if !kernel || !(dealloc || deallocAfter) || !copyIn || !copyOut {
        return false;
      }
      if source != Subview(true) || !(alloc || allocBefore) {
        return false;
      }
      return isFor;
    }

    /** Takes an operation out of the body, or else out of the block outside the loop. */
    static method TakeFrom(body: seq<Op>, outside: seq<Op>, op: Op) returns (inBody: seq<Op>, rest: seq<Op>)
      ensures inBody == Without(body, op) && rest == Elsewhere(body, outside, op)
    {
      var found;
      inBody, found := TakeOut(body, op);
      rest := outside;
      if !found {
        rest, found := TakeOut(outside, op);
      }
    }

    /** Alloc and copy in go in front of the loop, copy out and dealloc behind it. */
    static method MoveFour(body: seq<Op>, before: seq<Op>, after: seq<Op>)
      returns (inside: seq<Op>, front: seq<Op>, back: seq<Op>)
      ensures inside == FourOut(body)
      ensures front == Elsewhere(body, before, Alloc) + [Alloc, CopyIn]
      ensures back == [CopyOut, Dealloc] + Elsewhere(body, after, Dealloc)
    {
      MembersStay(body);
      var found;
      inside, front := TakeFrom(body, before, Alloc);
      inside, found := TakeOut(inside, CopyIn);
      front := front + [Alloc, CopyIn];
      inside, back := TakeFrom(inside, after, Dealloc);
      inside, found := TakeOut(inside, CopyOut);
      back := [CopyOut, Dealloc] + back;
    }

    method Hoist() returns (matched: bool)
      modifies this
      ensures matched <==> old(IsCandidate())
      ensures !matched ==> before == old(before) && body == old(body) && after == old(after)
      ensures matched ==>
        && before == Elsewhere(old(body), old(before), Alloc) + [Alloc, CopyIn]
        && after == [CopyOut, Dealloc] + Elsewhere(old(body), old(after), Dealloc)
        && body == FourOut(old(body))
    {
      matched := Matches();
      if matched {
        body, before, after := MoveFour(body, before, after);
      }
    }
  }

  /** What is left outside the loop when the body is searched first. */
  function Elsewhere(body: seq<Op>, outside: seq<Op>, op: Op): seq<Op> {
    if op in body then outside else Without(outside, op)
  }

  /** Taking other operations out leaves the dealloc where it is. */
  lemma {:induction false} MembersStay(ops: seq<Op>)
    ensures Dealloc in Without(Without(ops, Alloc), CopyIn) <==> Dealloc in ops
  {
    OthersStay(ops, Alloc, Dealloc);
    OthersStay(Without(ops, Alloc), CopyIn, Dealloc);
  }

  lemma {:induction false} OthersStay(ops: seq<Op>, op: Op, other: Op)
    requires op != other
    ensures other in Without(ops, op) <==> other in ops
    decreases |ops|
  {
    if ops != [] {
      OthersStay(ops[1..], op, other);
      assert ops == [ops[0]] + ops[1..];
    }
  }

  predicate HasKernel(ops: seq<Op>) {
    exists k :: 0 <= k < |ops| && ops[k].Work? && ops[k].kernel
  }

  lemma KernelSnoc(ops: seq<Op>, op: Op)
    ensures HasKernel(ops + [op]) <==> HasKernel(ops) || (op.Work? && op.kernel)
  {
    if HasKernel(ops) {
      var k :| 0 <= k < |ops| && ops[k].Work? && ops[k].kernel;
      assert (ops + [op])[k] == ops[k];
    }
    if op.Work? && op.kernel {
      assert (ops + [op])[|ops|] == op;
    }
  }

  /** Without the first such operation. */
  function Without(ops: seq<Op>, op: Op): seq<Op>
    decreases |ops|
  {
    if ops == [] then [] else if ops[0] == op then ops[1..] else [ops[0]] + Without(ops[1..], op)
  }

  lemma {:induction false} WithoutAt(ops: seq<Op>, op: Op, k: nat)
    requires k < |ops| && ops[k] == op && op !in ops[..k]
    ensures Without(ops, op) == ops[..k] + ops[k + 1..] && op in ops
    decreases |ops|
  {
    if k > 0 {
      assert ops[1..][..k - 1] == ops[1..k];
      WithoutAt(ops[1..], op, k - 1);
    }
  }

  function FourOut(ops: seq<Op>): seq<Op> {
    Without(Without(Without(Without(ops, Alloc), CopyIn), Dealloc), CopyOut)
  }

  lemma {:induction false} WithoutAbsent(ops: seq<Op>, op: Op, other: Op)
    requires op !in ops
    ensures Without(ops, op) == ops && op !in Without(ops, other)
    decreases |ops|
  {
    if ops != [] {
      WithoutAbsent(ops[1..], op, other);
    }
  }

  /** None of the four operations is there twice. */
  ghost predicate AtMostOnce(ops: seq<Op>) {
    forall op: Op :: !op.Work? ==> multiset(ops)[op] <= 1
  }

  lemma {:induction false} WithoutCounts(ops: seq<Op>, op: Op)
    ensures multiset(Without(ops, op)) == multiset(ops) - multiset{op}
    decreases |ops|
  {
    if ops != [] {
      assert ops == [ops[0]] + ops[1..];
      WithoutCounts(ops[1..], op);
    }
  }

  lemma {:induction false} WithoutKeepsWork(ops: seq<Op>, op: Op)
    requires !op.Work?
    ensures WorkOf(Without(ops, op)) == WorkOf(ops)
    decreases |ops|
  {
    if ops != [] {
      WithoutKeepsWork(ops[1..], op);
      assert ops[0] != op ==> Without(ops, op)[0] == ops[0] && Without(ops, op)[1..] == Without(ops[1..], op);
    }
  }

  lemma {:induction false} AllWork(ops: seq<Op>)
    requires forall k :: 0 <= k < |ops| ==> ops[k].Work?
    ensures WorkOf(ops) == ops
    decreases |ops|
  {
    if ops != [] {
      AllWork(ops[1..]);
    }
  }

  /** Taking one operation out of such a body. */
  lemma {:induction false} OneOut(ops: seq<Op>, op: Op, gone: set<Op>)
    requires AtMostOnce(ops) && !op.Work? && forall g :: g in gone ==> g !in ops
    ensures AtMostOnce(Without(ops, op)) && WorkOf(Without(ops, op)) == WorkOf(ops)
    ensures forall g :: g in gone + {op} ==> g !in Without(ops, op)
  {
    WithoutCounts(ops, op);
    WithoutKeepsWork(ops, op);
    forall g | g in gone + {op}
      ensures g !in Without(ops, op)
    {
      assert multiset(Without(ops, op))[g] == 0;
    }
  }

  /** Of a body that has none of the four operations twice the other work is left, in its
      order. */
  lemma {:induction false} OnlyWorkIsLeft(ops: seq<Op>)
    requires AtMostOnce(ops)
    ensures FourOut(ops) == WorkOf(ops)
  {
    var a := Without(ops, Alloc);
    var b := Without(a, CopyIn);
    var c := Without(b, Dealloc);
    var d := Without(c, CopyOut);
    OneOut(ops, Alloc, {});
    OneOut(a, CopyIn, {Alloc});
    OneOut(b, Dealloc, {Alloc, CopyIn});
    OneOut(c, CopyOut, {Alloc, CopyIn, Dealloc});
    forall k | 0 <= k < |d|
      ensures d[k].Work?
    {
      assert d[k] in d;
    }
    AllWork(d);
  }

  /** The operations that an ordered body in this phase has behind it. */
  predicate Past(phase: Phase, op: Op) {
    match op
    case Alloc => phase != Fresh
    case CopyIn => phase != Fresh && phase != Allocated
    case CopyOut => phase == CopiedOut || phase == Freed
    case Dealloc => phase == Freed
    case Work(_, _) => false
  }

  lemma {:induction false} OrderedOnce(phase: Phase, ops: seq<Op>, last: Phase, op: Op)
    requires BodyOk(phase, ops, last) && !op.Work?
    ensures multiset(ops)[op] <= if Past(phase, op) then 0 else 1
    decreases |ops|
  {
    if ops != [] {
      assert ops == [ops[0]] + ops[1..];
      OrderedOnce(Next(phase, ops[0]), ops[1..], last, op);
    }
  }

  lemma {:induction false} OrderedLeavesWork(phase: Phase, ops: seq<Op>, last: Phase)
    requires BodyOk(phase, ops, last)
    ensures FourOut(ops) == WorkOf(ops)
  {
    forall op: Op | !op.Work?
      ensures multiset(ops)[op] <= 1
    {
      OrderedOnce(phase, ops, last, op);
    }
    OnlyWorkIsLeft(ops);
  }

  // ---------- What work may do ----------

  /** Work neither reads nor writes the view in memory, and without the kernel's mark it leaves
      the buffer alone too. */
  ghost predicate Quiet(effect: Effect, view: seq<nat>, size: nat, op: Op)
    requires op.Work?
  {
    && (forall i, s: State :: |s.main| == size && |s.buffer| == |view| ==>
          KeepsShape(effect(op.id, i, s), s, view))
    && (forall i, s: State, t: State :: Similar(s, t, view, size, op.kernel) ==>
          Similar(effect(op.id, i, s), effect(op.id, i, t), view, size, op.kernel))
    && (!op.kernel ==> forall i, s: State :: |s.main| == size ==> effect(op.id, i, s).buffer == s.buffer)
  }

  predicate KeepsShape(r: State, s: State, view: seq<nat>) {
    |r.main| == |s.main| && |r.buffer| == |s.buffer| && Read(r.main, view) == Read(s.main, view)
  }

  /** The same outside the view, and for a kernel also in the buffer. */
  ghost predicate Similar(s: State, t: State, view: seq<nat>, size: nat, withBuffer: bool) {
    && |s.main| == |t.main| == size && AgreeOutside(s.main, t.main, view)
    && |s.buffer| == |t.buffer| == |view|
    && (withBuffer ==> s.buffer == t.buffer)
  }

  ghost predicate AllQuiet(effect: Effect, view: seq<nat>, size: nat, ops: seq<Op>) {
    forall k :: 0 <= k < |ops| && ops[k].Work? ==> Quiet(effect, view, size, ops[k])
  }

  // ---------- Meaning is preserved ----------

  /** s in the original and t in the hoisted nest: the same outside the view; the hoisted
      buffer holds what the view or, while it is in use, the original buffer holds. */
  ghost predicate Related(phase: Phase, s: State, t: State, view: seq<nat>, size: nat) {
    && |s.main| == |t.main| == size && AgreeOutside(s.main, t.main, view)
    && |s.buffer| == |t.buffer| == |view|
    && t.buffer == if phase == InUse then s.buffer else Read(s.main, view)
  }

  lemma WorkRelated(effect: Effect, view: seq<nat>, size: nat, i: nat, phase: Phase, op: Op, s: State, t: State)
    requires op.Work? && Allowed(phase, op) && Quiet(effect, view, size, op) && Related(phase, s, t, view, size)
    ensures Related(phase, effect(op.id, i, s), effect(op.id, i, t), view, size)
  {
    assert Similar(s, t, view, size, op.kernel);
    assert KeepsShape(effect(op.id, i, s), s, view) && KeepsShape(effect(op.id, i, t), t, view);
    assert Similar(effect(op.id, i, s), effect(op.id, i, t), view, size, op.kernel);
  }

  lemma MoveRelated(effect: Effect, view: seq<nat>, junk: seq<int>, size: nat, i: nat, phase: Phase, op: Op,
                    s: State, t: State)
    requires IsView(view, size) && |junk| == |view| && !op.Work? && Allowed(phase, op)
    requires Related(phase, s, t, view, size)
    ensures Related(Next(phase, op), Exec(effect, view, junk, i, op, s), t, view, size)
  {
    if op.CopyOut? {
      WriteOutside(s.main, view, s.buffer);
      ReadBack(s.main, view, s.buffer);
    }
  }

  /** One iteration of the original body against one of the hoisted body. */
  lemma {:induction false} IterationRelated(effect: Effect, view: seq<nat>, junk: seq<int>, size: nat, i: nat,
                                            phase: Phase, ops: seq<Op>, last: Phase, s: State, t: State)
    requires IsView(view, size) && |junk| == |view| && BodyOk(phase, ops, last) && AllQuiet(effect, view, size, ops)
    requires Related(phase, s, t, view, size)
    ensures Related(last, Run(effect, view, junk, i, ops, s), Run(effect, view, junk, i, WorkOf(ops), t), view, size)
    decreases |ops|
  {
    if ops != [] {
      var op, rest := ops[0], ops[1..];
      var s' := Exec(effect, view, junk, i, op, s);
      assert AllQuiet(effect, view, size, rest) by {
        assert forall k :: 0 <= k < |rest| ==> rest[k] == ops[k + 1];
      }
      if op.Work? {
        WorkRelated(effect, view, size, i, phase, op, s, t);
        IterationRelated(effect, view, junk, size, i, phase, rest, last, s', effect(op.id, i, t));
        assert WorkOf(ops)[0] == op && WorkOf(ops)[1..] == WorkOf(rest);
      } else {
        MoveRelated(effect, view, junk, size, i, phase, op, s, t);
        IterationRelated(effect, view, junk, size, i, Next(phase, op), rest, last, s', t);
        assert WorkOf(ops) == WorkOf(rest);
      }
    }
  }

  lemma {:induction false} LoopRelated(effect: Effect, view: seq<nat>, junk: seq<int>, size: nat, i: nat, trips: nat,
                                       first: Phase, body: seq<Op>, last: Phase, s: State, t: State)
    requires IsView(view, size) && |junk| == |view|
    requires IsOrdered(first, body, last) && AllQuiet(effect, view, size, body)
    requires Related(first, s, t, view, size)
    ensures Related(first, Loop(effect, view, junk, i, trips, body, s),
                    Loop(effect, view, junk, i, trips, WorkOf(body), t), view, size)
    decreases trips - i
  {
    if i < trips {
      IterationRelated(effect, view, junk, size, i, first, body, last, s, t);
      LoopRelated(effect, view, junk, size, i + 1, trips, first, body, last, Run(effect, view, junk, i, body, s),
                  Run(effect, view, junk, i, WorkOf(body), t));
    }
  }

  /** The hoisted nest: what goes in front, the loop with the four operations taken out, what
      goes behind. */
  function Hoisted(effect: Effect, view: seq<nat>, junk: seq<int>, trips: nat, body: seq<Op>, s: State): State {
    var inside := Run(effect, view, junk, 0, [Alloc, CopyIn], s);
    var done := Loop(effect, view, junk, 0, trips, FourOut(body), inside);
    Run(effect, view, junk, 0, [CopyOut, Dealloc], done)
  }

  /** For every trip count, zero included, memory ends as in the original nest. */
  lemma HoistPreservesMeaning(effect: Effect, view: seq<nat>, junk: seq<int>, trips: nat, first: Phase, body: seq<Op>,
                              last: Phase, s: State)
    requires IsView(view, |s.main|) && |junk| == |view| == |s.buffer|
    requires IsOrdered(first, body, last) && AllQuiet(effect, view, |s.main|, body)
    ensures Hoisted(effect, view, junk, trips, body, s).main == Loop(effect, view, junk, 0, trips, body, s).main
  {
    OrderedLeavesWork(first, body, last);
    var size := |s.main|;
    var inside := State(s.main, Read(s.main, view));
    assert Run(effect, view, junk, 0, [Alloc, CopyIn], s) == inside;
    LoopRelated(effect, view, junk, size, 0, trips, first, body, last, s, inside);
    var a := Loop(effect, view, junk, 0, trips, body, s);
    var b := Loop(effect, view, junk, 0, trips, WorkOf(body), inside);
    assert Run(effect, view, junk, 0, [CopyOut, Dealloc], b).main == Write(b.main, view, b.buffer);
    WriteAgrees(b.main, a.main, view, b.buffer);
    WriteOwn(a.main, view);
  }

  /** Writing back what was read changes nothing. */
  lemma WriteOwn(m: seq<int>, view: seq<nat>)
    requires IsView(view, |m|)
    ensures Write(m, view, Read(m, view)) == m
  {
    var b := Read(m, view);
    WriteOutside(m, view, b);
    forall a: nat | a < |m|
      ensures Write(m, view, b)[a] == m[a]
    {
      if a in view {
        var j :| 0 <= j < |view| && view[j] == a;
        ReadWrite(m, view, b, j);
      }
    }
  }

  /** The hoisted nest leaves memory as the original one. */
  ghost predicate Same(effect: Effect, view: seq<nat>, junk: seq<int>, trips: nat, body: seq<Op>, s: State) {
    Hoisted(effect, view, junk, trips, body, s).main == Loop(effect, view, junk, 0, trips, body, s).main
  }

  // ---------- A kernel that reads the view itself ----------

  const PLAIN := [Alloc, CopyIn, Work(0, true), CopyOut, Dealloc]

  /** The kernel changes the buffer only, and looks in memory at the region only. */
  ghost predicate KernelOn(effect: Effect, region: set<nat>, view: seq<nat>, size: nat) {
    && (forall i, s: State :: |s.main| == size && |s.buffer| == |view| ==>
          effect(0, i, s).main == s.main && |effect(0, i, s).buffer| == |view|)
    && (forall i, s: State, t: State :: AgreeOn(s, t, region, view, size) ==>
          effect(0, i, s).buffer == effect(0, i, t).buffer)
  }

  ghost predicate AgreeOn(s: State, t: State, region: set<nat>, view: seq<nat>, size: nat) {
    && |s.main| == |t.main| == size && |s.buffer| == |view| && s.buffer == t.buffer
    && forall a: nat :: a < size && a in region ==> s.main[a] == t.main[a]
  }

  lemma RunPlain(effect: Effect, view: seq<nat>, junk: seq<int>, i: nat, s: State)
    ensures Run(effect, view, junk, i, PLAIN, s) ==
            (var r := effect(0, i, State(s.main, Read(s.main, view))); State(Write(r.main, view, r.buffer), junk))
    ensures FourOut(PLAIN) == [Work(0, true)] && Run(effect, view, junk, i, FourOut(PLAIN), s) == effect(0, i, s)
  {
    assert PLAIN[1..] == [CopyIn, Work(0, true), CopyOut, Dealloc];
    assert PLAIN[1..][1..] == [Work(0, true), CopyOut, Dealloc];
    assert PLAIN[1..][1..][1..] == [CopyOut, Dealloc];
    assert PLAIN[1..][1..][1..][1..] == [Dealloc];
  }

  lemma RunEnds(effect: Effect, view: seq<nat>, junk: seq<int>, s: State)
    ensures Run(effect, view, junk, 0, [Alloc, CopyIn], s) == State(s.main, Read(s.main, view))
    ensures Run(effect, view, junk, 0, [CopyOut, Dealloc], s).main == Write(s.main, view, s.buffer)
  {
  }

  /** At most one iteration: the same operations in the same order. */
  lemma OneIteration(effect: Effect, view: seq<nat>, junk: seq<int>, trips: nat, s: State)
    requires trips <= 1 && IsView(view, |s.main|)
    ensures Same(effect, view, junk, trips, PLAIN, s)
  {
    var inside := State(s.main, Read(s.main, view));
    RunEnds(effect, view, junk, s);
    RunPlain(effect, view, junk, 0, s);
    RunPlain(effect, view, junk, 0, inside);
    RunEnds(effect, view, junk, Loop(effect, view, junk, 0, trips, FourOut(PLAIN), inside));
    if trips == 0 {
      WriteOwn(s.main, view);
    } else {
      assert Loop(effect, view, junk, 0, 1, PLAIN, s)
          == Loop(effect, view, junk, 1, 1, PLAIN, Run(effect, view, junk, 0, PLAIN, s));
      assert Loop(effect, view, junk, 0, 1, FourOut(PLAIN), inside)
          == Loop(effect, view, junk, 1, 1, FourOut(PLAIN), Run(effect, view, junk, 0, FourOut(PLAIN), inside));
    }
  }

  /** A kernel that looks only outside the view is quiet. */
  lemma OutsideIsQuiet(effect: Effect, region: set<nat>, view: seq<nat>, size: nat)
    requires IsView(view, size) && KernelOn(effect, region, view, size)
    requires forall j :: 0 <= j < |view| ==> view[j] !in region
    ensures IsOrdered(Fresh, PLAIN, Freed) && AllQuiet(effect, view, size, PLAIN)
  {
    assert PLAIN[1..] == [CopyIn, Work(0, true), CopyOut, Dealloc];
    assert PLAIN[1..][1..] == [Work(0, true), CopyOut, Dealloc];
    assert PLAIN[1..][1..][1..] == [CopyOut, Dealloc];
    assert PLAIN[1..][1..][1..][1..] == [Dealloc];
    forall i, s: State, t: State | Similar(s, t, view, size, true)
      ensures Similar(effect(0, i, s), effect(0, i, t), view, size, true)
    {
      assert AgreeOn(s, t, region, view, size);
    }
    assert Quiet(effect, view, size, Work(0, true));
  }

  /** Adds one to element j of the view, as the kernel sees it in memory. */
  function Count(view: seq<nat>, j: nat): Effect
    requires j < |view|
  {
    (id: nat, i: nat, s: State) =>
      if j < |s.buffer| && view[j] < |s.main| then s.(buffer := s.buffer[j := s.main[view[j]] + 1]) else s
  }

  lemma {:induction false} CountOriginal(view: seq<nat>, j: nat, junk: seq<int>, i: nat, trips: nat, s: State)
    requires j < |view| && IsView(view, |s.main|) && i <= trips
    ensures var r := Loop(Count(view, j), view, junk, i, trips, PLAIN, s);
      |r.main| == |s.main| && r.main[view[j]] == s.main[view[j]] + trips - i
    decreases trips - i
  {
    if i < trips {
      var effect := Count(view, j);
      var next := Run(effect, view, junk, i, PLAIN, s);
      RunPlain(effect, view, junk, i, s);
      var b := Read(s.main, view)[j := s.main[view[j]] + 1];
      assert next.main == Write(s.main, view, b);
      ReadWrite(s.main, view, b, j);
      CountOriginal(view, j, junk, i + 1, trips, next);
    }
  }

  lemma {:induction false} CountHoisted(view: seq<nat>, j: nat, junk: seq<int>, i: nat, trips: nat, s: State)
    requires j < |view| == |s.buffer| && IsView(view, |s.main|) && i < trips
    ensures var r := Loop(Count(view, j), view, junk, i, trips, FourOut(PLAIN), s);
      r.main == s.main && |r.buffer| == |view| && r.buffer[j] == s.main[view[j]] + 1
    decreases trips - i
  {
    var effect := Count(view, j);
    RunPlain(effect, view, junk, i, s);
    if i + 1 < trips {
      CountHoisted(view, j, junk, i + 1, trips, effect(0, i, s));
    }
  }

  /** Two iterations of a kernel that reads element j of the view tell the nests apart. */
  lemma AliasingBreaks(view: seq<nat>, j: nat, junk: seq<int>, trips: nat, s: State)
    requires j < |view| && IsView(view, |s.main|) && trips >= 2
    ensures !Same(Count(view, j), view, junk, trips, PLAIN, s)
  {
    var effect := Count(view, j);
    var inside := State(s.main, Read(s.main, view));
    RunEnds(effect, view, junk, s);
    CountOriginal(view, j, junk, 0, trips, s);
    CountHoisted(view, j, junk, 0, trips, inside);
    var r := Loop(effect, view, junk, 0, trips, FourOut(PLAIN), inside);
    RunEnds(effect, view, junk, r);
    ReadWrite(r.main, view, r.buffer, j);
  }

  lemma CountIsKernel(view: seq<nat>, j: nat, region: set<nat>, size: nat)
    requires j < |view| && view[j] in region
    ensures KernelOn(Count(view, j), region, view, size)
  {
  }

  /** The pattern is right for every kernel that looks at a region exactly when the loop runs
      at most once or the region has nothing of the view. */
  lemma HoistRightIff(view: seq<nat>, region: set<nat>, trips: nat, size: nat, junk: seq<int>)
    requires IsView(view, size) && |junk| == |view|
    ensures (forall effect: Effect, s: State ::
               |s.main| == size && |s.buffer| == |view| && KernelOn(effect, region, view, size) ==>
                 Same(effect, view, junk, trips, PLAIN, s))
            <==> (trips <= 1 || forall j :: 0 <= j < |view| ==> view[j] !in region)
  {
    if trips <= 1 {
      forall effect: Effect, s: State | |s.main| == size && |s.buffer| == |view|
        ensures Same(effect, view, junk, trips, PLAIN, s)
      {
        OneIteration(effect, view, junk, trips, s);
      }
    } else if j :| 0 <= j < |view| && view[j] in region {
      var s := State(seq(size, _ => 0), junk);
      CountIsKernel(view, j, region, size);
      AliasingBreaks(view, j, junk, trips, s);
    } else {
      forall effect: Effect, s: State |
        |s.main| == size && |s.buffer| == |view| && KernelOn(effect, region, view, size)
        ensures Same(effect, view, junk, trips, PLAIN, s)
      {
        OutsideIsQuiet(effect, region, view, size);
        HoistPreservesMeaning(effect, view, junk, trips, Fresh, PLAIN, Freed, s);
      }
    }
  }

  // ---------- The order of copies and kernel ----------

  const KERNEL := Work(0, true)

  /** The copies and the kernel in some order. The pattern does not look at it. */
  predicate IsSomeOrder(middle: seq<Op>) {
    multiset(middle) == multiset{CopyIn, KERNEL, CopyOut}
  }

  function Around(middle: seq<Op>): seq<Op> {
    [Alloc] + middle + [Dealloc]
  }

  /** Adds one to the first element of the buffer. */
  function Increment(): Effect {
    (id: nat, i: nat, s: State) => if |s.buffer| > 0 then s.(buffer := s.buffer[0 := s.buffer[0] + 1]) else s
  }

  /** The first element of the view and of the buffer. */
  datatype Firsts = Firsts(main: int, buffer: int)

  function ExecFirsts(junk: int, op: Op, f: Firsts): Firsts {
    match op
    case Alloc => f.(buffer := junk)
    case CopyIn => f.(buffer := f.main)
    case CopyOut => f.(main := f.buffer)
    case Dealloc => f.(buffer := junk)
    case Work(_, _) => f.(buffer := f.buffer + 1)
  }

  function RunFirsts(junk: int, ops: seq<Op>, f: Firsts): Firsts
    decreases |ops|
  {
    if ops == [] then f else RunFirsts(junk, ops[1..], ExecFirsts(junk, ops[0], f))
  }

  ghost predicate HasFirsts(s: State, view: seq<nat>, size: nat, f: Firsts) {
    0 < |view| == |s.buffer| && |s.main| == size && view[0] < size && f == Firsts(s.main[view[0]], s.buffer[0])
  }

  lemma ExecHasFirsts(view: seq<nat>, size: nat, junk: seq<int>, i: nat, op: Op, s: State, f: Firsts)
    requires IsView(view, size) && |junk| == |view| && HasFirsts(s, view, size, f)
    ensures HasFirsts(Exec(Increment(), view, junk, i, op, s), view, size, ExecFirsts(junk[0], op, f))
  {
    if op.CopyOut? {
      ReadWrite(s.main, view, s.buffer, 0);
    }
  }

  lemma {:induction false} RunHasFirsts(view: seq<nat>, size: nat, junk: seq<int>, i: nat, ops: seq<Op>, s: State,
                                        f: Firsts)
    requires IsView(view, size) && |junk| == |view| && HasFirsts(s, view, size, f)
    ensures HasFirsts(Run(Increment(), view, junk, i, ops, s), view, size, RunFirsts(junk[0], ops, f))
    decreases |ops|
  {
    if ops != [] {
      ExecHasFirsts(view, size, junk, i, ops[0], s, f);
      RunHasFirsts(view, size, junk, i, ops[1..], Exec(Increment(), view, junk, i, ops[0], s),
                   ExecFirsts(junk[0], ops[0], f));
    }
  }

  lemma RunThree(junk: int, a: Op, b: Op, c: Op, f: Firsts)
    ensures RunFirsts(junk, Around([a, b, c]), f)
         == (var start := ExecFirsts(junk, Alloc, f);
             ExecFirsts(junk, Dealloc, ExecFirsts(junk, c, ExecFirsts(junk, b, ExecFirsts(junk, a, start)))))
  {
    var f1 := ExecFirsts(junk, Alloc, f);
    var f2 := ExecFirsts(junk, a, f1);
    var f3 := ExecFirsts(junk, b, f2);
    RunStep(junk, Alloc, [a, b, c, Dealloc], f);
    RunStep(junk, a, [b, c, Dealloc], f1);
    RunStep(junk, b, [c, Dealloc], f2);
    RunStep(junk, c, [Dealloc], f3);
    RunStep(junk, Dealloc, [], ExecFirsts(junk, c, f3));
    assert Around([a, b, c]) == [Alloc] + [a, b, c, Dealloc];
    assert [a, b, c, Dealloc] == [a] + [b, c, Dealloc] && [b, c, Dealloc] == [b] + [c, Dealloc];
    assert [c, Dealloc] == [c] + [Dealloc] && [Dealloc] == [Dealloc] + [];
  }

  lemma RunStep(junk: int, op: Op, ops: seq<Op>, f: Firsts)
    ensures RunFirsts(junk, [op] + ops, f) == RunFirsts(junk, ops, ExecFirsts(junk, op, f))
  {
    assert ([op] + ops)[1..] == ops;
  }

  lemma ThreeOps(middle: seq<Op>)
    requires IsSomeOrder(middle)
    ensures |middle| == 3 && middle == [middle[0], middle[1], middle[2]]
    ensures forall k :: 0 <= k < 3 ==> middle[k] in {CopyIn, KERNEL, CopyOut}
    ensures middle[0] != middle[1] && middle[1] != middle[2] && middle[0] != middle[2]
  {
    assert |multiset(middle)| == 3;
    forall k | 0 <= k < 3
      ensures middle[k] in {CopyIn, KERNEL, CopyOut}
    {
      assert middle[k] in multiset(middle);
    }
    assert middle == [middle[0], middle[1], middle[2]];
    assert multiset(middle) == multiset{middle[0], middle[1], middle[2]};
  }

  /** In any other order an iteration does not count on: the element stays low. */
  lemma StaysLow(junk: int, middle: seq<Op>, f: Firsts)
    requires IsSomeOrder(middle) && middle != [CopyIn, KERNEL, CopyOut] && f.main <= junk + 2
    ensures RunFirsts(junk, Around(middle), f).main <= junk + 2
  {
    ThreeOps(middle);
    RunThree(junk, middle[0], middle[1], middle[2], f);
  }

  lemma {:induction false} LoopStaysLow(view: seq<nat>, size: nat, junk: seq<int>, i: nat, trips: nat,
                                        middle: seq<Op>, s: State, f: Firsts)
    requires IsView(view, size) && |junk| == |view| && HasFirsts(s, view, size, f)
    requires IsSomeOrder(middle) && middle != [CopyIn, KERNEL, CopyOut] && f.main <= junk[0] + 2
    ensures var r := Loop(Increment(), view, junk, i, trips, Around(middle), s);
      |r.main| == size && r.main[view[0]] <= junk[0] + 2
    decreases trips - i
  {
    if i < trips {
      RunHasFirsts(view, size, junk, i, Around(middle), s, f);
      StaysLow(junk[0], middle, f);
      LoopStaysLow(view, size, junk, i + 1, trips, middle, Run(Increment(), view, junk, i, Around(middle), s),
                   RunFirsts(junk[0], Around(middle), f));
    }
  }

  lemma {:induction false} KernelCounts(view: seq<nat>, size: nat, junk: seq<int>, i: nat, trips: nat, s: State,
                                        f: Firsts)
    requires IsView(view, size) && |junk| == |view| && HasFirsts(s, view, size, f) && i <= trips
    ensures HasFirsts(Loop(Increment(), view, junk, i, trips, [KERNEL], s), view, size,
                      f.(buffer := f.buffer + trips - i))
    decreases trips - i
  {
    if i < trips {
      RunHasFirsts(view, size, junk, i, [KERNEL], s, f);
      assert RunFirsts(junk[0], [KERNEL], f) == f.(buffer := f.buffer + 1);
      KernelCounts(view, size, junk, i + 1, trips, Run(Increment(), view, junk, i, [KERNEL], s),
                   f.(buffer := f.buffer + 1));
    }
  }

  lemma {:induction false} WorkCounts(ops: seq<Op>, op: Op)
    ensures multiset(WorkOf(ops))[op] == if op.Work? then multiset(ops)[op] else 0
    decreases |ops|
  {
    if ops != [] {
      assert ops == [ops[0]] + ops[1..];
      WorkCounts(ops[1..], op);
    }
  }

  lemma KernelIsLeft(middle: seq<Op>)
    requires IsSomeOrder(middle)
    ensures FourOut(Around(middle)) == [KERNEL]
  {
    AroundMembers(middle);
    FiveOnce(Around(middle));
    OnlyWorkIsLeft(Around(middle));
    OneIsWork(Around(middle));
  }

  /** The four operations and the kernel. */
  predicate AreFive(ops: seq<Op>) {
    multiset(ops) == multiset{Alloc, Dealloc, CopyIn, KERNEL, CopyOut}
  }

  lemma AroundMembers(middle: seq<Op>)
    requires IsSomeOrder(middle)
    ensures AreFive(Around(middle))
  {
    assert multiset(Around(middle)) == multiset{Alloc} + multiset(middle) + multiset{Dealloc};
  }

  lemma FiveOnce(ops: seq<Op>)
    requires AreFive(ops)
    ensures AtMostOnce(ops)
  {
  }

  lemma OneIsWork(ops: seq<Op>)
    requires AreFive(ops)
    ensures WorkOf(ops) == [KERNEL]
  {
    forall op: Op
      ensures multiset(WorkOf(ops))[op] == multiset{KERNEL}[op]
    {
      WorkCounts(ops, op);
    }
    OnlyMember(WorkOf(ops), KERNEL);
  }

  lemma OnlyMember(ops: seq<Op>, op: Op)
    requires multiset(ops) == multiset{op}
    ensures ops == [op]
  {
    assert |multiset(ops)| == 1;
    assert ops[0] in multiset(ops);
  }

  /** The hoisted nest counts the iterations. */
  lemma HoistedCounts(view: seq<nat>, size: nat, junk: seq<int>, trips: nat, middle: seq<Op>, s: State)
    requires IsView(view, size) && 0 < |junk| == |view| && |s.main| == size && IsSomeOrder(middle)
    ensures var r := Hoisted(Increment(), view, junk, trips, Around(middle), s);
      |r.main| == size && r.main[view[0]] == s.main[view[0]] + trips
  {
    var inside := State(s.main, Read(s.main, view));
    var f := Firsts(s.main[view[0]], s.main[view[0]]);
    KernelIsLeft(middle);
    RunEnds(Increment(), view, junk, s);
    KernelCounts(view, size, junk, 0, trips, inside, f);
    var done := Loop(Increment(), view, junk, 0, trips, [KERNEL], inside);
    RunEnds(Increment(), view, junk, done);
    ReadWrite(done.main, view, done.buffer, 0);
  }

  /** With another order one iteration is enough to tell the nests apart. */
  lemma OtherOrderBreaks(view: seq<nat>, size: nat, junk: seq<int>, trips: nat, middle: seq<Op>, s: State)
    requires IsView(view, size) && 0 < |junk| == |view| == |s.buffer| && |s.main| == size && trips > 0
    requires s.main[view[0]] == junk[0] + 2
    requires IsSomeOrder(middle) && middle != [CopyIn, KERNEL, CopyOut]
    ensures !Same(Increment(), view, junk, trips, Around(middle), s)
  {
    HoistedCounts(view, size, junk, trips, middle, s);
    LoopStaysLow(view, size, junk, 0, trips, middle, s, Firsts(s.main[view[0]], s.buffer[0]));
  }

  lemma NoIteration(effect: Effect, view: seq<nat>, junk: seq<int>, middle: seq<Op>, s: State)
    requires IsView(view, |s.main|)
    ensures Same(effect, view, junk, 0, Around(middle), s)
  {
    RunEnds(effect, view, junk, s);
    RunEnds(effect, view, junk, State(s.main, Read(s.main, view)));
    WriteOwn(s.main, view);
  }

  /** The pattern, which does not look at the order of copies and kernel, is right for every
      kernel on the buffer if and only if the loop does not run or the order is copy in,
      kernel, copy out. */
  lemma OrderRightIff(view: seq<nat>, size: nat, junk: seq<int>, trips: nat, middle: seq<Op>)
    requires IsView(view, size) && 0 < |junk| == |view| && IsSomeOrder(middle)
    ensures (forall effect: Effect, s: State ::
               |s.main| == size && |s.buffer| == |view| && KernelOn(effect, {}, view, size) ==>
                 Same(effect, view, junk, trips, Around(middle), s))
            <==> (trips == 0 || middle == [CopyIn, KERNEL, CopyOut])
  {
    if trips == 0 {
      forall effect: Effect, s: State | |s.main| == size
        ensures Same(effect, view, junk, trips, Around(middle), s)
      {
        NoIteration(effect, view, junk, middle, s);
      }
    } else if middle == [CopyIn, KERNEL, CopyOut] {
      assert Around(middle) == PLAIN;
      forall effect: Effect, s: State | |s.main| == size && |s.buffer| == |view| && KernelOn(effect, {}, view, size)
        ensures Same(effect, view, junk, trips, Around(middle), s)
      {
        OutsideIsQuiet(effect, {}, view, size);
        HoistPreservesMeaning(effect, view, junk, trips, Fresh, PLAIN, Freed, s);
      }
    } else {
      var s := State(seq(size, _ => junk[0] + 2), junk);
      OtherOrderBreaks(view, size, junk, trips, middle, s);
      assert KernelOn(Increment(), {}, view, size);
    }
  }
}
