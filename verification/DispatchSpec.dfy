/** The controller's packet scheduler, one loop iteration at a time: it keeps several
    copies in flight in slots, serves the slots round robin, and peeks ahead in the packet
    ring when no slot can make progress. */
module DispatchSpec {
  import opened Wrappers
  import opened Arithmetic

  datatype Header = Invalid | AgentDispatch | Other

  /** What a dispatch packet asks for: an ND copy with its slot and memory space, or any of
      the operations that finish at once. */
  datatype Request = NdMemcpy(slot: nat, space: nat) | Immediate

  /** Contents of the packet ring when the handler is entered. */
  datatype Entry = Entry(header: Header, request: Request)

  /** The slots from here on belong to column DMAs, for which nothing is done. */
  const SHIM_SLOTS := 64
  /** The only memory space that can be staged. */
  const SHIM_SPACE := 2

  /** State at the head of the scheduling loop. slots[i] is the ring position of the copy
      staged in slot i; done and skipped are ring positions in the order in which they were
      completed, or passed over because their slot was busy. */
  datatype Sched = Sched(
    rdIdx: nat, lastSlot: nat, numActive: nat, processed: nat,
    slots: seq<Option<nat>>, done: seq<nat>, skipped: seq<nat>)

  /** What the hardware answers during one iteration: which slots' channels are stalled
      when polled, and whether the copy that is worked on finishes. */
  datatype Reply = Reply(stalled: set<nat>, finished: bool)

  function Start(readIndex: nat, slots: nat): Sched {
    Sched(readIndex, 0, 1, 0, seq(slots, _ => None), [], [])
  }

  predicate WellFormed(ring: seq<Entry>, s: Sched) {
    && |ring| > 0
    && s.lastSlot < |s.slots|
    && forall p :: 0 <= p < |ring| && ring[p].request.NdMemcpy? ==> ring[p].request.slot < |s.slots|
  }

  function NextSlot(slot: nat, n: nat): (r: nat)
    requires slot < n
    ensures r < n
  {
    if slot == n - 1 then 0 else slot + 1
  }

  /** Steps needed to come back from slot to last. */
  function Distance(slot: nat, last: nat, n: nat): (d: nat)
    requires slot < n && last < n
    ensures 1 <= d <= n
  {
    if slot < last then last - slot else n + last - slot
  }

  /** The first slot after slot, going around and stopping at last, that holds a copy whose
      channel is not stalled. */
  function RoundRobin(slots: seq<Option<nat>>, stalled: set<nat>, slot: nat, last: nat): (r: Option<nat>)
    requires slot < |slots| && last < |slots|
    ensures r.Some? ==> r.value < |slots| && r.value != last && slots[r.value].Some? && r.value !in stalled
    decreases Distance(slot, last, |slots|)
  {
    var next := NextSlot(slot, |slots|);
    if next == last then None
    else if slots[next].Some? && next !in stalled then Some(next)
    else RoundRobin(slots, stalled, next, last)
  }

  function Complete(s: Sched, p: nat): Sched {
    s.(processed := s.processed + 1, done := s.done + [p])
  }

  /** The ring position that a read index stands for, by repeated subtraction. */
  function Position(ring: seq<Entry>, rdIdx: nat): (p: nat)
    requires |ring| > 0
    ensures p < |ring|
  {
    if rdIdx >= |ring| then Position(ring, rdIdx - |ring|) else rdIdx
  }

  /** It is the remainder, so the read indices go round the ring. */
  lemma {:induction false} PositionIsRemainder(ring: seq<Entry>, rdIdx: nat)
    requires |ring| > 0
    ensures Position(ring, rdIdx) == rdIdx % |ring|
  {
    if rdIdx < |ring| {
      QuotientUnique(rdIdx, |ring|, 0, rdIdx);
    } else {
      PositionIsRemainder(ring, rdIdx - |ring|);
      SameRemainder(rdIdx - |ring|, |ring|);
    }
  }

  lemma SameRemainder(x: nat, d: nat)
    requires d > 0
    ensures (x + d) % d == x % d
  {
    assert x + d == (x / d + 1) * d + x % d;
    QuotientUnique(x + d, d, x / d + 1, x % d);
  }

  /** Handles the packet at rdIdx, which has not been looked at before. */
  function HandleNew(ring: seq<Entry>, s: Sched, reply: Reply): (r: Sched)
    requires WellFormed(ring, s)
    ensures |r.slots| == |s.slots| && r.lastSlot < |r.slots|
  {
    var p := Position(ring, s.rdIdx);
    match ring[p].request
    case Immediate => Complete(s, p)
    case NdMemcpy(slot, space) =>
      if s.slots[slot].Some? then s.(skipped := s.skipped + [p])
      else if space != SHIM_SPACE then Complete(s, p)
      else if slot >= SHIM_SLOTS || reply.finished then Complete(s.(lastSlot := slot), p)
      else s.(lastSlot := slot, numActive := s.numActive + 1, slots := s.slots[slot := Some(p)])
  }

  /** A packet counts as a dispatch packet until it is completed. */
  predicate Dispatchable(ring: seq<Entry>, s: Sched, p: nat)
    requires p < |ring|
  {
    ring[p].header.AgentDispatch? && p !in s.done
  }

  /** Works on the copy in a slot. */
  function Serve(s: Sched, slot: nat, reply: Reply): (r: Sched)
    requires slot < |s.slots| && s.slots[slot].Some?
    requires s.numActive > 0
    ensures |r.slots| == |s.slots| && r.lastSlot < |r.slots|
  {
    if reply.finished then
      Complete(s.(lastSlot := slot, numActive := s.numActive - 1, slots := s.slots[slot := None]),
               s.slots[slot].value)
    else s.(lastSlot := slot)
  }

  /** Looks at the next packet of the ring. */
  function Peek(ring: seq<Entry>, s: Sched, reply: Reply): (r: Sched)
    requires WellFormed(ring, s)
    ensures |r.slots| == |s.slots| && r.lastSlot < |r.slots|
  {
    if Dispatchable(ring, s, Position(ring, s.rdIdx + 1)) then
      HandleNew(ring, s.(rdIdx := s.rdIdx + 1), reply)
    else s.(lastSlot := NextSlot(s.lastSlot, |s.slots|))
  }

  /** One iteration of the do-while loop. */
  function Iterate(ring: seq<Entry>, s: Sched, reply: Reply): (r: Sched)
    requires WellFormed(ring, s)
    ensures |r.slots| == |s.slots| && r.lastSlot < |r.slots|
  {
    if s.numActive > 1 then
      match RoundRobin(s.slots, reply.stalled, s.lastSlot, s.lastSlot)
      case Some(slot) => Serve(s, slot, reply)
      case None => Peek(ring, s, reply)
    else HandleNew(ring, s, reply)
  }

  /** The loop after as many iterations as there are replies, unless it ended before. */
  function Run(ring: seq<Entry>, s: Sched, replies: seq<Reply>): (r: Sched)
    requires WellFormed(ring, s)
    ensures WellFormed(ring, r) && |r.slots| == |s.slots|
    decreases |replies|
  {
    if replies == [] then s
    else
      var last := |replies| - 1;
      var before := Run(ring, s, replies[..last]);
      if last > 0 && before.numActive <= 1 then before else Iterate(ring, before, replies[last])
  }

  lemma {:induction false} RunFirst(ring: seq<Entry>, s: Sched, reply: Reply)
    requires WellFormed(ring, s)
    ensures Run(ring, s, [reply]) == Iterate(ring, s, reply)
  {
    assert [reply][..0] == [];
  }

  lemma {:induction false} RunNext(ring: seq<Entry>, s: Sched, replies: seq<Reply>, reply: Reply)
    requires WellFormed(ring, s) && |replies| > 0 && Run(ring, s, replies).numActive > 1
    ensures Run(ring, s, replies + [reply]) == Iterate(ring, Run(ring, s, replies), reply)
  {
    assert (replies + [reply])[..|replies|] == replies;
  }

  // ---------- Conservation of packets ----------

  /** Ring positions looked at by read indices from start to the current one. */
  function Window(ring: seq<Entry>, start: nat, s: Sched): seq<nat>
    requires |ring| > 0 && start <= s.rdIdx
  {
    seq<nat>(s.rdIdx + 1 - start, (i: nat) => Position(ring, start + i))
  }

  function Occupants(slot: Option<nat>): multiset<nat> {
    match slot
    case None => multiset{}
    case Some(p) => multiset{p}
  }

  /** Positions of the copies that are in flight. */
  function InFlight(slots: seq<Option<nat>>): multiset<nat> {
    if slots == [] then multiset{}
    else Occupants(slots[0]) + InFlight(slots[1..])
  }

  lemma {:induction false} InFlightUpdate(slots: seq<Option<nat>>, slot: nat, x: Option<nat>)
    requires slot < |slots|
    ensures InFlight(slots[slot := x]) + Occupants(slots[slot]) == InFlight(slots) + Occupants(x)
  {
    if slot == 0 {
      assert slots[slot := x][1..] == slots[1..];
    } else {
      var updated := slots[slot := x];
      assert updated[1..] == slots[1..][slot - 1 := x];
      InFlightUpdate(slots[1..], slot - 1, x);
      SumWithSame(Occupants(slots[0]), InFlight(updated[1..]), Occupants(slots[slot]), InFlight(slots[1..]),
                  Occupants(x));
    }
  }

  lemma {:induction false} SumWithSame(a: multiset<nat>, b: multiset<nat>, c: multiset<nat>, d: multiset<nat>,
                                       e: multiset<nat>)
    requires b + c == d + e
    ensures a + b + c == a + d + e
  {
    assert a + b + c == a + (b + c);
    assert a + d + e == a + (d + e);
  }

  ghost predicate Distinct(s: seq<nat>) {
    forall i, j :: 0 <= i < j < |s| ==> s[i] != s[j]
  }

  /** A copy in flight sits in the slot it asks for and is not completed. */
  ghost predicate SlotsOk(ring: seq<Entry>, s: Sched) {
    forall i :: 0 <= i < |s.slots| && s.slots[i].Some? ==>
      && s.slots[i].value < |ring|
      && s.slots[i].value !in s.done
      && i < SHIM_SLOTS
      && ring[s.slots[i].value].request == NdMemcpy(i, SHIM_SPACE)
  }

  /** Every packet looked at is completed, in flight, skipped, or pending; there are
      numActive - 1 copies in flight; nothing is completed twice. */
  ghost predicate Accounted(ring: seq<Entry>, start: nat, s: Sched, pending: multiset<nat>) {
    && WellFormed(ring, s) && start <= s.rdIdx
    && multiset(s.done) + InFlight(s.slots) + multiset(s.skipped) + pending == multiset(Window(ring, start, s))
    && |InFlight(s.slots)| == s.numActive - 1
    && s.processed == |s.done|
    && Distinct(s.done)
    && SlotsOk(ring, s)
  }

  /** What holds after every iteration of the loop. */
  ghost predicate Conserved(ring: seq<Entry>, start: nat, s: Sched) {
    Accounted(ring, start, s, multiset{})
  }

  lemma {:induction false} SkipAccounted(ring: seq<Entry>, start: nat, s: Sched, p: nat)
    requires Accounted(ring, start, s, multiset{p})
    ensures Conserved(ring, start, s.(skipped := s.skipped + [p]))
  {
    assert Window(ring, start, s.(skipped := s.skipped + [p])) == Window(ring, start, s);
  }

  lemma {:induction false} CompleteAccounted(ring: seq<Entry>, start: nat, s: Sched, p: nat, slot: nat)
    requires Accounted(ring, start, s, multiset{p}) && p !in s.done && slot < |s.slots|
    requires forall i :: 0 <= i < |s.slots| ==> s.slots[i] != Some(p)
    ensures Conserved(ring, start, Complete(s, p))
    ensures Conserved(ring, start, Complete(s.(lastSlot := slot), p))
  {
    assert Window(ring, start, Complete(s, p)) == Window(ring, start, s);
    assert Window(ring, start, Complete(s.(lastSlot := slot), p)) == Window(ring, start, s);
  }

  lemma {:induction false} AddInFlight(
    done: multiset<nat>, a: multiset<nat>, b: multiset<nat>, skipped: multiset<nat>, p: nat)
    requires b == a + multiset{p}
    ensures done + b + skipped + multiset{} == done + a + skipped + multiset{p}
    ensures |b| == |a| + 1
  {
  }

  lemma {:induction false} StageAccounted(ring: seq<Entry>, start: nat, s: Sched, p: nat, slot: nat)
    requires Accounted(ring, start, s, multiset{p}) && p !in s.done && slot < |s.slots| && s.slots[slot].None?
    requires p < |ring| && slot < SHIM_SLOTS && ring[p].request == NdMemcpy(slot, SHIM_SPACE)
    ensures Conserved(ring, start,
      s.(lastSlot := slot, numActive := s.numActive + 1, slots := s.slots[slot := Some(p)]))
  {
    var t := s.(lastSlot := slot, numActive := s.numActive + 1, slots := s.slots[slot := Some(p)]);
    InFlightUpdate(s.slots, slot, Some(p));
    AddInFlight(multiset(s.done), InFlight(s.slots), InFlight(t.slots), multiset(s.skipped), p);
    StageSlots(ring, s, t, p, slot);
    assert Window(ring, start, t) == Window(ring, start, s);
  }

  lemma {:induction false} StageSlots(ring: seq<Entry>, s: Sched, t: Sched, p: nat, slot: nat)
    requires SlotsOk(ring, s) && p !in s.done && slot < |s.slots| && p < |ring| && slot < SHIM_SLOTS
    requires ring[p].request == NdMemcpy(slot, SHIM_SPACE) && t.slots == s.slots[slot := Some(p)] && t.done == s.done
    ensures SlotsOk(ring, t)
  {
  }

  lemma {:induction false} MoveElement(done: seq<nat>, a: multiset<nat>, b: multiset<nat>, c: multiset<nat>, p: nat)
    requires a == b + multiset{p}
    ensures multiset(done + [p]) + b + c == multiset(done) + a + c
    ensures |b| + 1 == |a|
  {
  }

  lemma {:induction false} FinishAccounted(ring: seq<Entry>, start: nat, s: Sched, slot: nat)
    requires Conserved(ring, start, s) && slot < |s.slots| && s.slots[slot].Some?
    ensures s.numActive > 1
    ensures var t := s.(lastSlot := slot, numActive := s.numActive - 1, slots := s.slots[slot := None]);
            Conserved(ring, start, Complete(t, s.slots[slot].value))
  {
    var p, emptied := s.slots[slot].value, s.slots[slot := None];
    InFlightUpdate(s.slots, slot, None);
    assert Occupants(None) == multiset{} && Occupants(s.slots[slot]) == multiset{p};
    MoveElement(s.done, InFlight(s.slots), InFlight(emptied), multiset(s.skipped), p);
    var t := s.(lastSlot := slot, numActive := s.numActive - 1, slots := emptied);
    assert Window(ring, start, Complete(t, p)) == Window(ring, start, s);
    FinishSlots(ring, s, slot);
  }

  lemma {:induction false} FinishSlots(ring: seq<Entry>, s: Sched, slot: nat)
    requires SlotsOk(ring, s) && slot < |s.slots| && s.slots[slot].Some?
    ensures SlotsOk(ring, s.(slots := s.slots[slot := None], done := s.done + [s.slots[slot].value]))
  {
  }

  lemma {:induction false} PeekAccounted(ring: seq<Entry>, start: nat, s: Sched, t: Sched)
    requires Conserved(ring, start, s) && t == s.(rdIdx := s.rdIdx + 1)
    ensures Accounted(ring, start, t, multiset{Position(ring, t.rdIdx)})
  {
    assert Window(ring, start, t) == Window(ring, start, s) + [Position(ring, t.rdIdx)];
  }

  lemma {:induction false} HandleNewConserves(ring: seq<Entry>, start: nat, s: Sched, reply: Reply, r: Sched)
    requires |ring| > 0 && Accounted(ring, start, s, multiset{Position(ring, s.rdIdx)})
    requires Position(ring, s.rdIdx) !in s.done && r == HandleNew(ring, s, reply)
    ensures Conserved(ring, start, r)
  {
    var p := Position(ring, s.rdIdx);
    if ring[p].request.Immediate? {
      assert r == Complete(s, p);
      CompleteAccounted(ring, start, s, p, s.lastSlot);
    } else {
      var slot := ring[p].request.slot;
      if s.slots[slot].Some? {
        SkipAccounted(ring, start, s, p);
      } else if ring[p].request.space != SHIM_SPACE || slot >= SHIM_SLOTS || reply.finished {
        assert r == Complete(s, p) || r == Complete(s.(lastSlot := slot), p);
        CompleteAccounted(ring, start, s, p, slot);
      } else {
        StageAccounted(ring, start, s, p, slot);
      }
    }
  }

  lemma {:induction false} LastSlotIrrelevant(ring: seq<Entry>, start: nat, s: Sched, slot: nat)
    requires Conserved(ring, start, s) && slot < |s.slots|
    ensures Conserved(ring, start, s.(lastSlot := slot))
  {
    assert Window(ring, start, s.(lastSlot := slot)) == Window(ring, start, s);
  }

  lemma {:induction false} ServeConserves(ring: seq<Entry>, start: nat, s: Sched, slot: nat, reply: Reply)
    requires Conserved(ring, start, s) && s.numActive > 1 && slot < |s.slots| && s.slots[slot].Some?
    ensures Conserved(ring, start, Serve(s, slot, reply))
  {
    if reply.finished {
      FinishAccounted(ring, start, s, slot);
    } else {
      LastSlotIrrelevant(ring, start, s, slot);
    }
  }

  lemma {:induction false} PeekNewConserves(ring: seq<Entry>, start: nat, s: Sched, t: Sched, reply: Reply)
    requires Conserved(ring, start, s) && t == s.(rdIdx := s.rdIdx + 1)
    requires Position(ring, t.rdIdx) !in t.done
    ensures WellFormed(ring, t) && Conserved(ring, start, HandleNew(ring, t, reply))
  {
    PeekAccounted(ring, start, s, t);
    HandleNewConserves(ring, start, t, reply, HandleNew(ring, t, reply));
  }

  lemma {:induction false} PeekNothingConserves(ring: seq<Entry>, start: nat, s: Sched, reply: Reply, r: Sched)
    requires Conserved(ring, start, s) && !Dispatchable(ring, s, Position(ring, s.rdIdx + 1))
    requires r == Peek(ring, s, reply)
    ensures Conserved(ring, start, r)
  {
    assert r == s.(lastSlot := NextSlot(s.lastSlot, |s.slots|));
    LastSlotIrrelevant(ring, start, s, r.lastSlot);
  }

  lemma {:induction false} PeekNextConserves(ring: seq<Entry>, start: nat, s: Sched, reply: Reply, r: Sched)
    requires Conserved(ring, start, s) && Dispatchable(ring, s, Position(ring, s.rdIdx + 1))
    requires r == Peek(ring, s, reply)
    ensures Conserved(ring, start, r)
  {
    var t := s.(rdIdx := s.rdIdx + 1);
    assert r == HandleNew(ring, t, reply);
    PeekNewConserves(ring, start, s, t, reply);
  }

  lemma {:induction false} PeekConserves(ring: seq<Entry>, start: nat, s: Sched, reply: Reply, r: Sched)
    requires Conserved(ring, start, s) && r == Peek(ring, s, reply)
    ensures Conserved(ring, start, r)
  {
    if Dispatchable(ring, s, Position(ring, s.rdIdx + 1)) {
      PeekNextConserves(ring, start, s, reply, r);
    } else {
      PeekNothingConserves(ring, start, s, reply, r);
    }
  }

  /** Every iteration after the first keeps the account. */
  lemma {:induction false} IterateConserves(ring: seq<Entry>, start: nat, s: Sched, reply: Reply)
    requires Conserved(ring, start, s) && s.numActive > 1
    ensures Conserved(ring, start, Iterate(ring, s, reply))
  {
    match RoundRobin(s.slots, reply.stalled, s.lastSlot, s.lastSlot)
    case Some(slot) => ServeConserves(ring, start, s, slot, reply);
    case None => PeekConserves(ring, start, s, reply, Peek(ring, s, reply));
  }

  lemma {:induction false} NothingInFlight(n: nat)
    ensures InFlight(seq(n, _ => None)) == multiset{}
  {
    if n > 0 {
      var slots := seq<Option<nat>>(n, _ => None);
      assert slots[1..] == seq<Option<nat>>(n - 1, _ => None);
      NothingInFlight(n - 1);
      assert InFlight(slots) == Occupants(slots[0]) + InFlight(slots[1..]);
    }
  }

  /** Whatever the hardware answers, the account is kept over the whole run. */
  lemma {:induction false} RunConserves(ring: seq<Entry>, start: nat, slots: nat, replies: seq<Reply>)
    requires WellFormed(ring, Start(start, slots)) && |replies| > 0
    ensures Conserved(ring, start, Run(ring, Start(start, slots), replies))
    decreases |replies|
  {
    var s, last := Start(start, slots), |replies| - 1;
    if last == 0 {
      NothingInFlight(slots);
      assert Window(ring, start, s) == [Position(ring, start)];
      assert replies[..0] == [];
      HandleNewConserves(ring, start, s, replies[0], HandleNew(ring, s, replies[0]));
    } else {
      RunConserves(ring, start, slots, replies[..last]);
      var before := Run(ring, s, replies[..last]);
      if before.numActive > 1 {
        IterateConserves(ring, start, before, replies[last]);
      }
    }
  }

  // ---------- On exit ----------

  lemma {:induction false} InFlightMember(slots: seq<Option<nat>>, i: nat)
    requires i < |slots| && slots[i].Some?
    ensures slots[i].value in InFlight(slots)
  {
    if i > 0 {
      InFlightMember(slots[1..], i - 1);
    }
  }

  /** When the loop ends no slot is valid, every packet looked at was completed exactly once
      or skipped, and the read index, which moves by the number of completed packets, ends
      just past the window if and only if nothing was skipped. */
  lemma {:induction false} ExitConserves(ring: seq<Entry>, start: nat, slots: nat, replies: seq<Reply>)
    requires WellFormed(ring, Start(start, slots)) && |replies| > 0
    requires Run(ring, Start(start, slots), replies).numActive <= 1
    ensures var r := Run(ring, Start(start, slots), replies);
      && (forall i :: 0 <= i < |r.slots| ==> r.slots[i].None?)
      && start <= r.rdIdx
      && multiset(r.done) + multiset(r.skipped) == multiset(Window(ring, start, r))
      && Distinct(r.done)
      && (start + r.processed == r.rdIdx + 1 <==> r.skipped == [])
  {
    RunConserves(ring, start, slots, replies);
    var r := Run(ring, Start(start, slots), replies);
    forall i | 0 <= i < |r.slots|
      ensures r.slots[i].None?
    {
      if r.slots[i].Some? {
        InFlightMember(r.slots, i);
        assert false;
      }
    }
    assert InFlight(r.slots) == multiset{};
    assert |multiset(r.done) + multiset(r.skipped)| == |r.done| + |r.skipped|;
    assert |multiset(Window(ring, start, r))| == r.rdIdx + 1 - start;
  }

  /** Read indices less than a ring apart stand for different packets. */
  lemma {:induction false} PositionsDiffer(ring: seq<Entry>, a: nat, b: nat)
    requires |ring| > 0 && a < b < a + |ring|
    ensures Position(ring, a) != Position(ring, b)
  {
    if a >= |ring| {
      PositionsDiffer(ring, a - |ring|, b - |ring|);
    }
  }

  lemma {:induction false} InFlightInWindow(ring: seq<Entry>, start: nat, s: Sched, q: nat)
    requires Conserved(ring, start, s) && q in InFlight(s.slots)
    ensures q in Window(ring, start, s)
  {
    assert q in multiset(Window(ring, start, s));
  }

  /** The search serves some other ready slot whenever there is one. */
  lemma {:induction false} RoundRobinComplete(slots: seq<Option<nat>>, stalled: set<nat>, slot: nat, last: nat, i: nat)
    requires slot < |slots| && last < |slots| && i < |slots| && i != last
    requires Distance(i, last, |slots|) < Distance(slot, last, |slots|)
    requires slots[i].Some? && i !in stalled
    ensures RoundRobin(slots, stalled, slot, last).Some?
    decreases Distance(slot, last, |slots|)
  {
    var next := NextSlot(slot, |slots|);
    if next != i {
      RoundRobinComplete(slots, stalled, next, last, i);
    }
  }

  // ---------- Which slot is served ----------

  /** The slot that comes k places after a slot, going around. */
  function SlotAfter(slot: nat, k: nat, n: nat): nat
    requires n > 0
  {
    (slot + k) % n
  }

  /** The slot holds a copy whose channel is not stalled. */
  predicate CanGoOn(slots: seq<Option<nat>>, stalled: set<nat>, i: nat) {
    i < |slots| && slots[i].Some? && i !in stalled
  }

  /** The slot k places after last is the first one after last that can go on. */
  ghost predicate IsNearest(slots: seq<Option<nat>>, stalled: set<nat>, last: nat, k: nat) {
    && 0 < k < |slots| && CanGoOn(slots, stalled, SlotAfter(last, k, |slots|))
    && forall j: nat :: 0 < j < k ==> !CanGoOn(slots, stalled, SlotAfter(last, j, |slots|))
  }

  lemma AfterIs(last: nat, k: nat, n: nat)
    requires last < n && k <= n
    ensures SlotAfter(last, k, n) == if last + k < n then last + k else last + k - n
  {
    if last + k < n {
      QuotientUnique(last + k, n, 0, last + k);
    } else {
      QuotientUnique(last + k, n, 1, last + k - n);
    }
  }

  lemma NextIsAfter(last: nat, d: nat, n: nat)
    requires d < n && last < n
    ensures SlotAfter(last, d, n) < n && NextSlot(SlotAfter(last, d, n), n) == SlotAfter(last, d + 1, n)
    ensures SlotAfter(last, d + 1, n) == last <==> d + 1 == n
  {
    AfterIs(last, d, n);
    AfterIs(last, d + 1, n);
  }

  /** From d places after last on, the search finds the first slot that can go on. */
  lemma {:induction false} SearchFrom(slots: seq<Option<nat>>, stalled: set<nat>, last: nat, d: nat)
    returns (k: nat)
    requires last < |slots| && d < |slots|
    ensures SlotAfter(last, d, |slots|) < |slots| && d < k <= |slots|
    ensures forall j: nat :: d < j < k ==> !CanGoOn(slots, stalled, SlotAfter(last, j, |slots|))
    ensures k < |slots| ==> CanGoOn(slots, stalled, SlotAfter(last, k, |slots|))
    ensures RoundRobin(slots, stalled, SlotAfter(last, d, |slots|), last)
         == if k < |slots| then Some(SlotAfter(last, k, |slots|)) else None
    decreases |slots| - d
  {
    NextIsAfter(last, d, |slots|);
    if d + 1 == |slots| || CanGoOn(slots, stalled, SlotAfter(last, d + 1, |slots|)) {
      k := d + 1;
    } else {
      k := SearchFrom(slots, stalled, last, d + 1);
    }
  }

  /** The search returns the nearest slot after the last one that can go on, and nothing exactly
      when no other slot can. */
  lemma {:induction false} RoundRobinNearest(slots: seq<Option<nat>>, stalled: set<nat>, last: nat)
    requires last < |slots|
    ensures forall i :: RoundRobin(slots, stalled, last, last) == Some(i) <==>
      exists k :: IsNearest(slots, stalled, last, k) && i == SlotAfter(last, k, |slots|)
    ensures RoundRobin(slots, stalled, last, last) == None <==>
      forall i :: 0 <= i < |slots| && i != last ==> !CanGoOn(slots, stalled, i)
  {
    var n := |slots|;
    var k := SearchFrom(slots, stalled, last, 0);
    AfterIs(last, 0, n);
    if k < n {
      assert IsNearest(slots, stalled, last, k);
      AfterIs(last, k, n);
      OneNearest(slots, stalled, last, k);
    } else {
      NoneAhead(slots, stalled, last);
    }
  }

  lemma OneNearest(slots: seq<Option<nat>>, stalled: set<nat>, last: nat, k: nat)
    requires IsNearest(slots, stalled, last, k)
    ensures forall k' :: IsNearest(slots, stalled, last, k') ==> k' == k
  {
  }

  lemma NoneAhead(slots: seq<Option<nat>>, stalled: set<nat>, last: nat)
    requires last < |slots|
    requires forall j: nat :: 0 < j < |slots| ==> !CanGoOn(slots, stalled, SlotAfter(last, j, |slots|))
    ensures forall i :: 0 <= i < |slots| && i != last ==> !CanGoOn(slots, stalled, i)
  {
    forall i | 0 <= i < |slots| && i != last
      ensures !CanGoOn(slots, stalled, i)
    {
      PlacesToIs(last, i, |slots|);
    }
  }

  /** How many places slot i comes after last. */
  function PlacesTo(last: nat, i: nat, n: nat): (k: nat)
    requires last < n && i < n
    ensures k < n && (k == 0 <==> i == last)
  {
    if i < last then n + i - last else i - last
  }

  lemma PlacesToIs(last: nat, i: nat, n: nat)
    requires last < n && i < n
    ensures SlotAfter(last, PlacesTo(last, i, n), n) == i
  {
    AfterIs(last, PlacesTo(last, i, n), n);
  }

  /** While a slot can go on, a search serves it or brings the last slot nearer to it. */
  lemma {:induction false} SearchComesNearer(slots: seq<Option<nat>>, stalled: set<nat>, last: nat, i: nat)
    returns (j: nat)
    requires last < |slots| && i != last && CanGoOn(slots, stalled, i)
    ensures RoundRobin(slots, stalled, last, last) == Some(j)
    ensures j != i ==> PlacesTo(j, i, |slots|) < PlacesTo(last, i, |slots|)
  {
    var n, d := |slots|, PlacesTo(last, i, |slots|);
    var k := SearchFrom(slots, stalled, last, 0);
    AfterIs(last, 0, n);
    PlacesToIs(last, i, n);
    assert k <= d;
    j := SlotAfter(last, k, n);
    AfterIs(last, k, n);
  }

  ghost predicate NeverStalls(replies: seq<Reply>, i: nat) {
    forall k :: 0 <= k < |replies| ==> i !in replies[k].stalled
  }

  /** The copy in slot i of s is still there at t, and its turn is to come. */
  ghost predicate Waiting(ring: seq<Entry>, start: nat, s: Sched, t: Sched, i: nat) {
    && Conserved(ring, start, t) && |t.slots| == |s.slots|
    && i < |s.slots| && s.slots[i].Some? && t.slots[i] == s.slots[i] && i != t.lastSlot
  }

  /** Iteration m of a run from s works on the copy that slot i holds in s. */
  ghost predicate ServedAt(ring: seq<Entry>, s: Sched, i: nat, replies: seq<Reply>, m: nat)
    requires WellFormed(ring, s) && i < |s.slots| && m < |replies|
  {
    var t := Run(ring, s, replies[..m]);
    && t.slots[i].Some? && t.slots[i] == s.slots[i] && t.numActive > 1
    && Run(ring, s, replies[..m + 1]) == Serve(t, i, replies[m])
  }

  /** A copy whose channel stays ready has its turn within as many iterations as its slot is
      places after the last one, so within fewer than there are slots. */
  lemma {:induction false} ServedInTurn(ring: seq<Entry>, start: nat, s: Sched, i: nat, replies: seq<Reply>)
    returns (m: nat)
    requires Conserved(ring, start, s) && i < |s.slots| && s.slots[i].Some? && i != s.lastSlot
    requires NeverStalls(replies, i) && PlacesTo(s.lastSlot, i, |s.slots|) <= |replies|
    ensures m < PlacesTo(s.lastSlot, i, |s.slots|) < |s.slots|
    ensures ServedAt(ring, s, i, replies, m)
  {
    assert replies[..0] == [];
    m := ServedFrom(ring, start, s, s, i, replies, 0);
  }

  lemma {:induction false} ServedFrom(
    ring: seq<Entry>, start: nat, s: Sched, t: Sched, i: nat, replies: seq<Reply>, m0: nat) returns (m: nat)
    requires WellFormed(ring, s) && m0 <= |replies| && t == Run(ring, s, replies[..m0])
    requires Waiting(ring, start, s, t, i) && NeverStalls(replies, i)
    requires m0 + PlacesTo(t.lastSlot, i, |s.slots|) <= |replies|
    ensures m0 <= m < m0 + PlacesTo(t.lastSlot, i, |s.slots|)
    ensures ServedAt(ring, s, i, replies, m)
    decreases PlacesTo(t.lastSlot, i, |s.slots|)
  {
    var now, r := Turn(ring, start, s, t, i, replies, m0);
    if now {
      m := m0;
    } else {
      m := ServedFrom(ring, start, s, r, i, replies, m0 + 1);
    }
  }

  /** Iteration m of the run. */
  lemma {:induction false} Turn(
    ring: seq<Entry>, start: nat, s: Sched, t: Sched, i: nat, replies: seq<Reply>, m: nat)
    returns (now: bool, r: Sched)
    requires WellFormed(ring, s) && m < |replies| && t == Run(ring, s, replies[..m])
    requires Waiting(ring, start, s, t, i) && CanGoOn(t.slots, replies[m].stalled, i)
    ensures r == Run(ring, s, replies[..m + 1])
    ensures if now then ServedAt(ring, s, i, replies, m)
            else
              && Waiting(ring, start, s, r, i)
              && PlacesTo(r.lastSlot, i, |s.slots|) < PlacesTo(t.lastSlot, i, |s.slots|)
  {
    now, r := WaitOrServe(ring, start, s, t, i, replies[m]);
    RunAfter(ring, s, t, replies, m);
    if now {
      ServedNow(ring, s, t, i, replies, m);
    }
  }

  lemma {:induction false} RunAfter(ring: seq<Entry>, s: Sched, t: Sched, replies: seq<Reply>, m: nat)
    requires WellFormed(ring, s) && m < |replies| && t == Run(ring, s, replies[..m]) && t.numActive > 1
    ensures Run(ring, s, replies[..m + 1]) == Iterate(ring, t, replies[m])
  {
    assert replies[..m + 1] == replies[..m] + [replies[m]];
    RunOn(ring, s, replies[..m], replies[m]);
  }

  lemma {:induction false} ServedNow(ring: seq<Entry>, s: Sched, t: Sched, i: nat, replies: seq<Reply>, m: nat)
    requires WellFormed(ring, s) && m < |replies| && t == Run(ring, s, replies[..m]) && t.numActive > 1
    requires i < |s.slots| && t.slots[i].Some? && t.slots[i] == s.slots[i]
    requires Run(ring, s, replies[..m + 1]) == Serve(t, i, replies[m])
    ensures ServedAt(ring, s, i, replies, m)
  {
  }

  /** An iteration works on the waiting copy or leaves it waiting, nearer to its turn. */
  lemma {:induction false} WaitOrServe(ring: seq<Entry>, start: nat, s: Sched, t: Sched, i: nat, reply: Reply)
    returns (now: bool, r: Sched)
    requires Waiting(ring, start, s, t, i) && CanGoOn(t.slots, reply.stalled, i)
    ensures t.numActive > 1 && r == Iterate(ring, t, reply)
    ensures if now then r == Serve(t, i, reply)
            else
              && Waiting(ring, start, s, r, i)
              && PlacesTo(r.lastSlot, i, |s.slots|) < PlacesTo(t.lastSlot, i, |s.slots|)
  {
    var j := OneTurn(ring, start, t, i, reply);
    now, r := j == i, Iterate(ring, t, reply);
  }

  /** One iteration while a copy can go on. */
  lemma {:induction false} OneTurn(ring: seq<Entry>, start: nat, t: Sched, i: nat, reply: Reply) returns (j: nat)
    requires Conserved(ring, start, t) && i != t.lastSlot && CanGoOn(t.slots, reply.stalled, i)
    ensures t.numActive > 1 && j < |t.slots| && t.slots[j].Some?
    ensures var r := Iterate(ring, t, reply);
      && Conserved(ring, start, r) && r == Serve(t, j, reply) && r.lastSlot == j
      && (j != i ==> r.slots[i] == t.slots[i] && PlacesTo(j, i, |t.slots|) < PlacesTo(t.lastSlot, i, |t.slots|))
  {
    FinishAccounted(ring, start, t, i);
    j := SearchComesNearer(t.slots, reply.stalled, t.lastSlot, i);
    ServeConserves(ring, start, t, j, reply);
  }

  /** One more reply is one more iteration while copies are in flight. */
  lemma {:induction false} RunOn(ring: seq<Entry>, s: Sched, replies: seq<Reply>, reply: Reply)
    requires WellFormed(ring, s) && Run(ring, s, replies).numActive > 1
    ensures Run(ring, s, replies + [reply]) == Iterate(ring, Run(ring, s, replies), reply)
  {
    if replies == [] {
      RunFirst(ring, s, reply);
      assert replies + [reply] == [reply];
    } else {
      RunNext(ring, s, replies, reply);
    }
  }

  /** A copy that is worked on leaves the last slot at its own; nothing else that a new packet asks
      for moves it. */
  lemma NewCopyIsLast(ring: seq<Entry>, s: Sched, reply: Reply)
    requires WellFormed(ring, s)
    ensures var request := ring[Position(ring, s.rdIdx)].request;
      HandleNew(ring, s, reply).lastSlot ==
        if request.NdMemcpy? && request.space == 2 && s.slots[request.slot].None? then request.slot else s.lastSlot
  {
  }

  // ---------- How a packet is lost ----------

  /** Two copies that ask for slot 0, an operation that finishes at once, and an invalid entry. */
  function BusySlotRing(): seq<Entry> {
    [Entry(AgentDispatch, NdMemcpy(0, SHIM_SPACE)), Entry(AgentDispatch, NdMemcpy(0, SHIM_SPACE)),
     Entry(AgentDispatch, Immediate), Entry(Invalid, Immediate)]
  }

  function FirstCopyStallsTwice(): seq<Reply> {
    [Reply({}, false), Reply({}, false), Reply({}, false), Reply({}, false), Reply({}, true)]
  }

  lemma {:induction false} BusySlotRun(slots: seq<Option<nat>>)
    requires slots == Start(0, 80).slots[0 := Some(0)]
    ensures Run(BusySlotRing(), Start(0, 80), FirstCopyStallsTwice()[..4]) == Sched(2, 1, 2, 1, slots, [2], [1])
  {
    var ring, stall := BusySlotRing(), Reply({}, false);
    RunFirst(ring, Start(0, 80), stall);
    assert Run(ring, Start(0, 80), [stall]) == Sched(0, 0, 2, 0, slots, [], []);
    RunNext(ring, Start(0, 80), [stall], stall);
    assert [stall] + [stall] == [stall, stall];
    assert Run(ring, Start(0, 80), [stall, stall]) == Sched(1, 0, 2, 0, slots, [], [1]);
    RunNext(ring, Start(0, 80), [stall, stall], stall);
    assert [stall, stall] + [stall] == [stall, stall, stall];
    assert Run(ring, Start(0, 80), [stall, stall, stall]) == Sched(2, 0, 2, 1, slots, [2], [1]);
    RunNext(ring, Start(0, 80), [stall, stall, stall], stall);
    assert FirstCopyStallsTwice()[..4] == [stall, stall, stall] + [stall];
  }

  /** The first copy stalls, the second finds its slot busy, the third packet completes,
      the first copy completes. Two packets were completed, so the read index ends at the
      third packet, which is already invalid, and the second one is never handled. */
  lemma {:induction false} BusySlotLosesPacket()
    ensures var r := Run(BusySlotRing(), Start(0, 80), FirstCopyStallsTwice());
      && r.numActive == 1 && r.processed == 2 && r.done == [2, 0] && r.skipped == [1]
      && !Dispatchable(BusySlotRing(), r, Position(BusySlotRing(), 0 + r.processed))
      && Dispatchable(BusySlotRing(), r, 1)
  {
    var replies, slots := FirstCopyStallsTwice(), Start(0, 80).slots[0 := Some(0)];
    BusySlotRun(slots);
    RunNext(BusySlotRing(), Start(0, 80), replies[..4], replies[4]);
    assert replies == replies[..4] + [replies[4]];
    RoundRobinComplete(slots, {}, 1, 1, 0);
    assert RoundRobin(slots, {}, 1, 1) == Some(0);
  }
}
