/** Whether the scheduling loop ends once the hardware keeps answering: with every ring but
    those that hold nothing but copies for one slot. */
module DispatchEnds {
  import opened DispatchSpec
  import opened DispatchSkips
  import opened Wrappers

  /** No channel is stalled and the copy that is worked on finishes. */
  const READY := Reply({}, true)

  function Readies(k: nat): seq<Reply> {
    seq(k, _ => READY)
  }

  /** One iteration of the loop. */
  type Step = Sched -> Sched

  /** f is the iteration when the hardware answers so. */
  ghost predicate ReadyAt(ring: seq<Entry>, f: Step, s: Sched) {
    WellFormed(ring, s) ==> f(s) == Iterate(ring, s, READY)
  }

  ghost predicate IsReady(ring: seq<Entry>, f: Step) {
    forall s :: ReadyAt(ring, f, s)
  }

  function ReadyStep(ring: seq<Entry>): Step {
    (s: Sched) => if WellFormed(ring, s) then Iterate(ring, s, READY) else s
  }

  /** The loop when the hardware answers so at every poll. */
  function Polls(f: Step, s: Sched, k: nat): Sched
    decreases k
  {
    if k == 0 || s.numActive <= 1 then s else Polls(f, f(s), k - 1)
  }

  lemma {:induction false} PollsSnoc(f: Step, s: Sched, k: nat)
    ensures Polls(f, s, k + 1) == (var r := Polls(f, s, k); if r.numActive <= 1 then r else f(r))
    decreases k
  {
    if k > 0 && s.numActive > 1 {
      PollsSnoc(f, f(s), k - 1);
    }
  }

  /** It is what the loop does after any beginning. */
  lemma {:induction false} RunThenPolls(ring: seq<Entry>, f: Step, s: Sched, replies: seq<Reply>, k: nat)
    requires IsReady(ring, f) && WellFormed(ring, s) && |replies| > 0
    ensures Run(ring, s, replies + Readies(k)) == Polls(f, Run(ring, s, replies), k)
    decreases k
  {
    if k == 0 {
      assert replies + Readies(0) == replies;
    } else {
      RunThenPolls(ring, f, s, replies, k - 1);
      PollsSnoc(f, Run(ring, s, replies), k - 1);
      OneMoreReady(ring, f, s, replies + Readies(k - 1));
      assert replies + Readies(k) == replies + Readies(k - 1) + [READY];
    }
  }

  lemma {:induction false} OneMoreReady(ring: seq<Entry>, f: Step, s: Sched, replies: seq<Reply>)
    requires IsReady(ring, f) && WellFormed(ring, s) && |replies| > 0
    ensures Run(ring, s, replies + [READY]) ==
      (var r := Run(ring, s, replies); if r.numActive <= 1 then r else f(r))
  {
    assert (replies + [READY])[..|replies|] == replies;
    assert ReadyAt(ring, f, Run(ring, s, replies));
  }

  // ---------- A slot other than the last one is occupied ----------

  ghost predicate OtherOccupied(s: Sched) {
    exists i :: 0 <= i < |s.slots| && i != s.lastSlot && s.slots[i].Some?
  }

  lemma {:induction false} SomeInFlight(slots: seq<Option<nat>>)
    requires |InFlight(slots)| > 0
    ensures exists i :: 0 <= i < |slots| && slots[i].Some?
  {
    if slots[0].None? {
      SomeInFlight(slots[1..]);
      var i :| 0 <= i < |slots[1..]| && slots[1..][i].Some?;
      assert slots[i + 1].Some?;
    }
  }

  /** A copy in another slot than the last one is finished by the next poll. */
  lemma {:induction false} OtherFinishes(ring: seq<Entry>, f: Step, start: nat, s: Sched, k: nat) returns (r: Sched)
    requires IsReady(ring, f) && Conserved(ring, start, s) && s.numActive > 1 && OtherOccupied(s) && k > 0
    ensures Conserved(ring, start, r) && r.numActive == s.numActive - 1 && r.slots[r.lastSlot].None?
    ensures Polls(f, s, k) == Polls(f, r, k - 1)
  {
    var i :| 0 <= i < |s.slots| && i != s.lastSlot && s.slots[i].Some?;
    RoundRobinComplete(s.slots, {}, s.lastSlot, s.lastSlot, i);
    IterateConserves(ring, start, s, READY);
    assert ReadyAt(ring, f, s);
    r := Iterate(ring, s, READY);
  }

  lemma {:induction false} FreeHasOther(ring: seq<Entry>, start: nat, s: Sched)
    requires Conserved(ring, start, s) && s.slots[s.lastSlot].None? && s.numActive > 1
    ensures OtherOccupied(s)
  {
    SomeInFlight(s.slots);
  }

  /** One copy after the other is finished. */
  lemma {:induction false} FreeEnds(ring: seq<Entry>, f: Step, start: nat, s: Sched, k: nat)
    requires IsReady(ring, f) && Conserved(ring, start, s) && s.slots[s.lastSlot].None? && k + 1 >= s.numActive
    ensures Polls(f, s, k).numActive <= 1
    decreases k
  {
    if s.numActive > 1 {
      FreeHasOther(ring, start, s);
      var r := OtherFinishes(ring, f, start, s, k);
      FreeEnds(ring, f, start, r, k - 1);
    }
  }

  lemma {:induction false} OtherEnds(ring: seq<Entry>, f: Step, start: nat, s: Sched, k: nat)
    requires IsReady(ring, f) && Conserved(ring, start, s) && OtherOccupied(s) && k + 1 >= s.numActive
    ensures Polls(f, s, k).numActive <= 1
  {
    if s.numActive > 1 {
      var r := OtherFinishes(ring, f, start, s, k);
      FreeEnds(ring, f, start, r, k - 1);
    }
  }

  // ---------- Only the last slot is occupied ----------

  /** The one copy in flight is in the last slot, at which the search does not look. */
  ghost predicate OnlyLast(s: Sched) {
    && s.lastSlot < |s.slots| && s.slots[s.lastSlot].Some?
    && forall i :: 0 <= i < |s.slots| && i != s.lastSlot ==> s.slots[i].None?
  }

  lemma {:induction false} SearchFindsNothing(slots: seq<Option<nat>>, stalled: set<nat>, slot: nat, last: nat)
    requires slot < |slots| && last < |slots| && forall i :: 0 <= i < |slots| && i != last ==> slots[i].None?
    ensures RoundRobin(slots, stalled, slot, last) == None
    decreases Distance(slot, last, |slots|)
  {
    var next := NextSlot(slot, |slots|);
    if next != last {
      SearchFindsNothing(slots, stalled, next, last);
    }
  }

  lemma {:induction false} NothingInFlightIn(slots: seq<Option<nat>>)
    requires forall i :: 0 <= i < |slots| ==> slots[i].None?
    ensures InFlight(slots) == multiset{}
  {
    if slots != [] {
      NothingInFlightIn(slots[1..]);
    }
  }

  lemma SameMultiset(a: multiset<nat>, p: nat)
    requires multiset{} + Occupants(Some(p)) == a + Occupants(None)
    ensures |a| == 1
  {
    assert a + multiset{} == a && multiset{} + multiset{p} == multiset{p};
  }

  lemma {:induction false} OneInFlight(slots: seq<Option<nat>>, i: nat)
    requires i < |slots| && slots[i].Some? && forall j :: 0 <= j < |slots| && j != i ==> slots[j].None?
    ensures |InFlight(slots)| == 1
  {
    InFlightUpdate(slots, i, None);
    NothingInFlightIn(slots[i := None]);
    SameMultiset(InFlight(slots), slots[i].value);
  }

  lemma {:induction false} OneActive(ring: seq<Entry>, start: nat, s: Sched)
    requires Conserved(ring, start, s) && OnlyLast(s)
    ensures s.numActive == 2
  {
    OneInFlight(s.slots, s.lastSlot);
  }

  /** The entry is a dispatch packet for a copy in this slot. */
  predicate IsCopyFor(e: Entry, slot: nat) {
    e.header.AgentDispatch? && e.request.NdMemcpy? && e.request.slot == slot
  }

  /** Handling a new packet at position p then: it is completed, perhaps in another slot, or it
      is a copy for the occupied slot and passed over. */
  lemma {:induction false} HandleWithOne(ring: seq<Entry>, s: Sched, p: nat)
    requires WellFormed(ring, s) && OnlyLast(s) && p == Position(ring, s.rdIdx)
    ensures var r := HandleNew(ring, s, READY);
      && r.slots == s.slots && r.numActive == s.numActive && r.rdIdx == s.rdIdx
      && (r.lastSlot == s.lastSlot ==>
            r.done == s.done + [p]
            || (r.done == s.done && ring[p].request.NdMemcpy? && ring[p].request.slot == s.lastSlot))
  {
  }

  /** The read index has gone on by one, over a packet that is completed now or that is a copy
      for the occupied slot. */
  ghost predicate WentOn(ring: seq<Entry>, s: Sched, r: Sched)
    requires |ring| > 0
  {
    var p := Position(ring, s.rdIdx + 1);
    && OnlyLast(r) && r.lastSlot == s.lastSlot && r.rdIdx == s.rdIdx + 1 && Dispatchable(ring, s, p)
    && (r.done == s.done + [p] || (r.done == s.done && IsCopyFor(ring[p], s.lastSlot)))
  }

  /** One poll then: the last slot is no longer the occupied one, or the read index goes on. */
  lemma {:induction false} PeekStep(ring: seq<Entry>, s: Sched)
    requires WellFormed(ring, s) && OnlyLast(s) && |s.slots| > 1
    ensures var r := Peek(ring, s, READY);
      r.slots == s.slots && r.numActive == s.numActive && (OtherOccupied(r) || WentOn(ring, s, r))
  {
    var r, p := Peek(ring, s, READY), Position(ring, s.rdIdx + 1);
    if Dispatchable(ring, s, p) {
      HandleWithOne(ring, s.(rdIdx := s.rdIdx + 1), p);
    }
    if r.lastSlot != s.lastSlot {
      assert r.slots[s.lastSlot].Some?;
      assert OtherOccupied(r);
    }
  }

  lemma {:induction false} PollStep(ring: seq<Entry>, f: Step, start: nat, s: Sched, k: nat) returns (r: Sched)
    requires IsReady(ring, f) && Conserved(ring, start, s) && OnlyLast(s) && |s.slots| > 1 && k > 0
    ensures Conserved(ring, start, r) && |r.slots| > 1 && r.numActive == 2 && (OtherOccupied(r) || WentOn(ring, s, r))
    ensures Polls(f, s, k) == Polls(f, r, k - 1)
  {
    OneActive(ring, start, s);
    IterateConserves(ring, start, s, READY);
    SearchFindsNothing(s.slots, {}, s.lastSlot, s.lastSlot);
    PeekStep(ring, s);
    assert ReadyAt(ring, f, s);
    r := Peek(ring, s, READY);
  }

  // ---------- The loop ends ----------

  /** With a position ahead that is no packet to handle, n polls are enough to come there. */
  lemma {:induction false} EndsAtGap(ring: seq<Entry>, f: Step, start: nat, s: Sched, p: nat, n: nat, k: nat)
    requires IsReady(ring, f) && Conserved(ring, start, s) && OnlyLast(s) && |s.slots| > 1
    requires n > 0 && p == Position(ring, s.rdIdx + n) && !Dispatchable(ring, s, p) && k > n
    ensures Polls(f, s, k).numActive <= 1
    decreases n
  {
    var r := PollStep(ring, f, start, s, k);
    if OtherOccupied(r) {
      OtherEnds(ring, f, start, r, k - 1);
    } else {
      StillGap(ring, s, r, p, n);
      EndsAtGap(ring, f, start, r, p, n - 1, k - 1);
    }
  }

  lemma {:induction false} StillGap(ring: seq<Entry>, s: Sched, r: Sched, p: nat, n: nat)
    requires |ring| > 0 && n > 0 && p == Position(ring, s.rdIdx + n) && !Dispatchable(ring, s, p) && WentOn(ring, s, r)
    ensures n > 1 && p == Position(ring, r.rdIdx + (n - 1)) && !Dispatchable(ring, r, p)
  {
  }

  /** With a packet ahead that is no copy for the occupied slot, once around the ring more. */
  lemma {:induction false} EndsAtOther(ring: seq<Entry>, f: Step, start: nat, s: Sched, p: nat, n: nat, k: nat)
    requires IsReady(ring, f) && Conserved(ring, start, s) && OnlyLast(s) && |s.slots| > 1
    requires n > 0 && p == Position(ring, s.rdIdx + n) && !IsCopyFor(ring[p], s.lastSlot) && k > n + |ring|
    ensures Polls(f, s, k).numActive <= 1
    decreases n
  {
    var r := PollStep(ring, f, start, s, k);
    if OtherOccupied(r) {
      OtherEnds(ring, f, start, r, k - 1);
    } else {
      StillOther(ring, s, r, p, n);
      if n > 1 {
        EndsAtOther(ring, f, start, r, p, n - 1, k - 1);
      } else {
        EndsAtGap(ring, f, start, r, p, |ring|, k - 1);
      }
    }
  }

  lemma {:induction false} StillOther(ring: seq<Entry>, s: Sched, r: Sched, p: nat, n: nat)
    requires |ring| > 0 && n > 0 && p == Position(ring, s.rdIdx + n)
    requires !IsCopyFor(ring[p], s.lastSlot) && WentOn(ring, s, r)
    ensures n > 1 ==> p == Position(ring, r.rdIdx + (n - 1)) && !IsCopyFor(ring[p], r.lastSlot)
    ensures n == 1 ==> p == Position(ring, r.rdIdx + |ring|) && !Dispatchable(ring, r, p)
  {
    OnceAround(ring, r.rdIdx);
  }

  /** Every position is ahead. */
  lemma {:induction false} PositionAhead(ring: seq<Entry>, a: nat, p: nat) returns (n: nat)
    requires p < |ring|
    ensures 0 < n <= |ring| && Position(ring, a + n) == p
    decreases a
  {
    if a >= |ring| {
      n := PositionAhead(ring, a - |ring|, p);
    } else if p > a {
      n := p - a;
    } else {
      n := |ring| + p - a;
      OnceAround(ring, p);
      assert a + n == p + |ring|;
    }
  }

  /** Nothing in the ring but copies for one slot, and the first one is staged. */
  predicate IsStuck(ring: seq<Entry>, start: nat)
    requires |ring| > 0
  {
    && Stageable(Ahead(ring, start, 0))
    && forall p :: 0 <= p < |ring| ==> IsCopyFor(ring[p], Ahead(ring, start, 0).request.slot)
  }

  lemma {:induction false} AtMostSlots(slots: seq<Option<nat>>)
    ensures |InFlight(slots)| <= |slots|
  {
    if slots != [] {
      AtMostSlots(slots[1..]);
    }
  }

  /** Some entry is no copy for the occupied slot, or the loop would have ended. */
  lemma {:induction false} OtherEntry(ring: seq<Entry>, start: nat, slots: nat, replies: seq<Reply>) returns (p: nat)
    requires WellFormed(ring, Start(start, slots)) && |replies| > 0 && !IsStuck(ring, start)
    requires Run(ring, Start(start, slots), replies).numActive > 1
    ensures p < |ring| && !IsCopyFor(ring[p], Run(ring, Start(start, slots), replies).lastSlot)
  {
    if !Stageable(Ahead(ring, start, 0)) {
      FirstEndsLoop(ring, start, slots, replies);
    } else {
      var first := Position(ring, start);
      if IsCopyFor(ring[first], Run(ring, Start(start, slots), replies).lastSlot) {
        p :| 0 <= p < |ring| && !IsCopyFor(ring[p], Ahead(ring, start, 0).request.slot);
      } else {
        p := first;
      }
    }
  }

  /** Enough polls for any ring and any state of the slots. */
  function EnoughPolls(ring: seq<Entry>, slots: nat): nat {
    2 * |ring| + slots + 2
  }

  /** Once every channel answers, the loop ends. */
  lemma {:induction false} FairEnds(ring: seq<Entry>, f: Step, start: nat, slots: nat, replies: seq<Reply>)
    requires WellFormed(ring, Start(start, slots)) && slots > 1 && |replies| > 0 && !IsStuck(ring, start)
    requires IsReady(ring, f)
    ensures Polls(f, Run(ring, Start(start, slots), replies), EnoughPolls(ring, slots)).numActive <= 1
  {
    var s := Run(ring, Start(start, slots), replies);
    RunConserves(ring, start, slots, replies);
    AtMostSlots(s.slots);
    if s.numActive > 1 {
      if OtherOccupied(s) {
        OtherEnds(ring, f, start, s, EnoughPolls(ring, slots));
      } else {
        SomeInFlight(s.slots);
        var p := OtherEntry(ring, start, slots, replies);
        var n := PositionAhead(ring, s.rdIdx, p);
        EndsAtOther(ring, f, start, s, p, n, EnoughPolls(ring, slots));
      }
    }
  }

  // ---------- The ring that hangs ----------

  /** Only the first copy is in flight and nothing is completed. */
  ghost predicate Hangs(ring: seq<Entry>, start: nat, s: Sched)
    requires |ring| > 0
  {
    && WellFormed(ring, s) && OnlyLast(s) && s.numActive == 2 && s.done == []
    && Ahead(ring, start, 0).request.NdMemcpy? && s.lastSlot == Ahead(ring, start, 0).request.slot
  }

  lemma {:induction false} HangsOn(ring: seq<Entry>, start: nat, s: Sched, reply: Reply)
    requires |ring| > 0 && IsStuck(ring, start) && Hangs(ring, start, s)
    ensures Hangs(ring, start, Iterate(ring, s, reply))
  {
    SearchFindsNothing(s.slots, reply.stalled, s.lastSlot, s.lastSlot);
    assert IsCopyFor(ring[Position(ring, s.rdIdx + 1)], s.lastSlot);
  }

  /** When the first copy does not finish at once the loop goes round such a ring for ever,
      whatever the hardware answers: it never looks at the one slot that is occupied. */
  lemma {:induction false} StuckForEver(ring: seq<Entry>, start: nat, slots: nat, replies: seq<Reply>)
    requires WellFormed(ring, Start(start, slots)) && IsStuck(ring, start)
    requires |replies| > 0 && !replies[0].finished
    ensures Hangs(ring, start, Run(ring, Start(start, slots), replies))
    decreases |replies|
  {
    var last := |replies| - 1;
    if last == 0 {
      assert replies == [replies[0]];
      RunFirst(ring, Start(start, slots), replies[0]);
    } else {
      StuckForEver(ring, start, slots, replies[..last]);
      HangsOn(ring, start, Run(ring, Start(start, slots), replies[..last]), replies[last]);
    }
  }

  /** From any beginning the loop ends once the hardware answers at every poll, if and only if
      the ring does not hold copies for one slot only, of which the first can be staged. */
  lemma {:induction false} LoopEndsIff(ring: seq<Entry>, start: nat, slots: nat)
    requires WellFormed(ring, Start(start, slots)) && slots > 1
    ensures (forall replies | |replies| > 0 ::
               Run(ring, Start(start, slots), replies + Readies(EnoughPolls(ring, slots))).numActive <= 1)
            <==> !IsStuck(ring, start)
  {
    var k := EnoughPolls(ring, slots);
    if IsStuck(ring, start) {
      var replies := [Reply({}, false)];
      StuckForEver(ring, start, slots, replies + Readies(k));
    } else {
      forall replies: seq<Reply> | |replies| > 0
        ensures Run(ring, Start(start, slots), replies + Readies(k)).numActive <= 1
      {
        FairEnds(ring, ReadyStep(ring), start, slots, replies);
        RunThenPolls(ring, ReadyStep(ring), Start(start, slots), replies, k);
      }
    }
  }
}
