/** When the scheduler passes over a packet: for which rings no behaviour of the hardware can
    make it skip one. */
module DispatchSkips {
  import opened DispatchSpec
  import opened Wrappers

  /** The a-th packet from the read index on. */
  function Ahead(ring: seq<Entry>, start: nat, a: nat): Entry
    requires |ring| > 0
  {
    ring[Position(ring, start + a)]
  }

  /** A copy that occupies its slot until it is finished. */
  predicate Stageable(e: Entry) {
    e.request.NdMemcpy? && e.request.space == SHIM_SPACE && e.request.slot < SHIM_SLOTS
  }

  /** The packet at the read index and the dispatch packets behind it, m altogether: behind
      them is another kind of entry, or they are the whole ring. */
  predicate IsWindow(ring: seq<Entry>, start: nat, m: nat) {
    && 0 < m <= |ring|
    && (forall a: nat :: 0 < a < m ==> Ahead(ring, start, a).header.AgentDispatch?)
    && (m < |ring| ==> !Ahead(ring, start, m).header.AgentDispatch?)
    && (m == |ring| ==> Ahead(ring, start, 0).header.AgentDispatch?)
  }

  /** A later copy asks for the slot that an earlier one occupies. */
  predicate SlotClash(e: Entry, later: Entry) {
    Stageable(e) && later.request.NdMemcpy? && later.request.slot == e.request.slot
  }

  predicate HasClash(ring: seq<Entry>, start: nat, m: nat)
    requires |ring| > 0
  {
    exists a: nat, b: nat :: a < b < m && SlotClash(Ahead(ring, start, a), Ahead(ring, start, b))
  }

  /** What the ring must look like, before the handler is called, for it to skip nothing. */
  predicate KeepsAll(ring: seq<Entry>, start: nat, m: nat)
    requires |ring| > 0
  {
    !Stageable(Ahead(ring, start, 0)) || (m < |ring| && !HasClash(ring, start, m))
  }

  // ---------- Such a ring loses nothing ----------

  /** A packet at the read index that cannot be staged ends the loop at once. */
  lemma {:induction false} FirstEndsLoop(ring: seq<Entry>, start: nat, slots: nat, replies: seq<Reply>)
    requires WellFormed(ring, Start(start, slots)) && |replies| > 0 && !Stageable(Ahead(ring, start, 0))
    ensures var r := Run(ring, Start(start, slots), replies);
      r.numActive == 1 && r.skipped == [] && r.rdIdx == start
    decreases |replies|
  {
    var last := |replies| - 1;
    if last == 0 {
      assert replies[..0] == [];
    } else {
      FirstEndsLoop(ring, start, slots, replies[..last]);
    }
  }

  /** Where a copy in flight comes from. */
  lemma {:induction false} InFlightFrom(ring: seq<Entry>, start: nat, s: Sched, i: nat) returns (a: nat)
    requires Conserved(ring, start, s) && i < |s.slots| && s.slots[i].Some?
    ensures a <= s.rdIdx - start && s.slots[i].value == Position(ring, start + a)
    ensures Stageable(Ahead(ring, start, a)) && Ahead(ring, start, a).request.slot == i
  {
    var q := s.slots[i].value;
    InFlightMember(s.slots, i);
    InFlightInWindow(ring, start, s, q);
    a :| 0 <= a < |Window(ring, start, s)| && Window(ring, start, s)[a] == q;
  }

  lemma {:induction false} IterateSkipsNothing(ring: seq<Entry>, start: nat, s: Sched, reply: Reply, m: nat)
    requires Conserved(ring, start, s) && s.numActive > 1
    requires IsWindow(ring, start, m) && m < |ring| && !HasClash(ring, start, m)
    requires s.skipped == [] && s.rdIdx < start + m
    ensures Iterate(ring, s, reply).skipped == [] && Iterate(ring, s, reply).rdIdx < start + m
  {
    var b := s.rdIdx + 1 - start;
    var p := Position(ring, start + b);
    if Dispatchable(ring, s, p) && ring[p].request.NdMemcpy? && s.slots[ring[p].request.slot].Some? {
      var a := InFlightFrom(ring, start, s, ring[p].request.slot);
      assert SlotClash(Ahead(ring, start, a), Ahead(ring, start, b));
      assert false;
    }
  }

  /** For every hardware behaviour nothing is skipped and the scheduler stays in the window. */
  lemma {:induction false} NothingSkipped(ring: seq<Entry>, start: nat, slots: nat, replies: seq<Reply>, m: nat)
    requires WellFormed(ring, Start(start, slots)) && |replies| > 0
    requires IsWindow(ring, start, m) && KeepsAll(ring, start, m)
    ensures var r := Run(ring, Start(start, slots), replies); r.skipped == [] && r.rdIdx < start + m
    decreases |replies|
  {
    var s, last := Start(start, slots), |replies| - 1;
    if !Stageable(Ahead(ring, start, 0)) {
      FirstEndsLoop(ring, start, slots, replies);
    } else if last == 0 {
      assert replies[..0] == [];
    } else {
      NothingSkipped(ring, start, slots, replies[..last], m);
      RunConserves(ring, start, slots, replies[..last]);
      var before := Run(ring, s, replies[..last]);
      if before.numActive > 1 {
        IterateSkipsNothing(ring, start, before, replies[last], m);
      }
    }
  }

  // ---------- Every other ring can lose a packet ----------

  function Below(n: nat): (r: set<nat>)
    ensures forall i: nat :: i in r <==> i < n
  {
    if n == 0 then {} else Below(n - 1) + {n - 1}
  }

  /** Every channel is stalled and no copy finishes. */
  function AllStalled(slots: nat): Reply {
    Reply(Below(slots), false)
  }

  function Stalls(slots: nat, t: nat): seq<Reply> {
    seq(t, _ => AllStalled(slots))
  }

  lemma {:induction false} NoSlotReady(slots: seq<Option<nat>>, slot: nat, last: nat)
    requires slot < |slots| && last < |slots|
    ensures RoundRobin(slots, AllStalled(|slots|).stalled, slot, last) == None
    decreases Distance(slot, last, |slots|)
  {
    var next := NextSlot(slot, |slots|);
    if next != last {
      NoSlotReady(slots, next, last);
    }
  }

  /** After t polls of a stalled machine: the first t packets have been looked at, each copy
      that can be staged occupies its slot, the first one for sure, and every clash among
      them has cost a packet. */
  ghost predicate Blocked(ring: seq<Entry>, start: nat, t: nat, s: Sched)
    requires |ring| > 0
  {
    && WellFormed(ring, s) && t > 0 && s.rdIdx == start + t - 1 && s.numActive > 1
    && (forall a: nat :: a < t && Stageable(Ahead(ring, start, a)) ==>
          s.slots[Ahead(ring, start, a).request.slot].Some?)
    && Stageable(Ahead(ring, start, 0)) && s.slots[Ahead(ring, start, 0).request.slot] == Some(Position(ring, start))
    && (HasClash(ring, start, t) ==> s.skipped != [])
  }

  /** The next packet of the window is still to be handled. */
  lemma {:induction false} NextDispatchable(ring: seq<Entry>, start: nat, s: Sched, t: nat)
    requires Conserved(ring, start, s) && s.rdIdx == start + t - 1 && 0 < t < |ring|
    requires Ahead(ring, start, t).header.AgentDispatch?
    ensures Dispatchable(ring, s, Position(ring, start + t))
  {
    var p := Position(ring, start + t);
    if p in s.done {
      assert p in multiset(s.done);
      assert p in multiset(Window(ring, start, s));
      assert p in Window(ring, start, s);
      var a :| 0 <= a < |Window(ring, start, s)| && Window(ring, start, s)[a] == p;
      PositionsDiffer(ring, start + a, start + t);
      assert false;
    }
  }

  lemma {:induction false} BlockedNext(ring: seq<Entry>, start: nat, t: nat, s: Sched, r: Sched)
    requires |ring| > 0 && Blocked(ring, start, t, s)
    requires WellFormed(ring, s.(rdIdx := s.rdIdx + 1))
    requires r == HandleNew(ring, s.(rdIdx := s.rdIdx + 1), AllStalled(|s.slots|))
    ensures Blocked(ring, start, t + 1, r)
  {
    var e := Ahead(ring, start, t);
    assert e == ring[Position(ring, s.rdIdx + 1)];
    if HasClash(ring, start, t + 1) {
      var a: nat, b: nat :| a < b < t + 1 && SlotClash(Ahead(ring, start, a), Ahead(ring, start, b));
      if b < t {
        assert HasClash(ring, start, t);
      } else {
        assert s.slots[e.request.slot].Some?;
      }
    }
  }

  lemma {:induction false} StalledStep(ring: seq<Entry>, start: nat, t: nat, s: Sched)
    requires Conserved(ring, start, s) && 0 < t < |ring| && Blocked(ring, start, t, s)
    requires Ahead(ring, start, t).header.AgentDispatch?
    ensures Blocked(ring, start, t + 1, Iterate(ring, s, AllStalled(|s.slots|)))
  {
    NoSlotReady(s.slots, s.lastSlot, s.lastSlot);
    NextDispatchable(ring, start, s, t);
    BlockedNext(ring, start, t, s, Iterate(ring, s, AllStalled(|s.slots|)));
  }

  lemma {:induction false} OneMoreStall(ring: seq<Entry>, start: nat, slots: nat, t: nat)
    requires WellFormed(ring, Start(start, slots)) && t > 0
    requires Run(ring, Start(start, slots), Stalls(slots, t)).numActive > 1
    ensures Conserved(ring, start, Run(ring, Start(start, slots), Stalls(slots, t)))
    ensures Run(ring, Start(start, slots), Stalls(slots, t + 1))
         == Iterate(ring, Run(ring, Start(start, slots), Stalls(slots, t)), AllStalled(slots))
  {
    assert Stalls(slots, t + 1) == Stalls(slots, t) + [AllStalled(slots)];
    RunNext(ring, Start(start, slots), Stalls(slots, t), AllStalled(slots));
    RunConserves(ring, start, slots, Stalls(slots, t));
  }

  lemma {:induction false} FirstStall(ring: seq<Entry>, start: nat, slots: nat)
    requires WellFormed(ring, Start(start, slots)) && Stageable(Ahead(ring, start, 0))
    ensures Blocked(ring, start, 1, Run(ring, Start(start, slots), Stalls(slots, 1)))
  {
    assert Stalls(slots, 1) == [AllStalled(slots)];
    RunFirst(ring, Start(start, slots), AllStalled(slots));
  }

  lemma {:induction false} StalledRun(ring: seq<Entry>, start: nat, slots: nat, t: nat, m: nat)
    requires WellFormed(ring, Start(start, slots)) && IsWindow(ring, start, m) && 0 < t <= m
    requires Stageable(Ahead(ring, start, 0))
    ensures Blocked(ring, start, t, Run(ring, Start(start, slots), Stalls(slots, t)))
    decreases t
  {
    if t == 1 {
      FirstStall(ring, start, slots);
    } else {
      StalledRun(ring, start, slots, t - 1, m);
      OneMoreStall(ring, start, slots, t - 1);
      StalledStep(ring, start, t - 1, Run(ring, Start(start, slots), Stalls(slots, t - 1)));
    }
  }

  lemma {:induction false} WrapStep(ring: seq<Entry>, start: nat, s: Sched, p: nat)
    requires Conserved(ring, start, s) && Blocked(ring, start, |ring|, s)
    requires p == Position(ring, start) && p == Position(ring, s.rdIdx + 1) && ring[p].header.AgentDispatch?
    ensures Iterate(ring, s, AllStalled(|s.slots|)).skipped == s.skipped + [p]
  {
    NoSlotReady(s.slots, s.lastSlot, s.lastSlot);
    var i := Ahead(ring, start, 0).request.slot;
    assert s.slots[i] == Some(p) && p !in s.done;
  }

  /** Around a ring of dispatch packets the scheduler comes back to the first one, which is
      still in flight, and passes over it. */
  lemma {:induction false} WrapsAround(ring: seq<Entry>, start: nat, slots: nat)
    requires WellFormed(ring, Start(start, slots)) && IsWindow(ring, start, |ring|) && Stageable(Ahead(ring, start, 0))
    ensures Run(ring, Start(start, slots), Stalls(slots, |ring| + 1)).skipped != []
  {
    StalledRun(ring, start, slots, |ring|, |ring|);
    OneMoreStall(ring, start, slots, |ring|);
    OnceAround(ring, start);
    WrapStep(ring, start, Run(ring, Start(start, slots), Stalls(slots, |ring|)), Position(ring, start));
  }

  lemma {:induction false} OnceAround(ring: seq<Entry>, a: nat)
    requires |ring| > 0
    ensures Position(ring, a + |ring|) == Position(ring, a)
  {
  }

  /** A ring that is not as required loses a packet when the hardware stalls. */
  lemma {:induction false} SomethingSkipped(ring: seq<Entry>, start: nat, slots: nat, m: nat)
    returns (replies: seq<Reply>)
    requires WellFormed(ring, Start(start, slots)) && IsWindow(ring, start, m) && !KeepsAll(ring, start, m)
    ensures |replies| > 0 && Run(ring, Start(start, slots), replies).skipped != []
  {
    if m == |ring| {
      replies := Stalls(slots, m + 1);
      WrapsAround(ring, start, slots);
    } else {
      replies := Stalls(slots, m);
      StalledRun(ring, start, slots, m, m);
    }
  }

  /** No behaviour of the hardware makes the handler skip a packet if and only if the first
      packet cannot be staged, or the dispatch packets behind it end before the ring does and
      no copy among them asks for a slot that an earlier one occupies. */
  lemma {:induction false} NothingSkippedIff(ring: seq<Entry>, start: nat, slots: nat, m: nat)
    requires WellFormed(ring, Start(start, slots)) && IsWindow(ring, start, m)
    ensures (forall replies | |replies| > 0 :: Run(ring, Start(start, slots), replies).skipped == [])
            <==> KeepsAll(ring, start, m)
  {
    if KeepsAll(ring, start, m) {
      forall replies: seq<Reply> | |replies| > 0
        ensures Run(ring, Start(start, slots), replies).skipped == []
      {
        NothingSkipped(ring, start, slots, replies, m);
      }
    } else {
      var replies := SomethingSkipped(ring, start, slots, m);
    }
  }

  /** Every ring has its window. */
  lemma {:induction false} WindowExists(ring: seq<Entry>, start: nat, k: nat) returns (m: nat)
    requires 0 < k <= |ring| && Ahead(ring, start, 0).header.AgentDispatch?
    requires forall a: nat :: 0 < a < k ==> Ahead(ring, start, a).header.AgentDispatch?
    ensures IsWindow(ring, start, m)
    decreases |ring| - k
  {
    if k < |ring| && Ahead(ring, start, k).header.AgentDispatch? {
      m := WindowExists(ring, start, k + 1);
    } else {
      m := k;
    }
  }
}
