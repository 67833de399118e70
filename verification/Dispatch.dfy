/** handle_agent_dispatch_packet: the scheduling loop over the packet ring and the staged
    copies, refining DispatchSpec and NdCopy together. */
module Dispatch {
  import opened DispatchSpec
  import opened Wrappers
  import opened NdCopy

  /** A packet in memory. */
  datatype RingPacket = RingPacket(header: Header, active: bool, typeValid: bool, request: Request, shape: Shape)

  function Entries(q: seq<RingPacket>): (r: seq<Entry>)
    ensures |r| == |q|
  {
    seq(|q|, i requires 0 <= i < |q| => Entry(q[i].header, q[i].request))
  }

  /** The descriptors that a log holds for one packet. */
  ghost function PushedFor(log: seq<Descriptor>, id: nat): seq<Descriptor> {
    if log == [] then []
    else PushedFor(log[..|log| - 1], id) + (if log[|log| - 1].id == id then [log[|log| - 1]] else [])
  }

  lemma {:induction false} PushedForConcat(a: seq<Descriptor>, b: seq<Descriptor>, id: nat)
    ensures PushedFor(a + b, id) == PushedFor(a, id) + PushedFor(b, id)
  {
    if b == [] {
      assert a + b == a;
    } else {
      assert (a + b)[..|a + b| - 1] == a + b[..|b| - 1];
      PushedForConcat(a, b[..|b| - 1], id);
    }
  }

  lemma {:induction false} PushedForPacket(pkt: Packet, addrs: seq<nat>, id: nat)
    ensures PushedFor(Descriptors(pkt, addrs), id) == if pkt.id == id then Descriptors(pkt, addrs) else []
  {
    if addrs != [] {
      var ds := Descriptors(pkt, addrs);
      assert ds[..|ds| - 1] == Descriptors(pkt, addrs[..|addrs| - 1]);
      PushedForPacket(pkt, addrs[..|addrs| - 1], id);
    }
  }

  /** A copy that is really carried out. */
  predicate IsCopy(r: Request) {
    r.NdMemcpy? && r.space == SHIM_SPACE && r.slot < SHIM_SLOTS
  }

  ghost predicate Staging(s: Sched, r: Request, p: nat) {
    r.NdMemcpy? && r.slot < |s.slots| && s.slots[r.slot] == Some(p)
  }

  /** What the log holds for packet p: nothing before it is staged, the part of its walk up
      to the checkpoint while it is in flight, and its whole walk once it is completed. */
  ghost predicate TransferOk(p: nat, pkt: RingPacket, s: Sched, staged: seq<Staged>, log: seq<Descriptor>)
    requires |staged| == |s.slots|
  {
    if Staging(s, pkt.request, p) then
      var st := staged[pkt.request.slot];
      Consistent(st) && PushedFor(log, p) == Descriptors(Packet(p, pkt.shape), Done(st))
    else if p in s.done && IsCopy(pkt.request) then
      PushedFor(log, p) == Descriptors(Packet(p, pkt.shape), Walk(pkt.shape))
    else PushedFor(log, p) == []
  }

  ghost predicate TransfersOk(q: seq<RingPacket>, s: Sched, staged: seq<Staged>, log: seq<Descriptor>)
    requires |staged| == |s.slots|
  {
    forall p :: 0 <= p < |q| ==> TransferOk(p, q[p], s, staged, log)
  }

  /** The staged slots hold what the scheduler state says. */
  ghost predicate SlotsHold(q: seq<RingPacket>, s: Sched, staged: seq<Staged>) {
    && |staged| == |s.slots|
    && forall i :: 0 <= i < |staged| ==>
      && (staged[i].valid <==> s.slots[i].Some?)
      && (s.slots[i].Some? ==>
            && s.slots[i].value < |q|
            && staged[i].pkt == Packet(s.slots[i].value, q[s.slots[i].value].shape)
            && Consistent(staged[i]))
  }

  /** What packet p looks like in memory. */
  ghost function InMemory(pkt: RingPacket, s: Sched, p: nat): RingPacket {
    if p in s.done then pkt.(header := Invalid, active := false, typeValid := false)
    else if Staging(s, pkt.request, p) then pkt.(active := true)
    else pkt
  }

  ghost predicate RingHolds(q: seq<RingPacket>, s: Sched, ring: seq<RingPacket>) {
    && |ring| == |q|
    && forall p :: 0 <= p < |q| ==> ring[p] == InMemory(q[p], s, p)
  }

  // ---------- One packet changes, the others do not ----------

  /** s and t say the same about every packet but p. */
  ghost predicate AgreeElsewhere(q: seq<RingPacket>, s: Sched, t: Sched, p: nat) {
    forall x :: 0 <= x < |q| && x != p ==>
      && (x in s.done <==> x in t.done)
      && (Staging(s, q[x].request, x) <==> Staging(t, q[x].request, x))
  }

  lemma PushedElsewhere(log: seq<Descriptor>, pkt: Packet, pushed: seq<nat>)
    ensures forall x :: x != pkt.id ==> PushedFor(log + Descriptors(pkt, pushed), x) == PushedFor(log, x)
    ensures PushedFor(log + Descriptors(pkt, pushed), pkt.id) == PushedFor(log, pkt.id) + Descriptors(pkt, pushed)
  {
    forall x
      ensures PushedFor(log + Descriptors(pkt, pushed), x)
           == PushedFor(log, x) + if pkt.id == x then Descriptors(pkt, pushed) else []
    {
      PushedForConcat(log, Descriptors(pkt, pushed), x);
      PushedForPacket(pkt, pushed, x);
    }
  }

  /** Work on packet p through one slot disturbs no other transfer. */
  lemma {:induction false} TransfersStep(
    q: seq<RingPacket>, s: Sched, t: Sched, staged: seq<Staged>, staged': seq<Staged>,
    log: seq<Descriptor>, p: nat, slot: nat, pushed: seq<nat>)
    requires |staged| == |staged'| == |s.slots| == |t.slots| && p < |q| && slot < |staged|
    requires TransfersOk(q, s, staged, log) && AgreeElsewhere(q, s, t, p)
    requires forall i :: 0 <= i < |staged| && i != slot ==> staged'[i] == staged[i]
    requires t.slots[slot].None? || t.slots[slot] == Some(p) || staged'[slot] == staged[slot]
    requires TransferOk(p, q[p], t, staged', log + Descriptors(Packet(p, q[p].shape), pushed))
    ensures TransfersOk(q, t, staged', log + Descriptors(Packet(p, q[p].shape), pushed))
  {
    var log' := log + Descriptors(Packet(p, q[p].shape), pushed);
    PushedElsewhere(log, Packet(p, q[p].shape), pushed);
    forall x | 0 <= x < |q| && x != p
      ensures TransferOk(x, q[x], t, staged', log')
    {
      assert TransferOk(x, q[x], s, staged, log);
    }
  }

  lemma {:induction false} RingStep(q: seq<RingPacket>, s: Sched, t: Sched, ring: seq<RingPacket>, p: nat)
    requires p < |q| && RingHolds(q, s, ring) && AgreeElsewhere(q, s, t, p)
    ensures RingHolds(q, t, ring[p := InMemory(q[p], t, p)])
  {
  }

  /** A staged copy pushes some more descriptors and stalls again. */
  lemma {:induction false} ServeContinues(
    q: seq<RingPacket>, start: nat, s: Sched, slot: nat, staged: seq<Staged>, staged': seq<Staged>,
    ring: seq<RingPacket>, log: seq<Descriptor>, pushed: seq<nat>)
    requires SlotsHold(q, s, staged) && RingHolds(q, s, ring) && TransfersOk(q, s, staged, log)
    requires SlotsOk(Entries(q), s) && slot < |s.slots| && s.slots[slot].Some?
    requires |staged'| == |staged| && forall i :: 0 <= i < |staged| && i != slot ==> staged'[i] == staged[i]
    requires staged'[slot].pkt == staged[slot].pkt && staged'[slot].valid
    requires Consistent(staged'[slot]) && Done(staged'[slot]) == Done(staged[slot]) + pushed
    ensures var t := s.(lastSlot := slot);
      SlotsHold(q, t, staged') && RingHolds(q, t, ring)
      && TransfersOk(q, t, staged', log + Descriptors(staged[slot].pkt, pushed))
  {
    var t, p := s.(lastSlot := slot), s.slots[slot].value;
    assert Entries(q)[p].request == q[p].request;
    assert TransferOk(p, q[p], s, staged, log);
    PushedElsewhere(log, staged[slot].pkt, pushed);
    DescriptorsAppend(staged[slot].pkt, Done(staged[slot]), pushed);
    RingStep(q, s, t, ring, p);
    assert ring[p := InMemory(q[p], t, p)] == ring;
    TransfersStep(q, s, t, staged, staged', log, p, slot, pushed);
  }

  /** A staged copy pushes the rest of its descriptors and completes. */
  lemma {:induction false} ServeFinishes(
    q: seq<RingPacket>, start: nat, s: Sched, slot: nat, staged: seq<Staged>, staged': seq<Staged>,
    ring: seq<RingPacket>, ring': seq<RingPacket>, log: seq<Descriptor>, pushed: seq<nat>)
    requires SlotsHold(q, s, staged) && RingHolds(q, s, ring) && TransfersOk(q, s, staged, log)
    requires SlotsOk(Entries(q), s) && slot < |s.slots| && s.slots[slot].Some? && s.numActive > 0
    requires |staged'| == |staged| && forall i :: 0 <= i < |staged| && i != slot ==> staged'[i] == staged[i]
    requires !staged'[slot].valid
    requires Done(staged[slot]) + pushed == Walk(staged[slot].pkt.shape)
    requires ring' == ring[s.slots[slot].value :=
      ring[s.slots[slot].value].(header := Invalid, active := false, typeValid := false)]
    ensures var t := Serve(s, slot, Reply({}, true));
      SlotsHold(q, t, staged') && RingHolds(q, t, ring')
      && TransfersOk(q, t, staged', log + Descriptors(staged[slot].pkt, pushed))
  {
    var t, p := Serve(s, slot, Reply({}, true)), s.slots[slot].value;
    assert Entries(q)[p].request == q[p].request;
    assert TransferOk(p, q[p], s, staged, log);
    PushedElsewhere(log, staged[slot].pkt, pushed);
    DescriptorsAppend(staged[slot].pkt, Done(staged[slot]), pushed);
    FinishAgrees(q, s, slot);
    RingStep(q, s, t, ring, p);
    assert ring' == ring[p := InMemory(q[p], t, p)];
    TransfersStep(q, s, t, staged, staged', log, p, slot, pushed);
  }

  /** A new copy pushes some descriptors and stalls. */
  lemma {:induction false} StartContinues(
    q: seq<RingPacket>, s: Sched, p: nat, slot: nat, staged: seq<Staged>, staged': seq<Staged>,
    ring: seq<RingPacket>, ring': seq<RingPacket>, log: seq<Descriptor>, pushed: seq<nat>)
    requires SlotsHold(q, s, staged) && RingHolds(q, s, ring) && TransfersOk(q, s, staged, log)
    requires p < |q| && p !in s.done && slot < |s.slots| && s.slots[slot].None?
    requires q[p].request == NdMemcpy(slot, SHIM_SPACE)
    requires |staged'| == |staged| && forall i :: 0 <= i < |staged| && i != slot ==> staged'[i] == staged[i]
    requires staged'[slot].pkt == Packet(p, q[p].shape) && staged'[slot].valid
    requires Consistent(staged'[slot]) && Done(staged'[slot]) == pushed
    requires ring' == ring[p := ring[p].(active := true)]
    ensures var t := s.(lastSlot := slot, numActive := s.numActive + 1, slots := s.slots[slot := Some(p)]);
      SlotsHold(q, t, staged') && RingHolds(q, t, ring')
      && TransfersOk(q, t, staged', log + Descriptors(Packet(p, q[p].shape), pushed))
  {
    var t := s.(lastSlot := slot, numActive := s.numActive + 1, slots := s.slots[slot := Some(p)]);
    assert TransferOk(p, q[p], s, staged, log);
    PushedElsewhere(log, Packet(p, q[p].shape), pushed);
    RingStep(q, s, t, ring, p);
    assert ring' == ring[p := InMemory(q[p], t, p)];
    TransfersStep(q, s, t, staged, staged', log, p, slot, pushed);
  }

  /** A new copy pushes all its descriptors at the first try. */
  lemma {:induction false} StartFinishes(
    q: seq<RingPacket>, s: Sched, p: nat, slot: nat, staged: seq<Staged>, staged': seq<Staged>,
    ring: seq<RingPacket>, ring': seq<RingPacket>, log: seq<Descriptor>, pushed: seq<nat>)
    requires SlotsHold(q, s, staged) && RingHolds(q, s, ring) && TransfersOk(q, s, staged, log)
    requires p < |q| && p !in s.done && slot < |s.slots| && s.slots[slot].None?
    requires q[p].request == NdMemcpy(slot, SHIM_SPACE) && IsCopy(q[p].request)
    requires |staged'| == |staged| && forall i :: 0 <= i < |staged| && i != slot ==> staged'[i] == staged[i]
    requires !staged'[slot].valid && pushed == Walk(q[p].shape)
    requires ring' == ring[p := ring[p].(header := Invalid, active := false, typeValid := false)]
      || ring' == ring[p := ring[p].(active := true)]
             [p := ring[p].(active := true).(header := Invalid, active := false, typeValid := false)]
    ensures var t := Complete(s.(lastSlot := slot), p);
      SlotsHold(q, t, staged') && RingHolds(q, t, ring')
      && TransfersOk(q, t, staged', log + Descriptors(Packet(p, q[p].shape), pushed))
  {
    var t := Complete(s.(lastSlot := slot), p);
    assert TransferOk(p, q[p], s, staged, log);
    PushedElsewhere(log, Packet(p, q[p].shape), pushed);
    RingStep(q, s, t, ring, p);
    assert ring' == ring[p := InMemory(q[p], t, p)];
    TransfersStep(q, s, t, staged, staged', log, p, slot, pushed);
  }

  lemma {:induction false} FinishAgrees(q: seq<RingPacket>, s: Sched, slot: nat)
    requires slot < |s.slots| && s.slots[slot].Some? && s.numActive > 0
    ensures AgreeElsewhere(q, s, Serve(s, slot, Reply({}, true)), s.slots[slot].value)
  {
  }

  /** The slots whose channels reported four or more outstanding descriptors. */
  function StalledIn(answers: map<nat, nat>): set<nat> {
    set i | i in answers && answers[i] >= 4
  }

  /** What stalls in each iteration is what the channels answered. */
  ghost predicate FromAnswers(replies: seq<Reply>, answers: seq<map<nat, nat>>) {
    |replies| == |answers| && forall k :: 0 <= k < |replies| ==> replies[k].stalled == StalledIn(answers[k])
  }

  ghost predicate IsBusy(slots: seq<Option<nat>>, answers: map<nat, nat>, i: nat) {
    i < |slots| && slots[i].Some? ==> i in answers && answers[i] >= 4
  }

  /** The copies in the slots fewer than n places after last were polled and cannot go on. */
  ghost predicate AllBusy(slots: seq<Option<nat>>, answers: map<nat, nat>, last: nat, n: nat)
    requires last < |slots|
  {
    forall i: nat :: i < |slots| && 0 < PlacesTo(last, i, |slots|) < n ==> IsBusy(slots, answers, i)
  }

  /** Slot i is the first one after last that was polled with fewer than four outstanding. */
  ghost predicate FirstBelowFour(slots: seq<Option<nat>>, answers: map<nat, nat>, last: nat, i: nat)
    requires last < |slots| && i < |slots|
  {
    i != last && i in answers && answers[i] < 4 && AllBusy(slots, answers, last, PlacesTo(last, i, |slots|))
  }

  /** Only copies in slots other than the last were polled. */
  ghost predicate PolledCopies(slots: seq<Option<nat>>, answers: map<nat, nat>, last: nat) {
    forall i :: i in answers ==> i < |slots| && i != last && slots[i].Some?
  }

  /** The search has come k places: it has polled the copies there and found none that can go on. */
  ghost predicate Searched(slots: seq<Option<nat>>, answers: map<nat, nat>, last: nat, k: nat) {
    && last < |slots| && k < |slots| && AllBusy(slots, answers, last, k + 1) && PolledCopies(slots, answers, last)
    && forall i :: i in answers ==> answers[i] >= 4
  }

  lemma NextPlaceTo(last: nat, slot: nat, n: nat)
    requires last < n && slot < n
    ensures NextSlot(slot, n) == last <==> PlacesTo(last, slot, n) + 1 == n
    ensures NextSlot(slot, n) != last ==> PlacesTo(last, NextSlot(slot, n), n) == PlacesTo(last, slot, n) + 1
  {
  }

  lemma SearchedAll(slots: seq<Option<nat>>, answers: map<nat, nat>, last: nat, k: nat)
    requires Searched(slots, answers, last, k) && k + 1 == |slots|
    ensures RoundRobin(slots, StalledIn(answers), last, last) == None
  {
    forall i | 0 <= i < |slots| && i != last
      ensures !CanGoOn(slots, StalledIn(answers), i)
    {
      assert IsBusy(slots, answers, i);
    }
    RoundRobinNearest(slots, StalledIn(answers), last);
  }

  /** The next slot is empty. */
  lemma SearchedEmpty(slots: seq<Option<nat>>, answers: map<nat, nat>, last: nat, i: nat)
    requires last < |slots| && i < |slots| && i != last && slots[i].None?
    requires Searched(slots, answers, last, PlacesTo(last, i, |slots|) - 1)
    ensures Searched(slots, answers, last, PlacesTo(last, i, |slots|))
  {
    assert forall j: nat :: j < |slots| && PlacesTo(last, j, |slots|) == PlacesTo(last, i, |slots|) ==> j == i;
  }

  /** The next slot holds a copy, whose channel answers x. */
  lemma SearchedCopy(slots: seq<Option<nat>>, answers: map<nat, nat>, last: nat, i: nat, x: nat)
    requires last < |slots| && i < |slots| && i != last && slots[i].Some?
    requires Searched(slots, answers, last, PlacesTo(last, i, |slots|) - 1)
    ensures PolledCopies(slots, answers[i := x], last)
    ensures if x < 4 then FirstBelowFour(slots, answers[i := x], last, i)
            else Searched(slots, answers[i := x], last, PlacesTo(last, i, |slots|))
  {
    assert forall j: nat :: j < |slots| && PlacesTo(last, j, |slots|) == PlacesTo(last, i, |slots|) ==> j == i;
    forall j: nat | j < |slots| && 0 < PlacesTo(last, j, |slots|) < PlacesTo(last, i, |slots|)
      ensures IsBusy(slots, answers[i := x], j)
    {
      assert IsBusy(slots, answers, j);
    }
  }

  lemma SearchFound(slots: seq<Option<nat>>, answers: map<nat, nat>, last: nat, i: nat)
    requires last < |slots| && i < |slots| && slots[i].Some? && FirstBelowFour(slots, answers, last, i)
    ensures RoundRobin(slots, StalledIn(answers), last, last) == Some(i)
  {
    var stalled := StalledIn(answers);
    forall j: nat | j < |slots| && 0 < PlacesTo(last, j, |slots|) < PlacesTo(last, i, |slots|)
      ensures !CanGoOn(slots, stalled, j)
    {
      assert IsBusy(slots, answers, j);
    }
    var k := SearchFrom(slots, stalled, last, 0);
    AfterIs(last, 0, |slots|);
    PlacesToIs(last, i, |slots|);
    AfterIs(last, k, |slots|);
  }

  /** The packet of a staged copy is marked active. */
  lemma StagedIsActive(q: seq<RingPacket>, s: Sched, ring: seq<RingPacket>, i: nat)
    requires RingHolds(q, s, ring) && SlotsOk(Entries(q), s) && i < |s.slots| && s.slots[i].Some?
    ensures s.slots[i].value < |q| && ring[s.slots[i].value].active
  {
    var p := s.slots[i].value;
    assert Entries(q)[p].request == q[p].request;
    assert ring[p] == InMemory(q[p], s, p);
  }

  /** The local variables of the scheduling loop. */
  datatype Counters = Counters(rdIdx: nat, lastSlot: nat, numActive: nat, packetsProcessed: nat)

  function CountersOf(s: Sched): Counters {
    Counters(s.rdIdx, s.lastSlot, s.numActive, s.processed)
  }

  class AgentQueue {
    const ring: array<RingPacket>
    const dma: NdMemcpy
    var readIndex: nat

    constructor (ring: array<RingPacket>, dma: NdMemcpy)
      ensures this.ring == ring && this.dma == dma && readIndex == 0
    {
      this.ring, this.dma, readIndex := ring, dma, 0;
    }

    /** What the handler needs when it is called: a packet, nothing staged, and slot numbers
        within the table. What was pushed before does not matter. */
    ghost predicate Ready()
      reads this, ring, dma, dma.stagedNdSlot
    {
      && ring.Length > 0 && dma.stagedNdSlot.Length > 0
      && (forall p :: 0 <= p < ring.Length ==> ring[p].shape.base < MOD64)
      && (forall p :: 0 <= p < ring.Length && ring[p].request.NdMemcpy? ==>
            ring[p].request.slot < dma.stagedNdSlot.Length)
      && (forall i :: 0 <= i < dma.stagedNdSlot.Length ==> !dma.stagedNdSlot[i].valid)
    }

    /** Memory is what the scheduler state s says, for a call that found the ring q and the
        descriptor log sent. */
    ghost predicate Holds(q: seq<RingPacket>, sent: seq<Descriptor>, s: Sched)
      reads this, ring, dma, dma.stagedNdSlot
    {
      && (forall p :: 0 <= p < |q| ==> q[p].shape.base < MOD64)
      && WellFormed(Entries(q), s) && sent <= dma.log
      && SlotsHold(q, s, dma.stagedNdSlot[..])
      && RingHolds(q, s, ring[..])
      && TransfersOk(q, s, dma.stagedNdSlot[..], dma.log[|sent|..])
    }

    /** Marks a packet as completed. */
    method CompletePacket(p: nat)
      requires p < ring.Length
      modifies ring
      ensures ring[..] == old(ring[..])[
        p := old(ring[p]).(header := Invalid, active := false, typeValid := false)]
    {
      ring[p] := ring[p].(header := Invalid, active := false, typeValid := false);
    }

    /** Polls the slots after last, going around, for a staged copy that can go on; answers has
        what the channels of the polled slots reported. */
    method FindSlot(ghost q: seq<RingPacket>, ghost sent: seq<Descriptor>, ghost s: Sched, last: nat)
      returns (found: Option<nat>, ghost answers: map<nat, nat>)
      requires Holds(q, sent, s) && SlotsOk(Entries(q), s) && last == s.lastSlot
      ensures found == RoundRobin(s.slots, StalledIn(answers), last, last)
      ensures found.Some? ==> found.value < |s.slots| && s.slots[found.value].Some?
      ensures PolledCopies(s.slots, answers, last)
      ensures found.Some? ==> FirstBelowFour(s.slots, answers, last, found.value)
      ensures found.None? ==> AllBusy(s.slots, answers, last, |s.slots|)
    {
      var n := dma.stagedNdSlot.Length;
      var slot: nat := last;
      answers := map[];
      while true
        invariant slot < n && Searched(s.slots, answers, last, PlacesTo(last, slot, n))
        decreases n - PlacesTo(last, slot, n)
      {
        NextPlaceTo(last, slot, n);
        ghost var k := PlacesTo(last, slot, n);
        slot := NextSlot(slot, n);
        if slot == last {
          SearchedAll(s.slots, answers, last, k);
          return None, answers;
        }
        if dma.stagedNdSlot[slot].valid {
          var pkt := dma.stagedNdSlot[slot].pkt;
          var outstanding := dma.GetOutstanding();
          StagedIsActive(q, s, ring[..], slot);
          SearchedCopy(s.slots, answers, last, slot, outstanding);
          answers := answers[slot := outstanding];
          if outstanding < STALL_THRESHOLD && ring[pkt.id].active {
            SearchFound(s.slots, answers, last, slot);
            return Some(slot), answers;
          }
        } else {
          SearchedEmpty(s.slots, answers, last, slot);
        }
      }
    }

    /** Works on the copy staged in a slot. */
    method ServeSlot(ghost q: seq<RingPacket>, ghost sent: seq<Descriptor>, ghost start: nat, ghost s: Sched, slot: nat)
      returns (ret: nat, ghost reply: Reply, ghost t: Sched)
      requires Holds(q, sent, s) && Conserved(Entries(q), start, s) && s.numActive > 1
      requires slot < |s.slots| && s.slots[slot].Some?
      modifies ring, dma.stagedNdSlot, dma`log
      ensures reply == Reply({}, ret == 0) && t == Serve(s, slot, reply)
      ensures Holds(q, sent, t)
    {
      ghost var before, staged, mem := dma.log[|sent|..], dma.stagedNdSlot[..], ring[..];
      ghost var pushed, answers;
      ret, pushed, answers := dma.DoPacketNdMemcpy(slot);
      assert dma.log[|sent|..] == before + Descriptors(staged[slot].pkt, pushed);
      reply := Reply({}, ret == 0);
      t := Serve(s, slot, reply);
      if ret == 0 {
        dma.stagedNdSlot[slot] := dma.stagedNdSlot[slot].(valid := false);
        CompletePacket(dma.stagedNdSlot[slot].pkt.id);
        ServeFinishes(q, start, s, slot, staged, dma.stagedNdSlot[..], mem, ring[..], before, pushed);
      } else {
        ServeContinues(q, start, s, slot, staged, dma.stagedNdSlot[..], mem, before, pushed);
      }
    }

    /** Completes packet p, which no slot holds and for which nothing was pushed. */
    method FinishNew(ghost q: seq<RingPacket>, ghost sent: seq<Descriptor>, ghost s: Sched, p: nat, ghost slot: nat)
      returns (ghost t: Sched)
      requires Holds(q, sent, s) && p < |q| && p !in s.done && slot < |s.slots|
      requires !Staging(s, q[p].request, p) && !IsCopy(q[p].request)
      modifies ring
      ensures t == Complete(s, p)
      ensures Holds(q, sent, t) && Holds(q, sent, t.(lastSlot := slot))
    {
      ghost var mem := ring[..];
      assert TransferOk(p, q[p], s, dma.stagedNdSlot[..], dma.log[|sent|..]);
      CompletePacket(p);
      t := Complete(s, p);
      RingStep(q, s, t, mem, p);
      assert ring[..] == mem[p := InMemory(q[p], t, p)];
      assert dma.log[|sent|..] + Descriptors(Packet(p, q[p].shape), []) == dma.log[|sent|..];
      TransfersStep(q, s, t, dma.stagedNdSlot[..], dma.stagedNdSlot[..], dma.log[|sent|..], p, s.lastSlot, []);
      LastSlotFree(q, t, slot, ring[..], dma.stagedNdSlot[..], dma.log[|sent|..]);
    }

    /** Stages packet p in its free slot and starts the copy. */
    method StartCopy(ghost q: seq<RingPacket>, ghost sent: seq<Descriptor>, ghost s: Sched, p: nat)
      returns (ret: nat, ghost reply: Reply, ghost t: Sched)
      requires Holds(q, sent, s) && SlotsOk(Entries(q), s)
      requires p == Position(Entries(q), s.rdIdx) && p !in s.done && IsCopy(q[p].request)
      requires q[p].request.slot < |s.slots| && s.slots[q[p].request.slot].None?
      modifies ring, dma.stagedNdSlot, dma`log
      ensures reply == Reply({}, ret == 0) && t == HandleNew(Entries(q), s, reply)
      ensures Holds(q, sent, t)
    {
      ghost var before, slots, mem := dma.log[|sent|..], dma.stagedNdSlot[..], ring[..];
      ghost var pushed, answers;
      var slot := ring[p].request.slot;
      var staged := dma.StagePacketNdMemcpy(Packet(p, ring[p].shape), slot, SHIM_SPACE);
      ring[p] := ring[p].(active := true);
      ret, pushed, answers := dma.DoPacketNdMemcpy(slot);
      assert dma.log[|sent|..] == before + Descriptors(Packet(p, q[p].shape), pushed);
      reply := Reply({}, ret == 0);
      CopyHandled(q, s, p, reply);
      t := HandleNew(Entries(q), s, reply);
      if ret == 0 {
        dma.stagedNdSlot[slot] := dma.stagedNdSlot[slot].(valid := false);
        CompletePacket(p);
        StartFinishes(q, s, p, slot, slots, dma.stagedNdSlot[..], mem, ring[..], before, pushed);
      } else {
        StartContinues(q, s, p, slot, slots, dma.stagedNdSlot[..], mem, ring[..], before, pushed);
      }
    }

    /** A packet whose slot is busy is passed over. */
    ghost method SkipNew(q: seq<RingPacket>, sent: seq<Descriptor>, s: Sched, p: nat)
      requires Holds(q, sent, s)
      ensures Holds(q, sent, s.(skipped := s.skipped + [p]))
    {
      var t := s.(skipped := s.skipped + [p]);
      forall x | 0 <= x < |q|
        ensures ring[x] == InMemory(q[x], t, x)
        ensures TransferOk(x, q[x], t, dma.stagedNdSlot[..], dma.log[|sent|..])
      {
        assert ring[x] == InMemory(q[x], s, x) && TransferOk(x, q[x], s, dma.stagedNdSlot[..], dma.log[|sent|..]);
      }
    }

    /** Handles packet p, the one at the read index, for the first time. */
    method HandleNewPacket(ghost q: seq<RingPacket>, ghost sent: seq<Descriptor>, ghost s: Sched, p: nat, lastSlot: nat)
      returns (lastSlot': nat, staged: bool, completed: bool, ghost reply: Reply, ghost t: Sched)
      requires Holds(q, sent, s) && SlotsOk(Entries(q), s) && lastSlot == s.lastSlot
      requires p == Position(Entries(q), s.rdIdx) && p !in s.done
      modifies ring, dma.stagedNdSlot, dma`log
      ensures reply.stalled == {} && t == HandleNew(Entries(q), s, reply)
      ensures lastSlot' == t.lastSlot
      ensures t.numActive == s.numActive + (if staged then 1 else 0)
      ensures t.processed == s.processed + (if completed then 1 else 0)
      ensures Holds(q, sent, t)
    {
      lastSlot', staged, completed, reply := lastSlot, false, false, Reply({}, true);
      assert Entries(q)[p].request == q[p].request;
      assert ring[p] == InMemory(q[p], s, p);
      match ring[p].request
      case Immediate =>
        t := FinishNew(q, sent, s, p, s.lastSlot);
        completed := true;
      case NdMemcpy(slot, space) =>
        if dma.stagedNdSlot[slot].valid {
          SkipNew(q, sent, s, p);
          t := s.(skipped := s.skipped + [p]);
        } else if space != SHIM_SPACE {
          t := FinishNew(q, sent, s, p, slot);
          completed := true;
        } else if slot >= SHIM_SLOTS {
          lastSlot' := slot;
          t := FinishNew(q, sent, s, p, slot);
          t := t.(lastSlot := slot);
          completed := true;
        } else {
          lastSlot' := slot;
          var ret;
          ret, reply, t := StartCopy(q, sent, s, p);
          staged, completed := ret != 0, ret == 0;
        }
    }

    /** Wraps a read index around the ring. */
    method Wrap(ghost q: seq<RingPacket>, rdIdx: nat) returns (p: nat)
      requires |q| == ring.Length > 0
      ensures p == Position(Entries(q), rdIdx)
    {
      p := rdIdx;
      while p >= ring.Length
        invariant Position(Entries(q), p) == Position(Entries(q), rdIdx)
      {
        p := p - ring.Length;
      }
    }

    /** Where the read index stands makes no difference to memory. */
    lemma {:induction false} HoldsAhead(q: seq<RingPacket>, sent: seq<Descriptor>, s: Sched, rdIdx: nat)
      requires Holds(q, sent, s)
      ensures Holds(q, sent, s.(rdIdx := rdIdx)) && (SlotsOk(Entries(q), s) ==> SlotsOk(Entries(q), s.(rdIdx := rdIdx)))
    {
      ReadIndexFree(q, s, rdIdx, ring[..], dma.stagedNdSlot[..], dma.log[|sent|..]);
    }

    /** Handles the packet at the read index and counts it. */
    method CountNew(ghost q: seq<RingPacket>, ghost sent: seq<Descriptor>, ghost s: Sched, c: Counters, p: nat)
      returns (c': Counters, ghost reply: Reply, ghost t: Sched)
      requires Holds(q, sent, s) && SlotsOk(Entries(q), s) && CountersOf(s) == c
      requires p == Position(Entries(q), s.rdIdx) && p !in s.done
      modifies ring, dma.stagedNdSlot, dma`log
      ensures reply.stalled == {} && t == HandleNew(Entries(q), s, reply)
      ensures Holds(q, sent, t) && CountersOf(t) == c'
    {
      var lastSlot, staged, completed;
      lastSlot, staged, completed, reply, t := HandleNewPacket(q, sent, s, p, c.lastSlot);
      c' := Counters(c.rdIdx, lastSlot, c.numActive + (if staged then 1 else 0),
                     c.packetsProcessed + (if completed then 1 else 0));
      assert t.rdIdx == s.rdIdx;
    }

    /** Looks at the next packet of the ring, when no slot can go on. */
    method PeekNext(ghost q: seq<RingPacket>, ghost sent: seq<Descriptor>, ghost s: Sched, c: Counters)
      returns (c': Counters, ghost reply: Reply, ghost t: Sched)
      requires |q| > 0 && Holds(q, sent, s) && SlotsOk(Entries(q), s) && CountersOf(s) == c
      modifies ring, dma.stagedNdSlot, dma`log
      ensures t == Peek(Entries(q), s, reply)
      ensures Holds(q, sent, t) && CountersOf(t) == c'
    {
      var next := Wrap(q, c.rdIdx + 1);
      HeaderAt(q, s, next, ring[..]);
      if ring[next].header.AgentDispatch? {
        HoldsAhead(q, sent, s, c.rdIdx + 1);
        c', reply, t := CountNew(q, sent, s.(rdIdx := c.rdIdx + 1), c.(rdIdx := c.rdIdx + 1), next);
      } else {
        c' := c.(lastSlot := NextSlot(c.lastSlot, dma.stagedNdSlot.Length));
        reply, t := Reply({}, false), s.(lastSlot := c'.lastSlot);
        LastSlotFree(q, s, c'.lastSlot, ring[..], dma.stagedNdSlot[..], dma.log[|sent|..]);
      }
    }

    /** One iteration of the loop, coming back from a stall. */
    method PollOnce(ghost q: seq<RingPacket>, ghost sent: seq<Descriptor>, ghost start: nat, ghost s: Sched,
                    c: Counters)
      returns (c': Counters, ghost reply: Reply, ghost t: Sched, ghost answers: map<nat, nat>)
      requires |q| > 0 && Holds(q, sent, s) && Conserved(Entries(q), start, s)
      requires CountersOf(s) == c && c.numActive > 1
      modifies ring, dma.stagedNdSlot, dma`log
      ensures t == Iterate(Entries(q), s, reply) && reply.stalled == StalledIn(answers)
      ensures Holds(q, sent, t) && CountersOf(t) == c'
    {
      var found: Option<nat>;
      found, answers := FindSlot(q, sent, s, c.lastSlot);
      match found {
        case Some(slot) =>
          var ret;
          ret, reply, t := ServeSlot(q, sent, start, s, slot);
          c' := c.(lastSlot := slot);
          if ret == 0 {
            c' := c'.(numActive := c.numActive - 1, packetsProcessed := c.packetsProcessed + 1);
          }
        case None =>
          c', reply, t := PeekNext(q, sent, s, c);
      }
      reply := reply.(stalled := StalledIn(answers));
    }

    /** The first iteration, on the packet at the read index. */
    method HandleFirst(ghost q: seq<RingPacket>, ghost sent: seq<Descriptor>)
      returns (c: Counters, ghost reply: Reply, ghost s: Sched)
      requires Ready() && q == ring[..] && sent == dma.log
      modifies ring, dma.stagedNdSlot, dma`log
      ensures WellFormed(Entries(q), Start(readIndex, dma.stagedNdSlot.Length))
      ensures s == Run(Entries(q), Start(readIndex, dma.stagedNdSlot.Length), [reply])
      ensures reply.stalled == {} && Holds(q, sent, s) && CountersOf(s) == c
    {
      ghost var initial := Start(readIndex, dma.stagedNdSlot.Length);
      assert dma.log[|sent|..] == [];
      assert Holds(q, sent, initial);
      InitialAccount(Entries(q), readIndex, dma.stagedNdSlot.Length);
      var p := Wrap(q, readIndex);
      c, reply, s := CountNew(q, sent, initial, Counters(readIndex, 0, 1, 0), p);
      RunFirst(Entries(q), initial, reply);
    }

    /** Where a call has come that found the ring q, the log sent and the read index start. */
    ghost predicate Reached(q: seq<RingPacket>, sent: seq<Descriptor>, start: nat, replies: seq<Reply>,
                            answers: seq<map<nat, nat>>, s: Sched, c: Counters)
      reads this, ring, dma, dma.stagedNdSlot
    {
      && |replies| > 0 && FromAnswers(replies, answers)
      && WellFormed(Entries(q), Start(start, dma.stagedNdSlot.Length))
      && s == Run(Entries(q), Start(start, dma.stagedNdSlot.Length), replies)
      && Holds(q, sent, s) && CountersOf(s) == c
    }

    /** One more iteration. */
    method PollAgain(ghost q: seq<RingPacket>, ghost sent: seq<Descriptor>, ghost start: nat,
                     ghost replies: seq<Reply>, ghost answers: seq<map<nat, nat>>, ghost s: Sched, c: Counters)
      returns (c': Counters, ghost replies': seq<Reply>, ghost answers': seq<map<nat, nat>>, ghost t: Sched)
      requires Reached(q, sent, start, replies, answers, s, c) && c.numActive > 1
      modifies ring, dma.stagedNdSlot, dma`log
      ensures |replies'| == |replies| + 1 && Reached(q, sent, start, replies', answers', t, c')
    {
      RunConserves(Entries(q), start, dma.stagedNdSlot.Length, replies);
      ghost var reply, polled;
      c', reply, t, polled := PollOnce(q, sent, start, s, c);
      RunNext(Entries(q), Start(start, dma.stagedNdSlot.Length), replies, reply);
      replies', answers' := replies + [reply], answers + [polled];
    }

    /** Handles the packet at the read index and whatever it peeks at while copies are in
        flight. The loop is followed for at most polls iterations; for every behaviour of
        the hardware it does what DispatchSpec.Run says on the ring that it found. Once it
        ends, this call has pushed exactly the walk of each copy completed and nothing for
        any other packet, and the next call can begin. */
    method HandleAgentDispatchPacket(polls: nat)
      returns (finished: bool, ghost replies: seq<Reply>, ghost answers: seq<map<nat, nat>>, ghost s: Sched)
      requires Ready() && polls > 0
      modifies this`readIndex, ring, dma.stagedNdSlot, dma`log
      ensures 0 < |replies| <= polls && FromAnswers(replies, answers)
      ensures WellFormed(Entries(old(ring[..])), Start(old(readIndex), dma.stagedNdSlot.Length))
      ensures s == Run(Entries(old(ring[..])), Start(old(readIndex), dma.stagedNdSlot.Length), replies)
      ensures Holds(old(ring[..]), old(dma.log), s)
      ensures finished <==> s.numActive <= 1
      ensures finished ==> readIndex == Position(Entries(old(ring[..])), old(readIndex) + s.processed)
      ensures finished ==> forall p :: 0 <= p < ring.Length ==>
        FinalTransfer(p, old(ring[..])[p], s, dma.log[|old(dma.log)|..])
      ensures finished ==> Ready()
      ensures !finished ==> |replies| == polls && readIndex == old(readIndex)
    {
      ghost var q, sent, start := ring[..], dma.log, readIndex;
      var c;
      ghost var reply;
      c, reply, s := HandleFirst(q, sent);
      replies, answers := [reply], [map[]];
      var polled := 1;
      while c.numActive > 1 && polled < polls
        invariant 0 < polled == |replies| <= polls && readIndex == start
        invariant Reached(q, sent, start, replies, answers, s, c)
        decreases polls - polled
      {
        c, replies, answers, s := PollAgain(q, sent, start, replies, answers, s, c);
        polled := polled + 1;
      }
      finished := c.numActive <= 1;
      if finished {
        AllTransfersDone(q, start, s, replies, dma.stagedNdSlot[..], dma.log[|sent|..]);
        ReadyAgain(q, sent, start, s, replies);
        readIndex := Wrap(q, readIndex + c.packetsProcessed);
      }
    }

    /** A finished call leaves what the next one needs. */
    lemma {:induction false} ReadyAgain(
      q: seq<RingPacket>, sent: seq<Descriptor>, start: nat, s: Sched, replies: seq<Reply>)
      requires Holds(q, sent, s) && WellFormed(Entries(q), Start(start, dma.stagedNdSlot.Length)) && |replies| > 0
      requires s == Run(Entries(q), Start(start, dma.stagedNdSlot.Length), replies) && s.numActive <= 1
      ensures Ready()
    {
      ExitConserves(Entries(q), start, dma.stagedNdSlot.Length, replies);
      forall i | 0 <= i < dma.stagedNdSlot.Length
        ensures !dma.stagedNdSlot[i].valid
      {
        assert dma.stagedNdSlot[..][i].valid <==> s.slots[i].Some?;
      }
      forall p | 0 <= p < ring.Length
        ensures ring[p].shape == q[p].shape && ring[p].request == q[p].request
      {
        assert ring[..][p] == InMemory(q[p], s, p);
      }
      assert forall p :: 0 <= p < |q| ==> Entries(q)[p].request == q[p].request;
    }
  }

  lemma {:induction false} CopyHandled(q: seq<RingPacket>, s: Sched, p: nat, reply: Reply)
    requires |q| > 0 && WellFormed(Entries(q), s) && p == Position(Entries(q), s.rdIdx) && IsCopy(q[p].request)
    requires q[p].request.slot < |s.slots| && s.slots[q[p].request.slot].None?
    ensures q[p].request == NdMemcpy(q[p].request.slot, SHIM_SPACE)
    ensures HandleNew(Entries(q), s, reply) ==
      (var slot := q[p].request.slot;
       if reply.finished then Complete(s.(lastSlot := slot), p)
       else s.(lastSlot := slot, numActive := s.numActive + 1, slots := s.slots[slot := Some(p)]))
  {
    assert Entries(q)[p].request == q[p].request;
  }

  lemma {:induction false} LastSlotFree(
    q: seq<RingPacket>, s: Sched, slot: nat, ring: seq<RingPacket>, staged: seq<Staged>, log: seq<Descriptor>)
    requires |staged| == |s.slots| && slot < |s.slots|
    requires RingHolds(q, s, ring) && TransfersOk(q, s, staged, log)
    ensures RingHolds(q, s.(lastSlot := slot), ring) && TransfersOk(q, s.(lastSlot := slot), staged, log)
  {
    var t := s.(lastSlot := slot);
    forall p | 0 <= p < |q|
      ensures ring[p] == InMemory(q[p], t, p) && TransferOk(p, q[p], t, staged, log)
    {
      assert ring[p] == InMemory(q[p], s, p) && TransferOk(p, q[p], s, staged, log);
    }
  }

  lemma {:induction false} ReadIndexFree(
    q: seq<RingPacket>, s: Sched, rdIdx: nat, ring: seq<RingPacket>, staged: seq<Staged>, log: seq<Descriptor>)
    requires |staged| == |s.slots|
    requires RingHolds(q, s, ring) && TransfersOk(q, s, staged, log)
    ensures RingHolds(q, s.(rdIdx := rdIdx), ring) && TransfersOk(q, s.(rdIdx := rdIdx), staged, log)
  {
    var t := s.(rdIdx := rdIdx);
    forall p | 0 <= p < |q|
      ensures ring[p] == InMemory(q[p], t, p) && TransferOk(p, q[p], t, staged, log)
    {
      assert ring[p] == InMemory(q[p], s, p) && TransferOk(p, q[p], s, staged, log);
    }
  }

  /** The header in memory tells whether a packet still has to be handled. */
  lemma {:induction false} HeaderAt(q: seq<RingPacket>, s: Sched, p: nat, ring: seq<RingPacket>)
    requires RingHolds(q, s, ring) && p < |q|
    ensures ring[p].header.AgentDispatch? <==> Dispatchable(Entries(q), s, p)
  {
    assert ring[p] == InMemory(q[p], s, p);
  }

  lemma {:induction false} InitialAccount(ring: seq<Entry>, start: nat, slots: nat)
    requires WellFormed(ring, Start(start, slots))
    ensures SlotsOk(ring, Start(start, slots))
  {
  }

  /** A completed copy has pushed exactly its walk, and any other packet nothing. */
  ghost predicate FinalTransfer(p: nat, pkt: RingPacket, s: Sched, log: seq<Descriptor>) {
    PushedFor(log, p) ==
      if p in s.done && IsCopy(pkt.request) then Descriptors(Packet(p, pkt.shape), Walk(pkt.shape)) else []
  }

  lemma {:induction false} AllTransfersDone(
    q: seq<RingPacket>, start: nat, s: Sched, replies: seq<Reply>, staged: seq<Staged>, log: seq<Descriptor>)
    requires |staged| == |s.slots| && TransfersOk(q, s, staged, log)
    requires WellFormed(Entries(q), Start(start, |staged|)) && |replies| > 0
    requires s == Run(Entries(q), Start(start, |staged|), replies) && s.numActive <= 1
    ensures forall p :: 0 <= p < |q| ==> FinalTransfer(p, q[p], s, log)
  {
    ExitConserves(Entries(q), start, |staged|, replies);
    forall p | 0 <= p < |q|
      ensures FinalTransfer(p, q[p], s, log)
    {
      assert TransferOk(p, q[p], s, staged, log);
    }
  }
}
