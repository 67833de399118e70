/** The controller's resumable four-dimensional copy: a triple loop over descriptors that
    may stop at any push, save a checkpoint, and go on from it later. */
module NdCopy {
  import IndexWalk

  const MOD64 := 0x1_0000_0000_0000_0000
  const STALL_THRESHOLD := 4

  /** Shape of a copy: base address, length of one descriptor, and three strided dimensions. */
  datatype Shape = Shape(base: nat, len1: nat, len2: nat, str2: nat, len3: nat, str3: nat, len4: nat, str4: nat)

  /** A staged packet; id tells packets apart. */
  datatype Packet = Packet(id: nat, shape: Shape)

  /** A descriptor pushed for a packet. */
  datatype Descriptor = Descriptor(id: nat, addr: nat, len: nat)

  /** One entry of staged_nd_slot. */
  datatype Staged = Staged(
    valid: bool, pkt: Packet,
    paddr3: nat, paddr2: nat, paddr1: nat, index4: nat, index3: nat, index2: nat)

  // ---------- The list of addresses that a copy visits ----------

  function Address(p: Shape, i4: nat, i3: nat, i2: nat): nat {
    (p.base + i4 * p.str4 + i3 * p.str3 + i2 * p.str2) % MOD64
  }

  function AddressIn(p: Shape): IndexWalk.Locator {
    (i4: nat, i3: nat, i2: nat) => Address(p, i4, i3, i2)
  }

  function ExtentsOf(p: Shape): IndexWalk.Extents {
    IndexWalk.Extents(p.len4, p.len3, p.len2)
  }

  /** The addresses that come before (i4, i3, i2). */
  function Before(p: Shape, i4: nat, i3: nat, i2: nat): seq<nat> {
    IndexWalk.Before(AddressIn(p), ExtentsOf(p), i4, i3, i2)
  }

  /** All addresses of the copy. */
  function Walk(p: Shape): seq<nat> {
    IndexWalk.Walk(AddressIn(p), ExtentsOf(p))
  }

  /** Entry (i4 * len3 + i3) * len2 + i2 of the walk is the address of (i4, i3, i2), and
      there are no others. */
  lemma WalkAt(p: Shape, i4: nat, i3: nat, i2: nat)
    requires i4 < p.len4 && i3 < p.len3 && i2 < p.len2
    ensures |Walk(p)| == p.len4 * p.len3 * p.len2
    ensures 0 <= (i4 * p.len3 + i3) * p.len2 + i2 < |Walk(p)|
    ensures Walk(p)[(i4 * p.len3 + i3) * p.len2 + i2] == (p.base + i4 * p.str4 + i3 * p.str3 + i2 * p.str2) % MOD64
  {
    IndexWalk.WalkAt(AddressIn(p), ExtentsOf(p), i4, i3, i2);
  }

  lemma StepAddress(x: nat, s: nat)
    ensures (x % MOD64 + s) % MOD64 == (x + s) % MOD64
  {
  }

  /** The descriptors of a packet for a list of addresses. */
  function Descriptors(pkt: Packet, addrs: seq<nat>): (r: seq<Descriptor>)
    ensures |r| == |addrs|
  {
    seq(|addrs|, i requires 0 <= i < |addrs| => Descriptor(pkt.id, addrs[i], pkt.shape.len1))
  }

  lemma DescriptorsAppend(pkt: Packet, a: seq<nat>, b: seq<nat>)
    ensures Descriptors(pkt, a + b) == Descriptors(pkt, a) + Descriptors(pkt, b)
  {
  }

  // ---------- Checkpoints ----------

  /** A checkpoint stands at a position of the loop nest and holds the addresses that
      belong to it. */
  ghost predicate Consistent(st: Staged) {
    var p := st.pkt.shape;
    && p.base < MOD64
    && ((st.index4 < p.len4 && st.index3 < p.len3 && st.index2 < p.len2)
        || (st.index4 <= p.len4 && st.index3 == st.index2 == 0))
    && st.paddr3 == Address(p, st.index4, 0, 0)
    && st.paddr2 == Address(p, st.index4, st.index3, 0)
    && (p.len3 > 0 ==> st.paddr1 == Address(p, st.index4, st.index3, st.index2))
  }

  /** The addresses pushed up to a checkpoint. */
  ghost function Done(st: Staged): seq<nat>
    requires Consistent(st)
  {
    Before(st.pkt.shape, st.index4, st.index3, st.index2)
  }

  /** The outstanding counts that the channel reported before each push: below four each time, and
      four or more once more at the end if the copy was stopped there. */
  ghost predicate AnswersAllow(pushed: nat, answers: seq<nat>, stopped: bool) {
    && |answers| == pushed + (if stopped then 1 else 0)
    && (forall k :: 0 <= k < pushed ==> answers[k] < 4)
    && (stopped ==> answers[pushed] >= 4)
  }

  class NdMemcpy {
    const stagedNdSlot: array<Staged>
    ghost var log: seq<Descriptor>

    constructor (slots: nat)
      ensures fresh(stagedNdSlot) && stagedNdSlot.Length == slots && log == []
      ensures forall i :: 0 <= i < slots ==> !stagedNdSlot[i].valid
    {
      var idle := Staged(false, Packet(0, Shape(0, 0, 0, 0, 0, 0, 0, 0)), 0, 0, 0, 0, 0, 0);
      stagedNdSlot := new Staged[slots](_ => idle);
      log := [];
    }

    /** Depth of the channel's start queue, as the hardware happens to report it. */
    method GetOutstanding() returns (n: nat)
      ensures n < 8
    {
      n :| 0 <= n < 8;
    }

    /** 1 when the channel is still busy after polling, else 0. */
    method WaitIdle() returns (r: nat)
      ensures r <= 1
    {
      r :| 0 <= r <= 1;
    }

    method PutCheckpoint(slot: nat, pkt: Packet, i4: nat, i3: nat, i2: nat, pad3: nat, pad2: nat, pad1: nat)
      requires slot < stagedNdSlot.Length
      modifies stagedNdSlot
      ensures stagedNdSlot[..] == old(stagedNdSlot[..])[
        slot := Staged(old(stagedNdSlot[slot].valid), pkt, pad3, pad2, pad1, i4, i3, i2)]
    {
      stagedNdSlot[slot] := Staged(stagedNdSlot[slot].valid, pkt, pad3, pad2, pad1, i4, i3, i2);
    }

    /** Returns 2 when the slot is busy, 1 for an unsupported memory space, and else stages
        the packet at the start of its walk. */
    method StagePacketNdMemcpy(pkt: Packet, slot: nat, memorySpace: nat) returns (ret: nat)
      requires slot < stagedNdSlot.Length && pkt.shape.base < MOD64
      modifies stagedNdSlot
      ensures ret == if old(stagedNdSlot[slot].valid) then 2 else if memorySpace == 2 then 0 else 1
      ensures ret != 0 ==> stagedNdSlot[..] == old(stagedNdSlot[..])
      ensures forall i :: 0 <= i < stagedNdSlot.Length && i != slot ==> stagedNdSlot[i] == old(stagedNdSlot[i])
      ensures ret == 0 ==>
        && stagedNdSlot[slot].valid && stagedNdSlot[slot].pkt == pkt
        && Consistent(stagedNdSlot[slot]) && Done(stagedNdSlot[slot]) == []
    {
      if stagedNdSlot[slot].valid {
        return 2;
      }
      if memorySpace != 2 {
        return 1;
      }
      var paddr := pkt.shape.base;
      PutCheckpoint(slot, pkt, 0, 0, 0, paddr, paddr, paddr);
      stagedNdSlot[slot] := stagedNdSlot[slot].(valid := true);
      return 0;
    }

    /** Pushes descriptors from the checkpoint on until the channel stalls or the walk is
        over. Whatever the hardware does, the descriptors pushed so far are a prefix of the
        walk, no entry is pushed twice, and 0 is returned only after the last one. It stops
        before the end of the walk only where the channel has four or more outstanding. */
    method DoPacketNdMemcpy(slot: nat) returns (ret: nat, ghost pushed: seq<nat>, ghost answers: seq<nat>)
      requires slot < stagedNdSlot.Length && Consistent(stagedNdSlot[slot])
      modifies stagedNdSlot, this`log
      ensures ret <= 1
      ensures log == old(log) + Descriptors(old(stagedNdSlot[slot].pkt), pushed)
      ensures var st := old(stagedNdSlot[slot]);
        && Done(st) + pushed <= Walk(st.pkt.shape)
        && (ret == 0 ==> Done(st) + pushed == Walk(st.pkt.shape))
        && AnswersAllow(|pushed|, answers, Done(st) + pushed != Walk(st.pkt.shape))
        && stagedNdSlot[slot].pkt == st.pkt && stagedNdSlot[slot].valid == st.valid
        && (ret != 0 ==> Consistent(stagedNdSlot[slot]) && Done(stagedNdSlot[slot]) == Done(st) + pushed)
      ensures forall i :: 0 <= i < stagedNdSlot.Length && i != slot ==> stagedNdSlot[i] == old(stagedNdSlot[i])
    {
      var st := stagedNdSlot[slot];
      var pkt, p := st.pkt, st.pkt.shape;
      var pad3: nat, pad2: nat, pad1: nat := st.paddr3, st.paddr2, st.paddr1;
      var i4: nat, i3: nat, i2: nat := st.index4, st.index3, st.index2;
      pushed, answers := [], [];
      ghost var start := Done(st);

      while i4 < p.len4
        invariant i4 <= p.len4 && ((i4 < p.len4 && i3 < p.len3 && i2 < p.len2) || i3 == i2 == 0)
        invariant start + pushed == Before(p, i4, i3, i2)
        invariant pad3 == Address(p, i4, 0, 0) && pad2 == Address(p, i4, i3, 0)
        invariant p.len3 > 0 ==> pad1 == Address(p, i4, i3, i2)
        invariant log == old(log) + Descriptors(pkt, pushed) && AnswersAllow(|pushed|, answers, false)
        invariant unchanged(stagedNdSlot)
      {
        while i3 < p.len3
          invariant i3 <= p.len3 && ((i3 < p.len3 && i2 < p.len2) || i2 == 0)
          invariant start + pushed == Before(p, i4, i3, i2)
          invariant pad2 == Address(p, i4, i3, 0)
          invariant i3 < p.len3 ==> pad1 == Address(p, i4, i3, i2)
          invariant i3 == p.len3 > 0 ==> pad1 == Address(p, i4 + 1, 0, 0)
          invariant log == old(log) + Descriptors(pkt, pushed) && AnswersAllow(|pushed|, answers, false)
          invariant unchanged(stagedNdSlot)
        {
          while i2 < p.len2
            invariant i2 <= p.len2
            invariant start + pushed == Before(p, i4, i3, i2)
            invariant pad1 == Address(p, i4, i3, i2)
            invariant log == old(log) + Descriptors(pkt, pushed) && AnswersAllow(|pushed|, answers, false)
            invariant unchanged(stagedNdSlot)
          {
            var outstanding := GetOutstanding();
            answers := answers + [outstanding];
            if outstanding >= STALL_THRESHOLD {
              NotOver(p, i4, i3, i2);
              PutCheckpoint(slot, pkt, i4, i3, i2, pad3, pad2, pad1);
              return 1, pushed, answers;
            }
            log := log + [Descriptor(pkt.id, pad1, p.len1)];
            NextInRow(pkt, start, pushed, i4, i3, i2);
            pushed := pushed + [pad1];
            pad1 := (pad1 + p.str2) % MOD64;
            i2 := i2 + 1;
          }
          NextRow(p, i4, i3);
          i2 := 0;
          pad2 := (pad2 + p.str3) % MOD64;
          if i3 + 1 < p.len3 {
            pad1 := pad2;
          } else {
            pad1 := (pad3 + p.str4) % MOD64;
          }
          i3 := i3 + 1;
        }
        NextPlane(p, i4);
        i3 := 0;
        pad3 := (pad3 + p.str4) % MOD64;
        pad2 := pad3;
        i4 := i4 + 1;
      }
      ret := WaitIdle();
      if ret != 0 {
        PutCheckpoint(slot, pkt, i4, i3, i2, pad3, pad2, pad1);
      }
    }

    /** Any number of calls, with stalls anywhere: what was pushed altogether is a prefix of
        the walk, and all of it once a call has returned 0. */
    method Transfer(pkt: Packet, slot: nat, calls: nat) returns (finished: bool, ghost done: seq<nat>)
      requires slot < stagedNdSlot.Length && !stagedNdSlot[slot].valid && pkt.shape.base < MOD64
      modifies stagedNdSlot, this`log
      ensures done <= Walk(pkt.shape) && log == old(log) + Descriptors(pkt, done)
      ensures finished ==> done == Walk(pkt.shape)
    {
      finished := false;
      var staged := StagePacketNdMemcpy(pkt, slot, 2);
      done := [];
      for call := 0 to calls
        invariant done <= Walk(pkt.shape) && log == old(log) + Descriptors(pkt, done)
        invariant Consistent(stagedNdSlot[slot]) && stagedNdSlot[slot].pkt == pkt
        invariant Done(stagedNdSlot[slot]) == done
      {
        var ret;
        ghost var pushed, answers;
        ret, pushed, answers := DoPacketNdMemcpy(slot);
        DescriptorsAppend(pkt, done, pushed);
        done := done + pushed;
        if ret == 0 {
          finished := true;
          return;
        }
      }
    }

    static lemma NextInRow(pkt: Packet, start: seq<nat>, pushed: seq<nat>, i4: nat, i3: nat, i2: nat)
      requires i2 < pkt.shape.len2 && start + pushed == Before(pkt.shape, i4, i3, i2)
      ensures var a := Address(pkt.shape, i4, i3, i2);
        && start + (pushed + [a]) == Before(pkt.shape, i4, i3, i2 + 1)
        && Descriptors(pkt, pushed + [a])
             == Descriptors(pkt, pushed) + [Descriptor(pkt.id, a, pkt.shape.len1)]
        && (a + pkt.shape.str2) % MOD64 == Address(pkt.shape, i4, i3, i2 + 1)
    {
      var p, a := pkt.shape, Address(pkt.shape, i4, i3, i2);
      assert start + (pushed + [a]) == (start + pushed) + [a];
      StepAddress(p.base + i4 * p.str4 + i3 * p.str3 + i2 * p.str2, p.str2);
      assert (i2 + 1) * p.str2 == i2 * p.str2 + p.str2;
    }

    /** Before the last push the walk is not over. */
    static lemma NotOver(p: Shape, i4: nat, i3: nat, i2: nat)
      requires i4 < p.len4 && i3 < p.len3 && i2 < p.len2
      ensures Before(p, i4, i3, i2) < Walk(p)
    {
      IndexWalk.BeforeIsPrefix(AddressIn(p), ExtentsOf(p), i4, i3, i2 + 1);
      assert Before(p, i4, i3, i2 + 1) == Before(p, i4, i3, i2) + [Address(p, i4, i3, i2)];
    }

    static lemma NextRow(p: Shape, i4: nat, i3: nat)
      requires i3 < p.len3
      ensures Before(p, i4, i3, p.len2) == Before(p, i4, i3 + 1, 0)
      ensures (Address(p, i4, i3, 0) + p.str3) % MOD64 == Address(p, i4, i3 + 1, 0)
      ensures (Address(p, i4, 0, 0) + p.str4) % MOD64 == Address(p, i4 + 1, 0, 0)
    {
      RowAddress(p, i4, i3);
      PlaneAddress(p, i4);
    }

    static lemma RowAddress(p: Shape, i4: nat, i3: nat)
      ensures (Address(p, i4, i3, 0) + p.str3) % MOD64 == Address(p, i4, i3 + 1, 0)
    {
      StepAddress(p.base + i4 * p.str4 + i3 * p.str3, p.str3);
      assert (i3 + 1) * p.str3 == i3 * p.str3 + p.str3;
    }

    static lemma PlaneAddress(p: Shape, i4: nat)
      ensures (Address(p, i4, 0, 0) + p.str4) % MOD64 == Address(p, i4 + 1, 0, 0)
    {
      StepAddress(p.base + i4 * p.str4, p.str4);
      assert (i4 + 1) * p.str4 == i4 * p.str4 + p.str4;
    }

    static lemma NextPlane(p: Shape, i4: nat)
      ensures Before(p, i4, p.len3, 0) == Before(p, i4 + 1, 0, 0)
      ensures (Address(p, i4, 0, 0) + p.str4) % MOD64 == Address(p, i4 + 1, 0, 0)
    {
      PlaneAddress(p, i4);
    }
  }
}
