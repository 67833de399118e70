/** The calls of air_barrier, air_send and air_recv as they post their packets, and the link
    to the state machine of module Barrier: one call of air_barrier performs exactly the
    operations of one round. */
module BarrierCalls {
  import opened Arithmetic
  import opened Barrier

  /** Every operation with the same rank at the other end. */
  function With(rank: nat, ops: seq<Op>): seq<(nat, Op)> {
    seq(|ops|, i requires 0 <= i < |ops| => (rank, ops[i]))
  }

  /** One call for each of the ranks from..n-1. */
  function WithEach(ops: seq<Op>, first: nat, n: nat): seq<(nat, Op)>
    decreases n - first
  {
    if first >= n then [] else With(first, ops) + WithEach(ops, first + 1, n)
  }

  function BarrierScript(rank: nat, n: nat): seq<(nat, Op)> {
    if rank == 0 then WithEach(AIR_RECV, 1, n) + WithEach(AIR_SEND, 1, n)
    else With(0, AIR_SEND) + With(0, AIR_RECV)
  }

  /** Receive queue entries of rqe bytes that a payload takes: the quotient rounded up. */
  function Chunks(size: nat, rqe: nat): nat
    requires rqe > 0
  {
    (size + rqe - 1) / rqe
  }

  function Times(op: Op, k: nat): seq<Op> {
    seq(k, _ => op)
  }

  lemma WithConcat(rank: nat, a: seq<Op>, b: seq<Op>)
    ensures With(rank, a + b) == With(rank, a) + With(rank, b)
  {
  }

  lemma {:induction false} WithEachSnoc(ops: seq<Op>, first: nat, n: nat)
    requires first <= n
    ensures WithEach(ops, first, n + 1) == WithEach(ops, first, n) + With(n, ops)
    decreases n - first
  {
    if first < n {
      WithEachSnoc(ops, first + 1, n);
      assert WithEach(ops, first, n + 1) == With(first, ops) + (WithEach(ops, first + 1, n) + With(n, ops));
    }
  }

  lemma NobodyLeft(ops: seq<Op>, i: nat, n: nat)
    requires i >= 1 && (i == n || (i == 1 && n == 0))
    ensures WithEach(ops, 1, i) == WithEach(ops, 1, n)
  {
  }

  /** Taking one full or last entry leaves one entry less to come. */
  lemma ChunksStep(left: nat, rqe: nat)
    requires rqe > 0 && left > 0
    ensures Chunks(left, rqe) == 1 + if left > rqe then Chunks(left - rqe, rqe) else 0
  {
    if left > rqe {
      assert left + rqe - 1 == (left - rqe + rqe - 1) + rqe;
      QuotientStep(left - 1, rqe);
    } else {
      QuotientStep(left - 1, rqe);
      assert (left - 1) / rqe == 0;
    }
  }

  /** The host process of one rank, with the operations it has performed so far. */
  class Rank {
    var done: seq<(nat, Op)>

    constructor ()
      ensures done == []
    {
      done := [];
    }

    method Perform(rank: nat, op: Op)
      modifies this
      ensures done == old(done) + [(rank, op)]
    {
      done := done + [(rank, op)];
    }

    /** The payload in entries, then one posted receive for the acknowledgement. */
    method Send(dst: nat, size: nat, rqe: nat)
      requires rqe > 0
      modifies this
      ensures done == old(done) + With(dst, Times(Op.Send(Data), Chunks(size, rqe)) + [Op.Recv(Ack)])
    {
      var numRqes := Chunks(size, rqe);
      var i: nat := 0;
      while i < numRqes
        invariant i <= numRqes
        invariant done == old(done) + With(dst, Times(Op.Send(Data), i))
      {
        Perform(dst, Op.Send(Data));
        i := i + 1;
      }
      Perform(dst, Op.Recv(Ack));
    }

    /** Receives until no data is left, then sends the acknowledgement. */
    method Recv(src: nat, size: nat, rqe: nat)
      requires rqe > 0
      modifies this
      ensures done == old(done) + With(src, Times(Op.Recv(Data), Chunks(size, rqe)) + [Op.Send(Ack)])
    {
      var amountLeft: nat := size;
      ghost var i: nat := 0;
      QuotientUnique(rqe - 1, rqe, 0, rqe - 1);
      while amountLeft > 0
        invariant i + Chunks(amountLeft, rqe) == Chunks(size, rqe)
        invariant done == old(done) + With(src, Times(Op.Recv(Data), i))
      {
        ChunksStep(amountLeft, rqe);
        var amount := if amountLeft > rqe then rqe else amountLeft;
        Perform(src, Op.Recv(Data));
        amountLeft := amountLeft - amount;
        i := i + 1;
      }
      Perform(src, Op.Send(Ack));
    }

    /** One chunk each way with every other rank for rank 0, and with rank 0 for the others. */
    method Barrier(rank: nat, worldSize: nat, rqe: nat)
      requires rqe > 0
      modifies this
      ensures done == old(done) + BarrierScript(rank, worldSize)
    {
      SingleChunk(rqe);
      if rank == 0 {
        var i: nat := 1;
        while i < worldSize
          invariant i == 1 || 1 < i <= worldSize
          invariant done == old(done) + WithEach(AIR_RECV, 1, i)
        {
          Recv(i, rqe, rqe);
          WithEachSnoc(AIR_RECV, 1, i);
          i := i + 1;
        }
        NobodyLeft(AIR_RECV, i, worldSize);
        ghost var received := done;
        i := 1;
        while i < worldSize
          invariant i == 1 || 1 < i <= worldSize
          invariant done == received + WithEach(AIR_SEND, 1, i)
        {
          Send(i, rqe, rqe);
          WithEachSnoc(AIR_SEND, 1, i);
          i := i + 1;
        }
        NobodyLeft(AIR_SEND, i, worldSize);
      } else {
        Send(0, rqe, rqe);
        Recv(0, rqe, rqe);
      }
    }
  }

  lemma SingleChunk(rqe: nat)
    requires rqe > 0
    ensures Chunks(rqe, rqe) == 1
    ensures Times(Op.Send(Data), Chunks(rqe, rqe)) + [Op.Recv(Ack)] == AIR_SEND
    ensures Times(Op.Recv(Data), Chunks(rqe, rqe)) + [Op.Send(Ack)] == AIR_RECV
  {
    QuotientUnique(rqe + rqe - 1, rqe, 1, rqe - 1);
  }

  // ---------- The order of the calls ----------

  lemma {:induction false} WithEachAt(ops: seq<Op>, first: nat, n: nat, i: nat, k: nat)
    requires |ops| == 2 && first <= i < n && k < 2
    ensures |WithEach(ops, first, n)| == 2 * (n - first)
    ensures WithEach(ops, first, n)[2 * (i - first) + k] == (i, ops[k])
    decreases n - first
  {
    if first + 1 < n {
      WithEachAt(ops, first + 1, n, if i > first then i else first + 1, k);
    } else {
      assert WithEach(ops, first + 1, n) == [];
    }
  }

  /** Rank 0 first receives from every other rank, in the order of their numbers, and then sends to
      every other rank in that order. Each of the others sends to rank 0 and then receives from it. */
  lemma BarrierOrder(n: nat, i: nat)
    requires 0 < i < n
    ensures var script, half := BarrierScript(0, n), 2 * (n - 1);
      && |script| == 2 * half
      && script[2 * i - 2] == (i, Op.Recv(Data)) && script[2 * i - 1] == (i, Op.Send(Ack))
      && script[half + 2 * i - 2] == (i, Op.Send(Data)) && script[half + 2 * i - 1] == (i, Op.Recv(Ack))
    ensures BarrierScript(i, n) == [(0, Op.Send(Data)), (0, Op.Recv(Ack)), (0, Op.Recv(Data)), (0, Op.Send(Ack))]
  {
    WithEachAt(AIR_RECV, 1, n, i, 0);
    WithEachAt(AIR_RECV, 1, n, i, 1);
    WithEachAt(AIR_SEND, 1, n, i, 0);
    WithEachAt(AIR_SEND, 1, n, i, 1);
  }

  // ---------- One call is one round of the state machine ----------

  /** The operations that rank 0 performs in its next `count` steps. */
  function RootScript(n: nat, r: Root, count: nat): seq<(nat, Op)>
    requires n > 1 && r.sub < 2
    decreases count
  {
    if count == 0 then [] else [(r.peer, RootOp(r))] + RootScript(n, RootNext(n, r), count - 1)
  }

  function RootAfter(n: nat, r: Root, count: nat): (after: Root)
    requires n > 1 && r.sub < 2
    ensures after.sub < 2
    decreases count
  {
    if count == 0 then r else RootAfter(n, RootNext(n, r), count - 1)
  }

  lemma {:induction false} RootScriptConcat(n: nat, r: Root, a: nat, b: nat)
    requires n > 1 && r.sub < 2
    ensures RootAfter(n, r, a + b) == RootAfter(n, RootAfter(n, r, a), b)
    ensures RootScript(n, r, a + b) == RootScript(n, r, a) + RootScript(n, RootAfter(n, r, a), b)
    decreases a
  {
    if a > 0 {
      RootScriptConcat(n, RootNext(n, r), a - 1, b);
    }
  }

  /** One of the two loops over the peers, from a peer on. */
  lemma {:induction false} LoopScript(n: nat, round: nat, sending: bool, peer: nat)
    requires 1 <= peer < n
    ensures var r := Root(round, sending, peer, 0);
      && RootScript(n, r, 2 * (n - peer)) == WithEach(if sending then AIR_SEND else AIR_RECV, peer, n)
      && RootAfter(n, r, 2 * (n - peer)) == if sending then Root(round + 1, false, 1, 0) else Root(round, true, 1, 0)
    decreases n - peer
  {
    var r := Root(round, sending, peer, 0);
    var ops := if sending then AIR_SEND else AIR_RECV;
    TwoSteps(n, r);
    if peer + 1 < n {
      RootScriptConcat(n, r, 2, 2 * (n - (peer + 1)));
      LoopScript(n, round, sending, peer + 1);
    } else {
      assert WithEach(ops, peer, n) == With(peer, ops);
    }
  }

  lemma TwoSteps(n: nat, r: Root)
    requires n > 1 && r.sub == 0
    ensures RootScript(n, r, 2) == With(r.peer, if r.sending then AIR_SEND else AIR_RECV)
    ensures RootAfter(n, r, 2) == RootNext(n, r.(sub := 1))
  {
    assert RootScript(n, r, 2) == [(r.peer, RootOp(r))] + RootScript(n, RootNext(n, r), 1);
    assert RootScript(n, RootNext(n, r), 1)
        == [(r.peer, RootOp(r.(sub := 1)))] + RootScript(n, RootNext(n, r.(sub := 1)), 0);
  }

  /** What rank 0 performs in one call of air_barrier is one round of the state machine. */
  lemma RootCallIsOneRound(n: nat, round: nat)
    requires n > 1
    ensures BarrierScript(0, n) == RootScript(n, Root(round, false, 1, 0), 4 * (n - 1))
    ensures RootAfter(n, Root(round, false, 1, 0), 4 * (n - 1)) == Root(round + 1, false, 1, 0)
  {
    LoopScript(n, round, false, 1);
    LoopScript(n, round, true, 1);
    RootScriptConcat(n, Root(round, false, 1, 0), 2 * (n - 1), 2 * (n - 1));
    assert 2 * (n - 1) + 2 * (n - 1) == 4 * (n - 1);
  }

  /** And so is what every other rank performs. */
  lemma PeerCallIsOneRound(n: nat, round: nat, rank: nat, j: nat)
    requires 0 < rank && j < 4
    ensures |BarrierScript(rank, n)| == 4 && BarrierScript(rank, n)[j] == (0, PeerOp(4 * round + j))
  {
    WithConcat(0, AIR_SEND, AIR_RECV);
    OfRound(round, j);
  }
}
