/** The rank-0 barrier over acknowledged sends and receives: n ranks, any number of rounds,
    every interleaving, over one FIFO queue pair between rank 0 and each other rank. */
module Barrier {
  import opened Arithmetic

  datatype Kind = Data | Ack

  datatype Op = Send(kind: Kind) | Recv(kind: Kind)

  /** A single-chunk air_send: the data, then the acknowledgement of the other side. */
  const AIR_SEND := [Send(Data), Recv(Ack)]
  /** A single-chunk air_recv: the data, then the acknowledgement to the other side. */
  const AIR_RECV := [Recv(Data), Send(Ack)]

  /** Where rank 0 is: which barrier, in the receiving or the sending loop, at which peer,
      and before which operation of its air_recv or air_send. */
  datatype Root = Root(round: nat, sending: bool, peer: nat, sub: nat)

  /** peers[i] counts the operations of rank i, four a round; entry 0 is not used. up[i] and
      down[i] are the messages in flight from rank i to rank 0 and back, oldest first. */
  datatype State = State(root: Root, peers: seq<nat>, up: seq<seq<Kind>>, down: seq<seq<Kind>>)

  predicate IsState(n: nat, s: State) {
    && n > 0 && |s.peers| == |s.up| == |s.down| == n
    && s.root.sub < 2 && (n > 1 ==> 1 <= s.root.peer < n)
  }

  function Start(n: nat): State {
    State(Root(0, false, 1, 0), seq(n, _ => 0), seq(n, _ => []), seq(n, _ => []))
  }

  /** The operation that a rank other than 0 performs as its k-th: in every round it sends
      to rank 0 and then receives from it. */
  function PeerOp(k: nat): Op {
    (AIR_SEND + AIR_RECV)[k % 4]
  }

  function RootOp(r: Root): Op
    requires r.sub < 2
  {
    if r.sending then AIR_SEND[r.sub] else AIR_RECV[r.sub]
  }

  /** The two loops over the peers, one after the other, round after round. */
  function RootNext(n: nat, r: Root): Root
    requires n > 1
  {
    if r.sub == 0 then r.(sub := 1)
    else if r.peer + 1 < n then r.(peer := r.peer + 1, sub := 0)
    else if !r.sending then r.(sending := true, peer := 1, sub := 0)
    else Root(r.round + 1, false, 1, 0)
  }

  /** Rank 0 has operations left in its first `rounds` barriers. */
  predicate RootActive(n: nat, rounds: nat, s: State) {
    n > 1 && s.root.round < rounds
  }

  predicate PeerActive(rounds: nat, s: State, i: nat)
    requires i < |s.peers|
  {
    s.peers[i] < 4 * rounds
  }

  /** Rank `rank` can perform its next operation: a receive waits for a message. */
  predicate Enabled(n: nat, rounds: nat, s: State, rank: nat)
    requires IsState(n, s)
  {
    if rank == 0 then
      RootActive(n, rounds, s) && (RootOp(s.root).Recv? ==> s.up[s.root.peer] != [])
    else
      rank < n && PeerActive(rounds, s, rank) && (PeerOp(s.peers[rank]).Recv? ==> s.down[rank] != [])
  }

  function Step(n: nat, rounds: nat, s: State, rank: nat): (r: State)
    requires IsState(n, s) && Enabled(n, rounds, s, rank)
    ensures IsState(n, r)
  {
    if rank == 0 then
      var i := s.root.peer;
      match RootOp(s.root)
      case Send(kind) => s.(root := RootNext(n, s.root), down := s.down[i := s.down[i] + [kind]])
      case Recv(_) => s.(root := RootNext(n, s.root), up := s.up[i := s.up[i][1..]])
    else
      match PeerOp(s.peers[rank])
      case Send(kind) => s.(peers := s.peers[rank := s.peers[rank] + 1], up := s.up[rank := s.up[rank] + [kind]])
      case Recv(_) => s.(peers := s.peers[rank := s.peers[rank] + 1], down := s.down[rank := s.down[rank][1..]])
  }

  /** The schedule is a run: each rank can step when it is its turn. */
  ghost predicate IsRun(n: nat, rounds: nat, schedule: seq<nat>, s: State) {
    if schedule == [] then n > 0 && s == Start(n)
    else exists t: State ::
      IsRun(n, rounds, schedule[..|schedule| - 1], t) && IsState(n, t)
      && Enabled(n, rounds, t, schedule[|schedule| - 1])
      && s == Step(n, rounds, t, schedule[|schedule| - 1])
  }

  ghost predicate Reachable(n: nat, rounds: nat, s: State) {
    exists schedule :: IsRun(n, rounds, schedule, s)
  }

  // ---------- The pair protocol ----------

  /** How many operations rank 0 has performed with peer i. */
  function WithPeer(r: Root, i: nat): nat {
    4 * r.round +
    if !r.sending then (if i < r.peer then 2 else if i == r.peer then r.sub else 0)
    else (if i < r.peer then 4 else if i == r.peer then 2 + r.sub else 2)
  }

  /** The k-th message between rank 0 and a peer goes to rank 0. */
  predicate GoesUp(k: nat) {
    k % 4 == 0 || k % 4 == 3
  }

  function KindOf(k: nat): Kind {
    if k % 2 == 0 then Data else Ack
  }

  function Messages(from: nat, end: nat): seq<Kind>
    decreases end - from
  {
    if from >= end then [] else [KindOf(from)] + Messages(from + 1, end)
  }

  /** With a operations done by rank 0 and b by the peer: the side that is ahead only sent
      what the other has not received, and that is what is in flight. */
  ghost predicate PairOk(a: nat, b: nat, up: seq<Kind>, down: seq<Kind>) {
    && (forall k :: a <= k < b ==> GoesUp(k))
    && (forall k :: b <= k < a ==> !GoesUp(k))
    && up == Messages(a, b)
    && down == Messages(b, a)
  }

  ghost predicate Inv(n: nat, rounds: nat, s: State) {
    && IsState(n, s)
    && s.root.round <= rounds
    && (s.root.round == rounds ==> !s.root.sending && s.root.peer == 1 && s.root.sub == 0)
    && forall i :: 1 <= i < n ==>
         s.peers[i] <= 4 * rounds && PairOk(WithPeer(s.root, i), s.peers[i], s.up[i], s.down[i])
  }

  lemma OfRound(round: nat, k: nat)
    requires k < 4
    ensures (4 * round + k) % 4 == k
    ensures GoesUp(4 * round + k) <==> (k == 0 || k == 3)
    ensures KindOf(4 * round + k) == if k == 0 || k == 2 then Data else Ack
  {
    QuotientUnique(4 * round + k, 4, round, k);
    QuotientUnique(4 * round + k, 2, if k < 2 then 2 * round else 2 * round + 1, if k < 2 then k else k - 2);
  }

  lemma PeerOps(k: nat)
    ensures PeerOp(k) == if GoesUp(k) then Send(KindOf(k)) else Recv(KindOf(k))
  {
    OfRound(k / 4, k % 4);
  }

  /** Seen by peer i, rank 0 performs the dual of the peer's script. */
  lemma RootOps(r: Root)
    requires r.sub < 2
    ensures var k := WithPeer(r, r.peer);
      RootOp(r) == if GoesUp(k) then Recv(KindOf(k)) else Send(KindOf(k))
  {
    OfRound(r.round, if r.sending then 2 + r.sub else r.sub);
  }

  lemma RootAdvances(n: nat, r: Root, i: nat)
    requires n > 1 && r.sub < 2 && 1 <= r.peer < n && 1 <= i < n
    ensures WithPeer(RootNext(n, r), i) == WithPeer(r, i) + if i == r.peer then 1 else 0
  {
  }

  lemma {:induction false} MessagesSnoc(from: nat, end: nat)
    requires from <= end
    ensures Messages(from, end + 1) == Messages(from, end) + [KindOf(end)]
    decreases end - from
  {
    if from < end {
      MessagesSnoc(from + 1, end);
    }
  }

  /** The peer takes its next step with rank 0. */
  lemma PeerPair(a: nat, b: nat, up: seq<Kind>, down: seq<Kind>)
    requires PairOk(a, b, up, down)
    ensures GoesUp(b) ==> PairOk(a, b + 1, up + [KindOf(b)], down)
    ensures !GoesUp(b) && down != [] ==> down[0] == KindOf(b) && PairOk(a, b + 1, up, down[1..])
  {
    if GoesUp(b) && a <= b {
      MessagesSnoc(a, b);
    }
  }

  /** Rank 0 takes its next step with the peer. */
  lemma RootPair(a: nat, b: nat, up: seq<Kind>, down: seq<Kind>)
    requires PairOk(a, b, up, down)
    ensures !GoesUp(a) ==> PairOk(a + 1, b, up, down + [KindOf(a)])
    ensures GoesUp(a) && up != [] ==> up[0] == KindOf(a) && PairOk(a + 1, b, up[1..], down)
  {
    if !GoesUp(a) && b <= a {
      MessagesSnoc(b, a);
    }
  }

  lemma StepKeepsInv(n: nat, rounds: nat, s: State, rank: nat)
    requires Inv(n, rounds, s) && Enabled(n, rounds, s, rank)
    ensures Inv(n, rounds, Step(n, rounds, s, rank))
  {
    var t := Step(n, rounds, s, rank);
    forall i | 1 <= i < n
      ensures t.peers[i] <= 4 * rounds && PairOk(WithPeer(t.root, i), t.peers[i], t.up[i], t.down[i])
    {
      assert PairOk(WithPeer(s.root, i), s.peers[i], s.up[i], s.down[i]);
      if rank == 0 {
        RootOps(s.root);
        RootAdvances(n, s.root, i);
        RootPair(WithPeer(s.root, i), s.peers[i], s.up[i], s.down[i]);
      } else {
        PeerOps(s.peers[rank]);
        PeerPair(WithPeer(s.root, i), s.peers[i], s.up[i], s.down[i]);
      }
    }
  }

  lemma {:induction false} RunKeepsInv(n: nat, rounds: nat, schedule: seq<nat>, s: State)
    requires IsRun(n, rounds, schedule, s)
    ensures Inv(n, rounds, s)
  {
    if schedule != [] {
      var last := |schedule| - 1;
      var t: State :| IsRun(n, rounds, schedule[..last], t) && IsState(n, t)
        && Enabled(n, rounds, t, schedule[last]) && s == Step(n, rounds, t, schedule[last]);
      RunKeepsInv(n, rounds, schedule[..last], t);
      StepKeepsInv(n, rounds, t, schedule[last]);
    }
  }

  // ---------- Safety ----------

  /** Rank i has returned from its barrier number k, counted from 0. */
  predicate Returned(s: State, i: nat, k: nat)
    requires i < |s.peers|
  {
    if i == 0 then s.root.round > k else s.peers[i] >= 4 * (k + 1)
  }

  /** Rank i has begun its barrier number k: it has performed an operation of it. */
  predicate Entered(s: State, i: nat, k: nat)
    requires i < |s.peers|
  {
    if i == 0 then s.root.round > k || (s.root.round == k && s.root != Root(k, false, 1, 0))
    else s.peers[i] > 4 * k
  }

  /** No rank returns from a barrier before all ranks have entered it. */
  lemma NoEarlyReturn(n: nat, rounds: nat, s: State, i: nat, j: nat, k: nat)
    requires Reachable(n, rounds, s) && IsState(n, s) && i < n && j < n && Returned(s, i, k)
    ensures Entered(s, j, k)
  {
    var schedule :| IsRun(n, rounds, schedule, s);
    RunKeepsInv(n, rounds, schedule, s);
    if j == 0 {
      if i != 0 {
        RootPastReceiving(n, rounds, s, i, k);
      }
    } else {
      RootReceivedAll(n, rounds, s, i, j, k);
      PeerHasSent(WithPeer(s.root, j), s.peers[j], s.up[j], s.down[j], k);
    }
  }

  /** Rank 0 cannot be past the first message of a round that the peer has not begun. */
  lemma PeerHasSent(a: nat, b: nat, up: seq<Kind>, down: seq<Kind>, k: nat)
    requires PairOk(a, b, up, down) && a > 4 * k
    ensures b > 4 * k
  {
    OfRound(k, 0);
    assert GoesUp(4 * k);
  }

  /** A peer that has returned from barrier k got its data from rank 0, which had by then
      received the data of all peers. */
  lemma RootPastReceiving(n: nat, rounds: nat, s: State, i: nat, k: nat)
    requires Inv(n, rounds, s) && 1 <= i < n && s.peers[i] >= 4 * (k + 1)
    ensures s.root.round > k || (s.root.round == k && s.root.sending)
  {
    assert PairOk(WithPeer(s.root, i), s.peers[i], s.up[i], s.down[i]);
    OfRound(k, 2);
    assert !GoesUp(4 * k + 2);
  }

  lemma RootReceivedAll(n: nat, rounds: nat, s: State, i: nat, j: nat, k: nat)
    requires Inv(n, rounds, s) && i < n && 1 <= j < n && Returned(s, i, k)
    ensures WithPeer(s.root, j) > 4 * k
  {
    if i != 0 {
      RootPastReceiving(n, rounds, s, i, k);
    }
  }

  /** A receive always takes the message it is meant for: data where data is expected, an
      acknowledgement where an acknowledgement is. */
  lemma ReceivesMatch(n: nat, rounds: nat, s: State, rank: nat)
    requires Reachable(n, rounds, s) && IsState(n, s) && Enabled(n, rounds, s, rank)
    ensures rank == 0 && RootOp(s.root).Recv? ==> s.up[s.root.peer][0] == RootOp(s.root).kind
    ensures rank > 0 && PeerOp(s.peers[rank]).Recv? ==> s.down[rank][0] == PeerOp(s.peers[rank]).kind
  {
    var schedule :| IsRun(n, rounds, schedule, s);
    RunKeepsInv(n, rounds, schedule, s);
    var i := if rank == 0 then s.root.peer else rank;
    var a, b := WithPeer(s.root, i), s.peers[i];
    assert PairOk(a, b, s.up[i], s.down[i]);
    RootOps(s.root);
    PeerOps(b);
    RootPair(a, b, s.up[i], s.down[i]);
    PeerPair(a, b, s.up[i], s.down[i]);
  }

  lemma {:induction false} MessagesLength(from: nat, end: nat)
    ensures |Messages(from, end)| == if from <= end then end - from else 0
    decreases end - from
  {
    if from < end {
      MessagesLength(from + 1, end);
    }
  }

  /** At most two messages are in flight in either direction of a pair, and never messages
      in both. */
  lemma AtMostTwoInFlight(n: nat, rounds: nat, s: State, i: nat)
    requires Reachable(n, rounds, s) && IsState(n, s) && 1 <= i < n
    ensures |s.up[i]| <= 2 && |s.down[i]| <= 2
    ensures s.up[i] == [] || s.down[i] == []
  {
    var schedule :| IsRun(n, rounds, schedule, s);
    RunKeepsInv(n, rounds, schedule, s);
    var a, b := WithPeer(s.root, i), s.peers[i];
    assert PairOk(a, b, s.up[i], s.down[i]);
    MessagesLength(a, b);
    MessagesLength(b, a);
    DirectionsAlternate(a);
    DirectionsAlternate(b);
  }

  /** Of three consecutive messages neither all go up nor all go down. */
  lemma DirectionsAlternate(k: nat)
    ensures !GoesUp(k) || !GoesUp(k + 1) || !GoesUp(k + 2)
    ensures GoesUp(k) || GoesUp(k + 1) || GoesUp(k + 2)
  {
  }

  // ---------- Liveness ----------

  /** Every rank has returned from all its barriers. */
  predicate AllReturned(n: nat, rounds: nat, s: State)
    requires IsState(n, s)
  {
    !RootActive(n, rounds, s) && forall i :: 1 <= i < n ==> !PeerActive(rounds, s, i)
  }

  /** No reachable state is deadlocked: unless all ranks have returned, some rank can step. */
  lemma NoDeadlock(n: nat, rounds: nat, s: State)
    requires Reachable(n, rounds, s) && IsState(n, s) && !AllReturned(n, rounds, s)
    ensures exists rank :: Enabled(n, rounds, s, rank)
  {
    var schedule :| IsRun(n, rounds, schedule, s);
    RunKeepsInv(n, rounds, schedule, s);
    var i: nat;
    if RootActive(n, rounds, s) {
      i := s.root.peer;
    } else {
      i :| 1 <= i < n && PeerActive(rounds, s, i);
    }
    PairCanStep(n, rounds, s, i);
    assert Enabled(n, rounds, s, 0) || Enabled(n, rounds, s, i);
  }

  /** In the pair that rank 0 is at, or in any active pair once rank 0 is done, one side can step. */
  lemma PairCanStep(n: nat, rounds: nat, s: State, i: nat)
    requires Inv(n, rounds, s) && 1 <= i < n
    requires if RootActive(n, rounds, s) then i == s.root.peer else PeerActive(rounds, s, i)
    ensures Enabled(n, rounds, s, 0) || Enabled(n, rounds, s, i)
  {
    var a, b := WithPeer(s.root, i), s.peers[i];
    assert PairOk(a, b, s.up[i], s.down[i]);
    RootOps(s.root);
    PeerOps(b);
    MessagesLength(a, b);
    MessagesLength(b, a);
  }

  /** Operations of the peers from rank i on that are still to come. */
  function PeersLeft(rounds: nat, peers: seq<nat>, i: nat): int
    requires i <= |peers|
    decreases |peers| - i
  {
    if i == |peers| then 0 else 4 * rounds - peers[i] + PeersLeft(rounds, peers, i + 1)
  }

  /** Operations of rank 0 that are still to come. */
  function RootLeft(n: nat, rounds: nat, r: Root): int {
    (rounds - r.round) * 4 * (n - 1) - (if r.sending then 2 * (n - 1) else 0) - 2 * (r.peer - 1) - r.sub
  }

  function OpsLeft(n: nat, rounds: nat, s: State): int
    requires IsState(n, s)
  {
    (if n > 1 then RootLeft(n, rounds, s.root) else 0) + PeersLeft(rounds, s.peers, 1)
  }

  lemma {:induction false} PeersLeftStep(rounds: nat, peers: seq<nat>, i: nat, rank: nat)
    requires i <= rank < |peers|
    ensures PeersLeft(rounds, peers[rank := peers[rank] + 1], i) == PeersLeft(rounds, peers, i) - 1
    decreases rank - i
  {
    if i < rank {
      PeersLeftStep(rounds, peers, i + 1, rank);
    } else {
      PeersLeftSame(rounds, peers, peers[rank := peers[rank] + 1], i + 1);
    }
  }

  lemma {:induction false} PeersLeftSame(rounds: nat, peers: seq<nat>, others: seq<nat>, i: nat)
    requires |peers| == |others| && i <= |peers| && forall k :: i <= k < |peers| ==> peers[k] == others[k]
    ensures PeersLeft(rounds, peers, i) == PeersLeft(rounds, others, i)
    decreases |peers| - i
  {
    if i < |peers| {
      PeersLeftSame(rounds, peers, others, i + 1);
    }
  }

  lemma RootLeftStep(n: nat, rounds: nat, r: Root)
    requires n > 1 && r.sub < 2 && 1 <= r.peer < n
    ensures RootLeft(n, rounds, RootNext(n, r)) == RootLeft(n, rounds, r) - 1
  {
    assert (rounds - (r.round + 1)) * 4 * (n - 1) == (rounds - r.round) * 4 * (n - 1) - 4 * (n - 1);
  }

  /** Every step leaves one operation less. */
  lemma StepsCountDown(n: nat, rounds: nat, s: State, rank: nat)
    requires Inv(n, rounds, s) && Enabled(n, rounds, s, rank)
    ensures OpsLeft(n, rounds, Step(n, rounds, s, rank)) == OpsLeft(n, rounds, s) - 1
  {
    if rank == 0 {
      RootLeftStep(n, rounds, s.root);
    } else {
      PeersLeftStep(rounds, s.peers, 1, rank);
    }
  }

  lemma {:induction false} PeersLeftBounds(rounds: nat, peers: seq<nat>, i: nat)
    requires i <= |peers| && forall k :: i <= k < |peers| ==> peers[k] <= 4 * rounds
    ensures PeersLeft(rounds, peers, i) >= 0
    ensures PeersLeft(rounds, peers, i) == 0 <==> forall k :: i <= k < |peers| ==> peers[k] == 4 * rounds
    decreases |peers| - i
  {
    if i < |peers| {
      PeersLeftBounds(rounds, peers, i + 1);
    }
  }

  lemma RootLeftBounds(n: nat, rounds: nat, r: Root)
    requires n > 1 && r.sub < 2 && 1 <= r.peer < n && r.round <= rounds
    requires r.round == rounds ==> r == Root(rounds, false, 1, 0)
    ensures RootLeft(n, rounds, r) >= 0
    ensures RootLeft(n, rounds, r) == 0 <==> r.round == rounds
  {
    if r.round < rounds {
      AtLeastOnce(rounds - r.round, 4 * (n - 1));
      assert (rounds - r.round) * 4 * (n - 1) == (rounds - r.round) * (4 * (n - 1));
    }
  }

  lemma {:induction false} StartLeft(rounds: nat, n: nat, i: nat)
    requires i <= n
    ensures PeersLeft(rounds, seq(n, _ => 0), i) == 4 * rounds * (n - i)
    decreases n - i
  {
    if i < n {
      StartLeft(rounds, n, i + 1);
      assert 4 * rounds * (n - i) == 4 * rounds + 4 * rounds * (n - (i + 1));
    }
  }

  lemma {:induction false} RunLength(n: nat, rounds: nat, schedule: seq<nat>, s: State)
    requires IsRun(n, rounds, schedule, s)
    ensures IsState(n, s) && |schedule| + OpsLeft(n, rounds, s) == 8 * rounds * (n - 1)
  {
    if schedule == [] {
      StartLeft(rounds, n, 1);
      if n > 1 {
        assert (rounds - 0) * 4 * (n - 1) + 4 * rounds * (n - 1) == 8 * rounds * (n - 1);
      }
    } else {
      var last := |schedule| - 1;
      var t: State :| IsRun(n, rounds, schedule[..last], t) && IsState(n, t)
        && Enabled(n, rounds, t, schedule[last]) && s == Step(n, rounds, t, schedule[last]);
      RunLength(n, rounds, schedule[..last], t);
      RunKeepsInv(n, rounds, schedule[..last], t);
      StepsCountDown(n, rounds, t, schedule[last]);
    }
  }

  lemma NothingLeft(n: nat, rounds: nat, s: State)
    requires Inv(n, rounds, s)
    ensures OpsLeft(n, rounds, s) >= 0
    ensures OpsLeft(n, rounds, s) == 0 <==> AllReturned(n, rounds, s)
  {
    PeersLeftBounds(rounds, s.peers, 1);
    if n > 1 {
      RootLeftBounds(n, rounds, s.root);
      assert RootLeft(n, rounds, s.root) >= 0;
    }
    if OpsLeft(n, rounds, s) == 0 {
      assert PeersLeft(rounds, s.peers, 1) == 0;
      assert AllReturned(n, rounds, s);
    }
    if AllReturned(n, rounds, s) {
      forall i | 1 <= i < n
        ensures s.peers[i] == 4 * rounds
      {
        assert !PeerActive(rounds, s, i);
      }
    }
  }

  /** Every run, in whatever order the ranks step, has at most 8 steps per round and pair,
      and has taken all of them exactly when all ranks have returned from all barriers. */
  lemma EveryRunCompletes(n: nat, rounds: nat, schedule: seq<nat>, s: State)
    requires IsRun(n, rounds, schedule, s)
    ensures |schedule| <= 8 * rounds * (n - 1)
    ensures IsState(n, s) && (|schedule| == 8 * rounds * (n - 1) <==> AllReturned(n, rounds, s))
  {
    RunKeepsInv(n, rounds, schedule, s);
    RunLength(n, rounds, schedule, s);
    NothingLeft(n, rounds, s);
  }
}
