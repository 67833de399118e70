/** Buffer descriptors of the shim DMAs: each channel of a column owns four, taken in turn
    by a cursor kept in last_bd. */
module BdRing {

  datatype Direction = S2MM | MM2S

  /** A channel of the shim DMA of a column. */
  datatype Channel = Channel(col: nat, dir: Direction, number: nat)

  const RING := 4

  predicate IsChannel(c: Channel) {
    c.number < 2
  }

  /** The hardware's number of a channel among the four of its column. */
  function HardwareNumber(c: Channel): nat {
    c.number + (if c.dir.S2MM? then 0 else 2)
  }

  /** The entry of last_bd that a channel uses: it depends on the parity of the column only. */
  function CursorIndex(c: Channel): nat {
    HardwareNumber(c) + (if c.col % 2 == 1 then 4 else 0)
  }

  /** The cursors, and for every channel the descriptors pushed and not yet completed,
      oldest first. */
  datatype State = State(lastBd: seq<nat>, live: map<Channel, seq<nat>>)

  function Live(s: State, c: Channel): seq<nat> {
    if c in s.live then s.live[c] else []
  }

  const IDLE := State([0, 0, 0, 0, 0, 0, 0, 0], map[])

  /** The controller pushes to a channel, or the channel finishes its oldest descriptor. */
  datatype Event = Push(c: Channel) | Complete(c: Channel)

  predicate IsState(s: State) {
    |s.lastBd| == 8 && forall i :: 0 <= i < 8 ==> s.lastBd[i] < RING
  }

  function Cursor(s: State, c: Channel): nat
    requires IsState(s) && IsChannel(c)
  {
    s.lastBd[CursorIndex(c)]
  }

  /** The descriptor that a push would write. */
  function NextBd(s: State, c: Channel): nat
    requires IsState(s) && IsChannel(c)
  {
    RING * HardwareNumber(c) + Cursor(s, c)
  }

  /** A push waits while four descriptors are outstanding. */
  function Step(s: State, e: Event): (r: State)
    requires IsState(s) && IsChannel(e.c)
    ensures IsState(r)
  {
    match e
    case Push(c) =>
      if |Live(s, c)| >= RING then s
      else State(s.lastBd[CursorIndex(c) := if Cursor(s, c) == RING - 1 then 0 else Cursor(s, c) + 1],
                 s.live[c := Live(s, c) + [NextBd(s, c)]])
    case Complete(c) =>
      if Live(s, c) == [] then s else s.(live := s.live[c := Live(s, c)[1..]])
  }

  predicate AreChannels(events: seq<Event>) {
    forall i :: 0 <= i < |events| ==> IsChannel(events[i].c)
  }

  function Run(events: seq<Event>): (r: State)
    requires AreChannels(events)
    ensures IsState(r)
  {
    if events == [] then IDLE else Step(Run(events[..|events| - 1]), events[|events| - 1])
  }

  /** The event writes a descriptor that some channel of the same column still has to finish. */
  predicate Rewrites(s: State, e: Event)
    requires IsState(s) && IsChannel(e.c)
  {
    && e.Push?
    && |Live(s, e.c)| < RING
    && exists d :: d in s.live && d.col == e.c.col && NextBd(s, e.c) in s.live[d]
  }

  // ---------- Channels with cursors of their own are safe ----------

  /** The outstanding descriptors of a channel are the last ones before its cursor, in the
      channel's own group of four. */
  ghost predicate Consecutive(s: State, c: Channel)
    requires IsState(s) && IsChannel(c)
  {
    && |Live(s, c)| <= RING
    && forall k :: 0 <= k < |Live(s, c)| ==>
      Live(s, c)[k] == RING * HardwareNumber(c) + (Cursor(s, c) + RING - |Live(s, c)| + k) % RING
  }

  /** Only the used channels have descriptors, and theirs are consecutive. */
  ghost predicate Ordered(s: State, used: set<Channel>) {
    && IsState(s)
    && forall c :: c in s.live ==> IsChannel(c) && c in used && Consecutive(s, c)
  }

  /** No two of the channels share a cursor. */
  ghost predicate CursorsDiffer(used: set<Channel>) {
    forall c, d :: c in used && d in used && c != d ==> CursorIndex(c) != CursorIndex(d)
  }

  /** The events concern used channels. */
  ghost predicate EventsOn(events: seq<Event>, used: set<Channel>) {
    AreChannels(events) && forall i :: 0 <= i < |events| ==> events[i].c in used
  }

  lemma StepConsecutive(s: State, e: Event)
    requires IsState(s) && IsChannel(e.c) && Consecutive(s, e.c)
    ensures Consecutive(Step(s, e), e.c)
  {
    var t, n := Step(s, e), |Live(s, e.c)|;
    forall k: nat | k < |Live(t, e.c)|
      ensures Live(t, e.c)[k] == RING * HardwareNumber(e.c) + (Cursor(t, e.c) + RING - |Live(t, e.c)| + k) % RING
    {
      if e.Push? && n < RING {
        CursorStep(Cursor(s, e.c), n, k);
      } else if e.Complete? && n > 0 {
        assert Live(t, e.c)[k] == Live(s, e.c)[k + 1];
      }
    }
  }

  /** After a push the cursor is one further, and there is one more descriptor before it. */
  lemma CursorStep(cursor: nat, n: nat, k: nat)
    requires cursor < RING && k <= n < RING
    ensures var next := if cursor == RING - 1 then 0 else cursor + 1;
      (next + RING - (n + 1) + k) % RING == if k < n then (cursor + RING - n + k) % RING else cursor
  {
  }

  lemma StepOrdered(s: State, e: Event, used: set<Channel>)
    requires Ordered(s, used) && CursorsDiffer(used) && IsChannel(e.c) && e.c in used
    ensures Ordered(Step(s, e), used)
  {
    var t := Step(s, e);
    StepConsecutive(s, e);
    forall c | c in t.live
      ensures IsChannel(c) && c in used && Consecutive(t, c)
    {
      if c != e.c {
        assert Consecutive(s, c);
      }
    }
  }

  lemma {:induction false} RunOrdered(events: seq<Event>, used: set<Channel>)
    requires EventsOn(events, used) && CursorsDiffer(used)
    ensures Ordered(Run(events), used)
  {
    if events != [] {
      RunOrdered(events[..|events| - 1], used);
      StepOrdered(Run(events[..|events| - 1]), events[|events| - 1], used);
    }
  }

  /** The groups of four of different channels do not overlap, and with room left the cursor
      is ahead of all outstanding descriptors of its own group. */
  lemma NextIsFree(h: nat, h': nat, cursor: nat, cursor': nat, n: nat, k: nat)
    requires cursor < RING && cursor' < RING && k < n <= RING
    requires h == h' ==> cursor == cursor' && n < RING
    ensures RING * h' + (cursor' + RING - n + k) % RING != RING * h + cursor
  {
    assert (cursor' + RING - n + k) % RING < RING;
  }

  /** In an ordered state no push writes an outstanding descriptor. */
  lemma OrderedIsSafe(s: State, e: Event, used: set<Channel>)
    requires Ordered(s, used) && IsChannel(e.c)
    ensures !Rewrites(s, e)
  {
    forall d | e.Push? && |Live(s, e.c)| < RING && d in s.live && d.col == e.c.col
      ensures NextBd(s, e.c) !in s.live[d]
    {
      assert Consecutive(s, d);
      forall k | 0 <= k < |s.live[d]|
        ensures s.live[d][k] != NextBd(s, e.c)
      {
        NextIsFree(HardwareNumber(e.c), HardwareNumber(d), Cursor(s, e.c), Cursor(s, d), |Live(s, d)|, k);
      }
    }
  }

  // ---------- Channels that share a cursor are not ----------

  /** One push to a channel, three to another one, and one to the first. */
  function SharedCursor(c: Channel, d: Channel): seq<Event> {
    [Push(c), Push(d), Push(d), Push(d), Push(c)]
  }

  lemma PushEffect(s: State, c: Channel, d: Channel)
    requires IsState(s) && IsChannel(c) && IsChannel(d) && c != d && CursorIndex(c) == CursorIndex(d)
    requires |Live(s, c)| < RING
    ensures var t := Step(s, Push(c));
      && Live(t, c) == Live(s, c) + [NextBd(s, c)] && Live(t, d) == Live(s, d)
      && Cursor(t, c) == Cursor(t, d) == if Cursor(s, c) == RING - 1 then 0 else Cursor(s, c) + 1
  {
  }

  lemma {:induction false} RunPush(events: seq<Event>, e: Event)
    requires AreChannels(events) && IsChannel(e.c)
    ensures AreChannels(events + [e]) && Run(events + [e]) == Step(Run(events), e)
  {
    assert (events + [e])[..|events|] == events;
  }

  /** Channels with one cursor have the same number in different columns. */
  lemma SharedCursorColumns(c: Channel, d: Channel)
    requires IsChannel(c) && IsChannel(d)
    ensures CursorIndex(c) == CursorIndex(d) <==> HardwareNumber(c) == HardwareNumber(d) && c.col % 2 == d.col % 2
    ensures HardwareNumber(c) == HardwareNumber(d) <==> c.dir == d.dir && c.number == d.number
  {
  }

  /** The first four of these events, one step after the other. */
  function AfterFour(c: Channel, d: Channel): (s: State)
    requires IsChannel(c) && IsChannel(d)
    ensures IsState(s)
  {
    Step(Step(Step(Step(IDLE, Push(c)), Push(d)), Push(d)), Push(d))
  }

  lemma {:induction false} RunThreePushes(events: seq<Event>, q: Event)
    requires AreChannels(events) && IsChannel(q.c)
    ensures AreChannels(events + [q, q, q])
    ensures Run(events + [q, q, q]) == Step(Step(Step(Run(events), q), q), q)
  {
    RunPush(events, q);
    RunPush(events + [q], q);
    RunPush(events + [q] + [q], q);
    assert events + [q] + [q] + [q] == events + [q, q, q];
  }

  lemma {:induction false} RunFour(c: Channel, d: Channel)
    requires IsChannel(c) && IsChannel(d)
    ensures AreChannels(SharedCursor(c, d)) && Run(SharedCursor(c, d)[..4]) == AfterFour(c, d)
  {
    var p, q := Push(c), Push(d);
    RunPush([], p);
    assert [] + [p] == [p];
    RunThreePushes([p], q);
    assert [p] + [q, q, q] == SharedCursor(c, d)[..4];
  }

  /** The cursor has come back to the descriptor that the first channel still has to finish. */
  lemma {:induction false} CursorComesBack(c: Channel, d: Channel)
    requires IsChannel(c) && IsChannel(d) && c != d && CursorIndex(c) == CursorIndex(d)
    ensures var s := AfterFour(c, d); Live(s, c) == [NextBd(s, c)]
  {
    PushEffect(IDLE, c, d);
    var s1 := Step(IDLE, Push(c));
    PushEffect(s1, d, c);
    var s2 := Step(s1, Push(d));
    PushEffect(s2, d, c);
    var s3 := Step(s2, Push(d));
    PushEffect(s3, d, c);
  }

  lemma {:induction false} SharedCursorRewrites(c: Channel, d: Channel)
    requires IsChannel(c) && IsChannel(d) && c != d && CursorIndex(c) == CursorIndex(d)
    ensures AreChannels(SharedCursor(c, d)) && Rewrites(Run(SharedCursor(c, d)[..4]), Push(c))
  {
    RunFour(c, d);
    CursorComesBack(c, d);
    var s := AfterFour(c, d);
    assert NextBd(s, c) in Live(s, c) && c in s.live;
  }

  /** Should event e come next after a run on the used channels, it rewrites nothing. */
  ghost predicate SafeNext(events: seq<Event>, e: Event, used: set<Channel>) {
    EventsOn(events, used) && IsChannel(e.c) && e.c in used ==> !Rewrites(Run(events), e)
  }

  /** No run on a set of channels ever rewrites an outstanding descriptor if and only if no
      two of the channels share a cursor: have the same direction and number in different
      columns of the same parity. */
  lemma SafeIffCursorsDiffer(used: set<Channel>)
    requires forall c :: c in used ==> IsChannel(c)
    ensures CursorsDiffer(used) <==> forall events, e :: SafeNext(events, e, used)
    ensures CursorsDiffer(used) <==>
      forall c, d :: c in used && d in used && c != d ==>
        c.dir != d.dir || c.number != d.number || c.col % 2 != d.col % 2
  {
    forall c, d | c in used && d in used
      ensures CursorIndex(c) == CursorIndex(d) <==> c.dir == d.dir && c.number == d.number && c.col % 2 == d.col % 2
    {
      SharedCursorColumns(c, d);
    }
    if CursorsDiffer(used) {
      CursorsAreSafe(used);
    } else {
      var c, d :| c in used && d in used && c != d && CursorIndex(c) == CursorIndex(d);
      SharedCursorRewrites(c, d);
      assert !SafeNext(SharedCursor(c, d)[..4], Push(c), used);
    }
  }

  lemma CursorsAreSafe(used: set<Channel>)
    requires CursorsDiffer(used)
    ensures forall events, e :: SafeNext(events, e, used)
  {
    forall events, e: Event | EventsOn(events, used) && IsChannel(e.c) && e.c in used
      ensures !Rewrites(Run(events), e)
    {
      RunOrdered(events, used);
      OrderedIsSafe(Run(events), e, used);
    }
  }

  // ---------- Which descriptors a channel uses ----------

  /** The first of the sixteen descriptors of a column that belongs to a channel: 0 and 4 for the two
      channels to memory, 8 and 12 for those from memory. */
  function FirstBd(c: Channel): nat {
    match c.dir
    case S2MM => 4 * c.number
    case MM2S => 8 + 4 * c.number
  }

  ghost predicate OwnBds(s: State) {
    forall c, d :: c in s.live && d in s.live[c] ==> FirstBd(c) <= d < FirstBd(c) + 4
  }

  /** Whatever channels are in use, each works with its own four descriptors. */
  lemma {:induction false} EachHasItsFour(events: seq<Event>)
    requires AreChannels(events)
    ensures OwnBds(Run(events))
  {
    if events != [] {
      EachHasItsFour(events[..|events| - 1]);
      StepOwn(Run(events[..|events| - 1]), events[|events| - 1]);
    }
  }

  lemma StepOwn(s: State, e: Event)
    requires IsState(s) && IsChannel(e.c) && OwnBds(s)
    ensures OwnBds(Step(s, e))
  {
    forall c, d | c in Step(s, e).live && d in Step(s, e).live[c]
      ensures FirstBd(c) <= d < FirstBd(c) + 4
    {
      assert d in Live(s, c) || (e == Push(c) && d == NextBd(s, c));
    }
  }

  /** How many of the pushes to a channel did not have to wait. */
  function Pushes(events: seq<Event>, c: Channel): nat
    requires AreChannels(events)
  {
    if events == [] then 0
    else
      var init, e := events[..|events| - 1], events[|events| - 1];
      Pushes(init, c) + if e == Push(c) && |Live(Run(init), c)| < 4 then 1 else 0
  }

  /** Without shared cursors the pushes of a channel take its four descriptors in turn, from the
      first one on. */
  lemma {:induction false} TakenInTurn(events: seq<Event>, used: set<Channel>, c: Channel)
    requires EventsOn(events, used) && CursorsDiffer(used) && c in used && IsChannel(c)
    ensures NextBd(Run(events), c) == FirstBd(c) + Pushes(events, c) % 4
  {
    CursorCounts(events, used, c);
  }

  lemma {:induction false} CursorCounts(events: seq<Event>, used: set<Channel>, c: Channel)
    requires EventsOn(events, used) && CursorsDiffer(used) && c in used && IsChannel(c)
    ensures Cursor(Run(events), c) == Pushes(events, c) % 4
  {
    if events != [] {
      var init, e := events[..|events| - 1], events[|events| - 1];
      CursorCounts(init, used, c);
      CursorMoves(Run(init), e, c, used);
      CountMoves(Cursor(Run(init), c), Cursor(Run(events), c), Pushes(init, c), Pushes(events, c),
                 e == Push(c) && |Live(Run(init), c)| < 4);
    }
  }

  lemma CountMoves(cursor: nat, cursor': nat, pushes: nat, pushes': nat, pushed: bool)
    requires cursor == pushes % 4 && pushes' == pushes + if pushed then 1 else 0
    requires cursor' == if pushed then (cursor + 1) % 4 else cursor
    ensures cursor' == pushes' % 4
  {
  }

  lemma CursorMoves(s: State, e: Event, c: Channel, used: set<Channel>)
    requires IsState(s) && IsChannel(e.c) && IsChannel(c) && e.c in used && c in used && CursorsDiffer(used)
    ensures Cursor(Step(s, e), c) ==
      if e == Push(c) && |Live(s, c)| < 4 then (Cursor(s, c) + 1) % 4 else Cursor(s, c)
  {
    assert e.c != c ==> CursorIndex(e.c) != CursorIndex(c);
  }

  // ---------- Whole columns ----------

  /** The four channels of a column. */
  function ChannelsOf(col: nat): set<Channel> {
    {Channel(col, S2MM, 0), Channel(col, S2MM, 1), Channel(col, MM2S, 0), Channel(col, MM2S, 1)}
  }

  lemma FourChannels(col: nat, c: Channel)
    ensures c in ChannelsOf(col) <==> IsChannel(c) && c.col == col
  {
    if IsChannel(c) && c.col == col {
      assert c == Channel(col, if c.dir.S2MM? then S2MM else MM2S, if c.number == 0 then 0 else 1);
    }
  }

  /** All channels of the columns. */
  ghost predicate AreChannelsOf(used: set<Channel>, cols: set<nat>) {
    forall c :: c in used <==> IsChannel(c) && c.col in cols
  }

  lemma {:induction false} ColumnsHaveChannels(cols: set<nat>) returns (used: set<Channel>)
    ensures AreChannelsOf(used, cols)
    decreases cols
  {
    if cols == {} {
      used := {};
    } else {
      var col :| col in cols;
      used := ColumnsHaveChannels(cols - {col});
      forall c: Channel
        ensures c in ChannelsOf(col) <==> IsChannel(c) && c.col == col
      {
        FourChannels(col, c);
      }
      used := used + ChannelsOf(col);
    }
  }

  /** No two of the columns have the same parity. */
  ghost predicate ParitiesDiffer(cols: set<nat>) {
    forall a, b :: a in cols && b in cols && a != b ==> a % 2 != b % 2
  }

  /** When all channels of the columns are in use: if and only if no two of the columns have
      the same parity, so at most two columns are safe. */
  lemma SafeIffParitiesDiffer(cols: set<nat>, used: set<Channel>)
    requires AreChannelsOf(used, cols)
    ensures ParitiesDiffer(cols) <==> forall events, e :: SafeNext(events, e, used)
  {
    SafeIffCursorsDiffer(used);
    if !ParitiesDiffer(cols) {
      var a, b :| a in cols && b in cols && a != b && a % 2 == b % 2;
      var c, d := Channel(a, S2MM, 0), Channel(b, S2MM, 0);
      assert c in used && d in used && CursorIndex(c) == CursorIndex(d);
    }
  }

  // ---------- The controller's code ----------

  class ShimDmas {
    const lastBd: array<nat>
    var live: map<Channel, seq<nat>>

    constructor ()
      ensures fresh(lastBd) && IsState(Abstract()) && Abstract() == IDLE
    {
      lastBd := new nat[8](_ => 0);
      live := map[];
      new;
      assert lastBd[..] == IDLE.lastBd;
    }

    function Abstract(): State
      reads this, lastBd
    {
      State(lastBd[..], live)
    }

    method GetOutstanding(c: Channel) returns (n: nat)
      ensures n == |Live(Abstract(), c)|
    {
      n := if c in live then |live[c]| else 0;
    }

    /** Picks the next descriptor of the channel and queues it. */
    method PushBd(c: Channel)
      requires IsState(Abstract()) && IsChannel(c) && |Live(Abstract(), c)| < RING
      modifies lastBd, this`live
      ensures Abstract() == Step(old(Abstract()), Push(c))
    {
      var hardwareNumber := c.number;
      if c.dir.S2MM? {
        hardwareNumber := hardwareNumber + 0;
      } else {
        hardwareNumber := hardwareNumber + 2;
      }
      var startBd := 4 * hardwareNumber;
      var slot := c.number;
      slot := slot + if c.col % 2 == 1 then 4 else 0;
      slot := slot + if c.dir.S2MM? then 0 else 2;
      var bd := startBd + lastBd[slot];
      lastBd[slot] := if lastBd[slot] == 3 then 0 else lastBd[slot] + 1;
      live := live[c := (if c in live then live[c] else []) + [bd]];
    }

    /** The check of the copy loop: push only when fewer than four are outstanding. */
    method PushUnlessStalled(c: Channel) returns (pushed: bool)
      requires IsState(Abstract()) && IsChannel(c)
      modifies lastBd, this`live
      ensures pushed <==> |Live(old(Abstract()), c)| < RING
      ensures Abstract() == Step(old(Abstract()), Push(c))
    {
      var outstanding := GetOutstanding(c);
      if outstanding >= 4 {
        return false;
      }
      PushBd(c);
      return true;
    }
  }
}
