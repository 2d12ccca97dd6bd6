/** The bounded drop-oldest bus of app/fanout/event_bus.py and the per-client
    queues of app/api/ws.py, as objects and as values. */
module EventBus {
  import opened SeqFacts

  // ---------------------------------------------------------------------
  // The bus
  // ---------------------------------------------------------------------

  datatype Bus<E> = Bus(buf: seq<E>, capacity: nat, dropped: nat)

  /** `put`: a full deque lets its oldest entry go. */
  function PutInto<E>(b: Bus<E>, e: E): Bus<E> {
    if |b.buf| >= b.capacity && b.buf != [] then Bus(b.buf[1..] + [e], b.capacity, b.dropped + 1)
    else Bus(b.buf + [e], b.capacity, b.dropped)
  }

  class Queue<E> {
    const capacity: nat
    var buf: seq<E>
    var droppedTotal: nat

    function Abs(): Bus<E>
      reads this
    {
      Bus(buf, capacity, droppedTotal)
    }

    constructor (capacity: nat)
      requires capacity > 0
      ensures Abs() == Bus([], capacity, 0)
    {
      this.capacity := capacity;
      buf, droppedTotal := [], 0;
    }

    method Put(e: E)
      requires 0 < capacity && |buf| <= capacity
      modifies this
      ensures Abs() == PutInto(old(Abs()), e) && |buf| <= capacity
    {
      if |buf| >= capacity {
        droppedTotal := droppedTotal + 1;
        buf := buf[1..];
      }
      buf := buf + [e];
    }

    /** One round of `drain`: the whole buffer at once. */
    method TakeBatch() returns (batch: seq<E>)
      modifies this`buf
      ensures batch == old(buf) && buf == []
    {
      batch := buf;
      buf := [];
    }
  }

  /** A stretch of the stream of puts, by position. */
  datatype Stretch = Stretch(from: nat, to: nat)

  /** A bus, everything ever put into it, and the stretches drained. */
  datatype Traced<E> = Traced(bus: Bus<E>, puts: seq<E>, drained: seq<Stretch>, batches: seq<seq<E>>)

  datatype BusOp<E> = Put(e: E) | Drain

  function Operate<E>(t: Traced<E>, op: BusOp<E>): Traced<E> {
    match op
    case Put(e) => t.(bus := PutInto(t.bus, e), puts := t.puts + [e])
    case Drain =>
      if |t.bus.buf| > |t.puts| then t else
      t.(bus := t.bus.(buf := []),
         drained := t.drained + [Stretch(|t.puts| - |t.bus.buf|, |t.puts|)],
         batches := t.batches + [t.bus.buf])
  }

  /** How many puts before position `at` no drained stretch covers. */
  function Skipped(drained: seq<Stretch>, at: nat): int
    decreases |drained|
  {
    if drained == [] then at
    else
      var last := drained[|drained| - 1];
      Skipped(drained[..|drained| - 1], last.from) + (at - last.to)
  }

  /** The stretches follow one another up to position `at`. */
  ghost predicate InOrder(drained: seq<Stretch>, at: nat) {
    && (forall i :: 0 <= i < |drained| ==> drained[i].from <= drained[i].to <= at)
    && (forall i :: 0 < i < |drained| ==> drained[i - 1].to <= drained[i].from)
  }

  /** Every put is delivered, buffered or counted as dropped; the buffer is the
      most recent stretch of the puts, never longer than the capacity, and each
      batch is a stretch of them in order, after all earlier batches. */
  ghost predicate Accounted<E>(t: Traced<E>) {
    var start := |t.puts| - |t.bus.buf|;
    && 0 < t.bus.capacity && |t.bus.buf| <= t.bus.capacity
    && start >= 0 && t.bus.buf == t.puts[start..]
    && |t.batches| == |t.drained| && InOrder(t.drained, start)
    && (forall i :: 0 <= i < |t.drained| ==> t.batches[i] == t.puts[t.drained[i].from..t.drained[i].to])
    && t.bus.dropped == Skipped(t.drained, start)
  }

  lemma PutKeepsAccount<E>(t: Traced<E>, e: E)
    requires Accounted(t)
    ensures Accounted(Operate(t, Put(e)))
  {
    hide Skipped;
    var start := |t.puts| - |t.bus.buf|;
    BufferIsSuffix(t, e);
    BatchesStay(t, e);
    SkippedShifts(t.drained, start);
  }

  lemma BufferIsSuffix<E>(t: Traced<E>, e: E)
    requires |t.bus.buf| <= |t.puts| && t.bus.buf == t.puts[|t.puts| - |t.bus.buf|..]
    ensures
      var r := Operate(t, Put(e));
      |r.bus.buf| <= |r.puts| && r.bus.buf == r.puts[|r.puts| - |r.bus.buf|..]
  {
    var start := |t.puts| - |t.bus.buf|;
    SlicesOfAppended(t.puts, e, start, |t.puts|);
    assert (t.puts + [e])[start + 1..] == (t.bus.buf + [e])[1..];
  }

  lemma BatchesStay<E>(t: Traced<E>, e: E)
    requires Accounted(t)
    ensures forall i :: 0 <= i < |t.drained| ==>
      t.drained[i].from <= t.drained[i].to <= |t.puts|
      && t.batches[i] == (t.puts + [e])[t.drained[i].from..t.drained[i].to]
  {
    forall i | 0 <= i < |t.drained|
      ensures t.batches[i] == (t.puts + [e])[t.drained[i].from..t.drained[i].to]
    {
      SlicesOfAppended(t.puts, e, t.drained[i].from, t.drained[i].to);
    }
  }

  lemma SkippedShifts(drained: seq<Stretch>, at: nat)
    ensures Skipped(drained, at + 1) == Skipped(drained, at) + 1
  {
  }

  lemma DrainKeepsAccount<E>(t: Traced<E>)
    requires Accounted(t)
    ensures Accounted(Operate(t, Drain))
  {
    hide Skipped, InOrder;
    var start := |t.puts| - |t.bus.buf|;
    SkippedOneMore(t.drained, start, |t.puts|);
    OrderOneMore(t.drained, start, |t.puts|);
    WholeSlices(t.puts, start);
  }

  lemma OrderOneMore(drained: seq<Stretch>, from: nat, to: nat)
    requires InOrder(drained, from) && from <= to
    ensures InOrder(drained + [Stretch(from, to)], to)
  {
  }

  lemma WholeSlices<E>(s: seq<E>, k: nat)
    requires k <= |s|
    ensures s[k..|s|] == s[k..] && s[|s|..] == []
  {
  }

  lemma SkippedOneMore(drained: seq<Stretch>, from: nat, to: nat)
    ensures Skipped(drained + [Stretch(from, to)], to) == Skipped(drained, from)
  {
    assert (drained + [Stretch(from, to)])[..|drained|] == drained;
  }

  function OperateAll<E>(t: Traced<E>, ops: seq<BusOp<E>>): Traced<E>
    decreases |ops|
  {
    if ops == [] then t else OperateAll(Operate(t, ops[0]), ops[1..])
  }

  /** The account balances over every sequence of puts and drains. */
  lemma {:induction false} AccountAlwaysBalances<E>(t: Traced<E>, ops: seq<BusOp<E>>)
    requires Accounted(t)
    ensures Accounted(OperateAll(t, ops))
    decreases |ops|
  {
    if ops != [] {
      match ops[0] {
        case Put(e) => PutKeepsAccount(t, e);
        case Drain => DrainKeepsAccount(t);
      }
      AccountAlwaysBalances(Operate(t, ops[0]), ops[1..]);
    }
  }

  /** How many of some puts find the buffer full, if `held` entries are in it. */
  function Overflows<E>(held: nat, capacity: nat, ops: seq<BusOp<E>>): nat
    decreases |ops|
  {
    if ops == [] then 0
    else if ops[0].Drain? then Overflows(0, capacity, ops[1..])
    else if held == capacity then 1 + Overflows(capacity, capacity, ops[1..])
    else Overflows(held + 1, capacity, ops[1..])
  }

  /** A put drops an entry, the oldest, if and only if the buffer holds as many as
      it may. */
  lemma DropsExactlyWhenFull<E>(b: Bus<E>, e: E)
    requires 0 < b.capacity && |b.buf| <= b.capacity
    ensures
      var r := PutInto(b, e);
      && (r.dropped == b.dropped + 1 <==> |b.buf| == b.capacity)
      && (r.dropped == b.dropped <==> |b.buf| < b.capacity)
      && r.buf == (if |b.buf| == b.capacity then b.buf[1..] else b.buf) + [e]
  {
  }

  /** Over every sequence of puts and drains, the drop count grows by exactly the
      puts that find the buffer full. */
  lemma {:induction false} DroppedIsOverflow<E>(t: Traced<E>, ops: seq<BusOp<E>>)
    requires Accounted(t)
    ensures OperateAll(t, ops).bus.dropped == t.bus.dropped + Overflows(|t.bus.buf|, t.bus.capacity, ops)
    decreases |ops|
  {
    hide Accounted;
    if ops != [] {
      AccountAlwaysBalances(t, [ops[0]]);
      assert OperateAll(t, [ops[0]]) == Operate(t, ops[0]) by { assert [ops[0]][1..] == []; }
      AccountedSize(t);
      if ops[0].Put? {
        DropsExactlyWhenFull(t.bus, ops[0].e);
      }
      DroppedIsOverflow(Operate(t, ops[0]), ops[1..]);
    }
  }

  lemma AccountedSize<E>(t: Traced<E>)
    requires Accounted(t)
    ensures 0 < t.bus.capacity && |t.bus.buf| <= t.bus.capacity && |t.bus.buf| <= |t.puts|
  {
  }

  // ---------------------------------------------------------------------
  // Clients
  // ---------------------------------------------------------------------

  const CLIENT_CAPACITY := 256

  datatype Inbox<E> = Inbox(queue: seq<E>, overflowed: bool)

  /** `put_nowait` on one subscriber: a full queue marks it, and a marked one
      gets nothing more. */
  function Offered<E>(b: Inbox<E>, e: E): Inbox<E> {
    if b.overflowed then b
    else if |b.queue| < CLIENT_CAPACITY then b.(queue := b.queue + [e])
    else b.(overflowed := true)
  }

  class Subscriber<E> {
    var queue: seq<E>
    var overflowed: bool

    function Abs(): Inbox<E>
      reads this
    {
      Inbox(queue, overflowed)
    }

    constructor ()
      ensures Abs() == Inbox([], false)
    {
      queue, overflowed := [], false;
    }

    method Offer(e: E)
      modifies this
      ensures Abs() == Offered(old(Abs()), e)
    {
      if overflowed {
        return;
      }
      if |queue| < CLIENT_CAPACITY {
        queue := queue + [e];
      } else {
        overflowed := true;
      }
    }
  }

  /** One event to every subscriber of a registry snapshot. */
  method BroadcastEvent<E>(e: E, subs: set<Subscriber<E>>)
    modifies subs
    ensures forall s :: s in subs ==> s.Abs() == Offered(old(s.Abs()), e)
  {
    var todo := subs;
    while todo != {}
      invariant todo <= subs
      invariant forall s :: s in todo ==> s.Abs() == old(s.Abs())
      invariant forall s :: s in subs - todo ==> s.Abs() == Offered(old(s.Abs()), e)
      decreases todo
    {
      var s :| s in todo;
      s.Offer(e);
      todo := todo - {s};
    }
  }

  /** What a batch offers one subscriber, given who was registered at each event. */
  function OfferedWhere<E>(b: Inbox<E>, batch: seq<E>, snapshots: seq<set<Subscriber<E>>>, s: Subscriber<E>): Inbox<E>
    requires |snapshots| == |batch|
    decreases |batch|
  {
    if batch == [] then b
    else OfferedWhere(if s in snapshots[0] then Offered(b, batch[0]) else b, batch[1..], snapshots[1..], s)
  }

  /** A drained batch, each event to the subscribers of the snapshot taken for it:
      every one that is ever registered is offered, in order, exactly the events
      sent while it was. */
  method BroadcastBatch<E>(batch: seq<E>, snapshots: seq<set<Subscriber<E>>>, everyone: set<Subscriber<E>>)
    requires |snapshots| == |batch| && forall i :: 0 <= i < |snapshots| ==> snapshots[i] <= everyone
    modifies everyone
    ensures forall s :: s in everyone ==> s.Abs() == OfferedWhere(old(s.Abs()), batch, snapshots, s)
  {
    var i := 0;
    while i < |batch|
      invariant 0 <= i <= |batch|
      invariant forall s :: s in everyone ==>
        OfferedWhere(old(s.Abs()), batch, snapshots, s) == OfferedWhere(s.Abs(), batch[i..], snapshots[i..], s)
    {
      ghost var rest, later := batch[i..], snapshots[i..];
      assert rest[0] == batch[i] && rest[1..] == batch[i + 1..];
      assert later[0] == snapshots[i] && later[1..] == snapshots[i + 1..];
      BroadcastEvent(batch[i], snapshots[i]);
      i := i + 1;
    }
  }

  /** The events of a batch that are sent while `s` is registered. */
  function SentTo<E>(batch: seq<E>, snapshots: seq<set<Subscriber<E>>>, s: Subscriber<E>): seq<E>
    requires |snapshots| == |batch|
    decreases |batch|
  {
    if batch == [] then []
    else (if s in snapshots[0] then [batch[0]] else []) + SentTo(batch[1..], snapshots[1..], s)
  }

  lemma FrontOfMore<E>(e: E, later: seq<E>, n: nat)
    requires n <= |later|
    ensures [e] + later[..n] == ([e] + later)[..n + 1]
  {
  }

  /** What a batch leaves a client that has not overflowed: of the events sent while
      it was registered, as many, from the first on, as the 256 places of its queue
      have room for. It overflows if and only if that is not all. */
  lemma {:induction false} BatchFillsQueue<E>(b: Inbox<E>, batch: seq<E>, snapshots: seq<set<Subscriber<E>>>,
                                              s: Subscriber<E>)
    requires |snapshots| == |batch| && !b.overflowed && |b.queue| <= 256
    ensures
      var r, sent := OfferedWhere(b, batch, snapshots, s), SentTo(batch, snapshots, s);
      && (r.overflowed <==> |b.queue| + |sent| > 256)
      && r.queue == b.queue + (if |b.queue| + |sent| > 256 then sent[..256 - |b.queue|] else sent)
    decreases |batch|
  {
    if batch != [] {
      var later := SentTo(batch[1..], snapshots[1..], s);
      var next := if s in snapshots[0] then Offered(b, batch[0]) else b;
      assert SentTo(batch, snapshots, s) == (if s in snapshots[0] then [batch[0]] else []) + later;
      assert OfferedWhere(b, batch, snapshots, s) == OfferedWhere(next, batch[1..], snapshots[1..], s);
      hide SentTo, OfferedWhere;
      if next.overflowed {
        OverflowedTakesNothing(next, batch[1..], snapshots[1..], s);
        assert b.queue + ([batch[0]] + later)[..0] == b.queue;
      } else {
        BatchFillsQueue(next, batch[1..], snapshots[1..], s);
        if s in snapshots[0] {
          OneMoreSent(b.queue, batch[0], later);
        } else {
          assert [] + later == later;
        }
      }
    }
  }

  /** A queue with room for one event, and then for as many of the later ones. */
  lemma OneMoreSent<E>(queue: seq<E>, e: E, later: seq<E>)
    requires |queue| < 256
    ensures
      var sent, room := [e] + later, 256 - |queue|;
      queue + [e] + (if |queue| + 1 + |later| > 256 then later[..room - 1] else later)
        == queue + (if |queue| + |sent| > 256 then sent[..room] else sent)
  {
    if |queue| + 1 + |later| > 256 {
      FrontOfMore(e, later, 255 - |queue|);
    }
  }

  /** A client that has overflowed is offered nothing more. */
  lemma {:induction false} OverflowedTakesNothing<E>(b: Inbox<E>, batch: seq<E>, snapshots: seq<set<Subscriber<E>>>,
                                                     s: Subscriber<E>)
    requires |snapshots| == |batch| && b.overflowed
    ensures OfferedWhere(b, batch, snapshots, s) == b
    decreases |batch|
  {
    if batch != [] {
      OverflowedTakesNothing(b, batch[1..], snapshots[1..], s);
    }
  }
}
