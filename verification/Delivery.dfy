/** Event delivery from the supervisor to a browser: the bus, the broadcaster,
    the clients' queues and the reducer that rebuilds the run state
    (app/fanout/supervisor.py, app/api/ws.py, web/src/lib/wsReducer.ts). */
module Delivery {
  import opened Options
  import opened RunStates
  import opened EventBus
  import opened SeqFacts

  // ---------------------------------------------------------------------
  // The reducer
  // ---------------------------------------------------------------------

  datatype TargetView = TargetView(targetId: string, uiState: string, snapshots: seq<string>)

  datatype View = View(runState: RunState, changedAt: int, targets: seq<TargetView>, droppedTotal: nat)

  datatype Event =
    | RunChanged(next: RunState, at: int)
    | TargetSnapshot(view: TargetView)
    | DropAlert(total: nat)
    | HostStats

  /** `patchTargetSnapshots`: replaces the entry of that target, or appends it. */
  function PatchTargets(list: seq<TargetView>, next: TargetView): seq<TargetView> {
    if exists i :: 0 <= i < |list| && list[i].targetId == next.targetId
    then seq(|list|, i requires 0 <= i < |list| => if list[i].targetId == next.targetId then next else list[i])
    else list + [next]
  }

  /** `applyWsEventToCache` on an event; without a cache nothing happens. */
  function Reduce(prev: Option<View>, e: Event): Option<View> {
    match prev
    case None => None
    case Some(v) =>
      match e
      case RunChanged(next, at) => Some(v.(runState := next, changedAt := at))
      case TargetSnapshot(t) => Some(v.(targets := PatchTargets(v.targets, t)))
      case DropAlert(n) => Some(v.(droppedTotal := n))
      case HostStats => Some(v)
  }

  ghost predicate UniqueIds(list: seq<TargetView>) {
    forall i, j :: 0 <= i < j < |list| ==> list[i].targetId != list[j].targetId
  }

  /** A patched list has one entry per target, the new one for its target, the
      old one for every other, in the old order. */
  lemma PatchIsPointwise(list: seq<TargetView>, next: TargetView)
    requires UniqueIds(list)
    ensures
      var out := PatchTargets(list, next);
      && UniqueIds(out) && next in out
      && (forall t :: t in out <==> t == next || (t in list && t.targetId != next.targetId))
      && |list| <= |out| && (forall i :: 0 <= i < |list| ==> out[i].targetId == list[i].targetId)
  {
    var out := PatchTargets(list, next);
    if i :| 0 <= i < |list| && list[i].targetId == next.targetId {
      assert out[i] == next;
      forall t | t in list && t.targetId != next.targetId ensures t in out {
        var j :| 0 <= j < |list| && list[j] == t;
        assert out[j] == t;
      }
    } else {
      assert out[|list|] == next;
      forall t | t in list ensures t in out {
        var j :| 0 <= j < |list| && list[j] == t;
        assert out[j] == t;
      }
    }
  }

  /** The events of a stream applied one after the other. */
  function ReduceAll(v: View, events: seq<Event>): View
    decreases |events|
  {
    if events == [] then v
    else
      var n := |events| - 1;
      Reduce(Some(ReduceAll(v, events[..n])), events[n]).value
  }

  /** The last snapshot some events bring of a target. */
  function LastSnapshot(events: seq<Event>, id: string): Option<TargetView>
    decreases |events|
  {
    if events == [] then None
    else
      var n := |events| - 1;
      if events[n].TargetSnapshot? && events[n].view.targetId == id then Some(events[n].view)
      else LastSnapshot(events[..n], id)
  }

  /** The last drop count some events bring, or `total` if they bring none. */
  function LastDrops(total: nat, events: seq<Event>): nat
    decreases |events|
  {
    if events == [] then total
    else
      var n := |events| - 1;
      if events[n].DropAlert? then events[n].total else LastDrops(total, events[..n])
  }

  /** When the last change of the run state some events bring was, or `at`. */
  function LastChange(at: int, events: seq<Event>): int
    decreases |events|
  {
    if events == [] then at
    else
      var n := |events| - 1;
      if events[n].RunChanged? then events[n].at else LastChange(at, events[..n])
  }

  /** The targets of a cache after some events: for each target its last snapshot,
      or what the cache had if there is none; the old targets keep their places. */
  ghost predicate ShowsSnapshots(had: seq<TargetView>, events: seq<Event>, shown: seq<TargetView>) {
    && UniqueIds(shown)
    && (forall t :: t in shown <==>
          LastSnapshot(events, t.targetId) == Some(t) || (t in had && LastSnapshot(events, t.targetId).None?))
    && |had| <= |shown| && (forall i :: 0 <= i < |had| ==> shown[i].targetId == had[i].targetId)
  }

  /** What a cache shows after any events: the last drop count among them, when the
      run state last changed, and of each target the last snapshot. */
  lemma {:induction false} CacheShowsLast(v: View, events: seq<Event>)
    requires UniqueIds(v.targets)
    ensures ReduceAll(v, events).droppedTotal == LastDrops(v.droppedTotal, events)
    ensures ReduceAll(v, events).changedAt == LastChange(v.changedAt, events)
    ensures ShowsSnapshots(v.targets, events, ReduceAll(v, events).targets)
    decreases |events|
  {
    if events != [] {
      var n := |events| - 1;
      CacheShowsLast(v, events[..n]);
      SnapshotShown(v.targets, events, ReduceAll(v, events[..n]).targets);
    }
  }

  lemma SnapshotShown(had: seq<TargetView>, events: seq<Event>, shown: seq<TargetView>)
    requires events != [] && ShowsSnapshots(had, events[..|events| - 1], shown)
    ensures
      var e := events[|events| - 1];
      ShowsSnapshots(had, events, if e.TargetSnapshot? then PatchTargets(shown, e.view) else shown)
  {
    hide UniqueIds, PatchTargets;
    var e := events[|events| - 1];
    if e.TargetSnapshot? {
      PatchIsPointwise(shown, e.view);
      LastSnapshotIsOf(events[..|events| - 1]);
    }
  }

  lemma {:induction false} LastSnapshotIsOf(events: seq<Event>)
    ensures forall id :: LastSnapshot(events, id).Some? ==> LastSnapshot(events, id).value.targetId == id
    decreases |events|
  {
    if events != [] {
      LastSnapshotIsOf(events[..|events| - 1]);
    }
  }

  // ---------------------------------------------------------------------
  // The system
  // ---------------------------------------------------------------------

  /** A connected client: its inbox, the state.full that has reached it, its cache
      from then on, what it has taken from its queue, and how many events had been
      broadcast when it registered. `waiting` says that its forward loop has passed the test
      for an overflow and is at `queue.get`, and `late` counts the events taken
      after an overflow. */
  datatype Client = Client(
    inbox: Inbox<Event>, full: Option<View>, cache: Option<View>, taken: seq<Event>, since: nat,
    waiting: bool, late: nat)

  /** `inflight` is the rest of the batch the broadcaster is going through;
      `puts` and `broadcast` are histories. */
  datatype System = System(
    run: RunState,
    bus: Bus<Event>,
    inflight: seq<Event>,
    puts: seq<Event>,
    broadcast: seq<Event>,
    clients: map<nat, Client>)

  const BUS_CAPACITY := 10000

  const START := System(OFFLINE, Bus([], BUS_CAPACITY, 0), [], [], [], map[])

  datatype Step =
    | ChangeRun(action: RunAction, at: int)      // a transition, published at once
    | Publish(event: Event)                      // any other event
    | TakeBatch                                  // the broadcaster drains the bus
    | Broadcast                                  // one event to every client
    | Register(id: nat)
    | SendFull(id: nat, at: int, targets: seq<TargetView>)
    | Poll(id: nat)                              // the forward loop tests for an overflow
    | Forward(id: nat)                           // and then takes one event
    | Leave(id: nat)

  predicate Enabled(s: System, step: Step) {
    match step
    case ChangeRun(a, _) => Transition(s.run, a).Some?
    case Publish(e) => !e.RunChanged?
    case TakeBatch => s.inflight == [] && s.bus.buf != []
    case Broadcast => s.inflight != []
    case Register(id) => id !in s.clients
    case SendFull(id, _, _) => id in s.clients && s.clients[id].cache.None?
    case Poll(id) => id in s.clients && s.clients[id].cache.Some? && !s.clients[id].waiting
    case Forward(id) => id in s.clients && s.clients[id].waiting && s.clients[id].inbox.queue != []
    case Leave(id) => id in s.clients
  }

  function PutEvent(s: System, e: Event): System {
    s.(bus := PutInto(s.bus, e), puts := s.puts + [e])
  }

  /** A client that has taken the first event of its queue. */
  function Forwarded(c: Client): Client
    requires c.inbox.queue != []
  {
    var e := c.inbox.queue[0];
    c.(inbox := c.inbox.(queue := c.inbox.queue[1..]), cache := Reduce(c.cache, e), taken := c.taken + [e],
       waiting := false, late := c.late + if c.inbox.overflowed then 1 else 0)
  }

  /** A client that state.full has reached. */
  function Seeded(c: Client, v: View): Client { c.(full := Some(v), cache := Some(v)) }

  function Do(s: System, step: Step): System
    requires Enabled(s, step)
  {
    match step
    case ChangeRun(a, at) =>
      var next := Transition(s.run, a).value;
      PutEvent(s.(run := next), RunChanged(next, at))
    case Publish(e) => PutEvent(s, e)
    case TakeBatch => s.(inflight := s.bus.buf, bus := s.bus.(buf := []))
    case Broadcast =>
      var e := s.inflight[0];
      s.(inflight := s.inflight[1..], broadcast := s.broadcast + [e],
         clients := map id | id in s.clients :: s.clients[id].(inbox := Offered(s.clients[id].inbox, e)))
    case Register(id) =>
      s.(clients := s.clients[id := Client(Inbox([], false), None, None, [], |s.broadcast|, false, 0)])
    case SendFull(id, at, targets) =>
      s.(clients := s.clients[id := Seeded(s.clients[id], View(s.run, at, targets, s.bus.dropped))])
    case Poll(id) =>
      if s.clients[id].inbox.overflowed then s.(clients := s.clients - {id})
      else s.(clients := s.clients[id := s.clients[id].(waiting := true)])
    case Forward(id) => s.(clients := s.clients[id := Forwarded(s.clients[id])])
    case Leave(id) => s.(clients := s.clients - {id})
  }

  // ---------------------------------------------------------------------
  // What every step keeps
  // ---------------------------------------------------------------------

  /** The run state a client ends with once it has applied some events. */
  function LastRun(r: RunState, events: seq<Event>): RunState
    decreases |events|
  {
    if events == [] then r
    else LastRun(if events[0].RunChanged? then events[0].next else r, events[1..])
  }

  lemma {:induction false} LastRunConcat(r: RunState, a: seq<Event>, b: seq<Event>)
    ensures LastRun(r, a + b) == LastRun(LastRun(r, a), b)
    decreases |a|
  {
    if a == [] {
      assert a + b == b;
    } else {
      assert (a + b)[1..] == a[1..] + b;
      LastRunConcat(if a[0].RunChanged? then a[0].next else r, a[1..], b);
    }
  }

  /** What has been published and has not reached client `c`. */
  function Pending(s: System, c: Client): seq<Event> {
    c.inbox.queue + (s.inflight + s.bus.buf)
  }

  /** With nothing dropped, the stages hold the published events in order. */
  ghost predicate NothingLost(s: System) {
    s.bus.dropped == 0 ==> s.broadcast + (s.inflight + s.bus.buf) == s.puts
  }

  /** What a client took and still has queued is one gap-free stretch of the
      broadcast events, from its registration on, up to date unless it
      overflowed, and at most 256 of them are queued. After an overflow it takes
      at most the one event it was already waiting for. */
  ghost predicate ClientOk(s: System, c: Client) {
    && c.since <= |s.broadcast| && |c.inbox.queue| <= CLIENT_CAPACITY
    && c.taken + c.inbox.queue <= s.broadcast[c.since..]
    && (!c.inbox.overflowed ==> c.taken + c.inbox.queue == s.broadcast[c.since..])
    && (c.cache.None? ==> c.taken == [] && !c.waiting)
    && c.late + (if c.waiting && c.inbox.overflowed then 1 else 0) <= (if c.inbox.overflowed then 1 else 0)
    && c.cache == (if c.full.Some? then Some(ReduceAll(c.full.value, c.taken)) else None)
    && (c.cache.Some? ==> UniqueIds(c.full.value.targets) && UniqueIds(c.cache.value.targets))
  }

  /** Applying what is pending would bring the cache to the supervisor's state. */
  ghost predicate OnCourse(s: System, c: Client) {
    s.bus.dropped == 0 && !c.inbox.overflowed && c.cache.Some? ==>
      LastRun(c.cache.value.runState, Pending(s, c)) == s.run
  }

  /** However late one starts reading, the last published run state is current. */
  ghost predicate PutsEndAtRun(s: System) {
    forall i :: 0 <= i <= |s.puts| ==> LastRun(s.run, s.puts[i..]) == s.run
  }

  ghost predicate Inv(s: System) {
    && s.bus.capacity == BUS_CAPACITY && |s.bus.buf| <= BUS_CAPACITY
    && NothingLost(s) && PutsEndAtRun(s)
    && forall id :: id in s.clients ==> ClientOk(s, s.clients[id]) && OnCourse(s, s.clients[id])
  }

  lemma PutKeeps(s: System, run: RunState, e: Event)
    requires Inv(s) && (if e.RunChanged? then e.next == run else run == s.run)
    ensures Inv(PutEvent(s.(run := run), e))
  {
    var r := PutEvent(s.(run := run), e);
    forall i | 0 <= i <= |r.puts| ensures LastRun(r.run, r.puts[i..]) == r.run {
      if i < |r.puts| {
        assert r.puts[i..] == s.puts[i..] + [e];
        LastRunConcat(r.run, s.puts[i..], [e]);
        if !e.RunChanged? {
          assert LastRun(s.run, s.puts[i..]) == s.run;
        }
      }
    }
    if r.bus.dropped == 0 {
      assert r.broadcast + (r.inflight + r.bus.buf) == s.broadcast + (s.inflight + s.bus.buf) + [e];
    }
    forall id | id in r.clients ensures ClientOk(r, r.clients[id]) && OnCourse(r, r.clients[id]) {
      var c := s.clients[id];
      if r.bus.dropped == 0 && !c.inbox.overflowed && c.cache.Some? {
        assert Pending(r, c) == Pending(s, c) + [e];
        LastRunConcat(c.cache.value.runState, Pending(s, c), [e]);
      }
    }
  }

  lemma TakeBatchKeeps(s: System)
    requires Inv(s) && Enabled(s, TakeBatch)
    ensures Inv(Do(s, TakeBatch))
  {
    var r := Do(s, TakeBatch);
    assert s.inflight + s.bus.buf == r.inflight + r.bus.buf;
    forall id | id in r.clients ensures ClientOk(r, r.clients[id]) && OnCourse(r, r.clients[id]) {
      assert Pending(r, r.clients[id]) == Pending(s, s.clients[id]);
    }
  }

  lemma OfferKeeps(s: System, r: System, c: Client, e: Event)
    requires ClientOk(s, c) && OnCourse(s, c) && s.inflight != [] && s.inflight[0] == e
    requires r.broadcast == s.broadcast + [e] && r.inflight == s.inflight[1..] && r.bus == s.bus && r.run == s.run
    ensures ClientOk(r, c.(inbox := Offered(c.inbox, e))) && OnCourse(r, c.(inbox := Offered(c.inbox, e)))
  {
    var c' := c.(inbox := Offered(c.inbox, e));
    assert r.broadcast[c.since..] == s.broadcast[c.since..] + [e];
    if !c'.inbox.overflowed {
      assert c'.taken + c'.inbox.queue == c.taken + c.inbox.queue + [e];
      assert Pending(r, c') == Pending(s, c);
    }
  }

  lemma BroadcastKeeps(s: System)
    requires Inv(s) && Enabled(s, Broadcast)
    ensures Inv(Do(s, Broadcast))
  {
    var r := Do(s, Broadcast);
    assert r.broadcast + (r.inflight + r.bus.buf) == s.broadcast + (s.inflight + s.bus.buf);
    forall id | id in r.clients ensures ClientOk(r, r.clients[id]) && OnCourse(r, r.clients[id]) {
      OfferKeeps(s, r, s.clients[id], s.inflight[0]);
    }
  }

  /** `state.full` reaches the client: whatever is still queued for it or under
      way may be older, but ends at the state it was built from. */
  lemma FullIsOnCourse(s: System, c: Client, v: View)
    requires NothingLost(s) && PutsEndAtRun(s) && ClientOk(s, c) && c.cache.None?
    requires v.runState == s.run && UniqueIds(v.targets)
    ensures ClientOk(s, Seeded(c, v)) && OnCourse(s, Seeded(c, v))
  {
    if s.bus.dropped == 0 && !c.inbox.overflowed {
      hide UniqueIds;
      assert c.taken == [] && c.taken + c.inbox.queue == c.inbox.queue;
      ConcatSlices(s.broadcast, s.inflight + s.bus.buf, c.since);
      assert LastRun(s.run, s.puts[c.since..]) == s.run;
    }
  }

  lemma ForwardKeeps(s: System, c: Client)
    requires ClientOk(s, c) && OnCourse(s, c) && c.waiting && c.inbox.queue != []
    ensures ClientOk(s, Forwarded(c)) && OnCourse(s, Forwarded(c))
  {
    var e := c.inbox.queue[0];
    var c' := Forwarded(c);
    assert c'.taken + c'.inbox.queue == c.taken + c.inbox.queue;
    assert c'.taken[..|c'.taken| - 1] == c.taken;
    assert Pending(s, c)[0] == e && Pending(s, c)[1..] == Pending(s, c');
    if e.TargetSnapshot? {
      PatchIsPointwise(c.cache.value.targets, e.view);
    }
  }

  lemma PollKeeps(s: System, c: Client)
    requires ClientOk(s, c) && OnCourse(s, c) && c.cache.Some? && !c.waiting && !c.inbox.overflowed
    ensures ClientOk(s, c.(waiting := true)) && OnCourse(s, c.(waiting := true))
  {
    assert Pending(s, c.(waiting := true)) == Pending(s, c);
  }

  /** state.full is built from a dictionary: one entry per target. */
  ghost predicate Sensible(step: Step) {
    step.SendFull? ==> UniqueIds(step.targets)
  }

  lemma StepKeepsInv(s: System, step: Step)
    requires Inv(s) && Enabled(s, step) && Sensible(step)
    ensures Inv(Do(s, step))
  {
    hide ClientOk, OnCourse, PutsEndAtRun, NothingLost;
    match step {
      case ChangeRun(a, at) =>
        var next := Transition(s.run, a).value;
        PutKeeps(s, next, RunChanged(next, at));
      case Publish(e) => PutKeeps(s, s.run, e);
      case TakeBatch => TakeBatchKeeps(s);
      case Broadcast => BroadcastKeeps(s);
      case Register(id) => RegisterKeeps(s, id);
      case SendFull(id, at, targets) => SendFullKeeps(s, id, at, targets);
      case Poll(id) => PollKeepsInv(s, id);
      case Forward(id) =>
        ForwardKeeps(s, s.clients[id]);
        ClientsKeep(s, s.clients[id := Forwarded(s.clients[id])]);
      case Leave(id) => ClientsKeep(s, s.clients - {id});
    }
  }

  /** The invariant speaks of each client on its own. */
  lemma ClientsKeep(s: System, clients: map<nat, Client>)
    requires Inv(s) && forall id :: id in clients ==> ClientOk(s, clients[id]) && OnCourse(s, clients[id])
    ensures Inv(s.(clients := clients))
  {
    hide LastRun, UniqueIds;
    forall id | id in clients
      ensures ClientOk(s.(clients := clients), clients[id]) && OnCourse(s.(clients := clients), clients[id])
    {
      assert Pending(s.(clients := clients), clients[id]) == Pending(s, clients[id]);
    }
  }

  lemma RegisterKeeps(s: System, id: nat)
    requires Inv(s) && Enabled(s, Register(id))
    ensures Inv(Do(s, Register(id)))
  {
    assert s.broadcast[|s.broadcast|..] == [];
    ClientsKeep(s, s.clients[id := Client(Inbox([], false), None, None, [], |s.broadcast|, false, 0)]);
  }

  /** state.full shows the supervisor and the bus as they are when it is sent. */
  lemma SendFullKeeps(s: System, id: nat, at: int, targets: seq<TargetView>)
    requires Inv(s) && Enabled(s, SendFull(id, at, targets)) && UniqueIds(targets)
    ensures Inv(Do(s, SendFull(id, at, targets)))
    ensures Do(s, SendFull(id, at, targets)).clients[id].full == Some(View(s.run, at, targets, s.bus.dropped))
  {
    hide ClientOk, OnCourse, UniqueIds;
    var v := View(s.run, at, targets, s.bus.dropped);
    FullIsOnCourse(s, s.clients[id], v);
    ClientsKeep(s, s.clients[id := Seeded(s.clients[id], v)]);
  }

  lemma PollKeepsInv(s: System, id: nat)
    requires Inv(s) && Enabled(s, Poll(id))
    ensures Inv(Do(s, Poll(id)))
  {
    hide ClientOk, OnCourse;
    if s.clients[id].inbox.overflowed {
      ClientsKeep(s, s.clients - {id});
    } else {
      PollKeeps(s, s.clients[id]);
      ClientsKeep(s, s.clients[id := s.clients[id].(waiting := true)]);
    }
  }

  ghost function RunSteps(steps: seq<Step>): Option<System>
    decreases |steps|
  {
    if steps == [] then Some(START)
    else
      var n := |steps| - 1;
      match RunSteps(steps[..n])
      case None => None
      case Some(s) => if Enabled(s, steps[n]) && Sensible(steps[n]) then Some(Do(s, steps[n])) else None
  }

  lemma {:induction false} RunKeepsInv(steps: seq<Step>)
    ensures RunSteps(steps).Some? ==> Inv(RunSteps(steps).value)
    decreases |steps|
  {
    if steps != [] {
      RunKeepsInv(steps[..|steps| - 1]);
      var before := RunSteps(steps[..|steps| - 1]);
      if RunSteps(steps).Some? {
        StepKeepsInv(before.value, steps[|steps| - 1]);
      }
    }
  }

  /** Convergence, over every interleaving: with nothing dropped by the bus, a
      client that did not overflow and has taken all that was published shows
      the supervisor's run state, although events older than its state.full were
      applied after it; its targets stay unique in any case. */
  lemma ClientConverges(steps: seq<Step>, id: nat)
    requires RunSteps(steps).Some? && id in RunSteps(steps).value.clients
    ensures
      var s := RunSteps(steps).value;
      var c := s.clients[id];
      c.cache.Some? ==>
        && UniqueIds(c.cache.value.targets)
        && (s.bus.dropped == 0 && !c.inbox.overflowed && Pending(s, c) == [] ==> c.cache.value.runState == s.run)
  {
    RunKeepsInv(steps);
  }

  /** What a client received, over every interleaving and whatever the bus
      dropped: one gap-free stretch of the broadcast events from its
      registration on, complete unless it overflowed; after an overflow it takes at
      most one more. */
  lemma ClientSeesOneStretch(steps: seq<Step>, id: nat)
    requires RunSteps(steps).Some? && id in RunSteps(steps).value.clients
    ensures
      var s := RunSteps(steps).value;
      var c := s.clients[id];
      && c.since <= |s.broadcast| && |c.inbox.queue| <= CLIENT_CAPACITY
      && c.taken + c.inbox.queue <= s.broadcast[c.since..]
      && (!c.inbox.overflowed ==> c.taken + c.inbox.queue == s.broadcast[c.since..])
      && |s.bus.buf| <= s.bus.capacity == 10_000
      && c.late <= (if c.inbox.overflowed then 1 else 0)
  {
    RunKeepsInv(steps);
  }

  /** What a client's cache shows, over every interleaving: of its state.full and
      the events it has taken since it registered, the last drop count, the time of
      the last change of the run state, and of each target the last snapshot. */
  lemma ClientShowsLast(steps: seq<Step>, id: nat)
    requires RunSteps(steps).Some? && id in RunSteps(steps).value.clients
    ensures
      var c := RunSteps(steps).value.clients[id];
      && (c.cache.Some? <==> c.full.Some?)
      && (c.cache.Some? ==>
            && c.cache.value.droppedTotal == LastDrops(c.full.value.droppedTotal, c.taken)
            && c.cache.value.changedAt == LastChange(c.full.value.changedAt, c.taken)
            && ShowsSnapshots(c.full.value.targets, c.taken, c.cache.value.targets))
  {
    RunKeepsInv(steps);
    var c := RunSteps(steps).value.clients[id];
    if c.full.Some? {
      CacheShowsLast(c.full.value, c.taken);
    }
  }
}
