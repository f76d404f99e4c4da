/** The request handler, the streams and the monitor together: when the monitor has nothing left
    to do, its composite state says whether anything is going on. */
module IdleTracking {
  import opened Wrappers
  import Monitor
  import Scheduler = RequestScheduler
  import Pool = StreamPool

  /** `shown` is history: whether the last thing a stream told its present monitor was ACTIVE. */
  datatype System = System(mon: Monitor.State, handler: Scheduler.State, streams: seq<Pool.Stream>, shown: seq<bool>)

  /** After the handler got its monitor, id 0. */
  function Start(errorCb: bool): System {
    System(Monitor.INITIAL.(states := map[0 := Monitor.IDLE], next := 1, updated := true),
           Scheduler.Initial(errorCb, 0), [], [])
  }

  /** `Called` is a call of a stream; when it ends a configuration the monitor answers with its
      next id. `Monitored` is the worker's pass, or a caller raising the monitor's flag. */
  datatype Event =
    | Created(valid: bool, usage: int, bufferCount: nat)
    | Called(i: nat, call: Pool.Call) | Handled(event: Scheduler.Event) | Passed | Flagged

  function Ask(m: Monitor.State, op: Pool.MonitorOp): Monitor.State {
    match op
    case Acquire(_) => Monitor.Step(m, Monitor.Acquired)
    case Release(id) => Monitor.Step(m, Monitor.Released(id))
    case Post(id, state) => Monitor.Step(m, Monitor.Posted(Monitor.Transition(id, state)))
  }

  function AskAll(m: Monitor.State, ops: seq<Pool.MonitorOp>): Monitor.State
    decreases |ops|
  {
    if ops == [] then m else AskAll(Ask(m, ops[0]), ops[1..])
  }

  function PostAll(m: Monitor.State, posts: seq<Monitor.Transition>): Monitor.State {
    m.(queue := m.queue + posts)
  }

  function Answered(m: Monitor.State, c: Pool.Call): Pool.Call {
    if c.ConfigureEnded? then Pool.ConfigureEnded(m.next) else c
  }

  /** What the last thing told to the present monitor is after some operations. */
  function ShownAfter(shown: bool, ops: seq<Pool.MonitorOp>): bool {
    if ops == [] then shown
    else
      match ops[|ops| - 1]
      case Acquire(_) => false
      case Release(_) => false
      case Post(id, state) => id != Pool.INVALID_ID && state == Monitor.ACTIVE
  }

  function Step(y: System, e: Event): System {
    match e
    case Created(valid, usage, bufferCount) =>
      y.(streams := y.streams + [Pool.NewStream(valid, usage, bufferCount)], shown := y.shown + [false])
    case Called(i, call) =>
      if i >= |y.streams| || i >= |y.shown| then y
      else
        var o := Pool.Step(y.streams[i], Answered(y.mon, call));
        y.(streams := y.streams[i := o.s], shown := y.shown[i := ShownAfter(y.shown[i], o.ops)],
           mon := AskAll(y.mon, o.ops))
    case Handled(event) =>
      y.(handler := Scheduler.Step(y.handler, event), mon := PostAll(y.mon, Scheduler.Posts(y.handler, event)))
    case Passed => y.(mon := Monitor.Step(y.mon, Monitor.Passed))
    case Flagged => y.(mon := Monitor.Step(y.mon, Monitor.Flagged))
  }

  function Run(y: System, events: seq<Event>): System {
    if events == [] then y else Step(Run(y, events[..|events| - 1]), events[|events| - 1])
  }

  /** Every call of a stream respects what its pool asks for. */
  predicate FairEvent(y: System, e: Event) {
    e.Called? && e.i < |y.streams| ==> Pool.Fair(y.streams[e.i], e.call)
  }

  predicate FairRun(y: System, events: seq<Event>) {
    forall k :: 0 <= k < |events| ==> FairEvent(Run(y, events[..k]), events[k])
  }

  /** A calm call begins no reconfiguration with buffers out, and aborts none. */
  predicate CalmCall(s: Pool.Stream, c: Pool.Call) {
    && Pool.Fair(s, c)
    && (c.ConfigureBegun? && s.status.CONFIGURED? ==> s.pending == 0)
    && (c.ConfigureAborted? ==> !s.status.RECONFIG_ACTIVE?)
  }

  predicate Calm(y: System, e: Event) {
    e.Called? && e.i < |y.streams| ==> CalmCall(y.streams[e.i], e.call)
  }

  predicate CalmRun(y: System, events: seq<Event>) {
    forall k :: 0 <= k < |events| ==> Calm(Run(y, events[..k]), events[k])
  }

  // ----- folding transitions

  lemma {:induction false} FoldAdd(states: map<int, Monitor.Activity>, q: seq<Monitor.Transition>, id: int,
      a: Monitor.Activity)
    requires forall k :: 0 <= k < |q| ==> q[k].id != id
    ensures Monitor.ApplyAll(states[id := a], q) == Monitor.ApplyAll(states, q)[id := a]
  {
    if q != [] {
      FoldAdd(states, q[..|q| - 1], id, a);
      var before, tr := Monitor.ApplyAll(states, q[..|q| - 1]), q[|q| - 1];
      assert tr.id in before[id := a] <==> tr.id in before;
      assert Monitor.Apply(before[id := a], tr) == Monitor.Apply(before, tr)[id := a];
    }
  }

  lemma {:induction false} FoldRemove(states: map<int, Monitor.Activity>, q: seq<Monitor.Transition>, id: int)
    ensures Monitor.ApplyAll(states - {id}, q) == Monitor.ApplyAll(states, q) - {id}
  {
    if q != [] {
      FoldRemove(states, q[..|q| - 1], id);
      var before, tr := Monitor.ApplyAll(states, q[..|q| - 1]), q[|q| - 1];
      assert Monitor.Apply(before - {id}, tr) == Monitor.Apply(before, tr) - {id};
    }
  }

  // ----- the components and what the monitor knows of them

  /** A component of the system: its monitor, and whether it is active. */
  datatype Component = Component(id: int, active: bool)

  /** A stream, by what it told its monitor. */
  function OfStream(s: Pool.Stream, shown: bool): Component {
    Component(s.monitorId, shown)
  }

  function Components(y: System): (r: seq<Component>)
    requires |y.shown| == |y.streams|
    ensures |r| == |y.streams| + 1
  {
    [Component(y.handler.monitorId, !y.handler.paused)]
    + seq(|y.streams|, i requires 0 <= i < |y.streams| => OfStream(y.streams[i], y.shown[i]))
  }

  /** The states once every queued transition is folded. */
  function Folded(m: Monitor.State): map<int, Monitor.Activity> {
    Monitor.ApplyAll(m.states, m.queue)
  }

  function Activity(active: bool): Monitor.Activity {
    if active then Monitor.ACTIVE else Monitor.IDLE
  }

  /** Component by component the folded states are right, and they are of the components only. */
  ghost predicate Matches(states: map<int, Monitor.Activity>, cs: seq<Component>) {
    && (forall k :: 0 <= k < |cs| && cs[k].id == Pool.INVALID_ID ==> !cs[k].active)
    && (forall k :: 0 <= k < |cs| && cs[k].id != Pool.INVALID_ID ==>
          cs[k].id in states && states[cs[k].id] == Activity(cs[k].active))
    && (forall j, k :: 0 <= j < k < |cs| && cs[j].id == cs[k].id ==> cs[j].id == Pool.INVALID_ID)
    && Pool.INVALID_ID !in states
    && (forall id :: id in states ==> exists k :: 0 <= k < |cs| && cs[k].id == id)
  }

  lemma MatchesPost(states: map<int, Monitor.Activity>, cs: seq<Component>, k: nat, active: bool)
    requires Matches(states, cs) && k < |cs| && cs[k].id != Pool.INVALID_ID
    ensures Matches(Monitor.Apply(states, Monitor.Transition(cs[k].id, Activity(active))),
            cs[k := Component(cs[k].id, active)])
  {
    var cs' := cs[k := Component(cs[k].id, active)];
    forall id | id in states ensures exists j :: 0 <= j < |cs'| && cs'[j].id == id {
      var j :| 0 <= j < |cs| && cs[j].id == id;
      assert cs'[j].id == id;
    }
  }

  lemma MatchesRelease(states: map<int, Monitor.Activity>, cs: seq<Component>, k: nat)
    requires Matches(states, cs) && k < |cs| && cs[k].id != Pool.INVALID_ID
    ensures Matches(states - {cs[k].id}, cs[k := Component(Pool.INVALID_ID, false)])
  {
    var cs' := cs[k := Component(Pool.INVALID_ID, false)];
    forall id | id in states && id != cs[k].id ensures exists j :: 0 <= j < |cs'| && cs'[j].id == id {
      var j :| 0 <= j < |cs| && cs[j].id == id;
      assert cs'[j].id == id;
    }
  }

  lemma MatchesAcquire(states: map<int, Monitor.Activity>, cs: seq<Component>, k: nat, id: int)
    requires Matches(states, cs) && k < |cs| && cs[k].id == Pool.INVALID_ID != id && id !in states
    ensures Matches(states[id := Monitor.IDLE], cs[k := Component(id, false)])
  {
    var cs' := cs[k := Component(id, false)];
    assert cs'[k].id == id;
    forall i | i in states && i != id ensures exists j :: 0 <= j < |cs'| && cs'[j].id == i {
      var j :| 0 <= j < |cs| && cs[j].id == i;
      assert j != k;
      assert cs'[j].id == i;
    }
  }

  lemma MatchesSaysActive(states: map<int, Monitor.Activity>, cs: seq<Component>)
    requires Matches(states, cs)
    ensures Monitor.Composite(states) == Monitor.ACTIVE <==> exists k :: 0 <= k < |cs| && cs[k].active
  {
    if k :| 0 <= k < |cs| && cs[k].active {
      assert cs[k].id in states;
    }
    if id :| id in states && states[id] == Monitor.ACTIVE {
      var k :| 0 <= k < |cs| && cs[k].id == id;
      assert cs[k].active;
    }
  }

  // ----- one call of a stream

  /** A stream being configured has no monitor; one that showed itself ACTIVE has buffers out. */
  predicate Monitored(s: Pool.Stream, shown: bool) {
    && s.monitorId >= Pool.INVALID_ID
    && (s.status.CONFIG_ACTIVE? || s.status.RECONFIG_ACTIVE? ==> s.monitorId == Pool.INVALID_ID)
    && (shown ==> s.monitorId != Pool.INVALID_ID && s.pending > 0)
  }

  /** What a call does to the component, with what it asks of the monitor. */
  predicate Told(s: Pool.Stream, shown: bool, o: Pool.Outcome, next: nat) {
    var before, after := OfStream(s, shown), OfStream(o.s, ShownAfter(shown, o.ops));
    || (o.ops == [] && after == before)
    || (before.id != Pool.INVALID_ID && after.id == before.id
       && o.ops == [Pool.Post(before.id, Activity(after.active))])
    || (before.id == Pool.INVALID_ID && after == before && BlindPost(o.ops))
    || (before.id != Pool.INVALID_ID && after == Component(Pool.INVALID_ID, false)
       && o.ops == [Pool.Release(before.id)])
    || (before.id == Pool.INVALID_ID && after == Component(next, false) && o.ops == [Pool.Acquire(next)])
  }

  /** Something told to no monitor. */
  predicate BlindPost(ops: seq<Pool.MonitorOp>) {
    |ops| == 1 && ops[0].Post? && ops[0].id == Pool.INVALID_ID
  }

  lemma EndTold(s: Pool.Stream, shown: bool, next: nat)
    requires Pool.PoolOk(s) && Monitored(s, shown)
    ensures var o := Pool.EndConfigure(s, next); Told(s, shown, o, next) && Monitored(o.s, ShownAfter(shown, o.ops))
  {
    hide Pool.PoolOk, Pool.ConfigureLocked;
    EarlyIsIdle(s);
    ConfigureKeepsCount(s.(monitorId := next));
  }

  lemma ConfigureKeepsCount(s: Pool.Stream)
    requires s.status.CONFIG_ACTIVE? ==> s.pending == 0
    ensures var o := Pool.ConfigureLocked(s);
            o.s.monitorId == s.monitorId && o.s.pending == s.pending && (o.code.OK? ==> s.pending == 0)
  {
  }

  lemma EarlyIsIdle(s: Pool.Stream)
    requires Pool.PoolOk(s)
    ensures s.status.INITIALIZED? || s.status.CONFIG_ACTIVE? ==> s.pending == 0
  {
  }

  lemma ConfigureTold(s: Pool.Stream, shown: bool, c: Pool.Call, next: nat)
    requires Pool.PoolOk(s) && Monitored(s, shown)
    requires c.ConfigureBegun? || c.ConfigureAborted? || c.Closed? || c.TornDown?
    ensures var o := Pool.Step(s, c); Told(s, shown, o, next) && Monitored(o.s, ShownAfter(shown, o.ops))
  {
    assert s.status.INITIALIZED? || s.status.CONFIG_ACTIVE? ==> s.pending == 0;
    hide Pool.PoolOk;
  }

  lemma TakenTold(s: Pool.Stream, shown: bool, c: Pool.Call, next: nat)
    requires Pool.PoolOk(s) && Monitored(s, shown) && (c.BufferTaken? || c.WaiterWoken?)
    ensures var o := Pool.Step(s, c); Told(s, shown, o, next) && Monitored(o.s, ShownAfter(shown, o.ops))
  {
    ParkedIsConfigured(s);
    hide Pool.PoolOk, Pool.GetBufferLocked;
    if c.BufferTaken? { LockedTold(s, c.frame, c.pick, c.alloc); }
    if c.WaiterWoken? && s.parked > 0 { LockedTold(s.(parked := s.parked - 1), c.frame, c.pick, c.alloc); }
  }

  lemma ParkedIsConfigured(s: Pool.Stream)
    requires Pool.PoolOk(s)
    ensures s.parked > 0 ==> s.status.CONFIGURED? || s.status.PREPARE_ACTIVE?
  {
  }

  lemma LockedTold(s: Pool.Stream, frame: int, pick: int, alloc: Option<int>)
    ensures var o := Pool.GetBufferLocked(s, frame, pick, alloc);
            && o.s.monitorId == s.monitorId && o.s.status == s.status
            && (if o.code.OK? then o.s.pending == s.pending + 1 else o.s.pending == s.pending)
            && o.ops == if o.code.OK? && s.pending == 0 && !s.status.CONFIG_ACTIVE? && !s.status.RECONFIG_ACTIVE?
                        then [Pool.Post(s.monitorId, Monitor.ACTIVE)] else []
  {
    hide Pool.ChooseBuffer, Wrap32;
    Pool.ChooseKeeps(s, true, pick, alloc);
  }

  lemma ReturnTold(s: Pool.Stream, shown: bool, c: Pool.Call, next: nat)
    requires Monitored(s, shown) && (c.BufferReturned? || c.Unsubmitted?)
    ensures var o := Pool.Step(s, c); Told(s, shown, o, next) && Monitored(o.s, ShownAfter(shown, o.ops))
  {
    hide Pool.Without, Wrap32;
  }

  lemma OtherTold(s: Pool.Stream, shown: bool, c: Pool.Call, next: nat)
    requires Monitored(s, shown)
    requires c.PrepareBegun? || c.BufferPrepared? || c.PrepareEnded? || c.WaiterTimedOut? || c.HandedToClient?
    ensures var o := Pool.Step(s, c); Told(s, shown, o, next) && Monitored(o.s, ShownAfter(shown, o.ops))
  {
    hide Pool.HasFree, Wrap32;
  }

  /** Whatever a call does to a stream, its present monitor knows whether it was last told ACTIVE. */
  lemma CallTold(s: Pool.Stream, shown: bool, c: Pool.Call, m: Monitor.State)
    requires Pool.PoolOk(s) && Monitored(s, shown) && Pool.Fair(s, c)
    ensures var o := Pool.Step(s, Answered(m, c));
            Told(s, shown, o, m.next) && Monitored(o.s, ShownAfter(shown, o.ops)) && Pool.PoolOk(o.s)
  {
    var d := Answered(m, c);
    Pool.StepPoolOk(s, d);
    assert Pool.Step(s, Pool.ConfigureEnded(m.next)) == Pool.EndConfigure(s, m.next);
    hide Pool.PoolOk, Pool.Step, Told, Monitored;
    match d
    case BufferTaken(_, _, _) => TakenTold(s, shown, d, m.next);
    case WaiterWoken(_, _, _) => TakenTold(s, shown, d, m.next);
    case BufferReturned(_) => ReturnTold(s, shown, d, m.next);
    case Unsubmitted(_) => ReturnTold(s, shown, d, m.next);
    case ConfigureBegun => ConfigureTold(s, shown, d, m.next);
    case ConfigureEnded(_) => EndTold(s, shown, m.next);
    case ConfigureAborted => ConfigureTold(s, shown, d, m.next);
    case Closed => ConfigureTold(s, shown, d, m.next);
    case TornDown => ConfigureTold(s, shown, d, m.next);
    case _ => OtherTold(s, shown, d, m.next);
  }

  /** Every event of the handler, too. */
  lemma HandlerTold(s: Scheduler.State, e: Scheduler.Event)
    ensures var t, posts := Scheduler.Step(s, e), Scheduler.Posts(s, e);
            && t.monitorId == s.monitorId
            && (posts == [] ==> t.paused == s.paused)
            && (posts == [] || posts == [Monitor.Transition(s.monitorId, Activity(!t.paused))])
  {
    Scheduler.FlushKeeps(s);
    hide Scheduler.FlushAll, Scheduler.Tagged, Wrap32;
  }

  // ----- runs

  /** Monitor ids are handed out in order, and the queue names none that was not. */
  ghost predicate IdsUsed(m: Monitor.State) {
    && (forall id :: id in m.states ==> 0 <= id < m.next)
    && (forall k :: 0 <= k < |m.queue| ==> m.queue[k].id < m.next)
    && (m.composite == Monitor.Composite(m.states) || m.updated || m.unflagged > 0)
  }

  ghost predicate StreamsOk(streams: seq<Pool.Stream>, shown: seq<bool>) {
    && |shown| == |streams|
    && forall i :: 0 <= i < |streams| ==> Pool.PoolOk(streams[i]) && Monitored(streams[i], shown[i])
  }

  ghost predicate Tracked(y: System) {
    && IdsUsed(y.mon)
    && StreamsOk(y.streams, y.shown)
    && Matches(Folded(y.mon), Components(y))
    && y.handler.monitorId != Pool.INVALID_ID
  }

  lemma PostFolds(m: Monitor.State, tr: Monitor.Transition)
    requires IdsUsed(m) && tr.id < m.next
    ensures var m' := m.(queue := m.queue + [tr]); IdsUsed(m') && Folded(m') == Monitor.Apply(Folded(m), tr)
  {
    Monitor.FoldSnoc(m.states, m.queue, tr);
  }

  lemma ReleaseFolds(m: Monitor.State, id: int)
    requires IdsUsed(m) && id in m.states
    ensures var m' := Monitor.Step(m, Monitor.Released(id)); IdsUsed(m') && Folded(m') == Folded(m) - {id}
  {
    FoldRemove(m.states, m.queue, id);
  }

  lemma AcquireFolds(m: Monitor.State)
    requires IdsUsed(m)
    ensures var m' := Monitor.Step(m, Monitor.Acquired); IdsUsed(m') && Folded(m') == Folded(m)[m.next := Monitor.IDLE]
  {
    FoldAdd(m.states, m.queue, m.next, Monitor.IDLE);
  }

  lemma PassFolds(m: Monitor.State)
    requires IdsUsed(m)
    ensures var m' := Monitor.Step(m, Monitor.Passed); IdsUsed(m') && Folded(m') == Folded(m)
  {
    Monitor.ApplyAllKeys(m.states, m.queue);
    Monitor.DrainIsCurrent(m);
  }

  /** Folding changes no key, so the folded states are those of known ids. */
  lemma FoldedIds(m: Monitor.State)
    requires IdsUsed(m)
    ensures forall id :: id in Folded(m) ==> id in m.states && 0 <= id < m.next
  {
    Monitor.ApplyAllKeys(m.states, m.queue);
  }

  lemma StreamComponent(y: System, i: nat, s: Pool.Stream, shown: bool, m: Monitor.State)
    requires i < |y.streams| == |y.shown|
    ensures Components(y.(streams := y.streams[i := s], shown := y.shown[i := shown], mon := m))
            == Components(y)[i + 1 := OfStream(s, shown)]
    ensures Components(y)[i + 1] == OfStream(y.streams[i], y.shown[i])
  {
  }

  lemma CalledTracked(y: System, i: nat, c: Pool.Call)
    requires Tracked(y) && i < |y.streams| && Pool.Fair(y.streams[i], c)
    ensures Tracked(Step(y, Called(i, c)))
  {
    var s := y.streams[i];
    CallTold(s, y.shown[i], c, y.mon);
    var o := Pool.Step(s, Answered(y.mon, c));
    hide Pool.Step, Told, Monitored, Pool.PoolOk, Matches, IdsUsed, Components, ShownAfter;
    ToldTracked(y, i, o);
  }

  lemma ToldTracked(y: System, i: nat, o: Pool.Outcome)
    requires Tracked(y) && i < |y.streams| && Told(y.streams[i], y.shown[i], o, y.mon.next)
    requires Pool.PoolOk(o.s) && Monitored(o.s, ShownAfter(y.shown[i], o.ops))
    ensures Tracked(y.(streams := y.streams[i := o.s], shown := y.shown[i := ShownAfter(y.shown[i], o.ops)],
                       mon := AskAll(y.mon, o.ops)))
  {
    var cs, shown := Components(y), ShownAfter(y.shown[i], o.ops);
    StreamComponent(y, i, o.s, shown, AskAll(y.mon, o.ops));
    FoldedIds(y.mon);
    hide Components, Pool.PoolOk, Monitored, Monitor.Step, ShownAfter;
    if o.ops == [] {
      assert cs[i + 1 := OfStream(o.s, shown)] == cs;
    } else {
      assert o.ops[1..] == [];
      assert AskAll(y.mon, o.ops) == Ask(y.mon, o.ops[0]);
      MonitorTold(y.mon, cs, i + 1, OfStream(o.s, shown), o.ops[0]);
    }
  }

  lemma MonitorTold(m: Monitor.State, cs: seq<Component>, k: nat, after: Component, op: Pool.MonitorOp)
    requires IdsUsed(m) && Matches(Folded(m), cs) && k < |cs|
    requires || (cs[k].id != Pool.INVALID_ID && after.id == cs[k].id
             && op == Pool.Post(after.id, Activity(after.active)))
             || (cs[k].id == Pool.INVALID_ID && after == cs[k] && op.Post? && op.id == Pool.INVALID_ID)
             || (cs[k].id != Pool.INVALID_ID && after == Component(Pool.INVALID_ID, false)
                && op == Pool.Release(cs[k].id))
             || (cs[k].id == Pool.INVALID_ID && after == Component(m.next, false) && op == Pool.Acquire(m.next))
    ensures IdsUsed(Ask(m, op)) && Matches(Folded(Ask(m, op)), cs[k := after])
  {
    FoldedIds(m);
    assert cs[k].id != Pool.INVALID_ID ==> cs[k].id in Folded(m);
    assert Pool.INVALID_ID !in Folded(m);
    match op {
      case Post(id, state) =>
        PostFolds(m, Monitor.Transition(id, state));
        if id != Pool.INVALID_ID {
          MatchesPost(Folded(m), cs, k, after.active);
        } else {
          assert cs[k := cs[k]] == cs;
        }
      case Release(id) =>
        ReleaseFolds(m, id);
        MatchesRelease(Folded(m), cs, k);
      case Acquire(id) =>
        AcquireFolds(m);
        MatchesAcquire(Folded(m), cs, k, id);
    }
    hide Matches, IdsUsed, Folded;
  }

  lemma HandlerComponent(y: System, e: Scheduler.Event)
    requires |y.shown| == |y.streams|
    ensures var t := Scheduler.Step(y.handler, e);
            Components(Step(y, Handled(e))) == Components(y)[0 := Component(t.monitorId, !t.paused)]
    ensures Components(y)[0] == Component(y.handler.monitorId, !y.handler.paused)
  {
    hide Scheduler.Step, Scheduler.Posts;
  }

  lemma HandledTracked(y: System, e: Scheduler.Event)
    requires Tracked(y)
    ensures Tracked(Step(y, Handled(e)))
  {
    hide Components, Scheduler.Step, Scheduler.Posts, Matches, IdsUsed, Folded, Monitored, Pool.PoolOk;
    HandlerTold(y.handler, e);
    HandlerComponent(y, e);
    var cs, t, posts := Components(y), Scheduler.Step(y.handler, e), Scheduler.Posts(y.handler, e);
    if posts == [] {
      assert cs[0 := cs[0]] == cs;
      assert y.mon.queue + [] == y.mon.queue;
    } else {
      MonitorTold(y.mon, cs, 0, Component(t.monitorId, !t.paused), Pool.Post(t.monitorId, Activity(!t.paused)));
    }
  }

  lemma NewStreamOk(valid: bool, usage: int, bufferCount: nat)
    ensures var s := Pool.NewStream(valid, usage, bufferCount);
            Pool.PoolOk(s) && Monitored(s, false) && OfStream(s, false) == Component(Pool.INVALID_ID, false)
  {
    assert Pool.Busy(map[]) == {};
  }

  lemma CreatedComponent(y: System, valid: bool, usage: int, bufferCount: nat)
    requires |y.shown| == |y.streams|
    ensures Components(Step(y, Created(valid, usage, bufferCount)))
            == Components(y) + [OfStream(Pool.NewStream(valid, usage, bufferCount), false)]
  {
    hide Pool.NewStream;
  }

  lemma CreatedTracked(y: System, valid: bool, usage: int, bufferCount: nat)
    requires Tracked(y)
    ensures Tracked(Step(y, Created(valid, usage, bufferCount)))
  {
    hide Components, Pool.PoolOk, Monitored, Pool.NewStream, Matches, IdsUsed, Folded, OfStream;
    NewStreamOk(valid, usage, bufferCount);
    CreatedComponent(y, valid, usage, bufferCount);
    MatchesNew(Folded(y.mon), Components(y));
  }

  lemma MatchesNew(states: map<int, Monitor.Activity>, cs: seq<Component>)
    requires Matches(states, cs)
    ensures Matches(states, cs + [Component(Pool.INVALID_ID, false)])
  {
    var cs' := cs + [Component(Pool.INVALID_ID, false)];
    forall id | id in states ensures exists j :: 0 <= j < |cs'| && cs'[j].id == id {
      var j :| 0 <= j < |cs| && cs[j].id == id;
      assert cs'[j].id == id;
    }
  }

  lemma StepTracked(y: System, e: Event)
    requires Tracked(y) && FairEvent(y, e)
    ensures Tracked(Step(y, e))
  {
    match e
    case Created(valid, usage, bufferCount) => CreatedTracked(y, valid, usage, bufferCount);
    case Called(i, call) => if i < |y.streams| { CalledTracked(y, i, call); }
    case Handled(event) => HandledTracked(y, event);
    case Passed =>
      PassFolds(y.mon);
      assert Components(Step(y, e)) == Components(y);
    case Flagged => assert Components(Step(y, e)) == Components(y);
  }

  lemma {:induction false} RunTracked(errorCb: bool, events: seq<Event>)
    requires FairRun(Start(errorCb), events)
    ensures Tracked(Run(Start(errorCb), events))
  {
    var y := Start(errorCb);
    if events == [] {
      assert Components(y) == [Component(0, false)];
      assert Components(y)[0].id == 0;
    } else {
      var init := events[..|events| - 1];
      forall k | 0 <= k < |init| ensures FairEvent(Run(y, init[..k]), init[k]) { assert init[..k] == events[..k]; }
      hide FairEvent, Tracked;
      RunTracked(errorCb, init);
      StepTracked(Run(y, init), events[|events| - 1]);
    }
  }

  /** The monitor has nothing left to do. */
  predicate Quiet(m: Monitor.State) {
    m.queue == [] && !m.updated && m.unflagged == 0
  }

  predicate SomethingGoesOn(y: System) {
    !y.handler.paused || SomePending(y.streams)
  }

  predicate SomePending(streams: seq<Pool.Stream>) {
    exists i :: 0 <= i < |streams| && streams[i].pending > 0
  }

  /** Some stream with buffers out told its present monitor ACTIVE. */
  predicate SomeShown(y: System) {
    exists i :: 0 <= i < |y.streams| && i < |y.shown| && y.shown[i] && y.streams[i].pending > 0
  }

  /** Over every fair run, whatever is reconfigured or aborted: a monitor with nothing left to do
      says ACTIVE exactly when the handler is not paused or some stream with buffers out told its
      present monitor ACTIVE. So ACTIVE is never wrong, and IDLE is wrong exactly when the handler
      is paused, buffers are out, and no stream with buffers out told its present monitor. */
  lemma IdleExactly(errorCb: bool, events: seq<Event>)
    requires FairRun(Start(errorCb), events)
    ensures var y := Run(Start(errorCb), events);
            Quiet(y.mon) ==>
              && (y.mon.composite == Monitor.ACTIVE <==> !y.handler.paused || SomeShown(y))
              && (y.mon.composite == Monitor.ACTIVE ==> SomethingGoesOn(y))
              && (y.mon.composite == Monitor.IDLE && SomethingGoesOn(y) <==>
                    y.handler.paused && SomePending(y.streams) && !SomeShown(y))
  {
    RunTracked(errorCb, events);
    var y := Run(Start(errorCb), events);
    hide Run, FairRun;
    if Quiet(y.mon) { QuietSays(y); }
  }

  lemma QuietSays(y: System)
    requires Tracked(y) && Quiet(y.mon)
    ensures y.mon.composite == Monitor.ACTIVE <==> !y.handler.paused || SomeShown(y)
    ensures SomeShown(y) ==> SomePending(y.streams)
  {
    hide Pool.PoolOk;
    var cs := Components(y);
    assert Folded(y.mon) == y.mon.states;
    MatchesSaysActive(y.mon.states, cs);
    hide Matches, Folded;
    if k :| 0 <= k < |cs| && cs[k].active {
      assert k > 0 ==> y.shown[k - 1] && Monitored(y.streams[k - 1], y.shown[k - 1]);
    }
    if i :| 0 <= i < |y.streams| && i < |y.shown| && y.shown[i] && y.streams[i].pending > 0 {
      assert cs[i + 1].active;
    }
    assert cs[0].active <==> !y.handler.paused;
  }

  // ----- which calls hide a stream

  /** A stream has buffers out that its present monitor was not told of. */
  predicate Hidden(s: Pool.Stream, shown: bool) { s.pending > 0 && !shown }

  /** A configured stream without a monitor. */
  predicate Orphaned(s: Pool.Stream) {
    (s.status.CONFIGURED? || s.status.PREPARE_ACTIVE?) && s.monitorId == Pool.INVALID_ID
  }

  /** A call hides a stream exactly when it begins a reconfiguration with buffers out, or gives out
      the first buffer of a stream without a monitor. */
  lemma HidesExactly(s: Pool.Stream, shown: bool, c: Pool.Call, m: Monitor.State)
    requires Pool.PoolOk(s) && Monitored(s, shown) && Pool.Fair(s, c) && !Hidden(s, shown)
    ensures var o := Pool.Step(s, Answered(m, c));
            Hidden(o.s, ShownAfter(shown, o.ops)) <==>
              || (c.ConfigureBegun? && s.status.CONFIGURED? && s.pending > 0)
              || ((c.BufferTaken? || c.WaiterWoken?) && o.code.OK? && Orphaned(s))
  {
    assert s.status.INITIALIZED? ==> s.pending == 0;
    assert Pool.Step(s, Pool.ConfigureEnded(m.next)) == Pool.EndConfigure(s, m.next);
    hide Pool.PoolOk, Pool.Step, Hidden, Orphaned;
    if c.BufferTaken? || c.WaiterWoken? {
      TakenHides(s, shown, c);
    } else if c.ConfigureEnded? {
      EndHidesNothing(s, shown, m.next);
    } else {
      OthersHide(s, shown, c);
    }
  }

  lemma TakenHides(s: Pool.Stream, shown: bool, c: Pool.Call)
    requires Pool.PoolOk(s) && Monitored(s, shown) && !Hidden(s, shown) && (c.BufferTaken? || c.WaiterWoken?)
    ensures var o := Pool.Step(s, c); Hidden(o.s, ShownAfter(shown, o.ops)) <==> o.code.OK? && Orphaned(s)
  {
    ParkedIsConfigured(s);
    hide Pool.PoolOk, Pool.GetBufferLocked;
    if c.BufferTaken? { LockedTold(s, c.frame, c.pick, c.alloc); }
    if c.WaiterWoken? && s.parked > 0 { LockedTold(s.(parked := s.parked - 1), c.frame, c.pick, c.alloc); }
  }

  lemma OthersHide(s: Pool.Stream, shown: bool, c: Pool.Call)
    requires Monitored(s, shown) && !Hidden(s, shown) && (s.status.INITIALIZED? ==> s.pending == 0)
    requires !c.BufferTaken? && !c.WaiterWoken? && !c.ConfigureEnded?
    ensures var o := Pool.Step(s, c);
            Hidden(o.s, ShownAfter(shown, o.ops)) <==> c.ConfigureBegun? && s.status.CONFIGURED? && s.pending > 0
  {
    hide Pool.PrepareBuffer, Pool.Without, Wrap32;
    if c.BufferPrepared? { PrepareHidesNothing(s, c.alloc); }
  }

  lemma EndHidesNothing(s: Pool.Stream, shown: bool, next: nat)
    requires Monitored(s, shown) && !Hidden(s, shown)
    ensures var o := Pool.EndConfigure(s, next); !Hidden(o.s, ShownAfter(shown, o.ops))
  {
  }

  lemma PrepareHidesNothing(s: Pool.Stream, alloc: Option<int>)
    ensures var o := Pool.PrepareBuffer(s, alloc);
            && o.s.pending == s.pending && o.ops == [] && o.s.monitorId == s.monitorId
            && (o.s.status == s.status || (s.status.PREPARE_ACTIVE? && o.s.status.CONFIGURED?))
  {
    hide Pool.ChooseBuffer;
    Pool.ChooseKeeps(s, false, Pool.NULL_HANDLE, alloc);
  }

  /** A call leaves a stream configured without a monitor exactly when it aborts a reconfiguration. */
  lemma OrphansExactly(s: Pool.Stream, shown: bool, c: Pool.Call, m: Monitor.State)
    requires Pool.PoolOk(s) && Monitored(s, shown) && Pool.Fair(s, c) && !Orphaned(s)
    ensures Orphaned(Pool.Step(s, Answered(m, c)).s) <==> c.ConfigureAborted? && s.status.RECONFIG_ACTIVE?
  {
    ParkedIsConfigured(s);
    hide Pool.PoolOk, Pool.GetBufferLocked, Pool.EndConfigure, Pool.PrepareBuffer, Pool.Without, Wrap32;
    if c.BufferTaken? { LockedTold(s, c.frame, c.pick, c.alloc); }
    if c.WaiterWoken? && s.parked > 0 { LockedTold(s.(parked := s.parked - 1), c.frame, c.pick, c.alloc); }
    if c.ConfigureEnded? { EndOrphansNothing(s, m.next); }
    if c.BufferPrepared? { PrepareHidesNothing(s, c.alloc); }
  }

  lemma EndOrphansNothing(s: Pool.Stream, next: nat)
    requires !Orphaned(s)
    ensures !Orphaned(Pool.EndConfigure(s, next).s)
  {
  }

  // ----- calm runs

  /** Every stream with buffers out is shown, and none is configured without a monitor. */
  predicate AllSeen(y: System) {
    && |y.shown| == |y.streams|
    && forall i :: 0 <= i < |y.streams| ==> !Hidden(y.streams[i], y.shown[i]) && !Orphaned(y.streams[i])
  }

  lemma CalmSeen(y: System, e: Event)
    requires Tracked(y) && AllSeen(y) && Calm(y, e)
    ensures AllSeen(Step(y, e))
  {
    hide Matches, Components, IdsUsed, Monitored, Pool.PoolOk, Scheduler.Step, Monitor.Step;
    if e.Called? && e.i < |y.streams| {
      var s, shown := y.streams[e.i], y.shown[e.i];
      HidesExactly(s, shown, e.call, y.mon);
      OrphansExactly(s, shown, e.call, y.mon);
      hide Pool.Step, ShownAfter;
    }
  }

  lemma {:induction false} CalmRunSeen(errorCb: bool, events: seq<Event>)
    requires CalmRun(Start(errorCb), events)
    ensures FairRun(Start(errorCb), events)
    ensures AllSeen(Run(Start(errorCb), events))
  {
    var y := Start(errorCb);
    if events != [] {
      var init := events[..|events| - 1];
      forall k | 0 <= k < |init| ensures Calm(Run(y, init[..k]), init[k]) { assert init[..k] == events[..k]; }
      forall k | 0 <= k < |events| ensures FairEvent(Run(y, events[..k]), events[k]) {
        assert Calm(Run(y, events[..k]), events[k]);
      }
      forall k | 0 <= k < |init| ensures FairEvent(Run(y, init[..k]), init[k]) { assert init[..k] == events[..k]; }
      hide FairEvent, Calm, Tracked, AllSeen;
      CalmRunSeen(errorCb, init);
      RunTracked(errorCb, init);
      CalmSeen(Run(y, init), events[|events| - 1]);
    }
  }

  /** Over every run in which no stream is reconfigured with buffers out and none is aborted: a
      monitor with nothing left to do says ACTIVE exactly when the handler is not paused or some
      stream has a buffer out. */
  lemma IdleSound(errorCb: bool, events: seq<Event>)
    requires CalmRun(Start(errorCb), events)
    ensures var y := Run(Start(errorCb), events);
            Quiet(y.mon) ==> (y.mon.composite == Monitor.ACTIVE <==> SomethingGoesOn(y))
  {
    CalmRunSeen(errorCb, events);
    var y := Run(Start(errorCb), events);
    IdleExactly(errorCb, events);
    hide Run;
    if i :| 0 <= i < |y.streams| && y.streams[i].pending > 0 {
      assert !Hidden(y.streams[i], y.shown[i]);
    }
  }

  // ----- runs that are not calm

  lemma RunSnoc(y: System, events: seq<Event>, e: Event)
    ensures Run(y, events + [e]) == Step(Run(y, events), e)
  {
    assert (events + [e])[..|events|] == events;
  }

  /** A stream whose reconfiguration was aborted goes unseen: it has a buffer out and the monitor,
      with nothing left to do, says IDLE. */
  lemma AbortedStreamGoesUnseen(errorCb: bool)
    ensures var y := Run(Start(errorCb), ABORTED_RUN);
            Quiet(y.mon) && y.mon.composite == Monitor.IDLE && |y.streams| == 1 && y.streams[0].pending == 1
  {
    var y0, taken := Start(errorCb), Called(0, Pool.BufferTaken(0, 0, Some(7)));
    Configured(errorCb);
    var y5 := Run(y0, CONFIGURE_ABORTED);
    RunSnoc(y0, CONFIGURE_ABORTED, taken);
    RunSnoc(y0, CONFIGURE_ABORTED + [taken], Flagged);
    RunSnoc(y0, CONFIGURE_ABORTED + [taken] + [Flagged], Flagged);
    RunSnoc(y0, CONFIGURE_ABORTED + [taken] + [Flagged] + [Flagged], Passed);
    assert ABORTED_RUN == CONFIGURE_ABORTED + [taken] + [Flagged] + [Flagged] + [Passed];
    hide Run, Start;
    TakenUnseen(y5, taken);
  }

  lemma TakenUnseen(y: System, taken: Event)
    requires taken == Called(0, Pool.BufferTaken(0, 0, Some(7))) && |y.streams| == |y.shown| == 1
    requires y.streams[0].status.CONFIGURED? && y.streams[0].monitorId == -1 && y.streams[0].pending == 0
    requires y.streams[0].buffers == map[] && y.streams[0].hw == 0 && y.streams[0].total == 1 == |y.streams[0].slots|
    requires y.mon == Monitor.INITIAL.(states := map[0 := Monitor.IDLE], next := 2, updated := true, unflagged := 2)
    ensures var y' := Step(Step(Step(Step(y, taken), Flagged), Flagged), Passed);
            Quiet(y'.mon) && y'.mon.composite == Monitor.IDLE && |y'.streams| == 1 && y'.streams[0].pending == 1
  {
    AskOne(y.mon, Pool.Post(-1, Monitor.ACTIVE));
    assert Pool.Step(y.streams[0], taken.call).ops == [Pool.Post(-1, Monitor.ACTIVE)];
    assert Step(y, taken).streams[0].pending == 1;
    hide Pool.Step;
    UnknownIgnored(Step(y, taken).mon);
  }

  lemma UnknownIgnored(m: Monitor.State)
    requires m.queue == [Monitor.Transition(-1, Monitor.ACTIVE)] && m.states == map[0 := Monitor.IDLE]
    requires m.composite == Monitor.IDLE && m.unflagged == 2
    ensures var m' := Monitor.Step(Monitor.Step(Monitor.Step(m, Monitor.Flagged), Monitor.Flagged), Monitor.Passed);
            Quiet(m') && m'.composite == Monitor.IDLE
  {
    assert Monitor.ApplyAll(m.states, m.queue[..0]) == m.states;
    assert Monitor.Trace(m.states, m.queue) == [Monitor.IDLE];
  }

  lemma AskOne(m: Monitor.State, op: Pool.MonitorOp)
    ensures AskAll(m, [op]) == Ask(m, op)
  {
    assert [op][1..] == [];
  }

  const CONFIGURE_ABORTED: seq<Event> :=
    [Created(true, 0, 1), Called(0, Pool.ConfigureBegun), Called(0, Pool.ConfigureEnded(1)),
     Called(0, Pool.ConfigureBegun), Called(0, Pool.ConfigureAborted)]

  const ABORTED_RUN: seq<Event> :=
    CONFIGURE_ABORTED + [Called(0, Pool.BufferTaken(0, 0, Some(7))), Flagged, Flagged, Passed]

  lemma Configured(errorCb: bool)
    ensures var y := Run(Start(errorCb), CONFIGURE_ABORTED);
            && |y.streams| == |y.shown| == 1 && y.streams[0].status.CONFIGURED? && y.streams[0].monitorId == -1
            && y.streams[0].buffers == map[] && y.streams[0].hw == 0 && y.streams[0].total == 1 == |y.streams[0].slots|
            && y.streams[0].pending == 0
            && y.mon == Monitor.INITIAL.(states := map[0 := Monitor.IDLE], next := 2, updated := true, unflagged := 2)
  {
    var y0, all := Start(errorCb), CONFIGURE_ABORTED;
    var y1 := Step(y0, all[0]);
    var y2 := Step(y1, all[1]);
    var y3 := Step(y2, all[2]);
    var y4 := Step(y3, all[3]);
    RunSnoc(y0, [], all[0]);
    RunSnoc(y0, [all[0]], all[1]);
    RunSnoc(y0, [all[0]] + [all[1]], all[2]);
    RunSnoc(y0, [all[0]] + [all[1]] + [all[2]], all[3]);
    RunSnoc(y0, [all[0]] + [all[1]] + [all[2]] + [all[3]], all[4]);
    assert all == [all[0]] + [all[1]] + [all[2]] + [all[3]] + [all[4]];
    assert [] + [all[0]] == [all[0]];
    AskOne(y2.mon, Pool.Acquire(1));
    AskOne(y3.mon, Pool.Release(1));
    assert y3.mon.states == map[0 := Monitor.IDLE, 1 := Monitor.IDLE];
    assert y4.mon.states == map[0 := Monitor.IDLE];
  }

  // ----- a reconfiguration with a buffer out

  const CONFIGURED_ONCE: seq<Event> :=
    [Created(true, 0, 1), Called(0, Pool.ConfigureBegun), Called(0, Pool.ConfigureEnded(1))]

  const SHORTCUT_RUN: seq<Event> :=
    CONFIGURED_ONCE
    + [Called(0, Pool.BufferTaken(0, 0, Some(7))), Called(0, Pool.ConfigureBegun), Called(0, Pool.ConfigureEnded(2)),
       Flagged, Flagged, Flagged, Passed]

  /** A stream reconfigured with a buffer out, by the shortcut for an unchanged one, goes unseen: its
      buffer is still out and the monitor, with nothing left to do, says IDLE. */
  lemma ShortcutStreamGoesUnseen(errorCb: bool)
    ensures var y := Run(Start(errorCb), SHORTCUT_RUN);
            && Quiet(y.mon) && y.mon.composite == Monitor.IDLE
            && |y.streams| == 1 && y.streams[0].pending == 1 && y.streams[0].status.CONFIGURED?
  {
    var y0, taken := Start(errorCb), Called(0, Pool.BufferTaken(0, 0, Some(7)));
    var begun, ended := Called(0, Pool.ConfigureBegun), Called(0, Pool.ConfigureEnded(2));
    ConfiguredOnce(errorCb);
    var c := CONFIGURED_ONCE;
    RunSnoc(y0, c, taken);
    RunSnoc(y0, c + [taken], begun);
    RunSnoc(y0, c + [taken] + [begun], ended);
    RunSnoc(y0, c + [taken] + [begun] + [ended], Flagged);
    RunSnoc(y0, c + [taken] + [begun] + [ended] + [Flagged], Flagged);
    RunSnoc(y0, c + [taken] + [begun] + [ended] + [Flagged] + [Flagged], Flagged);
    RunSnoc(y0, c + [taken] + [begun] + [ended] + [Flagged] + [Flagged] + [Flagged], Passed);
    assert SHORTCUT_RUN == c + [taken] + [begun] + [ended] + [Flagged] + [Flagged] + [Flagged] + [Passed];
    hide Run, Start;
    ReconfiguredUnseen(Run(y0, c));
  }

  lemma ConfiguredOnce(errorCb: bool)
    ensures JustConfigured(Run(Start(errorCb), CONFIGURED_ONCE))
  {
    var y0, all := Start(errorCb), CONFIGURED_ONCE;
    var y1 := Step(y0, all[0]);
    var y2 := Step(y1, all[1]);
    RunSnoc(y0, [], all[0]);
    RunSnoc(y0, [all[0]], all[1]);
    RunSnoc(y0, [all[0]] + [all[1]], all[2]);
    assert all == [all[0]] + [all[1]] + [all[2]];
    assert [] + [all[0]] == [all[0]];
    AskOne(y2.mon, Pool.Acquire(1));
  }

  /** One stream, configured for one buffer, with nothing out. */
  predicate JustConfigured(y: System) {
    |y.streams| == |y.shown| == 1 && RoomForOne(y.streams[0]) && y.mon == MONITOR_OF_ONE
  }

  lemma ReconfiguredUnseen(y: System)
    requires JustConfigured(y)
    ensures var y1 := Step(y, Called(0, Pool.BufferTaken(0, 0, Some(7))));
            var y3 := Step(Step(y1, Called(0, Pool.ConfigureBegun)), Called(0, Pool.ConfigureEnded(2)));
            var y' := Step(Step(Step(Step(y3, Flagged), Flagged), Flagged), Passed);
            && Quiet(y'.mon) && y'.mon.composite == Monitor.IDLE
            && |y'.streams| == 1 && y'.streams[0].pending == 1 && y'.streams[0].status.CONFIGURED?
  {
    hide Step, Pool.Step, JustConfigured;
    var y1 := Step(y, Called(0, Pool.BufferTaken(0, 0, Some(7))));
    var y2 := Step(y1, Called(0, Pool.ConfigureBegun));
    var y3 := Step(y2, Called(0, Pool.ConfigureEnded(2)));
    OneConfigured(y);
    var s := y.streams[0];
    OnlyStream(y, Pool.BufferTaken(0, 0, Some(7)));
    FirstTaken(s);
    AskOne(y.mon, Pool.Post(1, Monitor.ACTIVE));
    OnlyStream(y1, Pool.ConfigureBegun);
    ShortcutTaken(y1.streams[0]);
    AskOne(y1.mon, Pool.Release(1));
    OnlyStream(y2, Pool.ConfigureEnded(2));
    AskOne(y2.mon, Pool.Acquire(2));
    ReconfiguredMonitor();
    ReleasedIgnored(y3.mon);
    MonitorSteps(y3);
  }

  const MONITOR_OF_ONE: Monitor.State :=
    Monitor.INITIAL.(states := map[0 := Monitor.IDLE, 1 := Monitor.IDLE], next := 2, updated := true, unflagged := 1)

  /** A stream configured for one buffer, with nothing allocated or out. */
  predicate RoomForOne(s: Pool.Stream) {
    && s.status.CONFIGURED? && s.monitorId == 1 && s.pending == 0 && s.buffers == map[] && s.hw == 0
    && s.total == 1 == |s.slots|
    && s.usage == s.oldUsage == s.clientUsage && s.maxBuffers == s.oldMax == s.clientMax
  }

  lemma OneConfigured(y: System)
    requires JustConfigured(y)
    ensures |y.streams| == |y.shown| == 1 && RoomForOne(y.streams[0]) && y.mon == MONITOR_OF_ONE
  {
  }

  /** A call of the only stream. */
  lemma OnlyStream(y: System, c: Pool.Call)
    requires |y.streams| == |y.shown| == 1
    ensures var o, y' := Pool.Step(y.streams[0], Answered(y.mon, c)), Step(y, Called(0, c));
            && y'.streams == [o.s] && |y'.shown| == 1 && y'.mon == AskAll(y.mon, o.ops)
  {
    hide Pool.Step, ShownAfter, AskAll;
  }

  lemma MonitorSteps(y: System)
    ensures var y' := Step(Step(Step(Step(y, Flagged), Flagged), Flagged), Passed);
            && y'.streams == y.streams
            && var m3 := Monitor.Step(Monitor.Step(Monitor.Step(y.mon, Monitor.Flagged), Monitor.Flagged),
               Monitor.Flagged);
               y'.mon == Monitor.Step(m3, Monitor.Passed)
  {
    hide Monitor.Step;
  }

  lemma ReconfiguredMonitor()
    ensures var m1 := Ask(MONITOR_OF_ONE, Pool.Post(1, Monitor.ACTIVE));
            var m3 := Ask(Ask(m1, Pool.Release(1)), Pool.Acquire(2));
            && m3.queue == [Monitor.Transition(1, Monitor.ACTIVE)] && Ask(m1, Pool.Release(1)).next == 2 == m1.next
            && m3.states == map[0 := Monitor.IDLE, 2 := Monitor.IDLE] && m3.composite == Monitor.IDLE
               && m3.unflagged == 3
  {
    var m1 := Ask(MONITOR_OF_ONE, Pool.Post(1, Monitor.ACTIVE));
    var m2 := Ask(m1, Pool.Release(1));
    assert m2.states == map[0 := Monitor.IDLE];
  }

  lemma FirstTaken(s: Pool.Stream)
    requires s.status.CONFIGURED? && s.pending == 0 && s.buffers == map[] && s.hw == 0 && s.total == 1 == |s.slots|
    ensures var o := Pool.Step(s, Pool.BufferTaken(0, 0, Some(7)));
            && o.ops == [Pool.Post(s.monitorId, Monitor.ACTIVE)] && o.s.pending == 1 && o.s.status.CONFIGURED?
            && o.s.monitorId == s.monitorId && o.s.usage == s.usage && o.s.oldUsage == s.oldUsage
            && o.s.clientUsage == s.clientUsage && o.s.maxBuffers == s.maxBuffers && o.s.oldMax == s.oldMax
            && o.s.clientMax == s.clientMax
  {
  }

  lemma ShortcutTaken(s: Pool.Stream)
    requires s.status.CONFIGURED? && s.pending == 1 && s.monitorId == 1
    requires s.usage == s.oldUsage == s.clientUsage && s.maxBuffers == s.oldMax == s.clientMax
    ensures var o := Pool.Step(s, Pool.ConfigureBegun);
            var o' := Pool.Step(o.s, Pool.ConfigureEnded(2));
            && o.ops == [Pool.Release(1)] && o'.ops == [Pool.Acquire(2)]
            && o'.s.pending == 1 && o'.s.status.CONFIGURED?
  {
  }

  lemma ReleasedIgnored(m: Monitor.State)
    requires m.queue == [Monitor.Transition(1, Monitor.ACTIVE)]
    requires m.states == map[0 := Monitor.IDLE, 2 := Monitor.IDLE] && m.composite == Monitor.IDLE && m.unflagged == 3
    ensures var m3 := Monitor.Step(Monitor.Step(Monitor.Step(m, Monitor.Flagged), Monitor.Flagged), Monitor.Flagged);
            var m' := Monitor.Step(m3, Monitor.Passed);
            Quiet(m') && m'.composite == Monitor.IDLE
  {
    assert Monitor.ApplyAll(m.states, m.queue[..0]) == m.states;
    assert Monitor.Trace(m.states, m.queue) == [Monitor.IDLE];
  }
}
