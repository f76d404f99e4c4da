/** The prepare worker: clients queue streams to prepare; a worker takes them one by one and
    allocates their buffers one per turn, without the lock. */
module PrepareWorker {
  import opened Wrappers
  import Pool = StreamPool

  /** Where the worker is: before its lock-held part, about to allocate a buffer, or done with the
      stream it has but not yet back at the lock. */
  datatype Place = AtTop | Allocating | Finishing

  /** `queue` names the streams to prepare, `taken` the one in progress; `pool` are all streams. */
  datatype Handler = Handler(
    queue: seq<int>, taken: Option<int>, abort: bool, running: bool, place: Place,
    pool: map<int, Pool.Stream>, callbacks: seq<int>)

  function Initial(pool: map<int, Pool.Stream>): Handler {
    Handler([], None, false, false, AtTop, pool, [])
  }

  function EndPrepare(pool: map<int, Pool.Stream>, id: int): map<int, Pool.Stream> {
    if id in pool then pool[id := Pool.EndPrepare(pool[id]).s] else pool
  }

  /** `started` is whether the worker could be started, if it was not running. */
  function Prepare(h: Handler, id: int, started: bool): Handler {
    if id !in h.pool then h
    else
      var o := Pool.BeginPrepare(h.pool[id]);
      var h1 := h.(pool := h.pool[id := o.s]);
      if !o.code.ENODATA? then h1
      else if h.running then h1.(queue := h.queue + [id])
      else if started then h1.(queue := h.queue + [id], abort := false, running := true)
      else h1.(callbacks := h.callbacks + [id])
  }

  function EndAll(pool: map<int, Pool.Stream>, ids: seq<int>): map<int, Pool.Stream> {
    if ids == [] then pool else EndPrepare(EndAll(pool, ids[..|ids| - 1]), ids[|ids| - 1])
  }

  function Clear(h: Handler): Handler {
    h.(pool := EndAll(h.pool, h.queue), queue := [], abort := true)
  }

  /** The lock-held beginning of a turn. */
  function Turn(h: Handler): Handler {
    if !h.place.AtTop? || !h.running then h
    else
      match h.taken
      case None =>
        if h.queue == [] then h.(running := false)
        else h.(taken := Some(h.queue[0]), queue := h.queue[1..], place := Allocating)
      case Some(id) =>
        if h.abort then h.(pool := EndPrepare(h.pool, id), taken := None, abort := false)
        else h.(place := Allocating)
  }

  /** One buffer is allocated, without the lock; after an error the prepare is ended. */
  function Allocate(h: Handler, alloc: Option<int>): Handler {
    if !h.place.Allocating? || h.taken.None? || h.taken.value !in h.pool then h
    else
      var id := h.taken.value;
      var o := Pool.PrepareBuffer(h.pool[id], alloc);
      var h1 := h.(pool := h.pool[id := o.s]);
      if o.code.ENODATA? then h1.(place := AtTop)
      else if o.code.OK? then h1.(place := Finishing)
      else h1.(pool := EndPrepare(h1.pool, id), place := Finishing)
  }

  /** The lock-held end of a turn. */
  function Finish(h: Handler): Handler {
    if !h.place.Finishing? || h.taken.None? then h
    else h.(callbacks := h.callbacks + [h.taken.value], taken := None, place := AtTop)
  }

  /** `Other` is any call of a stream made by others. */
  datatype Event =
    | Prepared(id: int, started: bool) | Cleared | TurnBegun | Allocated(alloc: Option<int>) | TurnDone
    | Other(id: int, call: Pool.Call)

  function Step(h: Handler, e: Event): Handler {
    match e
    case Prepared(id, started) => Prepare(h, id, started)
    case Cleared => Clear(h)
    case TurnBegun => Turn(h)
    case Allocated(alloc) => Allocate(h, alloc)
    case TurnDone => Finish(h)
    case Other(id, call) => if id in h.pool then h.(pool := h.pool[id := Pool.Step(h.pool[id], call).s]) else h
  }

  function Run(h: Handler, events: seq<Event>): Handler {
    if events == [] then h else Step(Run(h, events[..|events| - 1]), events[|events| - 1])
  }

  /** The worker starts when it has to, and only the handler prepares streams. */
  predicate Fair(h: Handler, e: Event) {
    && (e.Prepared? ==> e.started)
    && (e.Other? ==> !e.call.PrepareBegun? && !e.call.BufferPrepared? && !e.call.PrepareEnded?)
  }

  predicate FairRun(h: Handler, events: seq<Event>) {
    forall k :: 0 <= k < |events| ==> Fair(Run(h, events[..k]), events[k])
  }

  predicate BeingPrepared(pool: map<int, Pool.Stream>, id: int) {
    id in pool && pool[id].status.PREPARE_ACTIVE?
  }

  /** The stream the worker still has to prepare. */
  predicate InProgress(h: Handler, id: int) {
    h.taken == Some(id) && !h.place.Finishing?
  }

  /** The streams being prepared are exactly those queued and the one in progress, each once. */
  ghost predicate PrepareOk(h: Handler) {
    && (forall id :: BeingPrepared(h.pool, id) <==> id in h.queue || InProgress(h, id))
    && (forall i, j :: 0 <= i < j < |h.queue| ==> h.queue[i] != h.queue[j])
    && (forall id :: id in h.queue ==> !InProgress(h, id))
    && (h.taken.None? ==> h.place.AtTop?)
    && (h.queue != [] || h.taken.Some? ==> h.running)
    && (forall id :: id in h.queue ==> id in h.pool && h.pool[id].prepared == 0)
  }

  lemma EndsOne(pool: map<int, Pool.Stream>, id: int, other: int)
    ensures BeingPrepared(EndPrepare(pool, id), other) <==> BeingPrepared(pool, other) && other != id
  {
  }

  lemma {:induction false} EndsAll(pool: map<int, Pool.Stream>, ids: seq<int>, other: int)
    ensures BeingPrepared(EndAll(pool, ids), other) <==> BeingPrepared(pool, other) && other !in ids
  {
    if ids != [] {
      EndsAll(pool, ids[..|ids| - 1], other);
      EndsOne(EndAll(pool, ids[..|ids| - 1]), ids[|ids| - 1], other);
      assert other in ids <==> other in ids[..|ids| - 1] || other == ids[|ids| - 1];
    }
  }

  lemma PreparedOk(h: Handler, id: int, started: bool)
    requires PrepareOk(h) && (started || h.running)
    ensures PrepareOk(Prepare(h, id, started))
  {
    if id in h.pool && Pool.BeginPrepare(h.pool[id]).code.ENODATA? {
      assert !BeingPrepared(h.pool, id);
      var h' := Prepare(h, id, started);
      forall k ensures BeingPrepared(h'.pool, k) <==> BeingPrepared(h.pool, k) || k == id {
      }
      assert forall k :: k in h'.queue <==> k in h.queue || k == id;
    } else if id in h.pool {
      assert Prepare(h, id, started).pool == h.pool;
    }
  }

  lemma ClearedOk(h: Handler)
    requires PrepareOk(h)
    ensures PrepareOk(Clear(h))
  {
    forall k
      ensures BeingPrepared(Clear(h).pool, k) <==> BeingPrepared(h.pool, k) && k !in h.queue
    {
      EndsAll(h.pool, h.queue, k);
    }
    hide BeingPrepared;
  }

  lemma TurnOk(h: Handler)
    requires PrepareOk(h)
    ensures PrepareOk(Turn(h))
  {
    if h.place.AtTop? && h.running {
      if h.taken.None? && h.queue != [] {
        assert forall k :: k in h.queue <==> k == h.queue[0] || k in h.queue[1..];
      } else if h.taken.Some? && h.abort {
        forall k
          ensures BeingPrepared(EndPrepare(h.pool, h.taken.value), k)
                  <==> BeingPrepared(h.pool, k) && k != h.taken.value
        {
          EndsOne(h.pool, h.taken.value, k);
        }
      }
      hide BeingPrepared, EndPrepare;
    }
  }

  /** A call of the worker leaves the stream being prepared exactly when it asks to go on. */
  lemma AllocatedStatus(s: Pool.Stream, alloc: Option<int>)
    requires s.status.PREPARE_ACTIVE?
    ensures var o := Pool.PrepareBuffer(s, alloc);
            && (o.code.ENODATA? ==> o.s.status.PREPARE_ACTIVE?)
            && (o.code.OK? ==> o.s.status.CONFIGURED?)
  {
    hide Pool.HasFree;
  }

  lemma AllocateOk(h: Handler, alloc: Option<int>)
    requires PrepareOk(h)
    ensures PrepareOk(Allocate(h, alloc))
  {
    if h.place.Allocating? && h.taken.Some? && h.taken.value in h.pool {
      var id := h.taken.value;
      assert BeingPrepared(h.pool, id);
      AllocatedStatus(h.pool[id], alloc);
      var o := Pool.PrepareBuffer(h.pool[id], alloc);
      var pool := h.pool[id := o.s];
      EndsOne(pool, id, id);
      forall k | k != id
        ensures BeingPrepared(Allocate(h, alloc).pool, k) <==> BeingPrepared(h.pool, k)
      {
        EndsOne(pool, id, k);
      }
      hide Pool.PrepareBuffer;
    }
  }

  lemma EndConfigureStatus(s: Pool.Stream, newId: int)
    ensures Pool.EndConfigure(s, newId).s.status.PREPARE_ACTIVE? <==> s.status.PREPARE_ACTIVE?
    ensures Pool.EndConfigure(s, newId).s.prepared == s.prepared
  {
    hide Pool.ConfigureLocked;
    ConfigureStatus(s.(monitorId := newId));
  }

  lemma ConfigureStatus(s: Pool.Stream)
    ensures Pool.ConfigureLocked(s).s.prepared == s.prepared
    ensures !Pool.ConfigureLocked(s).s.status.PREPARE_ACTIVE? || s.status.PREPARE_ACTIVE?
  {
    hide Pool.FreeAll;
    FreeStatus(s);
    FreeStatus(Pool.CloseLocked(s).s);
  }

  lemma FreeStatus(s: Pool.Stream)
    ensures Pool.FreeAll(s).prepared == s.prepared && Pool.FreeAll(s).status == s.status
  {
  }

  lemma TakenStatus(s: Pool.Stream, frame: int, pick: int, alloc: Option<int>)
    ensures Pool.GetBufferLocked(s, frame, pick, alloc).s.status == s.status
    ensures Pool.GetBufferLocked(s, frame, pick, alloc).s.prepared == s.prepared
  {
    hide Pool.ChooseBuffer, Wrap32;
    Pool.ChooseKeeps(s, true, pick, alloc);
  }

  /** Calls made by others neither begin nor end a prepare. */
  lemma OthersKeepStatus(s: Pool.Stream, c: Pool.Call)
    requires !c.PrepareBegun? && !c.BufferPrepared? && !c.PrepareEnded?
    ensures Pool.Step(s, c).s.status.PREPARE_ACTIVE? <==> s.status.PREPARE_ACTIVE?
    ensures Pool.Step(s, c).s.prepared == s.prepared
  {
    if c.ConfigureEnded? { EndConfigureStatus(s, c.newId); }
    if c.BufferTaken? { TakenStatus(s, c.frame, c.pick, c.alloc); }
    if c.WaiterWoken? { TakenStatus(s.(parked := if s.parked > 0 then s.parked - 1 else 0), c.frame, c.pick, c.alloc); }
    hide Pool.GetBufferLocked, Pool.EndConfigure, Wrap32, Pool.Without;
  }

  lemma OtherOk(h: Handler, id: int, c: Pool.Call)
    requires PrepareOk(h) && Fair(h, Other(id, c)) && id in h.pool
    ensures PrepareOk(Step(h, Other(id, c)))
  {
    OthersKeepStatus(h.pool[id], c);
    hide Pool.Step;
    var h' := Step(h, Other(id, c));
    forall k ensures BeingPrepared(h'.pool, k) <==> BeingPrepared(h.pool, k) {
    }
  }

  lemma StepOk(h: Handler, e: Event)
    requires PrepareOk(h) && Fair(h, e)
    ensures PrepareOk(Step(h, e))
  {
    hide Prepare, Clear, Turn, Allocate, Pool.Step;
    match e
    case Prepared(id, started) => PreparedOk(h, id, started);
    case Cleared => ClearedOk(h);
    case TurnBegun => TurnOk(h);
    case Allocated(alloc) => AllocateOk(h, alloc);
    case TurnDone =>
    case Other(id, call) => if id in h.pool { OtherOk(h, id, call); }
  }

  /** Over every run from streams none of which is being prepared, if the worker always starts:
      the streams being prepared are exactly those queued and the one in progress, each once. */
  lemma {:induction false} PrepareInvariant(pool: map<int, Pool.Stream>, events: seq<Event>)
    requires forall id :: !BeingPrepared(pool, id)
    requires FairRun(Initial(pool), events)
    ensures PrepareOk(Run(Initial(pool), events))
  {
    if events != [] {
      var init := events[..|events| - 1];
      forall k | 0 <= k < |init|
        ensures Fair(Run(Initial(pool), init[..k]), init[k])
      {
        assert init[..k] == events[..k];
      }
      hide PrepareOk, Fair;
      PrepareInvariant(pool, init);
      StepOk(Run(Initial(pool), init), events[|events| - 1]);
    }
  }

  /** A prepare that the pool accepts keeps this exactly when the worker runs or can be started;
      otherwise the stream stays in preparation with no one to prepare it. */
  lemma StartFailureExactly(h: Handler, id: int, started: bool)
    requires PrepareOk(h) && id in h.pool && Pool.BeginPrepare(h.pool[id]).code.ENODATA?
    ensures PrepareOk(Prepare(h, id, started)) <==> started || h.running
  {
    if started || h.running {
      PreparedOk(h, id, started);
    } else {
      var h' := Prepare(h, id, started);
      assert BeingPrepared(h'.pool, id);
      assert h'.queue == [] && h'.taken.None?;
    }
  }

  // ----- the abort flag a clear leaves behind

  /** The two events that lower the flag: a turn that ends the prepare in progress because of it,
      and a prepare that has to start the worker. */
  predicate Lowers(h: Handler, e: Event) {
    || (e.TurnBegun? && h.place.AtTop? && h.running && h.taken.Some? && h.abort)
    || (e.Prepared? && e.id in h.pool && Pool.BeginPrepare(h.pool[e.id]).code.ENODATA? && !h.running && e.started)
  }

  predicate NeverLowered(h: Handler, events: seq<Event>) {
    forall k :: 0 <= k < |events| ==> !Lowers(Run(h, events[..k]), events[k])
  }

  predicate NoClear(events: seq<Event>) {
    forall k :: 0 <= k < |events| ==> !events[k].Cleared?
  }

  lemma FlagStep(h: Handler, e: Event)
    requires !e.Cleared?
    ensures Step(h, e).abort <==> h.abort && !Lowers(h, e)
  {
    hide Pool.BeginPrepare, Pool.PrepareBuffer, Pool.Step, EndPrepare;
  }

  /** Without another clear, the flag is up exactly if it was up and nothing lowered it. */
  lemma {:induction false} FlagRun(h: Handler, events: seq<Event>)
    requires NoClear(events)
    ensures Run(h, events).abort <==> h.abort && NeverLowered(h, events)
  {
    if events != [] {
      var n := |events| - 1;
      var init := events[..n];
      FlagRun(h, init);
      FlagStep(Run(h, init), events[n]);
      assert forall k :: 0 <= k < n ==> init[..k] == events[..k];
      hide Lowers, Step;
      if NeverLowered(h, init) && !Lowers(Run(h, init), events[n]) {
        forall k | 0 <= k < |events| ensures !Lowers(Run(h, events[..k]), events[k]) {
          if k < n { assert !Lowers(Run(h, init[..k]), init[k]); }
        }
      }
      if NeverLowered(h, events) {
        assert !Lowers(Run(h, events[..n]), events[n]);
        forall k | 0 <= k < n ensures !Lowers(Run(h, init[..k]), init[k]) {
          assert !Lowers(Run(h, events[..k]), events[k]);
        }
      }
    }
  }

  lemma {:induction false} RunOk(h: Handler, events: seq<Event>)
    requires PrepareOk(h) && FairRun(h, events)
    ensures PrepareOk(Run(h, events))
  {
    if events != [] {
      var init := events[..|events| - 1];
      forall k | 0 <= k < |init| ensures Fair(Run(h, init[..k]), init[k]) { assert init[..k] == events[..k]; }
      hide PrepareOk, Fair;
      RunOk(h, init);
      StepOk(Run(h, init), events[|events| - 1]);
    }
  }

  /** The worker is about to take a stream. */
  predicate AboutToTake(t: Handler, id: int) {
    t.place.AtTop? && t.running && t.taken.None? && t.queue != [] && t.queue[0] == id && id in t.pool
  }

  /** The first turn does not finish the stream: it has room for more than one buffer, and for the
      next one, which the allocator grants. */
  predicate NeedsMore(s: Pool.Stream, alloc: Option<int>) {
    s.total > 1 && s.hw < s.total && s.hw < |s.slots| && alloc.Some?
  }

  /** Two turns of the worker from the one that takes a stream on. */
  function TwoTurns(t: Handler, alloc: Option<int>): Handler { Turn(Allocate(Turn(t), alloc)) }

  /** The prepare was ended by the flag, without a callback; else the worker still has the stream. */
  predicate Aborted(t: Handler, u: Handler, id: int) {
    u.taken.None? && !BeingPrepared(u.pool, id) && u.callbacks == t.callbacks
  }

  lemma TakenIsAbortedExactly(t: Handler, id: int, alloc: Option<int>)
    requires PrepareOk(t) && AboutToTake(t, id)
    ensures var u := TwoTurns(t, alloc);
            && (Aborted(t, u, id) <==> t.abort && NeedsMore(t.pool[id], alloc))
            && (!Aborted(t, u, id) ==> u.taken == Some(id))
  {
    assert id in t.queue;
    assert BeingPrepared(t.pool, id) && t.pool[id].prepared == 0;
    hide PrepareOk;
    FirstBuffer(t.pool[id], alloc);
    hide Pool.PrepareBuffer, Pool.EndPrepare;
    var o := Pool.PrepareBuffer(t.pool[id], alloc);
    EndsOne(t.pool[id := o.s], id, id);
  }

  lemma FirstBuffer(s: Pool.Stream, alloc: Option<int>)
    requires s.status.PREPARE_ACTIVE? && s.prepared == 0
    ensures Pool.PrepareBuffer(s, alloc).code.ENODATA? <==> NeedsMore(s, alloc)
  {
  }

  /** From a clear on, through any run without another one: a stream whose prepare is accepted later
      is aborted by the flag that clear raised, in its second turn and without a callback, exactly
      when no turn and no start of the worker lowered the flag before, the worker was still running
      at that prepare, nothing lowered it until the worker takes the stream, and one turn is not
      enough for it. */
  lemma LaterPrepareAbortedExactly(h0: Handler, before: seq<Event>, id: int, between: seq<Event>, alloc: Option<int>)
    requires PrepareOk(h0) && NoClear(before) && NoClear(between) && FairRun(Clear(h0), before)
    requires var h := Run(Clear(h0), before);
             && id in h.pool && Pool.BeginPrepare(h.pool[id]).code.ENODATA?
             && FairRun(Prepare(h, id, true), between)
             && AboutToTake(Run(Prepare(h, id, true), between), id)
    ensures var h := Run(Clear(h0), before);
            var h1 := Prepare(h, id, true);
            var t := Run(h1, between);
            Aborted(t, TwoTurns(t, alloc), id) <==>
              && NeverLowered(Clear(h0), before) && h.running && NeverLowered(h1, between)
              && NeedsMore(t.pool[id], alloc)
  {
    var h := Run(Clear(h0), before);
    var h1 := Prepare(h, id, true);
    var t := Run(h1, between);
    ClearedOk(h0);
    RunOk(Clear(h0), before);
    PreparedOk(h, id, true);
    RunOk(h1, between);
    FlagRun(Clear(h0), before);
    FlagStep(h, Prepared(id, true));
    FlagRun(h1, between);
    TakenIsAbortedExactly(t, id, alloc);
    hide PrepareOk, FairRun, NoClear, NeverLowered, Run, TwoTurns, Aborted, NeedsMore, AboutToTake, Pool.BeginPrepare;
  }

  /** The simplest such run: a clear with no stream in progress, then a prepare, taken at once. */
  lemma StaleAbortEndsLaterPrepare(h: Handler, id: int, handle: int)
    requires PrepareOk(h) && h.running && h.taken.None? && h.queue == []
    requires id in h.pool && Pool.BeginPrepare(h.pool[id]).code.ENODATA?
    requires var s := h.pool[id]; s.total >= 2 && s.hw < s.total == |s.slots|
    ensures var t := Turn(Allocate(Turn(Prepare(Clear(h), id, true)), Some(handle)));
            && id in t.pool && t.pool[id].status.CONFIGURED? && t.pool[id].hw == h.pool[id].hw + 1
            && t.taken.None? && t.callbacks == h.callbacks
  {
    assert Clear(h).pool == h.pool;
    assert ([] + [id])[0] == id && ([] + [id])[1..] == [];
  }

  // ----- the turns of the worker

  /** In every state the invariant allows, a turn goes on to allocate exactly if the worker then has a
      stream; after the allocation it is back for another turn with that stream exactly if the
      stream still has to be prepared, and else done with it. */
  lemma TurnsExactly(h: Handler, alloc: Option<int>)
    requires PrepareOk(h)
    ensures h.place.AtTop? && h.running ==>
              && (Turn(h).place.Allocating? <==> Turn(h).taken.Some?)
              && (Turn(h).running <==> h.queue != [] || h.taken.Some?)
    ensures h.place.Allocating? && h.taken.Some? && h.taken.value in h.pool ==>
              var t := Allocate(h, alloc);
              && t.taken == h.taken
              && t.place == if BeingPrepared(t.pool, h.taken.value) then AtTop else Finishing
  {
    if h.place.Allocating? && h.taken.Some? && h.taken.value in h.pool {
      AllocateOk(h, alloc);
      hide Pool.PrepareBuffer, EndPrepare, BeingPrepared;
      var t := Allocate(h, alloc);
      assert BeingPrepared(t.pool, h.taken.value) <==> h.taken.value in t.queue || InProgress(t, h.taken.value);
    }
  }

  // ----- what becomes of every accepted prepare

  /** Where an accepted prepare is: waiting, with the worker, reported to the client, dropped by a
      clear, or ended by the abort flag. */
  datatype Stage = Waiting | InHand | CalledBack | Dropped | Ended

  datatype Ticket = Ticket(id: int, stage: Stage)

  /** The prepares accepted so far, oldest first; whether the worker runs; whether the flag is up. */
  datatype Ledger = Ledger(tickets: seq<Ticket>, working: bool, flag: bool)

  /** The streams with a prepare at this stage, in the order of acceptance. */
  function AtStage(tickets: seq<Ticket>, stage: Stage): seq<int> {
    if tickets == [] then []
    else
      var x := tickets[|tickets| - 1];
      AtStage(tickets[..|tickets| - 1], stage) + if x.stage == stage then [x.id] else []
  }

  function MoveAll(tickets: seq<Ticket>, from: Stage, to: Stage): (r: seq<Ticket>)
    ensures |r| == |tickets|
    ensures forall i :: 0 <= i < |r| ==>
              r[i] == if tickets[i].stage == from then tickets[i].(stage := to) else tickets[i]
  {
    if tickets == [] then []
    else
      var x := tickets[|tickets| - 1];
      MoveAll(tickets[..|tickets| - 1], from, to) + [if x.stage == from then x.(stage := to) else x]
  }

  /** The oldest waiting prepare goes to the worker. */
  function MoveFirst(tickets: seq<Ticket>): (r: seq<Ticket>)
    ensures |r| == |tickets|
    ensures forall i :: 0 <= i < |r| ==>
              || r[i] == tickets[i]
              || (tickets[i].stage.Waiting? && r[i] == tickets[i].(stage := InHand)
                 && forall j :: 0 <= j < i ==> !tickets[j].stage.Waiting?)
  {
    if tickets == [] then []
    else
      var init, x := tickets[..|tickets| - 1], tickets[|tickets| - 1];
      NoneAtStage(init, Waiting);
      if x.stage.Waiting? && AtStage(init, Waiting) == [] then init + [x.(stage := InHand)]
      else MoveFirst(init) + [x]
  }

  /** A stream that is configured and unused, or else its prepare is refused. */
  predicate Unused(h: Handler, id: int) {
    && id in h.pool && h.pool[id].status.CONFIGURED?
    && !h.pool[id].active && h.pool[id].pending == 0
  }

  /** What an event means for the prepares accepted; of the handler it looks only at the streams and
      at where the worker is. A prepare whose worker cannot be started is reported at once. */
  function Noted(h: Handler, l: Ledger, e: Event): Ledger {
    match e
    case Prepared(id, started) =>
      if !Unused(h, id) then l
      else if l.working then l.(tickets := l.tickets + [Ticket(id, Waiting)])
      else if started then Ledger(l.tickets + [Ticket(id, Waiting)], true, false)
      else l.(tickets := l.tickets + [Ticket(id, CalledBack)])
    case Cleared => l.(tickets := MoveAll(l.tickets, Waiting, Dropped), flag := true)
    case TurnBegun =>
      if !h.place.AtTop? || !l.working then l
      else if AtStage(l.tickets, InHand) != [] then
        if l.flag then l.(tickets := MoveAll(l.tickets, InHand, Ended), flag := false) else l
      else if AtStage(l.tickets, Waiting) == [] then l.(working := false)
      else l.(tickets := MoveFirst(l.tickets))
    case TurnDone => if h.place.Finishing? then l.(tickets := MoveAll(l.tickets, InHand, CalledBack)) else l
    case _ => l
  }

  function LedgerOf(h: Handler, events: seq<Event>): Ledger {
    if events == [] then Ledger([], false, false)
    else
      var init := events[..|events| - 1];
      Noted(Run(h, init), LedgerOf(h, init), events[|events| - 1])
  }

  /** The waiting ones were accepted last. */
  predicate WaitingLast(tickets: seq<Ticket>) {
    forall i, j :: 0 <= i < j < |tickets| && tickets[i].stage.Waiting? ==> tickets[j].stage.Waiting?
  }

  /** No prepare that the worker has was accepted before one reported already. */
  predicate HandAfterCalled(tickets: seq<Ticket>) {
    NoneAfter(tickets, InHand, CalledBack)
  }

  predicate Agrees(h: Handler, l: Ledger) {
    && h.queue == AtStage(l.tickets, Waiting)
    && AtStage(l.tickets, InHand) == (if h.taken.Some? then [h.taken.value] else [])
    && h.callbacks == AtStage(l.tickets, CalledBack)
    && h.running == l.working && h.abort == l.flag
    && WaitingLast(l.tickets) && HandAfterCalled(l.tickets)
    && (h.taken.None? ==> h.place.AtTop?)
    && (h.queue != [] || h.taken.Some? ==> h.running)
  }

  lemma AtStageOne(tickets: seq<Ticket>, x: Ticket, stage: Stage)
    ensures AtStage(tickets + [x], stage) == AtStage(tickets, stage) + if x.stage == stage then [x.id] else []
  {
    assert (tickets + [x])[..|tickets|] == tickets;
  }

  lemma {:induction false} NoneAtStage(tickets: seq<Ticket>, stage: Stage)
    ensures AtStage(tickets, stage) == [] <==> forall i :: 0 <= i < |tickets| ==> tickets[i].stage != stage
  {
    if tickets != [] {
      NoneAtStage(tickets[..|tickets| - 1], stage);
      assert forall i :: 0 <= i < |tickets| - 1 ==> tickets[..|tickets| - 1][i] == tickets[i];
    }
  }

  lemma MoveAllOne(tickets: seq<Ticket>, x: Ticket, from: Stage, to: Stage)
    ensures MoveAll(tickets + [x], from, to)
            == MoveAll(tickets, from, to) + [if x.stage == from then x.(stage := to) else x]
  {
    assert (tickets + [x])[..|tickets|] == tickets;
  }

  lemma NoTickets(from: Stage, to: Stage, stage: Stage)
    ensures AtStage([], stage) == [] && MoveAll([], from, to) == [] && MoveFirst([]) == []
  {
  }

  /** What is moved is gone from the one stage and changes no third one. */
  lemma {:induction false} MovedOthers(tickets: seq<Ticket>, from: Stage, to: Stage, stage: Stage)
    requires from != to && stage != to
    ensures AtStage(MoveAll(tickets, from, to), stage) == if stage == from then [] else AtStage(tickets, stage)
  {
    hide AtStage, MoveAll;
    if tickets == [] {
      NoTickets(from, to, stage);
    } else {
      var init, x := tickets[..|tickets| - 1], tickets[|tickets| - 1];
      assert tickets == init + [x];
      MovedOthers(init, from, to, stage);
      MoveAllOne(init, x, from, to);
      AtStageOne(init, x, stage);
      AtStageOne(MoveAll(init, from, to), if x.stage == from then x.(stage := to) else x, stage);
    }
  }

  /** No ticket at one stage comes after one at another. */
  predicate NoneAfter(tickets: seq<Ticket>, from: Stage, to: Stage) {
    forall i, j :: 0 <= i < j < |tickets| && tickets[i].stage == from ==> tickets[j].stage != to
  }

  lemma NoneAfterPrefix(tickets: seq<Ticket>, x: Ticket, from: Stage, to: Stage)
    requires NoneAfter(tickets + [x], from, to)
    ensures NoneAfter(tickets, from, to) && (x.stage == to ==> AtStage(tickets, from) == [])
  {
    NoneAtStage(tickets, from);
    assert forall i :: 0 <= i < |tickets| ==> (tickets + [x])[i] == tickets[i];
    assert (tickets + [x])[|tickets|] == x;
  }

  /** Where it was accepted after all of the other stage it is added there at the end. */
  lemma {:induction false} MovedAdds(tickets: seq<Ticket>, from: Stage, to: Stage)
    requires from != to && NoneAfter(tickets, from, to)
    ensures AtStage(MoveAll(tickets, from, to), to) == AtStage(tickets, to) + AtStage(tickets, from)
  {
    hide AtStage, MoveAll, NoneAfter;
    if tickets == [] {
      NoTickets(from, to, from);
      NoTickets(from, to, to);
    } else {
      var init, x := tickets[..|tickets| - 1], tickets[|tickets| - 1];
      assert tickets == init + [x];
      NoneAfterPrefix(init, x, from, to);
      MovedAdds(init, from, to);
      MoveAllOne(init, x, from, to);
      AtStageOne(init, x, from);
      AtStageOne(init, x, to);
      AtStageOne(MoveAll(init, from, to), if x.stage == from then x.(stage := to) else x, to);
    }
  }

  lemma WaitingLastPrefix(tickets: seq<Ticket>, x: Ticket)
    requires WaitingLast(tickets + [x])
    ensures WaitingLast(tickets) && (AtStage(tickets, Waiting) != [] ==> x.stage.Waiting?)
  {
    NoneAtStage(tickets, Waiting);
    assert forall i :: 0 <= i < |tickets| ==> (tickets + [x])[i] == tickets[i];
    assert (tickets + [x])[|tickets|] == x;
  }

  /** The oldest waiting prepare is the head of the queue. */
  lemma {:induction false} FirstMoved(tickets: seq<Ticket>, stage: Stage)
    requires WaitingLast(tickets)
    ensures AtStage(MoveFirst(tickets), stage) == FirstTaken(tickets, stage)
  {
    hide AtStage, MoveFirst, WaitingLast;
    if tickets == [] {
      NoTickets(Waiting, InHand, stage);
      NoTickets(Waiting, InHand, Waiting);
      NoTickets(Waiting, InHand, InHand);
    } else {
      var init, x := tickets[..|tickets| - 1], tickets[|tickets| - 1];
      assert tickets == init + [x];
      WaitingLastPrefix(init, x);
      FirstMoved(init, stage);
      MoveFirstOne(init, x);
      AtStageOne(init, x, stage);
      AtStageOne(init, x, Waiting);
      AtStageOne(init, x, InHand);
      AtStageOne(MoveFirst(init), x, stage);
      AtStageOne(init, x.(stage := InHand), stage);
    }
  }

  lemma MoveFirstOne(tickets: seq<Ticket>, x: Ticket)
    ensures MoveFirst(tickets + [x])
            == if x.stage.Waiting? && AtStage(tickets, Waiting) == [] then tickets + [x.(stage := InHand)]
               else MoveFirst(tickets) + [x]
  {
    assert (tickets + [x])[..|tickets|] == tickets;
  }

  /** The streams at a stage once the head of those waiting goes to the worker. */
  function FirstTaken(tickets: seq<Ticket>, stage: Stage): seq<int> {
    var q := AtStage(tickets, Waiting);
    match stage
    case Waiting => (if q == [] then [] else q[1..])
    case InHand => AtStage(tickets, InHand) + (if q == [] then [] else [q[0]])
    case _ => AtStage(tickets, stage)
  }

  lemma MovedOrder(tickets: seq<Ticket>, from: Stage, to: Stage)
    requires WaitingLast(tickets) && HandAfterCalled(tickets)
    requires (from.Waiting? && to.Dropped?) || (from.InHand? && (to.Ended? || to.CalledBack?))
    ensures WaitingLast(MoveAll(tickets, from, to)) && HandAfterCalled(MoveAll(tickets, from, to))
  {
  }

  lemma FirstMovedOrder(tickets: seq<Ticket>)
    requires WaitingLast(tickets) && HandAfterCalled(tickets)
    ensures WaitingLast(MoveFirst(tickets)) && HandAfterCalled(MoveFirst(tickets))
  {
  }

  lemma AcceptedAgrees(h: Handler, l: Ledger, id: int, started: bool)
    requires Agrees(h, l)
    ensures Agrees(Prepare(h, id, started), Noted(h, l, Prepared(id, started)))
  {
    hide AtStage, WaitingLast, HandAfterCalled;
    forall stage: Stage, to: Stage
      ensures AtStage(l.tickets + [Ticket(id, to)], stage)
              == AtStage(l.tickets, stage) + if to == stage then [id] else []
    {
      AtStageOne(l.tickets, Ticket(id, to), stage);
    }
    AcceptedOrder(l.tickets, id);
  }

  lemma AcceptedOrder(tickets: seq<Ticket>, id: int)
    requires WaitingLast(tickets) && HandAfterCalled(tickets)
    ensures WaitingLast(tickets + [Ticket(id, Waiting)]) && HandAfterCalled(tickets + [Ticket(id, Waiting)])
    ensures AtStage(tickets, Waiting) == [] && AtStage(tickets, InHand) == []
            ==> WaitingLast(tickets + [Ticket(id, CalledBack)]) && HandAfterCalled(tickets + [Ticket(id, CalledBack)])
  {
    NoneAtStage(tickets, Waiting);
    NoneAtStage(tickets, InHand);
  }

  lemma ClearedAgrees(h: Handler, l: Ledger)
    requires Agrees(h, l)
    ensures Agrees(Clear(h), Noted(h, l, Cleared))
  {
    hide AtStage, MoveAll, WaitingLast, HandAfterCalled, EndAll;
    MovedOthers(l.tickets, Waiting, Dropped, Waiting);
    MovedOthers(l.tickets, Waiting, Dropped, InHand);
    MovedOthers(l.tickets, Waiting, Dropped, CalledBack);
    MovedOrder(l.tickets, Waiting, Dropped);
  }

  lemma TurnAgrees(h: Handler, l: Ledger)
    requires Agrees(h, l)
    ensures Agrees(Turn(h), Noted(h, l, TurnBegun))
  {
    hide AtStage, MoveAll, MoveFirst, WaitingLast, HandAfterCalled, EndPrepare;
    MovedOthers(l.tickets, InHand, Ended, Waiting);
    MovedOthers(l.tickets, InHand, Ended, InHand);
    MovedOthers(l.tickets, InHand, Ended, CalledBack);
    MovedOrder(l.tickets, InHand, Ended);
    FirstMoved(l.tickets, Waiting);
    FirstMoved(l.tickets, InHand);
    FirstMoved(l.tickets, CalledBack);
    FirstMovedOrder(l.tickets);
  }

  lemma FinishAgrees(h: Handler, l: Ledger)
    requires Agrees(h, l)
    ensures Agrees(Finish(h), Noted(h, l, TurnDone))
  {
    hide AtStage, MoveAll;
    MovedOthers(l.tickets, InHand, CalledBack, Waiting);
    MovedOthers(l.tickets, InHand, CalledBack, InHand);
    MovedAdds(l.tickets, InHand, CalledBack);
    MovedOrder(l.tickets, InHand, CalledBack);
  }

  /** Over every run: each accepted prepare is at one stage, and the handler agrees: its queue is
      those waiting, the stream in its hands is the one in hand, and its callbacks are those called
      back, each with its own stream and in the order in which they were accepted and so taken. */
  lemma {:induction false} PreparesAccounted(pool: map<int, Pool.Stream>, events: seq<Event>)
    ensures Agrees(Run(Initial(pool), events), LedgerOf(Initial(pool), events))
  {
    if events != [] {
      var init, e := events[..|events| - 1], events[|events| - 1];
      hide Agrees, Prepare, Clear, Turn, Allocate, Finish, Noted;
      PreparesAccounted(pool, init);
      StepAgrees(Run(Initial(pool), init), LedgerOf(Initial(pool), init), e);
    }
  }

  lemma StepAgrees(h: Handler, l: Ledger, e: Event)
    requires Agrees(h, l)
    ensures Agrees(Step(h, e), Noted(h, l, e))
  {
    hide Agrees, Prepare, Clear, Turn, Allocate, Finish;
    match e
    case Prepared(id, started) => AcceptedAgrees(h, l, id, started);
    case Cleared => ClearedAgrees(h, l);
    case TurnBegun => TurnAgrees(h, l);
    case Allocated(alloc) => AllocatedAgrees(h, l, alloc);
    case TurnDone => FinishAgrees(h, l);
    case Other(id, call) => OtherAgrees(h, l, id, call);
  }

  lemma AllocatedAgrees(h: Handler, l: Ledger, alloc: Option<int>)
    requires Agrees(h, l)
    ensures Agrees(Allocate(h, alloc), l)
  {
    hide AtStage, Pool.PrepareBuffer, EndPrepare;
  }

  lemma OtherAgrees(h: Handler, l: Ledger, id: int, call: Pool.Call)
    requires Agrees(h, l)
    ensures Agrees(Step(h, Other(id, call)), l)
  {
    hide AtStage, Pool.Step;
  }

  // ----- the source's own form

  class Camera3PrepareHandler {
    var streams: seq<int>
    var preparedStream: Option<int>
    var abortPrepare: bool
    var prepareRunning: bool
    /** The stream objects. */
    var pool: map<int, Pool.Stream>
    ghost var place: Place
    ghost var callbacks: seq<int>

    ghost function Model(): Handler
      reads this
    {
      Handler(streams, preparedStream, abortPrepare, prepareRunning, place, pool, callbacks)
    }

    constructor (pool: map<int, Pool.Stream>)
      ensures Model() == Initial(pool)
    {
      streams, preparedStream, abortPrepare, prepareRunning, place, callbacks := [], None, false, false, AtTop, [];
      this.pool := pool;
    }

    method QueueStream(id: int, started: bool) returns (code: Pool.Code)
      requires id in pool
      modifies this`streams, this`abortPrepare, this`prepareRunning, this`pool, this`callbacks
      ensures Model() == Prepare(old(Model()), id, started)
      ensures code.OK? <==> Pool.BeginPrepare(old(pool[id])).code.ENODATA? && (old(prepareRunning) || started)
    {
      var o := Pool.BeginPrepare(pool[id]);
      pool := pool[id := o.s];
      if !o.code.ENODATA? {
        return o.code;
      }
      if !prepareRunning {
        if !started {
          callbacks := callbacks + [id];
          return Pool.ENODEV;
        }
        abortPrepare := false;
        prepareRunning := true;
      }
      streams := streams + [id];
      return Pool.OK;
    }

    method Clear()
      modifies this`streams, this`pool, this`abortPrepare
      ensures Model() == Step(old(Model()), Cleared)
    {
      for i := 0 to |streams|
        modifies this`pool
        invariant pool == EndAll(old(pool), streams[..i])
      {
        assert streams[..i + 1][..i] == streams[..i];
        pool := EndPrepare(pool, streams[i]);
      }
      assert streams[..|streams|] == streams;
      streams := [];
      abortPrepare := true;
    }

    /** The lock-held beginning of a turn; `goOn` says that a buffer is to be allocated. */
    method BeginTurn() returns (again: bool, goOn: bool)
      requires prepareRunning && place.AtTop?
      modifies this
      ensures Model() == Turn(old(Model())) && (goOn <==> place.Allocating?) && (again <==> prepareRunning)
    {
      again, goOn := true, false;
      if preparedStream.None? {
        if streams == [] {
          prepareRunning := false;
          return false, false;
        }
        preparedStream := Some(streams[0]);
        streams := streams[1..];
      } else if abortPrepare {
        pool := EndPrepare(pool, preparedStream.value);
        preparedStream := None;
        abortPrepare := false;
        return true, false;
      }
      place := Allocating;
      goOn := true;
    }

    /** The rest of a turn without the lock; `done` says that the stream is finished. */
    method AllocateBuffer(alloc: Option<int>) returns (done: bool)
      requires place.Allocating? && preparedStream.Some? && preparedStream.value in pool
      modifies this`pool, this`place
      ensures Model() == Allocate(old(Model()), alloc) && (done <==> place.Finishing?)
    {
      var id := preparedStream.value;
      var o := Pool.PrepareBuffer(pool[id], alloc);
      hide Pool.PrepareBuffer;
      pool := pool[id := o.s];
      if o.code.ENODATA? {
        place := AtTop;
        return false;
      }
      if !o.code.OK? {
        pool := EndPrepare(pool, id);
      }
      place := Finishing;
      return true;
    }

    method FinishTurn()
      requires place.Finishing? && preparedStream.Some?
      modifies this`preparedStream, this`callbacks, this`place
      ensures Model() == Finish(old(Model()))
    {
      callbacks := callbacks + [preparedStream.value];
      preparedStream := None;
      place := AtTop;
    }
  }
}
