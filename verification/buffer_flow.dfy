/** The buffers of all streams from the pool to the client and back: the request worker takes
    them, the table of in-flight requests hands over what the HAL returns, the client gives
    them back. Every call a stream sees on the way is one its pool can expect. */
module BufferFlow {
  import opened Wrappers
  import opened InFlightTable
  import opened InFlightConservation
  import Pool = StreamPool

  // ----- what one event does to the table

  lemma SendGrows(t: Table, metadata: Metadata, r: Pending, collected: Metadata, f: uint32)
    ensures t.out <= SendCaptureResult(t, metadata, r, collected, f).out
  {
    hide Composed;
  }

  lemma RemoveGrows(t: Table, f: uint32)
    requires f in t.pending
    ensures t.out <= RemovePendingRequest(t, f).out
  {
    hide Deliveries, AnyFailed;
  }

  lemma RecordedGrows(t: Table, r: Pending, res: HalResult)
    ensures t.out <= Recorded(t, r, res).out && res.frame in Recorded(t, r, res).pending
  {
    hide SendCaptureResult, NoteFinal, Deliveries, AnyFailed, Delivered;
    var t1, r1 := t.Put(res.frame, NoteFinal(t.config, r, res)), NoteFinal(t.config, r, res);
    SendGrows(t1, FinalPayload(res), r1, Collected(t.config, r, res), res.frame);
    RecordedEffect(t, r, res);
  }

  lemma ShutterTakenGrows(t: Table, f: uint32, ts: int)
    requires f in t.pending
    ensures t.out <= ShutterTaken(t, f, ts).out
  {
    hide SendCaptureResult, Deliveries, AnyFailed;
    var r := t.pending[f].(shutterTS := ts);
    var t1 := t.Emit(ShutterCallback(f, ts)).(nextShutter := Wrap32(f + 1)).Put(f, r);
    SendGrows(t1, r.pendingMetadata, r, r.composedResult, f);
  }

  lemma ResultGrows(t: Table, res: HalResult)
    ensures t.out <= HandleCaptureResult(t, res).out
  {
    hide Recorded, RemovePendingRequest, NotePartial, NoteFinal;
    if res.frame in t.pending {
      var t1 := Noted(t, res);
      RecordedGrows(t1, t1.pending[res.frame], res);
      RemoveGrows(Recorded(t1, t1.pending[res.frame], res), res.frame);
    }
  }

  /** An event only adds to what left the table. */
  lemma StepGrows(t: Table, e: InFlightTable.Event)
    ensures t.out <= Step(t, e).out
  {
    hide HandleCaptureResult, ShutterTaken, RemovePendingRequest;
    if e.ResultArrived? { ResultGrows(t, e.result); }
    if e.ShutterArrived? && e.frame in t.pending {
      ShutterTakenGrows(t, e.frame, e.timestamp);
      RemoveGrows(ShutterTaken(t, e.frame, e.timestamp), e.frame);
    }
  }

  function Suffix(a: seq<Output>, b: seq<Output>): (d: seq<Output>)
    requires a <= b
    ensures a + d == b
  {
    b[|a|..]
  }

  /** What leaves the table in an event. */
  function NewOutputs(t: Table, e: InFlightTable.Event): seq<Output> {
    StepGrows(t, e);
    Suffix(t.out, Step(t, e).out)
  }

  /** The buffers held back for a frame. */
  function Held(t: Table, f: uint32): multiset<Buffer> {
    if f in t.pending then multiset(t.pending[f].pendingBuffers) else multiset{}
  }

  /** The buffers of frame `f` that an event brings and the table keeps. */
  function Brought(t: Table, e: InFlightTable.Event, f: uint32): multiset<Buffer> {
    if e.ResultArrived? && !Keeps(t, e.result) then multiset{} else ReturnedBy(e, f)
  }

  /** What an event hands out for a frame was held back for it or comes with the event; the rest
      of both is held back. */
  lemma HandedOrHeld(t: Table, e: InFlightTable.Event, f: uint32)
    ensures multiset(Delivered(NewOutputs(t, e), f)) + Held(Step(t, e), f) == Held(t, f) + Brought(t, e, f)
  {
    hide Step, Delivered, Keeps, ReturnedBy;
    StepGrows(t, e);
    var d, t' := NewOutputs(t, e), Step(t, e);
    assert t.out + d == t'.out;
    StepGot(t, e, f);
    DeliveredConcat(t.out, d, f);
    var was, more := multiset(Delivered(t.out, f)), multiset(Delivered(d, f));
    assert Got(t', f) == was + more + Held(t', f) && Got(t, f) == was + Held(t, f);
    Cancel(was, more, Held(t', f), Held(t, f), Brought(t, e, f));
  }

  lemma Cancel(a: multiset<Buffer>, b: multiset<Buffer>, c: multiset<Buffer>, d: multiset<Buffer>,
      e: multiset<Buffer>)
    requires a + b + c == a + d + e
    ensures b + c == d + e
  {
    forall x ensures (b + c)[x] == (d + e)[x] {
      assert (a + b + c)[x] == a[x] + b[x] + c[x] && (a + d + e)[x] == a[x] + d[x] + e[x];
    }
  }

  /** The buffers the HAL still owes for a frame; a frame that left the table is owed none. */
  function Owed(t: Table, f: uint32): int {
    if f in t.pending then t.pending[f].buffersRemaining else 0
  }

  lemma RemoveOwes(t: Table, f: uint32, g: uint32)
    requires f in t.pending
    ensures Owed(RemovePendingRequest(t, f), g) == Owed(t, g)
    ensures g in RemovePendingRequest(t, f).pending ==> g in t.pending
  {
    hide Deliveries, AnyFailed;
  }

  lemma RecordedOwes(t: Table, r: Pending, res: HalResult, g: uint32)
    ensures Owed(Recorded(t, r, res), g)
            == if g == res.frame then r.buffersRemaining - BuffersIn(res) else Owed(t, g)
    ensures g != res.frame && g in Recorded(t, r, res).pending ==> g in t.pending
  {
    hide Recorded, Delivered, AnyFailed;
    RecordedEffect(t, r, res);
    if g != res.frame { RecordedUntouched(t, r, res, g); }
  }

  lemma NotedOwes(t: Table, res: HalResult, g: uint32)
    requires res.frame in t.pending
    ensures Owed(Noted(t, res), g) == Owed(t, g)
    ensures g in Noted(t, res).pending <==> g in t.pending
  {
  }

  lemma SettleOwes(t: Table, res: HalResult, g: uint32)
    requires res.frame in t.pending
    ensures Owed(Settle(t, t.pending[res.frame], res), g)
            >= Owed(t, g) - if g == res.frame then BuffersIn(res) else 0
    ensures g in Settle(t, t.pending[res.frame], res).pending ==> g in t.pending
  {
    hide Recorded, RemovePendingRequest;
    var r := t.pending[res.frame];
    RecordedOwes(t, r, res, g);
    RecordedGrows(t, r, res);
    RemoveOwes(Recorded(t, r, res), res.frame, g);
  }

  lemma ResultOwes(t: Table, res: HalResult, g: uint32)
    ensures Owed(HandleCaptureResult(t, res), g) >= Owed(t, g) - if g == res.frame then BuffersIn(res) else 0
    ensures g in HandleCaptureResult(t, res).pending ==> g in t.pending
  {
    hide Settle, NotePartial;
    if res.frame in t.pending {
      NotedOwes(t, res, g);
      SettleOwes(Noted(t, res), res, g);
      if Readable(t.config, res) && PartialInRange(t.config, res) { NotedKeeps(t, res); }
    }
  }

  lemma ShutterTakenOwes(t: Table, f: uint32, ts: int, g: uint32)
    requires f in t.pending
    ensures Owed(ShutterTaken(t, f, ts), g) == Owed(t, g)
    ensures g in ShutterTaken(t, f, ts).pending ==> g in t.pending
  {
    hide SendCaptureResult, Deliveries, AnyFailed, Delivered;
    var r := t.pending[f].(shutterTS := ts);
    var t1 := t.Emit(ShutterCallback(f, ts)).(nextShutter := Wrap32(f + 1)).Put(f, r);
    SendUntouched(t1, r.pendingMetadata, r, r.composedResult, f, g);
  }

  /** An event lowers what a frame is owed by no more than it brings. */
  lemma StepOwes(t: Table, e: InFlightTable.Event, g: uint32)
    requires e.ResultArrived? ==> !e.result.inputBuffer
    requires !e.Registered?
    ensures Owed(Step(t, e), g)
            >= Owed(t, g) - if e.ResultArrived? && e.result.frame == g then |e.result.outputBuffers| else 0
    ensures g in Step(t, e).pending ==> g in t.pending
  {
    hide HandleCaptureResult, ShutterTaken, RemovePendingRequest;
    if e.ResultArrived? { ResultOwes(t, e.result, g); }
    if e.ShutterArrived? && e.frame in t.pending {
      ShutterTakenOwes(t, e.frame, e.timestamp, g);
      RemoveOwes(ShutterTaken(t, e.frame, e.timestamp), e.frame, g);
    }
  }

  // ----- the system

  datatype Key = Key(frame: uint32, stream: int)

  /** Where a buffer that was taken for a frame is: with the request, at the HAL, held back by the
      table, dropped with a result the table did not keep, given back for a request the HAL
      refused, or handed over and then with the client or back in the pool. */
  datatype Place = Taken | AtHal | InTable | Dropped | GivenBack | WithClient | BackInPool

  predicate Out(p: Place) { !p.GivenBack? && !p.BackInPool? }

  predicate HandedOver(p: Place) { p.WithClient? || p.BackInPool? }

  /** A buffer taken: the handle the stream gave, and where it is now. */
  datatype Loan = Loan(handle: int, place: Place)

  datatype Handing = Handing(key: Key, handle: int)

  /** A stream, and as history its first state and the calls made to it. */
  datatype Traced = Traced(first: Pool.Stream, calls: seq<Pool.Call>, now: Pool.Stream)

  /** The request in the worker's hands: it wants a buffer of each of these streams, in order. */
  datatype Work = Work(frame: uint32, wanted: seq<int>, got: nat, waiting: bool)

  /** `used`, `loans` and `log`, the buffers handed to the client, are history. */
  datatype System = System(
    table: Table, streams: map<int, Traced>, work: Option<Work>,
    used: set<uint32>, loans: map<Key, Loan>, log: seq<Handing>)

  /** Streams of the given usages and buffer counts, and an empty table. */
  function Start(config: Config, sizes: map<int, (int, nat)>): System {
    System(EmptyTable(config),
           map id | id in sizes ::
             var s := Pool.NewStream(true, sizes[id].0, sizes[id].1);
             Traced(s, [], s),
           None, {}, map[], [])
  }

  function Called(y: System, id: int, c: Pool.Call): System
    requires id in y.streams
  {
    var l := y.streams[id];
    y.(streams := y.streams[id := Traced(l.first, l.calls + [c], Pool.Step(l.now, c).s)])
  }

  function Moved(loans: map<Key, Loan>, key: Key, place: Place): map<Key, Loan> {
    if key in loans then loans[key := loans[key].(place := place)] else loans
  }

  /** `wanted` has a stream left to ask. */
  predicate Asking(y: System, waiting: bool) {
    && y.work.Some? && y.work.value.got < |y.work.value.wanted|
    && y.work.value.wanted[y.work.value.got] in y.streams && y.work.value.waiting == waiting
  }

  /** The worker asks for a buffer, or goes on asking after a wait. A request that gets none from
      some stream is skipped, with what it took so far. */
  function Ask(y: System, c: Pool.Call): System
    requires y.work.Some? && Asking(y, y.work.value.waiting)
  {
    var w := y.work.value;
    var id := w.wanted[w.got];
    var o, y1 := Pool.Step(y.streams[id].now, c), Called(y, id, c);
    if o.code.OK? then
      y1.(loans := y.loans[Key(w.frame, id) := Loan(o.handle, Taken)],
          work := Some(w.(got := w.got + 1, waiting := false)))
    else if o.code.WAITING? then y1.(work := Some(w.(waiting := true)))
    else y1.(work := None)
  }

  /** The request goes to the table, and with its buffers to the HAL. */
  function Send(y: System, requestId: int): System
    requires y.work.Some?
  {
    var w := y.work.value;
    y.(work := None, table := Register(y.table, w.frame, |w.wanted|, requestId),
       loans := map k | k in y.loans ::
         if k.frame == w.frame then y.loans[k].(place := AtHal) else y.loans[k])
  }

  predicate HasStream(buffers: seq<Buffer>, id: int) { exists b :: b in buffers && b.streamId == id }

  /** The loans once a result has come back from the HAL. */
  function Returns(loans: map<Key, Loan>, res: HalResult, kept: bool): map<Key, Loan> {
    map k | k in loans ::
      if k.frame == res.frame && HasStream(res.outputBuffers, k.stream)
      then loans[k].(place := if kept then InTable else Dropped) else loans[k]
  }

  function LoansAfter(t: Table, loans: map<Key, Loan>, e: InFlightTable.Event): map<Key, Loan> {
    if e.ResultArrived? then Returns(loans, e.result, Keeps(t, e.result)) else loans
  }

  /** A buffer leaves the table for its stream, which hands it to the client or, if it failed,
      takes it back itself. */
  function Hand(y: System, o: Output): System {
    if !o.BufferToClient? || o.buffer.streamId !in y.streams then y
    else
      var key := Key(o.frame, o.buffer.streamId);
      var h := Pool.HandToClient(y.streams[key.stream].now, key.frame).handle;
      var y1 := Called(y, key.stream, Pool.HandedToClient(key.frame)).(log := y.log + [Handing(key, h)]);
      if o.buffer.ok then y1.(loans := Moved(y.loans, key, WithClient))
      else Called(y1, key.stream, Pool.BufferReturned(h)).(loans := Moved(y.loans, key, BackInPool))
  }

  function HandAll(y: System, outputs: seq<Output>): System {
    if outputs == [] then y else Hand(HandAll(y, outputs[..|outputs| - 1]), outputs[|outputs| - 1])
  }

  /** An event of the HAL: the table takes it, and what leaves the table goes to the streams. */
  function Arrive(y: System, e: InFlightTable.Event): System {
    HandAll(y.(table := Step(y.table, e),
               loans := LoansAfter(y.table, y.loans, e)),
            NewOutputs(y.table, e))
  }

  /** `Refused`: the handler gives back the buffer of a request the HAL did not accept. `Called`
      is any call of a stream that is about no frame. */
  datatype SystemEvent =
    | Began(frame: uint32, wanted: seq<int>) | Asked(pick: int, alloc: Option<int>)
    | WokenUp(pick: int, alloc: Option<int>) | GaveUp | SentToHal(requestId: int) | Refused(key: Key)
    | Arrived(event: InFlightTable.Event) | ClientReturned(key: Key) | StreamCalled(id: int, call: Pool.Call)

  function SystemStep(y: System, e: SystemEvent): System {
    match e
    case Began(f, wanted) =>
      if y.work.Some? then y else y.(work := Some(Work(f, wanted, 0, false)), used := y.used + {f})
    case Asked(pick, alloc) =>
      if Asking(y, false) then Ask(y, Pool.BufferTaken(y.work.value.frame, pick, alloc)) else y
    case WokenUp(pick, alloc) =>
      if Asking(y, true) then Ask(y, Pool.WaiterWoken(y.work.value.frame, pick, alloc)) else y
    case GaveUp =>
      if Asking(y, true)
      then Called(y, y.work.value.wanted[y.work.value.got], Pool.WaiterTimedOut).(work := None) else y
    case SentToHal(requestId) =>
      if y.work.Some? && y.work.value.got == |y.work.value.wanted| then Send(y, requestId) else y
    case Refused(key) =>
      if key.stream !in y.streams then y
      else Called(y, key.stream, Pool.Unsubmitted(key.frame)).(loans := Moved(y.loans, key, GivenBack))
    case Arrived(event) => Arrive(y, event)
    case ClientReturned(key) =>
      if key !in y.loans || key.stream !in y.streams then y
      else
        Called(y, key.stream, Pool.BufferReturned(y.loans[key].handle)).(loans := Moved(y.loans, key, BackInPool))
    case StreamCalled(id, c) => if id in y.streams then Called(y, id, c) else y
  }

  function SystemRun(y: System, events: seq<SystemEvent>): System {
    if events == [] then y else SystemStep(SystemRun(y, events[..|events| - 1]), events[|events| - 1])
  }

  predicate At(loans: map<Key, Loan>, key: Key, place: Place) { key in loans && loans[key].place == place }

  predicate OneEach(buffers: seq<Buffer>) {
    forall i, j :: 0 <= i < j < |buffers| ==> buffers[i].streamId != buffers[j].streamId
  }

  /** What is asked of each of the other parties on its own. The scheduler gives no frame number
      twice and no stream twice to a request; the allocator and whoever configures and prepares
      a stream do as its pool asks; the HAL returns buffers that it has, once, and keeps those of
      a request it refuses; the client returns buffers that it has. */
  predicate FairEvent(y: System, e: SystemEvent) {
    match e
    case Began(f, wanted) =>
      f !in y.used && Pool.Distinct(wanted) && forall k :: 0 <= k < |wanted| ==> wanted[k] in y.streams
    case Asked(pick, alloc) =>
      Asking(y, false) ==> Pool.FairChoice(y.streams[y.work.value.wanted[y.work.value.got]].now, pick, alloc)
    case WokenUp(pick, alloc) =>
      Asking(y, true) ==> Pool.FairChoice(y.streams[y.work.value.wanted[y.work.value.got]].now, pick, alloc)
    case Refused(key) => At(y.loans, key, AtHal)
    case Arrived(event) => !event.Registered? && (event.ResultArrived? ==> HalHas(y.loans, event.result))
    case ClientReturned(key) => At(y.loans, key, WithClient)
    case StreamCalled(id, c) => FramelessCall(c) && (id in y.streams ==> Pool.Fair(y.streams[id].now, c))
    case _ => true
  }

  predicate HalHas(loans: map<Key, Loan>, res: HalResult) {
    && !res.inputBuffer && OneEach(res.outputBuffers)
    && forall b :: b in res.outputBuffers ==> At(loans, Key(res.frame, b.streamId), AtHal)
  }

  predicate FramelessCall(c: Pool.Call) {
    c.ConfigureBegun? || c.ConfigureEnded? || c.ConfigureAborted? || c.PrepareBegun? || c.BufferPrepared?
    || c.PrepareEnded? || c.Closed? || c.TornDown?
  }

  predicate FairSystemRun(y: System, events: seq<SystemEvent>) {
    forall k :: 0 <= k < |events| ==> FairEvent(SystemRun(y, events[..k]), events[k])
  }

  // ----- streams and loans agree

  /** The calls of a stream so far, each with a frame, or a handle, its pool can expect. */
  ghost predicate LineOk(l: Traced) {
    l.first == Pool.NewStream(true, l.first.usage, l.first.maxBuffers)
    && Pool.OrderlyRun(l.first, l.calls) && l.now == Pool.Run(l.first, l.calls) && Pool.FlightOk(l.now)
  }

  /** The frames whose buffer is out of the stream are exactly those with such a loan. */
  ghost predicate StreamLoans(s: Pool.Stream, loans: map<Key, Loan>, id: int) {
    && (forall g :: g in s.inFlight ==>
          0 <= g < TWO_TO_THE_32 && Key(g, id) in loans && Out(loans[Key(g, id)].place)
          && loans[Key(g, id)].handle == s.inFlight[g])
    && (forall k :: k in loans && k.stream == id && Out(loans[k].place) ==> k.frame in s.inFlight)
  }

  /** The client got exactly the buffers that count as handed over, each once and with the handle
      that was taken. */
  ghost predicate LogOk(log: seq<Handing>, loans: map<Key, Loan>) {
    && (forall i :: 0 <= i < |log| ==>
          && log[i].key in loans && HandedOver(loans[log[i].key].place)
          && log[i].handle == loans[log[i].key].handle)
    && (forall i, j :: 0 <= i < j < |log| ==> log[i].key != log[j].key)
    && (forall k :: k in loans && HandedOver(loans[k].place) ==> exists i :: 0 <= i < |log| && log[i].key == k)
  }

  ghost predicate CoreOk(y: System) {
    && (forall id :: id in y.streams ==> LineOk(y.streams[id]) && StreamLoans(y.streams[id].now, y.loans, id))
    && (forall k :: k in y.loans ==> k.stream in y.streams)
    && LogOk(y.log, y.loans)
  }

  lemma LineCalled(l: Traced, c: Pool.Call)
    requires LineOk(l) && Pool.Orderly(l.now, c)
    ensures LineOk(Traced(l.first, l.calls + [c], Pool.Step(l.now, c).s))
  {
    hide Pool.FlightOk, Pool.Orderly, Pool.Step;
    var calls := l.calls + [c];
    assert calls[..|l.calls|] == l.calls;
    forall k | 0 <= k < |calls| ensures Pool.Orderly(Pool.Run(l.first, calls[..k]), calls[k]) {
      if k < |l.calls| { assert calls[..k] == l.calls[..k]; }
    }
    Pool.StepFlight(l.now, c);
  }

  /** Loans of other streams are the same in both. */
  ghost predicate SameElsewhere(loans: map<Key, Loan>, loans': map<Key, Loan>, id: int) {
    forall k: Key :: k.stream != id ==>
      (k in loans' <==> k in loans) && (k in loans ==> loans'[k] == loans[k])
  }

  lemma ElsewhereKept(s: Pool.Stream, loans: map<Key, Loan>, loans': map<Key, Loan>, id: int, other: int)
    requires StreamLoans(s, loans, other) && SameElsewhere(loans, loans', id) && other != id
    ensures StreamLoans(s, loans', other)
  {
  }

  /** A step of one stream, with its loans. */
  lemma CommitStream(y: System, y': System, id: int)
    requires CoreOk(y) && id in y.streams && id in y'.streams && y'.streams == y.streams[id := y'.streams[id]]
    requires LineOk(y'.streams[id]) && StreamLoans(y'.streams[id].now, y'.loans, id)
    requires SameElsewhere(y.loans, y'.loans, id) && LogOk(y'.log, y'.loans)
    ensures CoreOk(y')
  {
    hide LineOk, LogOk, StreamLoans;
    forall other | other in y'.streams && other != id ensures StreamLoans(y'.streams[other].now, y'.loans, other) {
      ElsewhereKept(y.streams[other].now, y.loans, y'.loans, id, other);
    }
    forall k | k in y'.loans ensures k.stream in y'.streams {
      if k.stream != id { assert k in y.loans; }
    }
  }

  /** No loan is handed over or forgotten. */
  ghost predicate SameHandings(loans: map<Key, Loan>, loans': map<Key, Loan>) {
    && (forall k :: k in loans ==>
          k in loans' && loans'[k].handle == loans[k].handle
          && (HandedOver(loans'[k].place) <==> HandedOver(loans[k].place)))
    && (forall k :: k in loans' && k !in loans ==> !HandedOver(loans'[k].place))
  }

  lemma LogKept(log: seq<Handing>, loans: map<Key, Loan>, loans': map<Key, Loan>)
    requires LogOk(log, loans) && SameHandings(loans, loans')
    ensures LogOk(log, loans')
  {
  }

  /** A stream takes back the buffer of a loan. */
  lemma LoanEnds(s: Pool.Stream, t: Pool.Stream, loans: map<Key, Loan>, key: Key, place: Place)
    requires Pool.FlightOk(s) && StreamLoans(s, loans, key.stream)
    requires key in loans && Out(loans[key].place) && !Out(place)
    requires t.inFlight == Pool.Without(s.inFlight, loans[key].handle)
    ensures StreamLoans(t, Moved(loans, key, place), key.stream)
  {
    hide Pool.FlightOk, Pool.Without;
    assert s.inFlight[key.frame] == loans[key].handle;
    forall g | g in s.inFlight
      ensures g in t.inFlight <==> g != key.frame
      ensures g in t.inFlight ==> t.inFlight[g] == s.inFlight[g]
    {
      Pool.WithoutSays(s.inFlight, loans[key].handle, g);
      Pool.FlightInjective(s, g, key.frame);
    }
    assert forall g :: g in t.inFlight ==> g in s.inFlight by { WithoutKeys(s.inFlight, loans[key].handle); }
  }

  lemma WithoutKeys(inFlight: map<int, int>, h: int)
    ensures forall g :: g in Pool.Without(inFlight, h) ==> g in inFlight
  {
  }

  /** What the agreement says of one loan that is out. */
  lemma LoanIsOut(y: System, key: Key)
    requires CoreOk(y) && key in y.loans && Out(y.loans[key].place)
    ensures key.stream in y.streams
    ensures var s := y.streams[key.stream].now;
            && Pool.FlightOk(s) && key.frame in s.inFlight && s.inFlight[key.frame] == y.loans[key].handle
            && Pool.Orderly(s, Pool.BufferReturned(y.loans[key].handle)) && Pool.Orderly(s, Pool.Unsubmitted(key.frame))
            && Pool.Orderly(s, Pool.HandedToClient(key.frame))
  {
    hide CoreOk, LineOk, Pool.PoolOk;
    assert key.stream in y.streams by { LoanHasStream(y, key); }
    LineAgrees(y, key.stream);
  }

  lemma LoanHasStream(y: System, key: Key)
    requires CoreOk(y) && key in y.loans
    ensures key.stream in y.streams
  {
  }

  lemma LineAgrees(y: System, id: int)
    requires CoreOk(y) && id in y.streams
    ensures LineOk(y.streams[id]) && Pool.FlightOk(y.streams[id].now)
    ensures StreamLoans(y.streams[id].now, y.loans, id)
  {
  }

  lemma BackEffect(s: Pool.Stream, frame: int, c: Pool.Call)
    requires Pool.FlightOk(s) && frame in s.inFlight && Pool.Orderly(s, c)
    requires c == Pool.Unsubmitted(frame) || c == Pool.BufferReturned(s.inFlight[frame])
    ensures Pool.Step(s, c).s.inFlight == Pool.Without(s.inFlight, s.inFlight[frame])
  {
    hide Pool.FlightOk, Pool.Without, Pool.ReturnBufferLocked, Pool.ReturnUnsubmitted;
    if c.Unsubmitted? { Pool.UnsubmittedFlight(s, frame); } else { Pool.FlightReturns(s, c.handle); }
  }

  lemma MoveKeeps(y: System, key: Key, place: Place)
    requires CoreOk(y) && key in y.loans && (HandedOver(y.loans[key].place) <==> HandedOver(place))
    ensures var loans' := Moved(y.loans, key, place);
            SameElsewhere(y.loans, loans', key.stream) && LogOk(y.log, loans')
  {
    hide CoreOk, LogOk;
    CoreLog(y);
    LogKept(y.log, y.loans, Moved(y.loans, key, place));
  }

  /** A buffer comes back to the pool, from the client, from the handler or from the stream. */
  lemma BackOk(y: System, key: Key, c: Pool.Call, place: Place)
    requires CoreOk(y) && key in y.loans && Out(y.loans[key].place) && !Out(place)
    requires HandedOver(y.loans[key].place) <==> HandedOver(place)
    requires c == Pool.Unsubmitted(key.frame) || c == Pool.BufferReturned(y.loans[key].handle)
    ensures key.stream in y.streams && Pool.Orderly(y.streams[key.stream].now, c)
    ensures CoreOk(Called(y, key.stream, c).(loans := Moved(y.loans, key, place)))
  {
    hide CoreOk, LineOk, Pool.FlightOk, Pool.Orderly, Pool.Step, StreamLoans, LogOk, Out, HandedOver, Moved;
    LoanIsOut(y, key);
    LineAgrees(y, key.stream);
    var l := y.streams[key.stream];
    LineCalled(l, c);
    BackEffect(l.now, key.frame, c);
    LoanEnds(l.now, Pool.Step(l.now, c).s, y.loans, key, place);
    MoveKeeps(y, key, place);
    CommitStream(y, Called(y, key.stream, c).(loans := Moved(y.loans, key, place)), key.stream);
  }

  /** A stream's call about no frame. */
  lemma FramelessOk(y: System, id: int, c: Pool.Call)
    requires CoreOk(y) && id in y.streams && FramelessCall(c) && Pool.Fair(y.streams[id].now, c)
    ensures Pool.Orderly(y.streams[id].now, c) && CoreOk(Called(y, id, c))
  {
    hide CoreOk, LineOk, Pool.FlightOk, Pool.Fair, Pool.Step, LogOk;
    LineAgrees(y, id);
    var l := y.streams[id];
    LineCalled(l, c);
    Pool.QuietKeepsFlight(l.now, c);
    CoreLog(y);
    CommitStream(y, Called(y, id, c), id);
  }

  lemma CoreLog(y: System)
    requires CoreOk(y)
    ensures LogOk(y.log, y.loans)
  {
  }

  lemma GaveUpOk(y: System, id: int)
    requires CoreOk(y) && id in y.streams
    ensures CoreOk(Called(y, id, Pool.WaiterTimedOut))
  {
    hide CoreOk, LineOk, Pool.FlightOk, LogOk;
    LineAgrees(y, id);
    var l := y.streams[id];
    LineCalled(l, Pool.WaiterTimedOut);
    CoreLog(y);
    CommitStream(y, Called(y, id, Pool.WaiterTimedOut), id);
  }

  // ----- taking

  /** Asking a stream for a frame whose buffer is not out gives at most that one. */
  lemma AskEffect(s: Pool.Stream, c: Pool.Call)
    requires Pool.FlightOk(s) && Pool.Orderly(s, c) && (c.BufferTaken? || c.WaiterWoken?)
    ensures var o := Pool.Step(s, c);
            o.s.inFlight == if o.code.OK? then s.inFlight[c.frame := o.handle] else s.inFlight
  {
    hide Pool.GetBufferLocked, Pool.Busy, Pool.Matched;
    if c.WaiterWoken? && s.parked > 0 { Pool.WokenEffect(s, c.frame, c.pick, c.alloc); }
    if c.BufferTaken? && s.status.CONFIGURED? { Pool.TakeEffect(s, c.frame, c.pick, c.alloc); }
    hide Pool.PoolOk;
  }

  lemma NotLoanedNotOut(y: System, id: int, frame: uint32)
    requires CoreOk(y) && id in y.streams && Key(frame, id) !in y.loans
    ensures frame !in y.streams[id].now.inFlight
  {
    LineAgrees(y, id);
    hide LineOk, Pool.FlightOk;
  }

  lemma LoanAdded(y: System, id: int, frame: uint32, h: int, t: Pool.Stream)
    requires CoreOk(y) && id in y.streams && Key(frame, id) !in y.loans
    requires t.inFlight == y.streams[id].now.inFlight[frame := h]
    ensures var loans' := y.loans[Key(frame, id) := Loan(h, Taken)];
            StreamLoans(t, loans', id) && SameElsewhere(y.loans, loans', id) && LogOk(y.log, loans')
  {
    hide CoreOk, LineOk, Pool.FlightOk, LogOk;
    LineAgrees(y, id);
    CoreLog(y);
    LogKept(y.log, y.loans, y.loans[Key(frame, id) := Loan(h, Taken)]);
  }

  lemma AskOk(y: System, c: Pool.Call)
    requires CoreOk(y) && y.work.Some? && Asking(y, y.work.value.waiting)
    requires var w := y.work.value; Key(w.frame, w.wanted[w.got]) !in y.loans
    requires var w := y.work.value;
             && (c.BufferTaken? || c.WaiterWoken?) && c.frame == w.frame
             && Pool.FairChoice(y.streams[w.wanted[w.got]].now, c.pick, c.alloc)
    ensures var w := y.work.value; Pool.Orderly(y.streams[w.wanted[w.got]].now, c)
    ensures CoreOk(Ask(y, c))
  {
    hide CoreOk, LineOk, Pool.FlightOk, Pool.Step, LogOk, StreamLoans, Pool.FairChoice;
    var w := y.work.value;
    var id := w.wanted[w.got];
    var l := y.streams[id];
    LineAgrees(y, id);
    NotLoanedNotOut(y, id, w.frame);
    LineCalled(l, c);
    AskEffect(l.now, c);
    CoreLog(y);
    var o := Pool.Step(l.now, c);
    if o.code.OK? {
      LoanAdded(y, id, w.frame, o.handle, o.s);
    } else {
      SameFlight(l.now, o.s, y.loans, id);
    }
    CommitStream(y, Ask(y, c), id);
  }

  lemma SameFlight(s: Pool.Stream, t: Pool.Stream, loans: map<Key, Loan>, id: int)
    requires StreamLoans(s, loans, id) && t.inFlight == s.inFlight
    ensures StreamLoans(t, loans, id)
  {
  }

  // ----- handing over

  /** The first half of a hand-over: the stream gives the client the handle that was taken. */
  lemma HandedOk(y: System, key: Key, place: Place)
    requires CoreOk(y) && At(y.loans, key, InTable) && place.WithClient?
    ensures key.stream in y.streams && Pool.Orderly(y.streams[key.stream].now, Pool.HandedToClient(key.frame))
    ensures var h := Pool.HandToClient(y.streams[key.stream].now, key.frame).handle;
            && h == y.loans[key].handle
            && CoreOk(Called(y, key.stream, Pool.HandedToClient(key.frame))
                      .(log := y.log + [Handing(key, h)], loans := Moved(y.loans, key, place)))
  {
    hide CoreOk, LineOk, Pool.FlightOk, Pool.Orderly, Pool.HandToClient, LogOk;
    var c := Pool.HandedToClient(key.frame);
    LoanIsOut(y, key);
    LineAgrees(y, key.stream);
    var l := y.streams[key.stream];
    LineCalled(l, c);
    Pool.HandedFlight(l.now, key.frame);
    Pool.HandKeepsFlight(l.now, key.frame);
    var h := y.loans[key].handle;
    CoreLog(y);
    LogGrows(y.log, y.loans, key, place);
    CommitStream(y, Called(y, key.stream, c).(log := y.log + [Handing(key, h)], loans := Moved(y.loans, key, place)),
                 key.stream);
  }

  lemma LogGrows(log: seq<Handing>, loans: map<Key, Loan>, key: Key, place: Place)
    requires LogOk(log, loans) && key in loans && !HandedOver(loans[key].place) && HandedOver(place)
    ensures LogOk(log + [Handing(key, loans[key].handle)], Moved(loans, key, place))
  {
    var log', loans' := log + [Handing(key, loans[key].handle)], Moved(loans, key, place);
    forall k | k in loans' && HandedOver(loans'[k].place) ensures exists i :: 0 <= i < |log'| && log'[i].key == k {
      if k == key {
        assert log'[|log|].key == k;
      } else {
        var i :| 0 <= i < |log| && log[i].key == k;
        assert log'[i].key == k;
      }
    }
  }

  /** What the outputs hand over is held back by the table, each buffer once. */
  ghost predicate Deliverable(loans: map<Key, Loan>, outputs: seq<Output>) {
    forall g: uint32 ::
      && OneEachIn(multiset(Delivered(outputs, g)))
      && forall b :: b in Delivered(outputs, g) ==> At(loans, Key(g, b.streamId), InTable)
  }

  /** No two of the buffers are of one stream. */
  ghost predicate OneEachIn(m: multiset<Buffer>) {
    && (forall b :: b in m ==> m[b] == 1)
    && (forall b, c :: b in m && c in m && b.streamId == c.streamId ==> b == c)
  }

  predicate HandsOver(outputs: seq<Output>, k: Key) {
    HasStream(Delivered(outputs, k.frame), k.stream)
  }

  /** The loans after the outputs: those handed over are with the client or back, the others are
      as they were. */
  ghost predicate LoansHanded(loans: map<Key, Loan>, loans': map<Key, Loan>, outputs: seq<Output>) {
    && (forall k :: k in loans' <==> k in loans)
    && (forall k :: k in loans ==>
          if HandsOver(outputs, k)
          then loans'[k].handle == loans[k].handle && HandedOver(loans'[k].place)
          else loans'[k] == loans[k])
  }

  /** An output whose buffer the table held back is a hand-over the stream can expect. */
  lemma HandOk(y: System, o: Output)
    requires CoreOk(y)
    requires o.BufferToClient? ==> At(y.loans, Key(o.frame, o.buffer.streamId), InTable)
    ensures var y' := Hand(y, o);
            && CoreOk(y') && y' == y.(streams := y'.streams, loans := y'.loans, log := y'.log)
            && y'.streams.Keys == y.streams.Keys
    ensures o.BufferToClient? ==>
              var key := Key(o.frame, o.buffer.streamId);
              && key.stream in y.streams
              && Pool.Orderly(y.streams[key.stream].now, Pool.HandedToClient(key.frame))
              && Hand(y, o).loans == Moved(y.loans, key, if o.buffer.ok then WithClient else BackInPool)
    ensures !o.BufferToClient? ==> Hand(y, o).loans == y.loans
  {
    hide CoreOk, Pool.Orderly, Pool.Step, Pool.HandToClient;
    if o.BufferToClient? {
      var key := Key(o.frame, o.buffer.streamId);
      HandedOk(y, key, WithClient);
      if !o.buffer.ok {
        var h := Pool.HandToClient(y.streams[key.stream].now, key.frame).handle;
        var y1 := Called(y, key.stream, Pool.HandedToClient(key.frame))
                  .(log := y.log + [Handing(key, h)], loans := Moved(y.loans, key, WithClient));
        BackOk(y1, key, Pool.BufferReturned(h), BackInPool);
        assert Moved(y1.loans, key, BackInPool) == Moved(y.loans, key, BackInPool);
      }
    }
  }

  lemma {:induction false} HandAllOk(y: System, outputs: seq<Output>)
    requires CoreOk(y) && Deliverable(y.loans, outputs)
    ensures var y' := HandAll(y, outputs);
            && CoreOk(y') && y' == y.(streams := y'.streams, loans := y'.loans, log := y'.log)
            && y'.streams.Keys == y.streams.Keys
            && LoansHanded(y.loans, y'.loans, outputs)
  {
    hide CoreOk, Hand, LoansHanded, Deliverable, HandsOver, Pool.Orderly;
    if outputs == [] {
      NothingHanded(y.loans);
    } else {
      var init, o := outputs[..|outputs| - 1], outputs[|outputs| - 1];
      assert init + [o] == outputs;
      DeliverablePrefix(y.loans, init, o);
      HandAllOk(y, init);
      var y1 := HandAll(y, init);
      if o.BufferToClient? { StillInTable(y.loans, y1.loans, init, Key(o.frame, o.buffer.streamId)); }
      HandOk(y1, o);
      LoansHandedSnoc(y.loans, y1.loans, init, o,
                      if o.BufferToClient? && !o.buffer.ok then BackInPool else WithClient);
    }
  }

  lemma NothingHanded(loans: map<Key, Loan>)
    ensures LoansHanded(loans, loans, [])
  {
  }

  lemma StillInTable(loans: map<Key, Loan>, loans': map<Key, Loan>, outputs: seq<Output>, key: Key)
    requires LoansHanded(loans, loans', outputs) && !HandsOver(outputs, key) && At(loans, key, InTable)
    ensures At(loans', key, InTable)
  {
  }

  /** The last output hands over a buffer that the ones before it do not. */
  lemma DeliverablePrefix(loans: map<Key, Loan>, init: seq<Output>, o: Output)
    requires Deliverable(loans, init + [o])
    ensures Deliverable(loans, init)
    ensures o.BufferToClient? ==>
              && At(loans, Key(o.frame, o.buffer.streamId), InTable)
              && !HandsOver(init, Key(o.frame, o.buffer.streamId))
  {
    forall g: uint32
      ensures OneEachIn(multiset(Delivered(init, g)))
      ensures forall b :: b in Delivered(init, g) ==> At(loans, Key(g, b.streamId), InTable)
      ensures o.BufferToClient? && o.frame == g ==>
                && At(loans, Key(g, o.buffer.streamId), InTable)
                && !HasStream(Delivered(init, g), o.buffer.streamId)
    {
      DeliveredOne(init, o, g);
      var last := if o.BufferToClient? && o.frame == g then [o.buffer] else [];
      assert Delivered(init + [o], g) == Delivered(init, g) + last;
      OneEachPrefix(Delivered(init, g), last);
    }
  }

  lemma OneEachPrefix(a: seq<Buffer>, b: seq<Buffer>)
    requires OneEachIn(multiset(a + b)) && |b| <= 1
    ensures OneEachIn(multiset(a))
    ensures b != [] ==> !HasStream(a, b[0].streamId)
  {
    var m := multiset(a + b);
    assert m == multiset(a) + multiset(b);
    forall x | x in a ensures multiset(a)[x] == 1 && (b != [] ==> x.streamId != b[0].streamId) {
      assert x in m && m[x] == multiset(a)[x] + multiset(b)[x];
      if b != [] { assert b[0] in b && b[0] in m; }
    }
  }

  lemma LoansHandedSnoc(loans: map<Key, Loan>, loans1: map<Key, Loan>, init: seq<Output>, o: Output,
      place: Place)
    requires LoansHanded(loans, loans1, init) && HandedOver(place)
    requires o.BufferToClient? ==> Key(o.frame, o.buffer.streamId) in loans
    ensures LoansHanded(loans,
                        if o.BufferToClient? then Moved(loans1, Key(o.frame, o.buffer.streamId), place) else loans1,
                        init + [o])
  {
    forall k: Key
      ensures HandsOver(init + [o], k) <==>
                HandsOver(init, k) || (o.BufferToClient? && k == Key(o.frame, o.buffer.streamId))
    {
      DeliveredOne(init, o, k.frame);
    }
  }

  // ----- the table and the loans agree

  predicate HasIn(m: multiset<Buffer>, id: int) { exists b :: b in m && b.streamId == id }

  /** The table holds back exactly the buffers whose place is there, each once. */
  ghost predicate HeldOk(t: Table, loans: map<Key, Loan>) {
    forall g: uint32 ::
      OneEachIn(Held(t, g)) && forall id :: At(loans, Key(g, id), InTable) <==> HasIn(Held(t, g), id)
  }

  /** The streams whose buffer for a frame the HAL has. */
  function AtHalOf(loans: map<Key, Loan>, g: uint32): set<int> {
    set k | k in loans && k.frame == g && loans[k].place.AtHal? :: k.stream
  }

  /** The table expects every buffer that the HAL has. */
  ghost predicate OwedOk(t: Table, loans: map<Key, Loan>) {
    forall g: uint32 :: |AtHalOf(loans, g)| <= Owed(t, g)
  }

  /** The worker's request has taken a buffer of each of the first `got` streams, and no other. */
  ghost predicate WorkOk(y: System) {
    y.work.Some? ==>
      var w := y.work.value;
      && w.frame in y.used && w.frame !in y.table.pending
      && Pool.Distinct(w.wanted) && w.got <= |w.wanted|
      && (forall k :: 0 <= k < |w.wanted| ==> w.wanted[k] in y.streams)
      && (forall k :: 0 <= k < w.got ==> At(y.loans, Key(w.frame, w.wanted[k]), Taken))
      && (forall key :: key in y.loans && key.frame == w.frame ==> key.stream in w.wanted[..w.got])
  }

  /** Frames that are known somewhere were begun. */
  ghost predicate UsedOk(y: System) {
    && (forall k :: k in y.loans ==> k.frame in y.used)
    && (forall f :: f in y.table.pending ==> f in y.used)
  }

  ghost predicate SystemOk(y: System) {
    CoreOk(y) && HeldOk(y.table, y.loans) && OwedOk(y.table, y.loans) && WorkOk(y) && UsedOk(y)
  }

  /** The same loans, in places that mean the same to the streams and the client. */
  ghost predicate SameForStreams(loans: map<Key, Loan>, loans': map<Key, Loan>) {
    && (forall k :: k in loans' <==> k in loans)
    && (forall k :: k in loans ==>
          && loans'[k].handle == loans[k].handle
          && (Out(loans'[k].place) <==> Out(loans[k].place))
          && (HandedOver(loans'[k].place) <==> HandedOver(loans[k].place)))
  }

  lemma CoreKept(y: System, y': System)
    requires CoreOk(y) && y'.streams == y.streams && y'.log == y.log && SameForStreams(y.loans, y'.loans)
    ensures CoreOk(y')
  {
    hide LineOk;
    forall id | id in y.streams ensures StreamLoans(y.streams[id].now, y'.loans, id) {
      SameLoans(y.streams[id].now, y.loans, y'.loans, id);
    }
    hide StreamLoans, LogOk;
    LogKept(y.log, y.loans, y'.loans);
  }

  lemma SameLoans(s: Pool.Stream, loans: map<Key, Loan>, loans': map<Key, Loan>, id: int)
    requires StreamLoans(s, loans, id) && SameForStreams(loans, loans')
    ensures StreamLoans(s, loans', id)
  {
  }

  /** The same to the table. */
  ghost predicate SameForTable(loans: map<Key, Loan>, loans': map<Key, Loan>) {
    && (forall k :: At(loans', k, InTable) <==> At(loans, k, InTable))
    && (forall k :: At(loans', k, AtHal) ==> At(loans, k, AtHal))
  }

  lemma TableKept(t: Table, loans: map<Key, Loan>, loans': map<Key, Loan>)
    requires HeldOk(t, loans) && OwedOk(t, loans) && SameForTable(loans, loans')
    ensures HeldOk(t, loans') && OwedOk(t, loans')
  {
    forall g: uint32 ensures |AtHalOf(loans', g)| <= Owed(t, g) {
      assert AtHalOf(loans', g) <= AtHalOf(loans, g) by {
        forall id | id in AtHalOf(loans', g) ensures id in AtHalOf(loans, g) {
          assert At(loans', Key(g, id), AtHal);
        }
      }
      Subset(AtHalOf(loans', g), AtHalOf(loans, g));
      assert |AtHalOf(loans, g)| <= Owed(t, g);
    }
  }

  lemma Subset(a: set<int>, b: set<int>)
    requires a <= b
    ensures |a| <= |b|
  {
    assert b == a + (b - a);
  }

  // ----- a HAL event

  predicate FairArrival(loans: map<Key, Loan>, e: InFlightTable.Event) {
    !e.Registered? && (e.ResultArrived? ==> HalHas(loans, e.result))
  }

  lemma ReturnsSame(t: Table, loans: map<Key, Loan>, e: InFlightTable.Event)
    requires FairArrival(loans, e)
    ensures SameForStreams(loans, LoansAfter(t, loans, e))
    ensures forall k :: At(loans, k, Taken) ==> At(LoansAfter(t, loans, e), k, Taken)
  {
    hide Keeps;
  }

  lemma OneEachMultiset(buffers: seq<Buffer>)
    requires OneEach(buffers)
    ensures OneEachIn(multiset(buffers))
  {
    if buffers != [] {
      var init, b := buffers[..|buffers| - 1], buffers[|buffers| - 1];
      assert buffers == init + [b];
      OneEachMultiset(init);
      assert multiset(buffers) == multiset(init) + multiset{b};
      assert forall c :: c in init ==> c.streamId != b.streamId;
    }
  }

  lemma HeldInTable(t: Table, loans: map<Key, Loan>, g: uint32)
    requires HeldOk(t, loans)
    ensures OneEachIn(Held(t, g))
    ensures forall id :: At(loans, Key(g, id), InTable) <==> HasIn(Held(t, g), id)
  {
  }

  lemma BroughtFromHal(t: Table, loans: map<Key, Loan>, e: InFlightTable.Event, g: uint32)
    requires FairArrival(loans, e)
    ensures OneEachIn(Brought(t, e, g))
    ensures forall id :: HasIn(Brought(t, e, g), id) ==> At(loans, Key(g, id), AtHal)
  {
    hide Keeps;
    if e.ResultArrived? { OneEachMultiset(e.result.outputBuffers); }
  }

  /** What an event brings has its place in the table then; all else keeps its place, or is dropped. */
  lemma BroughtPlaces(t: Table, loans: map<Key, Loan>, e: InFlightTable.Event, k: Key)
    requires FairArrival(loans, e)
    ensures At(LoansAfter(t, loans, e), k, InTable)
            <==> At(loans, k, InTable) || HasIn(Brought(t, e, k.frame), k.stream)
  {
    hide Keeps;
    if e.ResultArrived? && e.result.frame == k.frame { HasSame(e.result.outputBuffers, k.stream); }
  }

  lemma HasSame(buffers: seq<Buffer>, id: int)
    ensures HasIn(multiset(buffers), id) <==> HasStream(buffers, id)
  {
    assert forall b :: b in multiset(buffers) <==> b in buffers;
  }

  /** What a frame has held back or brought: one buffer of each of the streams whose place is the
      table. */
  lemma FrameArrives(t: Table, loans: map<Key, Loan>, e: InFlightTable.Event, g: uint32)
    requires HeldOk(t, loans) && FairArrival(loans, e)
    ensures var m := Held(t, g) + Brought(t, e, g);
            OneEachIn(m) && forall id :: At(LoansAfter(t, loans, e), Key(g, id), InTable) <==> HasIn(m, id)
  {
    hide HeldOk, FairArrival, Held, Brought, LoansAfter;
    var held, brought := Held(t, g), Brought(t, e, g);
    HeldInTable(t, loans, g);
    BroughtFromHal(t, loans, e, g);
    forall x, y | x in held && y in brought ensures x.streamId != y.streamId {
      assert HasIn(held, x.streamId) && HasIn(brought, y.streamId);
    }
    JoinMultiset(held, brought);
    forall id ensures At(LoansAfter(t, loans, e), Key(g, id), InTable) <==> HasIn(held + brought, id) {
      BroughtPlaces(t, loans, e, Key(g, id));
    }
  }

  lemma JoinMultiset(a: multiset<Buffer>, b: multiset<Buffer>)
    requires OneEachIn(a) && OneEachIn(b)
    requires forall x, y :: x in a && y in b ==> x.streamId != y.streamId
    ensures OneEachIn(a + b)
    ensures forall id :: HasIn(a + b, id) <==> HasIn(a, id) || HasIn(b, id)
  {
    forall x | x in a + b ensures (a + b)[x] == 1 {
      assert (a + b)[x] == a[x] + b[x];
    }
  }

  lemma SplitMultiset(a: multiset<Buffer>, b: multiset<Buffer>)
    requires OneEachIn(a + b)
    ensures OneEachIn(a) && OneEachIn(b)
    ensures forall id :: HasIn(a + b, id) <==> HasIn(a, id) || HasIn(b, id)
    ensures forall id :: !(HasIn(a, id) && HasIn(b, id))
  {
    forall x ensures (a + b)[x] == a[x] + b[x] && (x in a + b <==> x in a || x in b) {
    }
  }

  /** Of these, what the event hands out is deliverable, and what it does not is held back. */
  lemma ArrivalSplits(t: Table, loans: map<Key, Loan>, e: InFlightTable.Event, g: uint32)
    requires HeldOk(t, loans) && FairArrival(loans, e)
    ensures var d, t', loans' := Delivered(NewOutputs(t, e), g), Step(t, e), LoansAfter(t, loans, e);
            && OneEachIn(multiset(d)) && OneEachIn(Held(t', g))
            && forall id ::
                 && (At(loans', Key(g, id), InTable) <==> HasStream(d, id) || HasIn(Held(t', g), id))
                 && !(HasStream(d, id) && HasIn(Held(t', g), id))
  {
    hide HeldOk, FairArrival, Held, Brought, LoansAfter, NewOutputs, Step, Delivered;
    FrameArrives(t, loans, e, g);
    HandedOrHeld(t, e, g);
    var d := Delivered(NewOutputs(t, e), g);
    SplitMultiset(multiset(d), Held(Step(t, e), g));
    forall id ensures HasIn(multiset(d), id) <==> HasStream(d, id) { HasSame(d, id); }
  }

  lemma ArrivalDeliverable(t: Table, loans: map<Key, Loan>, e: InFlightTable.Event)
    requires HeldOk(t, loans) && FairArrival(loans, e)
    ensures Deliverable(LoansAfter(t, loans, e), NewOutputs(t, e))
  {
    hide HeldOk, FairArrival, LoansAfter, NewOutputs, Step, Delivered;
    var d := NewOutputs(t, e);
    forall g: uint32
      ensures OneEachIn(multiset(Delivered(d, g)))
      ensures forall b :: b in Delivered(d, g) ==> At(LoansAfter(t, loans, e), Key(g, b.streamId), InTable)
    {
      ArrivalSplits(t, loans, e, g);
      forall b | b in Delivered(d, g) ensures At(LoansAfter(t, loans, e), Key(g, b.streamId), InTable) {
        assert HasStream(Delivered(d, g), b.streamId);
      }
    }
  }

  lemma ArrivalHeld(t: Table, loans: map<Key, Loan>, e: InFlightTable.Event, loans': map<Key, Loan>)
    requires HeldOk(t, loans) && FairArrival(loans, e)
    requires LoansHanded(LoansAfter(t, loans, e), loans', NewOutputs(t, e))
    ensures HeldOk(Step(t, e), loans')
  {
    hide FairArrival, LoansAfter, NewOutputs, Step, Delivered, Held;
    forall g: uint32
      ensures OneEachIn(Held(Step(t, e), g))
      ensures forall id :: At(loans', Key(g, id), InTable) <==> HasIn(Held(Step(t, e), g), id)
    {
      ArrivalSplits(t, loans, e, g);
      forall id ensures At(loans', Key(g, id), InTable) <==> HasIn(Held(Step(t, e), g), id) {
        var key := Key(g, id);
        assert HandsOver(NewOutputs(t, e), key) <==> HasStream(Delivered(NewOutputs(t, e), g), id);
      }
    }
  }

  function StreamsOf(buffers: seq<Buffer>): set<int> { set i | 0 <= i < |buffers| :: buffers[i].streamId }

  lemma {:induction false} StreamsCount(buffers: seq<Buffer>)
    requires OneEach(buffers)
    ensures |StreamsOf(buffers)| == |buffers|
  {
    if buffers != [] {
      var init, b := buffers[..|buffers| - 1], buffers[|buffers| - 1];
      StreamsCount(init);
      forall id ensures id in StreamsOf(buffers) <==> id in StreamsOf(init) || id == b.streamId {
        if id in StreamsOf(init) {
          var i :| 0 <= i < |init| && init[i].streamId == id;
          assert buffers[i].streamId == id;
        }
        if id == b.streamId { assert buffers[|buffers| - 1].streamId == id; }
      }
      assert StreamsOf(buffers) == StreamsOf(init) + {b.streamId};
    }
  }

  lemma ArrivalOwed(t: Table, loans: map<Key, Loan>, e: InFlightTable.Event, loans': map<Key, Loan>)
    requires OwedOk(t, loans) && FairArrival(loans, e)
    requires LoansHanded(LoansAfter(t, loans, e), loans', NewOutputs(t, e))
    ensures OwedOk(Step(t, e), loans')
  {
    hide NewOutputs, Step, Delivered, Keeps, Owed;
    forall g: uint32 ensures |AtHalOf(loans', g)| <= Owed(Step(t, e), g) {
      StepOwes(t, e, g);
      LeftAtHal(t, loans, e, loans', g);
      assert |AtHalOf(loans, g)| <= Owed(t, g);
    }
  }

  lemma ReturnedFromHal(loans: map<Key, Loan>, res: HalResult)
    requires HalHas(loans, res)
    ensures StreamsOf(res.outputBuffers) <= AtHalOf(loans, res.frame)
    ensures |StreamsOf(res.outputBuffers)| == |res.outputBuffers|
  {
    StreamsCount(res.outputBuffers);
    forall id | id in StreamsOf(res.outputBuffers) ensures At(loans, Key(res.frame, id), AtHal) {
      var i :| 0 <= i < |res.outputBuffers| && res.outputBuffers[i].streamId == id;
      assert res.outputBuffers[i] in res.outputBuffers;
    }
  }

  /** Each buffer of a result leaves the HAL. */
  lemma LeftAtHal(t: Table, loans: map<Key, Loan>, e: InFlightTable.Event, loans': map<Key, Loan>, g: uint32)
    requires FairArrival(loans, e) && LoansHanded(LoansAfter(t, loans, e), loans', NewOutputs(t, e))
    ensures |AtHalOf(loans', g)|
            <= |AtHalOf(loans, g)|
               - if e.ResultArrived? && e.result.frame == g then |e.result.outputBuffers| else 0
  {
    hide NewOutputs, Step, Delivered, Keeps, HandsOver, HalHas;
    if e.ResultArrived? { ReturnedFromHal(loans, e.result); }
    var gone := if e.ResultArrived? && e.result.frame == g then StreamsOf(e.result.outputBuffers) else {};
    forall id | id in AtHalOf(loans', g) ensures id in AtHalOf(loans, g) - gone {
      StillAtHal(t, loans, e, loans', Key(g, id));
    }
    Subset(AtHalOf(loans', g), AtHalOf(loans, g) - gone);
  }

  lemma StillAtHal(t: Table, loans: map<Key, Loan>, e: InFlightTable.Event, loans': map<Key, Loan>, k: Key)
    requires LoansHanded(LoansAfter(t, loans, e), loans', NewOutputs(t, e)) && At(loans', k, AtHal)
    ensures At(loans, k, AtHal)
    ensures e.ResultArrived? && e.result.frame == k.frame ==> k.stream !in StreamsOf(e.result.outputBuffers)
  {
    hide NewOutputs, Step, Delivered, Keeps, HandsOver;
    assert At(LoansAfter(t, loans, e), k, AtHal);
    if e.ResultArrived? && k.stream in StreamsOf(e.result.outputBuffers) {
      var i :| 0 <= i < |e.result.outputBuffers| && e.result.outputBuffers[i].streamId == k.stream;
      assert e.result.outputBuffers[i] in e.result.outputBuffers;
    }
  }

  lemma ArrivalWork(y: System, e: InFlightTable.Event, y': System)
    requires WorkOk(y) && UsedOk(y) && FairArrival(y.loans, e)
    requires Deliverable(LoansAfter(y.table, y.loans, e), NewOutputs(y.table, e))
    requires LoansHanded(LoansAfter(y.table, y.loans, e), y'.loans, NewOutputs(y.table, e))
    requires y'.table == Step(y.table, e) && y'.work == y.work && y'.used == y.used
    requires y'.streams.Keys == y.streams.Keys
    ensures WorkOk(y') && UsedOk(y')
  {
    hide NewOutputs, Step, Delivered, LoansAfter, FairArrival;
    ReturnsSame(y.table, y.loans, e);
    var loans1, d := LoansAfter(y.table, y.loans, e), NewOutputs(y.table, e);
    forall k | HandsOver(d, k) ensures At(loans1, k, InTable) { HandedIsInTable(loans1, d, k); }
    forall f | f in y'.table.pending ensures f in y.table.pending { NoNewFrame(y.table, y.loans, e, f); }
  }

  lemma HandedIsInTable(loans: map<Key, Loan>, outputs: seq<Output>, k: Key)
    requires Deliverable(loans, outputs) && HandsOver(outputs, k)
    ensures At(loans, k, InTable)
  {
  }

  lemma NoNewFrame(t: Table, loans: map<Key, Loan>, e: InFlightTable.Event, f: uint32)
    requires FairArrival(loans, e)
    ensures f in Step(t, e).pending ==> f in t.pending
  {
    hide Step;
    StepOwes(t, e, f);
  }

  lemma ArriveOk(y: System, e: InFlightTable.Event)
    requires SystemOk(y) && FairArrival(y.loans, e)
    ensures SystemOk(Arrive(y, e))
  {
    hide CoreOk, HeldOk, OwedOk, WorkOk, UsedOk, FairArrival, LoansAfter, NewOutputs, Step, LoansHanded, Deliverable,
        SameForStreams, HandAll;
    var y1, d := y.(table := Step(y.table, e), loans := LoansAfter(y.table, y.loans, e)), NewOutputs(y.table, e);
    ReturnsSame(y.table, y.loans, e);
    CoreKept(y, y1);
    ArrivalDeliverable(y.table, y.loans, e);
    HandAllOk(y1, d);
    var y' := HandAll(y1, d);
    ArrivalHeld(y.table, y.loans, e, y'.loans);
    ArrivalOwed(y.table, y.loans, e, y'.loans);
    ArrivalWork(y, e, y');
  }

  // ----- the other events

  /** A step that the table does not see. */
  lemma SideOk(y: System, y': System)
    requires SystemOk(y) && CoreOk(y') && y'.table == y.table && y'.used == y.used
    requires y'.work == y.work || y'.work.None?
    requires y'.streams.Keys == y.streams.Keys && y'.loans.Keys == y.loans.Keys
    requires SameForTable(y.loans, y'.loans) && (forall k :: At(y.loans, k, Taken) ==> At(y'.loans, k, Taken))
    ensures SystemOk(y')
  {
    hide CoreOk, HeldOk, OwedOk, SameForTable;
    TableKept(y.table, y.loans, y'.loans);
  }

  lemma BackSystemOk(y: System, key: Key, c: Pool.Call, place: Place)
    requires SystemOk(y) && key in y.loans && Out(y.loans[key].place) && !Out(place)
    requires HandedOver(y.loans[key].place) <==> HandedOver(place)
    requires y.loans[key].place.AtHal? || y.loans[key].place.WithClient?
    requires c == Pool.Unsubmitted(key.frame) || c == Pool.BufferReturned(y.loans[key].handle)
    ensures key.stream in y.streams
    ensures SystemOk(Called(y, key.stream, c).(loans := Moved(y.loans, key, place)))
  {
    hide CoreOk, HeldOk, OwedOk, WorkOk, UsedOk, Pool.Orderly, Pool.Step;
    BackOk(y, key, c, place);
    SideOk(y, Called(y, key.stream, c).(loans := Moved(y.loans, key, place)));
  }

  lemma BeganOk(y: System, f: uint32, wanted: seq<int>)
    requires SystemOk(y) && FairEvent(y, Began(f, wanted))
    ensures SystemOk(SystemStep(y, Began(f, wanted)))
  {
    hide HeldOk, OwedOk, LineOk, StreamLoans, LogOk;
  }

  /** The next stream the worker asks has no buffer out for its frame. */
  lemma NextNotLoaned(y: System)
    requires WorkOk(y) && y.work.Some? && y.work.value.got < |y.work.value.wanted|
    ensures var w := y.work.value; Key(w.frame, w.wanted[w.got]) !in y.loans
  {
    var w := y.work.value;
    assert w.wanted[w.got] !in w.wanted[..w.got];
  }

  lemma AskedOk(y: System, c: Pool.Call)
    requires SystemOk(y) && y.work.Some? && Asking(y, y.work.value.waiting)
    requires var w := y.work.value;
             && (c.BufferTaken? || c.WaiterWoken?) && c.frame == w.frame
             && Pool.FairChoice(y.streams[w.wanted[w.got]].now, c.pick, c.alloc)
    ensures SystemOk(Ask(y, c))
  {
    hide CoreOk, Pool.Step, Pool.Orderly, Pool.FairChoice, HeldOk, OwedOk;
    var w := y.work.value;
    NextNotLoaned(y);
    AskOk(y, c);
    TableKept(y.table, y.loans, Ask(y, c).loans);
    AskWork(y, c);
  }

  lemma AskWork(y: System, c: Pool.Call)
    requires WorkOk(y) && UsedOk(y) && y.work.Some? && Asking(y, y.work.value.waiting)
    requires var w := y.work.value; Key(w.frame, w.wanted[w.got]) !in y.loans
    ensures WorkOk(Ask(y, c)) && UsedOk(Ask(y, c))
  {
    hide Pool.Step;
    var w := y.work.value;
    assert w.wanted[..w.got + 1] == w.wanted[..w.got] + [w.wanted[w.got]];
  }

  /** The request's own buffers are those of the streams it wanted. */
  lemma SentStreams(y: System, loans': map<Key, Loan>)
    requires WorkOk(y) && y.work.Some? && y.work.value.got == |y.work.value.wanted|
    requires forall k :: k in loans' <==> k in y.loans
    ensures |AtHalOf(loans', y.work.value.frame)| <= |y.work.value.wanted|
  {
    var w := y.work.value;
    assert w.wanted[..w.got] == w.wanted;
    forall id | id in AtHalOf(loans', w.frame) ensures id in w.wanted {
      assert Key(w.frame, id) in y.loans;
    }
    Pool.ElementsAtMost(w.wanted, AtHalOf(loans', w.frame));
  }

  lemma SendTable(y: System, requestId: int)
    requires SystemOk(y) && y.work.Some? && y.work.value.got == |y.work.value.wanted|
    ensures HeldOk(Send(y, requestId).table, Send(y, requestId).loans)
    ensures OwedOk(Send(y, requestId).table, Send(y, requestId).loans)
  {
    hide CoreOk;
    var w, y' := y.work.value, Send(y, requestId);
    SentStreams(y, y'.loans);
    forall k ensures At(y'.loans, k, InTable) <==> At(y.loans, k, InTable) {
      if k in y.loans && k.frame == w.frame { TakenOnly(y, k); }
    }
    forall g: uint32 ensures Held(y'.table, g) == Held(y.table, g) {
    }
    assert HeldOk(y'.table, y'.loans);
    forall g: uint32 ensures |AtHalOf(y'.loans, g)| <= Owed(y'.table, g) {
      if g != w.frame {
        assert AtHalOf(y'.loans, g) == AtHalOf(y.loans, g);
        assert |AtHalOf(y.loans, g)| <= Owed(y.table, g);
      }
    }
  }

  /** All loans of the request's frame are buffers it has just taken. */
  lemma TakenOnly(y: System, k: Key)
    requires WorkOk(y) && y.work.Some? && k in y.loans && k.frame == y.work.value.frame
    ensures At(y.loans, k, Taken)
  {
    var w := y.work.value;
    var i :| 0 <= i < w.got && w.wanted[i] == k.stream;
    assert k == Key(w.frame, w.wanted[i]);
  }

  lemma SendOk(y: System, requestId: int)
    requires SystemOk(y) && y.work.Some? && y.work.value.got == |y.work.value.wanted|
    ensures SystemOk(Send(y, requestId))
  {
    hide HeldOk, OwedOk, LineOk, StreamLoans, LogOk;
    SendTable(y, requestId);
    forall k | k in y.loans && k.frame == y.work.value.frame ensures At(y.loans, k, Taken) { TakenOnly(y, k); }
    hide CoreOk;
    CoreKept(y, Send(y, requestId));
  }

  /** Every event of the system, from any state in which streams, table, loans and log agree. */
  lemma SystemStepOk(y: System, e: SystemEvent)
    requires SystemOk(y) && FairEvent(y, e)
    ensures SystemOk(SystemStep(y, e))
  {
    hide SystemOk, Ask, Send, Arrive, Called, Moved, Pool.FairChoice, Pool.Fair;
    match e
    case Began(f, wanted) => BeganOk(y, f, wanted);
    case Asked(pick, alloc) =>
      if Asking(y, false) { AskedOk(y, Pool.BufferTaken(y.work.value.frame, pick, alloc)); }
    case WokenUp(pick, alloc) =>
      if Asking(y, true) { AskedOk(y, Pool.WaiterWoken(y.work.value.frame, pick, alloc)); }
    case GaveUp => StoppedOk(y);
    case SentToHal(requestId) =>
      if y.work.Some? && y.work.value.got == |y.work.value.wanted| { SendOk(y, requestId); }
    case Refused(key) => BackSystemOk(y, key, Pool.Unsubmitted(key.frame), GivenBack);
    case Arrived(event) => ArriveOk(y, event);
    case ClientReturned(key) => BackSystemOk(y, key, Pool.BufferReturned(y.loans[key].handle), BackInPool);
    case StreamCalled(id, c) => if id in y.streams { CalledOk(y, id, c); }
  }

  lemma StoppedOk(y: System)
    requires SystemOk(y)
    ensures SystemOk(SystemStep(y, GaveUp))
  {
    hide CoreOk, HeldOk, OwedOk, WorkOk, UsedOk, Pool.Step;
    if Asking(y, true) {
      var id := y.work.value.wanted[y.work.value.got];
      GaveUpOk(y, id);
      CoreKept(Called(y, id, Pool.WaiterTimedOut), SystemStep(y, GaveUp));
      SideOk(y, SystemStep(y, GaveUp));
    }
  }

  lemma CalledOk(y: System, id: int, c: Pool.Call)
    requires SystemOk(y) && id in y.streams && FramelessCall(c) && Pool.Fair(y.streams[id].now, c)
    ensures SystemOk(Called(y, id, c))
  {
    hide CoreOk, HeldOk, OwedOk, WorkOk, UsedOk, Pool.Step, Pool.Fair, Pool.Orderly;
    FramelessOk(y, id, c);
    SideOk(y, Called(y, id, c));
  }

  lemma StartOk(config: Config, sizes: map<int, (int, nat)>)
    ensures SystemOk(Start(config, sizes))
  {
    var y := Start(config, sizes);
    forall id | id in y.streams ensures LineOk(y.streams[id]) {
      Pool.FlightInvariant(true, sizes[id].0, sizes[id].1, []);
    }
    hide LineOk;
    forall g: uint32 ensures AtHalOf(y.loans, g) == {} {
    }
  }

  lemma {:induction false} SystemInvariant(config: Config, sizes: map<int, (int, nat)>, events: seq<SystemEvent>)
    requires FairSystemRun(Start(config, sizes), events)
    ensures SystemOk(SystemRun(Start(config, sizes), events))
  {
    var y := Start(config, sizes);
    if events == [] {
      StartOk(config, sizes);
    } else {
      var init := events[..|events| - 1];
      hide SystemOk, FairEvent, SystemStep, Start;
      forall k | 0 <= k < |init| ensures FairEvent(SystemRun(y, init[..k]), init[k]) {
        assert init[..k] == events[..k];
      }
      SystemInvariant(config, sizes, init);
      SystemStepOk(SystemRun(y, init), events[|events| - 1]);
    }
  }

  // ----- waiting

  /** The frames whose buffer of a stream is out. */
  function FramesOut(loans: map<Key, Loan>, id: int): set<int> {
    set k | k in loans && k.stream == id && Out(loans[k].place) :: k.frame
  }

  function Image(m: map<int, int>, frames: set<int>): set<int>
    requires frames <= m.Keys
  {
    set f | f in frames :: m[f]
  }

  lemma {:induction false} InjectiveCount(m: map<int, int>, frames: set<int>)
    requires Pool.Injective(m) && frames <= m.Keys
    ensures |frames| == |Image(m, frames)|
  {
    if frames != {} {
      if forall f :: f !in frames { NoFrames(frames); }
      var f :| f in frames;
      var rest := frames - {f};
      InjectiveCount(m, rest);
      assert Image(m, frames) == Image(m, rest) + {m[f]};
      assert m[f] !in Image(m, rest);
    }
  }

  /** As many buffers of a stream are out as it has pending. */
  lemma OutCount(y: System, id: int)
    requires CoreOk(y) && id in y.streams
    ensures |FramesOut(y.loans, id)| == y.streams[id].now.pending
  {
    hide LineOk, LogOk, Pool.PoolOk;
    LineAgrees(y, id);
    var s := y.streams[id].now;
    hide CoreOk;
    forall g ensures g in FramesOut(y.loans, id) <==> g in s.inFlight.Keys {
      if g in s.inFlight { assert Key(g, id) in y.loans; }
    }
    assert FramesOut(y.loans, id) == s.inFlight.Keys;
    FlightParts(s);
    InjectiveCount(s.inFlight, s.inFlight.Keys);
    BusyIsImage(s);
  }

  lemma NoFrames(frames: set<int>)
    requires forall f :: f !in frames
    ensures frames == {}
  {
    var none: set<int> := {};
    assert forall f :: f in frames <==> f in none;
    assert frames == none;
  }

  lemma BusyIsImage(s: Pool.Stream)
    requires Pool.FlightOk(s)
    ensures Image(s.inFlight, s.inFlight.Keys) == Pool.Busy(s.buffers)
  {
    hide Pool.PoolOk;
    var busy, image := Pool.Busy(s.buffers), Image(s.inFlight, s.inFlight.Keys);
    hide Pool.Busy;
    forall h ensures h in busy <==> h in image {
      if h in busy {
        var f :| f in s.inFlight && s.inFlight[f] == h;
        assert f in s.inFlight.Keys;
      }
    }
  }

  lemma FlightParts(s: Pool.Stream)
    requires Pool.FlightOk(s)
    ensures Pool.Injective(s.inFlight) && s.pending == |Pool.Busy(s.buffers)|
    ensures forall x :: x in Pool.Busy(s.buffers) <==> exists f :: f in s.inFlight && s.inFlight[f] == x
  {
    hide Pool.PoolOk, Pool.Busy;
  }

  /** The worker waits for a buffer of this stream. */
  predicate WaitsFor(y: System, id: int) {
    Asking(y, true) && y.work.value.wanted[y.work.value.got] == id
  }

  /** The worker is the only caller that waits. */
  ghost predicate ParkedOk(y: System) {
    forall id :: id in y.streams ==> y.streams[id].now.parked == if WaitsFor(y, id) then 1 else 0
  }

  lemma LockedKeepsParked(s: Pool.Stream, frame: int, pick: int, alloc: Option<int>)
    ensures Pool.GetBufferLocked(s, frame, pick, alloc).s.parked == s.parked
  {
    hide Pool.ChooseBuffer;
    Pool.ChooseKeeps(s, true, pick, alloc);
  }

  lemma EndKeepsParked(s: Pool.Stream, newId: int)
    ensures Pool.EndConfigure(s, newId).s.parked == s.parked
  {
    hide Pool.ConfigureLocked;
    ConfigureKeepsParked(s.(monitorId := newId));
  }

  lemma ConfigureKeepsParked(s: Pool.Stream)
    ensures Pool.ConfigureLocked(s).s.parked == s.parked
  {
  }

  lemma PreparedKeepsParked(s: Pool.Stream, alloc: Option<int>)
    ensures Pool.PrepareBuffer(s, alloc).s.parked == s.parked
  {
    hide Pool.ChooseBuffer;
    Pool.ChooseKeeps(s, false, Pool.NULL_HANDLE, alloc);
  }

  /** Calls that neither take a buffer nor give up waiting leave the callers that wait alone. */
  lemma OthersKeepParked(s: Pool.Stream, c: Pool.Call)
    requires !c.BufferTaken? && !c.WaiterWoken? && !c.WaiterTimedOut?
    ensures Pool.Step(s, c).s.parked == s.parked
  {
    hide Pool.EndConfigure, Pool.PrepareBuffer, Pool.Without, Wrap32, Pool.FreeAll;
    if c.ConfigureEnded? { EndKeepsParked(s, c.newId); }
    if c.BufferPrepared? { PreparedKeepsParked(s, c.alloc); }
    assert Pool.FreeAll(s).parked == s.parked by { FreeKeepsParked(s); }
  }

  lemma FreeKeepsParked(s: Pool.Stream)
    ensures Pool.FreeAll(s).parked == s.parked
  {
  }

  /** The same callers wait at every stream. */
  ghost predicate SameParked(y: System, y': System) {
    y'.streams.Keys == y.streams.Keys
    && forall id :: id in y.streams ==> y'.streams[id].now.parked == y.streams[id].now.parked
  }

  lemma CalledKeepsParked(y: System, id: int, c: Pool.Call)
    requires id in y.streams && !c.BufferTaken? && !c.WaiterWoken? && !c.WaiterTimedOut?
    ensures SameParked(y, Called(y, id, c))
  {
    hide Pool.Step;
    OthersKeepParked(y.streams[id].now, c);
  }

  lemma {:induction false} HandAllKeepsParked(y: System, outputs: seq<Output>)
    ensures SameParked(y, HandAll(y, outputs)) && HandAll(y, outputs).work == y.work
  {
    if outputs != [] {
      hide Hand;
      HandAllKeepsParked(y, outputs[..|outputs| - 1]);
      HandKeepsParked(HandAll(y, outputs[..|outputs| - 1]), outputs[|outputs| - 1]);
    }
  }

  lemma HandKeepsParked(y: System, o: Output)
    ensures SameParked(y, Hand(y, o)) && Hand(y, o).work == y.work
  {
    hide Pool.Step, Pool.HandToClient;
    if o.BufferToClient? && o.buffer.streamId in y.streams {
      var id := o.buffer.streamId;
      var c := Pool.HandedToClient(o.frame);
      CalledKeepsParked(y, id, c);
      CalledKeepsParked(Called(y, id, c), id,
                        Pool.BufferReturned(Pool.HandToClient(y.streams[id].now, o.frame).handle));
    }
  }

  /** What asking, at once or after a wait, does to those that wait and to the request in hand. */
  lemma AskAnswer(y: System, c: Pool.Call)
    requires CoreOk(y) && y.work.Some? && Asking(y, y.work.value.waiting) && ParkedOk(y)
    requires var w := y.work.value;
             && (if w.waiting then c.WaiterWoken? else c.BufferTaken?) && c.frame == w.frame
             && Pool.FairChoice(y.streams[w.wanted[w.got]].now, c.pick, c.alloc)
    ensures var w := y.work.value;
            var id := w.wanted[w.got];
            var s, t := y.streams[id].now, Pool.Step(y.streams[id].now, c);
            && (t.code.WAITING? <==> !w.waiting && s.status.CONFIGURED? && s.pending == s.total)
            && t.s.parked == (if t.code.WAITING? then 1 else 0)
            && (t.code.OK? <==>
                  && (w.waiting || (s.status.CONFIGURED? && s.pending != s.total))
                  && (Pool.HasFree(s.buffers) || (s.hw < s.total && c.alloc.Some?)))
            && (t.code.OK? ==>
                  if Pool.HasFree(s.buffers) then Pool.IsFree(s.buffers, t.handle)
                  else c.alloc == Some(t.handle) && t.handle !in s.buffers)
  {
    hide CoreOk, LineOk, StreamLoans, Pool.GetBufferLocked, Pool.FairChoice, Pool.HasFree, Pool.PoolOk;
    var w := y.work.value;
    var id := w.wanted[w.got];
    LineAgrees(y, id);
    var s := y.streams[id].now;
    assert s.parked == if w.waiting then 1 else 0;
    var s1 := if w.waiting then s.(parked := s.parked - 1) else s;
    LockedKeepsParked(s1, w.frame, c.pick, c.alloc);
    ParkedStatus(s, s1, c.pick, c.alloc);
    if w.waiting || s.status.CONFIGURED? { Pool.LockedExactly(s1, w.frame, c.pick, c.alloc); }
  }

  lemma ParkedStatus(s: Pool.Stream, s1: Pool.Stream, pick: int, alloc: Option<int>)
    requires Pool.FlightOk(s) && (s1 == s || (s.parked == 1 && s1 == s.(parked := 0)))
    ensures Pool.FairChoice(s, pick, alloc) ==> Pool.FairChoice(s1, pick, alloc)
    ensures Pool.PoolOk(s1) && (s.parked > 0 ==> s.status.CONFIGURED? || s.status.PREPARE_ACTIVE?)
  {
    hide Pool.Busy, Pool.Distinct;
  }

  lemma AskParked(y: System, c: Pool.Call)
    requires CoreOk(y) && WorkOk(y) && y.work.Some? && Asking(y, y.work.value.waiting) && ParkedOk(y)
    requires var w := y.work.value;
             && (if w.waiting then c.WaiterWoken? else c.BufferTaken?) && c.frame == w.frame
             && Pool.FairChoice(y.streams[w.wanted[w.got]].now, c.pick, c.alloc)
    ensures ParkedOk(Ask(y, c))
  {
    hide CoreOk, Pool.Step, Pool.FairChoice, Pool.HasFree;
    AskAnswer(y, c);
  }

  lemma OthersParked(y: System, y': System)
    requires ParkedOk(y) && SameParked(y, y') && y'.work == y.work
    ensures ParkedOk(y')
  {
  }

  lemma StepParked(y: System, e: SystemEvent)
    requires SystemOk(y) && ParkedOk(y) && FairEvent(y, e)
    ensures ParkedOk(SystemStep(y, e))
  {
    hide CoreOk, HeldOk, OwedOk, UsedOk, Ask, Register, HandAll, NewOutputs, Called, Pool.Fair, Pool.FairChoice,
        Pool.Step, SameParked;
    match e
    case Began(f, wanted) => NoneWaits(y, SystemStep(y, e));
    case Asked(pick, alloc) =>
      if Asking(y, false) { AskParked(y, Pool.BufferTaken(y.work.value.frame, pick, alloc)); }
    case WokenUp(pick, alloc) =>
      if Asking(y, true) { AskParked(y, Pool.WaiterWoken(y.work.value.frame, pick, alloc)); }
    case GaveUp => if Asking(y, true) { GaveUpParked(y); }
    case SentToHal(requestId) =>
      if y.work.Some? && y.work.value.got == |y.work.value.wanted| { NoneWaits(y, Send(y, requestId)); }
    case Refused(key) => CalledParked(y, key, Pool.Unsubmitted(key.frame), GivenBack);
    case Arrived(event) => ArriveParked(y, event);
    case ClientReturned(key) => CalledParked(y, key, Pool.BufferReturned(y.loans[key].handle), BackInPool);
    case StreamCalled(id, c) =>
      if id in y.streams {
        CalledKeepsParked(y, id, c);
        CalledKeepsWork(y, id, c);
        OthersParked(y, Called(y, id, c));
      }
  }

  lemma CalledKeepsWork(y: System, id: int, c: Pool.Call)
    requires id in y.streams
    ensures Called(y, id, c).work == y.work
  {
  }

  lemma NoneWaits(y: System, y': System)
    requires ParkedOk(y) && y'.streams == y.streams
    requires forall id :: id in y.streams ==> (WaitsFor(y', id) <==> WaitsFor(y, id))
    ensures ParkedOk(y')
  {
  }

  lemma GaveUpParked(y: System)
    requires ParkedOk(y) && Asking(y, true)
    ensures ParkedOk(SystemStep(y, GaveUp))
  {
  }

  lemma CalledParked(y: System, key: Key, c: Pool.Call, place: Place)
    requires ParkedOk(y) && !c.BufferTaken? && !c.WaiterWoken? && !c.WaiterTimedOut?
    ensures key.stream in y.streams ==> ParkedOk(Called(y, key.stream, c).(loans := Moved(y.loans, key, place)))
  {
    hide Pool.Step;
    if key.stream in y.streams {
      CalledKeepsParked(y, key.stream, c);
      OthersParked(y, Called(y, key.stream, c).(loans := Moved(y.loans, key, place)));
    }
  }

  lemma ArriveParked(y: System, e: InFlightTable.Event)
    requires ParkedOk(y)
    ensures ParkedOk(Arrive(y, e))
  {
    hide HandAll, NewOutputs, Step, LoansAfter;
    var y1 := y.(table := Step(y.table, e), loans := LoansAfter(y.table, y.loans, e));
    HandAllKeepsParked(y1, NewOutputs(y.table, e));
    OthersParked(y, Arrive(y, e));
  }

  lemma {:induction false} ParkedInvariant(config: Config, sizes: map<int, (int, nat)>, events: seq<SystemEvent>)
    requires FairSystemRun(Start(config, sizes), events)
    ensures ParkedOk(SystemRun(Start(config, sizes), events))
  {
    if events != [] {
      var y, init := Start(config, sizes), events[..|events| - 1];
      hide SystemOk, ParkedOk, FairEvent, SystemStep, Start;
      forall k | 0 <= k < |init| ensures FairEvent(SystemRun(y, init[..k]), init[k]) {
        assert init[..k] == events[..k];
      }
      ParkedInvariant(config, sizes, init);
      SystemInvariant(config, sizes, init);
      StepParked(SystemRun(y, init), events[|events| - 1]);
    }
  }

  /** The reachable states. */
  ghost predicate Reached(config: Config, sizes: map<int, (int, nat)>, events: seq<SystemEvent>, y: System) {
    FairSystemRun(Start(config, sizes), events) && y == SystemRun(Start(config, sizes), events)
  }

  lemma ReachedOk(config: Config, sizes: map<int, (int, nat)>, events: seq<SystemEvent>, y: System)
    requires Reached(config, sizes, events, y)
    ensures SystemOk(y) && ParkedOk(y)
  {
    hide SystemOk, ParkedOk;
    SystemInvariant(config, sizes, events);
    ParkedInvariant(config, sizes, events);
  }

  /** A buffer can be had: a free one, or there is room for another that the allocator grants. */
  predicate CanGive(s: Pool.Stream, alloc: Option<int>) {
    (exists h :: h in s.buffers && s.buffers[h]) || (s.hw < s.total && alloc.Some?)
  }

  /** The request in hand has got a buffer of the stream it asked: a free one if there was one, else
      the one the allocator granted. */
  ghost predicate GotOne(y: System, y': System, alloc: Option<int>)
    requires y.work.Some? && Asking(y, y.work.value.waiting)
  {
    var w := y.work.value;
    var id := w.wanted[w.got];
    var s, key := y.streams[id].now, Key(w.frame, id);
    && y'.work == Some(w.(got := w.got + 1, waiting := false))
    && key !in y.loans && key in y'.loans && y'.loans == y.loans[key := Loan(y'.loans[key].handle, Taken)]
    && var h := y'.loans[key].handle;
       if exists k :: k in s.buffers && s.buffers[k] then h in s.buffers && s.buffers[h]
       else alloc == Some(h) && h !in s.buffers
  }

  /** In every reachable state, a worker that asks a stream with every buffer out waits, with its
      request still in hand; else it gets a buffer or drops the request, the latter exactly if the
      stream is not configured or has none to give. */
  lemma AskedExactly(config: Config, sizes: map<int, (int, nat)>, events: seq<SystemEvent>, y: System, pick: int,
      alloc: Option<int>)
    requires Reached(config, sizes, events, y) && FairEvent(y, Asked(pick, alloc)) && Asking(y, false)
    ensures var w, y' := y.work.value, SystemStep(y, Asked(pick, alloc));
            var id := w.wanted[w.got];
            var s := y.streams[id].now;
            var allOut := |FramesOut(y.loans, id)| == s.total;
            && (y'.work.None? <==> !s.status.CONFIGURED? || (!allOut && !CanGive(s, alloc)))
            && (s.status.CONFIGURED? && allOut ==>
                  y'.work == Some(w.(waiting := true)) && y'.loans == y.loans && WaitsFor(y', id))
            && (y'.work.Some? && !allOut ==> GotOne(y, y', alloc))
            && (y'.work.None? ==> y'.loans == y.loans)
  {
    hide Reached, CoreOk, HeldOk, OwedOk, UsedOk, ParkedOk, Pool.FairChoice, Pool.Step;
    ReachedOk(config, sizes, events, y);
    var w := y.work.value;
    OutCount(y, w.wanted[w.got]);
    NextNotLoaned(y);
    AskAnswer(y, Pool.BufferTaken(w.frame, pick, alloc));
  }

  /** A worker woken up gets a buffer exactly if the stream has one to give, and else drops its
      request. */
  lemma WokenExactly(config: Config, sizes: map<int, (int, nat)>, events: seq<SystemEvent>, y: System, pick: int,
      alloc: Option<int>)
    requires Reached(config, sizes, events, y) && FairEvent(y, WokenUp(pick, alloc)) && Asking(y, true)
    ensures var w, y' := y.work.value, SystemStep(y, WokenUp(pick, alloc));
            var s := y.streams[w.wanted[w.got]].now;
            && (GotOne(y, y', alloc) <==> CanGive(s, alloc))
            && (y'.work.None? && y'.loans == y.loans <==> !CanGive(s, alloc))
  {
    hide Reached, CoreOk, HeldOk, OwedOk, UsedOk, ParkedOk, Pool.FairChoice, Pool.Step;
    ReachedOk(config, sizes, events, y);
    var w := y.work.value;
    NextNotLoaned(y);
    AskAnswer(y, Pool.WaiterWoken(w.frame, pick, alloc));
  }

  /** Once the client, or a refusal, has given a buffer of the stream back, a worker that waits for
      one gets one when it wakes up, whatever the allocator says. */
  lemma BackWakes(config: Config, sizes: map<int, (int, nat)>, events: seq<SystemEvent>, y: System, back: SystemEvent,
      pick: int, alloc: Option<int>)
    requires Reached(config, sizes, events, y) && FairEvent(y, back)
    requires (back.ClientReturned? || back.Refused?) && WaitsFor(y, back.key.stream)
    requires FairEvent(SystemStep(y, back), WokenUp(pick, alloc))
    ensures var y1 := SystemStep(y, back);
            Asking(y1, true) && GotOne(y1, SystemStep(y1, WokenUp(pick, alloc)), alloc)
  {
    hide Reached, CoreOk, HeldOk, OwedOk, WorkOk, UsedOk, ParkedOk, Pool.FairChoice, Pool.Step, SystemStep, GotOne,
        FairEvent;
    var y1 := SystemStep(y, back);
    ReachedNext(config, sizes, events, y, back);
    ReachedOk(config, sizes, events, y);
    BackIsFree(y, back);
    WokenExactly(config, sizes, events + [back], y1, pick, alloc);
  }

  lemma ReachedNext(config: Config, sizes: map<int, (int, nat)>, events: seq<SystemEvent>, y: System, e: SystemEvent)
    requires Reached(config, sizes, events, y) && FairEvent(y, e)
    ensures Reached(config, sizes, events + [e], SystemStep(y, e))
  {
    hide FairEvent, SystemStep;
    var y0, all := Start(config, sizes), events + [e];
    assert all[..|events|] == events;
    forall k | 0 <= k < |all| ensures FairEvent(SystemRun(y0, all[..k]), all[k]) {
      if k < |events| { assert all[..k] == events[..k]; }
    }
  }

  lemma BackIsFree(y: System, back: SystemEvent)
    requires CoreOk(y) && FairEvent(y, back) && (back.ClientReturned? || back.Refused?)
    requires WaitsFor(y, back.key.stream)
    ensures var y1 := SystemStep(y, back);
            WaitsFor(y1, back.key.stream) && forall alloc :: CanGive(y1.streams[back.key.stream].now, alloc)
  {
    hide CoreOk, Pool.FlightOk, Pool.Orderly, Pool.Without;
    LoanIsOut(y, back.key);
    var s, h := y.streams[back.key.stream].now, y.loans[back.key].handle;
    OutFrame(s, back.key.frame);
    var t := SystemStep(y, back).streams[back.key.stream].now;
    assert h in t.buffers && t.buffers[h];
  }

  lemma OutFrame(s: Pool.Stream, frame: int)
    requires Pool.FlightOk(s) && frame in s.inFlight
    ensures frame in s.frames && s.frames[frame] == s.inFlight[frame] && s.inFlight[frame] in s.buffers
    ensures s.pending > 0 && !s.status.INITIALIZED?
  {
    Pool.OutIsPending(s, frame);
    hide Wrap32;
  }

  /** In every reachable state a result of a HAL that returns what it has is one its frame expects:
      the entry is there, and it owes as many buffers at least. */
  lemma ResultIsExpected(config: Config, sizes: map<int, (int, nat)>, events: seq<SystemEvent>, res: HalResult)
    requires FairSystemRun(Start(config, sizes), events)
    requires HalHas(SystemRun(Start(config, sizes), events).loans, res) && res.outputBuffers != []
    ensures var t := SystemRun(Start(config, sizes), events).table;
            res.frame in t.pending && BuffersIn(res) <= t.pending[res.frame].buffersRemaining
  {
    var y := SystemRun(Start(config, sizes), events);
    SystemInvariant(config, sizes, events);
    hide SystemRun, FairSystemRun, CoreOk, HeldOk, WorkOk, UsedOk, HalHas;
    assert |AtHalOf(y.loans, res.frame)| <= Owed(y.table, res.frame);
    ReturnedFromHal(y.loans, res);
    Subset(StreamsOf(res.outputBuffers), AtHalOf(y.loans, res.frame));
    assert !res.inputBuffer by { HalHasNoInput(y.loans, res); }
  }

  lemma HalHasNoInput(loans: map<Key, Loan>, res: HalResult)
    requires HalHas(loans, res)
    ensures !res.inputBuffer
  {
  }

  // ----- nothing is left lying

  /** A request begun is in the worker's hands, and one with all its buffers goes to the table and the
      HAL: its frame is expected with as many buffers as it has streams, all of them at the HAL. */
  lemma SentExactly(config: Config, sizes: map<int, (int, nat)>, events: seq<SystemEvent>, y: System, f: uint32,
      wanted: seq<int>, requestId: int)
    requires Reached(config, sizes, events, y)
    ensures y.work.None? ==> SystemStep(y, Began(f, wanted)).work == Some(Work(f, wanted, 0, false))
    ensures y.work.Some? && y.work.value.got == |y.work.value.wanted| ==>
              var w, y' := y.work.value, SystemStep(y, SentToHal(requestId));
              && y'.work.None? && y'.streams == y.streams
              && w.frame in y'.table.pending
              && y'.table.pending[w.frame].buffersRemaining == |w.wanted|
              && y'.table.pending[w.frame].requestId == requestId
              && (forall k :: 0 <= k < |w.wanted| ==> At(y'.loans, Key(w.frame, w.wanted[k]), AtHal))
              && (forall k :: k in y.loans && k.frame != w.frame ==> k in y'.loans && y'.loans[k] == y.loans[k])
  {
    hide Reached, CoreOk, HeldOk, OwedOk, UsedOk, ParkedOk;
    ReachedOk(config, sizes, events, y);
    if y.work.Some? && y.work.value.got == |y.work.value.wanted| {
      var w := y.work.value;
      forall k | 0 <= k < |w.wanted| ensures At(y.loans, Key(w.frame, w.wanted[k]), Taken) {
      }
    }
  }

  /** After the shutter nothing more is held back for a frame. */
  lemma HeldShrinks(t: Table, res: HalResult)
    requires Accepts(t, res) && t.pending[res.frame].shutterTS > 0
    ensures Held(HandleCaptureResult(t, res), res.frame) <= Held(t, res.frame)
  {
    hide Recorded, RemovePendingRequest, Delivered;
    AcceptedIsNoted(t, res);
    var t1, f := Noted(t, res), res.frame;
    RecordedEffect(t1, t1.pending[f], res);
    RemoveHolds(Recorded(t1, t1.pending[f], res), f);
  }

  lemma RemoveHolds(t: Table, f: uint32)
    requires f in t.pending
    ensures Held(RemovePendingRequest(t, f), f) <= Held(t, f)
  {
    hide Deliveries, AnyFailed;
  }

  lemma ShutterHoldsNone(t: Table, f: uint32, ts: int)
    requires f in t.pending && t.nextShutter <= f
    ensures Held(NotifyShutter(t, f, ts), f) == multiset{}
  {
    hide ShutterTaken, RemovePendingRequest, Delivered;
    ShutterTakenEntry(t, f, ts);
    RemoveHolds(ShutterTaken(t, f, ts), f);
  }

  /** What an event brings or finds held back, and does not hold back then, is handed over. */
  lemma NotHeldIsHanded(y: System, e: InFlightTable.Event, k: Key)
    requires SystemOk(y) && FairArrival(y.loans, e)
    requires At(LoansAfter(y.table, y.loans, e), k, InTable) && !HasIn(Held(Step(y.table, e), k.frame), k.stream)
    ensures k in Arrive(y, e).loans && HandedOver(Arrive(y, e).loans[k].place)
  {
    hide CoreOk, HeldOk, OwedOk, WorkOk, UsedOk, FairArrival, LoansAfter, NewOutputs, Step, LoansHanded, Deliverable,
        SameForStreams, HandAll, HandsOver, HandedOver;
    var y1, d := y.(table := Step(y.table, e), loans := LoansAfter(y.table, y.loans, e)), NewOutputs(y.table, e);
    ReturnsSame(y.table, y.loans, e);
    CoreKept(y, y1);
    ArrivalDeliverable(y.table, y.loans, e);
    HandAllOk(y1, d);
    ArrivalHeld(y.table, y.loans, e, Arrive(y, e).loans);
    KeptOrHanded(y1.loans, Arrive(y, e).loans, d, Step(y.table, e), k);
  }

  lemma KeptOrHanded(loans: map<Key, Loan>, loans': map<Key, Loan>, outputs: seq<Output>, t: Table, k: Key)
    requires LoansHanded(loans, loans', outputs) && HeldOk(t, loans') && At(loans, k, InTable)
    requires !HasIn(Held(t, k.frame), k.stream)
    ensures k in loans' && HandedOver(loans'[k].place)
  {
    assert !At(loans', Key(k.frame, k.stream), InTable);
  }

  /** In every reachable state, a result that is kept after its frame's shutter hands over each of its
      buffers at once. */
  lemma ResultIsHanded(config: Config, sizes: map<int, (int, nat)>, events: seq<SystemEvent>, y: System,
      res: HalResult, b: Buffer)
    requires Reached(config, sizes, events, y) && FairArrival(y.loans, ResultArrived(res)) && b in res.outputBuffers
    requires Keeps(y.table, res) && y.table.pending[res.frame].shutterTS > 0
    ensures var y', k := SystemStep(y, Arrived(ResultArrived(res))), Key(res.frame, b.streamId);
            k in y'.loans && HandedOver(y'.loans[k].place)
  {
    hide Reached, SystemOk, ParkedOk, Held, HandleCaptureResult, Arrive, FairArrival, LoansAfter;
    ReachedOk(config, sizes, events, y);
    var k := Key(res.frame, b.streamId);
    KeptAfterShutter(y, res, b);
    NotHeldIsHanded(y, ResultArrived(res), k);
  }

  lemma KeptAfterShutter(y: System, res: HalResult, b: Buffer)
    requires SystemOk(y) && FairArrival(y.loans, ResultArrived(res)) && b in res.outputBuffers
    requires Keeps(y.table, res) && y.table.pending[res.frame].shutterTS > 0
    ensures var k := Key(res.frame, b.streamId);
            && At(LoansAfter(y.table, y.loans, ResultArrived(res)), k, InTable)
            && !HasIn(Held(HandleCaptureResult(y.table, res), res.frame), k.stream)
  {
    hide CoreOk, HeldOk, OwedOk, WorkOk, UsedOk, Held, HandleCaptureResult, Keeps;
    var k := Key(res.frame, b.streamId);
    HeldInTable(y.table, y.loans, res.frame);
    assert At(y.loans, k, AtHal) && HasStream(res.outputBuffers, k.stream);
    KeepsIsAccepted(y.table, res);
    HeldShrinks(y.table, res);
  }

  lemma KeepsIsAccepted(t: Table, res: HalResult)
    requires Keeps(t, res) && res.outputBuffers != []
    ensures Accepts(t, res)
  {
  }

  /** And a shutter in order hands over everything held back for its frame. */
  lemma ShutterHandsHeld(config: Config, sizes: map<int, (int, nat)>, events: seq<SystemEvent>, y: System, f: uint32,
      ts: int, k: Key)
    requires Reached(config, sizes, events, y) && At(y.loans, k, InTable) && k.frame == f
    requires f in y.table.pending && y.table.nextShutter <= f
    ensures var y' := SystemStep(y, Arrived(ShutterArrived(f, ts))); k in y'.loans && HandedOver(y'.loans[k].place)
  {
    hide Reached, SystemOk, ParkedOk, Held, NotifyShutter, Arrive;
    ReachedOk(config, sizes, events, y);
    ShutterHoldsNone(y.table, f, ts);
    NotHeldIsHanded(y, ShutterArrived(f, ts), k);
  }

  /** Over every run of worker, HAL, client and whoever configures the streams: the calls each
      stream has seen are ones its pool can expect, so what is proved of such runs holds of it;
      its buffers out are those of the loans that are out, with the handle that was taken; the
      client got each buffer handed over once, with that handle; and a frame that left the table,
      or never entered it, has nothing at the HAL or held back. */
  lemma BuffersFlow(config: Config, sizes: map<int, (int, nat)>, events: seq<SystemEvent>)
    requires FairSystemRun(Start(config, sizes), events)
    ensures var y := SystemRun(Start(config, sizes), events);
            && (forall id :: id in y.streams ==>
                  var l := y.streams[id];
                  && l.first == Pool.NewStream(true, l.first.usage, l.first.maxBuffers)
                  && Pool.OrderlyRun(l.first, l.calls) && l.now == Pool.Run(l.first, l.calls)
                  && StreamLoans(l.now, y.loans, id))
            && LogOk(y.log, y.loans)
            && (forall k :: k in y.loans && k.frame !in y.table.pending ==>
                  !y.loans[k].place.AtHal? && !y.loans[k].place.InTable?)
  {
    SystemInvariant(config, sizes, events);
    hide FairSystemRun, SystemRun, StreamLoans, LogOk, WorkOk, UsedOk, Pool.NewStream, Pool.OrderlyRun, Pool.Run;
    var y := SystemRun(Start(config, sizes), events);
    forall id | id in y.streams ensures LineOk(y.streams[id]) && StreamLoans(y.streams[id].now, y.loans, id) {
    }
    forall k | k in y.loans && k.frame !in y.table.pending
      ensures !y.loans[k].place.AtHal? && !y.loans[k].place.InTable?
    {
      NothingLeft(y, k);
    }
  }

  lemma NothingLeft(y: System, k: Key)
    requires HeldOk(y.table, y.loans) && OwedOk(y.table, y.loans) && k in y.loans && k.frame !in y.table.pending
    ensures !y.loans[k].place.AtHal? && !y.loans[k].place.InTable?
  {
    assert |AtHalOf(y.loans, k.frame)| <= Owed(y.table, k.frame);
    assert k.stream !in AtHalOf(y.loans, k.frame);
    assert !HasIn(Held(y.table, k.frame), k.stream);
    assert !At(y.loans, Key(k.frame, k.stream), InTable);
  }
}
