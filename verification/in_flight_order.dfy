/** The join of shutters, metadata and buffers preserves frame order: for a HAL that sends
    shutters in frame order and final metadata in frame order, however these are interleaved
    with each other, with buffers, failed ones too, and with error messages, final results come
    out in order, one for each frame whose two parts came while the table still knew it. */
module InFlightOrder {
  import opened Wrappers
  import opened InFlightTable
  import C = InFlightConservation

  /** What a HAL has sent about one frame before the table was done with it, and the request id it
      was registered with. `partials` are the partial metadata, oldest first; `resultCount` the last
      partial result number other than 0, and `callCount` what that was when shutter and final
      metadata had both come. `troubled`: an error message came for it, or a failed buffer was
      returned or released outside a flush; `heldFailed`: a failed buffer came before the shutter
      and is not released yet; `gone`: the table is done with it. */
  datatype Sent = Sent(
    requestId: int, count: int, returned: int, shuttered: bool, payload: Option<Metadata>,
    partials: seq<Metadata>, resultCount: int, callCount: int, troubled: bool, heldFailed: bool, gone: bool)

  function Newest(partials: seq<Metadata>): Metadata {
    if partials == [] then map[] else partials[|partials| - 1]
  }

  /** The metadata in a result is final, unless the HAL sends it in several parts and more are to come. */
  predicate CarriesPartial(config: Config, res: HalResult) {
    res.inline.Some? && config.partialCount > 1 && res.partialResult < config.partialCount
  }

  predicate CarriesFinal(config: Config, res: HalResult) {
    res.inline.Some? && (config.partialCount <= 1 || res.partialResult == config.partialCount)
  }

  predicate WellNumbered(config: Config, res: HalResult) {
    res.inline.Some? ==>
      if config.partialCount > 1 then 1 <= res.partialResult <= config.partialCount else res.partialResult == 1
  }

  /** The final metadata itself comes through the queue. */
  function Queued(res: HalResult): Metadata {
    match res.fmq
    case FmqPayload(payload) => payload
    case _ => map[]
  }

  /** What a HAL has sent: one past the last frame it sent a shutter (final metadata) for.
      `trouble`: an error message came or some frame is troubled. */
  datatype Hal = Hal(
    shutterNext: int, metaNext: int, frames: map<uint32, Sent>, flushing: bool, trouble: bool)

  const SILENT_HAL := Hal(0, 0, map[], false, false)

  /** The table is done with a frame at the first shutter or result after which all its buffers
      have come and either it is troubled or its shutter and its final metadata have come. */
  function Settled(s: Sent): Sent {
    s.(gone := s.returned == s.count && (s.troubled || Finished(s)))
  }

  predicate BothParts(s: Sent) { s.shuttered && s.payload.Some? }

  predicate Finished(s: Sent) { BothParts(s) && s.returned == s.count }

  function AfterShutter(s: Sent, flushing: bool): Sent {
    if s.gone then s
    else
      Settled(s.(shuttered := true, troubled := s.troubled || (s.heldFailed && !flushing), heldFailed := false,
                 callCount := if BothParts(s) then s.callCount else s.resultCount))
  }

  function AfterResult(config: Config, s: Sent, res: HalResult, flushing: bool): Sent {
    if s.gone then s
    else
      var failed := exists b :: b in res.outputBuffers && !b.ok;
      var resultCount := if res.partialResult != 0 then res.partialResult else s.resultCount;
      Settled(s.(returned := s.returned + |res.outputBuffers|,
                 partials := if CarriesPartial(config, res) then s.partials + [res.inline.value] else s.partials,
                 payload := if CarriesFinal(config, res) then Some(Queued(res)) else s.payload,
                 resultCount := resultCount,
                 callCount := if BothParts(s) then s.callCount else resultCount,
                 troubled := s.troubled || (failed && s.shuttered && !flushing),
                 heldFailed := s.heldFailed || (failed && !s.shuttered)))
  }

  predicate FrameError(code: int) {
    code == ERROR_REQUEST || code == ERROR_RESULT || code == ERROR_BUFFER
  }

  /** A result with neither metadata nor buffers. */
  predicate Silent(res: HalResult) {
    res.inline.None? && res.outputBuffers == []
  }

  function HalStep(config: Config, h: Hal, e: Event): Hal {
    match e
    case Registered(f, n, id) =>
      h.(frames := h.frames[f := Sent(id, n, 0, false, None, [], 0, 0, false, false, false)])
    case ShutterArrived(f, _) =>
      if f !in h.frames then h
      else
        var s := AfterShutter(h.frames[f], h.flushing);
        h.(shutterNext := f + 1, frames := h.frames[f := s], trouble := h.trouble || s.troubled)
    case ResultArrived(res) =>
      var f := res.frame;
      if f !in h.frames || Silent(res) then h
      else
        var s := AfterResult(config, h.frames[f], res, h.flushing);
        h.(metaNext := if CarriesFinal(config, res) then f + 1 else h.metaNext,
           frames := h.frames[f := s], trouble := h.trouble || s.troubled)
    case ErrorArrived(code, f) =>
      h.(trouble := true,
         frames := if f in h.frames && !h.frames[f].gone && FrameError(code)
                   then h.frames[f := h.frames[f].(troubled := true)] else h.frames)
    case FlushSet(on) => h.(flushing := on)
    case Drained => h
  }

  /** Shutters in frame order, final metadata in frame order, partial metadata before the final
      one, no more buffers than registered. Nothing relates the order of shutters, metadata and
      buffers to each other; buffers may fail, in a flush or not, and error messages may come at
      any time for any frame. */
  predicate Orderly(config: Config, h: Hal, e: Event) {
    match e
    case Registered(f, n, _) => f !in h.frames && n >= 0 && f < TWO_TO_THE_32 - 1
    case ShutterArrived(f, ts) => f in h.frames && f >= h.shutterNext && ts > 0
    case ResultArrived(res) =>
      && res.frame in h.frames
      && !res.inputBuffer
      && h.frames[res.frame].returned + |res.outputBuffers| <= h.frames[res.frame].count
      && !res.fmq.FmqReadFails?
      && WellNumbered(config, res)
      && (CarriesFinal(config, res) ==> res.frame >= h.metaNext)
      && (CarriesPartial(config, res) ==> h.frames[res.frame].payload.None?)
    case _ => true
  }

  /** The table reads results the same way. */
  lemma ReadAsSent(config: Config, res: HalResult)
    requires WellNumbered(config, res)
    ensures IsPartial(config, res) <==> CarriesPartial(config, res)
    ensures IsFinal(config, res) <==> CarriesFinal(config, res)
    ensures FinalPayload(res) == Queued(res) && !(IsPartial(config, res) && IsFinal(config, res))
  {
  }

  function HalRun(config: Config, events: seq<Event>): Hal {
    if events == [] then SILENT_HAL
    else HalStep(config, HalRun(config, events[..|events| - 1]), events[|events| - 1])
  }

  predicate OrderlyRun(config: Config, events: seq<Event>) {
    forall k :: 0 <= k < |events| ==> Orderly(config, HalRun(config, events[..k]), events[k])
  }

  /** A result callback, of partial or of final metadata. */
  datatype Callback =
    | Partial(frame: uint32, metadata: Metadata)
    | Final(frame: uint32, requestId: int, resultCount: int, metadata: Metadata)

  /** The result callbacks, oldest first. */
  function ResultLog(out: seq<Output>): seq<Callback> {
    if out == [] then [] else ResultLog(out[..|out| - 1]) + Logged(out[|out| - 1])
  }

  function Logged(o: Output): seq<Callback> {
    match o
    case FinalResult(f, id, count, metadata) => [Final(f, id, count, metadata)]
    case PartialResult(f, metadata) => [Partial(f, metadata)]
    case _ => []
  }

  /** Final callbacks are in frame order. */
  predicate InOrder(log: seq<Callback>) {
    forall i, j :: 0 <= i < j < |log| && log[i].Final? && log[j].Final? ==> log[i].frame < log[j].frame
  }

  /** The only device errors are a payload without a timestamp or with a wrong one and, once there
      was trouble, error messages of the device and parts that came for a frame already gone. */
  predicate Clean(out: seq<Output>, trouble: bool) {
    forall o :: o in out && o.DeviceError? ==>
      || o.cause == NoTimestamp || o.cause == TimestampMismatch
      || (trouble && (o.cause == UnknownFrame || o.cause == UnknownShutterFrame
                      || o.cause == SeriousError || o.cause == UnknownError))
  }

  /** The outputs grew by no device error but those about timestamps. */
  predicate Tidy(out: seq<Output>, out': seq<Output>) {
    forall o :: o in out' && o.DeviceError? ==> o in out || o.cause == NoTimestamp || o.cause == TimestampMismatch
  }

  /** Whether a final payload carries what the client is promised: a sensor timestamp. */
  predicate Deliverable(config: Config, f: uint32, payload: Metadata, composed: Metadata) {
    payload != map[] && SensorTimestamp in Composed(config, f, payload, composed)
  }

  function PartialOf(f: uint32, requestId: int, metadata: Metadata): Callback {
    Partial(f, metadata[RequestFrameCount := AsInt32(f)][RequestId := requestId])
  }

  /** The callbacks owed for partial metadata: one for each. */
  function PartialsDue(f: uint32, requestId: int, partials: seq<Metadata>): seq<Callback> {
    if partials == [] then []
    else PartialsDue(f, requestId, partials[..|partials| - 1]) + [PartialOf(f, requestId, partials[|partials| - 1])]
  }

  /** The final callback owed for a frame, once both its shutter and its final metadata came before
      it was gone. */
  function FinalDue(config: Config, f: uint32, s: Sent): seq<Callback> {
    if BothParts(s) && Deliverable(config, f, s.payload.value, Newest(s.partials))
    then [Final(f, s.requestId, s.callCount, Composed(config, f, s.payload.value, Newest(s.partials)))] else []
  }

  function Due(config: Config, f: uint32, s: Sent): seq<Callback> {
    PartialsDue(f, s.requestId, s.partials) + FinalDue(config, f, s)
  }

  /** The callbacks made for a frame. */
  function Made(log: seq<Callback>, f: uint32): seq<Callback> {
    if log == [] then []
    else
      var x := log[|log| - 1];
      Made(log[..|log| - 1], f) + if x.frame == f then [x] else []
  }

  predicate EntryJoined(config: Config, r: Pending, s: Sent) {
    && (r.status != 0 <==> s.troubled)
    && (if s.shuttered then r.shutterTS > 0 && r.pendingBuffers == [] else r.shutterTS == 0)
    && ((exists b :: b in r.pendingBuffers && !b.ok) <==> s.heldFailed)
    && r.requestId == s.requestId && r.partialResultCount == s.resultCount
    && r.isMetaPresent == s.payload.Some?
    && r.buffersRemaining == s.count - s.returned >= 0
    && (!s.shuttered ==> r.pendingMetadata == (if s.payload.Some? then s.payload.value else map[]))
    && (s.payload.None? || !s.shuttered ==> r.composedResult == Newest(s.partials))
  }

  predicate SentOk(config: Config, s: Sent) {
    && (config.partialCount <= 1 ==> s.partials == [])
    && (Finished(s) ==> s.gone)
    && (s.gone ==> s.returned == s.count && (s.troubled || Finished(s)))
  }

  predicate FrameJoined(t: Table, h: Hal, f: uint32)
    requires f in h.frames
  {
    var s := h.frames[f];
    && f < TWO_TO_THE_32 - 1
    && (s.shuttered ==> f < h.shutterNext)
    && (s.payload.Some? ==> f < h.metaNext)
    && SentOk(t.config, s)
    && (s.troubled ==> h.trouble)
    && (f in t.pending <==> !s.gone)
    && (f in t.pending ==> EntryJoined(t.config, t.pending[f], s))
    && Made(ResultLog(t.out), f) == Due(t.config, f, s)
  }

  ghost predicate Joined(t: Table, h: Hal) {
    && t.config.resultCb
    && t.flushing == h.flushing
    && t.nextShutter <= h.shutterNext
    && t.nextResult <= h.shutterNext && t.nextResult <= h.metaNext
    && (forall f :: f in t.pending ==> f in h.frames)
    && (forall f :: f in h.frames ==> FrameJoined(t, h, f))
    && (forall f :: f !in h.frames ==> Made(ResultLog(t.out), f) == [])
    && Clean(t.out, h.trouble)
    && InOrder(ResultLog(t.out))
    && (forall x :: x in ResultLog(t.out) && x.Final? ==> x.frame < t.nextResult)
  }

  lemma ResultLogOne(out: seq<Output>, o: Output)
    ensures ResultLog(out + [o]) == ResultLog(out) + Logged(o)
  {
    assert (out + [o])[..|out|] == out;
  }

  lemma {:induction false} ResultLogSilent(out: seq<Output>, d: seq<Output>)
    requires forall o :: o in d ==> Logged(o) == []
    ensures ResultLog(out + d) == ResultLog(out)
  {
    if d == [] {
      assert out + d == out;
    } else {
      var init, o := d[..|d| - 1], d[|d| - 1];
      assert out + d == (out + init) + [o];
      ResultLogOne(out + init, o);
      ResultLogSilent(out, init);
    }
  }

  lemma MadeOne(log: seq<Callback>, x: Callback, f: uint32)
    ensures Made(log + [x], f) == Made(log, f) + if x.frame == f then [x] else []
  {
    assert (log + [x])[..|log|] == log;
  }

  /** Sending the metadata of a frame not yet passed makes its callback, and never an order error. */
  lemma SendJoins(t: Table, metadata: Metadata, r: Pending, collected: Metadata, f: uint32)
    requires t.config.resultCb && t.nextResult <= f < TWO_TO_THE_32 - 1
    ensures var t' := SendCaptureResult(t, metadata, r, collected, f);
            && t' == t.(out := t'.out, nextResult := if metadata == map[] then t.nextResult else f + 1)
            && Tidy(t.out, t'.out)
            && ResultLog(t'.out) == ResultLog(t.out) +
                 if Deliverable(t.config, f, metadata, collected)
                 then [Final(f, r.requestId, r.partialResultCount, Composed(t.config, f, metadata, collected))] else []
  {
    hide ResultLog, Composed;
    var full := Composed(t.config, f, metadata, collected);
    ResultLogOne(t.out, DeviceError(NoTimestamp));
    ResultLogOne(t.out, FinalResult(f, r.requestId, r.partialResultCount, full));
  }

  /** The entry once buffers of its frame are handed out. */
  function Marked(r: Pending, buffers: seq<Buffer>, flushing: bool): Pending {
    if AnyFailed(buffers) && !flushing then r.(status := ERROR_BUFFER) else r
  }

  lemma ReturnJoins(t: Table, buffers: seq<Buffer>, ts: int, f: uint32)
    requires f in t.pending
    ensures var t' := ReturnOutputBuffers(t, buffers, ts, f);
            && t' == t.(out := t'.out, pending := t.pending[f := Marked(t.pending[f], buffers, t.flushing)])
            && ResultLog(t'.out) == ResultLog(t.out) && Tidy(t.out, t'.out)
  {
    hide ResultLog, Deliveries, AnyFailed;
    var d := Deliveries(buffers, ts, f, t.flushing);
    C.DeliveriesStamped(buffers, ts, f, t.flushing);
    assert forall o :: o in d ==> Logged(o) == [] && !o.DeviceError?;
    ResultLogSilent(t.out, d);
    assert forall o :: o in t.out + d ==> o in t.out || o in d;
    assert t.pending[f := t.pending[f]] == t.pending;
  }

  lemma RemoveJoins(t: Table, f: uint32)
    requires f in t.pending
    ensures var t' := RemovePendingRequest(t, f);
            && t' == t.(out := t'.out, errored := t'.errored,
                        pending := if Complete(t.pending[f]) then t.pending - {f} else t.pending)
            && ResultLog(t'.out) == ResultLog(t.out) && Tidy(t.out, t'.out)
  {
    hide ResultLog, ReturnOutputBuffers, AnyFailed;
    var r := t.pending[f];
    var t1 := if r.status == 0 && r.sensorTS != r.shutterTS then t.Fail(TimestampMismatch) else t;
    ResultLogOne(t.out, DeviceError(TimestampMismatch));
    if Complete(r) {
      ReturnJoins(t1, r.pendingBuffers, 0, f);
      assert t1.pending[f := Marked(r, r.pendingBuffers, t.flushing)] - {f} == t.pending - {f};
    }
  }

  /** The log grows in order when the frame it grows by is not yet passed. */
  lemma LogGrows(log: seq<Callback>, made: seq<Callback>, f: uint32, g: uint32, next: int)
    requires InOrder(log) && (forall x :: x in log && x.Final? ==> x.frame < next)
    requires made == [] || (|made| == 1 && made[0].frame == f && (made[0].Final? ==> f >= next))
    ensures InOrder(log + made)
    ensures Made(log + made, g) == Made(log, g) + if f == g then made else []
  {
    if made == [] {
      assert log + made == log;
    } else {
      assert made == [made[0]];
      MadeOne(log, made[0], g);
      forall i, j | 0 <= i < j < |log + made| && (log + made)[i].Final? && (log + made)[j].Final?
        ensures (log + made)[i].frame < (log + made)[j].frame
      {
        assert log[i] in log;
      }
    }
  }

  /** A step that concerns frame `f` only: elsewhere the table and the HAL's record agree. */
  predicate OnlyFrame(t: Table, t': Table, h: Hal, h': Hal, f: uint32) {
    && t'.config == t.config
    && t'.pending - {f} == t.pending - {f}
    && h'.frames - {f} == h.frames - {f}
    && h'.shutterNext >= h.shutterNext && h'.metaNext >= h.metaNext
    && t'.flushing == t.flushing && h'.flushing == h.flushing && (h.trouble ==> h'.trouble)
  }

  lemma OtherFrameKept(t: Table, t': Table, h: Hal, h': Hal, f: uint32, g: uint32)
    requires OnlyFrame(t, t', h, h', f) && g != f
    requires Made(ResultLog(t'.out), g) == Made(ResultLog(t.out), g)
    ensures g in t'.pending <==> g in t.pending
    ensures g in h'.frames <==> g in h.frames
    ensures g in h.frames && FrameJoined(t, h, g) ==> FrameJoined(t', h', g)
  {
    assert g in t'.pending <==> g in t'.pending - {f};
    assert g in t.pending <==> g in t.pending - {f};
    assert g in h'.frames <==> g in h'.frames - {f};
    assert g in h.frames <==> g in h.frames - {f};
    assert g in t.pending ==> (t'.pending - {f})[g] == (t.pending - {f})[g];
    assert g in h.frames ==> (h'.frames - {f})[g] == (h.frames - {f})[g];
  }

  /** A step that changes one frame, and makes at most its callback, keeps the join. */
  lemma CommitFrame(t: Table, t': Table, h: Hal, h': Hal, f: uint32, made: seq<Callback>)
    requires Joined(t, h) && OnlyFrame(t, t', h, h', f)
    requires Clean(t'.out, h'.trouble) && f in h'.frames && t'.nextShutter <= h'.shutterNext
    requires ResultLog(t'.out) == ResultLog(t.out) + made
    requires made == [] || (|made| == 1 && made[0].frame == f)
    requires made != [] && made[0].Final? ==> t'.nextResult == f + 1 && f >= t.nextResult
    requires t.nextResult <= t'.nextResult <= h'.shutterNext && t'.nextResult <= h'.metaNext
    requires FrameJoined(t', h', f)
    ensures Joined(t', h')
  {
    hide Made, InOrder, ResultLog, Clean, FrameJoined;
    var log, log' := ResultLog(t.out), ResultLog(t'.out);
    LogGrows(log, made, f, f, t.nextResult);
    forall g | g != f
      ensures g in t'.pending <==> g in t.pending
      ensures g in h'.frames <==> g in h.frames
      ensures Made(log', g) == Made(log, g)
      ensures g in h.frames ==> FrameJoined(t', h', g)
    {
      LogGrows(log, made, f, g, t.nextResult);
      OtherFrameKept(t, t', h, h', f, g);
    }
    forall x | x in log' && x.Final? ensures x.frame < t'.nextResult {
      assert x in log || x in made;
    }
  }

  lemma RegisterJoins(t: Table, h: Hal, f: uint32, n: int, id: int)
    requires Joined(t, h) && Orderly(t.config, h, Registered(f, n, id))
    ensures Joined(Register(t, f, n, id), HalStep(t.config, h, Registered(f, n, id)))
  {
    hide ResultLog, Made, FrameJoined, InOrder, Clean;
    var h' := HalStep(t.config, h, Registered(f, n, id));
    assert ResultLog(t.out) + [] == ResultLog(t.out);
    NewFrameJoined(t, h, f, n, id);
    CommitFrame(t, Register(t, f, n, id), h, h', f, []);
  }

  lemma NewFrameJoined(t: Table, h: Hal, f: uint32, n: int, id: int)
    requires Joined(t, h) && Orderly(t.config, h, Registered(f, n, id))
    ensures FrameJoined(Register(t, f, n, id), HalStep(t.config, h, Registered(f, n, id)), f)
  {
    hide ResultLog, Made, Composed, Deliverable, InOrder, Clean;
    NotYetKnown(t, h, f);
    hide Joined;
  }

  lemma NotYetKnown(t: Table, h: Hal, f: uint32)
    requires Joined(t, h) && f !in h.frames
    ensures f !in t.pending && Made(ResultLog(t.out), f) == []
  {
  }

  /** The callbacks an in-order shutter makes. */
  function ShutterMakes(config: Config, f: uint32, p: Pending): seq<Callback> {
    if Deliverable(config, f, p.pendingMetadata, p.composedResult)
    then [Final(f, p.requestId, p.partialResultCount, Composed(config, f, p.pendingMetadata, p.composedResult))] else []
  }

  /** The entry an in-order shutter leaves. */
  function TakenEntry(p: Pending, ts: int, flushing: bool): Pending {
    Marked(p.(shutterTS := ts, pendingBuffers := []), p.pendingBuffers, flushing)
  }

  /** All an in-order shutter does to the table, up to the removal of its entry. */
  lemma ShutterEffect(t: Table, f: uint32, ts: int)
    requires f in t.pending && t.nextShutter <= f < TWO_TO_THE_32 - 1 && t.nextResult <= f && t.config.resultCb
    ensures var t', p := ShutterTaken(t, f, ts), t.pending[f];
            && t' == t.(out := t'.out, nextShutter := f + 1,
                        nextResult := if p.pendingMetadata == map[] then t.nextResult else f + 1,
                        pending := t.pending[f := TakenEntry(p, ts, t.flushing)])
            && Tidy(t.out, t'.out)
            && ResultLog(t'.out) == ResultLog(t.out) + ShutterMakes(t.config, f, p)
  {
    hide SendCaptureResult, ReturnOutputBuffers, Deliverable, Composed, AnyFailed, ResultLog;
    var r := t.pending[f].(shutterTS := ts);
    ResultLogOne(t.out, ShutterCallback(f, ts));
    var t1 := t.Emit(ShutterCallback(f, ts)).(nextShutter := Wrap32(f + 1)).Put(f, r);
    assert Tidy(t.out, t1.out);
    SendJoins(t1, r.pendingMetadata, r, r.composedResult, f);
    ReturnJoins(SendCaptureResult(t1, r.pendingMetadata, r, r.composedResult, f), r.pendingBuffers, ts, f);
  }

  /** The entry a shutter leaves agrees with what the HAL has sent by then. */
  lemma EntryAfterShutter(config: Config, f: uint32, p: Pending, s: Sent, ts: int, flushing: bool)
    requires EntryJoined(config, p, s) && !s.shuttered && !s.gone && ts > 0
    ensures var r, s' := TakenEntry(p, ts, flushing), AfterShutter(s, flushing);
            EntryJoined(config, r, s') && (Complete(r) <==> s'.gone)
                && Due(config, f, s') == Due(config, f, s) + ShutterMakes(config, f, p)
  {
    hide Composed, PartialsDue;
  }

  /** All an in-order shutter does to the table. */
  lemma ShutterSummary(t: Table, f: uint32, ts: int)
    requires f in t.pending && t.nextShutter <= f < TWO_TO_THE_32 - 1 && t.nextResult <= f && t.config.resultCb
    ensures var t', p := NotifyShutter(t, f, ts), t.pending[f];
            var r := TakenEntry(p, ts, t.flushing);
            && t' == t.(out := t'.out, errored := t'.errored, nextShutter := f + 1,
                        nextResult := if p.pendingMetadata == map[] then t.nextResult else f + 1,
                        pending := if Complete(r) then t.pending - {f} else t.pending[f := r])
            && Tidy(t.out, t'.out)
            && ResultLog(t'.out) == ResultLog(t.out) + ShutterMakes(t.config, f, p)
  {
    hide Complete, ResultLog, ShutterMakes, AnyFailed, ShutterTaken, RemovePendingRequest;
    ShutterEffect(t, f, ts);
    RemoveJoins(ShutterTaken(t, f, ts), f);
    assert ShutterTaken(t, f, ts).pending - {f} == t.pending - {f};
  }

  lemma ShutterFrameJoined(t: Table, h: Hal, f: uint32, ts: int)
    requires Joined(t, h) && Orderly(t.config, h, ShutterArrived(f, ts)) && f in t.pending
    ensures FrameJoined(NotifyShutter(t, f, ts), HalStep(t.config, h, ShutterArrived(f, ts)), f)
  {
    hide NotifyShutter, EntryJoined, Complete, ShutterMakes, ResultLog, Made, Clean, Tidy, Due, Joined, TakenEntry;
    SentKnown(t, h, f);
    FrameKnown(t, h, f);
    ShutterReady(t, h, f);
    ShutterSummary(t, f, ts);
    OneShutterCallback(t.config, f, t.pending[f]);
    EntryAfterShutter(t.config, f, t.pending[f], h.frames[f], ts, t.flushing);
    LogGrows(ResultLog(t.out), ShutterMakes(t.config, f, t.pending[f]), f, f, t.nextResult);
  }

  lemma ShutterReady(t: Table, h: Hal, f: uint32)
    requires Joined(t, h)
    ensures t.config.resultCb && t.nextShutter <= h.shutterNext && t.nextResult <= h.shutterNext
    ensures InOrder(ResultLog(t.out)) && forall x :: x in ResultLog(t.out) && x.Final? ==> x.frame < t.nextResult
  {
  }

  lemma OneShutterCallback(config: Config, f: uint32, p: Pending)
    ensures var made := ShutterMakes(config, f, p); made == [] || (|made| == 1 && made[0].frame == f)
  {
    hide Composed;
  }

  lemma FrameKnown(t: Table, h: Hal, f: uint32)
    requires Joined(t, h) && f in h.frames
    ensures f < TWO_TO_THE_32 - 1
    ensures f in t.pending && f >= h.shutterNext && t.pending[f].pendingMetadata != map[] ==> f < h.metaNext
  {
    assert FrameJoined(t, h, f);
  }

  lemma TidyIsClean(out: seq<Output>, out': seq<Output>, trouble: bool, trouble': bool)
    requires Clean(out, trouble) && Tidy(out, out') && (trouble ==> trouble')
    ensures Clean(out', trouble')
  {
  }

  lemma ShutterJoins(t: Table, h: Hal, f: uint32, ts: int)
    requires Joined(t, h) && Orderly(t.config, h, ShutterArrived(f, ts)) && f in t.pending
    ensures Joined(NotifyShutter(t, f, ts), HalStep(t.config, h, ShutterArrived(f, ts)))
    ensures NotifyShutter(t, f, ts).config == t.config
  {
    hide FrameJoined, NotifyShutter, Complete, ResultLog, Clean, Composed, Tidy, Made, InOrder, TakenEntry,
        AfterShutter;
    FrameKnown(t, h, f);
    ShutterFrameJoined(t, h, f, ts);
    ShutterSummary(t, f, ts);
    var h', t' := HalStep(t.config, h, ShutterArrived(f, ts)), NotifyShutter(t, f, ts);
    assert t'.pending - {f} == t.pending - {f};
    assert h'.frames - {f} == h.frames - {f};
    TidyIsClean(t.out, t'.out, h.trouble, h'.trouble);
    CommitFrame(t, t', h, h', f, ShutterMakes(t.config, f, t.pending[f]));
  }

  /** A step that leaves the entries and the callbacks alone, and may report trouble. */
  lemma SameEntriesJoined(t: Table, t': Table, h: Hal, h': Hal)
    requires Joined(t, h)
    requires t' == t.(errored := t'.errored, flushing := t'.flushing, out := t'.out) && t'.flushing == h'.flushing
    requires h' == h.(flushing := h'.flushing, trouble := h'.trouble, shutterNext := h'.shutterNext,
                      metaNext := h'.metaNext)
    requires (h.trouble ==> h'.trouble) && h.shutterNext <= h'.shutterNext && h.metaNext <= h'.metaNext
    requires ResultLog(t'.out) == ResultLog(t.out) && Clean(t'.out, h'.trouble)
    ensures Joined(t', h')
  {
    forall f | f in h'.frames ensures FrameJoined(t', h', f) { assert FrameJoined(t, h, f); }
  }

  /** A part that comes for a frame already gone finds the trouble the frame ended in, unless it
      is a result without content. */
  lemma GoneWasTroubled(t: Table, h: Hal, e: Event)
    requires Joined(t, h) && Orderly(t.config, h, e)
    requires e.ShutterArrived? || (e.ResultArrived? && !Silent(e.result))
    requires C.FrameOf(e) !in t.pending
    ensures var s := h.frames[C.FrameOf(e)]; s.gone && s.troubled && h.trouble
  {
    assert FrameJoined(t, h, C.FrameOf(e));
  }

  /** A shutter or a result for a frame already gone changes no entry. */
  lemma LateJoins(t: Table, h: Hal, e: Event)
    requires Joined(t, h) && Orderly(t.config, h, e)
    requires e.ShutterArrived? || (e.ResultArrived? && !Silent(e.result))
    requires C.FrameOf(e) !in t.pending
    ensures Joined(Step(t, e), HalStep(t.config, h, e)) && Step(t, e).config == t.config
  {
    GoneWasTroubled(t, h, e);
    LateEffect(t, h, e);
    hide Joined, Step, HalStep;
    SameEntriesJoined(t, Step(t, e), h, HalStep(t.config, h, e));
  }

  lemma LateEffect(t: Table, h: Hal, e: Event)
    requires Joined(t, h) && Orderly(t.config, h, e)
    requires e.ShutterArrived? || (e.ResultArrived? && !Silent(e.result))
    requires C.FrameOf(e) !in t.pending && h.frames[C.FrameOf(e)].gone && h.trouble
    ensures var t', h' := Step(t, e), HalStep(t.config, h, e);
            && t' == t.(errored := t'.errored, out := t'.out) && ResultLog(t'.out) == ResultLog(t.out)
            && Clean(t'.out, true)
            && h' == h.(shutterNext := h'.shutterNext, metaNext := h'.metaNext)
            && h.shutterNext <= h'.shutterNext && h.metaNext <= h'.metaNext
  {
    hide ResultLog, FrameJoined, InOrder, Made;
    var f := C.FrameOf(e);
    assert h.frames[f := h.frames[f]] == h.frames;
    ResultLogOne(t.out, DeviceError(UnknownFrame));
    ResultLogOne(t.out, DeviceError(UnknownShutterFrame));
    if e.ResultArrived? { LateResult(t, e.result); }
  }

  lemma LateResult(t: Table, res: HalResult)
    requires Readable(t.config, res) && res.frame !in t.pending
    ensures HandleCaptureResult(t, res)
            == if res.frame in t.errored then t.(errored := t.errored - {res.frame}) else t.Fail(UnknownFrame)
  {
  }

  lemma ErrorEffect(t: Table, code: int, f: uint32)
    ensures var t' := NotifyError(t, code, f);
            && t' == t.(out := t'.out,
                        pending := if FrameError(code) && f in t.pending
                                   then t.pending[f := t.pending[f].(status := code)] else t.pending)
            && ResultLog(t'.out) == ResultLog(t.out)
            && (forall trouble :: Clean(t.out, trouble) ==> Clean(t'.out, true))
  {
    hide ResultLog;
    ResultLogOne(t.out, ErrorCallback(code, f));
    ResultLogOne(t.out, DeviceError(SeriousError));
    ResultLogOne(t.out, DeviceError(UnknownError));
  }

  lemma ErrorJoins(t: Table, h: Hal, code: int, f: uint32)
    requires Joined(t, h)
    ensures Joined(NotifyError(t, code, f), HalStep(t.config, h, ErrorArrived(code, f)))
    ensures NotifyError(t, code, f).config == t.config
  {
    hide ResultLog, Made, Due, InOrder, Clean, NotifyError, FrameJoined, FrameError;
    ErrorEffect(t, code, f);
    var t', h' := NotifyError(t, code, f), HalStep(t.config, h, ErrorArrived(code, f));
    assert ResultLog(t'.out) == ResultLog(t.out) + [];
    if f in h.frames { ErrorFrameJoined(t, h, code, f); }
    if FrameError(code) && f in t.pending {
      assert t'.pending - {f} == t.pending - {f};
      assert h'.frames - {f} == h.frames - {f};
      CommitFrame(t, t', h, h', f, []);
    } else {
      SameEntriesJoined(t, t', h, h');
    }
  }

  lemma ErrorFrameJoined(t: Table, h: Hal, code: int, f: uint32)
    requires Joined(t, h) && f in h.frames
    ensures f in t.pending <==> !h.frames[f].gone
    ensures FrameJoined(NotifyError(t, code, f), HalStep(t.config, h, ErrorArrived(code, f)), f)
  {
    hide ResultLog, Made, Due, Joined, Clean, NotifyError, EntryJoined, SentOk;
    SentKnown(t, h, f);
    ErrorEffect(t, code, f);
    TroubleOnly(t.config, f, h.frames[f]);
    if FrameError(code) && f in t.pending { EntryTroubled(t.config, t.pending[f], h.frames[f], code); }
  }

  lemma TroubleOnly(config: Config, f: uint32, s: Sent)
    ensures Due(config, f, s.(troubled := true)) == Due(config, f, s)
    ensures SentOk(config, s) ==> SentOk(config, s.(troubled := true))
  {
  }

  lemma EntryTroubled(config: Config, r: Pending, s: Sent, code: int)
    requires EntryJoined(config, r, s) && FrameError(code)
    ensures EntryJoined(config, r.(status := code), s.(troubled := true))
  {
  }

  /** The entry of a result's frame once the result's partial metadata is noted. */
  function NotedEntry(t: Table, res: HalResult): Pending
    requires res.frame in t.pending
  {
    var r := t.pending[res.frame];
    NotePartial(t.config,
                r.(partialResultCount := if res.partialResult != 0 then res.partialResult else r.partialResultCount),
                    res)
  }

  /** The callback for partial metadata. */
  function NotedMakes(t: Table, res: HalResult): seq<Callback>
    requires res.frame in t.pending
  {
    var r := NotedEntry(t, res);
    if IsPartial(t.config, res) then [PartialOf(res.frame, r.requestId, r.composedResult)] else []
  }

  lemma NotedJoins(t: Table, res: HalResult)
    requires res.frame in t.pending
    ensures var t' := C.Noted(t, res);
            && t' == t.(out := t'.out, pending := t.pending[res.frame := NotedEntry(t, res)])
            && ResultLog(t'.out) == ResultLog(t.out) + (if t.config.resultCb then NotedMakes(t, res) else [])
            && Tidy(t.out, t'.out)
  {
    hide ResultLog;
    var f, noted := res.frame, NotedEntry(t, res);
    var partial := noted.composedResult[RequestFrameCount := AsInt32(f)][RequestId := noted.requestId];
    ResultLogOne(t.out, PartialResult(f, partial));
  }

  /** An in-order result with metadata or buffers finds its entry and passes every check. */
  lemma OrderlyAccepted(t: Table, h: Hal, res: HalResult)
    requires Joined(t, h) && Orderly(t.config, h, ResultArrived(res))
    requires !Silent(res) && res.frame in t.pending
    ensures Accepts(t, res)
  {
    assert FrameJoined(t, h, res.frame);
  }

  /** The callback an accepted result makes with its final metadata. */
  function FinalMakes(config: Config, r: Pending, res: HalResult): seq<Callback> {
    var collected := Collected(config, r, res);
    if IsFinal(config, res) && r.shutterTS > 0 && Deliverable(config, res.frame, FinalPayload(res), collected)
    then [Final(res.frame, r.requestId, r.partialResultCount,
                Composed(config, res.frame, FinalPayload(res), collected))]
    else []
  }

  function ResultMakes(t: Table, res: HalResult): seq<Callback>
    requires res.frame in t.pending
  {
    NotedMakes(t, res) + FinalMakes(t.config, NotedEntry(t, res), res)
  }

  lemma OneCallback(t: Table, res: HalResult)
    requires res.frame in t.pending
    ensures var made := ResultMakes(t, res);
            && (made == [] || (|made| == 1 && made[0].frame == res.frame))
            && (made != [] && made[0].Final? ==>
                  IsFinal(t.config, res) && FinalPayload(res) != map[] && NotedEntry(t, res).shutterTS > 0)
  {
    hide Composed;
  }

  /** The entry an accepted result leaves; `r` is the entry with its partial metadata noted. */
  function RecordedEntry(config: Config, r: Pending, res: HalResult, flushing: bool): Pending {
    Marked(NoteFinal(config, r, res), if r.shutterTS > 0 then res.outputBuffers else [], flushing)
  }

  lemma NoteKeepsIds(config: Config, r: Pending, res: HalResult)
    ensures var r1 := NoteFinal(config, r, res);
            r1.requestId == r.requestId && r1.partialResultCount == r.partialResultCount
  {
  }

  /** All an accepted result does to the table, up to the removal of its entry. */
  lemma RecordedEffect(t: Table, r: Pending, res: HalResult)
    requires t.config.resultCb && r.shutterTS >= 0
    requires IsFinal(t.config, res) && r.shutterTS > 0 ==> t.nextResult <= res.frame < TWO_TO_THE_32 - 1
    ensures var f, t' := res.frame, Recorded(t, r, res);
            && t' == t.(out := t'.out,
                        nextResult := if IsFinal(t.config, res) && r.shutterTS > 0 && FinalPayload(res) != map[]
                                      then f + 1 else t.nextResult,
                        pending := t.pending[f := RecordedEntry(t.config, r, res, t.flushing)])
            && Tidy(t.out, t'.out)
            && ResultLog(t'.out) == ResultLog(t.out) + FinalMakes(t.config, r, res)
  {
    hide SendCaptureResult, ReturnOutputBuffers, NoteFinal, Deliverable, Composed, ResultLog;
    var f, r1 := res.frame, NoteFinal(t.config, r, res);
    NoteKeepsIds(t.config, r, res);
    var t1 := t.Put(f, r1);
    var sends := IsFinal(t.config, res) && r.shutterTS > 0;
    if sends { SendJoins(t1, FinalPayload(res), r1, Collected(t.config, r, res), f); }
    ReturnJoins(if sends then SendCaptureResult(t1, FinalPayload(res), r1, Collected(t.config, r, res), f) else t1,
                res.outputBuffers, r.shutterTS, f);
  }

  /** A result of a frame the table knows, from a HAL that has sent `s` about it. */
  predicate Expected(config: Config, s: Sent, res: HalResult) {
    && !s.gone && s.count - s.returned >= |res.outputBuffers| && !res.inputBuffer && WellNumbered(config, res)
    && (config.partialCount <= 1 ==> s.partials == [])
    && (CarriesPartial(config, res) || CarriesFinal(config, res) ==> s.payload.None?)
  }

  /** The entry a result leaves agrees with what the HAL has sent by then. */
  lemma EntryAfterResult(t: Table, s: Sent, res: HalResult)
    requires res.frame in t.pending && EntryJoined(t.config, t.pending[res.frame], s) && Expected(t.config, s, res)
    ensures var r1 := RecordedEntry(t.config, NotedEntry(t, res), res, t.flushing);
            var s' := AfterResult(t.config, s, res, t.flushing);
            EntryJoined(t.config, r1, s') && (Complete(r1) <==> s'.gone)
  {
    hide CarriesPartial, CarriesFinal, IsPartial, IsFinal, Queued, FinalPayload, Due;
    ReadAsSent(t.config, res);
    FailedIn(t.pending[res.frame].pendingBuffers, res.outputBuffers);
  }

  lemma FailedIn(a: seq<Buffer>, b: seq<Buffer>)
    ensures AnyFailed(b) <==> exists x :: x in b && !x.ok
    ensures (exists x :: x in a + b && !x.ok) <==> (exists x :: x in a && !x.ok) || (exists x :: x in b && !x.ok)
  {
    assert forall x :: x in a + b <==> x in a || x in b;
  }

  /** It makes the callbacks due by then. */
  lemma DueAfterResult(t: Table, s: Sent, res: HalResult)
    requires res.frame in t.pending && EntryJoined(t.config, t.pending[res.frame], s) && Expected(t.config, s, res)
    ensures Due(t.config, res.frame, AfterResult(t.config, s, res, t.flushing))
            == Due(t.config, res.frame, s) + ResultMakes(t, res)
  {
    hide Deliverable, Composed, CarriesFinal, IsPartial, IsFinal, Queued, FinalPayload, AnyFailed, PartialOf,
        EntryJoined, AfterResult, PartialsDue, NotedEntry, FinalMakes;
    ReadAsSent(t.config, res);
    SentAfterResult(t.config, s, res, t.flushing);
    var r := NotedEntry(t, res);
    NotedSays(t, s, res);
    FinalMakesSays(t.config, r, s, res);
    if CarriesPartial(t.config, res) { PartialsDueSnoc(res.frame, s.requestId, s.partials, res.inline.value); }
  }

  lemma SentAfterResult(config: Config, s: Sent, res: HalResult, flushing: bool)
    requires !s.gone
    ensures var s' := AfterResult(config, s, res, flushing);
            && s'.requestId == s.requestId && s'.shuttered == s.shuttered
            && s'.partials == (if CarriesPartial(config, res) then s.partials + [res.inline.value] else s.partials)
            && s'.payload == (if CarriesFinal(config, res) then Some(Queued(res)) else s.payload)
            && s'.resultCount == (if res.partialResult != 0 then res.partialResult else s.resultCount)
            && s'.callCount == (if BothParts(s) then s.callCount else s'.resultCount)
  {
  }

  lemma NotedSays(t: Table, s: Sent, res: HalResult)
    requires res.frame in t.pending && EntryJoined(t.config, t.pending[res.frame], s)
    ensures var r := NotedEntry(t, res);
            && r.requestId == s.requestId && (r.shutterTS > 0 <==> s.shuttered)
            && r.partialResultCount == (if res.partialResult != 0 then res.partialResult else s.resultCount)
            && (IsPartial(t.config, res) ==> r.composedResult == res.inline.value)
            && (!IsPartial(t.config, res) && s.payload.None? ==> r.composedResult == Newest(s.partials))
  {
  }

  lemma FinalMakesSays(config: Config, r: Pending, s: Sent, res: HalResult)
    requires IsFinal(config, res) ==> r.composedResult == Newest(s.partials)
    requires config.partialCount <= 1 ==> s.partials == []
    ensures FinalMakes(config, r, res)
            == if IsFinal(config, res) && r.shutterTS > 0
                  && Deliverable(config, res.frame, FinalPayload(res), Newest(s.partials))
               then [Final(res.frame, r.requestId, r.partialResultCount,
                           Composed(config, res.frame, FinalPayload(res), Newest(s.partials)))]
               else []
  {
  }

  lemma PartialsDueSnoc(f: uint32, requestId: int, partials: seq<Metadata>, m: Metadata)
    ensures PartialsDue(f, requestId, partials + [m])
            == PartialsDue(f, requestId, partials) + [PartialOf(f, requestId, m)]
  {
    assert (partials + [m])[..|partials|] == partials;
  }

  /** All an accepted result does to the table. */
  lemma ResultSummary(t: Table, res: HalResult)
    requires Accepts(t, res) && t.config.resultCb && t.pending[res.frame].shutterTS >= 0
    requires IsFinal(t.config, res) && t.pending[res.frame].shutterTS > 0
             ==> t.nextResult <= res.frame < TWO_TO_THE_32 - 1
    ensures var f, t', r := res.frame, HandleCaptureResult(t, res), NotedEntry(t, res);
            var r1 := RecordedEntry(t.config, r, res, t.flushing);
            && t' == t.(out := t'.out, errored := t'.errored,
                        nextResult := if IsFinal(t.config, res) && r.shutterTS > 0 && FinalPayload(res) != map[]
                                      then f + 1 else t.nextResult,
                        pending := if Complete(r1) then t.pending - {f} else t.pending[f := r1])
            && Tidy(t.out, t'.out)
            && ResultLog(t'.out) == ResultLog(t.out) + ResultMakes(t, res)
  {
    hide HandleCaptureResult, ResultLog, Complete, RecordedEntry, NotedMakes, FinalMakes, AcceptResult, Tidy;
    C.AcceptedIsNoted(t, res);
    NotedJoins(t, res);
    assert NotedEntry(t, res).shutterTS == t.pending[res.frame].shutterTS;
    var t0, r, f := C.Noted(t, res), NotedEntry(t, res), res.frame;
    ResultSummaryFromNoted(t, t0, r, res);
  }

  lemma ResultSummaryFromNoted(t: Table, t0: Table, r: Pending, res: HalResult)
    requires t0 == t.(out := t0.out, pending := t.pending[res.frame := r])
    requires Tidy(t.out, t0.out)
    requires t.config.resultCb && r.shutterTS >= 0
    requires IsFinal(t.config, res) && r.shutterTS > 0 ==> t.nextResult <= res.frame < TWO_TO_THE_32 - 1
    ensures var f, t' := res.frame, AcceptResult(t0, r, res);
            var r1 := RecordedEntry(t.config, r, res, t.flushing);
            && t' == t.(out := t'.out, errored := t'.errored,
                        nextResult := if IsFinal(t.config, res) && r.shutterTS > 0 && FinalPayload(res) != map[]
                                      then f + 1 else t.nextResult,
                        pending := if Complete(r1) then t.pending - {f} else t.pending[f := r1])
            && Tidy(t.out, t'.out)
            && ResultLog(t'.out) == ResultLog(t0.out) + FinalMakes(t.config, r, res)
  {
    hide Complete, ResultLog, FinalMakes, RecordedEntry, Recorded, RemovePendingRequest;
    var f, r1 := res.frame, RecordedEntry(t.config, r, res, t.flushing);
    RecordedEffect(t0, r, res);
    RemoveJoins(Recorded(t0, r, res), f);
    assert t0.pending[f := r1] == t.pending[f := r1];
    assert t.pending[f := r1] - {f} == t.pending - {f};
  }

  lemma ResultFrameJoined(t: Table, h: Hal, res: HalResult)
    requires Joined(t, h) && Orderly(t.config, h, ResultArrived(res)) && Accepts(t, res) && !Silent(res)
    ensures FrameJoined(HandleCaptureResult(t, res), HalStep(t.config, h, ResultArrived(res)), res.frame)
  {
    hide HandleCaptureResult, RecordedEntry, NotedEntry, ResultMakes, Due, ResultLog, Made, Joined, EntryJoined,
        SentOk, AfterResult, CarriesPartial, CarriesFinal, Complete, Tidy;
    var f := res.frame;
    SentKnown(t, h, f);
    ResultReady(t, h, res);
    ResultSummary(t, res);
    ResultMade(t, h, res);
    ResultExpected(t, h, res);
    EntryAfterResult(t, h.frames[f], res);
    DueAfterResult(t, h.frames[f], res);
    SentStaysOk(t.config, h.frames[f], res, t.flushing);
    SentAfterResult(t.config, h.frames[f], res, t.flushing);
  }

  lemma SentKnown(t: Table, h: Hal, f: uint32)
    requires Joined(t, h) && f in h.frames
    ensures FrameJoined(t, h, f) && t.flushing == h.flushing
  {
  }

  lemma ResultExpected(t: Table, h: Hal, res: HalResult)
    requires Joined(t, h) && Orderly(t.config, h, ResultArrived(res)) && res.frame in t.pending
    ensures Expected(t.config, h.frames[res.frame], res)
  {
    hide EntryJoined, Due, Made;
    SentKnown(t, h, res.frame);
  }

  lemma SentStaysOk(config: Config, s: Sent, res: HalResult, flushing: bool)
    requires SentOk(config, s) && !s.gone
    ensures SentOk(config, AfterResult(config, s, res, flushing))
  {
  }

  /** The result's callback is made for its frame. */
  lemma ResultMade(t: Table, h: Hal, res: HalResult)
    requires Joined(t, h) && Orderly(t.config, h, ResultArrived(res)) && Accepts(t, res)
    ensures Made(ResultLog(HandleCaptureResult(t, res).out), res.frame)
            == Made(ResultLog(t.out), res.frame) + ResultMakes(t, res)
  {
    hide HandleCaptureResult, Made, ResultLog, ResultMakes, RecordedEntry, Complete, Tidy, FrameJoined;
    ResultReady(t, h, res);
    OneCallback(t, res);
    ResultSummary(t, res);
    LogGrows(ResultLog(t.out), ResultMakes(t, res), res.frame, res.frame, t.nextResult);
  }

  lemma AcceptedJoins(t: Table, h: Hal, res: HalResult)
    requires Joined(t, h) && Orderly(t.config, h, ResultArrived(res)) && Accepts(t, res) && !Silent(res)
    ensures Joined(HandleCaptureResult(t, res), HalStep(t.config, h, ResultArrived(res)))
    ensures HandleCaptureResult(t, res).config == t.config
  {
    hide HandleCaptureResult, NotedEntry, RecordedEntry, ResultLog, Clean, Tidy, Composed, Made, Due, Joined,
        FrameJoined, Complete, AfterResult;
    var f, h', t' := res.frame, HalStep(t.config, h, ResultArrived(res)), HandleCaptureResult(t, res);
    ResultReady(t, h, res);
    ResultFrameJoined(t, h, res);
    ResultSummary(t, res);
    assert t'.pending - {f} == t.pending - {f};
    assert h'.frames - {f} == h.frames - {f};
    BoundsKept(t, h, res);
    TidyIsClean(t.out, t'.out, h.trouble, h'.trouble);
    CommitFrame(t, t', h, h', f, ResultMakes(t, res));
  }

  lemma ResultReady(t: Table, h: Hal, res: HalResult)
    requires Joined(t, h) && Orderly(t.config, h, ResultArrived(res)) && Accepts(t, res)
    ensures t.config.resultCb && t.pending[res.frame].shutterTS >= 0
    ensures res.frame < TWO_TO_THE_32 - 1 && (IsFinal(t.config, res) ==> t.nextResult <= res.frame)
  {
    hide ResultLog, Made, Due, Clean, InOrder;
    assert FrameJoined(t, h, res.frame);
  }

  lemma BoundsKept(t: Table, h: Hal, res: HalResult)
    requires Joined(t, h) && res.frame in t.pending
    ensures t.nextShutter <= h.shutterNext && t.nextResult <= h.shutterNext && t.nextResult <= h.metaNext
            && Clean(t.out, h.trouble) && t.flushing == h.flushing
    ensures NotedEntry(t, res).shutterTS > 0 ==> res.frame < h.shutterNext
  {
    assert FrameJoined(t, h, res.frame);
  }

  lemma ResultJoins(t: Table, h: Hal, res: HalResult)
    requires Joined(t, h) && Orderly(t.config, h, ResultArrived(res))
    ensures Joined(HandleCaptureResult(t, res), HalStep(t.config, h, ResultArrived(res)))
    ensures HandleCaptureResult(t, res).config == t.config
  {
    if Silent(res) {
    } else {
      hide Joined, HandleCaptureResult, HalStep;
      if res.frame in t.pending {
        OrderlyAccepted(t, h, res);
        AcceptedJoins(t, h, res);
      } else {
        LateJoins(t, h, ResultArrived(res));
      }
    }
  }

  lemma StepJoins(t: Table, h: Hal, e: Event)
    requires Joined(t, h) && Orderly(t.config, h, e)
    ensures Joined(Step(t, e), HalStep(t.config, h, e)) && Step(t, e).config == t.config
  {
    hide Joined, HandleCaptureResult, NotifyShutter, NotifyError, AfterShutter, AfterResult;
    match e
    case Registered(f, m, id) => RegisterJoins(t, h, f, m, id);
    case ShutterArrived(f, ts) =>
      if f in t.pending { ShutterJoins(t, h, f, ts); } else { LateJoins(t, h, e); }
    case ResultArrived(res) => ResultJoins(t, h, res);
    case ErrorArrived(code, f) => ErrorJoins(t, h, code, f);
    case _ => FlagJoins(t, h, e);
  }

  /** A flush begins, ends, or drops what is remembered of frames that ended in error. */
  lemma FlagJoins(t: Table, h: Hal, e: Event)
    requires Joined(t, h) && (e.FlushSet? || e.Drained?)
    ensures Joined(Step(t, e), HalStep(t.config, h, e)) && Step(t, e).config == t.config
  {
    hide FrameJoined, ResultLog, InOrder, Made;
    SameEntriesJoined(t, Step(t, e), h, HalStep(t.config, h, e));
  }

  lemma {:induction false} RunJoined(config: Config, events: seq<Event>)
    requires config.resultCb && OrderlyRun(config, events)
    ensures Joined(Run(EmptyTable(config), events), HalRun(config, events))
    ensures Run(EmptyTable(config), events).config == config
  {
    if events != [] {
      var n := |events| - 1;
      var prefix, e := events[..n], events[n];
      forall k | 0 <= k < n ensures Orderly(config, HalRun(config, prefix[..k]), prefix[k]) {
        assert prefix[..k] == events[..k];
      }
      RunJoined(config, prefix);
      StepJoins(Run(EmptyTable(config), prefix), HalRun(config, prefix), e);
    }
  }

  // ----- what the client is told

  /** The frame number, as the client reads it: the metadata entry is 32 bits wide and signed. */
  predicate IsFrameNumber(n: int, f: uint32) {
    -0x8000_0000 <= n < 0x8000_0000 && (n - f) % TWO_TO_THE_32 == 0
  }

  /** The metadata of a partial callback, tag by tag: the frame, the request id, and else what the
      HAL sent. */
  ghost predicate PartialTags(m: Metadata, f: uint32, requestId: int, sent: Metadata) {
    && RequestFrameCount in m && IsFrameNumber(m[RequestFrameCount], f)
    && RequestId in m && m[RequestId] == requestId
    && forall tag :: tag != RequestFrameCount && tag != RequestId ==>
         (tag in m <==> tag in sent) && (tag in sent ==> m[tag] == sent[tag])
  }

  /** The metadata of a final callback, tag by tag: the frame, the queue's payload, and of the newest
      partial metadata what the payload does not have. */
  ghost predicate FinalTags(m: Metadata, f: uint32, payload: Metadata, newest: Metadata) {
    && RequestFrameCount in m && IsFrameNumber(m[RequestFrameCount], f)
    && forall tag :: tag != RequestFrameCount ==>
         && (tag in m <==> tag in payload || tag in newest)
         && (tag in payload ==> m[tag] == payload[tag])
         && (tag in newest && tag !in payload ==> m[tag] == newest[tag])
  }

  /** Whether a final callback is promised: both parts came in time, and the payload, or else the
      newest partial metadata, has a sensor timestamp. */
  predicate Promised(s: Sent) {
    && BothParts(s) && s.payload.value != map[]
    && (SensorTimestamp in s.payload.value || SensorTimestamp in Newest(s.partials))
  }

  /** The callbacks of a frame: one for each partial metadata, in order, and after them the final one
      if it is promised, with the request id of the frame's registration and the last partial result
      number other than 0 that had come by then. */
  ghost predicate Told(made: seq<Callback>, f: uint32, s: Sent) {
    var n := |s.partials|;
    && |made| == n + (if Promised(s) then 1 else 0)
    && (forall i :: 0 <= i < n ==>
          made[i].Partial? && made[i].frame == f && PartialTags(made[i].metadata, f, s.requestId, s.partials[i]))
    && (Promised(s) ==>
          && made[n].Final? && made[n].frame == f
          && made[n].requestId == s.requestId && made[n].resultCount == s.callCount
          && FinalTags(made[n].metadata, f, s.payload.value, Newest(s.partials)))
  }

  lemma FinalIsTold(config: Config, f: uint32, payload: Metadata, newest: Metadata)
    requires config.partialCount <= 1 ==> newest == map[]
    ensures FinalTags(Composed(config, f, payload, newest), f, payload, newest)
    ensures Deliverable(config, f, payload, newest)
            <==> payload != map[] && (SensorTimestamp in payload || SensorTimestamp in newest)
  {
  }

  lemma {:induction false} PartialsAreTold(f: uint32, requestId: int, partials: seq<Metadata>)
    ensures var due := PartialsDue(f, requestId, partials);
            && |due| == |partials|
            && forall i :: 0 <= i < |due| ==>
                 due[i].Partial? && due[i].frame == f && PartialTags(due[i].metadata, f, requestId, partials[i])
  {
    if partials != [] { PartialsAreTold(f, requestId, partials[..|partials| - 1]); }
  }

  lemma DueIsTold(config: Config, f: uint32, s: Sent)
    requires config.partialCount <= 1 ==> s.partials == []
    ensures Told(Due(config, f, s), f, s)
  {
    hide Composed, Deliverable, PartialTags, FinalTags, PartialsDue;
    PartialsAreTold(f, s.requestId, s.partials);
    if BothParts(s) { FinalIsTold(config, f, s.payload.value, Newest(s.partials)); }
  }

  /** After every orderly run, however shutters, metadata, buffers and error messages were
      interleaved: the final callbacks are in strictly increasing frame order, and no order
      error was raised. A frame's callbacks are exactly those promised, and say what they should. A
      frame without trouble leaves the table exactly when its shutter, its final metadata and
      all its buffers came; a troubled one can leave as soon as all its buffers came. */
  lemma ResultsInFrameOrder(config: Config, events: seq<Event>)
    requires config.resultCb && OrderlyRun(config, events)
    ensures var t, h := Run(EmptyTable(config), events), HalRun(config, events);
            && InOrder(ResultLog(t.out))
            && Clean(t.out, h.trouble)
            && (forall f :: f in h.frames ==>
                  var s := h.frames[f];
                  && (f in t.pending <==> !s.gone)
                  && (s.gone ==> s.returned == s.count && (s.troubled || Finished(s)))
                  && (Finished(s) ==> s.gone))
            && (forall f :: f in h.frames ==> Told(Made(ResultLog(t.out), f), f, h.frames[f]))
            && (forall f :: f !in h.frames ==> f !in t.pending && Made(ResultLog(t.out), f) == [])
  {
    hide Told, Clean, InOrder, ResultLog, Made, Run, HalRun, OrderlyRun;
    RunJoined(config, events);
    var t, h := Run(EmptyTable(config), events), HalRun(config, events);
    forall f | f in h.frames
      ensures var s := h.frames[f];
              && (f in t.pending <==> !s.gone)
              && (s.gone ==> s.returned == s.count && (s.troubled || Finished(s)))
              && (Finished(s) ==> s.gone)
      ensures Told(Made(ResultLog(t.out), f), f, h.frames[f])
    {
      assert FrameJoined(t, h, f);
      DueIsTold(config, f, h.frames[f]);
    }
  }

  lemma HalSnoc(config: Config, events: seq<Event>, e: Event)
    ensures HalRun(config, events + [e]) == HalStep(config, HalRun(config, events), e)
    ensures OrderlyRun(config, events) && Orderly(config, HalRun(config, events), e)
            ==> OrderlyRun(config, events + [e])
  {
    var all := events + [e];
    assert all[..|events|] == events;
    forall k | 0 <= k < |events| ensures all[..k] == events[..k] && all[k] == events[k] {
    }
  }

  /** One buffer is registered for frame 0; its shutter comes, then the buffer, failed. */
  const FAILED_FRAME: seq<Event> :=
    [Registered(0, 1, 7), ShutterArrived(0, 5),
     ResultArrived(HalResult(0, None, NoFmq, 0, [Buffer(1, 0, false)], false))]

  lemma FailedFrameRun(config: Config)
    requires config == Config(1, true)
    ensures OrderlyRun(config, FAILED_FRAME)
    ensures HalRun(config, FAILED_FRAME)
            == Hal(1, 0, map[0 := Sent(7, 1, 1, true, None, [], 0, 0, true, false, true)], false, true)
  {
    hide AnyFailed;
    var e := FAILED_FRAME;
    assert [] + [e[0]] == [e[0]] && [e[0]] + [e[1]] == [e[0], e[1]] && [e[0], e[1]] + [e[2]] == e;
    HalSnoc(config, [], e[0]);
    HalSnoc(config, [e[0]], e[1]);
    FailedBufferStep(config, HalRun(config, [e[0], e[1]]), e[2].result);
    HalSnoc(config, [e[0], e[1]], e[2]);
  }

  lemma FailedBufferStep(config: Config, h: Hal, res: HalResult)
    requires config == Config(1, true) && !h.flushing
    requires h.frames == map[0 := Sent(7, 1, 0, true, None, [], 0, 0, false, false, false)]
    requires res == HalResult(0, None, NoFmq, 0, [Buffer(1, 0, false)], false)
    ensures Orderly(config, h, ResultArrived(res))
    ensures var h' := HalStep(config, h, ResultArrived(res));
            h' == h.(trouble := true, frames := map[0 := Sent(7, 1, 1, true, None, [], 0, 0, true, false, true)])
  {
    assert Buffer(1, 0, false) in res.outputBuffers;
  }

  /** Such a buffer, outside a flush, ends the frame before its metadata: the callback is not
      made, whatever the metadata that comes then. */
  lemma FailedBufferLosesCallback(inline: Metadata, payload: Metadata)
    ensures var config, late := Config(1, true),
                ResultArrived(HalResult(0, Some(inline), FmqPayload(payload), 1, [], false));
            && OrderlyRun(config, FAILED_FRAME + [late])
            && Made(ResultLog(Run(EmptyTable(config), FAILED_FRAME + [late]).out), 0) == []
  {
    hide Run, ResultLog, Made, Composed, Clean, InOrder, HalRun, OrderlyRun;
    var config := Config(1, true);
    var late := ResultArrived(HalResult(0, Some(inline), FmqPayload(payload), 1, [], false));
    FailedFrameRun(config);
    HalSnoc(config, FAILED_FRAME, late);
    ResultsInFrameOrder(config, FAILED_FRAME + [late]);
  }
}
