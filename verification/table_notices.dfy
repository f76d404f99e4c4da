/** What the client is told besides results and buffers: shutters, error messages and device errors.
    From any table, however disorderly the HAL, each event makes exactly the notices stated here. */
module TableNotices {
  import opened Wrappers
  import opened InFlightTable
  import C = InFlightConservation

  predicate IsNotice(o: Output) { o.ShutterCallback? || o.ErrorCallback? || o.DeviceError? }

  /** The notices made, oldest first. */
  function Notices(out: seq<Output>): seq<Output> {
    if out == [] then []
    else Notices(out[..|out| - 1]) + if IsNotice(out[|out| - 1]) then [out[|out| - 1]] else []
  }

  /** An error message for every failed buffer. */
  function FailedOnes(buffers: seq<Buffer>, f: uint32): seq<Output> {
    if buffers == [] then []
    else FailedOnes(buffers[..|buffers| - 1], f)
         + if buffers[|buffers| - 1].ok then [] else [ErrorCallback(ERROR_BUFFER, f)]
  }

  /** Outside a flush. */
  function Failures(buffers: seq<Buffer>, f: uint32, flushing: bool): seq<Output> {
    if flushing then [] else FailedOnes(buffers, f)
  }

  predicate SomeFailed(buffers: seq<Buffer>) { exists i :: 0 <= i < |buffers| && !buffers[i].ok }

  /** Final metadata with no timestamp of its own or from partial metadata, or of a frame passed
      already, is not sent on. */
  function SendNotice(t: Table, f: uint32, payload: Metadata, newest: Metadata): seq<Output> {
    if payload == map[] || !t.config.resultCb then []
    else if f < t.nextResult then [DeviceError(ResultOutOfOrder)]
    else if SensorTimestamp in payload || (t.config.partialCount > 1 && SensorTimestamp in newest) then []
    else [DeviceError(NoTimestamp)]
  }

  /** A frame is done when all its buffers came and it had an error, or its shutter and its final
      metadata came too. */
  predicate Done(r: Pending) {
    r.buffersRemaining == 0 && (r.status != 0 || (r.isMetaPresent && r.shutterTS != 0))
  }

  /** Removing a frame that is done: its sensor time must be its shutter time, unless it had an error;
      what was held back goes out. */
  function EndNotices(r: Pending, f: uint32, flushing: bool): seq<Output> {
    if !Done(r) then []
    else
      (if r.status == 0 && r.sensorTS != r.shutterTS then [DeviceError(TimestampMismatch)] else [])
      + Failures(r.pendingBuffers, f, flushing)
  }

  /** A frame removed with an error and before its shutter or its metadata is remembered, so that one
      more result for it is no error. */
  predicate Remembered(r: Pending, flushing: bool) {
    && Done(r) && (r.shutterTS == 0 || !r.isMetaPresent)
    && (r.status != 0 || (SomeFailed(r.pendingBuffers) && !flushing))
  }

  /** The entry a shutter in order leaves. */
  function EntryAtShutter(r: Pending, ts: int, flushing: bool): Pending {
    r.(shutterTS := ts, pendingBuffers := [],
       status := if SomeFailed(r.pendingBuffers) && !flushing then ERROR_BUFFER else r.status)
  }

  /** The metadata in a result is the last the HAL sends for the frame. */
  predicate LastMetadata(config: Config, res: HalResult) {
    res.inline.Some? && (config.partialCount <= 1 || res.partialResult >= config.partialCount)
  }

  function Payload(res: HalResult): Metadata {
    match res.fmq
    case FmqPayload(payload) => payload
    case _ => map[]
  }

  function SensorTime(r: Pending, res: HalResult): int {
    if res.inline.Some? && SensorTimestamp in res.inline.value then res.inline.value[SensorTimestamp] else r.sensorTS
  }

  /** What the table keeps of a result that leaves by no error exit. */
  function EntryAtResult(config: Config, r: Pending, res: HalResult, flushing: bool): Pending {
    r.(isMetaPresent := r.isMetaPresent || LastMetadata(config, res),
       buffersRemaining := r.buffersRemaining - |res.outputBuffers| - (if res.inputBuffer then 1 else 0),
       sensorTS := SensorTime(r, res),
       pendingBuffers := if r.shutterTS == 0 then r.pendingBuffers + res.outputBuffers else r.pendingBuffers,
       status := if r.shutterTS > 0 && SomeFailed(res.outputBuffers) && !flushing then ERROR_BUFFER else r.status)
  }

  /** Why a result leaves by an error exit, if it does. */
  function Refusal(t: Table, res: HalResult): Option<Cause> {
    if t.config.partialCount <= 1 && res.inline.Some? && res.partialResult != 1 then Some(InvalidPartialResult)
    else if res.fmq.FmqReadFails? then Some(MetadataQueueFailed)
    else if res.frame !in t.pending then Some(UnknownFrame)
    else
      var r := t.pending[res.frame];
      if t.config.partialCount > 1 && res.inline.Some? && !(1 <= res.partialResult <= t.config.partialCount)
      then Some(PartialOutOfRange)
      else if LastMetadata(t.config, res) && r.isMetaPresent then Some(RepeatedMetadata)
      else if |res.outputBuffers| + (if res.inputBuffer then 1 else 0) > r.buffersRemaining then Some(TooManyBuffers)
      else None
  }

  function ResultNotices(t: Table, res: HalResult): seq<Output> {
    if res.inline.None? && res.outputBuffers == [] then []
    else
      match Refusal(t, res)
      case Some(cause) =>
        if cause.UnknownFrame? && res.frame in t.errored then [] else [DeviceError(cause)]
      case None =>
        var f, r := res.frame, t.pending[res.frame];
        (if LastMetadata(t.config, res) && r.shutterTS != 0
         then SendNotice(t, f, Payload(res), r.composedResult) else [])
        + (if r.shutterTS > 0 then Failures(res.outputBuffers, f, t.flushing) else [])
        + EndNotices(EntryAtResult(t.config, r, res, t.flushing), f, t.flushing)
  }

  function ShutterNotices(t: Table, f: uint32, ts: int): seq<Output> {
    if f !in t.pending then [DeviceError(UnknownShutterFrame)]
    else if f < t.nextShutter then [ShutterCallback(f, ts), DeviceError(ShutterOutOfOrder)]
    else
      var r := t.pending[f];
      [ShutterCallback(f, ts)]
      + SendNotice(t, f, r.pendingMetadata, r.composedResult)
      + Failures(r.pendingBuffers, f, t.flushing)
      + EndNotices(EntryAtShutter(r, ts, t.flushing), f, t.flushing)
  }

  /** The notices an event makes. */
  function Expected(t: Table, e: Event): seq<Output> {
    match e
    case ResultArrived(res) => ResultNotices(t, res)
    case ShutterArrived(f, ts) => ShutterNotices(t, f, ts)
    case ErrorArrived(code, f) =>
      if code == ERROR_DEVICE then [DeviceError(SeriousError)]
      else if code == ERROR_REQUEST || code == ERROR_RESULT || code == ERROR_BUFFER then
        if t.flushing then [] else [ErrorCallback(code, f)]
      else [DeviceError(UnknownError)]
    case _ => []
  }

  /** The frames remembered after an event. */
  function RememberedAfter(t: Table, e: Event): set<uint32> {
    match e
    case ResultArrived(res) =>
      if res.inline.None? && res.outputBuffers == [] then t.errored
      else if Refusal(t, res) == Some(UnknownFrame) then t.errored - {res.frame}
      else if Refusal(t, res).None?
              && Remembered(EntryAtResult(t.config, t.pending[res.frame], res, t.flushing), t.flushing)
           then t.errored + {res.frame}
      else t.errored
    case ShutterArrived(f, ts) =>
      if f in t.pending && f >= t.nextShutter && Remembered(EntryAtShutter(t.pending[f], ts, t.flushing), t.flushing)
      then t.errored + {f} else t.errored
    case Drained => {}
    case _ => t.errored
  }

  // ----- the pieces

  lemma NoticesOne(out: seq<Output>, o: Output)
    ensures Notices(out + [o]) == Notices(out) + if IsNotice(o) then [o] else []
  {
    assert (out + [o])[..|out|] == out;
  }

  lemma {:induction false} NoticesConcat(a: seq<Output>, b: seq<Output>)
    ensures Notices(a + b) == Notices(a) + Notices(b)
  {
    hide IsNotice;
    if b == [] {
      assert a + b == a;
    } else {
      var init, o := b[..|b| - 1], b[|b| - 1];
      assert a + b == (a + init) + [o] && b == init + [o];
      NoticesOne(a + init, o);
      NoticesOne(init, o);
      NoticesConcat(a, init);
    }
  }

  lemma {:induction false} DeliveriesNotices(buffers: seq<Buffer>, ts: int, f: uint32, flushing: bool)
    ensures Notices(Deliveries(buffers, ts, f, flushing)) == Failures(buffers, f, flushing)
  {
    if buffers != [] {
      var init, b := buffers[..|buffers| - 1], buffers[|buffers| - 1];
      DeliveriesNotices(init, ts, f, flushing);
      NoticesConcat(Deliveries(init, ts, f, flushing), Delivery(b, ts, f, flushing));
      DeliveryNotices(b, ts, f, flushing);
    }
  }

  lemma DeliveryNotices(b: Buffer, ts: int, f: uint32, flushing: bool)
    ensures Notices(Delivery(b, ts, f, flushing))
            == if b.ok || flushing then [] else [ErrorCallback(ERROR_BUFFER, f)]
  {
    var o, e := BufferToClient(f, b, ts), ErrorCallback(ERROR_BUFFER, f);
    NoticesOne([], o);
    NoticesOne([o], e);
    assert [] + [o] == [o] && [o] + [e] == [o, e];
  }

  lemma FailedSame(buffers: seq<Buffer>)
    ensures AnyFailed(buffers) <==> SomeFailed(buffers)
  {
    if AnyFailed(buffers) {
      var b :| b in buffers && !b.ok;
      var i :| 0 <= i < |buffers| && buffers[i] == b;
      assert !buffers[i].ok;
    }
  }

  lemma SendSays(t: Table, metadata: Metadata, r: Pending, collected: Metadata, f: uint32)
    ensures var t' := SendCaptureResult(t, metadata, r, collected, f);
            && Notices(t'.out) == Notices(t.out) + SendNotice(t, f, metadata, collected)
            && t' == t.(out := t'.out, nextResult := t'.nextResult)
  {
    hide Notices;
    NoticesOne(t.out, DeviceError(ResultOutOfOrder));
    NoticesOne(t.out, DeviceError(NoTimestamp));
    var full := Composed(t.config, f, metadata, collected);
    NoticesOne(t.out, FinalResult(f, r.requestId, r.partialResultCount, full));
    assert SensorTimestamp in full <==>
           SensorTimestamp in metadata || (t.config.partialCount > 1 && SensorTimestamp in collected);
    hide Composed;
  }

  lemma ReturnSays(t: Table, buffers: seq<Buffer>, ts: int, f: uint32)
    requires f in t.pending
    ensures var t' := ReturnOutputBuffers(t, buffers, ts, f);
            && Notices(t'.out) == Notices(t.out) + Failures(buffers, f, t.flushing)
            && t' == t.(out := t'.out, pending := t.pending[f :=
                 t.pending[f].(status := if SomeFailed(buffers) && !t.flushing then ERROR_BUFFER
                                         else t.pending[f].status)])
  {
    hide Notices, AnyFailed, SomeFailed, Failures, Deliveries;
    NoticesConcat(t.out, Deliveries(buffers, ts, f, t.flushing));
    DeliveriesNotices(buffers, ts, f, t.flushing);
    FailedSame(buffers);
    assert t.pending[f := t.pending[f]] == t.pending;
  }

  lemma RemoveSays(t: Table, f: uint32)
    requires f in t.pending
    ensures var t', r := RemovePendingRequest(t, f), t.pending[f];
            && Notices(t'.out) == Notices(t.out) + EndNotices(r, f, t.flushing)
            && t'.errored == if Remembered(r, t.flushing) then t.errored + {f} else t.errored
  {
    hide Notices, SomeFailed, Failures, ReturnOutputBuffers;
    var r := t.pending[f];
    var t1 := if r.status == 0 && r.sensorTS != r.shutterTS then t.Fail(TimestampMismatch) else t;
    NoticesOne(t.out, DeviceError(TimestampMismatch));
    ReturnSays(t1, r.pendingBuffers, 0, f);
  }

  // ----- the events

  /** A shutter in order, up to the removal of its entry. */
  lemma ShutterTakenSays(t: Table, f: uint32, ts: int)
    requires f in t.pending
    ensures var t', r := ShutterTaken(t, f, ts), t.pending[f];
            && Notices(t'.out) == Notices(t.out) + [ShutterCallback(f, ts)]
                 + SendNotice(t, f, r.pendingMetadata, r.composedResult) + Failures(r.pendingBuffers, f, t.flushing)
            && t'.pending[f] == EntryAtShutter(r, ts, t.flushing)
            && t'.flushing == t.flushing && t'.errored == t.errored
  {
    hide Notices, SendCaptureResult, ReturnOutputBuffers, Failures, SomeFailed;
    var r := t.pending[f].(shutterTS := ts);
    NoticesOne(t.out, ShutterCallback(f, ts));
    var t1 := t.Emit(ShutterCallback(f, ts)).(nextShutter := Wrap32(f + 1)).Put(f, r);
    SendSays(t1, r.pendingMetadata, r, r.composedResult, f);
    assert SendNotice(t1, f, r.pendingMetadata, r.composedResult)
        == SendNotice(t, f, r.pendingMetadata, r.composedResult);
    hide SendNotice;
    ReturnSays(SendCaptureResult(t1, r.pendingMetadata, r, r.composedResult, f), r.pendingBuffers, ts, f);
  }

  lemma ShutterSays(t: Table, f: uint32, ts: int)
    ensures var t' := NotifyShutter(t, f, ts);
            && Notices(t'.out) == Notices(t.out) + ShutterNotices(t, f, ts)
            && t'.errored == RememberedAfter(t, ShutterArrived(f, ts))
  {
    hide Notices, ShutterTaken, RemovePendingRequest, SendNotice, EndNotices, Remembered, Failures, EntryAtShutter;
    if f !in t.pending {
      NoticesOne(t.out, DeviceError(UnknownShutterFrame));
    } else if f < t.nextShutter {
      NoticesOne(t.out, ShutterCallback(f, ts));
      NoticesOne(t.out + [ShutterCallback(f, ts)], DeviceError(ShutterOutOfOrder));
      assert [ShutterCallback(f, ts)] + [DeviceError(ShutterOutOfOrder)]
          == [ShutterCallback(f, ts), DeviceError(ShutterOutOfOrder)];
    } else {
      ShutterTakenSays(t, f, ts);
      RemoveSays(ShutterTaken(t, f, ts), f);
    }
  }

  /** The table refuses results for exactly these reasons. */
  lemma AcceptedExactly(t: Table, res: HalResult)
    requires res.inline.Some? || res.outputBuffers != []
    ensures Accepts(t, res) <==> Refusal(t, res).None?
    ensures LastMetadata(t.config, res) && PartialInRange(t.config, res) ==> IsFinal(t.config, res)
    ensures IsFinal(t.config, res) ==> LastMetadata(t.config, res)
    ensures FinalPayload(res) == Payload(res)
  {
  }

  lemma NotedSays(t: Table, res: HalResult)
    requires res.frame in t.pending
    ensures var t', f := C.Noted(t, res), res.frame;
            && Notices(t'.out) == Notices(t.out) && t'.errored == t.errored && t'.flushing == t.flushing
            && t'.config == t.config && t'.nextResult == t.nextResult && f in t'.pending
            && var r, r' := t.pending[f], t'.pending[f];
               r' == r.(partialResultCount := r'.partialResultCount, composedResult := r'.composedResult)
               && (!IsPartial(t.config, res) ==> r'.composedResult == r.composedResult)
  {
    hide Notices;
    var f, noted := res.frame, C.Noted(t, res).pending[res.frame];
    NoticesOne(t.out, PartialResult(f, noted.composedResult[RequestFrameCount := AsInt32(f)]
                                                           [RequestId := noted.requestId]));
  }

  /** What matters of an entry for its end. */
  predicate SameEnd(r: Pending, r': Pending) {
    && r'.shutterTS == r.shutterTS && r'.sensorTS == r.sensorTS && r'.status == r.status
    && r'.isMetaPresent == r.isMetaPresent && r'.buffersRemaining == r.buffersRemaining
    && r'.pendingBuffers == r.pendingBuffers
  }

  lemma NoteFinalSays(config: Config, r: Pending, res: HalResult)
    requires LastMetadata(config, res) <==> IsFinal(config, res)
    ensures var r1, x := NoteFinal(config, r, res), EntryAtResult(config, r, res, true);
            SameEnd(r1, x)
    ensures IsFinal(config, res) && r.shutterTS != 0 && config.partialCount > 1
            ==> Collected(config, r, res) == r.composedResult
  {
  }

  /** An accepted result, up to the removal of its entry. */
  lemma RecordedSays(t: Table, r: Pending, res: HalResult)
    requires LastMetadata(t.config, res) <==> IsFinal(t.config, res)
    ensures var t', f := Recorded(t, r, res), res.frame;
            && Notices(t'.out) == Notices(t.out)
                 + (if LastMetadata(t.config, res) && r.shutterTS != 0
                    then SendNotice(t, f, Payload(res), r.composedResult) else [])
                 + (if r.shutterTS > 0 then Failures(res.outputBuffers, f, t.flushing) else [])
            && f in t'.pending && SameEnd(t'.pending[f], EntryAtResult(t.config, r, res, t.flushing))
            && t'.flushing == t.flushing && t'.errored == t.errored
  {
    hide Notices, SendCaptureResult, ReturnOutputBuffers, NoteFinal, Failures, SomeFailed, LastMetadata, IsFinal,
        Collected;
    var f, r1 := res.frame, NoteFinal(t.config, r, res);
    NoteFinalSays(t.config, r, res);
    var t1, collected := t.Put(f, r1), Collected(t.config, r, res);
    SendSays(t1, FinalPayload(res), r1, collected, f);
    assert IsFinal(t.config, res) && r.shutterTS != 0
        ==> SendNotice(t1, f, FinalPayload(res), collected) == SendNotice(t, f, Payload(res), r.composedResult);
    hide SendNotice;
    if r.shutterTS > 0 {
      ReturnSays(if IsFinal(t.config, res) then SendCaptureResult(t1, FinalPayload(res), r1, collected, f) else t1,
                 res.outputBuffers, r.shutterTS, f);
    }
  }

  lemma SameEndings(r: Pending, r': Pending, f: uint32, flushing: bool)
    requires SameEnd(r, r')
    ensures EndNotices(r, f, flushing) == EndNotices(r', f, flushing)
    ensures Remembered(r, flushing) <==> Remembered(r', flushing)
  {
  }

  lemma AcceptedSays(t: Table, r: Pending, res: HalResult)
    requires LastMetadata(t.config, res) <==> IsFinal(t.config, res)
    ensures var t', f, x := AcceptResult(t, r, res), res.frame, EntryAtResult(t.config, r, res, t.flushing);
            && Notices(t'.out) == Notices(t.out)
                 + (if LastMetadata(t.config, res) && r.shutterTS != 0
                    then SendNotice(t, f, Payload(res), r.composedResult) else [])
                 + (if r.shutterTS > 0 then Failures(res.outputBuffers, f, t.flushing) else [])
                 + EndNotices(x, f, t.flushing)
            && t'.errored == if Remembered(x, t.flushing) then t.errored + {f} else t.errored
  {
    hide Notices, Recorded, RemovePendingRequest, SendNotice, EndNotices, Remembered, Failures, EntryAtResult, SameEnd,
        LastMetadata, IsFinal;
    var f, t1 := res.frame, Recorded(t, r, res);
    RecordedSays(t, r, res);
    RemoveSays(t1, f);
    SameEndings(t1.pending[f], EntryAtResult(t.config, r, res, t.flushing), f, t.flushing);
  }

  /** An accepted result: the metadata noted before changes nothing that is told. */
  lemma TakenSays(t: Table, res: HalResult)
    requires Accepts(t, res)
    ensures var t' := HandleCaptureResult(t, res);
            && Notices(t'.out) == Notices(t.out) + ResultNotices(t, res)
            && t'.errored == RememberedAfter(t, ResultArrived(res))
  {
    hide Notices, AcceptResult, SendNotice, Failures, SameEnd, EntryAtResult, EndNotices, Remembered, Refusal,
        HandleCaptureResult;
    AcceptedExactly(t, res);
    C.AcceptedIsNoted(t, res);
    NotedSays(t, res);
    var t1, f := C.Noted(t, res), res.frame;
    AcceptedSays(t1, t1.pending[f], res);
    EntryNoted(t.config, t.pending[f], t1.pending[f], res, t.flushing);
    SameEndings(EntryAtResult(t.config, t.pending[f], res, t.flushing),
                EntryAtResult(t.config, t1.pending[f], res, t.flushing), f, t.flushing);
    if IsFinal(t.config, res) { SendNoted(t, t1, res); }
  }

  lemma EntryNoted(config: Config, r: Pending, r': Pending, res: HalResult, flushing: bool)
    requires r' == r.(partialResultCount := r'.partialResultCount, composedResult := r'.composedResult)
    ensures SameEnd(EntryAtResult(config, r, res, flushing), EntryAtResult(config, r', res, flushing))
  {
  }

  lemma SendNoted(t: Table, t1: Table, res: HalResult)
    requires res.frame in t.pending && t1 == C.Noted(t, res) && IsFinal(t.config, res)
    ensures SendNotice(t1, res.frame, Payload(res), t1.pending[res.frame].composedResult)
            == SendNotice(t, res.frame, Payload(res), t.pending[res.frame].composedResult)
  {
  }

  lemma RefusedSays(t: Table, res: HalResult)
    requires !Accepts(t, res)
    ensures var t' := HandleCaptureResult(t, res);
            && Notices(t'.out) == Notices(t.out) + ResultNotices(t, res)
            && t'.errored == RememberedAfter(t, ResultArrived(res))
  {
    hide Notices, AcceptResult, SendNotice, Failures, EndNotices, Remembered;
    if res.inline.Some? || res.outputBuffers != [] {
      AcceptedExactly(t, res);
      var cause := Refusal(t, res).value;
      NoticesOne(t.out, DeviceError(cause));
      if res.frame in t.pending {
        NotedSays(t, res);
        NoticesOne(C.Noted(t, res).out, DeviceError(cause));
      }
    }
  }

  /** From any table every event makes exactly the notices expected, and remembers exactly the frames
      it should. */
  lemma NoticesExactly(t: Table, e: Event)
    ensures Notices(Step(t, e).out) == Notices(t.out) + Expected(t, e)
    ensures Step(t, e).errored == RememberedAfter(t, e)
  {
    hide Notices, HandleCaptureResult, NotifyShutter, ResultNotices, ShutterNotices, RememberedAfter;
    match e
    case ResultArrived(res) => if Accepts(t, res) { TakenSays(t, res); } else { RefusedSays(t, res); }
    case ShutterArrived(f, ts) => ShutterSays(t, f, ts);
    case _ => OtherSays(t, e);
  }

  lemma OtherSays(t: Table, e: Event)
    requires !e.ResultArrived? && !e.ShutterArrived?
    ensures Notices(Step(t, e).out) == Notices(t.out) + Expected(t, e)
    ensures Step(t, e).errored == RememberedAfter(t, e)
  {
    hide Notices;
    if e.ErrorArrived? {
      NoticesOne(t.out, DeviceError(SeriousError));
      NoticesOne(t.out, DeviceError(UnknownError));
      NoticesOne(t.out, ErrorCallback(e.code, e.frame));
    }
  }

  // ----- final callbacks never step back

  /** The frames of the final callbacks, oldest first. */
  function FinalFrames(out: seq<Output>): seq<uint32> {
    if out == [] then []
    else FinalFrames(out[..|out| - 1]) + if out[|out| - 1].FinalResult? then [out[|out| - 1].frame] else []
  }

  /** They increase, and the next one may not be below `next`. */
  predicate Increasing(frames: seq<uint32>, next: uint32) {
    && (forall i, j :: 0 <= i < j < |frames| ==> frames[i] < frames[j])
    && (forall i :: 0 <= i < |frames| ==> frames[i] < next)
  }

  predicate FinalsOk(t: Table) {
    Increasing(FinalFrames(t.out), t.nextResult) && forall f :: f in t.pending ==> f < TWO_TO_THE_32 - 1
  }

  lemma {:induction false} FinalFramesConcat(a: seq<Output>, b: seq<Output>)
    requires forall o :: o in b ==> !o.FinalResult?
    ensures FinalFrames(a + b) == FinalFrames(a)
  {
    if b == [] {
      assert a + b == a;
    } else {
      var init, o := b[..|b| - 1], b[|b| - 1];
      assert a + b == (a + init) + [o] && ((a + init) + [o])[..|a + init|] == a + init;
      FinalFramesConcat(a, init);
    }
  }

  /** The outputs grew by no final callback. */
  lemma NoFinal(t: Table, t': Table, d: seq<Output>)
    requires FinalsOk(t) && t'.out == t.out + d && t'.nextResult == t.nextResult && t'.pending.Keys <= t.pending.Keys
    requires forall o :: o in d ==> !o.FinalResult?
    ensures FinalsOk(t')
  {
    FinalFramesConcat(t.out, d);
    hide FinalFrames;
    assert forall f :: f in t'.pending ==> f in t'.pending.Keys;
  }

  lemma SendFinalsOk(t: Table, metadata: Metadata, r: Pending, collected: Metadata, f: uint32)
    requires FinalsOk(t) && f in t.pending
    ensures FinalsOk(SendCaptureResult(t, metadata, r, collected, f))
  {
    hide Composed;
    var full := Composed(t.config, f, metadata, collected);
    assert (t.out + [DeviceError(ResultOutOfOrder)])[..|t.out|] == t.out;
    assert (t.out + [DeviceError(NoTimestamp)])[..|t.out|] == t.out;
    assert (t.out + [FinalResult(f, r.requestId, r.partialResultCount, full)])[..|t.out|] == t.out;
  }

  lemma ReturnFinalsOk(t: Table, buffers: seq<Buffer>, ts: int, f: uint32)
    requires FinalsOk(t)
    ensures FinalsOk(ReturnOutputBuffers(t, buffers, ts, f))
  {
    hide FinalsOk, Deliveries, AnyFailed;
    C.DeliveriesStamped(buffers, ts, f, t.flushing);
    NoFinal(t, ReturnOutputBuffers(t, buffers, ts, f), Deliveries(buffers, ts, f, t.flushing));
  }

  lemma RemoveFinalsOk(t: Table, f: uint32)
    requires FinalsOk(t) && f in t.pending
    ensures FinalsOk(RemovePendingRequest(t, f))
  {
    hide FinalsOk, ReturnOutputBuffers;
    var r := t.pending[f];
    if Complete(r) {
      var t1 := if r.status == 0 && r.sensorTS != r.shutterTS then t.Fail(TimestampMismatch) else t;
      assert t.out + [] == t.out;
      NoFinal(t, t1, if r.status == 0 && r.sensorTS != r.shutterTS then [DeviceError(TimestampMismatch)] else []);
      var t2 := ReturnOutputBuffers(t1, r.pendingBuffers, 0, f);
      ReturnFinalsOk(t1, r.pendingBuffers, 0, f);
      ReturnSays(t1, r.pendingBuffers, 0, f);
      assert t2.out + [] == t2.out;
      NoFinal(t2, RemovePendingRequest(t, f), []);
    }
  }

  lemma ShutterFinalsOk(t: Table, f: uint32, ts: int)
    requires FinalsOk(t)
    ensures FinalsOk(NotifyShutter(t, f, ts))
  {
    hide FinalsOk, SendCaptureResult, ReturnOutputBuffers, RemovePendingRequest;
    if f !in t.pending {
      NoFinal(t, NotifyShutter(t, f, ts), [DeviceError(UnknownShutterFrame)]);
    } else if f < t.nextShutter {
      assert t.out + [ShutterCallback(f, ts)] + [DeviceError(ShutterOutOfOrder)]
          == t.out + [ShutterCallback(f, ts), DeviceError(ShutterOutOfOrder)];
      NoFinal(t, NotifyShutter(t, f, ts), [ShutterCallback(f, ts), DeviceError(ShutterOutOfOrder)]);
    } else {
      var r := t.pending[f].(shutterTS := ts);
      var t1 := t.Emit(ShutterCallback(f, ts)).(nextShutter := Wrap32(f + 1)).Put(f, r);
      NoFinal(t, t1, [ShutterCallback(f, ts)]);
      var t2 := SendCaptureResult(t1, r.pendingMetadata, r, r.composedResult, f);
      SendFinalsOk(t1, r.pendingMetadata, r, r.composedResult, f);
      SendSays(t1, r.pendingMetadata, r, r.composedResult, f);
      var t3 := ReturnOutputBuffers(t2, r.pendingBuffers, ts, f);
      ReturnFinalsOk(t2, r.pendingBuffers, ts, f);
      ReturnSays(t2, r.pendingBuffers, ts, f);
      assert t3.out + [] == t3.out;
      NoFinal(t3, ShutterTaken(t, f, ts), []);
      RemoveFinalsOk(ShutterTaken(t, f, ts), f);
    }
  }

  lemma RecordedFinalsOk(t: Table, r: Pending, res: HalResult)
    requires FinalsOk(t) && res.frame in t.pending
    ensures FinalsOk(Recorded(t, r, res)) && res.frame in Recorded(t, r, res).pending
  {
    hide FinalsOk, SendCaptureResult, ReturnOutputBuffers, NoteFinal, Collected, FinalPayload, IsFinal;
    var f, r1, collected := res.frame, NoteFinal(t.config, r, res), Collected(t.config, r, res);
    var t1 := t.Put(f, r1);
    assert t.out + [] == t.out;
    NoFinal(t, t1, []);
    SendFinalsOk(t1, FinalPayload(res), r1, collected, f);
    SendSays(t1, FinalPayload(res), r1, collected, f);
    var t2 := if IsFinal(t.config, res) && r.shutterTS != 0
              then SendCaptureResult(t1, FinalPayload(res), r1, collected, f) else t1;
    ReturnFinalsOk(t2, res.outputBuffers, r.shutterTS, f);
    ReturnSays(t2, res.outputBuffers, r.shutterTS, f);
  }

  lemma ResultFinalsOk(t: Table, res: HalResult)
    requires FinalsOk(t)
    ensures FinalsOk(HandleCaptureResult(t, res))
  {
    hide FinalsOk, Recorded, RemovePendingRequest, NotePartial;
    assert t.out + [] == t.out;
    if Accepts(t, res) {
      C.AcceptedIsNoted(t, res);
      var t1 := C.Noted(t, res);
      NotedFinalsOk(t, res);
      RecordedFinalsOk(t1, t1.pending[res.frame], res);
      RemoveFinalsOk(Recorded(t1, t1.pending[res.frame], res), res.frame);
    } else {
      RefusedFinalsOk(t, res);
    }
  }

  lemma NotedFinalsOk(t: Table, res: HalResult)
    requires FinalsOk(t) && res.frame in t.pending
    ensures FinalsOk(C.Noted(t, res)) && res.frame in C.Noted(t, res).pending
  {
    hide FinalsOk;
    var f, noted := res.frame, C.Noted(t, res).pending[res.frame];
    var partial := PartialResult(f, noted.composedResult[RequestFrameCount := AsInt32(f)]
                                                        [RequestId := noted.requestId]);
    assert t.out + [] == t.out;
    NoFinal(t, C.Noted(t, res), if IsPartial(t.config, res) && t.config.resultCb then [partial] else []);
  }

  lemma RefusedFinalsOk(t: Table, res: HalResult)
    requires FinalsOk(t) && !Accepts(t, res)
    ensures FinalsOk(HandleCaptureResult(t, res))
  {
    hide FinalsOk, AcceptResult;
    var t' := HandleCaptureResult(t, res);
    if res.inline.Some? || res.outputBuffers != [] {
      AcceptedExactly(t, res);
      var cause := Refusal(t, res).value;
      assert t.out + [] == t.out;
      if res.frame !in t.pending || !Readable(t.config, res) || !PartialInRange(t.config, res) {
        NoFinal(t, t', if t'.out == t.out then [] else [DeviceError(cause)]);
      } else {
        NotedFinalsOk(t, res);
        NoFinal(C.Noted(t, res), t', [DeviceError(cause)]);
      }
    }
  }

  /** Frames are numbered below the last 32-bit value. */
  predicate BelowLast(events: seq<Event>) {
    forall k :: 0 <= k < |events| && events[k].Registered? ==> events[k].frame < TWO_TO_THE_32 - 1
  }

  /** Over every run, however disorderly the HAL, final callbacks are in strictly increasing frame
      order. */
  lemma {:induction false} FinalsInOrder(config: Config, events: seq<Event>)
    requires BelowLast(events)
    ensures FinalsOk(Run(EmptyTable(config), events))
  {
    if events != [] {
      var init, e := events[..|events| - 1], events[|events| - 1];
      hide FinalsOk, Step;
      assert BelowLast(init) by { forall k | 0 <= k < |init| ensures init[k] == events[k] {} }
      FinalsInOrder(config, init);
      StepFinalsOk(Run(EmptyTable(config), init), e);
    }
  }

  lemma StepFinalsOk(t: Table, e: Event)
    requires FinalsOk(t) && (e.Registered? ==> e.frame < TWO_TO_THE_32 - 1)
    ensures FinalsOk(Step(t, e))
  {
    hide HandleCaptureResult, NotifyShutter, FinalFrames;
    match e
    case ResultArrived(res) => ResultFinalsOk(t, res);
    case ShutterArrived(f, ts) => ShutterFinalsOk(t, f, ts);
    case ErrorArrived(code, f) => ErrorFinalsOk(t, code, f);
    case _ =>
  }

  lemma ErrorFinalsOk(t: Table, code: int, f: uint32)
    requires FinalsOk(t)
    ensures FinalsOk(NotifyError(t, code, f))
  {
    hide FinalsOk;
    assert t.out + [] == t.out;
    var t' := NotifyError(t, code, f);
    NoFinal(t, t', if code == ERROR_DEVICE then [DeviceError(SeriousError)]
                   else if code == ERROR_REQUEST || code == ERROR_RESULT || code == ERROR_BUFFER then
                     if t.flushing then [] else [ErrorCallback(code, f)]
                   else [DeviceError(UnknownError)]);
  }
}
