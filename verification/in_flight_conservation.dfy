/** Where buffers go. Over every fair run, what the client got for a frame followed by what
    the table still holds is exactly what the HAL returned for it in results the table
    accepted, in order, and every buffer carries the frame's shutter time. Over every run at
    all, buffers are dropped exactly by the results that `Keeps` excludes. */
module InFlightConservation {
  import opened Wrappers
  import opened InFlightTable

  /** The buffers handed out for frame `f`, oldest first. */
  function Delivered(out: seq<Output>, f: uint32): seq<Buffer> {
    if out == [] then []
    else
      var o := out[|out| - 1];
      Delivered(out[..|out| - 1], f) + if o.BufferToClient? && o.frame == f then [o.buffer] else []
  }

  /** Every buffer handed out for `f` carries time `ts`. */
  ghost predicate Stamped(out: seq<Output>, f: uint32, ts: int) {
    forall o :: o in out && o.BufferToClient? && o.frame == f ==> o.timestamp == ts
  }

  lemma DeliveredOne(out: seq<Output>, o: Output, f: uint32)
    ensures Delivered(out + [o], f) == Delivered(out, f) + if o.BufferToClient? && o.frame == f then [o.buffer] else []
  {
    assert (out + [o])[..|out|] == out;
  }

  lemma {:induction false} DeliveredConcat(a: seq<Output>, b: seq<Output>, f: uint32)
    ensures Delivered(a + b, f) == Delivered(a, f) + Delivered(b, f)
  {
    if b == [] {
      assert a + b == a;
    } else {
      var init, o := b[..|b| - 1], b[|b| - 1];
      assert a + b == (a + init) + [o];
      DeliveredOne(a + init, o, f);
      DeliveredConcat(a, init, f);
    }
  }

  /** The outputs for a set of buffers concern that frame only and carry the given time. */
  lemma {:induction false} DeliveriesStamped(buffers: seq<Buffer>, ts: int, f: uint32, flushing: bool)
    ensures forall o :: o in Deliveries(buffers, ts, f, flushing) ==>
              || (o.BufferToClient? && o.frame == f && o.timestamp == ts)
              || (o.ErrorCallback? && o.frame == f)
  {
    if buffers != [] { DeliveriesStamped(buffers[..|buffers| - 1], ts, f, flushing); }
  }

  lemma DeliveryDelivers(b: Buffer, ts: int, f: uint32, flushing: bool, g: uint32)
    ensures Delivered(Delivery(b, ts, f, flushing), g) == if f == g then [b] else []
  {
    var o, e := BufferToClient(f, b, ts), ErrorCallback(ERROR_BUFFER, f);
    DeliveredOne([], o, g);
    DeliveredOne([o], e, g);
    assert [] + [o] == [o] && [o] + [e] == [o, e];
  }

  /** Handing buffers to their streams delivers each of them once, in order, to that frame only. */
  lemma {:induction false} DeliveriesDeliver(buffers: seq<Buffer>, ts: int, f: uint32, flushing: bool, g: uint32)
    ensures Delivered(Deliveries(buffers, ts, f, flushing), g) == if f == g then buffers else []
  {
    if buffers != [] {
      var init, b := buffers[..|buffers| - 1], buffers[|buffers| - 1];
      var d, e := Deliveries(init, ts, f, flushing), Delivery(b, ts, f, flushing);
      calc {
        Delivered(Deliveries(buffers, ts, f, flushing), g);
        Delivered(d + e, g);
        { DeliveredConcat(d, e, g); }
        Delivered(d, g) + Delivered(e, g);
        { DeliveriesDeliver(init, ts, f, flushing, g); DeliveryDelivers(b, ts, f, flushing, g); }
        if f == g then init + [b] else [];
        { assert init + [b] == buffers; }
        if f == g then buffers else [];
      }
    }
  }

  /** What a run has shown about one frame. `count` is the number of buffers it was
      registered with, `received` the buffers of its accepted results, `shutter` its accepted
      shutter time (0 before), `errorSeen` whether the HAL reported an error for it. */
  datatype History = History(count: Option<int>, received: seq<Buffer>, shutter: int, errorSeen: bool)

  /** The frame's history once the buffers of an accepted result are counted. */
  function Returned(h: History, res: HalResult): History {
    h.(received := h.received + res.outputBuffers, errorSeen := h.errorSeen || AnyFailed(res.outputBuffers))
  }

  function Observe(t: Table, e: Event, f: uint32, h: History): History {
    match e
    case Registered(g, n, _) => if g == f && h.count.None? then h.(count := Some(n)) else h
    case ResultArrived(res) =>
      if res.frame == f && Accepts(t, res)
      then Returned(h, res) else h
    case ShutterArrived(g, ts) =>
      if g == f && f in t.pending && f >= t.nextShutter then h.(shutter := ts) else h
    case ErrorArrived(code, g) => if g == f then h.(errorSeen := true) else h
    case _ => h
  }

  function HistoryOf(config: Config, events: seq<Event>, f: uint32): History {
    if events == [] then History(None, [], 0, false)
    else
      var prefix := events[..|events| - 1];
      Observe(Run(EmptyTable(config), prefix), events[|events| - 1], f, HistoryOf(config, prefix, f))
  }

  /** What is asked of the other parties: a frame is registered once, before the 32-bit
      counter wraps; shutter times are positive; no result returns more buffers than its
      frame still owes or an input buffer. Errors, repeated or malformed metadata, unknown frames and any
      interleaving are allowed. */
  predicate Fair(t: Table, e: Event, h: History) {
    match e
    case Registered(f, n, _) => h.count.None? && n >= 0 && f < TWO_TO_THE_32 - 1
    case ResultArrived(res) =>
      && !res.inputBuffer
      && (res.frame in t.pending ==> BuffersIn(res) <= t.pending[res.frame].buffersRemaining)
    case ShutterArrived(_, ts) => ts > 0
    case _ => true
  }

  function FrameOf(e: Event): uint32 {
    match e
    case Registered(f, _, _) => f
    case ResultArrived(res) => res.frame
    case ShutterArrived(f, _) => f
    case ErrorArrived(_, f) => f
    case _ => 0
  }

  predicate FairRun(config: Config, events: seq<Event>) {
    forall k :: 0 <= k < |events| ==>
      Fair(Run(EmptyTable(config), events[..k]), events[k], HistoryOf(config, events[..k], FrameOf(events[k])))
  }

  /** The entry of a frame agrees with what the run has shown. */
  predicate EntryOk(r: Pending, delivered: seq<Buffer>, h: History) {
    && h.count.Some?
    && delivered + r.pendingBuffers == h.received
    && |h.received| + r.buffersRemaining == h.count.value
    && r.buffersRemaining >= 0
    && r.shutterTS == h.shutter >= 0
    && (r.shutterTS > 0 ==> r.pendingBuffers == [])
    && (r.shutterTS == 0 ==> delivered == [])
    && (r.status != 0 || AnyFailed(r.pendingBuffers) ==> h.errorSeen)
  }

  /** A frame is unregistered, in the table, or done with all its buffers handed out. */
  ghost predicate FrameOk(t: Table, f: uint32, h: History) {
    && Stamped(t.out, f, h.shutter)
    && h.shutter >= 0
    && (h.shutter > 0 ==> f < t.nextShutter)
    && (h.count.None? ==> f !in t.pending && Delivered(t.out, f) == [] && h.received == [] && h.shutter == 0)
    && (h.count.Some? ==> f < TWO_TO_THE_32 - 1)
    && (f in t.pending ==> EntryOk(t.pending[f], Delivered(t.out, f), h))
    && (h.count.Some? && f !in t.pending ==>
          && Delivered(t.out, f) == h.received
          && |h.received| == h.count.value
          && (h.shutter == 0 ==> h.errorSeen))
  }

  /** `t'` differs from `t` in nothing that matters to frame `g`. */
  ghost predicate Untouched(t: Table, t': Table, g: uint32) {
    && t'.config == t.config
    && (g in t'.pending <==> g in t.pending)
    && (g in t.pending ==> t'.pending[g] == t.pending[g])
    && Delivered(t'.out, g) == Delivered(t.out, g)
    && (forall o :: o in t'.out && o.BufferToClient? && o.frame == g ==> o in t.out)
    && t'.nextShutter >= t.nextShutter
  }

  lemma EmitUntouched(t: Table, o: Output, g: uint32)
    requires o.BufferToClient? ==> o.frame != g
    ensures Untouched(t, t.Emit(o), g)
  {
    DeliveredOne(t.out, o, g);
  }

  lemma SendUntouched(t: Table, metadata: Metadata, r: Pending, collected: Metadata, f: uint32, g: uint32)
    ensures Untouched(t, SendCaptureResult(t, metadata, r, collected, f), g)
    ensures var t' := SendCaptureResult(t, metadata, r, collected, f);
            t'.pending == t.pending && t'.flushing == t.flushing && t'.nextShutter == t.nextShutter
  {
    hide Delivered, Composed;
    var full := Composed(t.config, f, metadata, collected);
    EmitUntouched(t, DeviceError(ResultOutOfOrder), g);
    EmitUntouched(t, DeviceError(NoTimestamp), g);
    EmitUntouched(t, FinalResult(f, r.requestId, r.partialResultCount, full), g);
  }

  /** Handing out buffers of `f` delivers them to `f` and touches no other frame. */
  lemma ReturnEffect(t: Table, buffers: seq<Buffer>, ts: int, f: uint32, g: uint32)
    ensures var t' := ReturnOutputBuffers(t, buffers, ts, f);
            && (g != f ==> Untouched(t, t', g))
            && t'.nextShutter == t.nextShutter
            && (f in t'.pending <==> f in t.pending)
            && (f in t.pending ==> t'.pending[f] == (if AnyFailed(buffers) && !t.flushing
                                                     then t.pending[f].(status := ERROR_BUFFER) else t.pending[f]))
            && Delivered(t'.out, f) == Delivered(t.out, f) + buffers
            && (Stamped(t.out, f, ts) ==> Stamped(t'.out, f, ts))
  {
    var d := Deliveries(buffers, ts, f, t.flushing);
    DeliveriesDeliver(buffers, ts, f, t.flushing, g);
    DeliveriesDeliver(buffers, ts, f, t.flushing, f);
    DeliveriesStamped(buffers, ts, f, t.flushing);
    DeliveredConcat(t.out, d, g);
    DeliveredConcat(t.out, d, f);
    var t' := ReturnOutputBuffers(t, buffers, ts, f);
    assert t'.out == t.out + d;
    forall o | o in t'.out && o.BufferToClient?
      ensures o in t.out || (o.frame == f && o.timestamp == ts)
    {
      assert o in t.out || o in d;
    }
  }

  lemma RemoveUntouched(t: Table, f: uint32, g: uint32)
    requires f in t.pending && g != f
    ensures Untouched(t, RemovePendingRequest(t, f), g)
  {
    var r := t.pending[f];
    var t1 := if r.status == 0 && r.sensorTS != r.shutterTS then t.Fail(TimestampMismatch) else t;
    EmitUntouched(t, DeviceError(TimestampMismatch), g);
    ReturnEffect(t1, r.pendingBuffers, 0, f, g);
  }

  /** Removal hands out what the entry still held. */
  lemma RemoveOk(t: Table, f: uint32, h: History)
    requires f in t.pending && FrameOk(t, f, h)
    ensures FrameOk(RemovePendingRequest(t, f), f, h)
  {
    var r := t.pending[f];
    if Complete(r) {
      var t1 := if r.status == 0 && r.sensorTS != r.shutterTS then t.Fail(TimestampMismatch) else t;
      EmitUntouched(t, DeviceError(TimestampMismatch), f);
      assert FrameOk(t1, f, h);
      var t2 := ReturnOutputBuffers(t1, r.pendingBuffers, 0, f);
      ReturnEffect(t1, r.pendingBuffers, 0, f, f);
      assert r.shutterTS > 0 ==> t2.out == t1.out;
    }
  }

  lemma RecordedUntouched(t: Table, r: Pending, res: HalResult, g: uint32)
    requires g != res.frame
    ensures Untouched(t, Recorded(t, r, res), g)
  {
    var f := res.frame;
    var r1 := NoteFinal(t.config, r, res);
    var t1 := t.Put(f, r1);
    SendUntouched(t1, FinalPayload(res), r1, Collected(t.config, r, res), f, g);
    ReturnEffect(t1, res.outputBuffers, r.shutterTS, f, g);
    ReturnEffect(SendCaptureResult(t1, FinalPayload(res), r1, Collected(t.config, r, res), f), res.outputBuffers,
        r.shutterTS, f, g);
  }

  /** Recording a result returns its buffers at once if the shutter came, else holds them back. */
  lemma RecordedEffect(t: Table, r: Pending, res: HalResult)
    ensures var t', f, r1 := Recorded(t, r, res), res.frame, NoteFinal(t.config, r, res);
            && f in t'.pending && t'.nextShutter == t.nextShutter
            && t'.pending[f] == (if r.shutterTS > 0 && AnyFailed(res.outputBuffers) && !t.flushing
                                 then r1.(status := ERROR_BUFFER) else r1)
            && Delivered(t'.out, f) == Delivered(t.out, f) + (if r.shutterTS > 0 then res.outputBuffers else [])
            && (Stamped(t.out, f, r.shutterTS) ==> Stamped(t'.out, f, r.shutterTS))
  {
    var f, r1 := res.frame, NoteFinal(t.config, r, res);
    var t1 := t.Put(f, r1);
    SendUntouched(t1, FinalPayload(res), r1, Collected(t.config, r, res), f, f);
    ReturnEffect(t1, res.outputBuffers, r.shutterTS, f, f);
    ReturnEffect(SendCaptureResult(t1, FinalPayload(res), r1, Collected(t.config, r, res), f), res.outputBuffers,
        r.shutterTS, f, f);
  }

  lemma AcceptUntouched(t: Table, r: Pending, res: HalResult, g: uint32)
    requires g != res.frame
    ensures Untouched(t, AcceptResult(t, r, res), g)
  {
    RecordedUntouched(t, r, res, g);
    RecordedEffect(t, r, res);
    RemoveUntouched(Recorded(t, r, res), res.frame, g);
  }

  lemma RecordedOk(t: Table, res: HalResult, h: History)
    requires res.frame in t.pending && FrameOk(t, res.frame, h)
    requires !res.inputBuffer && BuffersIn(res) <= t.pending[res.frame].buffersRemaining
    ensures var t', f := Recorded(t, t.pending[res.frame], res), res.frame;
            f in t'.pending && EntryOk(t'.pending[f], Delivered(t'.out, f), Returned(h, res))
  {
    hide Recorded, Delivered, Stamped;
    RecordedEffect(t, t.pending[res.frame], res);
  }

  /** An accepted result's buffers are held back before the shutter and handed out after it. */
  lemma AcceptOk(t: Table, res: HalResult, h: History)
    requires res.frame in t.pending && FrameOk(t, res.frame, h)
    requires !res.inputBuffer && BuffersIn(res) <= t.pending[res.frame].buffersRemaining
    ensures FrameOk(AcceptResult(t, t.pending[res.frame], res), res.frame, Returned(h, res))
  {
    var t' := Recorded(t, t.pending[res.frame], res);
    assert t.pending[res.frame].shutterTS == h.shutter;
    RecordedOk(t, res, h);
    RecordedEffect(t, t.pending[res.frame], res);
    hide EntryOk, Recorded, Delivered, Stamped, NoteFinal, RemovePendingRequest;
    assert FrameOk(t', res.frame, Returned(h, res));
    RemoveOk(t', res.frame, Returned(h, res));
  }

  lemma ShutterTakenUntouched(t: Table, f: uint32, ts: int, g: uint32)
    requires g != f && f in t.pending && t.nextShutter <= f < TWO_TO_THE_32 - 1
    ensures Untouched(t, ShutterTaken(t, f, ts), g)
  {
    hide SendCaptureResult, ReturnOutputBuffers, Delivered;
    var r := t.pending[f].(shutterTS := ts);
    EmitUntouched(t, ShutterCallback(f, ts), g);
    var t1 := t.Emit(ShutterCallback(f, ts)).(nextShutter := Wrap32(f + 1)).Put(f, r);
    assert Untouched(t, t1, g);
    SendUntouched(t1, r.pendingMetadata, r, r.composedResult, f, g);
    ReturnEffect(SendCaptureResult(t1, r.pendingMetadata, r, r.composedResult, f), r.pendingBuffers, ts, f, g);
  }

  /** A shutter in order notes its time and empties what was held back. */
  lemma ShutterTakenEntry(t: Table, f: uint32, ts: int)
    requires f in t.pending && t.nextShutter <= f
    ensures var t', r := ShutterTaken(t, f, ts), t.pending[f].(shutterTS := ts, pendingBuffers := []);
            && t'.nextShutter == Wrap32(f + 1)
            && t'.pending[f] == (if AnyFailed(t.pending[f].pendingBuffers) && !t.flushing
                                 then r.(status := ERROR_BUFFER) else r)
  {
    hide SendCaptureResult, ReturnOutputBuffers, Delivered, AnyFailed, Stamped, Untouched;
    var r := t.pending[f].(shutterTS := ts);
    var t1 := t.Emit(ShutterCallback(f, ts)).(nextShutter := Wrap32(f + 1)).Put(f, r);
    SendUntouched(t1, r.pendingMetadata, r, r.composedResult, f, f);
    ReturnEffect(SendCaptureResult(t1, r.pendingMetadata, r, r.composedResult, f), r.pendingBuffers, ts, f, f);
  }

  /** A shutter in order delivers to its frame what was held back. */
  lemma ShutterTakenDelivers(t: Table, f: uint32, ts: int)
    requires f in t.pending
    ensures var t' := ShutterTaken(t, f, ts);
            && Delivered(t'.out, f) == Delivered(t.out, f) + t.pending[f].pendingBuffers
            && (Stamped(t.out, f, ts) ==> Stamped(t'.out, f, ts))
  {
    hide SendCaptureResult, ReturnOutputBuffers, Delivered, AnyFailed;
    var r := t.pending[f].(shutterTS := ts);
    EmitUntouched(t, ShutterCallback(f, ts), f);
    var t1 := t.Emit(ShutterCallback(f, ts)).(nextShutter := Wrap32(f + 1)).Put(f, r);
    SendUntouched(t1, r.pendingMetadata, r, r.composedResult, f, f);
    var t2 := SendCaptureResult(t1, r.pendingMetadata, r, r.composedResult, f);
    assert Stamped(t.out, f, ts) ==> Stamped(t2.out, f, ts);
    ReturnEffect(t2, r.pendingBuffers, ts, f, f);
  }

  lemma ShutterUntouched(t: Table, f: uint32, ts: int, g: uint32)
    requires g != f && f in t.pending && t.nextShutter <= f < TWO_TO_THE_32 - 1
    ensures Untouched(t, NotifyShutter(t, f, ts), g)
  {
    ShutterTakenUntouched(t, f, ts, g);
    RemoveUntouched(ShutterTaken(t, f, ts), f, g);
  }

  /** A shutter the table does not take changes nothing it holds. */
  lemma RejectedShutterUntouched(t: Table, f: uint32, ts: int, g: uint32)
    requires f !in t.pending || f < t.nextShutter
    ensures Untouched(t, NotifyShutter(t, f, ts), g)
  {
    EmitUntouched(t, DeviceError(UnknownShutterFrame), g);
    EmitUntouched(t, ShutterCallback(f, ts), g);
    EmitUntouched(t.Emit(ShutterCallback(f, ts)), DeviceError(ShutterOutOfOrder), g);
  }

  /** The first shutter of a frame releases everything held back for it. */
  lemma ShutterOk(t: Table, f: uint32, ts: int, h: History)
    requires f in t.pending && f >= t.nextShutter && ts > 0 && FrameOk(t, f, h)
    ensures FrameOk(NotifyShutter(t, f, ts), f, h.(shutter := ts))
  {
    var h', t' := h.(shutter := ts), ShutterTaken(t, f, ts);
    NothingDelivered(t.out, f);
    ShutterTakenEntry(t, f, ts);
    ShutterTakenDelivers(t, f, ts);
    assert EntryOk(t'.pending[f], Delivered(t'.out, f), h');
    hide EntryOk, ShutterTaken, Delivered, RemovePendingRequest;
    RemoveOk(t', f, h');
  }

  /** A frame that got no buffer has no stamped output. */
  lemma {:induction false} NothingDelivered(out: seq<Output>, f: uint32)
    requires Delivered(out, f) == []
    ensures forall o :: o in out ==> !(o.BufferToClient? && o.frame == f)
  {
    if out != [] { NothingDelivered(out[..|out| - 1], f); }
  }

  /** The entry as the table sees it once partial metadata is noted, and the callback for it. */
  function Noted(t: Table, res: HalResult): Table
    requires res.frame in t.pending
  {
    var r := t.pending[res.frame];
    var r0 := r.(partialResultCount := if res.partialResult != 0 then res.partialResult else r.partialResultCount);
    var r1 := NotePartial(t.config, r0, res);
    PartialCallback(t.Put(res.frame, r1), r1, res)
  }

  lemma NotedOk(t: Table, res: HalResult, f: uint32, h: History)
    requires res.frame in t.pending && FrameOk(t, f, h)
    ensures FrameOk(Noted(t, res), f, h)
    ensures f != res.frame ==> Untouched(t, Noted(t, res), f)
  {
    hide Delivered;
    var r1 := Noted(t, res).pending[res.frame];
    var t1 := t.Put(res.frame, r1);
    assert FrameOk(t1, f, h);
    var partial := r1.composedResult[RequestFrameCount := AsInt32(res.frame)][RequestId := r1.requestId];
    EmitUntouched(t1, PartialResult(res.frame, partial), f);
    UntouchedOk(t1, Noted(t, res), f, h);
  }

  lemma UntouchedOk(t: Table, t': Table, f: uint32, h: History)
    requires FrameOk(t, f, h) && Untouched(t, t', f)
    ensures FrameOk(t', f, h)
  {
  }

  lemma FailOk(t: Table, cause: Cause, f: uint32, h: History)
    requires FrameOk(t, f, h)
    ensures FrameOk(t.Fail(cause), f, h)
  {
    EmitUntouched(t, DeviceError(cause), f);
  }

  lemma RejectedResultOk(t: Table, res: HalResult, f: uint32, h: History)
    requires FrameOk(t, f, h) && Fair(t, ResultArrived(res), h) && !Accepts(t, res)
    ensures FrameOk(HandleCaptureResult(t, res), f, h)
  {
    if !Readable(t.config, res) || res.frame !in t.pending {
      FailOk(t, InvalidPartialResult, f, h);
      FailOk(t, MetadataQueueFailed, f, h);
      FailOk(t, UnknownFrame, f, h);
    } else if !PartialInRange(t.config, res) {
      var r := t.pending[res.frame];
      var r0 := r.(partialResultCount := if res.partialResult != 0 then res.partialResult else r.partialResultCount);
      FailOk(t.Put(res.frame, r0), PartialOutOfRange, f, h);
    } else {
      NotedOk(t, res, f, h);
      FailOk(Noted(t, res), RepeatedMetadata, f, h);
    }
  }

  lemma AcceptedIsNoted(t: Table, res: HalResult)
    requires Accepts(t, res)
    ensures HandleCaptureResult(t, res) == AcceptResult(Noted(t, res), Noted(t, res).pending[res.frame], res)
  {
  }

  /** Every capture result keeps every frame's account, whichever exit it takes. */
  lemma ResultOk(t: Table, res: HalResult, f: uint32, h: History)
    requires FrameOk(t, f, h) && Fair(t, ResultArrived(res), h)
    ensures FrameOk(HandleCaptureResult(t, res), f, Observe(t, ResultArrived(res), f, h))
  {
    if Accepts(t, res) {
      AcceptedIsNoted(t, res);
      NotedOk(t, res, f, h);
      var t1 := Noted(t, res);
      if f == res.frame {
        AcceptOk(t1, res, h);
      } else {
        AcceptUntouched(t1, t1.pending[res.frame], res, f);
        UntouchedOk(t1, HandleCaptureResult(t, res), f, h);
      }
    } else {
      RejectedResultOk(t, res, f, h);
    }
  }

  lemma ErrorOk(t: Table, code: int, g: uint32, f: uint32, h: History)
    requires FrameOk(t, f, h)
    ensures FrameOk(NotifyError(t, code, g), f, Observe(t, ErrorArrived(code, g), f, h))
  {
    hide Delivered;
    var h' := Observe(t, ErrorArrived(code, g), f, h);
    assert FrameOk(t, f, h');
    if code == ERROR_REQUEST || code == ERROR_RESULT || code == ERROR_BUFFER {
      var t1 := if g in t.pending then t.Put(g, t.pending[g].(status := code)) else t;
      assert FrameOk(t1, f, h');
      EmitUntouched(t1, ErrorCallback(code, g), f);
      UntouchedOk(t1, t1.Emit(ErrorCallback(code, g)), f, h');
    } else {
      FailOk(t, SeriousError, f, h');
      FailOk(t, UnknownError, f, h');
    }
  }

  lemma StepOk(t: Table, e: Event, f: uint32, h: History, own: History)
    requires FrameOk(t, f, h)
    requires FrameOk(t, FrameOf(e), own) && Fair(t, e, own)
    requires f == FrameOf(e) ==> h == own
    ensures FrameOk(Step(t, e), f, Observe(t, e, f, h))
  {
    match e
    case Registered(g, n, id) =>
    case ResultArrived(res) => ResultOk(t, res, f, h);
    case ShutterArrived(g, ts) =>
      if g !in t.pending || g < t.nextShutter {
        RejectedShutterUntouched(t, g, ts, f);
      } else if f == g {
        ShutterOk(t, g, ts, h);
      } else {
        ShutterUntouched(t, g, ts, f);
      }
    case ErrorArrived(code, g) => ErrorOk(t, code, g, f, h);
    case _ =>
  }

  /** Every frame's account is right after every fair run. */
  lemma {:induction false} RunOk(config: Config, events: seq<Event>, f: uint32)
    requires FairRun(config, events)
    ensures FrameOk(Run(EmptyTable(config), events), f, HistoryOf(config, events, f))
  {
    if events != [] {
      var n := |events| - 1;
      var prefix, e := events[..n], events[n];
      FairPrefix(config, events);
      RunOk(config, prefix, f);
      RunOk(config, prefix, FrameOf(e));
      StepOk(Run(EmptyTable(config), prefix), e, f, HistoryOf(config, prefix, f),
          HistoryOf(config, prefix, FrameOf(e)));
    }
  }

  lemma FairPrefix(config: Config, events: seq<Event>)
    requires FairRun(config, events) && events != []
    ensures FairRun(config, events[..|events| - 1])
  {
    var prefix := events[..|events| - 1];
    forall k | 0 <= k < |prefix|
      ensures Fair(Run(EmptyTable(config), prefix[..k]), prefix[k], HistoryOf(config, prefix[..k], FrameOf(prefix[k])))
    {
      assert prefix[..k] == events[..k];
    }
  }

  /** Conservation over every fair run: a frame in the table has handed out plus held back
      exactly what was received, and still owes the rest of its count; a frame that left it
      has handed out exactly its count. Every buffer handed out carries the shutter time; a
      frame leaves without one (its buffers then carry 0) only after an error. */
  lemma BuffersConserved(config: Config, events: seq<Event>, f: uint32)
    requires FairRun(config, events)
    ensures var t, h := Run(EmptyTable(config), events), HistoryOf(config, events, f);
            && Stamped(t.out, f, h.shutter)
            && (f in t.pending ==>
                  && h.count.Some?
                  && Delivered(t.out, f) + t.pending[f].pendingBuffers == h.received
                  && |Delivered(t.out, f)| + |t.pending[f].pendingBuffers|
                     + t.pending[f].buffersRemaining == h.count.value)
            && (f !in t.pending && h.count.Some? ==>
                  && Delivered(t.out, f) == h.received
                  && |Delivered(t.out, f)| == h.count.value
                  && (h.shutter == 0 ==> h.errorSeen))
            && (h.count.None? ==> f !in t.pending && Delivered(t.out, f) == [])
  {
    RunOk(config, events, f);
  }

  /** Buffers handed out for, held back for, and still owed to a frame. */
  function Account(t: Table, f: uint32): int {
    |Delivered(t.out, f)| + if f in t.pending then |t.pending[f].pendingBuffers| + t.pending[f].buffersRemaining else 0
  }

  /** The results that break the account: over-returned ones, ones with an input buffer, and
      buffers arriving after a negative shutter time. A buffer that an error exit drops stays owed,
      so the account does not show it: see `Keeps`. */
  predicate Loses(t: Table, res: HalResult)
    requires res.frame in t.pending
  {
    var r := t.pending[res.frame];
    && Readable(t.config, res)
    && PartialInRange(t.config, res)
    && !(IsFinal(t.config, res) && r.isMetaPresent)
    && if BuffersIn(res) > r.buffersRemaining then BuffersIn(res) > 0
       else res.inputBuffer || (r.shutterTS < 0 && res.outputBuffers != [])
  }

  lemma RemoveKeepsAccount(t: Table, f: uint32)
    requires f in t.pending
    ensures Account(RemovePendingRequest(t, f), f) == Account(t, f)
  {
    var r := t.pending[f];
    if Complete(r) {
      var t1 := if r.status == 0 && r.sensorTS != r.shutterTS then t.Fail(TimestampMismatch) else t;
      EmitUntouched(t, DeviceError(TimestampMismatch), f);
      ReturnEffect(t1, r.pendingBuffers, 0, f, f);
    }
  }

  lemma AcceptAccount(t: Table, res: HalResult)
    requires res.frame in t.pending
    ensures var r := t.pending[res.frame];
            Account(AcceptResult(t, r, res), res.frame) == Account(t, res.frame)
              - (if res.inputBuffer then 1 else 0) - (if r.shutterTS < 0 then |res.outputBuffers| else 0)
  {
    RecordedEffect(t, t.pending[res.frame], res);
    RemoveKeepsAccount(Recorded(t, t.pending[res.frame], res), res.frame);
  }

  lemma NotedKeepsAccount(t: Table, res: HalResult)
    requires res.frame in t.pending
    ensures Account(Noted(t, res), res.frame) == Account(t, res.frame)
  {
    var f, noted := res.frame, Noted(t, res).pending[res.frame];
    EmitUntouched(t.Put(f, noted), PartialResult(f,
        noted.composedResult[RequestFrameCount := AsInt32(f)][RequestId := noted.requestId]), f);
  }

  lemma RejectedKeepsAccount(t: Table, res: HalResult)
    requires res.frame in t.pending && !Accepts(t, res)
    ensures Account(HandleCaptureResult(t, res), res.frame) == Account(t, res.frame) <==> !Loses(t, res)
  {
    hide Delivered;
    var f, r := res.frame, t.pending[res.frame];
    if !Readable(t.config, res) {
      DeliveredOne(t.out, DeviceError(InvalidPartialResult), f);
      DeliveredOne(t.out, DeviceError(MetadataQueueFailed), f);
    } else if !PartialInRange(t.config, res) {
      DeliveredOne(t.out, DeviceError(PartialOutOfRange), f);
    } else {
      NotedKeepsAccount(t, res);
      DeliveredOne(Noted(t, res).out, DeviceError(RepeatedMetadata), f);
      DeliveredOne(Noted(t, res).out, DeviceError(TooManyBuffers), f);
    }
  }

  /** Exactly which results break a frame's account, whatever the table holds. */
  lemma ResultKeepsAccountExactly(t: Table, res: HalResult)
    requires res.frame in t.pending
    ensures Account(HandleCaptureResult(t, res), res.frame) == Account(t, res.frame) <==> !Loses(t, res)
  {
    if Accepts(t, res) {
      NotedKeepsAccount(t, res);
      AcceptedIsNoted(t, res);
      AcceptAccount(Noted(t, res), res);
    } else {
      RejectedKeepsAccount(t, res);
    }
  }

  /** A shutter, taken or not, keeps the account of its frame whatever its time. */
  lemma ShutterKeepsAccount(t: Table, f: uint32, ts: int)
    ensures Account(NotifyShutter(t, f, ts), f) == Account(t, f)
  {
    if f !in t.pending || f < t.nextShutter {
      RejectedShutterUntouched(t, f, ts, f);
    } else {
      ShutterTakenEntry(t, f, ts);
      ShutterTakenDelivers(t, f, ts);
      RemoveKeepsAccount(ShutterTaken(t, f, ts), f);
    }
  }

  /** The buffers of a frame that are with the client or held back for it. */
  function Got(t: Table, f: uint32): multiset<Buffer> {
    multiset(Delivered(t.out, f)) + if f in t.pending then multiset(t.pending[f].pendingBuffers) else multiset{}
  }

  /** The results whose buffers the table keeps: ones without buffers, and accepted ones of
      a frame whose shutter time, if it came, is not negative. */
  predicate Keeps(t: Table, res: HalResult) {
    res.outputBuffers == [] || (Accepts(t, res) && t.pending[res.frame].shutterTS >= 0)
  }

  lemma UntouchedGot(t: Table, t': Table, f: uint32)
    requires Untouched(t, t', f)
    ensures Got(t', f) == Got(t, f)
  {
  }

  lemma FailGot(t: Table, cause: Cause, f: uint32)
    ensures Got(t.Fail(cause), f) == Got(t, f)
  {
    EmitUntouched(t, DeviceError(cause), f);
  }

  lemma RemoveKeepsGot(t: Table, f: uint32)
    requires f in t.pending
    ensures Got(RemovePendingRequest(t, f), f) == Got(t, f)
  {
    var r := t.pending[f];
    if Complete(r) {
      var t1 := if r.status == 0 && r.sensorTS != r.shutterTS then t.Fail(TimestampMismatch) else t;
      EmitUntouched(t, DeviceError(TimestampMismatch), f);
      ReturnEffect(t1, r.pendingBuffers, 0, f, f);
    }
  }

  lemma AcceptGot(t: Table, res: HalResult)
    requires res.frame in t.pending
    ensures var r := t.pending[res.frame];
            Got(AcceptResult(t, r, res), res.frame)
            == Got(t, res.frame) + if r.shutterTS < 0 then multiset{} else multiset(res.outputBuffers)
  {
    RecordedEffect(t, t.pending[res.frame], res);
    RemoveKeepsGot(Recorded(t, t.pending[res.frame], res), res.frame);
  }

  lemma NotedKeepsGot(t: Table, res: HalResult, g: uint32)
    requires res.frame in t.pending
    ensures Got(Noted(t, res), g) == Got(t, g)
    ensures Noted(t, res).pending.Keys == t.pending.Keys
  {
    var f, noted := res.frame, Noted(t, res).pending[res.frame];
    EmitUntouched(t.Put(f, noted), PartialResult(f,
        noted.composedResult[RequestFrameCount := AsInt32(f)][RequestId := noted.requestId]), g);
  }

  /** A result that leaves after its frame was found changes no buffer the table holds. */
  lemma RefusedGot(t: Table, r: Pending, res: HalResult, cause: Cause, g: uint32)
    requires res.frame in t.pending && r.pendingBuffers == t.pending[res.frame].pendingBuffers
    ensures Got(t.Put(res.frame, r).Fail(cause), g) == Got(t, g)
    ensures Got(t.Fail(cause), g) == Got(t, g)
  {
    FailGot(t.Put(res.frame, r), cause, g);
    FailGot(t, cause, g);
  }

  lemma SettleRefusedGot(t: Table, res: HalResult, g: uint32)
    requires res.frame in t.pending
    requires (IsFinal(t.config, res) && t.pending[res.frame].isMetaPresent)
             || BuffersIn(res) > t.pending[res.frame].buffersRemaining
    ensures Got(Settle(t, t.pending[res.frame], res), g) == Got(t, g)
  {
    hide Got, AcceptResult;
    var r, final := t.pending[res.frame], IsFinal(t.config, res);
    RefusedGot(t, r, res, RepeatedMetadata, g);
    RefusedGot(t, r.(isMetaPresent := r.isMetaPresent || final,
                     buffersRemaining := r.buffersRemaining - BuffersIn(res),
                     composedResult := if final && t.config.PartialSupported() then map[]
                         else r.composedResult), res, TooManyBuffers, g);
  }

  lemma RejectedGot(t: Table, res: HalResult, g: uint32)
    requires !Accepts(t, res)
    ensures Got(HandleCaptureResult(t, res), g) == Got(t, g)
  {
    hide Got, Settle, NotePartial;
    if !Readable(t.config, res) || res.frame !in t.pending {
      FailGot(t, InvalidPartialResult, g);
      FailGot(t, MetadataQueueFailed, g);
      FailGot(t, UnknownFrame, g);
      ForgottenGot(t, res.frame, g);
    } else if !PartialInRange(t.config, res) {
      var r := t.pending[res.frame];
      var r0 := r.(partialResultCount := if res.partialResult != 0 then res.partialResult else r.partialResultCount);
      RefusedGot(t, r0, res, PartialOutOfRange, g);
    } else {
      NotedKeepsGot(t, res, g);
      NotedKeeps(t, res);
      SettleRefusedGot(Noted(t, res), res, g);
    }
  }

  lemma ForgottenGot(t: Table, f: uint32, g: uint32)
    ensures Got(t.(errored := t.errored - {f}), g) == Got(t, g)
  {
  }

  lemma NotedKeeps(t: Table, res: HalResult)
    requires Readable(t.config, res) && PartialInRange(t.config, res) && res.frame in t.pending
    ensures var t1, f := Noted(t, res), res.frame;
            && HandleCaptureResult(t, res) == Settle(t1, t1.pending[f], res)
            && t1.config == t.config
            && t1.pending[f].isMetaPresent == t.pending[f].isMetaPresent
            && t1.pending[f].buffersRemaining == t.pending[f].buffersRemaining
  {
  }

  /** A result either adds all its buffers to what the frame got or drops them all. */
  lemma ResultGot(t: Table, res: HalResult)
    ensures Got(HandleCaptureResult(t, res), res.frame)
            == Got(t, res.frame) + if Keeps(t, res) then multiset(res.outputBuffers) else multiset{}
  {
    if Accepts(t, res) {
      NotedKeepsGot(t, res, res.frame);
      AcceptedIsNoted(t, res);
      AcceptGot(Noted(t, res), res);
    } else {
      RejectedGot(t, res, res.frame);
    }
  }

  /** Exactly which results drop no buffer, from any table and through every exit. */
  lemma ResultDropsNothingExactly(t: Table, res: HalResult)
    ensures var t', f := HandleCaptureResult(t, res), res.frame;
            && (Got(t', f) == Got(t, f) + multiset(res.outputBuffers) <==> Keeps(t, res))
            && (|Got(t', f)| == |Got(t, f)| + |res.outputBuffers| <==> Keeps(t, res))
  {
    ResultGot(t, res);
    var n := |multiset(res.outputBuffers)|;
    assert n == |res.outputBuffers|;
    assert |Got(HandleCaptureResult(t, res), res.frame)| == |Got(t, res.frame)| + if Keeps(t, res) then n else 0;
  }

  lemma ResultKeepsOthersGot(t: Table, res: HalResult, g: uint32)
    requires g != res.frame
    ensures Got(HandleCaptureResult(t, res), g) == Got(t, g)
  {
    if Accepts(t, res) {
      hide Delivered, AcceptResult;
      AcceptedIsNoted(t, res);
      NotedKeepsGot(t, res, g);
      AcceptUntouched(Noted(t, res), Noted(t, res).pending[res.frame], res, g);
    } else {
      RejectedGot(t, res, g);
    }
  }

  lemma ShutterTakenGot(t: Table, f: uint32, ts: int, g: uint32)
    requires f in t.pending && t.nextShutter <= f
    ensures Got(ShutterTaken(t, f, ts), g) == Got(t, g)
  {
    if g == f {
      ShutterTakenEntry(t, f, ts);
      ShutterTakenDelivers(t, f, ts);
    } else {
      hide SendCaptureResult, ReturnOutputBuffers, Delivered;
      var r := t.pending[f].(shutterTS := ts);
      EmitUntouched(t, ShutterCallback(f, ts), g);
      var t1 := t.Emit(ShutterCallback(f, ts)).(nextShutter := Wrap32(f + 1)).Put(f, r);
      assert Got(t1, g) == Got(t, g);
      SendUntouched(t1, r.pendingMetadata, r, r.composedResult, f, g);
      ReturnEffect(SendCaptureResult(t1, r.pendingMetadata, r, r.composedResult, f), r.pendingBuffers, ts, f, g);
    }
  }

  lemma ShutterKeepsGot(t: Table, f: uint32, ts: int, g: uint32)
    ensures Got(NotifyShutter(t, f, ts), g) == Got(t, g)
  {
    if f !in t.pending || f < t.nextShutter {
      RejectedShutterUntouched(t, f, ts, g);
    } else {
      ShutterTakenGot(t, f, ts, g);
      RemoveKeepsGot(ShutterTaken(t, f, ts), f);
      if g != f { RemoveUntouched(ShutterTaken(t, f, ts), f, g); }
    }
  }

  lemma ErrorKeepsGot(t: Table, code: int, f: uint32, g: uint32)
    ensures Got(NotifyError(t, code, f), g) == Got(t, g)
  {
    hide Delivered;
    FailGot(t, SeriousError, g);
    FailGot(t, UnknownError, g);
    DeliveredOne(t.out, ErrorCallback(code, f), g);
  }

  /** The buffers an event returns for frame `f`. */
  function ReturnedBy(e: Event, f: uint32): multiset<Buffer> {
    if e.ResultArrived? && e.result.frame == f then multiset(e.result.outputBuffers) else multiset{}
  }

  /** Nothing but a result of its own changes what a frame got. */
  lemma StepGot(t: Table, e: Event, f: uint32)
    ensures Got(Step(t, e), f)
            == Got(t, f) + if e.ResultArrived? && !Keeps(t, e.result) then multiset{} else ReturnedBy(e, f)
  {
    hide Keeps, Delivered, HandleCaptureResult, NotifyShutter, NotifyError;
    match e
    case ResultArrived(res) =>
      ResultGot(t, res);
      if res.frame != f { ResultKeepsOthersGot(t, res, f); }
    case ShutterArrived(g, ts) => ShutterKeepsGot(t, g, ts, f);
    case ErrorArrived(code, g) => ErrorKeepsGot(t, code, g, f);
    case _ =>
  }

  /** All the buffers the HAL returned for a frame in a run. */
  function ReturnedFor(events: seq<Event>, f: uint32): multiset<Buffer> {
    if events == [] then multiset{}
    else ReturnedFor(events[..|events| - 1], f) + ReturnedBy(events[|events| - 1], f)
  }

  /** Every result of frame `f` in the run met a table that keeps its buffers. */
  predicate AllKept(t: Table, events: seq<Event>, f: uint32) {
    forall k :: 0 <= k < |events| && events[k].ResultArrived? && events[k].result.frame == f ==>
      Keeps(Run(t, events[..k]), events[k].result)
  }

  lemma AllKeptSnoc(t: Table, events: seq<Event>, f: uint32)
    requires events != []
    ensures var n := |events| - 1;
            AllKept(t, events, f) <==>
              && AllKept(t, events[..n], f)
              && (events[n].ResultArrived? && events[n].result.frame == f ==>
                    Keeps(Run(t, events[..n]), events[n].result))
  {
    var n := |events| - 1;
    forall k | 0 <= k < n ensures events[..n][..k] == events[..k] && events[..n][k] == events[k] {
    }
  }

  /** Over every run at all, a frame got no buffer the HAL did not return for it, and it got
      every one of them exactly if all its results met a table that keeps their buffers. */
  lemma {:induction false} BuffersLostExactly(config: Config, events: seq<Event>, f: uint32)
    ensures var t := Run(EmptyTable(config), events);
            && Got(t, f) <= ReturnedFor(events, f)
            && (Got(t, f) == ReturnedFor(events, f) <==> AllKept(EmptyTable(config), events, f))
  {
    if events != [] {
      var n, t0 := |events| - 1, EmptyTable(config);
      BuffersLostExactly(config, events[..n], f);
      AllKeptSnoc(t0, events, f);
      hide Got, Keeps, AllKept, Step;
      StepGot(Run(t0, events[..n]), events[n], f);
      LostOrNot(Got(Run(t0, events[..n]), f), ReturnedFor(events[..n], f), ReturnedBy(events[n], f));
      EmptyIsKept(Run(t0, events[..n]), events[n]);
    }
  }

  lemma EmptyIsKept(t: Table, e: Event)
    ensures e.ResultArrived? && !Keeps(t, e.result) ==> ReturnedBy(e, e.result.frame) != multiset{}
  {
    if e.ResultArrived? && !Keeps(t, e.result) { assert e.result.outputBuffers[0] in ReturnedBy(e, e.result.frame); }
  }

  /** Buffers missing before are missing afterwards, and so are new ones that are dropped. */
  lemma LostOrNot(got: multiset<Buffer>, returned: multiset<Buffer>, more: multiset<Buffer>)
    requires got <= returned
    ensures got <= returned + more && got + more <= returned + more
    ensures got == returned + more <==> got == returned && more == multiset{}
    ensures got + more == returned + more <==> got == returned
  {
    if got == returned + more { assert |got| == |returned| + |more|; }
    if got + more == returned + more {
      assert forall b :: (got + more)[b] == got[b] + more[b] && (returned + more)[b] == returned[b] + more[b];
    }
  }

  /** A run through an error exit: the metadata queue cannot be read, the result is dropped
      with its buffer, and the frame waits for that buffer in vain. */
  lemma UnreadQueueLosesABuffer()
    ensures var t := Run(EmptyTable(Config(1, true)),
                         [Registered(0, 1, 7),
                          ResultArrived(HalResult(0, None, FmqReadFails, 0, [Buffer(1, 0, true)], false))]);
            && 0 in t.pending && t.pending[0].buffersRemaining == 1
            && t.pending[0].pendingBuffers == [] && Delivered(t.out, 0) == []
  {
    var t0, res := EmptyTable(Config(1, true)), HalResult(0, None, FmqReadFails, 0, [Buffer(1, 0, true)], false);
    var e1, e2 := Registered(0, 1, 7), ResultArrived(res);
    RunSnoc(t0, [], e1);
    RunSnoc(t0, [e1], e2);
    assert [] + [e1] == [e1] && [e1] + [e2] == [e1, e2];
    DeliveredOne([], DeviceError(MetadataQueueFailed), 0);
    assert [] + [DeviceError(MetadataQueueFailed)] == [DeviceError(MetadataQueueFailed)];
  }

  /** The table of a frame registered with one buffer, after a shutter at time -5. */
  const NEGATIVE_SHUTTER: Table :=
    Table(Config(1, true), map[0 := Pending(-5, 0, 0, false, 1, map[], [], map[], 7, 0)], {}, 1, 0, false,
          [ShutterCallback(0, -5)])

  lemma NegativeShutterStep()
    ensures NotifyShutter(Register(EmptyTable(Config(1, true)), 0, 1, 7), 0, -5) == NEGATIVE_SHUTTER
  {
    var t := Register(EmptyTable(Config(1, true)), 0, 1, 7);
    var r := Pending(-5, 0, 0, false, 1, map[], [], map[], 7, 0);
    var t1 := t.Emit(ShutterCallback(0, -5)).(nextShutter := 1).Put(0, r);
    assert SendCaptureResult(t1, r.pendingMetadata, r, r.composedResult, 0) == t1;
    assert t1.out + [] == t1.out;
    assert ReturnOutputBuffers(t1, [], -5, 0) == t1;
    assert t1.Put(0, r) == t1;
    assert ShutterTaken(t, 0, -5) == t1;
  }

  /** A concrete run where a buffer vanishes: the HAL's shutter time is negative. */
  lemma NegativeShutterLosesABuffer()
    ensures var t := Run(EmptyTable(Config(1, true)),
                         [Registered(0, 1, 7), ShutterArrived(0, -5),
                          ResultArrived(HalResult(0, None, NoFmq, 0, [Buffer(1, 0, true)], false))]);
            0 in t.pending && t.pending[0].buffersRemaining == 0 && t.pending[0].pendingBuffers == []
                && Delivered(t.out, 0) == []
  {
    var t0, res := EmptyTable(Config(1, true)), HalResult(0, None, NoFmq, 0, [Buffer(1, 0, true)], false);
    var e1, e2, e3 := Registered(0, 1, 7), ShutterArrived(0, -5), ResultArrived(res);
    RunSnoc(t0, [], e1);
    RunSnoc(t0, [e1], e2);
    RunSnoc(t0, [e1, e2], e3);
    assert [] + [e1] == [e1] && [e1] + [e2] == [e1, e2] && [e1, e2] + [e3] == [e1, e2, e3];
    NegativeShutterStep();
    assert Run(t0, [e1, e2]) == NEGATIVE_SHUTTER;
    LateBufferLost(res);
  }

  lemma LateBufferLost(res: HalResult)
    requires res == HalResult(0, None, NoFmq, 0, [Buffer(1, 0, true)], false)
    ensures var t := HandleCaptureResult(NEGATIVE_SHUTTER, res);
            0 in t.pending && t.pending[0].buffersRemaining == 0 && t.pending[0].pendingBuffers == []
                && Delivered(t.out, 0) == []
  {
    var t := NEGATIVE_SHUTTER;
    hide Recorded, RemovePendingRequest, Delivered;
    AcceptedIsNoted(t, res);
    assert Noted(t, res) == t;
    RecordedEffect(t, t.pending[0], res);
    NotReadyIsKept(Recorded(t, t.pending[0], res), 0);
    NothingYet();
  }

  lemma NothingYet()
    ensures Delivered(NEGATIVE_SHUTTER.out, 0) == []
  {
    DeliveredOne([], ShutterCallback(0, -5), 0);
    assert [] + [ShutterCallback(0, -5)] == NEGATIVE_SHUTTER.out;
  }

  lemma NotReadyIsKept(t: Table, f: uint32)
    requires f in t.pending && t.pending[f].status == 0 && !t.pending[f].isMetaPresent
    ensures RemovePendingRequest(t, f) == t
  {
  }
}
