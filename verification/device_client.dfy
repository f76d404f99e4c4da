/** The device client's handling of HAL events, on its own fields, statement by statement.
    Every method is proved to be the step of `InFlightTable` of the same name. */
module DeviceClient {
  import opened Wrappers
  import opened InFlightTable

  class Camera3DeviceClient {
    const config: Config
    var pendingRequests: map<uint32, Pending>
    var pendingErrorRequests: set<uint32>
    var nextShutterFrameNumber: uint32
    var nextResultFrameNumber: uint32
    var flushOnGoing: bool
    /** Everything handed out so far, oldest first. */
    ghost var out: seq<Output>

    ghost function Model(): Table
      reads this
    {
      Table(config, pendingRequests, pendingErrorRequests, nextShutterFrameNumber, nextResultFrameNumber,
            flushOnGoing, out)
    }

    constructor (config: Config)
      ensures Model() == EmptyTable(config)
    {
      this.config := config;
      pendingRequests, pendingErrorRequests := map[], {};
      nextShutterFrameNumber, nextResultFrameNumber := 0, 0;
      flushOnGoing := false;
      out := [];
    }

    method SetError(cause: Cause)
      modifies this`out
      ensures Model() == old(Model()).Fail(cause)
    {
      out := out + [DeviceError(cause)];
    }

    method MarkPendingRequest(frameNumber: uint32, numBuffers: int, requestId: int)
      modifies this`pendingRequests
      ensures Model() == Register(old(Model()), frameNumber, numBuffers, requestId)
    {
      if frameNumber !in pendingRequests {
        pendingRequests := pendingRequests[frameNumber := Pending(0, 0, 0, false, numBuffers, map[], [], map[],
            requestId, 0)];
      }
    }

    method SendCaptureResult(pendingMetadata: Metadata, r: Pending, collected: Metadata, frameNumber: uint32)
      modifies this`nextResultFrameNumber, this`out
      ensures Model() == InFlightTable.SendCaptureResult(old(Model()), pendingMetadata, r, collected, frameNumber)
    {
      if pendingMetadata == map[] {
        return;
      }
      if !config.resultCb {
        return;
      }
      if frameNumber < nextResultFrameNumber {
        SetError(ResultOutOfOrder);
        return;
      }
      nextResultFrameNumber := Wrap32(frameNumber + 1);
      var metadata := pendingMetadata[RequestFrameCount := AsInt32(frameNumber)];
      if config.PartialSupported() && collected != map[] {
        metadata := Append(metadata, collected);
      }
      if SensorTimestamp !in metadata {
        SetError(NoTimestamp);
        return;
      }
      out := out + [FinalResult(frameNumber, r.requestId, r.partialResultCount, metadata)];
    }

    method ReturnOutputBuffers(outputBuffers: seq<Buffer>, timestamp: int, frameNumber: uint32)
      modifies this`pendingRequests, this`out
      ensures Model() == InFlightTable.ReturnOutputBuffers(old(Model()), outputBuffers, timestamp, frameNumber)
      ensures pendingRequests.Keys == old(pendingRequests.Keys)
    {
      ghost var t := Model();
      assert t == InFlightTable.ReturnOutputBuffers(t, [], timestamp, frameNumber) by { assert out + [] == out; }
      for i := 0 to |outputBuffers|
        invariant Model() == InFlightTable.ReturnOutputBuffers(t, outputBuffers[..i], timestamp, frameNumber)
        invariant pendingRequests.Keys == old(pendingRequests.Keys)
      {
        var b := outputBuffers[i];
        ReturnSnoc(t, outputBuffers[..i], b, timestamp, frameNumber);
        assert outputBuffers[..i] + [b] == outputBuffers[..i + 1];
        out := out + [BufferToClient(frameNumber, b, timestamp)];
        if !b.ok && !flushOnGoing {
          if frameNumber in pendingRequests {
            pendingRequests := pendingRequests[frameNumber := pendingRequests[frameNumber].(status := ERROR_BUFFER)];
          }
          out := out + [ErrorCallback(ERROR_BUFFER, frameNumber)];
        }
      }
      assert outputBuffers[..|outputBuffers|] == outputBuffers;
    }

    method RemovePendingRequestLocked(frameNumber: uint32)
      requires frameNumber in pendingRequests
      modifies this`pendingRequests, this`pendingErrorRequests, this`out
      ensures Model() == RemovePendingRequest(old(Model()), frameNumber)
    {
      var sensorTS, shutterTS := pendingRequests[frameNumber].sensorTS, pendingRequests[frameNumber].shutterTS;
      var request := pendingRequests[frameNumber];
      if request.buffersRemaining == 0 && (request.status != 0 || (request.isMetaPresent && shutterTS != 0)) {
        if request.status == 0 && sensorTS != shutterTS {
          SetError(TimestampMismatch);
        }
        ReturnOutputBuffers(request.pendingBuffers, 0, frameNumber);
        request := pendingRequests[frameNumber];
        if request.status != 0 && (!request.isMetaPresent || shutterTS == 0) {
          pendingErrorRequests := pendingErrorRequests + {frameNumber};
        }
        pendingRequests := pendingRequests - {frameNumber};
      }
    }

    method HandlePartialResult(frameNumber: uint32, partial: Metadata, requestId: int)
      modifies this`out
      ensures out == old(out) + if config.resultCb
                                then [PartialResult(frameNumber, partial[RequestFrameCount := AsInt32(frameNumber)]
                                                                        [RequestId := requestId])]
                                else []
    {
      if config.resultCb {
        var metadata := partial[RequestFrameCount := AsInt32(frameNumber)];
        metadata := metadata[RequestId := requestId];
        out := out + [PartialResult(frameNumber, metadata)];
      }
    }

    method HandleCaptureResult(result: HalResult)
      modifies this
      ensures Model() == InFlightTable.HandleCaptureResult(old(Model()), result)
    {
      hide Settle, Accepts;
      var frameNumber := result.frame;
      if result.inline.None? && result.outputBuffers == [] {
        return;
      }
      if !config.PartialSupported() && result.inline.Some? && result.partialResult != 1 {
        SetError(InvalidPartialResult);
        return;
      }
      var resultMetadata: Metadata := map[];
      match result.fmq {
        case NoFmq =>
        case FmqReadFails =>
          SetError(MetadataQueueFailed);
          return;
        case FmqPayload(payload) => resultMetadata := payload;
      }
      if frameNumber !in pendingRequests {
        if frameNumber in pendingErrorRequests {
          pendingErrorRequests := pendingErrorRequests - {frameNumber};
          return;
        }
        SetError(UnknownFrame);
        return;
      }

      var inRange, isPartialResult := NotePartialResult(result);
      if !inRange {
        return;
      }
      FinishCaptureResult(result, resultMetadata, isPartialResult);
    }

    /** The part of `HandleCaptureResult` about partial results. */
    method NotePartialResult(result: HalResult) returns (inRange: bool, isPartialResult: bool)
      requires result.frame in pendingRequests
      modifies this`pendingRequests, this`out
      ensures inRange <==> PartialInRange(config, result)
      ensures var t, f := old(Model()), result.frame;
              var r0 := t.pending[f].(partialResultCount := if result.partialResult != 0 then result.partialResult
                                                            else t.pending[f].partialResultCount);
              var r1 := NotePartial(config, r0, result);
              Model() == if inRange then PartialCallback(t.Put(f, r1), r1, result)
                         else t.Put(f, r0).Fail(PartialOutOfRange)
      ensures inRange ==> result.frame in pendingRequests && isPartialResult == IsPartial(config, result)
    {
      var frameNumber := result.frame;
      inRange, isPartialResult := true, false;
      var request := pendingRequests[frameNumber];
      if result.partialResult != 0 {
        request := request.(partialResultCount := result.partialResult);
      }
      if config.PartialSupported() && result.inline.Some? {
        if result.partialResult > config.partialCount || result.partialResult < 1 {
          pendingRequests := pendingRequests[frameNumber := request];
          SetError(PartialOutOfRange);
          return false, false;
        }
        isPartialResult := result.partialResult < config.partialCount;
        if isPartialResult {
          request := request.(composedResult := result.inline.value);
          HandlePartialResult(frameNumber, request.composedResult, request.requestId);
        }
      }
      pendingRequests := pendingRequests[frameNumber := request];
      assert out + [] == out;
    }

    /** The second half of `HandleCaptureResult`, from the final metadata on. */
    method FinishCaptureResult(result: HalResult, resultMetadata: Metadata, isPartialResult: bool)
      requires result.frame in pendingRequests
      requires resultMetadata == FinalPayload(result) && isPartialResult == IsPartial(config, result)
      modifies this
      ensures Model() == Settle(old(Model()), old(pendingRequests[result.frame]), result)
    {
      hide AcceptResult, NoteFinal;
      var frameNumber := result.frame;
      var request := pendingRequests[frameNumber];
      var collectedPartialResult: Metadata := map[];
      if result.inline.Some? && !isPartialResult {
        if request.isMetaPresent {
          SetError(RepeatedMetadata);
          return;
        }
        if config.PartialSupported() && request.composedResult != map[] {
          collectedPartialResult := request.composedResult;
          request := request.(composedResult := map[]);
        }
        request := request.(isMetaPresent := true);
      }
      request := request.(buffersRemaining := request.buffersRemaining - |result.outputBuffers|);
      if result.inputBuffer {
        request := request.(buffersRemaining := request.buffersRemaining - 1);
      }
      pendingRequests := pendingRequests[frameNumber := request];
      if request.buffersRemaining < 0 {
        SetError(TooManyBuffers);
        return;
      }
      AcceptOverwrites(old(Model()), request, old(pendingRequests[frameNumber]), result);
      DispatchCaptureResult(result, resultMetadata, isPartialResult, collectedPartialResult,
          old(pendingRequests[frameNumber]));
    }

    /** The last part of `HandleCaptureResult`: what was recorded is sent, or held back until
        the shutter. `r` is the entry as the result found it. */
    method DispatchCaptureResult(result: HalResult, resultMetadata: Metadata, isPartialResult: bool,
                                 collectedPartialResult: Metadata, ghost r: Pending)
      requires result.frame in pendingRequests
      requires resultMetadata == FinalPayload(result) && isPartialResult == IsPartial(config, result)
      requires collectedPartialResult == Collected(config, r, result)
      requires var final := IsFinal(config, result);
               pendingRequests[result.frame] == r.(
                 isMetaPresent := r.isMetaPresent || final,
                 buffersRemaining := r.buffersRemaining - BuffersIn(result),
                 composedResult := if final && config.PartialSupported() then map[] else r.composedResult)
      modifies this
      ensures Model() == AcceptResult(old(Model()), r, result)
    {
      hide AcceptResult, BuffersIn, Collected, IsPartial, NoteFinal;
      var final := result.inline.Some? && !isPartialResult;
      RecordResult(result, resultMetadata, final, collectedPartialResult, r);
      AcceptOverwrites(old(Model()), pendingRequests[result.frame], r, result);
      assert final == IsFinal(config, result);
      SendAndReturn(result, resultMetadata, final, collectedPartialResult, r);
    }

    /** What the entry keeps of the result: the sensor time and, before the shutter, the rest. */
    method RecordResult(result: HalResult, resultMetadata: Metadata, final: bool, collectedPartialResult: Metadata,
        ghost r: Pending)
      requires result.frame in pendingRequests
      requires resultMetadata == FinalPayload(result) && final == IsFinal(config, result)
      requires collectedPartialResult == Collected(config, r, result)
      requires pendingRequests[result.frame] == r.(
                 isMetaPresent := r.isMetaPresent || final,
                 buffersRemaining := r.buffersRemaining - BuffersIn(result),
                 composedResult := if final && config.PartialSupported() then map[] else r.composedResult)
      modifies this`pendingRequests
      ensures pendingRequests == old(pendingRequests)[result.frame := NoteFinal(config, r, result)]
    {
      hide BuffersIn, Collected, IsPartial;
      var frameNumber := result.frame;
      var request := pendingRequests[frameNumber];
      var shutterTimestamp := request.shutterTS;
      if result.inline.Some? && SensorTimestamp in result.inline.value {
        request := request.(sensorTS := result.inline.value[SensorTimestamp]);
      }
      if shutterTimestamp == 0 && |result.outputBuffers| > 0 {
        request := request.(pendingBuffers := request.pendingBuffers + result.outputBuffers);
      }
      assert result.outputBuffers == [] ==> request.pendingBuffers == request.pendingBuffers + result.outputBuffers;
      if final && shutterTimestamp == 0 {
        request := request.(pendingMetadata := resultMetadata);
        request := request.(composedResult := collectedPartialResult);
      }
      pendingRequests := pendingRequests[frameNumber := request];
    }

    /** After the shutter the metadata and the buffers go out at once; the entry goes when complete. */
    method SendAndReturn(result: HalResult, resultMetadata: Metadata, final: bool, collectedPartialResult: Metadata,
        ghost r: Pending)
      requires result.frame in pendingRequests && pendingRequests[result.frame] == NoteFinal(config, r, result)
      requires resultMetadata == FinalPayload(result) && final == IsFinal(config, result)
      requires collectedPartialResult == Collected(config, r, result)
      modifies this
      ensures Model() == AcceptResult(old(Model()), r, result)
    {
      hide InFlightTable.SendCaptureResult, InFlightTable.ReturnOutputBuffers, RemovePendingRequest, Collected,
          FinalPayload, IsFinal;
      var frameNumber := result.frame;
      var request := pendingRequests[frameNumber];
      assert request.shutterTS == r.shutterTS;
      hide NoteFinal;
      assert pendingRequests == pendingRequests[frameNumber := request];
      if final && request.shutterTS != 0 {
        SendCaptureResult(resultMetadata, request, collectedPartialResult, frameNumber);
      }
      if 0 < request.shutterTS {
        ReturnOutputBuffers(result.outputBuffers, request.shutterTS, frameNumber);
      }
      RemovePendingRequestLocked(frameNumber);
    }

    method NotifyShutter(frameNumber: uint32, timestamp: int)
      modifies this
      ensures Model() == InFlightTable.NotifyShutter(old(Model()), frameNumber, timestamp)
    {
      if frameNumber in pendingRequests {
        out := out + [ShutterCallback(frameNumber, timestamp)];
        if frameNumber < nextShutterFrameNumber {
          SetError(ShutterOutOfOrder);
          return;
        }
        nextShutterFrameNumber := Wrap32(frameNumber + 1);
        var r := pendingRequests[frameNumber].(shutterTS := timestamp);
        pendingRequests := pendingRequests[frameNumber := r];
        SendCaptureResult(r.pendingMetadata, r, r.composedResult, frameNumber);
        ReturnOutputBuffers(r.pendingBuffers, timestamp, frameNumber);
        pendingRequests := pendingRequests[frameNumber := pendingRequests[frameNumber].(pendingBuffers := [])];
        RemovePendingRequestLocked(frameNumber);
      } else {
        SetError(UnknownShutterFrame);
      }
    }

    method NotifyError(errorCode: int, frameNumber: uint32)
      modifies this`pendingRequests, this`out
      ensures Model() == InFlightTable.NotifyError(old(Model()), errorCode, frameNumber)
    {
      if errorCode == ERROR_DEVICE {
        SetError(SeriousError);
      } else if errorCode == ERROR_REQUEST || errorCode == ERROR_RESULT || errorCode == ERROR_BUFFER {
        if frameNumber in pendingRequests {
          pendingRequests := pendingRequests[frameNumber := pendingRequests[frameNumber].(status := errorCode)];
        }
        if !flushOnGoing {
          out := out + [ErrorCallback(errorCode, frameNumber)];
        }
      } else {
        SetError(UnknownError);
      }
    }
  }

  /** An accepted result sets its entry anew, whatever the entry was. */
  lemma AcceptOverwrites(t: Table, x: Pending, r: Pending, res: HalResult)
    ensures AcceptResult(t.Put(res.frame, x), r, res) == AcceptResult(t, r, res)
  {
    hide InFlightTable.SendCaptureResult, InFlightTable.ReturnOutputBuffers, RemovePendingRequest, NoteFinal;
    var r1 := NoteFinal(t.config, r, res);
    assert t.Put(res.frame, x).Put(res.frame, r1) == t.Put(res.frame, r1);
  }

  lemma AnyFailedSnoc(buffers: seq<Buffer>, b: Buffer)
    ensures AnyFailed(buffers + [b]) <==> AnyFailed(buffers) || !b.ok
    ensures AnyFailed([b]) <==> !b.ok
  {
    assert forall x :: x in buffers + [b] <==> x in buffers || x == b;
    assert b in buffers + [b] && b in [b];
  }

  lemma DeliveriesSnoc(buffers: seq<Buffer>, b: Buffer, timestamp: int, f: uint32, flushing: bool)
    ensures Deliveries(buffers + [b], timestamp, f, flushing)
            == Deliveries(buffers, timestamp, f, flushing) + Delivery(b, timestamp, f, flushing)
  {
    assert (buffers + [b])[..|buffers|] == buffers;
  }

  /** What returning one more buffer adds. */
  lemma ReturnSnoc(t: Table, buffers: seq<Buffer>, b: Buffer, timestamp: int, f: uint32)
    ensures var t1 := InFlightTable.ReturnOutputBuffers(t, buffers, timestamp, f);
            InFlightTable.ReturnOutputBuffers(t, buffers + [b], timestamp, f)
            == t1.(out := t1.out + Delivery(b, timestamp, f, t.flushing),
                   pending := if !b.ok && !t.flushing && f in t.pending
                              then t1.pending[f := t1.pending[f].(status := ERROR_BUFFER)] else t1.pending)
  {
    AnyFailedSnoc(buffers, b);
    DeliveriesSnoc(buffers, b, timestamp, f, t.flushing);
    hide AnyFailed, Deliveries, Delivery;
    var d, e := Deliveries(buffers, timestamp, f, t.flushing), Delivery(b, timestamp, f, t.flushing);
    assert t.out + (d + e) == t.out + d + e;
  }
}
