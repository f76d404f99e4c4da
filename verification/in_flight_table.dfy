/** The table of in-flight requests of the device client: what each HAL event
    (shutter, capture result, error) does to the entry of its frame, and what it hands
    out to the client. One function per lock-held body; `Step` runs one event. */
module InFlightTable {
  import opened Wrappers

  datatype Tag = SensorTimestamp | RequestFrameCount | RequestId | OtherTag(id: int)

  /** A `CameraMetadata`; empty when it has no entry. */
  type Metadata = map<Tag, int>

  datatype Buffer = Buffer(streamId: int, bufferId: int, ok: bool)

  datatype Pending = Pending(
    shutterTS: int, sensorTS: int, status: int, isMetaPresent: bool, buffersRemaining: int,
    pendingMetadata: Metadata, pendingBuffers: seq<Buffer>, composedResult: Metadata,
    requestId: int, partialResultCount: int)

  /** The payload read from the result metadata queue, when one is announced. */
  datatype Fmq = NoFmq | FmqReadFails | FmqPayload(payload: Metadata)

  datatype HalResult = HalResult(
    frame: uint32, inline: Option<Metadata>, fmq: Fmq, partialResult: nat,
    outputBuffers: seq<Buffer>, inputBuffer: bool)

  /** Why the device was put into its error state. */
  datatype Cause =
    | InvalidPartialResult | MetadataQueueFailed | UnknownFrame | PartialOutOfRange
    | RepeatedMetadata | TooManyBuffers | ShutterOutOfOrder | ResultOutOfOrder
    | NoTimestamp | TimestampMismatch | UnknownShutterFrame | SeriousError | UnknownError

  /** What leaves the table: callbacks to the client, buffers, device errors. */
  datatype Output =
    | FinalResult(frame: uint32, requestId: int, partialResultCount: int, metadata: Metadata)
    | PartialResult(frame: uint32, metadata: Metadata)
    | BufferToClient(frame: uint32, buffer: Buffer, timestamp: int)
    | ShutterCallback(frame: uint32, timestamp: int)
    | ErrorCallback(code: int, frame: uint32)
    | DeviceError(cause: Cause)

  /** `partialCount` is the HAL's partial result count; partial results are supported
      when it exceeds 1. `resultCb` says whether the client set a result callback. */
  datatype Config = Config(partialCount: nat, resultCb: bool) {
    predicate PartialSupported() { partialCount > 1 }
  }

  datatype Table = Table(
    config: Config, pending: map<uint32, Pending>, errored: set<uint32>,
    nextShutter: uint32, nextResult: uint32, flushing: bool, out: seq<Output>)
  {
    function Emit(o: Output): Table { this.(out := out + [o]) }

    function Fail(cause: Cause): Table { Emit(DeviceError(cause)) }

    function Put(f: uint32, r: Pending): Table { this.(pending := pending[f := r]) }
  }

  const ERROR_DEVICE := 1
  const ERROR_REQUEST := 2
  const ERROR_RESULT := 3
  const ERROR_BUFFER := 4

  function EmptyTable(config: Config): Table {
    Table(config, map[], {}, 0, 0, false, [])
  }

  /** A frame number stored in an `int32_t` metadata entry. */
  function AsInt32(f: uint32): int {
    if f < 0x8000_0000 then f else f - TWO_TO_THE_32
  }

  /** Entries of `other` are added to those of `base`; an entry both have keeps its value. */
  function Append(base: Metadata, other: Metadata): Metadata { other + base }

  /** The metadata of a final result callback. */
  function Composed(config: Config, f: uint32, metadata: Metadata, collected: Metadata): Metadata {
    var stamped := metadata[RequestFrameCount := AsInt32(f)];
    if config.PartialSupported() && collected != map[] then Append(stamped, collected) else stamped
  }

  function Register(t: Table, f: uint32, numBuffers: int, requestId: int): Table {
    if f in t.pending then t
    else t.Put(f, Pending(0, 0, 0, false, numBuffers, map[], [], map[], requestId, 0))
  }

  function SendCaptureResult(t: Table, metadata: Metadata, r: Pending, collected: Metadata, f: uint32): Table {
    if metadata == map[] || !t.config.resultCb then t
    else if f < t.nextResult then t.Fail(ResultOutOfOrder)
    else
      var t1 := t.(nextResult := Wrap32(f + 1));
      var full := Composed(t.config, f, metadata, collected);
      if SensorTimestamp !in full then t1.Fail(NoTimestamp)
      else t1.Emit(FinalResult(f, r.requestId, r.partialResultCount, full))
  }

  /** The outputs for handing one buffer to its stream. */
  function Delivery(b: Buffer, timestamp: int, f: uint32, flushing: bool): seq<Output> {
    if !b.ok && !flushing then [BufferToClient(f, b, timestamp), ErrorCallback(ERROR_BUFFER, f)]
    else [BufferToClient(f, b, timestamp)]
  }

  function Deliveries(buffers: seq<Buffer>, timestamp: int, f: uint32, flushing: bool): seq<Output> {
    if buffers == [] then []
    else Deliveries(buffers[..|buffers| - 1], timestamp, f, flushing)
         + Delivery(buffers[|buffers| - 1], timestamp, f, flushing)
  }

  predicate AnyFailed(buffers: seq<Buffer>) { exists b :: b in buffers && !b.ok }

  function ReturnOutputBuffers(t: Table, buffers: seq<Buffer>, timestamp: int, f: uint32): Table {
    var t1 := t.(out := t.out + Deliveries(buffers, timestamp, f, t.flushing));
    if AnyFailed(buffers) && !t.flushing && f in t.pending
    then t1.Put(f, t.pending[f].(status := ERROR_BUFFER))
    else t1
  }

  predicate Complete(r: Pending) {
    r.buffersRemaining == 0 && (r.status != 0 || (r.isMetaPresent && r.shutterTS != 0))
  }

  function RemovePendingRequest(t: Table, f: uint32): Table
    requires f in t.pending
  {
    var r := t.pending[f];
    if !Complete(r) then t
    else
      var t1 := if r.status == 0 && r.sensorTS != r.shutterTS then t.Fail(TimestampMismatch) else t;
      var t2 := ReturnOutputBuffers(t1, r.pendingBuffers, 0, f);
      var r2 := t2.pending[f];
      t2.(pending := t2.pending - {f},
          errored := if r2.status != 0 && (!r2.isMetaPresent || r2.shutterTS == 0)
                     then t2.errored + {f} else t2.errored)
  }

  /** Whether the result passes the checks made before the table is locked. */
  predicate Readable(config: Config, res: HalResult) {
    && (res.inline.Some? || res.outputBuffers != [])
    && (config.PartialSupported() || res.inline.None? || res.partialResult == 1)
    && !res.fmq.FmqReadFails?
  }

  predicate IsPartial(config: Config, res: HalResult) {
    config.PartialSupported() && res.inline.Some? && res.partialResult < config.partialCount
  }

  predicate IsFinal(config: Config, res: HalResult) {
    res.inline.Some? && !IsPartial(config, res)
  }

  predicate PartialInRange(config: Config, res: HalResult) {
    config.PartialSupported() && res.inline.Some? ==> 1 <= res.partialResult <= config.partialCount
  }

  function FinalPayload(res: HalResult): Metadata {
    if res.fmq.FmqPayload? then res.fmq.payload else map[]
  }

  function BuffersIn(res: HalResult): nat {
    |res.outputBuffers| + if res.inputBuffer then 1 else 0
  }

  /** A result whose buffers the table accounts for: every other one leaves by an error exit. */
  predicate Accepts(t: Table, res: HalResult) {
    && Readable(t.config, res)
    && res.frame in t.pending
    && PartialInRange(t.config, res)
    && !(IsFinal(t.config, res) && t.pending[res.frame].isMetaPresent)
    && BuffersIn(res) <= t.pending[res.frame].buffersRemaining
  }

  /** The entry after the metadata of a partial result is noted. */
  function NotePartial(config: Config, r: Pending, res: HalResult): Pending {
    if IsPartial(config, res) then r.(composedResult := res.inline.value) else r
  }

  function PartialCallback(t: Table, r: Pending, res: HalResult): Table {
    if IsPartial(t.config, res) && t.config.resultCb
    then t.Emit(PartialResult(res.frame,
                              r.composedResult[RequestFrameCount := AsInt32(res.frame)][RequestId := r.requestId]))
    else t
  }

  /** The partial metadata a final result takes over from the entry. */
  function Collected(config: Config, r: Pending, res: HalResult): Metadata {
    if IsFinal(config, res) && config.PartialSupported() then r.composedResult else map[]
  }

  /** The entry once the final metadata, the buffers and the sensor time of an accepted
      result are recorded. */
  function NoteFinal(config: Config, r: Pending, res: HalResult): Pending {
    var final := IsFinal(config, res);
    var waiting := r.shutterTS == 0;
    r.(isMetaPresent := r.isMetaPresent || final,
       buffersRemaining := r.buffersRemaining - BuffersIn(res),
       sensorTS := if res.inline.Some? && SensorTimestamp in res.inline.value
                   then res.inline.value[SensorTimestamp] else r.sensorTS,
       pendingBuffers := if waiting then r.pendingBuffers + res.outputBuffers else r.pendingBuffers,
       pendingMetadata := if final && waiting then FinalPayload(res) else r.pendingMetadata,
       composedResult := if final && waiting then Collected(config, r, res)
                         else if final && config.PartialSupported() then map[]
                         else r.composedResult)
  }

  /** An accepted result up to the removal of its entry: recorded, metadata sent if the
      shutter came, buffers returned if it did. `r` is the entry with the partial metadata noted. */
  function Recorded(t: Table, r: Pending, res: HalResult): Table {
    var f := res.frame;
    var r1 := NoteFinal(t.config, r, res);
    var t1 := t.Put(f, r1);
    var t2 := if IsFinal(t.config, res) && r.shutterTS != 0
              then SendCaptureResult(t1, FinalPayload(res), r1, Collected(t.config, r, res), f) else t1;
    if r.shutterTS > 0 then ReturnOutputBuffers(t2, res.outputBuffers, r.shutterTS, f) else t2
  }

  function AcceptResult(t: Table, r: Pending, res: HalResult): Table {
    RemovePendingRequest(Recorded(t, r, res), res.frame)
  }

  /** A result from its final metadata on: repeated metadata and over-returned buffers are
      refused, anything else is accepted. */
  function Settle(t: Table, r: Pending, res: HalResult): Table {
    var f, final := res.frame, IsFinal(t.config, res);
    if final && r.isMetaPresent then t.Fail(RepeatedMetadata)
    else if BuffersIn(res) > r.buffersRemaining then
      t.Put(f, r.(isMetaPresent := r.isMetaPresent || final,
                  buffersRemaining := r.buffersRemaining - BuffersIn(res),
                  composedResult := if final && t.config.PartialSupported() then map[]
                      else r.composedResult)).Fail(TooManyBuffers)
    else AcceptResult(t, r, res)
  }

  function HandleCaptureResult(t: Table, res: HalResult): Table {
    var f := res.frame;
    if res.inline.None? && res.outputBuffers == [] then t
    else if !t.config.PartialSupported() && res.inline.Some? && res.partialResult != 1 then
      t.Fail(InvalidPartialResult)
    else if res.fmq.FmqReadFails? then t.Fail(MetadataQueueFailed)
    else if f !in t.pending then
      if f in t.errored then t.(errored := t.errored - {f}) else t.Fail(UnknownFrame)
    else
      var r0 := t.pending[f].(partialResultCount := if res.partialResult != 0 then res.partialResult
                                                    else t.pending[f].partialResultCount);
      if !PartialInRange(t.config, res) then t.Put(f, r0).Fail(PartialOutOfRange)
      else
        var r1 := NotePartial(t.config, r0, res);
        var t1 := PartialCallback(t.Put(f, r1), r1, res);
        Settle(t1, r1, res)
  }

  /** A shutter in order, up to the removal of its entry: what was held back is sent. */
  function ShutterTaken(t: Table, f: uint32, timestamp: int): (t': Table)
    requires f in t.pending
    ensures f in t'.pending
  {
    var r := t.pending[f].(shutterTS := timestamp);
    var t1 := t.Emit(ShutterCallback(f, timestamp)).(nextShutter := Wrap32(f + 1)).Put(f, r);
    var t2 := SendCaptureResult(t1, r.pendingMetadata, r, r.composedResult, f);
    var t3 := ReturnOutputBuffers(t2, r.pendingBuffers, timestamp, f);
    t3.Put(f, t3.pending[f].(pendingBuffers := []))
  }

  function NotifyShutter(t: Table, f: uint32, timestamp: int): Table {
    if f !in t.pending then t.Fail(UnknownShutterFrame)
    else if f < t.nextShutter then t.Emit(ShutterCallback(f, timestamp)).Fail(ShutterOutOfOrder)
    else RemovePendingRequest(ShutterTaken(t, f, timestamp), f)
  }

  function NotifyError(t: Table, code: int, f: uint32): Table {
    if code == ERROR_DEVICE then t.Fail(SeriousError)
    else if code == ERROR_REQUEST || code == ERROR_RESULT || code == ERROR_BUFFER then
      var t1 := if f in t.pending then t.Put(f, t.pending[f].(status := code)) else t;
      if t.flushing then t1 else t1.Emit(ErrorCallback(code, f))
    else t.Fail(UnknownError)
  }

  datatype Event =
    | Registered(frame: uint32, numBuffers: int, requestId: int)
    | ResultArrived(result: HalResult)
    | ShutterArrived(frame: uint32, timestamp: int)
    | ErrorArrived(code: int, frame: uint32)
    | FlushSet(on: bool)
    | Drained

  function Step(t: Table, e: Event): Table {
    match e
    case Registered(f, n, id) => Register(t, f, n, id)
    case ResultArrived(res) => HandleCaptureResult(t, res)
    case ShutterArrived(f, ts) => NotifyShutter(t, f, ts)
    case ErrorArrived(code, f) => NotifyError(t, code, f)
    case FlushSet(on) => t.(flushing := on)
    case Drained => t.(errored := {})
  }

  /** The table after the events of a run, oldest first. */
  function Run(t: Table, events: seq<Event>): Table {
    if events == [] then t else Step(Run(t, events[..|events| - 1]), events[|events| - 1])
  }

  lemma RunSnoc(t: Table, events: seq<Event>, e: Event)
    ensures Run(t, events + [e]) == Step(Run(t, events), e)
  {
    assert (events + [e])[..|events|] == events;
  }
}
