# Verified model of the camera adaptor

This project models, in Dafny, the concurrent engine that sits between the client interface and
the camera HAL in `umd-daemon/camera/adaptor`, and three self-contained algorithms of the same
repository, and proves properties of all their runs.

How the models are built:

- A **state** datatype holds the fields of a component. One function per lock-held body computes
  the next state and what leaves the component (callbacks, buffers, monitor transitions,
  reported frame numbers). `Step` runs one event, `Run` a sequence of them. Threads interleave
  freely between lock-held bodies, so a property proved over all runs holds for every schedule.
- Some fields are **history** only (what was enqueued, issued, delivered, allocated); they are
  named as such where they are declared and influence nothing.
- A **class** per component has the source's fields, loops and early exits; each of its methods
  is proved to make exactly the step of the same name.
- What the other parties must respect is a predicate on single events (`Fair`, `Orderly`,
  `Careful`, `Calm`, `FairEvent`), each described where it is defined. Where the code breaks a promise, a
  lemma gives a concrete run that breaks it, and another one says, for all runs or states, on
  exactly which condition the promise is kept.
- The HAL, the allocator, the client, `pcm_read` and the clock are parameters of the events. A
  timed wait may end either way.

| module | file | component |
|---|---|---|
| Wrappers | `wrappers.dfy` | option type, 32-bit arithmetic |
| InFlightTable | `in_flight_table.dfy` | the device client's table of in-flight requests |
| InFlightConservation, InFlightOrder | `in_flight_conservation.dfy`, `in_flight_order.dfy` | where buffers go; the order of results |
| TableNotices | `table_notices.dfy` | the table's other callbacks and its errors |
| DeviceClient | `device_client.dfy` | the device client as a class |
| StreamPool, CameraStream | `stream_pool.dfy`, `stream.dfy` | a stream's status machine and buffer pool; as a class |
| PoolSummary | `pool_summary.dfy` | a stream told by numbers, refined by its pool |
| BufferFlow | `buffer_flow.dfy` | the worker, the in-flight table and the streams together: every buffer from the pool to the client and back |
| RequestScheduler, CameraRequestHandler | `request_handler.dfy`, `camera_request_handler.dfy` | the request handler and its frame numbers; as a class |
| Bursts | `bursts.dfy` | which requests are enqueued |
| RepeatingSet, DeltaSettings, RequestSubmission | `repeating_set.dfy`, `delta_settings.dfy`, `request_submission.dfy` | reported last frames; settings sent as differences; buffers of a failed submission |
| Monitor, IdleTracking | `monitor.dfy`, `idle.dfy` | the idle monitor; monitor, handler and streams together |
| StateWaiting | `state_waiter.dfy` | waiting for a device state |
| PrepareWorker | `prepare_handler.dfy` | the prepare worker |
| ThreadLife | `thread_helper.dfy` | the helper thread's life cycle |
| TileLayout | `tile_layout.dfy` | the tiles of a video composition |
| AudioPool, AudioStreaming | `audio_stream.dfy` | the audio buffer pool; as a class |
| VendorTags | `vendor_tags.dfy` | the vendor tag index |

What turned out false of the code, each with a run that shows it and the exact condition:

| false | a run | exactly when |
|---|---|---|
| A frame's buffers are never lost | `UnreadQueueLosesABuffer`, `NegativeShutterLosesABuffer` | `ResultDropsNothingExactly`: a result's buffers are kept exactly if there are none, or the result leaves by no error exit and the shutter time is not negative; `BuffersLostExactly`: over all runs |
| A frame whose shutter and final metadata both come gets its callback | `FailedBufferLosesCallback` | `ResultsInFrameOrder`: both came before the entry was removed, which an error message or a failed buffer outside a flush allows as soon as all buffers are back, and the payload or the newest partial metadata has a timestamp |
| The HAL has the settings of every frame it accepts | `SkipLosesSettings` | `SkipKeepsFramesRightExactly`: the skipped request carried none, or ones the HAL has anyway, or the HAL was being configured, or another submission or a configuration comes before the next frame |
| A request id has one settings value | `RacingCallersShareAnId`, `RaceSetsIdsBack` | `IdsNewExactly`: the id read is not below the highest given; `IdsSingleExactly`: ids given again get the settings they have |
| A failed submission gives back what it took | `SecondStreamFailingLosesABuffer` | `FailureReturnsAllExactly`: the first stream does not give or all do; `LostBuffersStayOut`: what is lost stays lost while no one else returns it |
| A monitor with nothing left to do is right | `AbortedStreamGoesUnseen`, `ShortcutStreamGoesUnseen` | `IdleExactly`: over all fair runs ACTIVE is never wrong, and IDLE is wrong exactly if the handler is paused, buffers are out and no such stream told its present monitor; `HidesExactly`, `OrphansExactly`: which calls bring that about |
| The last frame number reported for a list is its last request's | `DroppedRequestLosesItsNumber` | `StepNumbered`: requests are dropped only by a flush without an error callback; `ReportForetells`: the counter does not wrap on the way; `FlushReportIsIssued` for a flushed set |
| A prepare accepted after a clear is carried out | `StaleAbortEndsLaterPrepare` | `LaterPrepareAbortedExactly`: it is aborted exactly if the worker did not stop and no turn consumed the flag before it is taken, and one turn is not enough for it |
| A stream in preparation has a worker | `StartFailureExactly`: any accepted prepare whose worker cannot be started | the same: the worker runs or can be started |
| A caller waiting for a thread to end goes on when it has | `LostIdleSticksCaller` | `StuckExactly`: unless its idle state was overwritten |
| A listener whose state came returns success | `TimeoutHidesUpdate` | `TimeoutHidesExactly`: unless it times out after the update and before it next wakes up |

## Model

| member | source | states |
|---|---|---|
| InFlightConservation.BuffersConserved | umd-daemon/camera/adaptor/camera_device_client.cc:1169-1211 | Over every run of events in any order, for every frame: handed out + held back + still owed is the count it was registered with; a frame leaves the table only with all its buffers handed out, once each and in order, stamped with its shutter time, or with 0 only if the HAL reported an error for it |
| InFlightConservation.StepOk | umd-daemon/camera/adaptor/camera_device_client.cc:933-944 | Every event, of this frame or another, from any table in which the account of a frame is right, leaves it right: registration, result, shutter, error message, flush |
| InFlightConservation.ResultDropsNothingExactly | umd-daemon/camera/adaptor/camera_device_client.cc:1069-1236 | From any table, through every exit: what the client has plus what is held back grows by exactly the result's buffers if and only if there are none, or the result is accepted and the frame's shutter time is not negative |
| InFlightConservation.BuffersLostExactly | umd-daemon/camera/adaptor/camera_device_client.cc:1069-1336 | Over every run at all: a frame got no buffer the HAL did not return for it, and got all of them exactly if every result of it was one the table keeps; no other event changes what it got |
| InFlightConservation.UnreadQueueLosesABuffer | umd-daemon/camera/adaptor/camera_device_client.cc:1095-1098 | A run through an error exit: the returned buffer is neither delivered nor held back, and the frame waits for it in vain |
| InFlightConservation.ResultKeepsAccountExactly | umd-daemon/camera/adaptor/camera_device_client.cc:1169-1211 | From any table, exactly which results break the account handed out + held back + still owed: over-returned ones, an input buffer, or buffers after a negative shutter time; buffers dropped by an error exit stay owed |
| InFlightConservation.ShutterKeepsAccount | umd-daemon/camera/adaptor/camera_device_client.cc:1286-1336 | A shutter, in order or not, keeps that account whatever its time |
| InFlightConservation.NegativeShutterLosesABuffer | umd-daemon/camera/adaptor/camera_device_client.cc:1187-1209 | A run in which a buffer returned after a shutter at time -5 is neither held nor delivered |
| InFlightOrder.ResultsInFrameOrder | umd-daemon/camera/adaptor/camera_device_client.cc:1338-1391 | If the HAL sends shutters in frame order and final metadata in frame order, however they interleave with each other, with buffers, failed ones too, with flushes and with error messages: final callbacks come in increasing frame order and no order error is raised; a frame has one callback for each partial metadata, in order, and then a final one exactly when both parts came before its entry was removed and there is a timestamp; tag by tag they carry what the HAL sent and the frame, the partial ones the request id of the registration, the final one that id and the last partial result number other than 0 beside the metadata; the entry goes when everything came or, once there was an error for it, when all its buffers came |
| InFlightOrder.StepJoins | umd-daemon/camera/adaptor/camera_device_client.cc:1286-1391 | Every event of such a HAL, late parts of a removed frame included, keeps the agreement between what it sent, what the table holds and what was called back |
| InFlightOrder.FailedBufferLosesCallback | umd-daemon/camera/adaptor/camera_device_client.cc:1404-1405 | A run in which a failed buffer ends a frame before its metadata, which then makes no callback |
| TableNotices.NoticesExactly | umd-daemon/camera/adaptor/camera_device_client.cc:1069-1336 | From any table, however disorderly the HAL, every event makes exactly these other callbacks, in this order: the shutter, one error message for each failed buffer or for an error of the frame outside a flush, and the device errors, each for its reason and for no other; and exactly the frames removed with an error before a part of theirs came are remembered |
| TableNotices.FinalsInOrder | umd-daemon/camera/adaptor/camera_device_client.cc:1338-1391 | Over every run, however disorderly the HAL, final callbacks come in strictly increasing frame order |
| DeviceClient.Camera3DeviceClient.HandleCaptureResult | umd-daemon/camera/adaptor/camera_device_client.cc:1069-1236 | One capture result takes the table to the step that the run properties are about, on every error exit too |
| DeviceClient.Camera3DeviceClient.ReturnOutputBuffers | umd-daemon/camera/adaptor/camera_device_client.cc:1393-1415 | The loop hands over each buffer in order and marks the frame when one failed |
| DeviceClient.Camera3DeviceClient.RemovePendingRequestLocked | umd-daemon/camera/adaptor/camera_device_client.cc:1463-1491 | Removes a finished frame, returns what it held back, and remembers it if it ended in error |
| DeviceClient.Camera3DeviceClient.NotifyShutter | umd-daemon/camera/adaptor/camera_device_client.cc:1286-1336 | One shutter takes the table to its step |
| StreamPool.PoolInvariant | umd-daemon/camera/adaptor/camera_stream.cc:679-896 | Over every run in which the stream is not reconfigured or closed while a caller waits for a buffer, in every status but the two before configuration: the slots in use are distinct and exactly the keys of the pool, no more are pending than busy; handles allocated and not freed are exactly the pool's keys and none is freed twice; HAL count + client count = pending modulo 2^32, on error paths too |
| StreamPool.StepPoolOk | umd-daemon/camera/adaptor/camera_stream.cc:102-344 | Every call, from any state of the pool invariant, keeps it: configure, abort, prepare, take, hand over, return, close and tear down, successful or refused |
| StreamPool.BusyFits | umd-daemon/camera/adaptor/camera_stream.cc:754-787 | Where this holds, pending <= busy <= allocated <= total |
| StreamPool.FlightInvariant | umd-daemon/camera/adaptor/camera_stream.cc:734-816 | With unique frames and single returns: frames whose buffer is out have pairwise distinct handles, those the frame map gives, they are exactly the busy ones, and pending = busy |
| StreamPool.ChosenIsHanded | umd-daemon/camera/adaptor/camera_stream.cc:615-653 | Each single call either gives a frame's buffer back or keeps it out and the same, exactly as the call says |
| StreamPool.TakenIsHanded | umd-daemon/camera/adaptor/camera_stream.cc:615-653 | Over every run from the call that takes a buffer for a frame, at once or after a wait, to the one that hands it to the client, unless it is given back between: the handle handed over is the one taken |
| StreamPool.PrepareEndsExactly | umd-daemon/camera/adaptor/camera_stream.cc:288-344 | A prepare ends by itself exactly when it began with nothing allocated and a total above 0; it then took one call per buffer and all are free; otherwise the call after the pool is full fails and the prepare stays active |
| PoolSummary.CallExactly | umd-daemon/camera/adaptor/camera_stream.cc:102-408 | For every call of an orderly stream: what it answers and what becomes of status, counts, counters and settings is what a machine without handles, slots and maps does, in each of the six statuses |
| PoolSummary.SummaryExactly | umd-daemon/camera/adaptor/camera_stream.cc:102-896 | So over every orderly run the pool, told in numbers, is that machine |
| PoolSummary.StrayReturn | umd-daemon/camera/adaptor/camera_stream.cc:679-707 | A handle that is not out frees nothing; it is refused if it is not the pool's or nothing is out, and else still counts as a return |
| CameraStream.Camera3Stream.EndConfigure | umd-daemon/camera/adaptor/camera_stream.cc:158-212 | A new monitor, then the shortcut for an unchanged stream or a new pool |
| CameraStream.Camera3Stream.PrepareBuffer | umd-daemon/camera/adaptor/camera_stream.cc:288-321 | One more free buffer, the error, or the end of the prepare |
| CameraStream.Camera3Stream.TearDown | umd-daemon/camera/adaptor/camera_stream.cc:366-408 | Frees every buffer once and empties the slots |
| CameraStream.Camera3Stream.GetBufferLocked | umd-daemon/camera/adaptor/camera_stream.cc:718-821 | In every status: a free buffer if there is one, else a new one while there is room; booked for the frame, ACTIVE posted at the first one; otherwise the three refusals |
| CameraStream.Camera3Stream.ChooseBuffer | umd-daemon/camera/adaptor/camera_stream.cc:734-793 | The two search loops find a free buffer and its slot, or allocate into the next slot |
| CameraStream.Camera3Stream.ConfigureLocked | umd-daemon/camera/adaptor/camera_stream.cc:823-864 | The pool starts over with the larger of the two counts |
| CameraStream.Camera3Stream.CloseLocked | umd-daemon/camera/adaptor/camera_stream.cc:866-896 | Refused with buffers pending; otherwise every buffer is freed, and the allocated count is left as it was |
| BufferFlow.BuffersFlow | umd-daemon/camera/adaptor/camera_device_client.cc:1393-1415 | Over every run of the worker, the HAL, the client and whoever configures streams, if the HAL returns what it has and the client what it has: each call a stream sees is one the theorems about its pool allow, so every hand-over is for a frame whose buffer is out; the client gets each buffer at most once, with the handle taken for the frame; and nothing of a frame that left the table is at the HAL or held back |
| BufferFlow.SystemStepOk | umd-daemon/camera/adaptor/camera_request_handler.cc:344-432 | Every event keeps streams, table, loans and what the client got in agreement: taking a buffer at once or after a wait, failing on the way, sending, a refusal by the HAL, any HAL event, a return, a configuration |
| BufferFlow.HandAllOk | umd-daemon/camera/adaptor/camera_stream.cc:615-653 | A batch of buffers leaving the table: each hand-over meets its frame's buffer, a failed one goes back to the pool at once, and no other loan changes |
| BufferFlow.AskedExactly | umd-daemon/camera/adaptor/camera_stream.cc:415-445 | In every reachable state a worker that asks a stream with every buffer out waits with its request in hand; else it gets a free buffer, or if none is free a new one, and drops the request exactly if the stream is not configured or there is no free buffer and no room or no grant |
| BufferFlow.WokenExactly | umd-daemon/camera/adaptor/camera_stream.cc:425-445 | A worker woken up gets a buffer exactly if one is free or there is room and a grant, and else drops its request |
| BufferFlow.BackWakes | umd-daemon/camera/adaptor/camera_stream.cc:655-665 | After a buffer of the stream it waits for has come back, the worker gets one when it wakes up, whatever the allocator says |
| BufferFlow.HandedOrHeld | umd-daemon/camera/adaptor/camera_device_client.cc:1069-1336 | For every event and frame: what is handed out and what is then held back is exactly what was held back before and what the event brings |
| BufferFlow.ResultIsExpected | umd-daemon/camera/adaptor/camera_device_client.cc:1111-1173 | A frame registered with the number of its streams expects every result that returns buffers the HAL has: its entry is there and owes at least as many |
| BufferFlow.SentExactly | umd-daemon/camera/adaptor/camera_request_handler.cc:380-418 | A request with all its buffers goes to the table as expecting one buffer of each of its streams, with its request id, and its buffers to the HAL |
| BufferFlow.ResultIsHanded | umd-daemon/camera/adaptor/camera_device_client.cc:1204-1207 | In every reachable state a result that is kept after its frame's shutter hands over each of its buffers at once |
| BufferFlow.ShutterHandsHeld | umd-daemon/camera/adaptor/camera_device_client.cc:1286-1336 | And a shutter in order hands over every buffer held back for its frame |
| Bursts.EnqueuedExactly | umd-daemon/camera/adaptor/camera_request_handler.cc:497-562 | Over every run that drops nothing: the one-shot requests enqueued are the queued lists end to end; of each repeating set a whole number of bursts is enqueued, whose k-th request is number k modulo the length of its list; what is issued is the first part of what is enqueued |
| RequestScheduler.TakenExactly | umd-daemon/camera/adaptor/camera_request_handler.cc:497-562 | In every reachable state taking issues exactly the oldest request enqueued, or else the first of the repeating set, under the next number, if the worker has none and there is one |
| RequestScheduler.FramesExactly | umd-daemon/camera/adaptor/camera_request_handler.cc:344-432 | Over every run the frames the HAL accepted are the requests taken, in order, each under the number it was issued with |
| RequestScheduler.HalHasLastSent | umd-daemon/camera/adaptor/camera_request_handler.cc:344-432 | The settings an accepted frame finds are those sent last since the HAL was configured, its own included |
| RequestScheduler.PausesExactly | umd-daemon/camera/adaptor/camera_request_handler.cc:593-620 | The handler pauses at the check exactly if that was asked for and a whole number of batches was issued, at the end of a wait exactly with nothing to serve or when exiting, and resumes with a new list unless a pause is asked for |
| RequestScheduler.FrameNumbersDense | umd-daemon/camera/adaptor/camera_request_handler.cc:497-562 | Over every run the k-th request issued has number k modulo 2^32: dense, and shared only across a wrap |
| RequestScheduler.Prophecy | umd-daemon/camera/adaptor/camera_request_handler.cc:187-203 | In any later state of any run that drops nothing, the request now at index i of the queue is the one issued i places after the next, with the number i after the next, or still queued at that place |
| RequestScheduler.ReportForetells | umd-daemon/camera/adaptor/camera_request_handler.cc:107-123 | The last frame number reported for a list is the one foretold for its last request, exactly when the counter does not wrap on the way |
| RequestScheduler.StepNumbered | umd-daemon/camera/adaptor/camera_request_handler.cc:187-203 | No step renumbers or reorders; what was enqueued is kept, except exactly by a flush without an error callback of a queue that is not empty |
| RequestScheduler.DroppedRequestLosesItsNumber | umd-daemon/camera/adaptor/camera_request_handler.cc:191-198 | Without an error callback, the number reported for a flushed request goes to the next one |
| RepeatingSet.RepeatingLastFrame | umd-daemon/camera/adaptor/camera_request_handler.cc:158-203 | Over every run the value reported for a repeating set is the number of the last request enqueued of it, its tail in the queue included, and -1 exactly when none was ever issued |
| RepeatingSet.SetIsClosed | umd-daemon/camera/adaptor/camera_request_handler.cc:158-203 | Once replaced, cleared or flushed a set gets no further request, so that number is the largest |
| RepeatingSet.FlushReportIsIssued | umd-daemon/camera/adaptor/camera_request_handler.cc:187-203 | The number a flush reports was issued to the set exactly if there is an error callback or it had been issued before |
| DeltaSettings.DeltaRefinesFull | umd-daemon/camera/adaptor/camera_request_handler.cc:344-354 | Over every run in which ids given again get the settings they have, the HAL is configured with none in flight, and requests are skipped only where that is harmless: for every frame the HAL accepts, the last settings it got since it was configured are the frame's own; so the first frame after a configuration carries them |
| DeltaSettings.SkipKeepsFramesRightExactly | umd-daemon/camera/adaptor/camera_request_handler.cc:344-379 | Whatever happens between a skip and the next submission of that request id, other submissions and configurations with no request in hand included, the HAL then has its settings exactly if the skipped request carried none, the HAL had them anyway, a configuration will have them sent again, or there was a submission or configuration in between; as there may be none, every next frame is right exactly if the skip is harmless |
| DeltaSettings.SkipLosesSettings | umd-daemon/camera/adaptor/camera_request_handler.cc:344-379 | A repeating request skipped once is then accepted by a HAL that never got its settings |
| DeltaSettings.RacingCallersShareAnId | umd-daemon/camera/adaptor/camera_device_client.cc:1541-1545 | Two callers that read the request id before the lock get the same one; the second request goes out without its settings |
| DeltaSettings.RaceSetsIdsBack | umd-daemon/camera/adaptor/camera_device_client.cc:1541-1627 | Such a race can set the next id back, so that a caller racing with no one shares an id |
| DeltaSettings.IdsInvariant | umd-daemon/camera/adaptor/camera_device_client.cc:1541-1627 | Over every run, racing or not, the ids given are exactly those below the highest, and neither the next id nor any id read is above it |
| DeltaSettings.IdsNewExactly | umd-daemon/camera/adaptor/camera_device_client.cc:1541-1627 | The ids of a list are all new exactly when the id read is not below the highest given, which is the next id while no list has set it back; a list leaves the next id at the highest exactly when it does not end below it |
| DeltaSettings.IdsSingleExactly | umd-daemon/camera/adaptor/camera_device_client.cc:1622-1627 | Ids keep one settings value each exactly when every id given again is given the settings it has |
| DeltaSettings.ListedDelta | umd-daemon/camera/adaptor/camera_device_client.cc:1622-1627 | A list that gives no id other settings keeps what the run theorem needs |
| RequestSubmission.SubmitAccountsForBuffers | umd-daemon/camera/adaptor/camera_request_handler.cc:356-381 | After an accepted submission each stream holds a buffer for the frame; after a late failure what is out is what was out before; after an early one the buffers of the first streams stay out |
| RequestSubmission.FailureReturnsAllExactly | umd-daemon/camera/adaptor/camera_request_handler.cc:473-495 | By what can be told beforehand of each stream: a failed submission leaves out exactly what was out before, if and only if the first stream does not give a buffer or all do |
| RequestSubmission.TakesExactlyIfGives | umd-daemon/camera/adaptor/camera_stream.cc:410-447 | A stream gives a buffer exactly if it is configured, not all are out, and one is free or there is room for one the allocator grants; it waits in vain exactly if it is configured with all its buffers out |
| RequestSubmission.SecondStreamFailingLosesABuffer | umd-daemon/camera/adaptor/camera_request_handler.cc:363-381 | A request for two streams of which the second has no buffer leaves the first one's buffer out |
| RequestSubmission.LostBuffersStayOut | umd-daemon/camera/adaptor/camera_request_handler.cc:473-495 | Over every later run in which no one else gives it back, a buffer lost so stays out and pending |
| RequestSubmission.SubmitBuffers | umd-daemon/camera/adaptor/camera_request_handler.cc:356-381 | The two loops compute that submission |
| CameraRequestHandler.Camera3RequestHandler.QueueRequestList | umd-daemon/camera/adaptor/camera_request_handler.cc:107-123 | The loop appends the list; the number reported is the one its last request will get, exactly when the counter does not wrap on the way |
| CameraRequestHandler.Camera3RequestHandler.SetRepeatingRequests | umd-daemon/camera/adaptor/camera_request_handler.cc:158-173 | In every reachable state the number reported is that of the last request enqueued of the set that is replaced, and the new set starts with none |
| CameraRequestHandler.Camera3RequestHandler.ClearRepeatingRequests | umd-daemon/camera/adaptor/camera_request_handler.cc:175-185 | In every reachable state the number reported is that of the last request enqueued of the set that is dropped |
| CameraRequestHandler.Camera3RequestHandler.Clear | umd-daemon/camera/adaptor/camera_request_handler.cc:187-203 | The loop numbers and reports every queued request, or they are dropped; in every reachable state the number reported is that of the last request enqueued of the set |
| CameraRequestHandler.Camera3RequestHandler.GetRequest | umd-daemon/camera/adaptor/camera_request_handler.cc:497-584 | The head of the queue, or of a new burst whose rest is enqueued, gets the next number and becomes current |
| Monitor.BatchIndependent | umd-daemon/camera/adaptor/camera_monitor.cc:129-186 | For a fixed set of monitors, the state and the notifications after a pass do not depend on how earlier passes split the queue: they are the stutter-free composites after each transition |
| Monitor.NotificationsAlternate | umd-daemon/camera/adaptor/camera_monitor.cc:50-108 | With monitors coming and going in any interleaving: notifications alternate starting with ACTIVE, the last is the composite state, and with nothing flagged the composite is that of the monitors |
| Monitor.Camera3Monitor.BuildCompositeState | umd-daemon/camera/adaptor/camera_monitor.cc:120-127 | ACTIVE exactly when some monitor is |
| Monitor.Camera3Monitor.ThreadLoop | umd-daemon/camera/adaptor/camera_monitor.cc:129-186 | The loops over the queue and over the changes make one pass |
| IdleTracking.IdleExactly | umd-daemon/camera/adaptor/camera_monitor.cc:129-186 | Over every run in which only the pool's hypotheses are kept: a monitor with nothing left to do says ACTIVE exactly when the handler is not paused or some stream with buffers out told its present monitor ACTIVE; so ACTIVE is never wrong, and IDLE is wrong exactly when the handler is paused, buffers are out, and no stream with buffers out told its present monitor |
| IdleTracking.IdleSound | umd-daemon/camera/adaptor/camera_monitor.cc:129-186 | Over every run of handler, streams and monitor in which no stream is reconfigured with buffers out and no reconfiguration is aborted: a monitor with nothing left to do says ACTIVE exactly when the handler is not paused or some stream has a buffer out |
| IdleTracking.CallTold | umd-daemon/camera/adaptor/camera_stream.cc:709-713 | Whatever a call does to a stream, its present monitor ends up with what the stream told it last |
| IdleTracking.HandlerTold | umd-daemon/camera/adaptor/camera_request_handler.cc:564-569 | Every event of the handler tells the monitor exactly what happens to its activity |
| IdleTracking.HidesExactly | umd-daemon/camera/adaptor/camera_stream.cc:125-128 | A call hides a stream's buffers from the monitor exactly when it begins a reconfiguration with buffers out or gives out the first buffer of a stream without a monitor |
| IdleTracking.OrphansExactly | umd-daemon/camera/adaptor/camera_stream.cc:236-243 | A call leaves a stream configured without a monitor exactly when it aborts a reconfiguration |
| IdleTracking.AbortedStreamGoesUnseen | umd-daemon/camera/adaptor/camera_stream.cc:236-243 | A run after an abort in which the monitor, with nothing left to do, says IDLE while a buffer is out |
| IdleTracking.ShortcutStreamGoesUnseen | umd-daemon/camera/adaptor/camera_stream.cc:187-194 | A run through the shortcut for an unchanged stream with a buffer out, at the end of which the monitor, with nothing left to do, says IDLE |
| StateWaiting.NoUpdateMissed | umd-daemon/camera/adaptor/camera_device_client.cc:1998-2033 | For any number of overlapping listeners, each one's part of the log is exactly the updates since it began |
| StateWaiting.WakeSeesEveryUpdate | umd-daemon/camera/adaptor/camera_device_client.cc:2013-2028 | A listener that wakes returns 0 exactly when some update since it began was to the state wanted, even if it changed back; otherwise it waits on and the state is not the wanted one |
| StateWaiting.BeganExactly | umd-daemon/camera/adaptor/camera_device_client.cc:1998-2016 | In every reachable state a caller that begins to wait gets 0 at once exactly if the device runs, or for the other kind of wait does not run, and else waits |
| StateWaiting.WokenExactly | umd-daemon/camera/adaptor/camera_device_client.cc:2013-2028 | Told by the events alone: a caller that wakes up gets 0 exactly if the state it waits for held after some event since it began |
| StateWaiting.SuccessMeansHeld | umd-daemon/camera/adaptor/camera_device_client.cc:1998-2033 | Over every run any wait that answers 0 was for a state that held at some moment between its begin and its return |
| StateWaiting.TimeoutHidesExactly | umd-daemon/camera/adaptor/camera_device_client.cc:2013-2031 | Over every run, a listener that times out reports failure although its state held meanwhile exactly when some update since it last woke up was to that state |
| StateWaiting.TimeoutHidesUpdate | umd-daemon/camera/adaptor/camera_device_client.cc:2018-2021 | Such a run, where a wake-up would have returned 0 |
| StateWaiting.StateListeners.BeginWait | umd-daemon/camera/adaptor/camera_device_client.cc:2002-2016 | The log is cleared only when nobody listens |
| StateWaiting.StateListeners.WakeUp | umd-daemon/camera/adaptor/camera_device_client.cc:2013-2031 | The loop looks at every update from the listener's start on |
| PrepareWorker.PrepareInvariant | umd-daemon/camera/adaptor/camera_prepare_handler.cc:50-158 | If the worker can always be started, the streams being prepared are exactly those queued and the one in progress, each once, whatever others do to the streams meanwhile |
| PrepareWorker.PreparesAccounted | umd-daemon/camera/adaptor/camera_prepare_handler.cc:50-158 | Over every run each accepted prepare is at one stage, waiting, in hand, called back, dropped by a clear or ended by the flag; the queue is those waiting, the callbacks those called back, each with its own stream and in the order of acceptance, which is the order of taking |
| PrepareWorker.TurnsExactly | umd-daemon/camera/adaptor/camera_prepare_handler.cc:110-158 | A turn goes on to allocate exactly if the worker then has a stream, and comes back for another exactly if that stream still has to be prepared |
| PrepareWorker.LaterPrepareAbortedExactly | umd-daemon/camera/adaptor/camera_prepare_handler.cc:50-131 | Through every run after a clear: a prepare accepted later is aborted by the flag it raised, in its second turn and without a callback, exactly when no turn and no start of the worker lowered the flag before, the worker still ran at that prepare, nothing lowered it until the worker takes the stream, and one turn is not enough |
| PrepareWorker.TakenIsAbortedExactly | umd-daemon/camera/adaptor/camera_prepare_handler.cc:110-158 | A stream the worker takes is aborted in its second turn exactly if the flag is up and the first turn did not finish it; otherwise the worker keeps it |
| PrepareWorker.StepOk | umd-daemon/camera/adaptor/camera_prepare_handler.cc:50-158 | Every event, of clients, of the worker or of others using the streams, keeps the streams in preparation exactly those queued and in progress |
| PrepareWorker.StartFailureExactly | umd-daemon/camera/adaptor/camera_prepare_handler.cc:69-84 | An accepted prepare keeps this exactly when the worker runs or can be started |
| PrepareWorker.StaleAbortEndsLaterPrepare | umd-daemon/camera/adaptor/camera_prepare_handler.cc:96-131 | The simplest such run: a clear with nothing in progress, then a prepare taken at once, aborted after one buffer and without a callback |
| PrepareWorker.Camera3PrepareHandler.Clear | umd-daemon/camera/adaptor/camera_prepare_handler.cc:96-108 | The loop ends the prepare of every queued stream |
| ThreadLife.HandleSafe | umd-daemon/camera/utils/camera_thread.cc:40-155 | With the worker free to end at any moment: no joinable thread is overwritten, none is joined twice, and with the lock free the thread is joinable exactly when the state is not inactive |
| ThreadLife.UndisturbedCalls | umd-daemon/camera/utils/camera_thread.cc:40-126 | When the worker ends once it is asked to: from every state a stop marks, joins and forgets the thread; a start joins the old one before the new one is active, and leaves none if none can be created; an exit request is left for the loop to see; calls that do not apply change nothing |
| ThreadLife.StuckExactly | umd-daemon/camera/utils/camera_thread.cc:135-139 | A caller waiting for the idle state is stuck for ever exactly when the worker has ended and its idle state was overwritten |
| ThreadLife.LostIdleSticksCaller | umd-daemon/camera/utils/camera_thread.cc:83-101 | A run that ends that way |
| TileLayout.ExtraBelowRows | APPS/qmedia/java/org/codeaurora/qmedia/opengles/VideoComposer.java:382-384 | For every n >= 1 fewer cells are to spare than there are rows |
| TileLayout.DrawFrame | APPS/qmedia/java/org/codeaurora/qmedia/opengles/VideoComposer.java:382-410 | The loop lays n tiles end to end, none across a row end, filling the grid; exactly the last tiles of the first rows are double; nothing is left to spare; each viewport is its tile in pixels |
| TileLayout.LoopEndsFull | APPS/qmedia/java/org/codeaurora/qmedia/opengles/VideoComposer.java:386-405 | After the last instance extra is 0 and the grid is full |
| TileLayout.PixelsPartitioned | APPS/qmedia/java/org/codeaurora/qmedia/opengles/VideoComposer.java:386-405 | Every pixel of the grid lies in exactly one viewport |
| TileLayout.InPicture | APPS/qmedia/java/org/codeaurora/qmedia/opengles/VideoComposer.java:387-403 | Every viewport lies in the picture, for every width and height |
| TileLayout.WholeCells | APPS/qmedia/java/org/codeaurora/qmedia/opengles/VideoComposer.java:387-403 | The cells leave over fewer pixels in each direction than there are cells |
| AudioPool.PoolInvariant | umd-daemon/daemon/audio-stream.cpp:82-161 | However recorder and loop interleave: each buffer is free, held, queued or being handled, and only one of these; the busy map is the last three; callbacks made, then to be made, are the submissions in order; END comes last |
| AudioPool.PushedOk | umd-daemon/daemon/audio-stream.cpp:105-117 | A buffer submitted or returned leaves the recorder's hands for the end of the queue, and every buffer stays in one place |
| AudioPool.GetBufferFindsOne | umd-daemon/daemon/audio-stream.cpp:82-103 | The error exit is never reached, and the buffer given is the first that is in nobody's hands |
| AudioPool.AllDelivered | umd-daemon/daemon/audio-stream.cpp:127-161 | When the loop has left, every submission got one callback, in order, and the busy map holds exactly what the recorder kept, so it is empty exactly if the recorder kept nothing |
| AudioStreaming.AudioStream.GetBuffer | umd-daemon/daemon/audio-stream.cpp:91-102 | The search loop finds the first buffer that is not busy; after any use of the pool it always finds one, in nobody's hands |
| AudioStreaming.AudioStream.StreamLoopHandler | umd-daemon/daemon/audio-stream.cpp:127-161 | From the END message on, the loop drains the queue, calls back every submission in order and frees every buffer not held by the recorder |
| AudioStreaming.AudioStream.Destroy | umd-daemon/daemon/audio-stream.cpp:43-53 | After any use of the pool: END is sent, the loop drains the queue, every submission has got its one callback in order, and only what the recorder kept is busy |
| VendorTags.CreateDescriptorFromHidl | umd-daemon/camera/adaptor/camera_hidl_vendor_tag_descriptor.cc:56-144 | Accepted exactly when every tag id is at or above the vendor boundary, no type is negative and there are fewer than 2^31 tags; the two passes then build the index described below |
| VendorTags.ForwardExact | umd-daemon/camera/adaptor/camera_hidl_vendor_tag_descriptor.cc:84-129 | Each declared tag has the name and section of its last declaration, the section by an index into the strictly sorted list of exactly the section names, and the type of its first; no other tag has any; the tags are counted |
| VendorTags.FlatExact | umd-daemon/camera/adaptor/camera_hidl_vendor_tag_descriptor.cc:84-115 | The declarations are those of each section's tags, section by section |
| VendorTags.BackwardExact | umd-daemon/camera/adaptor/camera_hidl_vendor_tag_descriptor.cc:117-139 | Looking up the section and name of every declared tag gives that tag exactly when no two declarations share both; whatever a lookup gives was declared so |
| VendorTags.AddSorted | umd-daemon/camera/adaptor/camera_hidl_vendor_tag_descriptor.cc:84-94 | Adding a section name keeps the list strictly sorted and adds that name only |

## Left out

- Input and reprocess streams: their submission code is compiled out, so requests have no input; an input buffer in a result is modelled only as far as it is counted.
- InFlightConservation.BuffersConserved: frame numbers stop before the last 32-bit value, because the order counters wrap there; shutter times are positive, as the proved counterexample shows they must be.
- InFlightOrder.ResultsInFrameOrder: about a client with a result callback and results that pass the checks made before the table is locked; metadata is a map from tags to values, so duplicate tags from appending, sorting and malformed metadata buffers are not modelled.
- BufferFlow.BuffersFlow: the buffers that one HAL event hands over are handed over without another thread's call to a stream in between; streams exist from the start, and the frame counter does not wrap.
- DeviceClient.Camera3DeviceClient.NotifyShutter: the shutter and error callbacks are taken to be set.
- StreamPool.PoolInvariant: no reconfiguration or close while a caller is parked in `GetBuffer`; destruction of a stream, allocation failure of the slot array, buffer contents and metadata (`PopulateMetaInfo`), and the conversions between usage flags are not modelled.
- CameraStream.Camera3Stream.GetBufferLocked: which of several free buffers is taken is left open, since the keyed vector orders handles by address; the allocator grants no handle in use; the wait of `GetBuffer` is modelled in `StreamPool` only.
- RequestSubmission.SubmitBuffers: here the streams of a request are taken one after the other without another thread returning buffers in between; a stream with every buffer out then times out; `BufferFlow` takes them one by one among the calls of other threads.
- DeltaSettings.DeltaRefinesFull: request ids do not wrap; requests that `SubmitRequestList` refuses do not reach the handler; a refused submission is one the HAL took nothing from.
- Monitor.NotificationsAlternate: monitor ids do not wrap and adding one does not fail; the notification callback is taken to be set.
- IdleTracking.IdleExactly: streams are created but not destroyed in a run, and transitions are posted within the lock-held body that causes them.
- StateWaiting.StateListeners.WakeUp: the wait itself is the gap between two calls.
- ThreadLife.HandleSafe: modelled on values, not as a class, because the worker writes the state between two statements of a method; thread names and priorities are not modelled.
- PrepareWorker.LaterPrepareAbortedExactly: the two turns from the one that takes the stream on are taken without another call in between.
- PrepareWorker.PrepareInvariant: stream objects are values in a map; the joining of an ended worker before a new start is in `ThreadLife`.
- TileLayout.DrawFrame: square roots and quotients are exact, as double arithmetic gives them for int counts; GL calls and textures are not modelled.
- AudioStreaming.AudioStream.StreamLoopHandler: as a loop it is the part after END was sent; the interleaving before is in `AudioPool`. A second call of `Init` and failed allocations are not modelled.
- AudioPool.GetBufferFindsOne: the wait for a returned buffer can miss its wake-up in the source, so nothing is said about it ending.
- VendorTags.CreateDescriptorFromHidl: the tag count is the true sum; the source's `int` sum would wrap beyond 2^31. Null names and failed allocations are not modelled.
- The liveness of all waits, real time, and deadlock between `lock_` and `pending_requests_lock_`, which are taken in both orders.
- Camera control getters and setters, usage and plane tables, operation modes, logging and tracing: table lookups without state.
- The Java user interface, decoders and recorders other than the tile layout, and the binder, gralloc, tinyalsa and USB layers, which are foreign calls.
