/** One camera stream: its six-status machine, its lazily allocated buffer pool and its
    counters. One function per lock-held body; `Step` runs one call. */
module StreamPool {
  import opened Wrappers
  import opened Monitor

  datatype Status = ERROR | INITIALIZED | CONFIG_ACTIVE | RECONFIG_ACTIVE | CONFIGURED | PREPARE_ACTIVE

  datatype Code = OK | ENOSYS | ENOMEM | ENODEV | ENODATA | EINVAL | ENOTCONN | WAITING | MONITOR_FAILED

  const INVALID_ID := -1
  const NULL_HANDLE := 0

  /** `buffers` says of each allocated handle whether it is free; `slots` is the array of
      `total` handles of which the first `hw` are in use; `frames` is the map from frame
      number to handle. The last four are history: `live` the handles allocated and not yet
      freed, `misfreed` whether one was freed that was not live, `inFlight` the handle chosen for
      each frame whose buffer is out, `parked` the callers waiting for a buffer. */
  datatype Stream = Stream(
    status: Status, total: nat, pending: nat, hal: uint32, client: uint32,
    buffers: map<int, bool>, slots: seq<int>, hw: nat, frames: map<int, int>,
    usage: int, maxBuffers: nat, clientUsage: int, clientMax: nat, oldUsage: int, oldMax: nat,
    active: bool, prepared: nat, monitorId: int,
    live: set<int>, misfreed: bool, inFlight: map<int, int>, parked: nat)

  function NewStream(valid: bool, usage: int, bufferCount: nat): Stream {
    Stream(if valid then INITIALIZED else ERROR, 0, 0, 0, 0, map[], [], 0, map[],
           usage, bufferCount, usage, bufferCount, 0, 0, false, 0, INVALID_ID, {}, false, map[], 0)
  }

  /** What a call does to the monitor. */
  datatype MonitorOp = Acquire(id: int) | Release(id: int) | Post(id: int, state: Activity)

  /** `handle` is the buffer a call hands out, if any. */
  datatype Outcome = Outcome(s: Stream, ops: seq<MonitorOp>, code: Code, handle: int)

  function Done(s: Stream): Outcome { Outcome(s, [], OK, NULL_HANDLE) }

  function Refused(s: Stream, code: Code): Outcome { Outcome(s, [], code, NULL_HANDLE) }

  /** Frees every buffer of the pool. */
  function FreeAll(s: Stream): Stream {
    s.(buffers := map[], live := s.live - s.buffers.Keys, misfreed := s.misfreed || !(s.buffers.Keys <= s.live))
  }

  function BeginConfigure(s: Stream): Outcome {
    match s.status
    case ERROR => Refused(s, ENOSYS)
    case PREPARE_ACTIVE => Refused(s, ENOSYS)
    case CONFIG_ACTIVE => Done(s)
    case RECONFIG_ACTIVE => Done(s)
    case _ =>
      var s1 := s.(usage := s.clientUsage, maxBuffers := s.clientMax, monitorId := INVALID_ID,
                   status := if s.status.INITIALIZED? then CONFIG_ACTIVE else RECONFIG_ACTIVE);
      Outcome(s1, if s.monitorId != INVALID_ID then [Release(s.monitorId)] else [], OK, NULL_HANDLE)
  }

  function CloseLocked(s: Stream): Outcome {
    if !s.status.RECONFIG_ACTIVE? && !s.status.CONFIGURED? then Refused(s, ENOTCONN)
    else if s.pending > 0 then Refused(s, ENOSYS)
    else Done(FreeAll(s).(status := if s.status.RECONFIG_ACTIVE? then CONFIG_ACTIVE else INITIALIZED))
  }

  /** The pool starts over with room for `total` buffers. */
  function ConfigureLocked(s: Stream): Outcome {
    if !s.status.RECONFIG_ACTIVE? && !s.status.CONFIG_ACTIVE? then Refused(s, ENOSYS)
    else
      var closed := if s.status.RECONFIG_ACTIVE? then CloseLocked(s) else Done(s);
      if !closed.code.OK? then closed
      else
        var total := if s.clientMax > s.maxBuffers then s.clientMax else s.maxBuffers;
        Done(FreeAll(closed.s).(total := total, pending := 0, hw := 0, active := false,
                                slots := seq(total, _ => NULL_HANDLE)))
  }

  /** `newId` is the answer of the monitor. */
  function EndConfigure(s: Stream, newId: int): Outcome {
    if !s.status.CONFIG_ACTIVE? && !s.status.RECONFIG_ACTIVE? then Refused(s, ENOSYS)
    else
      var s1 := s.(monitorId := newId);
      if newId < 0 then Refused(s1, MONITOR_FAILED)
      else if s.status.RECONFIG_ACTIVE? && s.usage == s.oldUsage && s.oldMax == s.maxBuffers then
        Outcome(s1.(status := CONFIGURED), [Acquire(newId)], OK, NULL_HANDLE)
      else
        var o := ConfigureLocked(s1);
        if !o.code.OK? then Outcome(o.s.(status := ERROR), [Acquire(newId)], o.code, NULL_HANDLE)
        else Outcome(o.s.(status := CONFIGURED, oldUsage := s.usage, oldMax := s.maxBuffers),
                     [Acquire(newId)], OK, NULL_HANDLE)
  }

  function AbortConfigure(s: Stream): Outcome {
    if !s.status.CONFIG_ACTIVE? && !s.status.RECONFIG_ACTIVE? then Refused(s, ENOSYS)
    else Done(s.(usage := s.oldUsage, maxBuffers := s.oldMax,
                 status := if s.status.RECONFIG_ACTIVE? then CONFIGURED else INITIALIZED))
  }

  function BeginPrepare(s: Stream): Outcome {
    if !s.status.CONFIGURED? || s.active || s.pending > 0 then Refused(s, ENOSYS)
    else Refused(s.(prepared := 0, status := PREPARE_ACTIVE), ENODATA)
  }

  function EndPrepare(s: Stream): Outcome {
    if !s.status.PREPARE_ACTIVE? then Refused(s, ENOSYS)
    else Done(s.(prepared := 0, status := CONFIGURED))
  }

  predicate HasFree(buffers: map<int, bool>) { exists h :: h in buffers && buffers[h] }

  function IsFree(buffers: map<int, bool>, h: int): bool { h in buffers && buffers[h] }

  /** The pool with one more buffer, which must be a handle not in it. */
  function Added(s: Stream, h: int, free: bool): Stream
    requires s.hw < |s.slots|
  {
    s.(slots := s.slots[s.hw := h], hw := s.hw + 1, buffers := s.buffers[h := free], live := s.live + {h})
  }

  /** The buffer a caller takes: `pick` is the free one found, `alloc` the allocator's answer
      when none is free. A null result with no change means none could be had. */
  function ChooseBuffer(s: Stream, forFrame: bool, pick: int, alloc: Option<int>): Outcome {
    if forFrame && HasFree(s.buffers) then
      var s1 := s.(buffers := s.buffers[pick := false]);
      if pick in s.slots[..if s.hw <= |s.slots| then s.hw else |s.slots|] then Outcome(s1, [], OK, pick)
          else Refused(s1, ENOSYS)
    else if s.hw < s.total && s.hw < |s.slots| then
      match alloc
      case None => Refused(s, ENOMEM)
      case Some(h) =>
        Outcome(Added(s, h, !forFrame), [], OK, h)
    else Refused(s, ENOSYS)
  }

  function GetBufferLocked(s: Stream, frame: int, pick: int, alloc: Option<int>): Outcome {
    if s.status.ERROR? || s.status.INITIALIZED? then Refused(s, ENOSYS)
    else
      var o := ChooseBuffer(s, true, pick, alloc);
      if !o.code.OK? then o
      else
        Outcome(o.s.(frames := s.frames[frame := o.handle], inFlight := s.inFlight[frame := o.handle],
                     hal := Wrap32(s.hal + 1), pending := s.pending + 1),
                if s.pending == 0 && !s.status.CONFIG_ACTIVE? && !s.status.RECONFIG_ACTIVE?
                then [Post(s.monitorId, ACTIVE)] else [],
                OK, o.handle)
  }

  /** The first part of `GetBuffer`: a caller that finds every buffer out is parked. */
  function GetBuffer(s: Stream, frame: int, pick: int, alloc: Option<int>): Outcome {
    if !s.status.CONFIGURED? then Refused(s, ENOSYS)
    else if s.pending == s.total then Refused(s.(parked := s.parked + 1), WAITING)
    else GetBufferLocked(s, frame, pick, alloc)
  }

  function Woken(s: Stream, frame: int, pick: int, alloc: Option<int>): Outcome {
    if s.parked == 0 then Refused(s, EINVAL)
    else GetBufferLocked(s.(parked := s.parked - 1), frame, pick, alloc)
  }

  function PrepareBuffer(s: Stream, alloc: Option<int>): Outcome {
    if !s.status.PREPARE_ACTIVE? then Refused(s, ENOSYS)
    else
      var o := ChooseBuffer(s, false, NULL_HANDLE, alloc);
      if !o.code.OK? then Refused(o.s, ENODEV)
      else
        var s1 := o.s.(prepared := s.prepared + 1);
        if s1.prepared < s.total then Refused(s1, ENODATA) else EndPrepare(s1)
  }

  /** The frames left once the buffer `h` is back. */
  function Without(inFlight: map<int, int>, h: int): map<int, int> {
    map f | f in inFlight && inFlight[f] != h :: inFlight[f]
  }

  function ReturnBufferLocked(s: Stream, h: int): Outcome {
    if s.status.INITIALIZED? || s.pending == 0 then Refused(s, ENOSYS)
    else if h !in s.buffers then Refused(s, EINVAL)
    else
      Outcome(s.(buffers := s.buffers[h := true], pending := s.pending - 1, client := Wrap32(s.client - 1),
                 inFlight := Without(s.inFlight, h)),
              if s.pending == 1 && !s.status.CONFIG_ACTIVE? && !s.status.RECONFIG_ACTIVE?
              then [Post(s.monitorId, IDLE)] else [],
              OK, NULL_HANDLE)
  }

  /** The locked part of `ReturnBufferToClient`. */
  function HandToClient(s: Stream, frame: int): Outcome {
    var h := if frame in s.frames then s.frames[frame] else NULL_HANDLE;
    Outcome(s.(hal := Wrap32(s.hal - 1), client := Wrap32(s.client + 1), active := true,
        frames := s.frames[frame := h]),
            [], OK, h)
  }

  /** The request handler giving back the buffer of a request it could not submit. */
  function ReturnUnsubmitted(s: Stream, frame: int): Outcome {
    var h := if frame in s.frames then s.frames[frame] else NULL_HANDLE;
    ReturnBufferLocked(s.(frames := s.frames - {frame}), h)
  }

  function TearDown(s: Stream): Outcome {
    if !s.status.CONFIGURED? || s.pending > 0 then Refused(s, ENOSYS)
    else
      var s1 := if s.hw > 0 then FreeAll(s).(hw := 0) else s;
      Done(s1.(slots := seq(|s.slots|, _ => NULL_HANDLE), active := false))
  }

  datatype Call =
    | ConfigureBegun | ConfigureEnded(newId: int) | ConfigureAborted
    | PrepareBegun | BufferPrepared(alloc: Option<int>) | PrepareEnded
    | BufferTaken(frame: int, pick: int, alloc: Option<int>)
    | WaiterWoken(frame: int, pick: int, alloc: Option<int>) | WaiterTimedOut
    | HandedToClient(frame: int) | BufferReturned(handle: int) | Unsubmitted(frame: int)
    | Closed | TornDown

  function Step(s: Stream, c: Call): Outcome {
    match c
    case ConfigureBegun => BeginConfigure(s)
    case ConfigureEnded(id) => EndConfigure(s, id)
    case ConfigureAborted => AbortConfigure(s)
    case PrepareBegun => BeginPrepare(s)
    case BufferPrepared(alloc) => PrepareBuffer(s, alloc)
    case PrepareEnded => EndPrepare(s)
    case BufferTaken(f, pick, alloc) => GetBuffer(s, f, pick, alloc)
    case WaiterWoken(f, pick, alloc) => Woken(s, f, pick, alloc)
    case WaiterTimedOut => if s.parked > 0 then Done(s.(parked := s.parked - 1)) else Done(s)
    case HandedToClient(f) => HandToClient(s, f)
    case BufferReturned(h) => ReturnBufferLocked(s, h)
    case Unsubmitted(f) => ReturnUnsubmitted(s, f)
    case Closed => CloseLocked(s)
    case TornDown => TearDown(s)
  }

  function Run(s: Stream, calls: seq<Call>): Stream {
    if calls == [] then s else Step(Run(s, calls[..|calls| - 1]), calls[|calls| - 1]).s
  }

  predicate FairChoice(s: Stream, pick: int, alloc: Option<int>) {
    && (HasFree(s.buffers) ==> IsFree(s.buffers, pick))
    && (alloc.Some? ==> alloc.value != NULL_HANDLE && alloc.value !in s.live)
  }

  /** What is asked of the other parties: the allocator returns handles not in use, and the
      stream is not reconfigured or closed while a caller waits for a buffer. */
  predicate Fair(s: Stream, c: Call) {
    match c
    case BufferTaken(_, pick, alloc) => FairChoice(s, pick, alloc)
    case WaiterWoken(_, pick, alloc) => FairChoice(s, pick, alloc)
    case BufferPrepared(alloc) => alloc.Some? ==> alloc.value != NULL_HANDLE && alloc.value !in s.live
    case WaiterTimedOut => true
    case HandedToClient(_) => true
    case BufferReturned(_) => true
    case Unsubmitted(_) => true
    case PrepareBegun => true
    case PrepareEnded => true
    case TornDown => true
    case _ => s.parked == 0
  }

  function Busy(buffers: map<int, bool>): set<int> {
    set h | h in buffers && !buffers[h]
  }

  predicate Distinct(a: seq<int>) {
    forall i, j :: 0 <= i < j < |a| ==> a[i] != a[j]
  }

  ghost predicate Pooled(s: Stream) {
    && s.hw <= s.total == |s.slots|
    && Distinct(s.slots[..s.hw])
    && (forall h :: h in s.buffers <==> h in s.slots[..s.hw])
    && s.pending <= |Busy(s.buffers)|
  }

  /** The pool invariant, conditional on the status; the allocator's ledger; the counters. */
  ghost predicate PoolOk(s: Stream) {
    && s.live == s.buffers.Keys && !s.misfreed
    && NULL_HANDLE !in s.buffers
    && Wrap32(s.hal + s.client - s.pending) == 0
    && (if s.status.INITIALIZED? || s.status.CONFIG_ACTIVE? then s.buffers == map[] && s.pending == 0 else Pooled(s))
    && (s.parked > 0 ==> s.status.CONFIGURED? || s.status.PREPARE_ACTIVE?)
  }

  lemma BusyAdd(buffers: map<int, bool>, h: int, free: bool)
    ensures Busy(buffers[h := free]) == if free then Busy(buffers) - {h} else Busy(buffers) + {h}
  {
    if free {
      assert Busy(buffers[h := free]) == Busy(buffers) - {h};
    } else {
      assert Busy(buffers[h := free]) == Busy(buffers) + {h};
    }
  }

  lemma {:induction false} ElementsAtMost(a: seq<int>, xs: set<int>)
    requires forall x :: x in xs ==> x in a
    ensures |xs| <= |a|
  {
    if a == [] {
      assert forall x :: x !in xs;
      assert xs == {};
    } else {
      var last := a[|a| - 1];
      ElementsAtMost(a[..|a| - 1], xs - {last});
      assert xs <= (xs - {last}) + {last};
      assert |xs| <= |xs - {last}| + 1;
    }
  }

  /** No more buffers are pending than busy, than allocated, than there is room for. */
  lemma BusyFits(s: Stream)
    requires Pooled(s)
    ensures s.pending <= |Busy(s.buffers)| <= s.hw <= s.total
  {
    ElementsAtMost(s.slots[..s.hw], Busy(s.buffers));
  }

  /** Marking a free buffer busy keeps the pool. */
  lemma PickOk(s: Stream, pick: int)
    requires PoolOk(s) && Pooled(s) && IsFree(s.buffers, pick)
    ensures var s1 := s.(buffers := s.buffers[pick := false]);
            && PoolOk(s1) && Pooled(s1)
            && pick in s.slots[..s.hw] && pick !in Busy(s.buffers)
            && |Busy(s1.buffers)| == |Busy(s.buffers)| + 1
  {
    BusyAdd(s.buffers, pick, false);
    assert s.buffers[pick := false].Keys == s.buffers.Keys;
  }

  lemma SlotAdded(slots: seq<int>, n: nat, h: int)
    requires n < |slots| && Distinct(slots[..n]) && h !in slots[..n]
    ensures var slots' := slots[n := h];
            && Distinct(slots'[..n + 1])
            && (forall k :: k in slots'[..n + 1] <==> k in slots[..n] || k == h)
  {
    assert slots[n := h][..n + 1] == slots[..n] + [h];
  }

  lemma BusyAdded(buffers: map<int, bool>, h: int, free: bool)
    requires h !in buffers
    ensures |Busy(buffers[h := free])| == |Busy(buffers)| + if free then 0 else 1
  {
    BusyAdd(buffers, h, free);
    assert Busy(buffers) - {h} == Busy(buffers);
  }

  lemma AddedPooled(s: Stream, h: int, free: bool)
    requires Pooled(s) && s.hw < s.total && h !in s.buffers
    ensures Pooled(Added(s, h, free))
  {
    BusyAdded(s.buffers, h, free);
    SlotAdded(s.slots, s.hw, h);
    hide Busy, Distinct;
  }

  /** A handle from the allocator is new to the pool. */
  lemma AllocOk(s: Stream, h: int, free: bool)
    requires PoolOk(s) && Pooled(s) && s.hw < s.total && h != NULL_HANDLE && h !in s.live
    requires !s.status.INITIALIZED? && !s.status.CONFIG_ACTIVE?
    ensures PoolOk(Added(s, h, free)) && h !in Busy(s.buffers)
    ensures |Busy(Added(s, h, free).buffers)| == |Busy(s.buffers)| + if free then 0 else 1
  {
    BusyAdded(s.buffers, h, free);
    AddedPooled(s, h, free);
    hide Pooled;
    assert s.buffers[h := free].Keys == s.buffers.Keys + {h};
  }

  /** Taking or adding a buffer changes nothing but the pool itself. */
  lemma ChooseKeeps(s: Stream, forFrame: bool, pick: int, alloc: Option<int>)
    ensures var o := ChooseBuffer(s, forFrame, pick, alloc);
            && o.ops == []
            && o.s == s.(buffers := o.s.buffers, slots := o.s.slots, hw := o.s.hw, live := o.s.live)
  {
    hide HasFree;
  }

  /** Taking or adding a buffer keeps the pool, and makes one more buffer busy if it is for a frame. */
  lemma ChooseOk(s: Stream, forFrame: bool, pick: int, alloc: Option<int>)
    requires PoolOk(s) && !s.status.INITIALIZED? && !s.status.CONFIG_ACTIVE?
    requires forFrame ==> FairChoice(s, pick, alloc)
    requires alloc.Some? ==> alloc.value != NULL_HANDLE && alloc.value !in s.live
    ensures var o := ChooseBuffer(s, forFrame, pick, alloc);
            && PoolOk(o.s) && o.ops == []
            && (!o.code.OK? ==> o.s == s)
            && (o.code.OK? ==>
                  && o.handle in o.s.buffers
                  && o.s == s.(buffers := s.buffers[o.handle := !forFrame], slots := o.s.slots, hw := o.s.hw,
                     live := o.s.live)
                  && o.handle !in Busy(s.buffers)
                  && (forFrame ==> |Busy(o.s.buffers)| == |Busy(s.buffers)| + 1))
  {
    if forFrame && HasFree(s.buffers) {
      PickOk(s, pick);
    } else if s.hw < s.total && alloc.Some? {
      AllocOk(s, alloc.value, !forFrame);
    }
    hide Pooled, Busy, Distinct, HasFree;
  }

  lemma WrapStep(hal: uint32, client: uint32, pending: nat)
    requires Wrap32(hal + client - pending) == 0
    ensures Wrap32(Wrap32(hal + 1) + client - (pending + 1)) == 0
    ensures Wrap32(Wrap32(hal - 1) + Wrap32(client + 1) - pending) == 0
    ensures Wrap32(hal + Wrap32(client - 1) - (pending - 1)) == 0
  {
    WrapSum(hal + 1, client - pending - 1);
    WrapSum(hal - 1, Wrap32(client + 1) - pending);
    WrapSum(client + 1, hal - 1 - pending);
    WrapSum(client - 1, hal - pending + 1);
    hide Wrap32;
  }

  lemma TakeOk(s: Stream, frame: int, pick: int, alloc: Option<int>)
    requires PoolOk(s) && FairChoice(s, pick, alloc) && !s.status.CONFIG_ACTIVE?
    ensures PoolOk(GetBufferLocked(s, frame, pick, alloc).s)
  {
    if !s.status.ERROR? && !s.status.INITIALIZED? {
      ChooseOk(s, true, pick, alloc);
      WrapStep(s.hal, s.client, s.pending);
      hide ChooseBuffer, HasFree, Distinct, Busy;
    }
  }

  /** Returning a handle never makes more buffers pending than are busy, even one already free. */
  lemma ReturnOk(s: Stream, h: int)
    requires PoolOk(s)
    ensures PoolOk(ReturnBufferLocked(s, h).s)
  {
    WrapStep(s.hal, s.client, s.pending);
    BusyAdd(s.buffers, h, true);
    if h in s.buffers && s.pending > 0 {
      assert s.buffers[h := true].Keys == s.buffers.Keys;
    }
  }

  lemma CloseOk(s: Stream)
    requires PoolOk(s) && s.parked == 0
    ensures PoolOk(CloseLocked(s).s)
  {
  }

  lemma ConfigureOk(s: Stream)
    requires PoolOk(s) && s.parked == 0
    ensures var o := ConfigureLocked(s);
            && PoolOk(o.s)
            && (o.code.OK? ==> o.s.status.CONFIG_ACTIVE? && Pooled(o.s) && o.s.parked == 0)
            && (!o.code.OK? ==> o.s == s && !s.status.CONFIG_ACTIVE?)
  {
    if s.status.RECONFIG_ACTIVE? { CloseOk(s); }
  }

  lemma PrepareOk(s: Stream, alloc: Option<int>)
    requires PoolOk(s) && Fair(s, BufferPrepared(alloc))
    ensures PoolOk(PrepareBuffer(s, alloc).s)
  {
    hide ChooseBuffer, HasFree, Busy, Distinct, Wrap32;
    if s.status.PREPARE_ACTIVE? { ChooseOk(s, false, NULL_HANDLE, alloc); }
  }

  lemma UnsubmittedOk(s: Stream, frame: int)
    requires PoolOk(s)
    ensures PoolOk(ReturnUnsubmitted(s, frame).s)
  {
    hide ReturnBufferLocked;
    ReturnOk(s.(frames := s.frames - {frame}), if frame in s.frames then s.frames[frame] else NULL_HANDLE);
  }

  lemma WokenOk(s: Stream, frame: int, pick: int, alloc: Option<int>)
    requires PoolOk(s) && FairChoice(s, pick, alloc)
    ensures PoolOk(Woken(s, frame, pick, alloc).s)
  {
    hide GetBufferLocked;
    if s.parked > 0 { TakeOk(s.(parked := s.parked - 1), frame, pick, alloc); }
  }

  lemma EndConfigureOk(s: Stream, newId: int)
    requires PoolOk(s) && s.parked == 0
    ensures PoolOk(EndConfigure(s, newId).s)
  {
    hide ConfigureLocked, Busy, Distinct, Wrap32;
    ConfigureOk(s.(monitorId := newId));
  }

  lemma StepPoolOk(s: Stream, c: Call)
    requires PoolOk(s) && Fair(s, c)
    ensures PoolOk(Step(s, c).s)
  {
    hide PoolOk, EndConfigure, CloseLocked, TearDown, GetBufferLocked, Woken, PrepareBuffer, ReturnBufferLocked,
        ReturnUnsubmitted;
    match c
    case ConfigureEnded(id) => EndConfigureOk(s, id);
    case BufferTaken(f, pick, alloc) => TakenOk(s, f, pick, alloc);
    case WaiterWoken(f, pick, alloc) => WokenOk(s, f, pick, alloc);
    case BufferPrepared(alloc) => PrepareOk(s, alloc);
    case BufferReturned(h) => ReturnOk(s, h);
    case Unsubmitted(f) => UnsubmittedOk(s, f);
    case HandedToClient(f) => HandedOk(s, f);
    case Closed => CloseOk(s);
    case TornDown => TearDownOk(s);
    case _ => QuietOk(s, c);
  }

  lemma TakenOk(s: Stream, frame: int, pick: int, alloc: Option<int>)
    requires PoolOk(s) && FairChoice(s, pick, alloc)
    ensures PoolOk(GetBuffer(s, frame, pick, alloc).s)
  {
    hide GetBufferLocked, Wrap32, Busy, Distinct;
    if s.status.CONFIGURED? { TakeOk(s, frame, pick, alloc); }
  }

  lemma HandedOk(s: Stream, frame: int)
    requires PoolOk(s)
    ensures PoolOk(HandToClient(s, frame).s)
  {
    WrapStep(s.hal, s.client, s.pending);
    hide Wrap32, Busy, Distinct;
  }

  lemma QuietOk(s: Stream, c: Call)
    requires PoolOk(s) && Fair(s, c)
    requires c.ConfigureBegun? || c.ConfigureAborted? || c.PrepareBegun? || c.PrepareEnded? || c.WaiterTimedOut?
    ensures PoolOk(Step(s, c).s)
  {
    hide Wrap32, Busy, Distinct;
  }

  lemma TearDownOk(s: Stream)
    requires PoolOk(s)
    ensures PoolOk(TearDown(s).s)
  {
    if s.status.CONFIGURED? && s.hw == 0 {
      assert s.slots[..s.hw] == [];
      assert forall h :: h !in s.buffers;
      assert s.buffers == map[];
    }
  }

  predicate FairRun(s: Stream, calls: seq<Call>) {
    forall k :: 0 <= k < |calls| ==> Fair(Run(s, calls[..k]), calls[k])
  }

  /** Over every fair run, from any new stream: slots and map agree and no handle is twice in
      the pool, what is pending is busy and what is busy fits the pool, the two counters sum
      to what is pending modulo 2^32 even through the error returns, and the handles
      allocated and not freed are exactly the keys of the map, none of them freed twice. */
  lemma {:induction false} PoolInvariant(valid: bool, usage: int, bufferCount: nat, calls: seq<Call>)
    requires FairRun(NewStream(valid, usage, bufferCount), calls)
    ensures PoolOk(Run(NewStream(valid, usage, bufferCount), calls))
  {
    var s := NewStream(valid, usage, bufferCount);
    if calls != [] {
      var init := calls[..|calls| - 1];
      forall k | 0 <= k < |init| ensures Fair(Run(s, init[..k]), init[k]) { assert init[..k] == calls[..k]; }
      PoolInvariant(valid, usage, bufferCount, init);
      StepPoolOk(Run(s, init), calls[|calls| - 1]);
    }
  }

  // ----- which frame has which buffer

  /** Frames are numbered uniquely while their buffer is out, and a buffer is given back once. */
  predicate Orderly(s: Stream, c: Call) {
    && Fair(s, c)
    && match c
       case BufferTaken(f, _, _) => f !in s.inFlight
       case WaiterWoken(f, _, _) => f !in s.inFlight
       case HandedToClient(f) => f in s.inFlight
       case BufferReturned(h) => h in Busy(s.buffers)
       case Unsubmitted(f) => f in s.inFlight
       case _ => true
  }

  predicate OrderlyRun(s: Stream, calls: seq<Call>) {
    forall k :: 0 <= k < |calls| ==> Orderly(Run(s, calls[..k]), calls[k])
  }

  ghost predicate Injective(m: map<int, int>) {
    forall f, g :: f in m && g in m && f != g ==> m[f] != m[g]
  }

  /** The frames whose buffer is out have distinct handles, those `frames` gives for them,
      and these handles are exactly the busy ones. */
  ghost predicate Matched(inFlight: map<int, int>, frames: map<int, int>, busy: set<int>) {
    && Injective(inFlight)
    && (forall f :: f in inFlight ==> f in frames && frames[f] == inFlight[f] && inFlight[f] in busy)
    && (forall h :: h in busy ==> exists f :: f in inFlight && inFlight[f] == h)
  }

  ghost predicate FlightOk(s: Stream) {
    && PoolOk(s)
    && Matched(s.inFlight, s.frames, Busy(s.buffers))
    && s.pending == |Busy(s.buffers)|
  }

  lemma MatchedAdd(inFlight: map<int, int>, frames: map<int, int>, busy: set<int>, f: int, h: int)
    requires Matched(inFlight, frames, busy) && f !in inFlight && h !in busy
    ensures Matched(inFlight[f := h], frames[f := h], busy + {h})
  {
    var after := inFlight[f := h];
    forall k | k in busy + {h} ensures exists g :: g in after && after[g] == k {
      if k == h {
        assert after[f] == k;
      } else {
        var g :| g in inFlight && inFlight[g] == k;
        assert after[g] == k;
      }
    }
  }

  lemma MatchedRemove(inFlight: map<int, int>, frames: map<int, int>, frames': map<int, int>, busy: set<int>, h: int)
    requires Matched(inFlight, frames, busy)
    requires forall f :: f in inFlight && f in frames && inFlight[f] != h ==> f in frames' && frames'[f] == frames[f]
    ensures Matched(Without(inFlight, h), frames', busy - {h})
  {
    forall k | k in busy - {h} ensures exists f :: f in Without(inFlight, h) && Without(inFlight, h)[f] == k {
      var f :| f in inFlight && inFlight[f] == k;
      assert Without(inFlight, h)[f] == k;
    }
  }

  /** What taking a buffer for a frame changes: one more handle is busy, and it is the frame's. */
  lemma TakeEffect(s: Stream, frame: int, pick: int, alloc: Option<int>)
    requires PoolOk(s) && FairChoice(s, pick, alloc) && !s.status.CONFIG_ACTIVE?
    ensures var o := GetBufferLocked(s, frame, pick, alloc);
            && PoolOk(o.s)
            && (!o.code.OK? ==> o.s == s && o.ops == [])
            && (o.code.OK? ==>
                  && !s.status.INITIALIZED?
                  && o.handle !in Busy(s.buffers)
                  && Busy(o.s.buffers) == Busy(s.buffers) + {o.handle}
                  && o.s.inFlight == s.inFlight[frame := o.handle] && o.s.frames == s.frames[frame := o.handle]
                  && o.s.pending == s.pending + 1 && o.s.status == s.status && o.s.monitorId == s.monitorId
                  && o.s.parked == s.parked)
  {
    TakeOk(s, frame, pick, alloc);
    var o := GetBufferLocked(s, frame, pick, alloc);
    if !s.status.ERROR? && !s.status.INITIALIZED? {
      ChooseOk(s, true, pick, alloc);
      BusyAdd(s.buffers, o.handle, false);
    }
    hide PoolOk, ChooseBuffer, Busy;
  }

  /** Past the wait, a buffer is had exactly if one is free, or there is room for another that the
      allocator grants; a free one comes first. */
  lemma LockedExactly(s: Stream, frame: int, pick: int, alloc: Option<int>)
    requires PoolOk(s) && FairChoice(s, pick, alloc) && (s.status.CONFIGURED? || s.status.PREPARE_ACTIVE?)
    ensures var o := GetBufferLocked(s, frame, pick, alloc);
            && (o.code.OK? <==> HasFree(s.buffers) || (s.hw < s.total && alloc.Some?))
            && !o.code.WAITING?
            && (o.code.OK? ==>
                  if HasFree(s.buffers) then IsFree(s.buffers, o.handle)
                  else alloc == Some(o.handle) && o.handle !in s.buffers)
  {
    hide Busy, Wrap32, HasFree;
    PickedIsSlot(s, pick);
  }

  lemma PickedIsSlot(s: Stream, pick: int)
    requires Pooled(s)
    ensures s.total == |s.slots| && s.hw <= |s.slots| && (IsFree(s.buffers, pick) ==> pick in s.slots[..s.hw])
  {
  }

  lemma TakeFlight(s: Stream, frame: int, pick: int, alloc: Option<int>)
    requires FlightOk(s) && FairChoice(s, pick, alloc) && !s.status.CONFIG_ACTIVE? && frame !in s.inFlight
    ensures FlightOk(GetBufferLocked(s, frame, pick, alloc).s)
  {
    hide GetBufferLocked, PoolOk, Busy, Matched, FairChoice;
    TakeEffect(s, frame, pick, alloc);
    var o := GetBufferLocked(s, frame, pick, alloc);
    if o.code.OK? { MatchedAdd(s.inFlight, s.frames, Busy(s.buffers), frame, o.handle); }
  }

  /** A busy handle is taken back, and only the frame it was out for loses it. */
  lemma ReturnEffect(s: Stream, h: int)
    requires PoolOk(s) && h in Busy(s.buffers) && s.pending == |Busy(s.buffers)|
    ensures var o := ReturnBufferLocked(s, h);
            && PoolOk(o.s) && o.code.OK?
            && Busy(o.s.buffers) == Busy(s.buffers) - {h} && o.s.pending == |Busy(o.s.buffers)|
            && o.s.inFlight == Without(s.inFlight, h) && o.s.frames == s.frames
  {
    ReturnOk(s, h);
    BusyAdd(s.buffers, h, true);
    assert |Busy(s.buffers)| > 0;
    hide Pooled;
  }

  /** Nothing is out when nothing is pending, so starting the pool over forgets no frame. */
  lemma NonePending(s: Stream)
    requires FlightOk(s) && s.pending == 0
    ensures s.inFlight == map[] && Busy(s.buffers) == {}
  {
    assert Busy(s.buffers) == {};
    assert forall f :: f !in s.inFlight;
  }

  lemma QuietFlight(s: Stream, c: Call)
    requires FlightOk(s) && Fair(s, c)
    requires !c.BufferTaken? && !c.WaiterWoken? && !c.BufferReturned? && !c.Unsubmitted? && !c.HandedToClient?
             && !c.BufferPrepared?
    ensures FlightOk(Step(s, c).s)
  {
    StepPoolOk(s, c);
    if s.pending == 0 { NonePending(s); }
    hide PoolOk;
  }

  lemma StepFlight(s: Stream, c: Call)
    requires FlightOk(s) && Orderly(s, c)
    ensures FlightOk(Step(s, c).s)
  {
    hide FlightOk, GetBufferLocked, ReturnBufferLocked;
    match c
    case BufferTaken(f, pick, alloc) => TakenFlight(s, f, pick, alloc);
    case WaiterWoken(f, pick, alloc) => WokenFlight(s, f, pick, alloc);
    case BufferReturned(h) => FlightReturns(s, h);
    case Unsubmitted(f) => UnsubmittedFlight(s, f);
    case HandedToClient(f) => HandedFlight(s, f);
    case BufferPrepared(alloc) => PreparedFlight(s, alloc);
    case _ => QuietFlight(s, c);
  }

  lemma TakenFlight(s: Stream, f: int, pick: int, alloc: Option<int>)
    requires FlightOk(s) && FairChoice(s, pick, alloc) && f !in s.inFlight
    ensures FlightOk(GetBuffer(s, f, pick, alloc).s)
  {
    hide GetBufferLocked;
    if s.status.CONFIGURED? && s.pending != s.total { TakeFlight(s, f, pick, alloc); }
  }

  lemma WokenFlight(s: Stream, f: int, pick: int, alloc: Option<int>)
    requires FlightOk(s) && FairChoice(s, pick, alloc) && f !in s.inFlight
    ensures FlightOk(Woken(s, f, pick, alloc).s)
  {
    hide GetBufferLocked;
    if s.parked > 0 {
      var s1 := s.(parked := s.parked - 1);
      assert FlightOk(s1);
      TakeFlight(s1, f, pick, alloc);
    }
  }

  lemma FlightReturns(s: Stream, h: int)
    requires FlightOk(s) && h in Busy(s.buffers)
    ensures var o := ReturnBufferLocked(s, h); FlightOk(o.s) && o.s.inFlight == Without(s.inFlight, h)
  {
    hide PoolOk, Busy, ReturnBufferLocked, Matched, Without;
    ReturnEffect(s, h);
    MatchedRemove(s.inFlight, s.frames, s.frames, Busy(s.buffers), h);
  }

  lemma UnsubmittedFlight(s: Stream, f: int)
    requires FlightOk(s) && f in s.inFlight
    ensures var o := ReturnUnsubmitted(s, f); FlightOk(o.s) && o.s.inFlight == Without(s.inFlight, s.inFlight[f])
  {
    hide Busy, ReturnBufferLocked, Without;
    var h, frames' := s.inFlight[f], s.frames - {f};
    ReturnEffect(s.(frames := frames'), h);
    MatchedRemove(s.inFlight, s.frames, frames', Busy(s.buffers), h);
  }

  lemma HandedFlight(s: Stream, f: int)
    requires FlightOk(s) && f in s.inFlight
    ensures FlightOk(HandToClient(s, f).s) && HandToClient(s, f).handle == s.inFlight[f] && HandToClient(s, f).ops == []
  {
    StepPoolOk(s, HandedToClient(f));
    hide PoolOk, Busy;
  }

  lemma PreparedFlight(s: Stream, alloc: Option<int>)
    requires FlightOk(s) && Fair(s, BufferPrepared(alloc))
    ensures FlightOk(PrepareBuffer(s, alloc).s) && PrepareBuffer(s, alloc).ops == []
  {
    hide PoolOk, Busy, ChooseBuffer, Matched;
    PrepareOk(s, alloc);
    if s.status.PREPARE_ACTIVE? {
      assert !s.status.INITIALIZED? && !s.status.CONFIG_ACTIVE?;
      ChooseOk(s, false, NULL_HANDLE, alloc);
      var o := ChooseBuffer(s, false, NULL_HANDLE, alloc);
      if o.code.OK? {
        BusyAdd(s.buffers, o.handle, true);
        assert Busy(s.buffers) - {o.handle} == Busy(s.buffers);
      }
    }
  }

  /** Over every run with unique frames and single returns: the frames whose buffer is out
      have distinct handles, `frames` gives each its own, and as many are pending as busy. */
  lemma {:induction false} FlightInvariant(valid: bool, usage: int, bufferCount: nat, calls: seq<Call>)
    requires OrderlyRun(NewStream(valid, usage, bufferCount), calls)
    ensures FlightOk(Run(NewStream(valid, usage, bufferCount), calls))
  {
    var s := NewStream(valid, usage, bufferCount);
    if calls == [] {
      assert Busy(map[]) == {};
    } else {
      var init := calls[..|calls| - 1];
      forall k | 0 <= k < |init| ensures Orderly(Run(s, init[..k]), init[k]) { assert init[..k] == calls[..k]; }
      FlightInvariant(valid, usage, bufferCount, init);
      StepFlight(Run(s, init), calls[|calls| - 1]);
    }
  }

  /** The calls that give back the buffer of a frame. */
  predicate GivesBack(s: Stream, c: Call, frame: int)
    requires frame in s.inFlight
  {
    c == BufferReturned(s.inFlight[frame]) || c == Unsubmitted(frame)
  }

  lemma HandleNotNull(s: Stream, frame: int)
    requires FlightOk(s) && frame in s.inFlight
    ensures s.inFlight[frame] != NULL_HANDLE
  {
  }

  lemma HandKeepsFlight(s: Stream, frame: int)
    ensures HandToClient(s, frame).s.inFlight == s.inFlight
  {
  }

  lemma WokenEffect(s: Stream, frame: int, pick: int, alloc: Option<int>)
    requires PoolOk(s) && FairChoice(s, pick, alloc) && s.parked > 0
    ensures var o := Woken(s, frame, pick, alloc);
            o.s.inFlight == if o.code.OK? then s.inFlight[frame := o.handle] else s.inFlight
  {
    hide GetBufferLocked;
    TakeEffect(s.(parked := s.parked - 1), frame, pick, alloc);
  }

  lemma TakenKeepsOthers(s: Stream, f: int, pick: int, alloc: Option<int>, frame: int)
    requires FlightOk(s) && FairChoice(s, pick, alloc) && f !in s.inFlight && frame in s.inFlight
    ensures var t := GetBuffer(s, f, pick, alloc).s; frame in t.inFlight && t.inFlight[frame] == s.inFlight[frame]
  {
    hide GetBufferLocked, Busy, Matched;
    if s.status.CONFIGURED? { TakeEffect(s, f, pick, alloc); }
    hide PoolOk;
  }

  lemma WokenKeepsOthers(s: Stream, f: int, pick: int, alloc: Option<int>, frame: int)
    requires FlightOk(s) && FairChoice(s, pick, alloc) && f !in s.inFlight && frame in s.inFlight
    ensures var t := Woken(s, f, pick, alloc).s; frame in t.inFlight && t.inFlight[frame] == s.inFlight[frame]
  {
    if s.parked > 0 { WokenEffect(s, f, pick, alloc); }
    hide GetBufferLocked, PoolOk, Busy, Matched;
  }

  lemma WithoutSays(inFlight: map<int, int>, h: int, frame: int)
    requires frame in inFlight
    ensures frame in Without(inFlight, h) <==> inFlight[frame] != h
    ensures frame in Without(inFlight, h) ==> Without(inFlight, h)[frame] == inFlight[frame]
  {
  }

  lemma FlightInjective(s: Stream, f: int, frame: int)
    requires FlightOk(s) && f in s.inFlight && frame in s.inFlight
    ensures s.inFlight[f] == s.inFlight[frame] <==> f == frame
  {
    hide PoolOk, Busy;
  }

  /** The calls that touch no frame. */
  lemma QuietKeepsFlight(s: Stream, c: Call)
    requires c.ConfigureBegun? || c.ConfigureEnded? || c.ConfigureAborted? || c.PrepareBegun? || c.BufferPrepared?
             || c.PrepareEnded?
          || c.WaiterTimedOut? || c.Closed? || c.TornDown?
    ensures Step(s, c).s.inFlight == s.inFlight
  {
    if c.ConfigureEnded? { EndKeepsFlight(s, c.newId); }
    if c.BufferPrepared? { PreparedKeepsFlight(s, c.alloc); }
    hide EndConfigure, PrepareBuffer, FreeAll;
    assert FreeAll(s).inFlight == s.inFlight by { FreeKeepsFlight(s); }
  }

  lemma FreeKeepsFlight(s: Stream)
    ensures FreeAll(s).inFlight == s.inFlight
  {
  }

  lemma EndKeepsFlight(s: Stream, newId: int)
    ensures EndConfigure(s, newId).s.inFlight == s.inFlight
  {
    hide ConfigureLocked;
    ConfigureKeepsFlight(s.(monitorId := newId));
  }

  lemma ConfigureKeepsFlight(s: Stream)
    ensures ConfigureLocked(s).s.inFlight == s.inFlight
  {
  }

  lemma PreparedKeepsFlight(s: Stream, alloc: Option<int>)
    ensures PrepareBuffer(s, alloc).s.inFlight == s.inFlight
  {
    hide ChooseBuffer;
    ChooseKeeps(s, false, NULL_HANDLE, alloc);
  }

  /** Until it is given back, a frame's buffer stays the one chosen for it, and it is the one
      handed to the client, whatever happens in between. */
  lemma ChosenIsHanded(s: Stream, c: Call, frame: int)
    requires FlightOk(s) && Orderly(s, c) && frame in s.inFlight
    ensures HandToClient(s, frame).handle == s.inFlight[frame] != NULL_HANDLE
    ensures frame in Step(s, c).s.inFlight <==> !GivesBack(s, c, frame)
    ensures !GivesBack(s, c, frame) ==> Step(s, c).s.inFlight[frame] == s.inFlight[frame]
  {
    HandedFlight(s, frame);
    HandleNotNull(s, frame);
    hide FlightOk, PoolOk, GetBufferLocked, ReturnBufferLocked, ReturnUnsubmitted, Busy, HandToClient, Woken, Without;
    match c
    case BufferTaken(f, pick, alloc) => TakenKeepsOthers(s, f, pick, alloc, frame);
    case WaiterWoken(f, pick, alloc) => WokenKeepsOthers(s, f, pick, alloc, frame);
    case BufferReturned(h) =>
      FlightReturns(s, h);
      WithoutSays(s.inFlight, h, frame);
    case Unsubmitted(f) =>
      UnsubmittedFlight(s, f);
      WithoutSays(s.inFlight, s.inFlight[f], frame);
      FlightInjective(s, f, frame);
    case HandedToClient(f) => HandKeepsFlight(s, f);
    case _ => QuietKeepsFlight(s, c);
  }

  /** No call of the run gives back the buffer of a frame. */
  predicate KeptOut(s: Stream, calls: seq<Call>, frame: int) {
    forall k :: 0 <= k < |calls| ==>
      var t := Run(s, calls[..k]);
      frame in t.inFlight ==> !GivesBack(t, calls[k], frame)
  }

  lemma KeptOutPrefix(s: Stream, calls: seq<Call>, frame: int)
    requires OrderlyRun(s, calls) && KeptOut(s, calls, frame) && calls != []
    ensures var n := |calls| - 1;
            var t := Run(s, calls[..n]);
            && OrderlyRun(s, calls[..n]) && KeptOut(s, calls[..n], frame)
            && Orderly(t, calls[n]) && (frame in t.inFlight ==> !GivesBack(t, calls[n], frame))
  {
    var n := |calls| - 1;
    var init := calls[..n];
    hide Orderly, GivesBack, Run;
    forall k | 0 <= k < n ensures Orderly(Run(s, init[..k]), init[k]) { assert init[..k] == calls[..k]; }
    forall k | 0 <= k < n && frame in Run(s, init[..k]).inFlight
      ensures !GivesBack(Run(s, init[..k]), init[k], frame)
    {
      assert init[..k] == calls[..k];
    }
    assert Orderly(Run(s, calls[..n]), calls[n]);
  }

  /** Over every run that does not give it back, a frame's buffer stays out, and stays the same. */
  lemma {:induction false} StaysOut(s: Stream, calls: seq<Call>, frame: int)
    requires FlightOk(s) && OrderlyRun(s, calls) && frame in s.inFlight && KeptOut(s, calls, frame)
    ensures var t := Run(s, calls); FlightOk(t) && frame in t.inFlight && t.inFlight[frame] == s.inFlight[frame]
  {
    if calls != [] {
      var n := |calls| - 1;
      KeptOutPrefix(s, calls, frame);
      hide FlightOk, Orderly, GivesBack, OrderlyRun, KeptOut, Step;
      StaysOut(s, calls[..n], frame);
      var t := Run(s, calls[..n]);
      ChosenIsHanded(t, calls[n], frame);
      StepFlight(t, calls[n]);
    }
  }

  /** A buffer that is out is pending. */
  lemma OutIsPending(s: Stream, frame: int)
    requires FlightOk(s) && frame in s.inFlight
    ensures s.pending > 0
  {
    if s.pending == 0 { NonePending(s); }
  }

  /** From the call that takes a buffer for a frame, at once or after a wait, to the one that hands
      it to the client, whatever happens in between except its return: the handle is the same. */
  lemma TakenIsHanded(s: Stream, c: Call, calls: seq<Call>)
    requires FlightOk(s) && Orderly(s, c) && (c.BufferTaken? || c.WaiterWoken?)
    requires var o := Step(s, c); o.code.OK? && OrderlyRun(o.s, calls) && KeptOut(o.s, calls, c.frame)
    ensures var o := Step(s, c);
            var t := Run(o.s, calls);
            && HandToClient(t, c.frame).handle == o.handle != NULL_HANDLE
            && c.frame in t.inFlight && t.pending > 0
  {
    var o := Step(s, c);
    StepFlight(s, c);
    TakenIsOut(s, c);
    hide FlightOk, Orderly, Step, HandToClient;
    StaysOut(o.s, calls, c.frame);
    var t := Run(o.s, calls);
    HandedFlight(t, c.frame);
    HandleNotNull(t, c.frame);
    OutIsPending(t, c.frame);
  }

  lemma TakenIsOut(s: Stream, c: Call)
    requires FlightOk(s) && Orderly(s, c) && (c.BufferTaken? || c.WaiterWoken?) && Step(s, c).code.OK?
    ensures var o := Step(s, c); c.frame in o.s.inFlight && o.s.inFlight[c.frame] == o.handle
  {
    hide GetBufferLocked, Busy, Matched;
    var t := if c.WaiterWoken? then s.(parked := s.parked - 1) else s;
    assert PoolOk(t);
    TakeEffect(t, c.frame, c.pick, c.alloc);
  }

  // ----- preparing a stream

  /** A prepare with an allocator that answers `handles`. */
  function PrepareMany(s: Stream, handles: seq<int>): Stream {
    if handles == [] then s
    else PrepareBuffer(PrepareMany(s, handles[..|handles| - 1]), Some(handles[|handles| - 1])).s
  }

  ghost predicate Fresh(s: Stream, handles: seq<int>) {
    Distinct(handles) && forall h :: h in handles ==> h != NULL_HANDLE && h !in s.live
  }

  /** Each call adds one free buffer; only the one that makes the count of prepared buffers
      reach the total ends the prepare. */
  lemma {:induction false} PrepareProgress(s: Stream, handles: seq<int>)
    requires PoolOk(s) && s.status.PREPARE_ACTIVE? && s.prepared == 0
    requires Fresh(s, handles) && |handles| <= s.total - s.hw
    ensures var t := PrepareMany(s, handles);
            && PoolOk(t) && t.hw == s.hw + |handles| && t.total == s.total
            && Busy(t.buffers) == Busy(s.buffers)
            && t.live == s.live + (set h | h in handles)
            && (if handles != [] && |handles| == s.total then t.status.CONFIGURED? && t.prepared == 0
                else t.status.PREPARE_ACTIVE? && t.prepared == |handles|)
  {
    if handles != [] {
      var init, h := handles[..|handles| - 1], handles[|handles| - 1];
      FreshPrefix(s, handles);
      hide PoolOk, Busy, PrepareBuffer, Fresh;
      PrepareProgress(s, init);
      PreparedOne(PrepareMany(s, init), h);
    }
  }

  lemma FreshPrefix(s: Stream, handles: seq<int>)
    requires Fresh(s, handles) && handles != []
    ensures var init, h := handles[..|handles| - 1], handles[|handles| - 1];
            && Fresh(s, init) && h != NULL_HANDLE && h !in s.live + (set k | k in init)
            && (set k | k in init) + {h} == set k | k in handles
  {
    var init, h := handles[..|handles| - 1], handles[|handles| - 1];
    assert handles == init + [h];
    forall k | k in init ensures k in handles && k != h { assert k in handles; }
    assert h in handles;
    assert (set k | k in init) + {h} == set k | k in handles;
  }

  lemma PreparedOne(t: Stream, h: int)
    requires PoolOk(t) && t.status.PREPARE_ACTIVE? && h != NULL_HANDLE && h !in t.live && t.hw < t.total
    ensures var o := PrepareBuffer(t, Some(h));
            && PoolOk(o.s) && o.s.hw == t.hw + 1 && o.s.total == t.total && o.s.live == t.live + {h}
            && Busy(o.s.buffers) == Busy(t.buffers)
            && (if t.prepared + 1 < t.total then o.code.ENODATA? && o.s.status.PREPARE_ACTIVE?
               && o.s.prepared == t.prepared + 1
                else o.code.OK? && o.s.status.CONFIGURED? && o.s.prepared == 0)
  {
    PrepareOk(t, Some(h));
    BusyAdd(t.buffers, h, true);
    assert Busy(t.buffers) - {h} == Busy(t.buffers);
    hide Busy, Distinct;
  }

  /** A prepare ends by itself exactly when the stream started it with no buffer allocated and
      room for at least one. It then took `total` calls, one per buffer, and all of them are
      free. Otherwise the call after the pool is full fails and leaves the prepare active. */
  lemma PrepareEndsExactly(s: Stream, handles: seq<int>)
    requires PoolOk(s) && s.status.PREPARE_ACTIVE? && s.prepared == 0
    requires Fresh(s, handles) && |handles| == s.total - s.hw
    ensures var t := PrepareMany(s, handles);
            && (t.status.CONFIGURED? <==> s.hw == 0 && s.total > 0)
            && t.hw == s.total && |t.buffers| == |t.live| && Busy(t.buffers) == Busy(s.buffers)
            && (t.status.CONFIGURED? ==> |handles| == s.total && t.live == set h | h in handles)
            && (!t.status.CONFIGURED? ==> forall alloc :: PrepareBuffer(t, alloc) == Refused(t, ENODEV))
    ensures forall k :: 0 <= k < |handles| ==> PrepareMany(s, handles[..k]).status.PREPARE_ACTIVE?
  {
    NothingAllocated(s);
    PrepareProgress(s, handles);
    FullPrepareFails(PrepareMany(s, handles));
    forall k | 0 <= k < |handles| ensures PrepareMany(s, handles[..k]).status.PREPARE_ACTIVE? {
      PrepareProgress(s, handles[..k]);
    }
    hide PrepareMany, PrepareBuffer, Busy, Pooled;
  }

  lemma NothingAllocated(s: Stream)
    requires PoolOk(s) && s.status.PREPARE_ACTIVE?
    ensures s.hw == 0 ==> s.live == {}
  {
    if s.hw == 0 {
      assert s.slots[..s.hw] == [];
      assert forall h :: h !in s.buffers;
    }
  }

  /** With every slot used, a prepare call fails and changes nothing. */
  lemma FullPrepareFails(t: Stream)
    requires PoolOk(t) && t.hw == t.total
    ensures |t.buffers| == |t.live|
    ensures t.status.PREPARE_ACTIVE? ==> forall alloc :: PrepareBuffer(t, alloc) == Refused(t, ENODEV)
  {
    assert |t.buffers| == |t.buffers.Keys|;
  }
}
