/** A camera stream in its own form: fields, the slot array and the search loops. Every
    method is proved to be the step of `StreamPool` of the same name. */
module CameraStream {
  import opened Wrappers
  import opened Monitor
  import opened StreamPool

  class Camera3Stream {
    var status: Status
    var totalBufferCount: nat
    var pendingBufferCount: nat
    var halBufferCnt: uint32
    var clientBufferCnt: uint32
    /** The keyed vector of buffers: its keys in vector order, and whether each is free. */
    var memAllocKeys: seq<int>
    var memAllocBuffers: map<int, bool>
    var memAllocSlots: array<int>
    var hwBufferAllocated: nat
    var buffersMap: map<int, int>
    var usage: int
    var streamMaxBuffers: nat
    const clientUsage: int
    const clientMaxBuffers: nat
    var oldUsage: int
    var oldMaxBuffers: nat
    var isStreamActive: bool
    var preparedBuffersCount: nat
    var monitorId: int
    ghost var live: set<int>
    ghost var misfreed: bool
    ghost var inFlight: map<int, int>
    ghost var parked: nat

    ghost function Model(): Stream
      reads this, memAllocSlots
    {
      Stream(status, totalBufferCount, pendingBufferCount, halBufferCnt, clientBufferCnt, memAllocBuffers,
             memAllocSlots[..], hwBufferAllocated, buffersMap, usage, streamMaxBuffers, clientUsage, clientMaxBuffers,
             oldUsage, oldMaxBuffers, isStreamActive, preparedBuffersCount, monitorId, live, misfreed, inFlight, parked)
    }

    /** The vector's keys are those of its entries, each once, none null; the slot array has room for
        all buffers; what is allocated and not freed is what the vector has. */
    ghost predicate Valid()
      reads this
    {
      && Distinct(memAllocKeys) && (forall h :: h in memAllocKeys <==> h in memAllocBuffers)
      && NULL_HANDLE !in memAllocBuffers
      && totalBufferCount == memAllocSlots.Length && hwBufferAllocated <= totalBufferCount
      && live == memAllocBuffers.Keys && !misfreed
    }

    constructor (valid: bool, usage: int, bufferCount: nat)
      ensures Valid() && Model() == NewStream(valid, usage, bufferCount)
      ensures fresh(memAllocSlots)
    {
      status := if valid then INITIALIZED else ERROR;
      totalBufferCount, pendingBufferCount, hwBufferAllocated, preparedBuffersCount := 0, 0, 0, 0;
      halBufferCnt, clientBufferCnt := 0, 0;
      memAllocKeys, memAllocBuffers, buffersMap := [], map[], map[];
      memAllocSlots := new int[0];
      this.usage, streamMaxBuffers, clientUsage, clientMaxBuffers := usage, bufferCount, usage, bufferCount;
      oldUsage, oldMaxBuffers := 0, 0;
      isStreamActive, monitorId := false, INVALID_ID;
      live, misfreed, inFlight, parked := {}, false, map[], 0;
    }

    /** `ops` is what the monitor was asked for, here and below. */
    method BeginConfigure() returns (code: Code, ops: seq<MonitorOp>)
      requires Valid()
      modifies this`status, this`usage, this`streamMaxBuffers, this`monitorId
      ensures Valid()
      ensures var o := StreamPool.BeginConfigure(old(Model())); Model() == o.s && code == o.code && ops == o.ops
    {
      hide Distinct;
      ops := [];
      match status {
        case ERROR => return ENOSYS, [];
        case INITIALIZED =>
        case CONFIG_ACTIVE => return OK, [];
        case RECONFIG_ACTIVE => return OK, [];
        case CONFIGURED =>
        case PREPARE_ACTIVE => return ENOSYS, [];
      }
      ops := BeginWithClientValues();
      code := OK;
    }

    /** The end of `BeginConfigure`, when a configuration may begin. */
    method BeginWithClientValues() returns (ops: seq<MonitorOp>)
      modifies this`status, this`usage, this`streamMaxBuffers, this`monitorId
      ensures usage == clientUsage && streamMaxBuffers == clientMaxBuffers && monitorId == INVALID_ID
      ensures status == if old(status) == INITIALIZED then CONFIG_ACTIVE else RECONFIG_ACTIVE
      ensures ops == if old(monitorId) != INVALID_ID then [Release(old(monitorId))] else []
    {
      ops := [];
      usage := clientUsage;
      streamMaxBuffers := clientMaxBuffers;
      if monitorId != INVALID_ID {
        ops := [Release(monitorId)];
        monitorId := INVALID_ID;
      }
      if status == INITIALIZED {
        status := CONFIG_ACTIVE;
      } else {
        status := RECONFIG_ACTIVE;
      }
    }

    /** Frees every buffer of the vector. */
    method FreeBuffers()
      requires Valid()
      modifies this`memAllocKeys, this`memAllocBuffers, this`live, this`misfreed
      ensures Valid() && Model() == FreeAll(old(Model()))
    {
      FreeEach();
      hide Distinct;
      memAllocKeys := [];
      memAllocBuffers := map[];
    }

    /** The loop of `FreeBuffers`. */
    method FreeEach()
      requires Valid()
      modifies this`live, this`misfreed
      ensures live == old(live) - memAllocBuffers.Keys
      ensures misfreed <==> old(misfreed) || !(memAllocBuffers.Keys <= old(live))
    {
      ghost var was := live;
      for i := 0 to |memAllocKeys|
        modifies this`live, this`misfreed
        invariant live == was - (set h | h in memAllocKeys[..i])
        invariant misfreed <==> old(misfreed) || exists h :: h in memAllocKeys[..i] && h !in was
      {
        ghost var h := memAllocKeys[i];
        assert memAllocKeys[..i + 1] == memAllocKeys[..i] + [h];
        assert h !in memAllocKeys[..i];
        misfreed := misfreed || h !in live;
        live := live - {h};
      }
      assert memAllocKeys[..|memAllocKeys|] == memAllocKeys;
      KeysOf(memAllocKeys, memAllocBuffers);
    }

    method CloseLocked() returns (code: Code)
      requires Valid()
      modifies this`status, this`memAllocKeys, this`memAllocBuffers, this`live, this`misfreed
      ensures Valid()
      ensures var o := StreamPool.CloseLocked(old(Model())); Model() == o.s && code == o.code
    {
      hide Distinct;
      if status != RECONFIG_ACTIVE && status != CONFIGURED {
        return ENOTCONN;
      }
      if pendingBufferCount > 0 {
        return ENOSYS;
      }
      FreeBuffers();
      status := if status == RECONFIG_ACTIVE then CONFIG_ACTIVE else INITIALIZED;
      return OK;
    }

    method ConfigureLocked() returns (code: Code)
      requires Valid()
      modifies this
      ensures Valid() && (fresh(memAllocSlots) || memAllocSlots == old(memAllocSlots))
      ensures var o := StreamPool.ConfigureLocked(old(Model())); Model() == o.s && code == o.code
    {
      hide Distinct, StreamPool.CloseLocked, FreeAll;
      match status {
        case RECONFIG_ACTIVE =>
          code := CloseLocked();
          if code != OK {
            return;
          }
        case CONFIG_ACTIVE =>
        case _ => return ENOSYS;
      }
      StartOver(if clientMaxBuffers > streamMaxBuffers then clientMaxBuffers else streamMaxBuffers);
      return OK;
    }

    /** The end of `ConfigureLocked`. */
    method StartOver(total: nat)
      requires Valid()
      modifies this
      ensures Valid() && fresh(memAllocSlots)
      ensures Model() == FreeAll(old(Model())).(total := total, pending := 0, hw := 0, active := false,
                                                slots := seq(total, _ => NULL_HANDLE))
    {
      hide Distinct, FreeAll;
      FreeBuffers();
      totalBufferCount, pendingBufferCount, hwBufferAllocated, isStreamActive := total, 0, 0, false;
      memAllocSlots := new int[total](_ => NULL_HANDLE);
      assert memAllocSlots[..] == seq(total, _ => NULL_HANDLE);
    }

    /** `newId` is what the monitor answers. */
    method EndConfigure(newId: int) returns (code: Code, ops: seq<MonitorOp>)
      requires Valid()
      modifies this
      ensures Valid() && (fresh(memAllocSlots) || memAllocSlots == old(memAllocSlots))
      ensures var o := StreamPool.EndConfigure(old(Model()), newId);
              Model() == o.s && code == o.code && ops == o.ops
    {
      hide Distinct, StreamPool.ConfigureLocked;
      ops := [];
      if status != CONFIG_ACTIVE && status != RECONFIG_ACTIVE {
        return ENOSYS, ops;
      }
      monitorId := newId;
      if newId < 0 {
        return MONITOR_FAILED, ops;
      }
      ops := [Acquire(newId)];
      if status == RECONFIG_ACTIVE && usage == oldUsage && oldMaxBuffers == streamMaxBuffers {
        status := CONFIGURED;
        return OK, ops;
      }
      code := Reconfigure();
    }

    /** The end of `EndConfigure`, where the pool is set up anew. */
    method Reconfigure() returns (code: Code)
      requires Valid()
      modifies this
      ensures Valid() && (fresh(memAllocSlots) || memAllocSlots == old(memAllocSlots))
      ensures var s := old(Model());
              var o := StreamPool.ConfigureLocked(s);
              && code == o.code
              && Model() == if o.code.OK? then o.s.(status := CONFIGURED, oldUsage := s.usage, oldMax := s.maxBuffers)
                            else o.s.(status := ERROR)
    {
      hide Distinct, StreamPool.ConfigureLocked;
      var configuredUsage, configuredMax := usage, streamMaxBuffers;
      code := ConfigureLocked();
      if code != OK {
        status := ERROR;
        return;
      }
      status := CONFIGURED;
      oldUsage := configuredUsage;
      oldMaxBuffers := configuredMax;
    }

    method AbortConfigure() returns (code: Code)
      requires Valid()
      modifies this`status, this`usage, this`streamMaxBuffers
      ensures Valid()
      ensures var o := StreamPool.AbortConfigure(old(Model())); Model() == o.s && code == o.code
    {
      if status != CONFIG_ACTIVE && status != RECONFIG_ACTIVE {
        return ENOSYS;
      }
      usage := oldUsage;
      streamMaxBuffers := oldMaxBuffers;
      status := if status == RECONFIG_ACTIVE then CONFIGURED else INITIALIZED;
      return OK;
    }

    method BeginPrepare() returns (code: Code)
      requires Valid()
      modifies this`status, this`preparedBuffersCount
      ensures Valid()
      ensures var o := StreamPool.BeginPrepare(old(Model())); Model() == o.s && code == o.code
    {
      if status != CONFIGURED {
        return ENOSYS;
      }
      if isStreamActive {
        return ENOSYS;
      }
      if 0 < pendingBufferCount {
        return ENOSYS;
      }
      preparedBuffersCount := 0;
      status := PREPARE_ACTIVE;
      return ENODATA;
    }

    method EndPrepareLocked() returns (code: Code)
      requires Valid()
      modifies this`status, this`preparedBuffersCount
      ensures Valid()
      ensures var o := StreamPool.EndPrepare(old(Model())); Model() == o.s && code == o.code
    {
      if status != PREPARE_ACTIVE {
        return ENOSYS;
      }
      preparedBuffersCount := 0;
      status := CONFIGURED;
      return OK;
    }

    /** The first free buffer of the vector, or null. */
    method FindFree() returns (handle: int)
      requires Valid()
      ensures if HasFree(memAllocBuffers) then IsFree(memAllocBuffers, handle) else handle == NULL_HANDLE
    {
      for i := 0 to |memAllocKeys|
        invariant forall k :: 0 <= k < i ==> !IsFree(memAllocBuffers, memAllocKeys[k])
      {
        if memAllocKeys[i] in memAllocBuffers && memAllocBuffers[memAllocKeys[i]] {
          return memAllocKeys[i];
        }
      }
      assert forall h :: h in memAllocBuffers ==> h in memAllocKeys;
      return NULL_HANDLE;
    }

    /** The index of a handle among the slots in use, or -1. */
    method FindSlot(handle: int) returns (idx: int)
      requires Valid()
      ensures if handle in memAllocSlots[..hwBufferAllocated] then 0 <= idx < hwBufferAllocated
              && memAllocSlots[idx] == handle
              else idx == -1
    {
      for i := 0 to hwBufferAllocated
        invariant forall k :: 0 <= k < i ==> memAllocSlots[k] != handle
      {
        if memAllocSlots[i] == handle {
          return i;
        }
      }
      return -1;
    }

    /** Enters a newly allocated handle. */
    method AddBuffer(handle: int, free: bool)
      requires Valid() && handle != NULL_HANDLE && handle !in memAllocBuffers && hwBufferAllocated < totalBufferCount
      modifies this`memAllocKeys, this`memAllocBuffers, this`hwBufferAllocated, this`live, memAllocSlots
      ensures Valid() && memAllocBuffers == old(memAllocBuffers)[handle := free] && live == old(live) + {handle}
      ensures hwBufferAllocated == old(hwBufferAllocated) + 1
      ensures memAllocSlots[..] == old(memAllocSlots[..])[old(hwBufferAllocated) := handle]
    {
      memAllocSlots[hwBufferAllocated] := handle;
      memAllocKeys := memAllocKeys + [handle];
      memAllocBuffers := memAllocBuffers[handle := free];
      live := live + {handle};
      hwBufferAllocated := hwBufferAllocated + 1;
    }

    /** What `GetBufferLocked` does to the pool. `alloc` is what the allocator would answer;
        `pick` tells which free buffer was taken, if one was. */
    method ChooseBuffer(forFrame: bool, alloc: Option<int>) returns (code: Code, handle: int, ghost pick: int)
      requires Valid() && (alloc.Some? ==> alloc.value != NULL_HANDLE && alloc.value !in live)
      modifies this`memAllocKeys, this`memAllocBuffers, this`hwBufferAllocated, this`live, memAllocSlots
      ensures Valid()
      ensures old(HasFree(memAllocBuffers)) && forFrame ==> IsFree(old(memAllocBuffers), pick)
      ensures var o := StreamPool.ChooseBuffer(old(Model()), forFrame, pick, alloc);
              Model() == o.s && code == o.code && o.ops == [] && (code == OK ==> handle == o.handle)
    {
      hide Distinct, HasFree;
      var idx := -1;
      handle := NULL_HANDLE;
      if forFrame {
        handle := FindFree();
      }
      pick := handle;
      if handle != NULL_HANDLE {
        memAllocBuffers := memAllocBuffers[handle := false];
        idx := FindSlot(handle);
      } else if hwBufferAllocated < totalBufferCount {
        match alloc {
          case None =>
            return ENOMEM, NULL_HANDLE, pick;
          case Some(h) =>
            handle := h;
            idx := hwBufferAllocated;
            AddBuffer(handle, !forFrame);
        }
      }
      if handle == NULL_HANDLE || 0 > idx {
        return ENOSYS, NULL_HANDLE, pick;
      }
      return OK, memAllocSlots[idx], pick;
    }

    method GetBufferLocked(frameNumber: int, alloc: Option<int>)
      returns (code: Code, ops: seq<MonitorOp>, handle: int, ghost pick: int)
      requires Valid() && (alloc.Some? ==> alloc.value != NULL_HANDLE && alloc.value !in live)
      modifies this, memAllocSlots
      ensures Valid() && memAllocSlots == old(memAllocSlots)
      ensures old(status != INITIALIZED && status != ERROR && HasFree(memAllocBuffers))
              ==> IsFree(old(memAllocBuffers), pick)
      ensures var o := StreamPool.GetBufferLocked(old(Model()), frameNumber, pick, alloc);
              Model() == o.s && code == o.code && ops == o.ops && (code == OK ==> handle == o.handle)
    {
      ops := [];
      if status == ERROR || status == INITIALIZED {
        return ENOSYS, ops, NULL_HANDLE, NULL_HANDLE;
      }
      hide StreamPool.GetBufferLocked;
      code, ops, handle, pick := Take(frameNumber, alloc);
    }

    /** The same, once the status admits it. */
    method Take(frameNumber: int, alloc: Option<int>)
      returns (code: Code, ops: seq<MonitorOp>, handle: int, ghost pick: int)
      requires Valid() && (alloc.Some? ==> alloc.value != NULL_HANDLE && alloc.value !in live)
      requires status != ERROR && status != INITIALIZED
      modifies this, memAllocSlots
      ensures Valid() && memAllocSlots == old(memAllocSlots)
      ensures old(HasFree(memAllocBuffers)) ==> IsFree(old(memAllocBuffers), pick)
      ensures var o := StreamPool.GetBufferLocked(old(Model()), frameNumber, pick, alloc);
              Model() == o.s && code == o.code && ops == o.ops && (code == OK ==> handle == o.handle)
    {
      hide Distinct, HasFree, StreamPool.ChooseBuffer, Wrap32;
      ops := [];
      code, handle, pick := ChooseBuffer(true, alloc);
      if code != OK {
        return;
      }
      ops := Book(frameNumber, handle);
    }

    /** The end of `GetBufferLocked`: the buffer goes out for the frame. */
    method Book(frameNumber: int, handle: int) returns (ops: seq<MonitorOp>)
      requires Valid()
      modifies this`buffersMap, this`inFlight, this`halBufferCnt, this`pendingBufferCount
      ensures Valid()
      ensures var s := old(Model());
              Model() == s.(frames := s.frames[frameNumber := handle], inFlight := s.inFlight[frameNumber := handle],
                            hal := Wrap32(s.hal + 1), pending := s.pending + 1)
      ensures ops == if old(pendingBufferCount) == 0 && status != CONFIG_ACTIVE && status != RECONFIG_ACTIVE
                     then [Post(monitorId, ACTIVE)] else []
    {
      hide Wrap32, Distinct;
      ops := [];
      Enter(frameNumber, handle);
      if pendingBufferCount == 0 && status != CONFIG_ACTIVE && status != RECONFIG_ACTIVE {
        ops := [Post(monitorId, ACTIVE)];
      }
      CountForFrame();
    }

    method Enter(frameNumber: int, handle: int)
      modifies this`buffersMap, this`inFlight
      ensures buffersMap == old(buffersMap)[frameNumber := handle] && inFlight == old(inFlight)[frameNumber := handle]
    {
      buffersMap := buffersMap[frameNumber := handle];
      inFlight := inFlight[frameNumber := handle];
    }

    /** The counters when a buffer goes out for a frame. */
    method CountForFrame()
      modifies this`halBufferCnt, this`pendingBufferCount
      ensures halBufferCnt == Wrap32(old(halBufferCnt) + 1) && pendingBufferCount == old(pendingBufferCount) + 1
    {
      halBufferCnt := Wrap32(halBufferCnt + 1);
      pendingBufferCount := pendingBufferCount + 1;
    }

    method PrepareBuffer(alloc: Option<int>) returns (code: Code)
      requires Valid() && (alloc.Some? ==> alloc.value != NULL_HANDLE && alloc.value !in live)
      modifies this, memAllocSlots
      ensures Valid() && memAllocSlots == old(memAllocSlots)
      ensures var o := StreamPool.PrepareBuffer(old(Model()), alloc); Model() == o.s && code == o.code
    {
      if status != PREPARE_ACTIVE {
        return ENOSYS;
      }
      hide Distinct, HasFree, StreamPool.ChooseBuffer;
      var handle: int;
      ghost var pick: int;
      code, handle, pick := ChooseBuffer(false, alloc);
      if code != OK {
        return ENODEV;
      }
      preparedBuffersCount := preparedBuffersCount + 1;
      if preparedBuffersCount < totalBufferCount {
        return ENODATA;
      }
      code := EndPrepareLocked();
    }

    /** The locked part of the call that hands the buffer of a frame to the client; `handle` is
        the buffer handed over. */
    method ReturnBufferToClient(frameNumber: int) returns (handle: int)
      requires Valid()
      modifies this`halBufferCnt, this`clientBufferCnt, this`isStreamActive, this`buffersMap
      ensures Valid()
      ensures var o := HandToClient(old(Model()), frameNumber); Model() == o.s && handle == o.handle
    {
      hide Wrap32, Distinct;
      CountForClient();
      if frameNumber !in buffersMap {
        buffersMap := buffersMap[frameNumber := NULL_HANDLE];
      }
      handle := buffersMap[frameNumber];
      isStreamActive := true;
    }

    /** The counters when a buffer passes from the HAL to the client. */
    method CountForClient()
      modifies this`halBufferCnt, this`clientBufferCnt
      ensures halBufferCnt == Wrap32(old(halBufferCnt) - 1) && clientBufferCnt == Wrap32(old(clientBufferCnt) + 1)
    {
      halBufferCnt := Wrap32(halBufferCnt - 1);
      clientBufferCnt := Wrap32(clientBufferCnt + 1);
    }

    method ReturnBufferLocked(handle: int) returns (code: Code, ops: seq<MonitorOp>)
      requires Valid()
      modifies this`memAllocBuffers, this`inFlight, this`pendingBufferCount, this`clientBufferCnt
      ensures Valid()
      ensures var o := StreamPool.ReturnBufferLocked(old(Model()), handle);
              Model() == o.s && code == o.code && ops == o.ops
    {
      hide Distinct, Without, Wrap32;
      ops := [];
      if status == INITIALIZED || pendingBufferCount == 0 {
        return ENOSYS, ops;
      }
      if handle !in memAllocBuffers {
        return EINVAL, ops;
      }
      TakeBack(handle);
      if pendingBufferCount == 0 && status != CONFIG_ACTIVE && status != RECONFIG_ACTIVE {
        ops := [Post(monitorId, IDLE)];
      }
      return OK, ops;
    }

    /** A buffer of the pool comes back. */
    method TakeBack(handle: int)
      requires Valid() && pendingBufferCount > 0 && handle in memAllocBuffers
      modifies this`memAllocBuffers, this`inFlight, this`pendingBufferCount, this`clientBufferCnt
      ensures Valid()
      ensures memAllocBuffers == old(memAllocBuffers)[handle := true] && inFlight == Without(old(inFlight), handle)
      ensures pendingBufferCount == old(pendingBufferCount) - 1 && clientBufferCnt == Wrap32(old(clientBufferCnt) - 1)
    {
      hide Distinct, Without, Wrap32;
      memAllocBuffers := memAllocBuffers[handle := true];
      inFlight := Without(inFlight, handle);
      pendingBufferCount := pendingBufferCount - 1;
      clientBufferCnt := Wrap32(clientBufferCnt - 1);
    }

    method TearDown() returns (code: Code)
      requires Valid()
      modifies this, memAllocSlots
      ensures Valid() && memAllocSlots == old(memAllocSlots)
      ensures var o := StreamPool.TearDown(old(Model())); Model() == o.s && code == o.code
    {
      hide Distinct, FreeAll;
      if status != CONFIGURED || 0 < pendingBufferCount {
        return ENOSYS;
      }
      if 0 < hwBufferAllocated {
        FreeBuffers();
        hwBufferAllocated := 0;
      }
      ClearSlots();
      isStreamActive := false;
      return OK;
    }

    /** The loop that empties the slot array. */
    method ClearSlots()
      requires Valid()
      modifies memAllocSlots
      ensures memAllocSlots[..] == seq(totalBufferCount, _ => NULL_HANDLE)
    {
      for i := 0 to totalBufferCount
        invariant forall k :: 0 <= k < i ==> memAllocSlots[k] == NULL_HANDLE
      {
        memAllocSlots[i] := NULL_HANDLE;
      }
      assert memAllocSlots[..] == seq(totalBufferCount, _ => NULL_HANDLE);
    }
  }

  lemma KeysOf(keys: seq<int>, buffers: map<int, bool>)
    requires forall h :: h in keys <==> h in buffers
    ensures (set h | h in keys) == buffers.Keys
  {
    var all := set h | h in keys;
    forall h ensures h in all <==> h in buffers.Keys {
      assert h in all <==> h in keys;
    }
    assert all == buffers.Keys;
  }
}
