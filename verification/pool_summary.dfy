/** A stream told by numbers alone: its status, how many buffers it may have, has and has out. The
    pool with its handles, slots and maps answers every call as this machine does. */
module PoolSummary {
  import opened Wrappers
  import opened StreamPool

  /** How a stream is, or is to be, configured. */
  datatype Setting = Setting(usage: int, count: nat)

  /** `wanted` is what a configuration begun is for, `client` what the client asked for, `last` what
      the pool was set up for last; `atHal` and `atClient` count modulo 2^32. */
  datatype Summary = Summary(
    status: Status, wanted: Setting, client: Setting, last: Setting,
    total: nat, inPool: nat, out: nat, atHal: uint32, atClient: uint32,
    used: bool, prepared: nat, waiting: nat)

  function SummaryOf(s: Stream): Summary {
    Summary(s.status, Setting(s.usage, s.maxBuffers), Setting(s.clientUsage, s.clientMax),
            Setting(s.oldUsage, s.oldMax), s.total, |s.buffers|, |Busy(s.buffers)|, s.hal, s.client, s.active,
            s.prepared, s.parked)
  }

  datatype Answer = Answer(n: Summary, code: Code)

  function No(n: Summary, code: Code): Answer { Answer(n, code) }

  predicate BeingConfigured(n: Summary) { n.status.CONFIG_ACTIVE? || n.status.RECONFIG_ACTIVE? }

  /** A configuration ends: with the pool as it is, if nothing changed since it was set up; else with
      an empty pool, unless buffers of the old one are out. */
  function Configured(n: Summary, newId: int): Answer {
    if !BeingConfigured(n) then No(n, ENOSYS)
    else if newId < 0 then No(n, MONITOR_FAILED)
    else if n.status.RECONFIG_ACTIVE? && n.wanted == n.last then Answer(n.(status := CONFIGURED), OK)
    else if n.out > 0 then Answer(n.(status := ERROR), ENOSYS)
    else
      Answer(n.(status := CONFIGURED, last := n.wanted, inPool := 0, used := false,
                total := if n.wanted.count < n.client.count then n.client.count else n.wanted.count), OK)
  }

  /** A buffer goes out: one that is in the pool, else a new one if there is room and a grant. */
  function Taken(n: Summary, granted: bool): Answer {
    if n.out < n.inPool || (n.inPool < n.total && granted) then
      Answer(n.(out := n.out + 1, atHal := Wrap32(n.atHal + 1),
                inPool := if n.out < n.inPool then n.inPool else n.inPool + 1), OK)
    else No(n, if n.inPool < n.total then ENOMEM else ENOSYS)
  }

  function Back(n: Summary): Summary {
    n.(out := if n.out > 0 then n.out - 1 else 0, atClient := Wrap32(n.atClient - 1))
  }

  /** What a call does, given that handles come back only while they are out. */
  function Call(n: Summary, c: Call): Answer {
    match c
    case ConfigureBegun =>
      (match n.status
       case INITIALIZED => Answer(n.(status := CONFIG_ACTIVE, wanted := n.client), OK)
       case CONFIGURED => Answer(n.(status := RECONFIG_ACTIVE, wanted := n.client), OK)
       case ERROR => No(n, ENOSYS)
       case PREPARE_ACTIVE => No(n, ENOSYS)
       case _ => Answer(n, OK))
    case ConfigureEnded(newId) => Configured(n, newId)
    case ConfigureAborted =>
      if !BeingConfigured(n) then No(n, ENOSYS)
      else Answer(n.(wanted := n.last, status := if n.status.CONFIG_ACTIVE? then INITIALIZED else CONFIGURED), OK)
    case PrepareBegun =>
      if n.status.CONFIGURED? && !n.used && n.out == 0
      then Answer(n.(status := PREPARE_ACTIVE, prepared := 0), ENODATA) else No(n, ENOSYS)
    case BufferPrepared(alloc) =>
      if !n.status.PREPARE_ACTIVE? then No(n, ENOSYS)
      else if n.inPool == n.total || alloc.None? then No(n, ENODEV)
      else if n.prepared + 1 < n.total then
        Answer(n.(inPool := n.inPool + 1, prepared := n.prepared + 1), ENODATA)
      else Answer(n.(inPool := n.inPool + 1, prepared := 0, status := CONFIGURED), OK)
    case PrepareEnded =>
      if n.status.PREPARE_ACTIVE? then Answer(n.(status := CONFIGURED, prepared := 0), OK) else No(n, ENOSYS)
    case BufferTaken(_, _, alloc) =>
      if !n.status.CONFIGURED? then No(n, ENOSYS)
      else if n.out == n.total then Answer(n.(waiting := n.waiting + 1), WAITING)
      else Taken(n, alloc.Some?)
    case WaiterWoken(_, _, alloc) =>
      if n.waiting == 0 then No(n, EINVAL) else Taken(n.(waiting := n.waiting - 1), alloc.Some?)
    case WaiterTimedOut => Answer(if n.waiting == 0 then n else n.(waiting := n.waiting - 1), OK)
    case HandedToClient(_) =>
      Answer(n.(used := true, atHal := Wrap32(n.atHal - 1), atClient := Wrap32(n.atClient + 1)), OK)
    case BufferReturned(_) => Answer(Back(n), OK)
    case Unsubmitted(_) => Answer(Back(n), OK)
    case Closed =>
      if !n.status.CONFIGURED? && !n.status.RECONFIG_ACTIVE? then No(n, ENOTCONN)
      else if n.out > 0 then No(n, ENOSYS)
      else Answer(n.(inPool := 0, status := if n.status.CONFIGURED? then INITIALIZED else CONFIG_ACTIVE), OK)
    case TornDown =>
      if !n.status.CONFIGURED? || n.out > 0 then No(n, ENOSYS)
      else Answer(n.(inPool := 0, used := false), OK)
  }

  /** Before it is configured the pool is empty; later as many buffers as slots in use. */
  lemma Counts(s: Stream)
    requires FlightOk(s)
    ensures s.pending == |Busy(s.buffers)| <= |s.buffers|
    ensures if s.status.INITIALIZED? || s.status.CONFIG_ACTIVE? then s.buffers == map[] && s.pending == 0
            else Pooled(s) && |s.buffers| == s.hw <= s.total
    ensures Pooled(s) ==> (HasFree(s.buffers) <==> |Busy(s.buffers)| < |s.buffers|)
  {
    FreeOrBusy(s.buffers);
    if Pooled(s) { SlotsAreKeys(s.slots[..s.hw], s.buffers.Keys); }
  }

  /** A pool has a free buffer exactly if not all are busy. */
  lemma FreeOrBusy(buffers: map<int, bool>)
    ensures |Busy(buffers)| <= |buffers|
    ensures HasFree(buffers) <==> |Busy(buffers)| < |buffers|
  {
    var busy, free := Busy(buffers), buffers.Keys - Busy(buffers);
    assert buffers.Keys == busy + free && |buffers| == |buffers.Keys|;
    if h :| h in buffers && buffers[h] {
      assert h in free;
    } else {
      assert forall h :: h in free <==> h in buffers && buffers[h];
      NoElements(free);
    }
  }

  lemma NoElements(xs: set<int>)
    requires forall x :: x !in xs
    ensures xs == {}
  {
    var none: set<int> := {};
    assert forall x :: x in xs <==> x in none;
    assert xs == none;
  }

  lemma {:induction false} SlotsAreKeys(slots: seq<int>, keys: set<int>)
    requires Distinct(slots) && forall h :: h in keys <==> h in slots
    ensures |keys| == |slots|
  {
    if slots == [] {
      NoElements(keys);
    } else {
      var init, last := slots[..|slots| - 1], slots[|slots| - 1];
      assert slots == init + [last] && last !in init;
      SlotsAreKeys(init, keys - {last});
      assert keys == (keys - {last}) + {last};
    }
  }

  /** Calls that leave the pool as it is. */
  lemma BegunExactly(s: Stream)
    ensures var o, a := BeginConfigure(s), Call(SummaryOf(s), ConfigureBegun);
            SummaryOf(o.s) == a.n && o.code == a.code
  {
    hide Busy;
  }

  lemma AbortedExactly(s: Stream)
    ensures var o, a := AbortConfigure(s), Call(SummaryOf(s), ConfigureAborted);
            SummaryOf(o.s) == a.n && o.code == a.code
  {
    hide Busy;
  }

  lemma PlainCalls(s: Stream, c: Call)
    requires c.PrepareEnded? || c.WaiterTimedOut? || c.HandedToClient?
    ensures var o, a := Step(s, c), Call(SummaryOf(s), c); SummaryOf(o.s) == a.n && o.code == a.code
  {
    hide Busy, Wrap32;
  }

  lemma PrepareBegunExactly(s: Stream)
    requires s.pending == |Busy(s.buffers)|
    ensures var o, a := Step(s, PrepareBegun), Call(SummaryOf(s), PrepareBegun);
            SummaryOf(o.s) == a.n && o.code == a.code
  {
    hide Busy;
  }

  lemma EmptyPool()
    ensures var none: map<int, bool> := map[]; Busy(none) == {} && |none| == 0
  {
    NoElements(Busy(map[]));
  }

  /** Closing and tearing down, with nothing out, free everything. */
  lemma FreeingCalls(s: Stream, c: Call)
    requires FlightOk(s) && (c.Closed? || c.TornDown?)
    ensures var o, a := Step(s, c), Call(SummaryOf(s), c); SummaryOf(o.s) == a.n && o.code == a.code
  {
    hide FlightOk, Busy, Pooled, HasFree;
    Counts(s);
    EmptyPool();
  }

  lemma ConfiguredExactly(s: Stream, newId: int)
    requires FlightOk(s)
    ensures var o, a := EndConfigure(s, newId), Configured(SummaryOf(s), newId);
            SummaryOf(o.s) == a.n && o.code == a.code
  {
    hide FlightOk, Busy, Pooled, HasFree;
    Counts(s);
    var n := SummaryOf(s);
    if BeingConfigured(n) && newId >= 0 && !(n.status.RECONFIG_ACTIVE? && n.wanted == n.last) {
      hide SummaryOf, EndConfigure, Configured;
      ReadyExactly(s, newId);
    } else {
      hide ConfigureLocked;
    }
  }

  /** The end of a configuration that sets up the pool. */
  lemma ReadyExactly(s: Stream, newId: int)
    requires s.pending == |Busy(s.buffers)| && (s.status.CONFIG_ACTIVE? ==> s.pending == 0)
    requires var n := SummaryOf(s);
             BeingConfigured(n) && newId >= 0 && !(n.status.RECONFIG_ACTIVE? && n.wanted == n.last)
    ensures var o, a := EndConfigure(s, newId), Configured(SummaryOf(s), newId);
            SummaryOf(o.s) == a.n && o.code == a.code
  {
    hide Busy, ConfigureLocked;
    SetUp(s.(monitorId := newId));
    SetUpSummary(s.(monitorId := newId));
  }

  /** The pool set up anew, unless buffers of the old one are out. */
  lemma SetUp(s: Stream)
    requires s.pending == |Busy(s.buffers)| && (s.status.CONFIG_ACTIVE? ==> s.pending == 0)
    requires s.status.CONFIG_ACTIVE? || s.status.RECONFIG_ACTIVE?
    ensures var o := ConfigureLocked(s);
            if s.pending > 0 then o.s == s && o.code.ENOSYS?
            else
              && o.code.OK? && o.s.buffers == map[]
              && o.s == s.(buffers := map[], slots := o.s.slots, live := o.s.live, misfreed := o.s.misfreed,
                           status := o.s.status, pending := 0, hw := 0, active := false,
                           total := if s.clientMax > s.maxBuffers then s.clientMax else s.maxBuffers)
  {
    hide Busy;
  }

  /** The same in numbers. */
  lemma SetUpSummary(s: Stream)
    requires s.pending == |Busy(s.buffers)| && (s.status.CONFIG_ACTIVE? ==> s.pending == 0)
    requires s.status.CONFIG_ACTIVE? || s.status.RECONFIG_ACTIVE?
    ensures var o, n := ConfigureLocked(s), SummaryOf(s);
            if n.out > 0 then o.s == s && o.code.ENOSYS?
            else
              && o.code.OK?
              && SummaryOf(o.s)
                 == n.(status := o.s.status, inPool := 0, used := false,
                       total := if n.wanted.count < n.client.count then n.client.count else n.wanted.count)
  {
    hide Busy, ConfigureLocked;
    EmptyPool();
    SetUp(s);
  }

  lemma PreparedExactly(s: Stream, alloc: Option<int>)
    requires FlightOk(s) && Fair(s, BufferPrepared(alloc))
    ensures var o, a := PrepareBuffer(s, alloc), Call(SummaryOf(s), BufferPrepared(alloc));
            SummaryOf(o.s) == a.n && o.code == a.code
  {
    hide FlightOk, PoolOk, Busy, HasFree, ChooseBuffer, Pooled;
    Counts(s);
    FlightIsPool(s);
    if s.status.PREPARE_ACTIVE? { NewBuffer(s, false, NULL_HANDLE, alloc); }
  }

  lemma FlightIsPool(s: Stream)
    requires FlightOk(s)
    ensures PoolOk(s)
  {
  }

  /** A new buffer, when none is free or it is not for a frame. */
  lemma NewBuffer(s: Stream, forFrame: bool, pick: int, alloc: Option<int>)
    requires PoolOk(s) && !s.status.INITIALIZED? && !s.status.CONFIG_ACTIVE?
    requires (alloc.Some? ==> alloc.value !in s.live) && !(forFrame && HasFree(s.buffers))
    ensures var o := ChooseBuffer(s, forFrame, pick, alloc);
            if s.hw < s.total && alloc.Some? then
              && o.code.OK? && |o.s.buffers| == |s.buffers| + 1
              && |Busy(o.s.buffers)| == |Busy(s.buffers)| + (if forFrame then 1 else 0)
              && o.s == s.(buffers := o.s.buffers, slots := o.s.slots, hw := o.s.hw, live := o.s.live)
            else o.s == s && o.code == if s.hw < s.total then ENOMEM else ENOSYS
  {
    if alloc.Some? {
      BusyAdded(s.buffers, alloc.value, !forFrame);
      OneMore(s.buffers, alloc.value, !forFrame);
    }
    hide Busy, HasFree, Distinct;
  }

  lemma OneMore(buffers: map<int, bool>, h: int, free: bool)
    ensures |buffers[h := free]| == |buffers| + if h in buffers then 0 else 1
  {
    assert buffers[h := free].Keys == buffers.Keys + {h};
    assert |buffers[h := free]| == |buffers[h := free].Keys| && |buffers| == |buffers.Keys|;
  }

  /** A buffer goes out, past the wait. */
  lemma TakenExactly(s: Stream, frame: int, pick: int, alloc: Option<int>)
    requires FlightOk(s) && FairChoice(s, pick, alloc) && (s.status.CONFIGURED? || s.status.PREPARE_ACTIVE?)
    ensures var o, a := GetBufferLocked(s, frame, pick, alloc), Taken(SummaryOf(s), alloc.Some?);
            SummaryOf(o.s) == a.n && o.code == a.code
  {
    hide FlightOk, PoolOk, HasFree, ChooseBuffer, Busy, FairChoice;
    FlightParts(s, pick, alloc);
    Counts(s);
    if HasFree(s.buffers) { FreeOne(s, pick, alloc); } else { NewBuffer(s, true, pick, alloc); }
  }

  lemma FlightParts(s: Stream, pick: int, alloc: Option<int>)
    requires FlightOk(s) && FairChoice(s, pick, alloc)
    ensures PoolOk(s) && (alloc.Some? ==> alloc.value !in s.live)
  {
    hide PoolOk;
  }

  lemma FreeOne(s: Stream, pick: int, alloc: Option<int>)
    requires PoolOk(s) && Pooled(s) && HasFree(s.buffers) && FairChoice(s, pick, alloc)
    ensures var o := ChooseBuffer(s, true, pick, alloc);
            && o.code.OK? && |o.s.buffers| == |s.buffers| && |Busy(o.s.buffers)| == |Busy(s.buffers)| + 1
            && o.s == s.(buffers := o.s.buffers)
  {
    hide Busy, HasFree, PoolOk, Distinct;
    IsFreeIn(s, pick, alloc);
    PickOk(s, pick);
    OneMore(s.buffers, pick, false);
  }

  lemma IsFreeIn(s: Stream, pick: int, alloc: Option<int>)
    requires HasFree(s.buffers) && FairChoice(s, pick, alloc)
    ensures IsFree(s.buffers, pick)
  {
  }

  lemma BackExactly(s: Stream, c: Call)
    requires FlightOk(s) && Orderly(s, c) && (c.BufferReturned? || c.Unsubmitted?)
    ensures var o, a := Step(s, c), Call(SummaryOf(s), c); SummaryOf(o.s) == a.n && o.code == a.code
  {
    hide FlightOk, PoolOk, Busy, Without, Wrap32;
    var t := if c.Unsubmitted? then s.(frames := s.frames - {c.frame}) else s;
    var h := HandleBack(s, t, c);
    ReturnEffect(t, h);
    OneMore(s.buffers, h, true);
    BusyLess(s.buffers, h);
  }

  /** The handle that comes back, and where it is. */
  lemma HandleBack(s: Stream, t: Stream, c: Call) returns (h: int)
    requires FlightOk(s) && Orderly(s, c) && (c.BufferReturned? || c.Unsubmitted?)
    requires t == if c.Unsubmitted? then s.(frames := s.frames - {c.frame}) else s
    ensures PoolOk(t) && h in Busy(t.buffers) && t.pending == |Busy(t.buffers)| && h in s.buffers
    ensures Step(s, c) == ReturnBufferLocked(t, h)
  {
    h := if c.Unsubmitted? then s.inFlight[c.frame] else c.handle;
    hide Wrap32;
  }

  lemma BusyLess(buffers: map<int, bool>, h: int)
    requires h in Busy(buffers)
    ensures |Busy(buffers) - {h}| == |Busy(buffers)| - 1
  {
  }

  /** Every call of an orderly stream: the answer, and what becomes of the stream in numbers, are what
      the machine says. */
  lemma CallExactly(s: Stream, c: Call)
    requires FlightOk(s) && Orderly(s, c)
    ensures var o, a := Step(s, c), Call(SummaryOf(s), c); SummaryOf(o.s) == a.n && o.code == a.code
  {
    hide FlightOk, EndConfigure, Configured, PrepareBuffer, GetBufferLocked, Taken, ReturnBufferLocked, SummaryOf;
    match c
    case BufferTaken(_, _, _) => AskedExactly(s, c);
    case WaiterWoken(_, _, _) => AskedExactly(s, c);
    case BufferReturned(_) => BackExactly(s, c);
    case Unsubmitted(_) => BackExactly(s, c);
    case ConfigureEnded(newId) => ConfiguredExactly(s, newId);
    case BufferPrepared(alloc) => PreparedExactly(s, alloc);
    case PrepareBegun =>
      Counts(s);
      PrepareBegunExactly(s);
    case Closed => FreeingCalls(s, c);
    case TornDown => FreeingCalls(s, c);
    case ConfigureBegun => BegunExactly(s);
    case ConfigureAborted => AbortedExactly(s);
    case _ => PlainCalls(s, c);
  }

  lemma AskedExactly(s: Stream, c: Call)
    requires FlightOk(s) && Orderly(s, c) && (c.BufferTaken? || c.WaiterWoken?)
    ensures var o, a := Step(s, c), Call(SummaryOf(s), c); SummaryOf(o.s) == a.n && o.code == a.code
  {
    hide FlightOk, PoolOk, Busy, HasFree, GetBufferLocked, Taken, Pooled, FairChoice;
    Counts(s);
    WaitersConfigured(s);
    SameChoice(s);
    if c.BufferTaken? && s.status.CONFIGURED? { TakenExactly(s, c.frame, c.pick, c.alloc); }
    if c.WaiterWoken? && s.parked > 0 { TakenExactly(s.(parked := s.parked - 1), c.frame, c.pick, c.alloc); }
  }

  lemma SameChoice(s: Stream)
    ensures s.parked > 0 ==>
              forall pick, alloc :: FairChoice(s, pick, alloc) ==> FairChoice(s.(parked := s.parked - 1), pick, alloc)
  {
    hide HasFree;
  }

  lemma WaitersConfigured(s: Stream)
    requires FlightOk(s)
    ensures s.parked > 0 ==>
              (s.status.CONFIGURED? || s.status.PREPARE_ACTIVE?) && FlightOk(s.(parked := s.parked - 1))
  {
  }

  /** A handle that is not out comes back: refused if it is none of the pool's or nothing is out;
      else nothing becomes free that was not, but one buffer less counts as pending. */
  lemma StrayReturn(s: Stream, h: int)
    requires FlightOk(s) && h !in Busy(s.buffers)
    ensures var o := ReturnBufferLocked(s, h);
            if s.pending == 0 || h !in s.buffers then o.s == s && o.code == if s.pending == 0 then ENOSYS else EINVAL
            else o.code.OK? && o.s.buffers == s.buffers && o.s.pending == s.pending - 1
  {
    Counts(s);
    assert h in s.buffers ==> s.buffers[h := true] == s.buffers;
  }

  function CallAll(n: Summary, calls: seq<Call>): Summary {
    if calls == [] then n else Call(CallAll(n, calls[..|calls| - 1]), calls[|calls| - 1]).n
  }

  /** Over every orderly run of a new stream the numbers are those of the machine. */
  lemma {:induction false} SummaryExactly(valid: bool, usage: int, count: nat, calls: seq<Call>)
    requires OrderlyRun(NewStream(valid, usage, count), calls)
    ensures var own := Setting(usage, count);
            var n := Summary(if valid then INITIALIZED else ERROR, own, own, Setting(0, 0), 0, 0, 0, 0, 0, false, 0, 0);
            SummaryOf(Run(NewStream(valid, usage, count), calls)) == CallAll(n, calls)
  {
    var s := NewStream(valid, usage, count);
    if calls == [] {
      EmptyPool();
    } else {
      var init := calls[..|calls| - 1];
      hide Orderly, Step, Call, FlightOk, NewStream, SummaryOf;
      forall k | 0 <= k < |init| ensures Orderly(Run(s, init[..k]), init[k]) { assert init[..k] == calls[..k]; }
      SummaryExactly(valid, usage, count, init);
      FlightInvariant(valid, usage, count, init);
      CallExactly(Run(s, init), calls[|calls| - 1]);
    }
  }
}
