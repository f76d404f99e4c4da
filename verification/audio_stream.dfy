/** The audio buffer pool: a recorder takes buffers, fills them and submits them; a loop on
    another thread hands each to the client and frees it, in order, until it is told to end. */
module AudioPool {
  import opened Wrappers

  /** Buffers are named by their index in the pool. */
  datatype Msg = Submit(buffer: int) | Return(buffer: int) | End

  /** `busy` is the map of buffers that are out; `handling` the message the loop is working on and
      `called` whether its callback was made. The recorder holds `held`; it is done once `closed`.
      The history: the buffers submitted, the callbacks made, whether a buffer freed was not busy,
      and whether `GetBuffer` took the exit for want of a buffer. */
  datatype State = State(
    count: nat, busy: map<int, int>, queue: seq<Msg>, handling: Option<Msg>, called: bool, running: bool,
    held: set<int>, closed: bool, submits: seq<int>, callbacks: seq<int>, unknown: bool, exhausted: bool)

  function Initial(count: nat): State {
    State(count, map[], [], None, false, true, {}, false, [], [], false, false)
  }

  /** The first buffer from index i on that is not busy, or `count`. */
  function FirstFree(busy: map<int, int>, count: nat, i: nat): (r: nat)
    requires i <= count
    ensures i <= r <= count && (r < count ==> r !in busy) && forall k :: i <= k < r ==> k in busy
    decreases count - i
  {
    if i == count || i !in busy then i else FirstFree(busy, count, i + 1)
  }

  /** `GetBuffer`, once it does not wait: nothing happens while every buffer is busy. */
  function GetBuffer(s: State): State {
    if |s.busy| == s.count then s
    else
      var i := FirstFree(s.busy, s.count, 0);
      if i < s.count then s.(busy := s.busy[i := i], held := s.held + {i}) else s.(exhausted := true)
  }

  function SubmitBuffer(s: State, b: int): State {
    s.(queue := s.queue + [Submit(b)], held := s.held - {b}, submits := s.submits + [b])
  }

  function ReturnBuffer(s: State, b: int): State {
    s.(queue := s.queue + [Return(b)], held := s.held - {b})
  }

  /** The destructor tells the loop to end. */
  function Close(s: State): State {
    s.(queue := s.queue + [End], closed := true)
  }

  function Pop(s: State): State {
    if s.handling.Some? || s.queue == [] then s
    else s.(handling := Some(s.queue[0]), called := false, queue := s.queue[1..])
  }

  function CallBack(s: State): State {
    if s.handling.Some? && s.handling.value.Submit? && !s.called
    then s.(called := true, callbacks := s.callbacks + [s.handling.value.buffer]) else s
  }

  /** The end of a turn of the loop. */
  function Finish(s: State): State {
    if s.handling.None? || (s.handling.value.Submit? && !s.called) then s
    else
      match s.handling.value
      case End => s.(handling := None, running := false)
      case Submit(b) => s.(handling := None, busy := s.busy - {b}, unknown := s.unknown || b !in s.busy)
      case Return(b) => s.(handling := None, busy := s.busy - {b}, unknown := s.unknown || b !in s.busy)
  }

  datatype Event = Got | Submitted(b: int) | Returned(b: int) | Closed | Popped | CalledBack | Finished

  function Step(s: State, e: Event): State {
    match e
    case Got => GetBuffer(s)
    case Submitted(b) => SubmitBuffer(s, b)
    case Returned(b) => ReturnBuffer(s, b)
    case Closed => Close(s)
    case Popped => Pop(s)
    case CalledBack => CallBack(s)
    case Finished => Finish(s)
  }

  function Run(s: State, events: seq<Event>): State {
    if events == [] then s else Step(Run(s, events[..|events| - 1]), events[|events| - 1])
  }

  /** The recorder gives back only what it holds, and nothing happens on its side after the end. */
  predicate Fair(s: State, e: Event) {
    match e
    case Got => !s.closed
    case Submitted(b) => b in s.held && !s.closed
    case Returned(b) => b in s.held && !s.closed
    case Closed => !s.closed
    case _ => true
  }

  predicate FairRun(s: State, events: seq<Event>) {
    forall k :: 0 <= k < |events| ==> Fair(Run(s, events[..k]), events[k])
  }

  /** The loop has left: it was told to end and found the queue empty. */
  predicate Left(s: State) { !s.running && s.queue == [] && s.handling.None? }

  // ----- ownership

  function BufferOf(m: Msg): seq<int> { if m.End? then [] else [m.buffer] }

  function Buffers(q: seq<Msg>): seq<int> {
    if q == [] then [] else Buffers(q[..|q| - 1]) + BufferOf(q[|q| - 1])
  }

  function Submits(q: seq<Msg>): seq<int> {
    if q == [] then [] else Submits(q[..|q| - 1]) + if q[|q| - 1].Submit? then [q[|q| - 1].buffer] else []
  }

  lemma {:induction false} QueueFront(m: Msg, q: seq<Msg>)
    ensures Buffers([m] + q) == BufferOf(m) + Buffers(q)
    ensures Submits([m] + q) == (if m.Submit? then [m.buffer] else []) + Submits(q)
  {
    if q == [] {
      assert [m] + q == [m];
    } else {
      assert ([m] + q)[..|[m] + q| - 1] == [m] + q[..|q| - 1];
      QueueFront(m, q[..|q| - 1]);
    }
  }

  lemma QueueBack(q: seq<Msg>, m: Msg)
    ensures Buffers(q + [m]) == Buffers(q) + BufferOf(m)
    ensures Submits(q + [m]) == Submits(q) + if m.Submit? then [m.buffer] else []
  {
    assert (q + [m])[..|q|] == q;
  }

  /** The buffers in the hands of the loop, then those queued, in order. */
  function Pending(s: State): seq<int> {
    (if s.handling.Some? then BufferOf(s.handling.value) else []) + Buffers(s.queue)
  }

  /** The submitted buffers whose callback is to come, in order. */
  function Uncalled(s: State): seq<int> {
    (if s.handling.Some? && s.handling.value.Submit? && !s.called then [s.handling.value.buffer] else [])
        + Submits(s.queue)
  }

  predicate Distinct(a: seq<int>) {
    forall i, j :: 0 <= i < j < |a| ==> a[i] != a[j]
  }

  /** Every buffer is free, or held by the recorder, or once among those pending. */
  ghost predicate Owned(s: State) {
    && Distinct(Pending(s))
    && (forall b :: b in s.busy <==> b in s.held || b in Pending(s))
    && (forall b :: b in s.held ==> b !in Pending(s))
    && (forall b :: b in s.busy ==> 0 <= b < s.count && s.busy[b] == b)
  }

  /** END is sent once, last, and stops the loop. */
  predicate EndsLast(s: State) {
    && (forall k :: 0 <= k < |s.queue| && s.queue[k].End? ==> k == |s.queue| - 1 && s.closed)
    && (!s.running ==> s.closed && s.queue == [] && s.handling.None?)
    && (s.handling == Some(End) ==> s.closed && s.queue == [])
    && (s.closed && s.running && s.handling != Some(End) ==> s.queue != [] && s.queue[|s.queue| - 1].End?)
  }

  ghost predicate PoolOk(s: State) {
    Owned(s) && EndsLast(s) && s.callbacks + Uncalled(s) == s.submits && !s.unknown && !s.exhausted
  }

  function Indices(count: nat): (r: set<int>)
    ensures |r| == count && forall b :: b in r <==> 0 <= b < count
  {
    if count == 0 then {} else Indices(count - 1) + {count - 1}
  }

  lemma Pigeonhole(busy: map<int, int>, count: nat)
    requires forall b :: b in busy ==> 0 <= b < count
    ensures |busy| <= count && (|busy| == count <==> FirstFree(busy, count, 0) == count)
  {
    var all := Indices(count);
    assert busy.Keys <= all;
    SubsetSize(busy.Keys, all);
    assert |busy| == |busy.Keys|;
    if FirstFree(busy, count, 0) == count { assert busy.Keys == all; }
  }

  lemma SubsetSize(a: set<int>, b: set<int>)
    requires a <= b
    ensures |a| <= |b| && (|a| == |b| ==> a == b)
  {
    assert b == a + (b - a);
    assert |b| == |a| + |b - a|;
  }

  lemma GotOk(s: State)
    requires PoolOk(s)
    ensures PoolOk(GetBuffer(s))
  {
    Pigeonhole(s.busy, s.count);
    hide Buffers, Submits;
  }

  lemma PushedOk(s: State, m: Msg)
    requires PoolOk(s) && !s.closed && !m.End? && m.buffer in s.held
    ensures PoolOk(if m.Submit? then SubmitBuffer(s, m.buffer) else ReturnBuffer(s, m.buffer))
  {
    QueueBack(s.queue, m);
    hide Buffers, Submits;
    var t := if m.Submit? then SubmitBuffer(s, m.buffer) else ReturnBuffer(s, m.buffer);
    assert Pending(t) == Pending(s) + [m.buffer];
    assert Uncalled(t) == Uncalled(s) + if m.Submit? then [m.buffer] else [];
  }

  lemma ClosedOk(s: State)
    requires PoolOk(s) && !s.closed
    ensures PoolOk(Close(s))
  {
    QueueBack(s.queue, End);
    hide Buffers, Submits;
    assert Pending(Close(s)) == Pending(s) && Uncalled(Close(s)) == Uncalled(s);
  }

  lemma PoppedEnds(s: State)
    requires EndsLast(s)
    ensures EndsLast(Pop(s))
  {
  }

  lemma FinishedEnds(s: State)
    requires EndsLast(s)
    ensures EndsLast(Finish(s))
  {
  }

  lemma PoppedOk(s: State)
    requires PoolOk(s)
    ensures PoolOk(Pop(s))
  {
    if s.handling.None? && s.queue != [] {
      assert s.queue == [s.queue[0]] + s.queue[1..];
      QueueFront(s.queue[0], s.queue[1..]);
      hide Buffers, Submits;
      assert Pending(Pop(s)) == Pending(s) && Uncalled(Pop(s)) == Uncalled(s);
      PoppedEnds(s);
      hide Pending, Uncalled, Distinct, EndsLast, Owned;
      SameOwned(s, Pop(s));
    }
  }

  lemma CalledOk(s: State)
    requires PoolOk(s)
    ensures PoolOk(CallBack(s))
  {
    hide Buffers, Submits;
    if s.handling.Some? && s.handling.value.Submit? && !s.called {
      assert Uncalled(s) == [s.handling.value.buffer] + Uncalled(CallBack(s));
    }
  }

  /** Freeing the first pending buffer, which is busy, leaves every buffer in one place. */
  lemma FreedOwned(s: State, t: State, b: int)
    requires Owned(s) && Pending(s) == [b] + Pending(t)
    requires t.busy == s.busy - {b} && t.held == s.held && t.count == s.count
    ensures Owned(t) && b in s.busy
  {
    hide Pending;
    var p, q := Pending(s), Pending(t);
    assert p[0] == b && p[1..] == q;
    assert forall i :: 0 <= i < |q| ==> p[i + 1] == q[i];
    assert forall c :: c in q <==> c in p && c != b;
  }

  lemma FinishedOk(s: State)
    requires PoolOk(s)
    ensures PoolOk(Finish(s))
  {
    hide Buffers, Submits, EndsLast, Owned, Distinct;
    FinishedEnds(s);
    if s.handling.Some? && !(s.handling.value.Submit? && !s.called) {
      var t := Finish(s);
      assert Pending(t) == [] + Buffers(s.queue) == Buffers(s.queue);
      assert Uncalled(t) == Uncalled(s);
      if s.handling.value.End? {
        assert Pending(t) == Pending(s);
        SameOwned(s, t);
      } else {
        FreedOwned(s, t, s.handling.value.buffer);
      }
    }
  }

  lemma SameOwned(s: State, t: State)
    requires Owned(s) && Pending(t) == Pending(s) && t.busy == s.busy && t.held == s.held && t.count == s.count
    ensures Owned(t)
  {
  }

  lemma StepOk(s: State, e: Event)
    requires PoolOk(s) && Fair(s, e)
    ensures PoolOk(Step(s, e))
  {
    match e
    case Got => GotOk(s);
    case Submitted(b) => PushedOk(s, Submit(b));
    case Returned(b) => PushedOk(s, Return(b));
    case Closed => ClosedOk(s);
    case Popped => PoppedOk(s);
    case CalledBack => CalledOk(s);
    case Finished => FinishedOk(s);
  }

  /** Over every run, however the recorder and the loop interleave: each buffer is in one place,
      no wanted buffer is ever missing, and callbacks are made in the order of submission. */
  lemma {:induction false} PoolInvariant(count: nat, events: seq<Event>)
    requires FairRun(Initial(count), events)
    ensures PoolOk(Run(Initial(count), events))
  {
    if events != [] {
      var init := events[..|events| - 1];
      forall k | 0 <= k < |init|
        ensures Fair(Run(Initial(count), init[..k]), init[k])
      {
        assert init[..k] == events[..k];
      }
      hide PoolOk, Fair;
      PoolInvariant(count, init);
      StepOk(Run(Initial(count), init), events[|events| - 1]);
    }
  }

  lemma LeftMeans(s: State)
    requires PoolOk(s) && Left(s)
    ensures s.callbacks == s.submits && s.busy.Keys == s.held && (s.busy == map[] <==> s.held == {})
  {
    assert Uncalled(s) == [] && Pending(s) == [];
    assert s.callbacks + [] == s.callbacks;
    assert forall b :: b in s.busy.Keys <==> b in s.held;
    assert s.busy.Keys == s.held;
    assert s.busy == map[] <==> s.busy.Keys == {};
  }

  /** When the loop has left, every submitted buffer got its one callback, in order, and exactly the
      buffers the recorder kept are still marked busy. */
  lemma AllDelivered(count: nat, events: seq<Event>)
    requires FairRun(Initial(count), events) && Left(Run(Initial(count), events))
    ensures var s := Run(Initial(count), events);
            && s.callbacks == s.submits
            && s.busy.Keys == s.held
            && (s.busy == map[] <==> s.held == {})
  {
    hide Run, PoolOk, FairRun, Left;
    PoolInvariant(count, events);
    LeftMeans(Run(Initial(count), events));
  }

  /** From any state, reachable or not, the exit of `GetBuffer` for want of a buffer is taken exactly
      if the map's size is not the pool's, yet every buffer is busy; and finishing a message notes
      exactly if its buffer was not busy. */
  lemma ErrorsNoted(s: State)
    ensures GetBuffer(s).exhausted <==>
              s.exhausted || (|s.busy| != s.count && forall b :: 0 <= b < s.count ==> b in s.busy)
    ensures Finish(s).unknown <==>
              || s.unknown
              || (s.handling.Some? && !s.handling.value.End? && s.handling.value.buffer !in s.busy
                 && (s.handling.value.Submit? ==> s.called))
  {
    var r := FirstFree(s.busy, s.count, 0);
    assert (forall b :: 0 <= b < s.count ==> b in s.busy) <==> r == s.count;
  }

  /** The exit of `GetBuffer` for want of a buffer is never taken, and what it hands out is the first
      free buffer. */
  lemma GetBufferFindsOne(count: nat, events: seq<Event>)
    requires FairRun(Initial(count), events)
    ensures var s := Run(Initial(count), events);
            var t := GetBuffer(s);
            && !t.exhausted
            && (|s.busy| == s.count || exists b ::
                  && 0 <= b < s.count && b !in s.held && b !in Pending(s)
                  && (forall k :: 0 <= k < b ==> k in s.held || k in Pending(s))
                  && t == s.(busy := s.busy[b := b], held := s.held + {b}))
  {
    PoolInvariant(count, events);
    var s := Run(Initial(count), events);
    Pigeonhole(s.busy, s.count);
    hide Run, Buffers;
    var b := FirstFree(s.busy, s.count, 0);
    if |s.busy| != count {
      assert b !in s.held && b !in Pending(s);
      assert forall k :: 0 <= k < b ==> k in s.busy;
    }
  }

  /** One whole turn of the loop. */
  function Turn(s: State): State { Finish(CallBack(Pop(s))) }

  lemma TurnOk(s: State)
    requires PoolOk(s) && s.handling.None? && s.queue != []
    ensures PoolOk(Turn(s)) && Turn(s).handling.None? && Turn(s).queue == s.queue[1..]
    ensures Turn(s).(called := false) ==
            match s.queue[0]
            case End => s.(queue := s.queue[1..], running := false, called := false)
            case Submit(b) =>
              s.(queue := s.queue[1..], busy := s.busy - {b}, callbacks := s.callbacks + [b],
                 unknown := false, called := false)
            case Return(b) => s.(queue := s.queue[1..], busy := s.busy - {b}, unknown := false, called := false)
    ensures !s.queue[0].End? ==> s.queue[0].buffer in s.busy
  {
    PoppedOk(s);
    CalledOk(Pop(s));
    FinishedOk(CallBack(Pop(s)));
    hide PoolOk;
    assert !Turn(s).unknown && !s.unknown by { NoneUnknown(s); NoneUnknown(Turn(s)); }
  }

  /** Once END was sent the loop finds a message as long as it runs. */
  lemma QueueNotEmpty(s: State)
    requires PoolOk(s) && s.handling.None? && s.closed && (s.running || s.queue != [])
    ensures s.queue != []
  {
  }

  lemma NoneUnknown(s: State)
    requires PoolOk(s)
    ensures !s.unknown
  {
  }

  lemma CalledIsIdle(s: State)
    requires PoolOk(s) && s.handling.None?
    ensures PoolOk(s.(called := false))
  {
    hide Buffers, Submits;
    assert Pending(s.(called := false)) == Pending(s) && Uncalled(s.(called := false)) == Uncalled(s);
  }
}

/** The audio buffer pool in its own form. */
module AudioStreaming {
  import opened Wrappers
  import opened AudioPool

  class AudioStream {
    const buffersCount: nat
    var buffersMap: map<int, int>
    var msg: seq<Msg>
    ghost var held: set<int>
    ghost var submits: seq<int>
    /** The callbacks made, in order. */
    ghost var callbacks: seq<int>
    ghost var unknown: bool
    ghost var closed: bool

    /** Between two turns of the loop. */
    ghost function Model(): State
      reads this
    {
      State(buffersCount, buffersMap, msg, None, false, true, held, closed, submits, callbacks, unknown, false)
    }

    constructor (count: nat)
      ensures Model() == Initial(count) && PoolOk(Model()) && !closed
    {
      buffersCount, buffersMap, msg := count, map[], [];
      held, submits, callbacks, unknown, closed := {}, [], [], false, false;
    }

    /** The search of `GetBuffer`; -1 stands for its error exit, which is never taken. */
    method GetBuffer() returns (buffer: int)
      requires |buffersMap| != buffersCount
      modifies this`buffersMap, this`held
      ensures buffer >= 0 ==>
                Model() == AudioPool.GetBuffer(old(Model())) && buffer in held && buffer !in old(buffersMap)
      ensures buffer < 0 ==> unchanged(this) && AudioPool.GetBuffer(Model()).exhausted
      ensures old(PoolOk(Model())) ==>
                PoolOk(Model()) && buffer >= 0 && buffer !in old(held) && buffer !in old(Pending(Model()))
    {
      if PoolOk(Model()) {
        Pigeonhole(buffersMap, buffersCount);
        GotOk(Model());
      }
      for i := 0 to buffersCount
        invariant FirstFree(buffersMap, buffersCount, 0) == FirstFree(buffersMap, buffersCount, i)
      {
        if i !in buffersMap {
          buffersMap := buffersMap[i := i];
          held := held + {i};
          return i;
        }
      }
      return -1;
    }

    /** A buffer the recorder holds moves to the end of those pending, and its callback to the end
        of those to come. */
    method SubmitBuffer(buffer: int)
      modifies this`msg, this`held, this`submits
      ensures Model() == AudioPool.SubmitBuffer(old(Model()), buffer)
      ensures Pending(Model()) == old(Pending(Model())) + [buffer]
              && Uncalled(Model()) == old(Uncalled(Model())) + [buffer]
      ensures old(PoolOk(Model()) && !closed && buffer in held) ==> PoolOk(Model())
    {
      if PoolOk(Model()) && !closed && buffer in held { PushedOk(Model(), Submit(buffer)); }
      QueueBack(msg, Submit(buffer));
      hide PoolOk, Buffers, Submits;
      msg := msg + [Submit(buffer)];
      held := held - {buffer};
      submits := submits + [buffer];
    }

    /** A buffer the recorder holds moves to the end of those pending, without a callback. */
    method ReturnBuffer(buffer: int)
      modifies this`msg, this`held
      ensures Model() == AudioPool.ReturnBuffer(old(Model()), buffer)
      ensures Pending(Model()) == old(Pending(Model())) + [buffer] && Uncalled(Model()) == old(Uncalled(Model()))
      ensures old(PoolOk(Model()) && !closed && buffer in held) ==> PoolOk(Model())
    {
      if PoolOk(Model()) && !closed && buffer in held { PushedOk(Model(), Return(buffer)); }
      QueueBack(msg, Return(buffer));
      hide PoolOk, Buffers, Submits;
      msg := msg + [Return(buffer)];
      held := held - {buffer};
    }

    /** The first thing the destructor does: it sends END. */
    method SendEnd()
      modifies this`msg, this`closed
      ensures Model() == Close(old(Model())) && closed
      ensures old(PoolOk(Model()) && !closed) ==> PoolOk(Model())
    {
      if PoolOk(Model()) && !closed { ClosedOk(Model()); }
      hide PoolOk;
      msg := msg + [End];
      closed := true;
    }

    /** The destructor: END is sent and the loop is waited for. After any use of the pool every
        submission has got its callback, in order, and only what the recorder kept is busy. */
    method Destroy()
      requires PoolOk(Model()) && !closed
      modifies this`buffersMap, this`msg, this`callbacks, this`unknown, this`closed
      ensures msg == [] && callbacks == submits && !unknown && buffersMap.Keys == held
    {
      SendEnd();
      StreamLoopHandler();
    }

    /** The loop, from the moment the destructor has sent END until it leaves: it calls back and
        frees everything still queued, in order. */
    method StreamLoopHandler()
      requires PoolOk(Model()) && closed
      modifies this`buffersMap, this`msg, this`callbacks, this`unknown
      ensures msg == [] && callbacks == submits && !unknown && buffersMap.Keys == held
    {
      var running := true;
      while running || |msg| > 0
        invariant PoolOk(Model().(running := running)) && closed
        decreases |msg| + if running then 1 else 0
      {
        QueueNotEmpty(Model().(running := running));
        running := HandleMessage(running);
      }
      LeftMeans(Model().(running := running));
    }

    /** One turn of the loop. */
    method HandleMessage(wasRunning: bool) returns (running: bool)
      requires PoolOk(Model().(running := wasRunning)) && msg != []
      modifies this`buffersMap, this`msg, this`callbacks, this`unknown
      ensures PoolOk(Model().(running := running)) && msg == old(msg[1..])
      ensures Model().(running := running) == Turn(old(Model()).(running := wasRunning)).(called := false)
    {
      TurnOk(Model().(running := wasRunning));
      CalledIsIdle(Turn(Model().(running := wasRunning)));
      hide PoolOk, Turn;
      running := wasRunning;
      var m := msg[0];
      msg := msg[1..];
      match m {
        case Submit(buffer) =>
          callbacks := callbacks + [buffer];
          Erase(buffer);
        case Return(buffer) =>
          Erase(buffer);
        case End =>
          running := false;
      }
    }

    method Erase(buffer: int)
      modifies this`buffersMap, this`unknown
      ensures buffersMap == old(buffersMap) - {buffer} && unknown == (old(unknown) || buffer !in old(buffersMap))
    {
      if buffer in buffersMap {
        buffersMap := buffersMap - {buffer};
      } else {
        unknown := true;
      }
    }
  }
}
