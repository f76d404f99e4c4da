/** What a submission does to the buffers of its streams: it takes one from each, and gives back
    those it took when it fails, if it still knows them. */
module RequestSubmission {
  import opened Wrappers
  import opened StreamPool

  /** What a stream is offered when a buffer is taken: a free buffer, the allocator's answer. */
  datatype Choice = Choice(pick: int, alloc: Option<int>)

  /** `GetBuffer` in one step: a stream with every buffer out gets none back in time. */
  function TakeOne(s: Stream, frame: int, c: Choice): Outcome {
    var o := GetBuffer(s, frame, c.pick, c.alloc);
    if o.code.WAITING? then Refused(Step(o.s, WaiterTimedOut).s, WAITING) else o
  }

  /** The streams after the loop, and how many gave a buffer. */
  datatype Taken = Taken(streams: seq<Stream>, count: nat)

  function TakeFrom(streams: seq<Stream>, frame: int, choices: seq<Choice>, i: nat): (t: Taken)
    requires i <= |streams| == |choices|
    ensures |t.streams| == |streams| && i <= t.count <= |streams|
    decreases |streams| - i
  {
    if i == |streams| then Taken(streams, i)
    else
      var o := TakeOne(streams[i], frame, choices[i]);
      if !o.code.OK? then Taken(streams[i := o.s], i) else TakeFrom(streams[i := o.s], frame, choices, i + 1)
  }

  /** `HandleErrorRequest` for a request holding `count` output buffers. */
  function GiveBack(streams: seq<Stream>, frame: int, count: nat): (r: seq<Stream>)
    requires count <= |streams|
    ensures |r| == |streams|
  {
    if count == 0 then streams
    else
      var r := GiveBack(streams, frame, count - 1);
      r[count - 1 := ReturnUnsubmitted(r[count - 1], frame).s]
  }

  /** The output buffers are put into the request only once every stream gave one. */
  function Submit(streams: seq<Stream>, frame: int, choices: seq<Choice>, accepted: bool): (r: seq<Stream>)
    requires |streams| == |choices|
    ensures |r| == |streams|
  {
    var t := TakeFrom(streams, frame, choices, 0);
    if t.count < |streams| then GiveBack(t.streams, frame, 0)
    else if accepted then t.streams
    else GiveBack(t.streams, frame, |streams|)
  }

  ghost predicate Ready(streams: seq<Stream>, frame: int, choices: seq<Choice>) {
    && |streams| == |choices|
    && forall i :: 0 <= i < |streams| ==>
         FlightOk(streams[i]) && frame !in streams[i].inFlight
             && FairChoice(streams[i], choices[i].pick, choices[i].alloc)
  }

  /** The stream `t` holds a buffer for the frame that `s` did not. */
  ghost predicate Holds(s: Stream, t: Stream, frame: int) {
    FlightOk(t) && frame in t.inFlight && t.pending == s.pending + 1
        && Without(t.inFlight, t.inFlight[frame]) == s.inFlight
  }

  /** `Holds`, with the handle that went out. */
  ghost predicate Lent(s: Stream, t: Stream, frame: int) {
    && Holds(s, t, frame)
    && Busy(t.buffers) == Busy(s.buffers) + {t.inFlight[frame]}
    && t.inFlight[frame] !in Busy(s.buffers)
  }

  /** The same buffers are out of both, for the same frames. */
  ghost predicate SameOut(s: Stream, t: Stream) {
    FlightOk(t) && t.inFlight == s.inFlight && t.pending == s.pending && Busy(t.buffers) == Busy(s.buffers)
  }

  lemma FreshHandle(s: Stream, frame: int, h: int)
    requires FlightOk(s) && frame !in s.inFlight && h !in Busy(s.buffers)
    ensures Without(s.inFlight[frame := h], h) == s.inFlight
  {
    FlightIsPool(s);
    hide FlightOk, Busy;
    assert forall f :: f in s.inFlight ==> s.inFlight[f] != h;
    assert Without(s.inFlight[frame := h], h) == s.inFlight;
  }

  /** One stream: a buffer is taken, or nothing changes. */
  lemma TakeOneEffect(s: Stream, frame: int, c: Choice)
    requires FlightOk(s) && frame !in s.inFlight && FairChoice(s, c.pick, c.alloc)
    ensures var o := TakeOne(s, frame, c);
            if o.code.OK? then Holds(s, o.s, frame) && Busy(o.s.buffers) == Busy(s.buffers) + {o.s.inFlight[frame]}
                && o.s.inFlight[frame] !in Busy(s.buffers)
            else o.s == s
  {
    hide GetBufferLocked, Busy, FlightOk, FairChoice, Without;
    if s.status.CONFIGURED? && s.pending != s.total {
      FlightIsPool(s);
      LockedExactly(s, frame, c.pick, c.alloc);
      TakeEffect(s, frame, c.pick, c.alloc);
      TakeFlight(s, frame, c.pick, c.alloc);
      var o := GetBufferLocked(s, frame, c.pick, c.alloc);
      if o.code.OK? { FreshHandle(s, frame, o.handle); }
    }
  }

  lemma FlightIsPool(s: Stream)
    requires FlightOk(s)
    ensures PoolOk(s) && s.pending == |Busy(s.buffers)|
    ensures forall f :: f in s.inFlight ==> s.inFlight[f] in Busy(s.buffers)
  {
  }

  /** Giving back the buffer just taken restores what is out. */
  lemma GiveOneBack(s: Stream, t: Stream, frame: int)
    requires FlightOk(s) && Holds(s, t, frame)
    requires Busy(t.buffers) == Busy(s.buffers) + {t.inFlight[frame]} && t.inFlight[frame] !in Busy(s.buffers)
    ensures SameOut(s, ReturnUnsubmitted(t, frame).s)
  {
    var h := t.inFlight[frame];
    assert Busy(s.buffers) + {h} - {h} == Busy(s.buffers);
    FlightIsPool(s);
    ReturnedIsNotBusy(t, frame);
    hide Busy, FlightOk, Without, ReturnUnsubmitted;
    UnsubmittedFlight(t, frame);
    FlightIsPool(ReturnUnsubmitted(t, frame).s);
  }

  lemma ReturnedIsNotBusy(t: Stream, frame: int)
    requires FlightOk(t) && frame in t.inFlight
    ensures Busy(ReturnUnsubmitted(t, frame).s.buffers) == Busy(t.buffers) - {t.inFlight[frame]}
  {
    var h, t1 := t.inFlight[frame], t.(frames := t.frames - {frame});
    FlightIsPool(t);
    hide Busy, FlightOk, Without, ReturnBufferLocked, PoolOk;
    assert PoolOk(t1) by { FramesFree(t, t.frames - {frame}); }
    assert t.frames[frame] == h && frame in t.frames by { FrameOf(t, frame); }
    ReturnEffect(t1, h);
  }

  lemma FramesFree(s: Stream, frames: map<int, int>)
    requires PoolOk(s)
    ensures PoolOk(s.(frames := frames))
  {
  }

  lemma FrameOf(t: Stream, frame: int)
    requires FlightOk(t) && frame in t.inFlight
    ensures frame in t.frames && t.frames[frame] == t.inFlight[frame]
  {
  }

  /** The loop: the first `count` streams give a buffer, the others are as they were. */
  lemma {:induction false} TakeFromEffect(streams: seq<Stream>, frame: int, choices: seq<Choice>, i: nat)
    requires i <= |streams| && Ready(streams, frame, choices)
    ensures var t := TakeFrom(streams, frame, choices, i);
            && (forall k :: i <= k < t.count ==> Lent(streams[k], t.streams[k], frame))
            && (forall k :: 0 <= k < |streams| && !(i <= k < t.count) ==> t.streams[k] == streams[k])
    decreases |streams| - i
  {
    if i < |streams| {
      TakeOneEffect(streams[i], frame, choices[i]);
      var o := TakeOne(streams[i], frame, choices[i]);
      if o.code.OK? {
        assert Lent(streams[i], o.s, frame);
        hide Lent, TakeOne;
        TailReady(streams, frame, choices, i, o.s);
      }
    }
  }

  /** The loop from i + 1 on does not look at the streams before. */
  lemma {:induction false} TailReady(streams: seq<Stream>, frame: int, choices: seq<Choice>, i: nat, s: Stream)
    requires i < |streams| && Ready(streams, frame, choices)
    ensures var before, after := TakeFrom(streams, frame, choices, i + 1),
            TakeFrom(streams[i := s], frame, choices, i + 1);
            && after == Taken(before.streams[i := s], before.count)
            && (forall k :: i + 1 <= k < before.count ==> Lent(streams[k], before.streams[k], frame))
            && (forall k :: 0 <= k < |streams| && !(i + 1 <= k < before.count) ==> before.streams[k] == streams[k])
    decreases |streams| - i, 0
  {
    TakeFromEffect(streams, frame, choices, i + 1);
    hide Lent;
    TakeFromFrame(streams, frame, choices, i + 1, i, s);
  }

  lemma {:induction false} TakeFromFrame(streams: seq<Stream>, frame: int, choices: seq<Choice>, i: nat, j: nat,
      s: Stream)
    requires j < i <= |streams| == |choices|
    ensures var t := TakeFrom(streams, frame, choices, i);
            TakeFrom(streams[j := s], frame, choices, i) == Taken(t.streams[j := s], t.count)
    decreases |streams| - i
  {
    if i < |streams| {
      var o := TakeOne(streams[i], frame, choices[i]);
      assert streams[j := s][i := o.s] == streams[i := o.s][j := s];
      hide TakeOne;
      if o.code.OK? { TakeFromFrame(streams[i := o.s], frame, choices, i + 1, j, s); }
    }
  }

  lemma LentGivenBack(s: Stream, t: Stream, frame: int)
    requires FlightOk(s) && Lent(s, t, frame)
    ensures SameOut(s, ReturnUnsubmitted(t, frame).s)
  {
    hide SameOut, FlightOk, Holds, ReturnUnsubmitted;
    GiveOneBack(s, t, frame);
  }

  lemma {:induction false} GiveBackEffect(streams: seq<Stream>, lent: seq<Stream>, frame: int, count: nat)
    requires count <= |streams| == |lent|
    requires forall k :: 0 <= k < |streams| ==> FlightOk(streams[k]) && Lent(streams[k], lent[k], frame)
    ensures var r := GiveBack(lent, frame, count);
            && (forall k :: 0 <= k < count ==> SameOut(streams[k], r[k]))
            && (forall k :: count <= k < |streams| ==> r[k] == lent[k])
  {
    hide SameOut, FlightOk, Lent, ReturnUnsubmitted;
    if count > 0 {
      GiveBackEffect(streams, lent, frame, count - 1);
      LentGivenBack(streams[count - 1], lent[count - 1], frame);
    }
  }

  /** After an accepted submission every stream holds a buffer for the frame; one that fails
      after all streams gave theirs leaves out what was out before; one that fails on the way
      leaves the buffers of the first `count` streams out, with no one to return them. So a
      failed submission returns everything exactly when it fails at the first stream or after
      the last. */
  lemma SubmitAccountsForBuffers(streams: seq<Stream>, frame: int, choices: seq<Choice>, accepted: bool)
    requires Ready(streams, frame, choices)
    ensures var count := TakeFrom(streams, frame, choices, 0).count;
            var r := Submit(streams, frame, choices, accepted);
            && (count == |streams| && accepted ==> forall k :: 0 <= k < |r| ==> Lent(streams[k], r[k], frame))
            && (count == |streams| && !accepted ==> forall k :: 0 <= k < |r| ==> SameOut(streams[k], r[k]))
            && (count < |streams| ==>
                  && (forall k :: 0 <= k < count ==> Lent(streams[k], r[k], frame))
                  && (forall k :: count <= k < |r| ==> r[k] == streams[k]))
  {
    hide Lent, SameOut;
    TakeFromEffect(streams, frame, choices, 0);
    var t := TakeFrom(streams, frame, choices, 0);
    if t.count == |streams| && !accepted { GiveBackEffect(streams, t.streams, frame, |streams|); }
  }

  // ----- which failures lose buffers

  /** What a caller can tell beforehand: the stream is configured, not all its buffers are out, and
      one is free or there is room for another that the allocator grants. */
  predicate Gives(s: Stream, c: Choice) {
    && s.status.CONFIGURED? && s.pending < s.total
    && (HasFree(s.buffers) || (s.hw < s.total && c.alloc.Some?))
  }

  lemma TakesExactlyIfGives(s: Stream, frame: int, c: Choice)
    requires FlightOk(s) && FairChoice(s, c.pick, c.alloc)
    ensures TakeOne(s, frame, c).code.OK? <==> Gives(s, c)
    ensures TakeOne(s, frame, c).code.WAITING? <==> s.status.CONFIGURED? && s.pending == s.total
  {
    hide FairChoice, HasFree, GetBufferLocked, FlightOk, PoolOk;
    FlightIsPool(s);
    if s.status.CONFIGURED? {
      ConfiguredFits(s);
      LockedExactly(s, frame, c.pick, c.alloc);
    }
  }

  lemma ConfiguredFits(s: Stream)
    requires FlightOk(s) && s.status.CONFIGURED?
    ensures s.pending <= s.total
  {
    BusyFits(s);
  }

  /** The loop stops at the first stream that does not give. */
  lemma {:induction false} StopsAtFirst(streams: seq<Stream>, frame: int, choices: seq<Choice>, i: nat)
    requires i <= |streams| && Ready(streams, frame, choices)
    ensures var n := TakeFrom(streams, frame, choices, i).count;
            && (forall k :: i <= k < n ==> Gives(streams[k], choices[k]))
            && (n < |streams| ==> !Gives(streams[n], choices[n]))
    decreases |streams| - i
  {
    hide TakeOne, Gives, FlightOk, FairChoice;
    if i < |streams| {
      TakesExactlyIfGives(streams[i], frame, choices[i]);
      var o := TakeOne(streams[i], frame, choices[i]);
      if o.code.OK? {
        StopsAtFirst(streams, frame, choices, i + 1);
        TakeFromFrame(streams, frame, choices, i + 1, i, o.s);
      }
    }
  }

  /** A submission that fails, because some stream does not give or because the HAL or the table
      refuses it, leaves out exactly what was out before if and only if the first stream does
      not give or all do. */
  lemma FailureReturnsAllExactly(streams: seq<Stream>, frame: int, choices: seq<Choice>, accepted: bool)
    requires Ready(streams, frame, choices) && streams != []
    requires !accepted || exists k :: 0 <= k < |streams| && !Gives(streams[k], choices[k])
    ensures var r := Submit(streams, frame, choices, accepted);
            (forall k :: 0 <= k < |r| ==> SameOut(streams[k], r[k]))
            <==> !Gives(streams[0], choices[0]) || forall k :: 0 <= k < |streams| ==> Gives(streams[k], choices[k])
  {
    SubmitAccountsForBuffers(streams, frame, choices, accepted);
    StopsAtFirst(streams, frame, choices, 0);
    var count := TakeFrom(streams, frame, choices, 0).count;
    var r := Submit(streams, frame, choices, accepted);
    hide Submit, TakeFrom, FlightOk, Gives;
    if 0 < count < |streams| {
      assert Lent(streams[0], r[0], frame);
      assert !SameOut(streams[0], r[0]);
    }
  }

  /** The buffers it then leaves out stay out over every later run in which no one else gives them
      back: the submission itself never will. */
  lemma LostBuffersStayOut(streams: seq<Stream>, frame: int, choices: seq<Choice>, accepted: bool, k: nat,
      calls: seq<Call>)
    requires Ready(streams, frame, choices) && k < TakeFrom(streams, frame, choices, 0).count < |streams|
    requires var s := Submit(streams, frame, choices, accepted)[k]; OrderlyRun(s, calls) && KeptOut(s, calls, frame)
    ensures var s := Submit(streams, frame, choices, accepted)[k];
            var t := Run(s, calls);
            && frame in s.inFlight && frame in t.inFlight && t.inFlight[frame] == s.inFlight[frame] && t.pending > 0
  {
    SubmitAccountsForBuffers(streams, frame, choices, accepted);
    var s := Submit(streams, frame, choices, accepted)[k];
    assert Lent(streams[k], s, frame);
    hide FlightOk, Submit, TakeFrom;
    StaysOut(s, calls, frame);
    OutIsPending(Run(s, calls), frame);
  }

  /** A stream configured with room for one buffer, and nothing allocated. */
  const CONFIGURED_STREAM: Stream := Run(NewStream(true, 0, 1), [ConfigureBegun, ConfigureEnded(1)])

  lemma FreshPool(s: Stream)
    requires s.status.CONFIGURED? && s.parked == 0 && s.pending == 0 && s.hal == 0 && s.client == 0 && !s.misfreed
    requires s.hw == 0 && s.total == |s.slots| && s.buffers == map[] && s.live == {} && s.inFlight == map[]
    ensures FlightOk(s)
  {
    assert Busy(map[]) == {};
    hide Busy;
  }

  lemma ConfiguredStream()
    ensures var s := CONFIGURED_STREAM;
            && FlightOk(s) && s.status.CONFIGURED? && s.total == 1 == |s.slots| && s.hw == 0 && s.pending == 0
            && s.buffers == map[] && s.inFlight == map[] && s.live == {}
  {
    var s0 := NewStream(true, 0, 1);
    var calls := [ConfigureBegun, ConfigureEnded(1)];
    assert calls[..1] == [ConfigureBegun] && calls[..1][..0] == [];
    var s1 := Step(s0, calls[0]).s;
    assert Run(s0, calls[..1]) == s1;
    hide FlightOk;
    FreshPool(Step(s1, calls[1]).s);
  }

  /** A request for two such streams fails because the second has no buffer, and the buffer taken
      from the first stays out. */
  lemma SecondStreamFailingLosesABuffer(frame: int)
    ensures var r := Submit([CONFIGURED_STREAM, CONFIGURED_STREAM], frame, [Choice(0, Some(7)), Choice(0, None)], true);
            && r[1] == CONFIGURED_STREAM
            && r[0].pending == 1 && frame in r[0].inFlight && r[0].inFlight[frame] == 7
  {
    ConfiguredStream();
    var s, choices := CONFIGURED_STREAM, [Choice(0, Some(7)), Choice(0, None)];
    var o := TakeOne(s, frame, choices[0]);
    assert o.s.inFlight == map[frame := 7] && o.s.pending == 1 && o.code.OK?;
    assert TakeOne(s, frame, choices[1]) == Refused(s, ENOMEM);
    hide TakeOne;
    assert [s, s][0 := o.s] == [o.s, s];
    assert TakeFrom([o.s, s], frame, choices, 1) == Taken([o.s, s][1 := s], 1);
  }

  /** The two loops, over the streams of one request. */
  method SubmitBuffers(streams: seq<Stream>, frame: int, choices: seq<Choice>, accepted: bool) returns (r: seq<Stream>)
    requires |streams| == |choices|
    ensures r == Submit(streams, frame, choices, accepted)
  {
    hide TakeOne, ReturnUnsubmitted;
    r := streams;
    for i := 0 to |streams|
      invariant |r| == |streams| && TakeFrom(r, frame, choices, i) == TakeFrom(streams, frame, choices, 0)
    {
      var o := TakeOne(r[i], frame, choices[i]);
      r := r[i := o.s];
      if !o.code.OK? {
        return;
      }
    }
    if accepted {
      return;
    }
    ghost var taken := r;
    for i := 0 to |streams|
      invariant |r| == |streams| && r == GiveBack(taken, frame, i)
    {
      r := r[i := ReturnUnsubmitted(r[i], frame).s];
    }
  }
}
