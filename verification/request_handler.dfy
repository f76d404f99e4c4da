/** The request scheduler: one-shot requests are served first, then whole bursts of the
    repeating set; every request gets the next frame number; settings go to the HAL only when
    the request id changes. One function per lock-held body; `Step` runs one event. */
module RequestScheduler {
  import opened Wrappers
  import Monitor

  /** `id` is the request id the client layer assigned, counting from 0. */
  datatype Request = Request(id: nat, settings: int)

  /** Where a queued request came from: a one-shot list, or a repeating set, counted from 0. */
  datatype Origin = OneShot | Repeating(generation: nat)

  datatype Entry = Entry(request: Request, origin: Origin)

  /** A request that got its frame number, to be submitted or, in a flush, reported as an error. */
  datatype Issue = Issue(entry: Entry, number: uint32, flushed: bool)

  /** A frame the HAL accepted: the settings sent with it, if any, and the last settings the HAL
      then had since it was configured. */
  datatype Frame = Frame(number: uint32, request: Request, sent: Option<int>, held: Option<int>)

  const NO_IN_FLIGHT_REPEATING_FRAMES := -1

  /** The number of frames configured to go out without a pause between them. */
  type BatchSize = n: int | 0 < n witness 1

  /** `previous` is the last request whose settings were sent, `current` the one between
      `GetRequest` and the end of `SubmitRequest`. The history: the generation of the repeating
      set, every request enqueued so far, those issued, and what the HAL has: the settings it
      got last since it was configured, and the frames it accepted. */
  datatype State = State(
    requests: seq<Entry>, streaming: seq<Request>, frame: uint32, streamingLast: int,
    errorCb: bool, paused: bool, toggle: bool, monitorId: int, batchSize: BatchSize, configUpdate: bool,
    previous: Option<Request>, current: Option<Issue>,
    generation: nat, enqueued: seq<Entry>, issued: seq<Issue>, hal: Option<int>, frames: seq<Frame>)

  function Initial(errorCb: bool, monitorId: int): State {
    State([], [], 0, NO_IN_FLIGHT_REPEATING_FRAMES, errorCb, true, false, monitorId, 1, false, None, None,
          0, [], [], None, [])
  }

  function Tagged(list: seq<Request>, origin: Origin): (r: seq<Entry>)
    ensures |r| == |list| && forall i :: 0 <= i < |r| ==> r[i] == Entry(list[i], origin)
  {
    seq(|list|, i requires 0 <= i < |list| => Entry(list[i], origin))
  }

  function Resume(s: State): State {
    if s.toggle then s else s.(paused := false)
  }

  function QueueRequestList(s: State, list: seq<Request>): State {
    var tagged := Tagged(list, OneShot);
    Resume(s.(requests := s.requests + tagged, enqueued := s.enqueued + tagged))
  }

  /** The last frame number reported when a list is queued. */
  function QueuedLast(s: State, list: seq<Request>): int {
    s.frame + |s.requests| + |list| - 1
  }

  /** A new repeating set; the frame number reported is `s.streamingLast`. */
  function SetRepeatingRequests(s: State, list: seq<Request>): State {
    Resume(s.(streaming := list, generation := s.generation + 1)).(streamingLast := NO_IN_FLIGHT_REPEATING_FRAMES)
  }

  function ClearRepeatingRequests(s: State): State {
    s.(streaming := [], generation := s.generation + 1, streamingLast := NO_IN_FLIGHT_REPEATING_FRAMES)
  }

  /** Gives the next frame number to the request at the head of the queue. */
  function IssueHead(s: State, flushed: bool): State
    requires s.requests != []
  {
    s.(requests := s.requests[1..], frame := Wrap32(s.frame + 1),
       issued := s.issued + [Issue(s.requests[0], s.frame, flushed)])
  }

  function FlushAll(s: State): State
    decreases |s.requests|
  {
    if s.requests == [] then s else FlushAll(IssueHead(s, true))
  }

  /** A flush changes nothing but the queue, the counter and what was issued. */
  lemma {:induction false} FlushKeeps(s: State)
    ensures FlushAll(s) == s.(requests := [], frame := FlushAll(s).frame, issued := FlushAll(s).issued)
    decreases |s.requests|
  {
    if s.requests != [] { FlushKeeps(IssueHead(s, true)); }
  }

  /** `Clear`, up to its wait. Without an error callback the queue is dropped unnumbered. */
  function Clear(s: State): State {
    var flushed := if s.errorCb then FlushAll(s)
                   else s.(requests := [], enqueued := if |s.issued| <= |s.enqueued| then s.enqueued[..|s.issued|]
                       else s.enqueued);
    ClearRepeatingRequests(flushed)
  }

  /** A burst: the whole repeating set is enqueued behind an empty queue. */
  function Burst(s: State): State {
    var tagged := Tagged(s.streaming, Repeating(s.generation));
    s.(requests := tagged, enqueued := s.enqueued + tagged, streamingLast := s.frame + |s.streaming| - 1)
  }

  /** The worker takes the next request; it is not called while it still has one. */
  function GetRequest(s: State): State {
    if s.current.Some? || (s.requests == [] && s.streaming == []) then s
    else
      var s1 := IssueHead(if s.requests == [] then Burst(s) else s, false);
      s1.(paused := false, previous := if s1.configUpdate then None else s1.previous, configUpdate := false,
          current := Some(s1.issued[|s1.issued| - 1]))
  }

  /** The end of the wait for a request: with none to serve, or when exiting, the worker idles. */
  function WaitEnded(s: State, exiting: bool): State {
    if (s.requests == [] && s.streaming == []) || exiting then s.(paused := true) else s
  }

  function WaitOnPause(s: State): State {
    if s.frame % s.batchSize != 0 || !s.toggle then s else s.(paused := true)
  }

  /** How a submission ends: without a buffer, not registered, or answered by the HAL. */
  datatype Verdict = NoBuffer | NotMarked | HalRefused | Accepted

  /** Whether a request carries its settings. */
  predicate Carries(s: State, next: Request) {
    s.previous.None? || s.previous.value.id != next.id
  }

  function SubmitRequest(s: State, v: Verdict): State {
    if s.current.None? then s
    else
      var issue := s.current.value;
      var next := issue.entry.request;
      var sent := if Carries(s, next) then Some(next.settings) else None;
      var s1 := s.(previous := if Carries(s, next) then Some(next) else s.previous, current := None);
      if !v.Accepted? then s1
      else
        var held := if sent.Some? then sent else s.hal;
        s1.(hal := held, frames := s.frames + [Frame(issue.number, next, sent, held)])
  }

  /** The HAL is configured, which makes it forget its settings. */
  function FinishConfiguration(s: State, batchSize: BatchSize): State {
    s.(configUpdate := true, batchSize := batchSize, hal := None)
  }

  datatype Event =
    | Queued(list: seq<Request>) | RepeatingSet(list: seq<Request>) | RepeatingCleared | Flushed
    | Toggled(pause: bool) | PauseChecked | Taken | WaitOver(exiting: bool)
    | Submitted(verdict: Verdict) | Configured(batchSize: BatchSize)

  function Step(s: State, e: Event): State {
    match e
    case Queued(list) => QueueRequestList(s, list)
    case RepeatingSet(list) => SetRepeatingRequests(s, list)
    case RepeatingCleared => ClearRepeatingRequests(s)
    case Flushed => Clear(s)
    case Toggled(pause) => s.(toggle := pause)
    case PauseChecked => WaitOnPause(s)
    case Taken => GetRequest(s)
    case WaitOver(exiting) => WaitEnded(s, exiting)
    case Submitted(v) => SubmitRequest(s, v)
    case Configured(batchSize) => FinishConfiguration(s, batchSize)
  }

  function Run(s: State, events: seq<Event>): State {
    if events == [] then s else Step(Run(s, events[..|events| - 1]), events[|events| - 1])
  }

  /** What the handler asks of the monitor: it posts its activity when it resumes, and when it
      leaves or enters the pause. */
  function Posts(s: State, e: Event): seq<Monitor.Transition> {
    match e
    case Queued(_) => if s.toggle then [] else [Monitor.Transition(s.monitorId, Monitor.ACTIVE)]
    case RepeatingSet(_) => if s.toggle then [] else [Monitor.Transition(s.monitorId, Monitor.ACTIVE)]
    case PauseChecked =>
      if WaitOnPause(s).paused && !s.paused then [Monitor.Transition(s.monitorId, Monitor.IDLE)] else []
    case Taken =>
      if s.paused && s.current.None? && !(s.requests == [] && s.streaming == [])
          then [Monitor.Transition(s.monitorId, Monitor.ACTIVE)] else []
    case WaitOver(exiting) =>
      if WaitEnded(s, exiting).paused && !s.paused then [Monitor.Transition(s.monitorId, Monitor.IDLE)] else []
    case _ => []
  }

  lemma RunConcat(s: State, a: seq<Event>, b: seq<Event>)
    ensures Run(s, a + b) == Run(Run(s, a), b)
  {
    if b == [] {
      assert a + b == a;
    } else {
      assert (a + b)[..|a + b| - 1] == a + b[..|b| - 1];
      RunConcat(s, a, b[..|b| - 1]);
    }
  }

  // ----- frame numbers

  /** The requests issued are the first of those enqueued, the queue is the rest, and the k-th
      one issued has number k. */
  ghost predicate Numbered(s: State) {
    && s.frame == Wrap32(|s.issued|)
    && |s.enqueued| == |s.issued| + |s.requests|
    && s.requests == s.enqueued[|s.issued|..]
    && forall k :: 0 <= k < |s.issued| ==> s.issued[k].entry == s.enqueued[k] && s.issued[k].number == Wrap32(k)
  }

  lemma NextNumber(n: nat)
    ensures Wrap32(Wrap32(n) + 1) == Wrap32(n + 1)
  {
  }

  lemma IssueNumbered(s: State, flushed: bool)
    requires Numbered(s) && s.requests != []
    ensures var t := IssueHead(s, flushed); Numbered(t) && s.issued <= t.issued && t.enqueued == s.enqueued
  {
    hide Wrap32;
    NextNumber(|s.issued|);
  }

  lemma {:induction false} FlushNumbered(s: State)
    requires Numbered(s)
    ensures var t := FlushAll(s);
            && Numbered(t) && t.requests == [] && t.enqueued == s.enqueued && s.issued <= t.issued
            && forall k :: |s.issued| <= k < |t.issued| ==> t.issued[k].flushed
    decreases |s.requests|
  {
    if s.requests == [] {
    } else {
      var s1 := IssueHead(s, true);
      IssueNumbered(s, true);
      assert s1.issued[|s.issued|].flushed;
      hide Numbered, IssueHead;
      FlushNumbered(s1);
    }
  }

  lemma BurstNumbered(s: State)
    requires Numbered(s) && s.requests == []
    ensures Numbered(Burst(s))
  {
    hide Wrap32, Tagged;
  }

  /** Only a flush without an error callback takes back what was enqueued. */
  predicate Drops(s: State, e: Event) {
    e.Flushed? && !s.errorCb && s.requests != []
  }

  lemma QueuedNumbered(s: State, list: seq<Request>)
    requires Numbered(s)
    ensures Numbered(QueueRequestList(s, list)) && s.enqueued <= QueueRequestList(s, list).enqueued
    ensures QueueRequestList(s, list).issued == s.issued
  {
    hide Wrap32, Tagged;
  }

  lemma ClearNumbered(s: State)
    requires Numbered(s)
    ensures var t := Clear(s);
            && Numbered(t) && s.issued <= t.issued && t.requests == []
            && (if s.errorCb || s.requests == [] then t.enqueued == s.enqueued else t.enqueued < s.enqueued)
  {
    hide Wrap32, FlushAll;
    FlushKeeps(s);
    if s.errorCb { FlushNumbered(s); }
  }

  lemma TakenNumbered(s: State)
    requires Numbered(s)
    ensures var t := GetRequest(s); Numbered(t) && s.issued <= t.issued && s.enqueued <= t.enqueued
  {
    if s.current.None? && !(s.requests == [] && s.streaming == []) {
      if s.requests == [] { BurstNumbered(s); }
      hide Numbered, Tagged;
      IssueNumbered(if s.requests == [] then Burst(s) else s, false);
      NumberedByFields(IssueHead(if s.requests == [] then Burst(s) else s, false), GetRequest(s));
    }
  }

  lemma NumberedByFields(s: State, t: State)
    requires Numbered(s) && t.issued == s.issued && t.requests == s.requests && t.enqueued == s.enqueued
             && t.frame == s.frame
    ensures Numbered(t)
  {
  }

  lemma StepNumbered(s: State, e: Event)
    requires Numbered(s)
    ensures Numbered(Step(s, e)) && s.issued <= Step(s, e).issued
    ensures s.enqueued <= Step(s, e).enqueued <==> !Drops(s, e)
  {
    hide Numbered, QueueRequestList, Clear, GetRequest;
    match e
    case Queued(list) => QueuedNumbered(s, list);
    case Flushed => ClearNumbered(s);
    case Taken => TakenNumbered(s);
    case _ => NumberedByFields(s, Step(s, e));
  }

  lemma InitialNumbered(errorCb: bool, id: int)
    ensures Numbered(Initial(errorCb, id))
  {
  }

  /** No request is dropped in the run. */
  predicate Keeps(s: State, events: seq<Event>) {
    forall k :: 0 <= k < |events| ==> !Drops(Run(s, events[..k]), events[k])
  }

  lemma {:induction false} RunNumbered(s: State, events: seq<Event>)
    requires Numbered(s)
    ensures Numbered(Run(s, events)) && s.issued <= Run(s, events).issued
    ensures Keeps(s, events) ==> s.enqueued <= Run(s, events).enqueued
  {
    if events != [] {
      var init := events[..|events| - 1];
      if Keeps(s, events) { KeepsPrefix(s, events); }
      hide Numbered, Drops;
      RunNumbered(s, init);
      StepNumbered(Run(s, init), events[|events| - 1]);
    }
  }

  lemma KeepsPrefix(s: State, events: seq<Event>)
    requires Keeps(s, events) && events != []
    ensures Keeps(s, events[..|events| - 1]) && !Drops(Run(s, events[..|events| - 1]), events[|events| - 1])
  {
    var init := events[..|events| - 1];
    forall k | 0 <= k < |init| ensures !Drops(Run(s, init[..k]), init[k]) { assert init[..k] == events[..k]; }
  }

  /** Frame numbers are dense: over every run the k-th request issued has number k modulo 2^32,
      so two issued requests share a number only when a multiple of 2^32 lies between them. */
  lemma FrameNumbersDense(errorCb: bool, id: int, events: seq<Event>)
    ensures var s := Run(Initial(errorCb, id), events);
            && (forall k :: 0 <= k < |s.issued| ==> s.issued[k].number == Wrap32(k))
            && (forall i, j :: 0 <= i < j < |s.issued| ==>
                  (s.issued[i].number == s.issued[j].number <==> (j - i) % TWO_TO_THE_32 == 0))
  {
    var s := Run(Initial(errorCb, id), events);
    RunNumbered(Initial(errorCb, id), events);
    forall i, j | 0 <= i < j < |s.issued|
      ensures s.issued[i].number == s.issued[j].number <==> (j - i) % TWO_TO_THE_32 == 0
    {
      SameWrap(i, j);
    }
  }

  lemma SameWrap(i: nat, j: nat)
    requires i < j
    ensures Wrap32(i) == Wrap32(j) <==> (j - i) % TWO_TO_THE_32 == 0
  {
  }

  /** In a later state `t` the request that `s` had at index i of its queue is the one issued i
      places after the next, with the number i after the next, or still queued at that place. */
  ghost predicate Foretold(s: State, t: State, i: nat)
    requires i < |s.requests|
  {
    var n := |s.issued| + i;
    if n < |t.issued| then t.issued[n].entry == s.requests[i] && t.issued[n].number == Wrap32(s.frame + i)
    else n - |t.issued| < |t.requests| && t.requests[n - |t.issued|] == s.requests[i]
  }

  lemma QueueForetold(s: State, t: State, i: nat)
    requires Numbered(s) && Numbered(t) && s.enqueued <= t.enqueued && i < |s.requests|
    ensures Foretold(s, t, i)
  {
    WrapSum(|s.issued|, i);
    hide Wrap32;
  }

  /** The prophecy: over every run, whatever happens after a list is queued, unless a flush
      drops requests, the request at index i of the queue is the one issued i places after the
      next one, with the number i after it. */
  lemma Prophecy(errorCb: bool, id: int, before: seq<Event>, after: seq<Event>, i: nat)
    requires var s := Run(Initial(errorCb, id), before); Keeps(s, after) && i < |s.requests|
    ensures Foretold(Run(Initial(errorCb, id), before), Run(Initial(errorCb, id), before + after), i)
  {
    var s := Run(Initial(errorCb, id), before);
    RunNumbered(Initial(errorCb, id), before);
    RunNumbered(s, after);
    RunConcat(Initial(errorCb, id), before, after);
    hide Run, Keeps, Numbered, Wrap32, Foretold;
    QueueForetold(s, Run(s, after), i);
  }

  /** The last frame number reported when a list is queued is the one foretold for its last
      request, exactly when the 32-bit counter does not wrap on the way. */
  lemma ReportForetells(s: State, list: seq<Request>)
    requires list != []
    ensures var t := QueueRequestList(s, list);
            var last := |t.requests| - 1;
            && last >= 0 && t.requests[last] == Entry(list[|list| - 1], OneShot)
            && (QueuedLast(s, list) == Wrap32(t.frame + last) <==> QueuedLast(s, list) < TWO_TO_THE_32)
  {
  }

  /** Without an error callback a flush breaks the prophecy: the number reported for the first
      request queued goes to another one. */
  lemma DroppedRequestLosesItsNumber(id: int, a: Request, b: Request)
    requires a != b
    ensures var s := Run(Initial(false, id), [Queued([a]), Flushed, Queued([b]), Taken]);
            && QueuedLast(Initial(false, id), [a]) == 0
            && s.issued == [Issue(Entry(b, OneShot), 0, false)]
  {
    var s0 := Initial(false, id);
    var s1 := Step(s0, Queued([a]));
    var s2 := Step(s1, Flushed);
    var s3 := Step(s2, Queued([b]));
    assert [Queued([a]), Flushed, Queued([b]), Taken][..3] == [Queued([a]), Flushed, Queued([b])];
    assert [Queued([a]), Flushed, Queued([b])][..2] == [Queued([a]), Flushed];
    assert [Queued([a]), Flushed][..1] == [Queued([a])];
    assert Run(s0, [Queued([a])]) == s1;
    assert Run(s0, [Queued([a]), Flushed]) == s2;
    assert Run(s0, [Queued([a]), Flushed, Queued([b])]) == s3;
  }

  // ----- when the worker serves, waits and pauses

  /** Whether a pause was asked for last. */
  function PauseAsked(events: seq<Event>): bool {
    if events == [] then false
    else if events[|events| - 1].Toggled? then events[|events| - 1].pause
    else PauseAsked(events[..|events| - 1])
  }

  /** The batch size configured last, else 1. */
  function BatchGiven(events: seq<Event>): BatchSize {
    if events == [] then 1
    else if events[|events| - 1].Configured? then events[|events| - 1].batchSize
    else BatchGiven(events[..|events| - 1])
  }

  lemma {:induction false} AskedAndGiven(errorCb: bool, id: int, events: seq<Event>)
    ensures var s := Run(Initial(errorCb, id), events);
            s.toggle == PauseAsked(events) && s.batchSize == BatchGiven(events) && s.errorCb == errorCb
  {
    if events != [] {
      hide Step;
      var init, e := events[..|events| - 1], events[|events| - 1];
      AskedAndGiven(errorCb, id, init);
      FlagsStep(Run(Initial(errorCb, id), init), e);
    }
  }

  lemma FlagsStep(s: State, e: Event)
    ensures var t := Step(s, e);
            && t.toggle == (if e.Toggled? then e.pause else s.toggle)
            && t.batchSize == (if e.Configured? then e.batchSize else s.batchSize) && t.errorCb == s.errorCb
  {
    hide FlushAll, Tagged, Wrap32;
    FlushKeeps(s);
  }

  /** Whether there is a request to serve: one enqueued and not issued, or a repeating set. */
  predicate SomethingToServe(s: State) { |s.issued| < |s.enqueued| || s.streaming != [] }

  /** In every reachable state, taking issues exactly one more request if the worker has none and
      there is one to serve: the oldest enqueued, or else the first of the repeating set. It gets the
      next number, is the one in hand, and ends a pause. */
  lemma TakenExactly(errorCb: bool, id: int, events: seq<Event>)
    ensures var s := Run(Initial(errorCb, id), events);
            var t, n := Step(s, Taken), |s.issued|;
            if s.current.Some? || !SomethingToServe(s) then t == s
            else
              && |t.issued| == n + 1 && t.issued[..n] == s.issued && !t.paused
              && t.issued[n].number == Wrap32(n) && !t.issued[n].flushed && t.current == Some(t.issued[n])
              && t.issued[n].entry == if n < |s.enqueued| then s.enqueued[n]
                                      else Entry(s.streaming[0], Repeating(s.generation))
  {
    hide Run, Tagged, Wrap32;
    InitialNumbered(errorCb, id);
    RunNumbered(Initial(errorCb, id), events);
    var s := Run(Initial(errorCb, id), events);
  }

  /** When the handler pauses and resumes: it pauses at the check exactly if that was asked for and
      the number of requests issued is a whole number of batches, as long as it is below 2^32; at the
      end of a wait exactly with nothing to serve or when exiting; and a list or a repeating set
      resumes it unless a pause is asked for. */
  lemma PausesExactly(errorCb: bool, id: int, events: seq<Event>, exiting: bool, list: seq<Request>)
    ensures var s := Run(Initial(errorCb, id), events);
            && (|s.issued| < TWO_TO_THE_32 ==>
                  (Step(s, PauseChecked).paused
                   <==> s.paused || (PauseAsked(events) && |s.issued| % BatchGiven(events) == 0)))
            && (Step(s, WaitOver(exiting)).paused <==> s.paused || exiting || !SomethingToServe(s))
            && (Step(s, Queued(list)).paused <==> s.paused && PauseAsked(events))
            && (Step(s, RepeatingSet(list)).paused <==> s.paused && PauseAsked(events))
  {
    hide Run, PauseAsked, BatchGiven, Numbered, WaitOnPause, WaitEnded, Step;
    InitialNumbered(errorCb, id);
    RunNumbered(Initial(errorCb, id), events);
    AskedAndGiven(errorCb, id, events);
    var s := Run(Initial(errorCb, id), events);
    CheckPauses(s);
    WaitPauses(s, exiting);
    ListResumes(s, list);
  }

  lemma CheckPauses(s: State)
    requires Numbered(s)
    ensures |s.issued| < TWO_TO_THE_32 ==>
              (Step(s, PauseChecked).paused <==> s.paused || (s.toggle && |s.issued| % s.batchSize == 0))
  {
  }

  lemma WaitPauses(s: State, exiting: bool)
    requires Numbered(s)
    ensures Step(s, WaitOver(exiting)).paused <==> s.paused || exiting || !SomethingToServe(s)
  {
    hide Wrap32;
  }

  lemma ListResumes(s: State, list: seq<Request>)
    ensures Step(s, Queued(list)).paused <==> s.paused && s.toggle
    ensures Step(s, RepeatingSet(list)).paused <==> s.paused && s.toggle
  {
    hide Tagged;
  }

  // ----- the frames the HAL accepts

  /** The requests handed to the HAL and accepted, as the events tell: the one issued last, whenever
      an accepted submission finds one in hand. */
  function AcceptedOf(errorCb: bool, id: int, events: seq<Event>): seq<Issue> {
    if events == [] then []
    else
      var init, e := events[..|events| - 1], events[|events| - 1];
      var s := Run(Initial(errorCb, id), init);
      AcceptedOf(errorCb, id, init)
      + if e == Submitted(Accepted) && s.current.Some? && s.issued != [] then [LastServed(s.issued)] else []
  }

  /** The last request issued to be submitted. */
  function LastServed(issued: seq<Issue>): Issue
    requires issued != []
  {
    if !issued[|issued| - 1].flushed || |issued| == 1 then issued[|issued| - 1]
    else LastServed(issued[..|issued| - 1])
  }

  /** The request in hand is the last one issued to be submitted. */
  predicate InHandIsLast(s: State) {
    s.current.Some? ==> s.issued != [] && s.current.value == LastServed(s.issued) && !s.current.value.flushed
  }

  lemma {:induction false} FlushServes(s: State)
    requires InHandIsLast(s)
    ensures InHandIsLast(FlushAll(s))
    decreases |s.requests|
  {
    if s.requests != [] {
      var t := IssueHead(s, true);
      assert s.issued != [] ==> t.issued[..|t.issued| - 1] == s.issued;
      FlushServes(t);
    }
  }

  lemma InHandStep(s: State, e: Event)
    requires InHandIsLast(s)
    ensures InHandIsLast(Step(s, e))
  {
    hide FlushAll, Tagged, Wrap32;
    FlushKeeps(s);
    FlushServes(s);
  }

  lemma FramesStep(s: State, e: Event)
    requires InHandIsLast(s)
    ensures var t := Step(s, e);
            if e == Submitted(Accepted) && s.current.Some? then
              && s.issued != [] && |t.frames| == |s.frames| + 1 && t.frames[..|s.frames|] == s.frames
              && t.frames[|s.frames|].number == LastServed(s.issued).number
              && t.frames[|s.frames|].request == LastServed(s.issued).entry.request
            else t.frames == s.frames
  {
    hide FlushAll, Tagged, Wrap32, LastServed;
    FlushKeeps(s);
  }

  /** Over every run the frames the HAL has accepted are those requests, in the order they were
      issued, each under its own number. */
  lemma {:induction false} FramesExactly(errorCb: bool, id: int, events: seq<Event>)
    ensures var s, accepted := Run(Initial(errorCb, id), events), AcceptedOf(errorCb, id, events);
            && InHandIsLast(s) && |s.frames| == |accepted|
            && forall k :: 0 <= k < |accepted| ==>
                 s.frames[k].number == accepted[k].number && s.frames[k].request == accepted[k].entry.request
  {
    if events != [] {
      var init, e := events[..|events| - 1], events[|events| - 1];
      hide Step, InHandIsLast;
      FramesExactly(errorCb, id, init);
      var s := Run(Initial(errorCb, id), init);
      InHandStep(s, e);
      FramesStep(s, e);
    }
  }

  /** What the HAL has, as the events and the frames tell: the settings sent with an accepted frame,
      else what it had before; nothing after it was configured. */
  function HalTold(errorCb: bool, id: int, events: seq<Event>): Option<int> {
    if events == [] then None
    else
      var init, e := events[..|events| - 1], events[|events| - 1];
      var frames := Run(Initial(errorCb, id), events).frames;
      if e.Configured? then None
      else if |frames| > |Run(Initial(errorCb, id), init).frames| && frames[|frames| - 1].sent.Some?
           then frames[|frames| - 1].sent
      else HalTold(errorCb, id, init)
  }

  /** Over every run the HAL's settings, on which what is said about differences rests, are what was
      sent last since it was configured, and those a frame finds are what was sent by then. */
  lemma {:induction false} HalHasLastSent(errorCb: bool, id: int, events: seq<Event>)
    ensures Run(Initial(errorCb, id), events).hal == HalTold(errorCb, id, events)
    ensures events != [] ==>
              var init := events[..|events| - 1];
              var before, after := Run(Initial(errorCb, id), init).frames, Run(Initial(errorCb, id), events).frames;
              && |before| <= |after| <= |before| + 1 && after[..|before|] == before
              && (|after| > |before| ==> after[|before|].held == HalTold(errorCb, id, events))
  {
    if events != [] {
      hide Step, Initial;
      var init, e := events[..|events| - 1], events[|events| - 1];
      HalHasLastSent(errorCb, id, init);
      HalStep(Run(Initial(errorCb, id), init), e);
    }
  }

  lemma HalStep(s: State, e: Event)
    ensures var t, n := Step(s, e), |s.frames|;
            && n <= |t.frames| <= n + 1 && t.frames[..n] == s.frames
            && (|t.frames| > n ==> t.frames[n].held == t.hal && !e.Configured?)
            && t.hal == if e.Configured? then None
                        else if |t.frames| > n && t.frames[n].sent.Some? then t.frames[n].sent else s.hal
  {
    hide FlushAll, Tagged, Wrap32, Carries, IssueHead, Burst, FinishConfiguration, SubmitRequest, Clear, GetRequest;
    if e.Configured? || e.Submitted? { HalChanges(s, e); } else { HalStays(s, e); }
  }

  lemma HalChanges(s: State, e: Event)
    requires e.Configured? || e.Submitted?
    ensures var t, n := Step(s, e), |s.frames|;
            && n <= |t.frames| <= n + 1 && t.frames[..n] == s.frames
            && (|t.frames| > n ==> t.frames[n].held == t.hal && !e.Configured?)
            && t.hal == if e.Configured? then None
                        else if |t.frames| > n && t.frames[n].sent.Some? then t.frames[n].sent else s.hal
  {
    hide Carries;
  }

  lemma HalStays(s: State, e: Event)
    requires !e.Configured? && !e.Submitted?
    ensures Step(s, e).frames == s.frames && Step(s, e).hal == s.hal
  {
    hide FlushAll, Tagged, Wrap32;
    FlushKeeps(s);
  }
}
