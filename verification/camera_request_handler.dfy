/** The request handler in its own form: the two lists, spliced in place, and the flags. Every
    method is proved to be the step of `RequestScheduler` it stands for. */
module CameraRequestHandler {
  import opened Wrappers
  import Monitor
  import opened RepeatingSet
  import opened RequestScheduler

  class Camera3RequestHandler {
    /** Each entry's origin is history only. */
    var requests: seq<Entry>
    var streamingRequests: seq<Request>
    var currentFrameNumber: uint32
    var streamingLastFrameNumber: int
    const errorCb: bool
    var pausedState: bool
    var togglePauseState: bool
    const monitorId: int
    var batchSize: BatchSize
    var configurationUpdate: bool
    var oldRequest: Option<Request>
    var currentRequest: Option<Issue>
    /** History too, but stored in the entries. */
    var generation: nat
    ghost var enqueued: seq<Entry>
    ghost var issued: seq<Issue>
    ghost var hal: Option<int>
    ghost var frames: seq<Frame>

    ghost function Model(): State
      reads this
    {
      State(requests, streamingRequests, currentFrameNumber, streamingLastFrameNumber, errorCb, pausedState,
            togglePauseState, monitorId, batchSize, configurationUpdate, oldRequest, currentRequest,
            generation, enqueued, issued, hal, frames)
    }

    constructor (errorCb: bool, monitorId: int)
      ensures Model() == Initial(errorCb, monitorId)
    {
      requests, streamingRequests, currentFrameNumber := [], [], 0;
      streamingLastFrameNumber := NO_IN_FLIGHT_REPEATING_FRAMES;
      this.errorCb, this.monitorId, batchSize := errorCb, monitorId, 1;
      pausedState, togglePauseState, configurationUpdate := true, false, false;
      oldRequest, currentRequest := None, None;
      generation, enqueued, issued, hal, frames := 0, [], [], None, [];
    }

    /** `posts` is what the monitor is told, here and below. */
    method Resume() returns (posts: seq<Monitor.Transition>)
      modifies this`pausedState
      ensures Model() == RequestScheduler.Resume(old(Model()))
      ensures posts == if togglePauseState then [] else [Monitor.Transition(monitorId, Monitor.ACTIVE)]
    {
      posts := [];
      if !togglePauseState {
        posts := [Monitor.Transition(monitorId, Monitor.ACTIVE)];
        pausedState := false;
      }
    }

    method FinishConfiguration(batchSize: BatchSize)
      modifies this`configurationUpdate, this`batchSize, this`hal
      ensures Model() == RequestScheduler.FinishConfiguration(old(Model()), batchSize)
    {
      configurationUpdate := true;
      this.batchSize := batchSize;
      hal := None;
    }

    method QueueRequestList(list: seq<Request>) returns (lastFrameNumber: int, posts: seq<Monitor.Transition>)
      modifies this`requests, this`enqueued, this`pausedState
      ensures Model() == Step(old(Model()), Queued(list))
      ensures lastFrameNumber == QueuedLast(old(Model()), list) && posts == Posts(old(Model()), Queued(list))
      ensures list != [] ==>
                var last := |requests| - 1;
                && last >= 0 && requests[last] == Entry(list[|list| - 1], OneShot)
                && (lastFrameNumber == Wrap32(currentFrameNumber + last) <==> lastFrameNumber < TWO_TO_THE_32)
    {
      if list != [] { ReportForetells(Model(), list); }
      hide Wrap32;
      ghost var was := requests;
      for i := 0 to |list|
        modifies this`requests
        invariant requests == was + Tagged(list, OneShot)[..i]
      {
        requests := requests + [Entry(list[i], OneShot)];
      }
      assert Tagged(list, OneShot)[..|list|] == Tagged(list, OneShot);
      enqueued := enqueued + Tagged(list, OneShot);
      lastFrameNumber := currentFrameNumber + |requests| - 1;
      posts := Resume();
    }

    method SetRepeatingRequests(list: seq<Request>) returns (lastFrameNumber: int, posts: seq<Monitor.Transition>)
      modifies this`streamingRequests, this`generation, this`pausedState, this`streamingLastFrameNumber
      ensures Model() == Step(old(Model()), RepeatingSet(list))
      ensures lastFrameNumber == old(streamingLastFrameNumber) && posts == Posts(old(Model()), RepeatingSet(list))
      ensures old(RepeatOk(Model())) ==> RepeatOk(Model()) && ReportOf(old(enqueued), old(generation), lastFrameNumber)
    {
      if RepeatOk(Model()) { StepReport(Model(), Event.RepeatingSet(list)); }
      hide RepeatOk;
      lastFrameNumber := streamingLastFrameNumber;
      ReplaceSet(list);
      posts := Resume();
      streamingLastFrameNumber := NO_IN_FLIGHT_REPEATING_FRAMES;
    }

    method ReplaceSet(list: seq<Request>)
      modifies this`streamingRequests, this`generation
      ensures streamingRequests == list && generation == old(generation) + 1
    {
      streamingRequests := list;
      generation := generation + 1;
    }

    method ClearRepeatingRequests() returns (lastFrameNumber: int)
      modifies this`streamingRequests, this`generation, this`streamingLastFrameNumber
      ensures Model() == Step(old(Model()), RepeatingCleared) && lastFrameNumber == old(streamingLastFrameNumber)
      ensures old(RepeatOk(Model())) ==> RepeatOk(Model()) && ReportOf(old(enqueued), old(generation), lastFrameNumber)
    {
      if RepeatOk(Model()) { StepReport(Model(), RepeatingCleared); }
      hide RepeatOk;
      lastFrameNumber := DropRepeating();
    }

    /** Numbers and reports every queued request; the queue itself is emptied afterwards. */
    method FlushQueue()
      modifies this`currentFrameNumber, this`issued, this`requests
      ensures Model() == FlushAll(old(Model()))
    {
      ghost var was, s := Model(), Model();
      assert requests[0..] == requests;
      hide Wrap32, FlushAll;
      for i := 0 to |requests|
        modifies this`currentFrameNumber, this`issued
        invariant s == was.(requests := requests[i..], frame := currentFrameNumber, issued := issued)
        invariant FlushAll(s) == FlushAll(was)
      {
        FlushOne(s);
        s := IssueHead(s, true);
        issued := issued + [Issue(requests[i], currentFrameNumber, true)];
        currentFrameNumber := Wrap32(currentFrameNumber + 1);
      }
      requests := [];
      FlushNone(s);
    }

    /** `Clear`, up to its wait for the request in the worker's hands. */
    method Clear() returns (lastFrameNumber: int)
      modifies this`requests, this`streamingRequests, this`currentFrameNumber, this`issued, this`enqueued,
          this`generation,
               this`streamingLastFrameNumber
      ensures Model() == Step(old(Model()), Flushed) && lastFrameNumber == old(streamingLastFrameNumber)
      ensures old(RepeatOk(Model())) ==> RepeatOk(Model()) && ReportOf(old(enqueued), old(generation), lastFrameNumber)
    {
      hide FlushAll, RepeatOk, ReportOf;
      ghost var s := Model();
      FlushKeeps(s);
      if RepeatOk(s) {
        ReportHeld(s);
        StepReport(s, Flushed);
      }
      if errorCb {
        FlushQueue();
      } else {
        enqueued := if |issued| <= |enqueued| then enqueued[..|issued|] else enqueued;
      }
      requests := [];
      lastFrameNumber := DropRepeating();
    }

    /** The repeating set ends. */
    method DropRepeating() returns (lastFrameNumber: int)
      modifies this`streamingRequests, this`generation, this`streamingLastFrameNumber
      ensures streamingRequests == [] && generation == old(generation) + 1
      ensures lastFrameNumber == old(streamingLastFrameNumber)
      ensures streamingLastFrameNumber == NO_IN_FLIGHT_REPEATING_FRAMES
    {
      streamingRequests := [];
      generation := generation + 1;
      lastFrameNumber := streamingLastFrameNumber;
      streamingLastFrameNumber := NO_IN_FLIGHT_REPEATING_FRAMES;
    }

    /** `GetRequest` once there is a request to serve. */
    method GetRequest() returns (posts: seq<Monitor.Transition>)
      requires currentRequest.None? && (requests != [] || streamingRequests != [])
      modifies this`requests, this`currentFrameNumber, this`issued, this`pausedState, this`oldRequest,
               this`configurationUpdate, this`currentRequest, this`enqueued, this`streamingLastFrameNumber
      ensures Model() == Step(old(Model()), Taken) && posts == Posts(old(Model()), Taken)
    {
      hide IssueHead, Burst;
      var next := NextRequest();
      posts := TakeUp(next);
    }

    /** The end of `GetRequest`. */
    method TakeUp(next: Issue) returns (posts: seq<Monitor.Transition>)
      modifies this`pausedState, this`oldRequest, this`configurationUpdate, this`currentRequest
      ensures !pausedState && posts == if old(pausedState) then [Monitor.Transition(monitorId, Monitor.ACTIVE)] else []
      ensures oldRequest == (if old(configurationUpdate) then None else old(oldRequest)) && !configurationUpdate
      ensures currentRequest == Some(next)
    {
      posts := Wake();
      ApplyConfiguration();
      currentRequest := Some(next);
    }

    /** After a configuration the next request carries its settings. */
    method ApplyConfiguration()
      modifies this`oldRequest, this`configurationUpdate
      ensures oldRequest == (if old(configurationUpdate) then None else old(oldRequest)) && !configurationUpdate
    {
      if configurationUpdate {
        oldRequest := None;
        configurationUpdate := false;
      }
    }

    /** The first request of a burst, whose others are enqueued, or the head of the queue; it gets
        the next number. */
    method NextRequest() returns (next: Issue)
      requires requests != [] || streamingRequests != []
      modifies this`requests, this`currentFrameNumber, this`issued, this`enqueued, this`streamingLastFrameNumber
      ensures var s := old(Model());
              && Model() == IssueHead(if s.requests == [] then Burst(s) else s, false)
              && next == Model().issued[|Model().issued| - 1]
    {
      hide Wrap32;
      var nextRequest: Entry;
      if requests == [] {
        var requestList := Tagged(streamingRequests, Repeating(generation));
        nextRequest := requestList[0];
        requests := requests + requestList[1..];
        streamingLastFrameNumber := currentFrameNumber + |requestList| - 1;
        enqueued := enqueued + requestList;
      } else {
        nextRequest := requests[0];
        requests := requests[1..];
      }
      next := Issue(nextRequest, currentFrameNumber, false);
      currentFrameNumber := Wrap32(currentFrameNumber + 1);
      issued := issued + [next];
    }

    method Wake() returns (posts: seq<Monitor.Transition>)
      modifies this`pausedState
      ensures !pausedState && posts == if old(pausedState) then [Monitor.Transition(monitorId, Monitor.ACTIVE)] else []
    {
      posts := [];
      if pausedState {
        posts := [Monitor.Transition(monitorId, Monitor.ACTIVE)];
      }
      pausedState := false;
    }

    /** The end of the wait in `GetRequest`; `idle` tells the worker to go round again. */
    method WaitEnded(exiting: bool) returns (idle: bool, posts: seq<Monitor.Transition>)
      modifies this`pausedState
      ensures Model() == Step(old(Model()), WaitOver(exiting)) && posts == Posts(old(Model()), WaitOver(exiting))
      ensures idle <==> exiting || (requests == [] && streamingRequests == [])
    {
      posts := [];
      idle := (requests == [] && streamingRequests == []) || exiting;
      if idle && !pausedState {
        pausedState := true;
        posts := [Monitor.Transition(monitorId, Monitor.IDLE)];
      }
    }

    method WaitOnPause() returns (posts: seq<Monitor.Transition>)
      modifies this`pausedState
      ensures Model() == Step(old(Model()), PauseChecked) && posts == Posts(old(Model()), PauseChecked)
    {
      posts := [];
      if currentFrameNumber % batchSize != 0 {
        return;
      }
      if togglePauseState && !pausedState {
        pausedState := true;
        posts := [Monitor.Transition(monitorId, Monitor.IDLE)];
      }
    }

    /** The decision about the settings and what becomes of the request; `carried` are the
        settings put into it. */
    method SubmitRequest(verdict: Verdict) returns (carried: Option<int>)
      requires currentRequest.Some?
      modifies this`oldRequest, this`currentRequest, this`hal, this`frames
      ensures Model() == Step(old(Model()), Submitted(verdict))
      ensures var next := old(currentRequest).value.entry.request;
              carried == if Carries(old(Model()), next) then Some(next.settings) else None
    {
      var issue := currentRequest.value;
      var next := issue.entry.request;
      carried := None;
      if oldRequest.None? || oldRequest.value.id != next.id {
        carried := Some(next.settings);
        oldRequest := Some(next);
      }
      if verdict.Accepted? {
        hal := if carried.Some? then carried else hal;
        frames := frames + [Frame(issue.number, next, carried, hal)];
      }
      currentRequest := None;
    }
  }

  lemma ReportHeld(s: State)
    requires RepeatOk(s)
    ensures ReportOf(s.enqueued, s.generation, s.streamingLast)
  {
  }

  lemma FlushOne(s: State)
    requires s.requests != []
    ensures FlushAll(s) == FlushAll(IssueHead(s, true))
  {
  }

  lemma FlushNone(s: State)
    requires s.requests == []
    ensures FlushAll(s) == s
  {
  }
}
