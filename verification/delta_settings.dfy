/** Settings sent only on a change of request id stand for full settings. The client layer that
    assigns the ids is part of the state. */
module DeltaSettings {
  import opened Wrappers
  import opened RequestScheduler

  /** `next` is the next request id. `idsRead` are the ids read by callers that do not hold the lock
      yet. The history: the requests given to the handler, and one past the highest id given. */
  datatype Client = Client(next: nat, idsRead: map<int, nat>, given: seq<Request>, high: nat, handler: State)

  function NewClient(errorCb: bool, monitorId: int): Client {
    Client(0, map[], [], 0, Initial(errorCb, monitorId))
  }

  /** The requests of a list whose first id is `requestId`. */
  function WithIds(requestId: nat, settings: seq<int>): (r: seq<Request>)
    ensures |r| == |settings|
    ensures forall i :: 0 <= i < |r| ==> r[i] == Request(requestId + i, settings[i])
  {
    seq(|settings|, i requires 0 <= i < |settings| => Request(requestId + i, settings[i]))
  }

  /** `SubmitRequestList` reads the next id before it takes the lock, and uses what it read after.
      `Other` is any other event of the handler. */
  datatype ClientEvent =
    | IdRead(caller: int) | Listed(caller: int, settings: seq<int>, streaming: bool) | Other(e: Event)

  function ClientStep(c: Client, ev: ClientEvent): Client {
    match ev
    case IdRead(caller) => c.(idsRead := c.idsRead[caller := c.next])
    case Listed(caller, settings, streaming) =>
      if caller !in c.idsRead || settings == [] then c
      else
        var list, last := WithIds(c.idsRead[caller], settings), c.idsRead[caller] + |settings|;
        Client(last, c.idsRead - {caller}, c.given + list, if last > c.high then last else c.high,
               Step(c.handler, if streaming then RepeatingSet(list) else Queued(list)))
    case Other(e) => c.(handler := Step(c.handler, e))
  }

  function ClientRun(c: Client, events: seq<ClientEvent>): Client {
    if events == [] then c else ClientStep(ClientRun(c, events[..|events| - 1]), events[|events| - 1])
  }

  // ----- request ids

  /** No two requests with the same id have different settings. */
  predicate SingleValued(given: seq<Request>) {
    forall i, j :: 0 <= i < |given| && 0 <= j < |given| && given[i].id == given[j].id ==> given[i] == given[j]
  }

  predicate AllNew(given: seq<Request>, list: seq<Request>) {
    forall i, k :: 0 <= i < |list| && 0 <= k < |given| ==> list[i].id != given[k].id
  }

  /** Where a list reuses an id, it has the settings that id already has. */
  predicate Agree(given: seq<Request>, list: seq<Request>) {
    forall i, k :: 0 <= i < |list| && 0 <= k < |given| && list[i].id == given[k].id ==> list[i] == given[k]
  }

  ghost predicate HasId(given: seq<Request>, id: nat) {
    exists k :: 0 <= k < |given| && given[k].id == id
  }

  /** The ids given are those below the highest, and no caller has read a higher one. */
  ghost predicate IdsOk(c: Client) {
    && (forall k :: 0 <= k < |c.given| ==> c.given[k].id < c.high)
    && (forall id :: 0 <= id < c.high ==> HasId(c.given, id))
    && c.next <= c.high
    && (forall caller :: caller in c.idsRead ==> c.idsRead[caller] <= c.high)
  }

  lemma HasIdGrows(given: seq<Request>, list: seq<Request>, id: nat)
    ensures HasId(given + list, id) <==> HasId(given, id) || HasId(list, id)
  {
    if k :| 0 <= k < |given| && given[k].id == id { assert (given + list)[k].id == id; }
    if k :| 0 <= k < |list| && list[k].id == id { assert (given + list)[|given| + k].id == id; }
  }

  lemma IdsStep(c: Client, ev: ClientEvent)
    requires IdsOk(c)
    ensures IdsOk(ClientStep(c, ev))
  {
    if ev.Listed? && ev.caller in c.idsRead && ev.settings != [] {
      var r := c.idsRead[ev.caller];
      var list, c' := WithIds(r, ev.settings), ClientStep(c, ev);
      forall id | 0 <= id < c'.high ensures HasId(c'.given, id) {
        HasIdGrows(c.given, list, id);
        if id >= c.high { assert list[id - r].id == id; }
      }
    }
  }

  lemma {:induction false} IdsInvariant(errorCb: bool, id: int, events: seq<ClientEvent>)
    ensures IdsOk(ClientRun(NewClient(errorCb, id), events))
  {
    if events != [] {
      hide IdsOk, ClientStep;
      IdsInvariant(errorCb, id, events[..|events| - 1]);
      IdsStep(ClientRun(NewClient(errorCb, id), events[..|events| - 1]), events[|events| - 1]);
    }
  }

  /** In every reachable state: the ids of a list are all new exactly when its first one is not
      below the highest given, and the list leaves the next id below the highest exactly when it
      ends there. While no list has done so the bound is the next id, which a caller could
      compare under the lock with the one it read before. */
  lemma IdsNewExactly(c: Client, requestId: nat, settings: seq<int>)
    requires IdsOk(c) && settings != []
    ensures AllNew(c.given, WithIds(requestId, settings)) <==> requestId >= c.high
    ensures c.next == c.high ==> (AllNew(c.given, WithIds(requestId, settings)) <==> requestId >= c.next)
    ensures forall caller, streaming :: caller in c.idsRead && c.idsRead[caller] == requestId ==>
              var c' := ClientStep(c, Listed(caller, settings, streaming));
              c'.next == c'.high <==> requestId + |settings| >= c.high
  {
    var list := WithIds(requestId, settings);
    assert list[0].id == requestId;
    if requestId < c.high {
      assert HasId(c.given, requestId);
      var k :| 0 <= k < |c.given| && c.given[k].id == requestId;
      assert list[0].id == c.given[k].id;
    }
  }

  /** Ids keep one settings value each exactly when every id a list reuses is given the settings it
      already has. */
  lemma IdsSingleExactly(given: seq<Request>, requestId: nat, settings: seq<int>)
    requires SingleValued(given)
    ensures SingleValued(given + WithIds(requestId, settings)) <==> Agree(given, WithIds(requestId, settings))
  {
    var list := WithIds(requestId, settings);
    var all := given + list;
    assert forall i :: 0 <= i < |list| ==> all[|given| + i] == list[i];
    assert forall k :: 0 <= k < |given| ==> all[k] == given[k];
  }

  // ----- settings

  /** The hypotheses: a list gives no id other settings than it has; the HAL is configured with no
      request in the worker's hands; a request skipped carried no settings, or settings the HAL
      has anyway, or they will be sent again after a configuration. Lists reach the handler only
      through the client layer. */
  predicate Careful(c: Client, ev: ClientEvent) {
    match ev
    case IdRead(_) => true
    case Listed(caller, settings, _) => caller in c.idsRead ==> Agree(c.given, WithIds(c.idsRead[caller], settings))
    case Other(e) =>
      match e
      case Queued(_) => false
      case RepeatingSet(_) => false
      case Configured(_) => c.handler.current.None?
      case Submitted(v) => v.Accepted? || c.handler.current.None? || SkipIsHarmless(c.handler)
      case _ => true
  }

  /** What can be told when the request in the worker's hands is skipped. */
  predicate SkipIsHarmless(s: State)
    requires s.current.Some?
  {
    var next := s.current.value.entry.request;
    !Carries(s, next) || s.hal == Some(next.settings) || s.configUpdate
  }

  predicate CarefulRun(c: Client, events: seq<ClientEvent>) {
    forall k :: 0 <= k < |events| ==> Careful(ClientRun(c, events[..k]), events[k])
  }

  predicate AllKnown(given: seq<Request>, s: State) {
    && (forall k :: 0 <= k < |s.requests| ==> s.requests[k].request in given)
    && (forall k :: 0 <= k < |s.streaming| ==> s.streaming[k] in given)
    && (s.current.Some? ==> s.current.value.entry.request in given)
    && (s.previous.Some? ==> s.previous.value in given)
  }

  /** The HAL has the settings that were last sent, unless they will be sent again. */
  predicate Synced(s: State) {
    s.previous.Some? && !(s.configUpdate && s.current.None?) ==> s.hal == Some(s.previous.value.settings)
  }

  /** For every frame accepted, the last settings the HAL got since it was configured are the
      frame's own. */
  predicate FullSettings(s: State) {
    forall k :: 0 <= k < |s.frames| ==> s.frames[k].held == Some(s.frames[k].request.settings)
  }

  predicate DeltaOk(c: Client) {
    SingleValued(c.given) && AllKnown(c.given, c.handler) && Synced(c.handler) && FullSettings(c.handler)
  }

  lemma KnownGrows(given: seq<Request>, list: seq<Request>, s: State)
    requires AllKnown(given, s)
    ensures AllKnown(given + list, s)
    ensures forall i :: 0 <= i < |list| ==> list[i] in given + list
  {
  }

  lemma ListedDelta(c: Client, caller: int, settings: seq<int>, streaming: bool)
    requires DeltaOk(c) && Careful(c, Listed(caller, settings, streaming))
    ensures DeltaOk(ClientStep(c, Listed(caller, settings, streaming)))
  {
    if caller in c.idsRead && settings != [] {
      var list := WithIds(c.idsRead[caller], settings);
      KnownGrows(c.given, list, c.handler);
      IdsSingleExactly(c.given, c.idsRead[caller], settings);
      hide WithIds, SingleValued, Agree, Tagged;
      assert forall k :: 0 <= k < |list| ==> list[k] in c.given + list;
    }
  }

  lemma ClearDelta(c: Client)
    requires DeltaOk(c)
    ensures DeltaOk(c.(handler := Clear(c.handler)))
  {
    FlushKeeps(c.handler);
    hide FlushAll, SingleValued;
  }

  lemma TakenDelta(c: Client)
    requires DeltaOk(c)
    ensures DeltaOk(c.(handler := GetRequest(c.handler)))
  {
    hide Wrap32, SingleValued;
  }

  lemma SubmittedDelta(c: Client, v: Verdict)
    requires DeltaOk(c) && Careful(c, Other(Submitted(v)))
    ensures DeltaOk(c.(handler := SubmitRequest(c.handler, v)))
  {
  }

  lemma DeltaStep(c: Client, ev: ClientEvent)
    requires DeltaOk(c) && Careful(c, ev)
    ensures DeltaOk(ClientStep(c, ev))
  {
    hide Clear, GetRequest, SubmitRequest, SingleValued, Agree;
    match ev
    case IdRead(caller) =>
    case Listed(caller, settings, streaming) => ListedDelta(c, caller, settings, streaming);
    case Other(e) =>
      match e {
        case Queued(list) => assert false;
        case RepeatingSet(list) => assert false;
        case Flushed => ClearDelta(c);
        case Taken => TakenDelta(c);
        case Submitted(v) => SubmittedDelta(c, v);
        case _ =>
      }
  }

  /** Over every careful run: each frame the HAL accepts finds it with the frame's own settings,
      got since the last configuration, so the first one after it carries them. */
  lemma {:induction false} DeltaRefinesFull(errorCb: bool, id: int, events: seq<ClientEvent>)
    requires CarefulRun(NewClient(errorCb, id), events)
    ensures DeltaOk(ClientRun(NewClient(errorCb, id), events))
  {
    var c := NewClient(errorCb, id);
    if events != [] {
      var init := events[..|events| - 1];
      forall k | 0 <= k < |init| ensures Careful(ClientRun(c, init[..k]), init[k]) { assert init[..k] == events[..k]; }
      hide Careful, DeltaOk;
      DeltaRefinesFull(errorCb, id, init);
      DeltaStep(ClientRun(c, init), events[|events| - 1]);
    }
  }

  // ----- the condition is exact

  /** What may happen before the request of this id is submitted again: anything but a
      configuration of the HAL with a request in hand. */
  predicate Allowed(s: State, e: Event, id: nat) {
    match e
    case Submitted(_) => s.current.None? || s.current.value.entry.request.id != id
    case Configured(_) => s.current.None?
    case _ => true
  }

  predicate Admitted(s: State, events: seq<Event>, id: nat) {
    events == [] || (Admitted(s, events[..|events| - 1], id)
                     && Allowed(Run(s, events[..|events| - 1]), events[|events| - 1], id))
  }

  /** A request is submitted, or the HAL is configured. */
  predicate Moves(s: State, e: Event) {
    e.Configured? || (e.Submitted? && s.current.Some?)
  }

  predicate SomeMove(s: State, events: seq<Event>) {
    events != [] && (SomeMove(s, events[..|events| - 1])
                     || Moves(Run(s, events[..|events| - 1]), events[|events| - 1]))
  }

  predicate InHand(s: State, r: Request) {
    s.current.Some? && s.current.value.entry.request == r
  }

  /** A frame for the request in hand would find the HAL with its own settings. */
  predicate FindsItsSettings(s: State)
    requires s.current.Some?
  {
    var t := SubmitRequest(s, Accepted);
    t.frames[|t.frames| - 1].held == Some(s.current.value.entry.request.settings)
  }

  /** However the worker comes to have the request again as the next one of its id that it
      submits, an accepted frame for it finds the HAL with its settings. */
  ghost predicate NextFrameRight(s: State, r: Request) {
    forall between :: Admitted(s, between, r.id) && InHand(Run(s, between), r) ==> FindsItsSettings(Run(s, between))
  }

  /** The next request of this id will carry its settings. */
  predicate WillCarry(s: State, id: nat) {
    s.previous.None? || s.previous.value.id != id || (s.configUpdate && s.current.None?)
  }

  /** A submission or a configuration makes the next request of this id carry its settings, and
      nothing admitted changes that. */
  lemma MoveMakesCarry(s: State, e: Event, id: nat)
    requires Allowed(s, e, id) && (WillCarry(s, id) || Moves(s, e))
    ensures WillCarry(Step(s, e), id)
  {
    if e.Flushed? { FlushKeeps(s); }
    hide FlushAll, Tagged, Wrap32;
  }

  /** With nothing submitted or configured the HAL and the settings last sent stay as they are,
      except that taking a request after a configuration forgets the latter. */
  ghost predicate Kept(s: State, t: State) {
    && t.hal == s.hal
    && (if s.configUpdate && t.current.Some? then t.previous.None? && !t.configUpdate
        else t.previous == s.previous && t.configUpdate == s.configUpdate)
  }

  lemma OtherEventKeeps(s: State, t: State, e: Event)
    requires Kept(s, t) && !Moves(t, e)
    ensures Kept(s, Step(t, e))
  {
    if e.Flushed? { FlushKeeps(t); }
    hide FlushAll, Tagged, Wrap32;
  }

  lemma {:induction false} BetweenKeeps(s: State, between: seq<Event>, id: nat)
    requires s.current.None? && Admitted(s, between, id)
    ensures if SomeMove(s, between) then WillCarry(Run(s, between), id) else Kept(s, Run(s, between))
  {
    if between != [] {
      hide Step, Kept, WillCarry, Allowed, Moves;
      var init, e := between[..|between| - 1], between[|between| - 1];
      BetweenKeeps(s, init, id);
      if SomeMove(s, init) || Moves(Run(s, init), e) {
        MoveMakesCarry(Run(s, init), e, id);
      } else {
        OtherEventKeeps(s, Run(s, init), e);
      }
    }
  }

  lemma {:induction false} NothingMoves(s: State, events: seq<Event>, id: nat)
    requires forall k :: 0 <= k < |events| ==> !events[k].Submitted? && !events[k].Configured?
    ensures Admitted(s, events, id) && !SomeMove(s, events)
  {
    if events != [] { NothingMoves(s, events[..|events| - 1], id); }
  }

  /** The worker can come to have any request as the next one. */
  lemma CanBeNext(s: State, r: Request) returns (between: seq<Event>)
    requires s.current.None?
    ensures Admitted(s, between, r.id) && !SomeMove(s, between) && InHand(Run(s, between), r)
  {
    between := [Flushed, RepeatingSet([r]), Taken];
    NothingMoves(s, between, r.id);
    hide Admitted, SomeMove;
    FlushKeeps(s);
    assert between[..2][..1] == between[..1] && between[..1][..0] == [];
    var s1 := Step(s, Flushed);
    assert Run(s, between[..1]) == s1;
    hide FlushAll;
    assert s1.requests == [] && s1.current.None?;
    var s2 := Step(s1, RepeatingSet([r]));
    assert Run(s, between[..2]) == s2;
    assert Step(s2, Taken).current.value.entry.request == r;
  }

  /** Whatever happens between a skipped request and the next submission of its id, an accepted
      frame for the same request finds the HAL with its settings exactly if the skipped one carried
      none, or ones the HAL has anyway, or the HAL was being configured, or some other request is
      submitted or the HAL configured in between. As this can also be the very next submission, every
      next frame is right exactly if the skip is harmless. */
  lemma SkipKeepsFramesRightExactly(c: Client, v: Verdict)
    requires DeltaOk(c) && c.handler.current.Some? && !v.Accepted?
    ensures var s, next := c.handler, c.handler.current.value.entry.request;
            var s1 := SubmitRequest(s, v);
            && (NextFrameRight(s1, next) <==> SkipIsHarmless(s))
            && (forall between :: Admitted(s1, between, next.id) && InHand(Run(s1, between), next) ==>
                  (FindsItsSettings(Run(s1, between)) <==> SkipIsHarmless(s) || SomeMove(s1, between)))
  {
    var s, next := c.handler, c.handler.current.value.entry.request;
    var s1 := SubmitRequest(s, v);
    SameIdSameRequest(c);
    hide DeltaOk;
    forall between | Admitted(s1, between, next.id) && InHand(Run(s1, between), next)
      ensures FindsItsSettings(Run(s1, between)) <==> SkipIsHarmless(s) || SomeMove(s1, between)
    {
      BetweenKeeps(s1, between, next.id);
      hide Run, SomeMove, Admitted;
    }
    var between := CanBeNext(s1, next);
    assert Admitted(s1, between, next.id) && InHand(Run(s1, between), next);
  }

  lemma SameIdSameRequest(c: Client)
    requires DeltaOk(c)
    ensures var s := c.handler;
            && Synced(s)
            && (s.current.Some? && s.previous.Some? && s.previous.value.id == s.current.value.entry.request.id ==>
                  s.previous.value == s.current.value.entry.request)
  {
  }

  // ----- runs that break it

  /** A run from its first event on. */
  function From(c: Client, events: seq<ClientEvent>): Client
    decreases |events|
  {
    if events == [] then c else From(ClientStep(c, events[0]), events[1..])
  }

  lemma {:induction false} Unrolled(c: Client, events: seq<ClientEvent>)
    ensures ClientRun(c, events) == From(c, events)
    decreases |events|
  {
    if |events| > 1 {
      var init := events[..|events| - 1];
      hide ClientStep;
      Unrolled(c, init);
      Unrolled(ClientStep(c, events[0]), events[1..]);
      Unrolled(ClientStep(c, events[0]), init[1..]);
      assert events[1..][..|events| - 2] == init[1..];
    }
  }

  lemma FromTwo(c: Client, events: seq<ClientEvent>)
    requires |events| >= 2
    ensures From(c, events) == From(ClientStep(ClientStep(c, events[0]), events[1]), events[2..])
  {
    assert events[1..][1..] == events[2..];
    hide ClientStep;
  }

  /** A run of six events. */
  lemma SixSteps(c: Client, e: seq<ClientEvent>)
    requires |e| == 6
    ensures var c2 := ClientStep(ClientStep(c, e[0]), e[1]);
            var c4 := ClientStep(ClientStep(c2, e[2]), e[3]);
            ClientRun(c, e) == ClientStep(ClientStep(c4, e[4]), e[5])
  {
    hide ClientStep;
    Unrolled(c, e);
    var c2 := ClientStep(ClientStep(c, e[0]), e[1]);
    var c4 := ClientStep(ClientStep(c2, e[2]), e[3]);
    FromTwo(c, e);
    FromTwo(c2, e[2..]);
    assert e[2..][2..] == e[4..];
    FromTwo(c4, e[4..]);
  }

  lemma SkippedOnce(s: State, r: Request)
    requires s.streaming == [r] && s.requests == [] && s.frame == 0 && s.frames == []
    requires s.current.None? && s.previous.None? && s.hal.None? && !s.configUpdate
    ensures var t := Step(Step(s, Taken), Submitted(NoBuffer));
            Step(Step(t, Taken), Submitted(Accepted)).frames == [Frame(1, r, None, None)]
  {
    var t := Step(Step(s, Taken), Submitted(NoBuffer));
    assert t.requests == [] && t.streaming == [r] && t.frame == 1 && t.frames == [];
    assert t.current.None? && t.previous == Some(r) && t.hal.None? && !t.configUpdate;
  }

  /** A repeating request skipped once for want of a buffer is then accepted by a HAL that never
      got its settings. */
  lemma SkipLosesSettings(errorCb: bool, id: int, settings: int)
    ensures var events := [IdRead(1), Listed(1, [settings], true), Other(Taken), Other(Submitted(NoBuffer)),
                           Other(Taken), Other(Submitted(Accepted))];
            ClientRun(NewClient(errorCb, id), events).handler.frames == [Frame(1, Request(0, settings), None, None)]
  {
    SixSteps(NewClient(errorCb, id),
             [IdRead(1), Listed(1, [settings], true), Other(Taken), Other(Submitted(NoBuffer)),
              Other(Taken), Other(Submitted(Accepted))]);
    assert WithIds(0, [settings]) == [Request(0, settings)];
    SkippedOnce(Step(Initial(errorCb, id), RepeatingSet([Request(0, settings)])), Request(0, settings));
    hide Step;
  }

  /** Two callers that read the request id before either takes the lock give two requests the
      same id, and the second goes to the HAL without its settings. */
  lemma RacingCallersShareAnId(errorCb: bool, id: int, a: int, b: int)
    requires a != b
    ensures var events := [IdRead(1), IdRead(2), Listed(1, [a], false), Listed(2, [b], false),
                           Other(Taken), Other(Submitted(Accepted)), Other(Taken), Other(Submitted(Accepted))];
            ClientRun(NewClient(errorCb, id), events).handler.frames
            == [Frame(0, Request(0, a), Some(a), Some(a)), Frame(1, Request(0, b), None, Some(a))]
  {
    var c, x, y := NewClient(errorCb, id), Request(0, a), Request(0, b);
    var e := [IdRead(1), IdRead(2), Listed(1, [a], false), Listed(2, [b], false),
              Other(Taken), Other(Submitted(Accepted)), Other(Taken), Other(Submitted(Accepted))];
    assert e[..4] == [IdRead(1), IdRead(2), Listed(1, [a], false), Listed(2, [b], false)];
    hide From, ClientRun, Step;
    BothListed(c, a, b);
    var c4 := From(c, e[..4]);
    EightSteps(c, e);
    SameIdTwice(c4.handler, x, y);
  }

  lemma EightSteps(c: Client, e: seq<ClientEvent>)
    requires |e| == 8
    ensures var c6 := ClientStep(ClientStep(From(c, e[..4]), e[4]), e[5]);
            ClientRun(c, e) == ClientStep(ClientStep(c6, e[6]), e[7])
  {
    hide ClientStep;
    var c4 := ClientRun(c, e[..4]);
    Unrolled(c, e[..4]);
    RunSnoc(c, e[..4], e[4]);
    RunSnoc(c, e[..4] + [e[4]], e[5]);
    RunSnoc(c, e[..4] + [e[4]] + [e[5]], e[6]);
    RunSnoc(c, e[..4] + [e[4]] + [e[5]] + [e[6]], e[7]);
    assert e == e[..4] + [e[4]] + [e[5]] + [e[6]] + [e[7]];
  }

  lemma BothListed(c: Client, a: int, b: int)
    requires c.next == 0 && c.handler.requests == [] && c.handler.enqueued == [] && !c.handler.toggle
    ensures var c4 := From(c, [IdRead(1), IdRead(2), Listed(1, [a], false), Listed(2, [b], false)]);
            && c4.handler.requests == [Entry(Request(0, a), OneShot), Entry(Request(0, b), OneShot)]
            && c4.handler == c.handler.(requests := c4.handler.requests, enqueued := c4.handler.enqueued,
               paused := false)
  {
    var e := [IdRead(1), IdRead(2), Listed(1, [a], false), Listed(2, [b], false)];
    assert WithIds(0, [a]) == [Request(0, a)] && WithIds(0, [b]) == [Request(0, b)];
    FromTwo(c, e);
    var c2 := ClientStep(ClientStep(c, e[0]), e[1]);
    FromTwo(c2, e[2..]);
    assert e[2..][2..] == [];
  }

  /** Two requests with one id, taken and accepted one after the other. */
  lemma SameIdTwice(s: State, x: Request, y: Request)
    requires s.requests == [Entry(x, OneShot), Entry(y, OneShot)] && x.id == y.id
    requires s.current.None? && s.previous.None? && s.hal.None? && s.frames == [] && s.frame == 0 && !s.configUpdate
    ensures var t := Step(Step(s, Taken), Submitted(Accepted));
            Step(Step(t, Taken), Submitted(Accepted)).frames
            == [Frame(0, x, Some(x.settings), Some(x.settings)), Frame(1, y, None, Some(x.settings))]
  {
    var t := Step(Step(s, Taken), Submitted(Accepted));
    assert t.requests == [Entry(y, OneShot)] && t.frame == 1 && t.current.None?;
    assert t.frames == [Frame(0, x, Some(x.settings), Some(x.settings))];
    assert t.previous == Some(x) && t.hal == Some(x.settings) && !t.configUpdate;
  }

  lemma RunSnoc(c: Client, events: seq<ClientEvent>, e: ClientEvent)
    ensures ClientRun(c, events + [e]) == ClientStep(ClientRun(c, events), e)
  {
    assert (events + [e])[..|events|] == events;
  }

  /** Such a race can set the next id back, and then a caller that races with no one shares an id. */
  lemma RaceSetsIdsBack(errorCb: bool, id: int, a: int, b: int, d: int)
    requires b != d
    ensures var events := [IdRead(1), IdRead(2), Listed(1, [a, b], false), Listed(2, [a], false),
                           IdRead(3), Listed(3, [d], false)];
            ClientRun(NewClient(errorCb, id), events).given
            == [Request(0, a), Request(1, b), Request(0, a), Request(1, d)]
  {
    SixSteps(NewClient(errorCb, id),
             [IdRead(1), IdRead(2), Listed(1, [a, b], false), Listed(2, [a], false), IdRead(3), Listed(3, [d], false)]);
    assert WithIds(0, [a, b]) == [Request(0, a), Request(1, b)];
    hide Step;
  }
}
