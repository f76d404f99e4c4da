/** Waiting for the device to run or to stop running: listeners read a shared log of the state
    updates, which is only cleared when there is no listener. */
module StateWaiting {
  import opened Wrappers

  datatype State = ERROR | NOT_INITIALIZED | CLOSED | NOT_CONFIGURED | CONFIGURED | RUNNING

  /** A listener: what it waits for and where in the log it starts. The history: the state when
      it began, the updates since, and how many of these it saw when it last woke up. */
  datatype Wait = Wait(active: bool, startIndex: nat, began: State, since: seq<State>, seen: nat)

  datatype Client = Client(state: State, updates: seq<State>, listeners: nat, waiting: map<int, Wait>)

  function Initial(): Client { Client(NOT_INITIALIZED, [], 0, map[]) }

  /** Whether a state is the one waited for. */
  predicate Wanted(active: bool, state: State) { active == (state == RUNNING) }

  predicate SomeWanted(active: bool, updates: seq<State>) {
    exists i :: 0 <= i < |updates| && Wanted(active, updates[i])
  }

  /** The lock-held parts: an update; the begin of a wait, by a caller with a name of its own; a
      wake-up; a timeout. */
  datatype Event = Updated(state: State) | Began(id: int, active: bool) | Woken(id: int) | TimedOut(id: int)

  /** `code` is what a wait that ends returns. */
  datatype Outcome = Outcome(c: Client, code: Option<int>)

  const TIMED_OUT := -110

  function Update(c: Client, state: State): Client {
    c.(state := state, updates := c.updates + [state],
       waiting := map id | id in c.waiting :: c.waiting[id].(since := c.waiting[id].since + [state]))
  }

  function Begin(c: Client, id: int, active: bool): Outcome {
    var updates := if c.listeners == 0 then [] else c.updates;
    if Wanted(active, c.state) then Outcome(c.(updates := updates), Some(0))
    else Outcome(c.(updates := updates, listeners := c.listeners + 1,
                    waiting := c.waiting[id := Wait(active, |updates|, c.state, [], 0)]), None)
  }

  function Leave(c: Client, id: int): Client {
    c.(listeners := if c.listeners > 0 then c.listeners - 1 else 0, waiting := c.waiting - {id})
  }

  function Wake(c: Client, id: int): Outcome {
    if id !in c.waiting then Outcome(c, None)
    else
      var w := c.waiting[id];
      if w.startIndex <= |c.updates| && SomeWanted(w.active, c.updates[w.startIndex..])
          then Outcome(Leave(c, id), Some(0))
      else if Wanted(w.active, c.state) then Outcome(Leave(c, id), Some(0))
      else Outcome(c.(waiting := c.waiting[id := w.(seen := |w.since|)]), None)
  }

  function Step(c: Client, e: Event): Outcome {
    match e
    case Updated(state) => Outcome(Update(c, state), None)
    case Began(id, active) => if id in c.waiting then Outcome(c, None) else Begin(c, id, active)
    case Woken(id) => Wake(c, id)
    case TimedOut(id) => if id in c.waiting then Outcome(Leave(c, id), Some(TIMED_OUT)) else Outcome(c, None)
  }

  function Run(c: Client, events: seq<Event>): Client {
    if events == [] then c else Step(Run(c, events[..|events| - 1]), events[|events| - 1]).c
  }

  /** A listener's part of the log is exactly the updates since it began, when the state was not
      the one it waits for, and the state is the last of these. None of those it saw at a wake-up
      was the one it waits for. */
  predicate WaitOk(c: Client, w: Wait) {
    && w.startIndex <= |c.updates| && c.updates[w.startIndex..] == w.since
    && w.seen <= |w.since| && !SomeWanted(w.active, w.since[..w.seen])
    && !Wanted(w.active, w.began)
    && c.state == if w.since == [] then w.began else w.since[|w.since| - 1]
  }

  predicate WaitsOk(c: Client) {
    c.listeners == |c.waiting| && forall id :: id in c.waiting ==> WaitOk(c, c.waiting[id])
  }

  lemma UpdateOk(c: Client, state: State)
    requires WaitsOk(c)
    ensures WaitsOk(Update(c, state))
  {
    var c' := Update(c, state);
    assert c'.waiting.Keys == c.waiting.Keys;
    assert |c'.waiting| == |c'.waiting.Keys| == |c.waiting.Keys| == |c.waiting|;
    forall id | id in c'.waiting ensures WaitOk(c', c'.waiting[id]) {
      assert WaitOk(c, c.waiting[id]);
      assert c'.updates[c.waiting[id].startIndex..] == c.updates[c.waiting[id].startIndex..] + [state];
      assert c'.waiting[id].since[..c.waiting[id].seen] == c.waiting[id].since[..c.waiting[id].seen];
    }
  }

  lemma BeginOk(c: Client, id: int, active: bool)
    requires WaitsOk(c) && id !in c.waiting
    ensures WaitsOk(Begin(c, id, active).c)
  {
    if c.listeners == 0 { assert c.waiting == map[]; }
    var c' := Begin(c, id, active).c;
    forall k | k in c'.waiting ensures WaitOk(c', c'.waiting[k]) {
      if k in c.waiting { assert WaitOk(c, c.waiting[k]); }
    }
  }

  lemma LeaveOk(c: Client, id: int)
    requires WaitsOk(c) && id in c.waiting
    ensures WaitsOk(Leave(c, id))
  {
    var c' := Leave(c, id);
    assert c'.waiting.Keys == c.waiting.Keys - {id};
    assert |c'.waiting| == |c'.waiting.Keys| && |c.waiting| == |c.waiting.Keys|;
    forall k | k in c'.waiting ensures WaitOk(c', c'.waiting[k]) { assert WaitOk(c, c.waiting[k]); }
  }

  lemma WakeOk(c: Client, id: int)
    requires WaitsOk(c)
    ensures WaitsOk(Wake(c, id).c)
  {
    if id in c.waiting {
      var w := c.waiting[id];
      assert WaitOk(c, w);
      if Wake(c, id).code.Some? {
        LeaveOk(c, id);
      } else {
        var c' := Wake(c, id).c;
        assert c'.waiting.Keys == c.waiting.Keys;
        assert |c'.waiting| == |c'.waiting.Keys| && |c.waiting| == |c.waiting.Keys|;
        assert w.since[..|w.since|] == w.since;
        forall k | k in c'.waiting ensures WaitOk(c', c'.waiting[k]) { assert WaitOk(c, c.waiting[k]); }
      }
    }
  }

  /** For any number of overlapping listeners, over every run, none misses an update. */
  lemma {:induction false} NoUpdateMissed(events: seq<Event>)
    ensures WaitsOk(Run(Initial(), events))
  {
    if events != [] {
      var c := Run(Initial(), events[..|events| - 1]);
      NoUpdateMissed(events[..|events| - 1]);
      hide WaitOk, Update, Begin, Leave, Wake;
      match events[|events| - 1]
      case Updated(state) => UpdateOk(c, state);
      case Began(id, active) => if id !in c.waiting { BeginOk(c, id, active); }
      case Woken(id) => WakeOk(c, id);
      case TimedOut(id) => if id in c.waiting { LeaveOk(c, id); }
    }
  }

  /** A listener that wakes up returns 0 exactly when some update since it began was to the state
      it waits for, even when the state changed again; if it does not, it waits on, and the state
      is still not the one it waits for. */
  lemma WakeSeesEveryUpdate(events: seq<Event>, id: int)
    requires id in Run(Initial(), events).waiting
    ensures var c := Run(Initial(), events);
            var w, o := c.waiting[id], Wake(c, id);
            && (o.code == Some(0) <==> SomeWanted(w.active, w.since))
            && (o.code == None <==> id in o.c.waiting)
            && (o.code == None ==> o.c == c.(waiting := c.waiting[id := w.(seen := |w.since|)]))
            && (o.code == None ==> !Wanted(w.active, c.state))
  {
    NoUpdateMissed(events);
    var c := Run(Initial(), events);
    var w := c.waiting[id];
    assert WaitOk(c, w);
    hide Run;
    if Wanted(w.active, c.state) { assert Wanted(w.active, w.since[|w.since| - 1]); }
  }

  /** The state waited for held at some moment of the wait. */
  predicate HeldMeanwhile(w: Wait) {
    Wanted(w.active, w.began) || SomeWanted(w.active, w.since)
  }

  /** Over every run, a listener that times out reports failure although the state it waits for
      held meanwhile exactly when some update after it last woke up was to that state. */
  lemma TimeoutHidesExactly(events: seq<Event>, id: int)
    requires id in Run(Initial(), events).waiting
    ensures var c := Run(Initial(), events);
            var w, o := c.waiting[id], Step(c, TimedOut(id));
            && o.code == Some(TIMED_OUT) && id !in o.c.waiting && w.seen <= |w.since|
            && (HeldMeanwhile(w) <==> SomeWanted(w.active, w.since[w.seen..]))
  {
    NoUpdateMissed(events);
    var c := Run(Initial(), events);
    var w := c.waiting[id];
    assert WaitOk(c, w);
    hide Run;
    assert w.since == w.since[..w.seen] + w.since[w.seen..];
    WantedInEither(w.active, w.since[..w.seen], w.since[w.seen..]);
  }

  lemma WantedInEither(active: bool, a: seq<State>, b: seq<State>)
    ensures SomeWanted(active, a + b) <==> SomeWanted(active, a) || SomeWanted(active, b)
  {
    assert forall i :: 0 <= i < |a| ==> (a + b)[i] == a[i];
    if i :| 0 <= i < |b| && Wanted(active, b[i]) { assert (a + b)[|a| + i] == b[i]; }
  }

  /** Such a run: the listener reports failure, where a wake-up would have reported success. */
  lemma TimeoutHidesUpdate()
    ensures var c := Run(Initial(), [Began(0, true), Updated(RUNNING)]);
            && 0 in c.waiting && c.waiting[0].since == [RUNNING]
            && Step(c, TimedOut(0)).code == Some(TIMED_OUT) && Step(c, Woken(0)).code == Some(0)
  {
    RunTwo(Initial(), Began(0, true), Updated(RUNNING));
    var c1 := Step(Initial(), Began(0, true)).c;
    assert c1.waiting == map[0 := Wait(true, 0, NOT_INITIALIZED, [], 0)];
    var c := Step(c1, Updated(RUNNING)).c;
    assert 0 in c.waiting && c.waiting[0].since == [RUNNING];
    assert Wanted(true, c.updates[0..][0]);
  }

  lemma RunTwo(c: Client, a: Event, b: Event)
    ensures Run(c, [a, b]) == Step(Step(c, a).c, b).c
  {
    assert [a, b][..1] == [a] && [a][..0] == [];
    assert Run(c, [a]) == Step(c, a).c;
  }

  // ----- what the answers mean, told by the events alone

  /** The state the updates of a run lead to. */
  function StateAfter(events: seq<Event>): State {
    if events == [] then NOT_INITIALIZED
    else
      match events[|events| - 1]
      case Updated(state) => state
      case _ => StateAfter(events[..|events| - 1])
  }

  /** The state a caller waits for: RUNNING, or any other. */
  predicate Means(active: bool, state: State) {
    if active then state == RUNNING else state != RUNNING
  }

  /** The state after the first m events is one asked for. */
  predicate HoldsAfter(events: seq<Event>, m: nat, active: bool)
    requires m <= |events|
  {
    Means(active, StateAfter(events[..m]))
  }

  /** The state waited for held right after some event from number `from` on. */
  ghost predicate HeldSince(events: seq<Event>, from: nat, active: bool) {
    exists m: nat :: from < m <= |events| && HoldsAfter(events, m, active)
  }

  /** The caller began its present wait with event number `j`, and has waited ever since. */
  ghost predicate WaitsSince(events: seq<Event>, id: int, active: bool, j: nat) {
    && j < |events| && events[j] == Began(id, active) && !Means(active, StateAfter(events[..j]))
    && forall m :: j < m <= |events| ==> id in Run(Initial(), events[..m]).waiting
  }

  lemma {:induction false} StateIsLast(events: seq<Event>)
    ensures Run(Initial(), events).state == StateAfter(events)
  {
    if events != [] { StateIsLast(events[..|events| - 1]); }
  }

  lemma HoldsAfterSnoc(events: seq<Event>, e: Event, m: nat, active: bool)
    requires m <= |events| + 1
    ensures HoldsAfter(events + [e], m, active)
            <==> if m <= |events| then HoldsAfter(events, m, active) else Means(active, StateAfter(events + [e]))
  {
    hide StateAfter, Means;
    var all := events + [e];
    assert if m <= |events| then all[..m] == events[..m] else all[..m] == all;
  }

  lemma HeldSinceSnoc(events: seq<Event>, e: Event, from: nat, active: bool)
    requires from < |events|
    ensures HeldSince(events + [e], from, active)
            <==> HeldSince(events, from, active) || Means(active, StateAfter(events + [e]))
  {
    hide StateAfter, Means, HoldsAfter;
    forall m: nat | m <= |events| + 1
      ensures HoldsAfter(events + [e], m, active)
              <==> if m <= |events| then HoldsAfter(events, m, active) else Means(active, StateAfter(events + [e]))
    {
      HoldsAfterSnoc(events, e, m, active);
    }
    assert HoldsAfter(events + [e], |events| + 1, active) <==> Means(active, StateAfter(events + [e]));
  }

  lemma WaitsSinceSnoc(events: seq<Event>, e: Event, id: int, active: bool, j: nat)
    requires WaitsSince(events, id, active, j) && id in Run(Initial(), events + [e]).waiting
    ensures WaitsSince(events + [e], id, active, j)
  {
    var all := events + [e];
    assert all[..j] == events[..j];
    forall m | j < m <= |all| ensures id in Run(Initial(), all[..m]).waiting {
      if m <= |events| { assert all[..m] == events[..m]; } else { assert all[..m] == all; }
    }
  }

  /** Whoever waits began to, at some event, and what it keeps of the updates since tells whether
      the state held. */
  lemma {:induction false} WaitBegan(events: seq<Event>, id: int) returns (j: nat)
    requires id in Run(Initial(), events).waiting
    ensures var w := Run(Initial(), events).waiting[id];
            && WaitsSince(events, id, w.active, j)
            && (SomeWanted(w.active, w.since) <==> HeldSince(events, j, w.active))
  {
    var init, e := events[..|events| - 1], events[|events| - 1];
    assert events == init + [e];
    var c, c' := Run(Initial(), init), Run(Initial(), events);
    StateIsLast(init);
    if id in c.waiting {
      StillWaits(c, e, id);
      j := WaitBegan(init, id);
      var w, w' := c.waiting[id], c'.waiting[id];
      hide Run, Step, StateAfter, WaitsSince, HeldSince;
      WaitsSinceSnoc(init, e, id, w.active, j);
      HeldSinceSnoc(init, e, j, w.active);
      LastTold(init, e, id, w.active, j, w.since);
    } else {
      j := |init|;
      assert events[..j] == init && events[..|events|] == events;
    }
  }

  /** A wait that goes on keeps what it waits for, and adds the update if there was one. */
  lemma StillWaits(c: Client, e: Event, id: int)
    requires id in c.waiting && id in Step(c, e).c.waiting
    ensures var w, w' := c.waiting[id], Step(c, e).c.waiting[id];
            w'.active == w.active && w'.since == if e.Updated? then w.since + [e.state] else w.since
  {
  }

  lemma LastTold(init: seq<Event>, e: Event, id: int, active: bool, j: nat, since: seq<State>)
    requires WaitsSince(init, id, active, j) && (SomeWanted(active, since) <==> HeldSince(init, j, active))
    ensures SomeWanted(active, if e.Updated? then since + [e.state] else since)
            <==> SomeWanted(active, since) || Means(active, StateAfter(init + [e]))
  {
    assert (init + [e])[..|init|] == init;
    if e.Updated? {
      WantedInEither(active, since, [e.state]);
      assert [e.state][0] == e.state;
    } else if |init| == j + 1 {
      assert init[..j] == init[..|init| - 1] && init[|init| - 1].Began?;
    } else {
      assert init[..|init|] == init;
      if Means(active, StateAfter(init)) { assert HoldsAfter(init, |init|, active); }
    }
  }

  /** In every reachable state, for a caller that does not wait: beginning to wait answers 0 at once
      exactly when the state is the one asked for; else the caller waits. The log of updates starts
      anew exactly if nobody else waits. */
  lemma BeganExactly(events: seq<Event>, id: int, active: bool)
    requires id !in Run(Initial(), events).waiting
    ensures var o := Step(Run(Initial(), events), Began(id, active));
            if Means(active, StateAfter(events)) then o.code == Some(0) && id !in o.c.waiting
            else o.code == None && id in o.c.waiting && o.c.waiting[id].active == active
    ensures var c := Run(Initial(), events);
            var log := Step(c, Began(id, active)).c.updates;
            log == if c.waiting == map[] then [] else c.updates
  {
    hide Run, StateAfter;
    StateIsLast(events);
    NoUpdateMissed(events);
    var c := Run(Initial(), events);
    assert c.waiting == map[] <==> |c.waiting| == 0;
  }

  /** A caller that wakes up answers 0 exactly when the state it waits for held after some event since
      it began, and else waits on. */
  lemma WokenExactly(events: seq<Event>, id: int) returns (j: nat)
    requires id in Run(Initial(), events).waiting
    ensures var c := Run(Initial(), events);
            var active, o := c.waiting[id].active, Step(c, Woken(id));
            && WaitsSince(events, id, active, j)
            && (o.code == Some(0) <==> HeldSince(events, j, active))
            && (o.code == Some(0) <==> id !in o.c.waiting)
  {
    WakeSeesEveryUpdate(events, id);
    j := WaitBegan(events, id);
    hide Run, WaitsSince, HeldSince;
  }

  /** Over every run: whenever a wait answers 0, the state it was for held at some moment from its
      begin to its return. */
  lemma SuccessMeansHeld(events: seq<Event>, e: Event)
    requires Step(Run(Initial(), events), e).code == Some(0)
    ensures match e
            case Began(id, active) => Means(active, StateAfter(events))
            case Woken(id) => exists j, active :: WaitsSince(events, id, active, j) && HeldSince(events, j, active)
            case _ => false
  {
    hide Run, WaitsSince, HeldSince, StateAfter;
    match e
    case Began(id, active) => if id !in Run(Initial(), events).waiting { BeganExactly(events, id, active); }
    case Woken(id) => if id in Run(Initial(), events).waiting { var j := WokenExactly(events, id); }
    case _ =>
  }

  // ----- the source's own form

  class StateListeners {
    var state: State
    var currentStateUpdates: seq<State>
    var stateListeners: nat
    ghost var waiting: map<int, Wait>

    ghost function Model(): Client
      reads this
    {
      Client(state, currentStateUpdates, stateListeners, waiting)
    }

    constructor ()
      ensures Model() == Initial()
    {
      state, currentStateUpdates, stateListeners, waiting := NOT_INITIALIZED, [], 0, map[];
    }

    method InternalUpdateStatusLocked(newState: State)
      modifies this
      ensures Model() == Update(old(Model()), newState)
    {
      waiting := Update(Model(), newState).waiting;
      state := newState;
      currentStateUpdates := currentStateUpdates + [state];
    }

    /** `WaitUntilStateThenRelock` up to the first wait; `id` names the caller. */
    method BeginWait(active: bool, ghost id: int) returns (startIndex: nat, done: bool)
      requires id !in waiting
      modifies this
      ensures Model() == Begin(old(Model()), id, active).c
      ensures done <==> Begin(old(Model()), id, active).code == Some(0)
      ensures !done ==> startIndex == waiting[id].startIndex && waiting[id].active == active
    {
      startIndex := 0;
      if stateListeners == 0 {
        currentStateUpdates := [];
      } else {
        startIndex := |currentStateUpdates|;
      }
      stateListeners := stateListeners + 1;
      done := active == (state == RUNNING);
      if done {
        stateListeners := stateListeners - 1;
      } else {
        waiting := waiting[id := Wait(active, startIndex, state, [], 0)];
      }
    }

    /** The rest of a turn after a wake-up; `done` says that the wait is over. */
    method WakeUp(active: bool, startIndex: nat, ghost id: int) returns (done: bool)
      requires id in waiting && waiting[id].active == active
               && waiting[id].startIndex == startIndex <= |currentStateUpdates|
      requires stateListeners > 0
      modifies this
      ensures Model() == Wake(old(Model()), id).c && (done <==> Wake(old(Model()), id).code == Some(0))
    {
      var stateSeen := false;
      ghost var updates := currentStateUpdates[startIndex..];
      for i := startIndex to |currentStateUpdates|
        invariant stateSeen <==> exists k :: 0 <= k < i - startIndex && Wanted(active, updates[k])
        invariant Model() == old(Model())
      {
        assert currentStateUpdates[i] == updates[i - startIndex];
        if active == (currentStateUpdates[i] == RUNNING) {
          assert Wanted(active, updates[i - startIndex]);
          stateSeen := true;
          break;
        }
      }
      assert stateSeen <==> SomeWanted(active, updates);
      done := stateSeen || active == (state == RUNNING);
      if done {
        stateListeners := stateListeners - 1;
        waiting := waiting - {id};
      } else {
        waiting := waiting[id := waiting[id].(seen := |waiting[id].since|)];
      }
    }

    /** The exit after a wait that timed out. */
    method TimeOut(ghost id: int) returns (code: int)
      requires id in waiting && stateListeners > 0
      modifies this`stateListeners, this`waiting
      ensures Model() == Step(old(Model()), TimedOut(id)).c && Step(old(Model()), TimedOut(id)).code == Some(code)
    {
      stateListeners := stateListeners - 1;
      waiting := waiting - {id};
      return TIMED_OUT;
    }
  }
}
