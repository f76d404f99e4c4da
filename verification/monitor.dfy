/** The idle monitor: components post ACTIVE/IDLE transitions, a worker folds them in batches
    into one composite state and notifies each change of it. */
module Monitor {

  datatype Activity = IDLE | ACTIVE

  datatype Transition = Transition(id: int, state: Activity)

  /** `unflagged` counts callers of `AcquireMonitor` and `ReleaseMonitor` that have changed
      the monitor set but not yet raised `updated`; `log` holds the notifications made. */
  datatype State = State(
    states: map<int, Activity>, queue: seq<Transition>, updated: bool, composite: Activity,
    next: nat, unflagged: nat, log: seq<Activity>)

  const INITIAL := State(map[], [], false, IDLE, 0, 0, [])

  predicate SomeActive(states: map<int, Activity>) {
    exists id :: id in states && states[id] == ACTIVE
  }

  function Composite(states: map<int, Activity>): Activity {
    if SomeActive(states) then ACTIVE else IDLE
  }

  /** One transition; one for a released monitor is ignored. */
  function Apply(states: map<int, Activity>, tr: Transition): map<int, Activity> {
    if tr.id in states then states[tr.id := tr.state] else states
  }

  function ApplyAll(states: map<int, Activity>, q: seq<Transition>): map<int, Activity> {
    if q == [] then states else Apply(ApplyAll(states, q[..|q| - 1]), q[|q| - 1])
  }

  /** The composite state after each single transition. */
  function Trace(states: map<int, Activity>, q: seq<Transition>): seq<Activity> {
    if q == [] then [] else Trace(states, q[..|q| - 1]) + [Composite(ApplyAll(states, q))]
  }

  function Last(c: Activity, trace: seq<Activity>): Activity {
    if trace == [] then c else trace[|trace| - 1]
  }

  /** `trace` without its stutter, after a composite state `c`. */
  function Changes(c: Activity, trace: seq<Activity>): seq<Activity> {
    if trace == [] then []
    else
      var init, x := trace[..|trace| - 1], trace[|trace| - 1];
      Changes(c, init) + if x != Last(c, init) then [x] else []
  }

  /** The worker's pass: every change of the composite state since the last pass is notified. */
  function Drain(s: State): State {
    var trace := [Composite(s.states)] + Trace(s.states, s.queue);
    s.(states := ApplyAll(s.states, s.queue), queue := [], updated := false,
       composite := Last(s.composite, trace), log := s.log + Changes(s.composite, trace))
  }

  /** Each lock-held section is one event: acquiring and releasing have two. */
  datatype Event = Acquired | Released(id: int) | Flagged | Posted(tr: Transition) | Passed

  function Step(s: State, e: Event): State {
    match e
    case Acquired => s.(states := s.states[s.next := IDLE], next := s.next + 1, unflagged := s.unflagged + 1)
    case Released(id) => if id in s.states then s.(states := s.states - {id}, unflagged := s.unflagged + 1) else s
    case Flagged => if s.unflagged > 0 then s.(updated := true, unflagged := s.unflagged - 1) else s
    case Posted(tr) => s.(queue := s.queue + [tr])
    case Passed => Drain(s)
  }

  function Run(s: State, events: seq<Event>): State {
    if events == [] then s else Step(Run(s, events[..|events| - 1]), events[|events| - 1])
  }

  // ----- batches

  lemma {:induction false} ApplyAllConcat(states: map<int, Activity>, a: seq<Transition>, b: seq<Transition>)
    ensures ApplyAll(states, a + b) == ApplyAll(ApplyAll(states, a), b)
    ensures Trace(states, a + b) == Trace(states, a) + Trace(ApplyAll(states, a), b)
  {
    if b == [] {
      assert a + b == a;
    } else {
      var init := b[..|b| - 1];
      assert (a + b)[..|a + b| - 1] == a + init;
      ApplyAllConcat(states, a, init);
    }
  }

  lemma {:induction false} ChangesConcat(c: Activity, a: seq<Activity>, b: seq<Activity>)
    ensures Changes(c, a + b) == Changes(c, a) + Changes(Last(c, a), b)
    ensures Last(c, a + b) == Last(Last(c, a), b)
  {
    if b == [] {
      assert a + b == a;
    } else {
      var init := b[..|b| - 1];
      assert (a + b)[..|a + b| - 1] == a + init;
      ChangesConcat(c, a, init);
    }
  }

  /** After a pass the composite state is the one of the states it left. */
  lemma DrainIsCurrent(s: State)
    ensures Drain(s).composite == Composite(Drain(s).states)
  {
  }

  /** Two passes, with more transitions posted between them, make the notifications of one. */
  lemma DrainTwice(s: State, q: seq<Transition>)
    ensures Drain(Drain(s).(queue := q)) == Drain(s.(queue := s.queue + q))
  {
    var states' := ApplyAll(s.states, s.queue);
    var first, second := [Composite(s.states)] + Trace(s.states, s.queue), Trace(states', q);
    var c := Last(s.composite, first);
    DrainIsCurrent(s);
    StutterIgnored(c, second);
    ApplyAllConcat(s.states, s.queue, q);
    ChangesConcat(s.composite, first, second);
    hide Changes, Trace, ApplyAll, Composite, Last;
    assert [Composite(s.states)] + (Trace(s.states, s.queue) + second) == first + second;
    assert s.log + Changes(s.composite, first) + Changes(c, second)
        == s.log + (Changes(s.composite, first) + Changes(c, second));
  }

  lemma StutterIgnored(c: Activity, trace: seq<Activity>)
    ensures Changes(c, [c] + trace) == Changes(c, trace) && Last(c, [c] + trace) == Last(c, trace)
  {
    ChangesConcat(c, [c], trace);
    assert Changes(c, [c]) == [] && Last(c, [c]) == c;
    assert [] + Changes(c, trace) == Changes(c, trace);
  }

  function PostedIn(events: seq<Event>): seq<Transition> {
    if events == [] then []
    else
      var e := events[|events| - 1];
      PostedIn(events[..|events| - 1]) + if e.Posted? then [e.tr] else []
  }

  lemma DrainEmpties(s: State, q: seq<Transition>)
    ensures Drain(s).queue + q == q
  {
  }

  lemma {:induction false} BatchesMerge(s: State, events: seq<Event>, q: seq<Transition>)
    requires forall e :: e in events ==> e.Posted? || e.Passed?
    ensures Drain(Run(s, events).(queue := Run(s, events).queue + q))
            == Drain(s.(queue := s.queue + PostedIn(events) + q))
  {
    if events == [] {
      assert s.queue + [] + q == s.queue + q;
    } else {
      var init, e := events[..|events| - 1], events[|events| - 1];
      var s1 := Run(s, init);
      hide Drain;
      if e.Posted? {
        BatchesMerge(s, init, [e.tr] + q);
        assert s1.queue + [e.tr] + q == s1.queue + ([e.tr] + q);
        assert s.queue + (PostedIn(init) + [e.tr]) + q == s.queue + PostedIn(init) + ([e.tr] + q);
      } else {
        BatchesMerge(s, init, q);
        DrainTwice(s1, q);
        DrainEmpties(s1, q);
        assert PostedIn(init) + [] == PostedIn(init);
      }
    }
  }

  lemma PassedLast(s: State, events: seq<Event>)
    ensures Run(s, events + [Passed]) == Drain(Run(s, events))
  {
    hide Drain;
    assert (events + [Passed])[..|events|] == events;
  }

  lemma DrainLogs(s: State)
    ensures Drain(s).log == s.log + Changes(s.composite, [Composite(s.states)] + Trace(s.states, s.queue))
  {
  }

  /** For a fixed monitor set the notifications, and the whole state, after a pass do not
      depend on how earlier passes split the queue: they are those of one pass over all the
      transitions, that is, the stutter-free sequence of composites after each of them. */
  lemma BatchIndependent(s: State, events: seq<Event>)
    requires forall e :: e in events ==> e.Posted? || e.Passed?
    ensures var all := s.queue + PostedIn(events);
            && Run(s, events + [Passed]) == Drain(s.(queue := all))
            && Run(s, events + [Passed]).log
               == s.log + Changes(s.composite, [Composite(s.states)] + Trace(s.states, all))
  {
    hide Drain, Changes, Trace, Composite, PostedIn, Run;
    BatchesMerge(s, events, []);
    DrainLogs(s.(queue := s.queue + PostedIn(events)));
    PassedLast(s, events);
    assert Run(s, events).queue + [] == Run(s, events).queue;
    assert s.queue + PostedIn(events) + [] == s.queue + PostedIn(events);
  }

  // ----- runs with monitors coming and going

  predicate Alternating(log: seq<Activity>) {
    forall i :: 0 <= i < |log| ==> log[i] == if i % 2 == 0 then ACTIVE else IDLE
  }

  lemma AlternatingSnoc(log: seq<Activity>, x: Activity)
    requires Alternating(log) && x != Last(IDLE, log)
    ensures Alternating(log + [x]) && Last(IDLE, log + [x]) == x
  {
  }

  lemma {:induction false} ChangesAlternate(log: seq<Activity>, c: Activity, trace: seq<Activity>)
    requires Alternating(log) && Last(IDLE, log) == c
    ensures Alternating(log + Changes(c, trace)) && Last(IDLE, log + Changes(c, trace)) == Last(c, trace)
  {
    if trace == [] {
      assert log + [] == log;
    } else {
      var init, x := trace[..|trace| - 1], trace[|trace| - 1];
      hide Alternating;
      ChangesAlternate(log, c, init);
      var log1 := log + Changes(c, init);
      assert log + Changes(c, trace) == if x != Last(c, init) then log1 + [x] else log1;
      if x != Last(c, init) { AlternatingSnoc(log1, x); }
    }
  }

  /** Over every run, whatever monitors come and go and however the two sections of their
      calls interleave with the worker: notifications alternate starting with ACTIVE, the last
      one is the composite state, and when no caller is between its sections, no flag is raised
      and nothing is queued, the composite state is the one of the monitors. */
  lemma {:induction false} NotificationsAlternate(events: seq<Event>)
    ensures var s := Run(INITIAL, events);
            && Alternating(s.log)
            && s.composite == Last(IDLE, s.log)
            && (s.composite == Composite(s.states) || s.updated || s.unflagged > 0)
            && (forall id :: id in s.states ==> 0 <= id < s.next)
  {
    if events != [] {
      var init := events[..|events| - 1];
      NotificationsAlternate(init);
      var s := Run(INITIAL, init);
      match events[|events| - 1] {
        case Passed =>
          ChangesAlternate(s.log, s.composite, [Composite(s.states)] + Trace(s.states, s.queue));
          ApplyAllKeys(s.states, s.queue);
        case _ =>
      }
    }
  }

  lemma {:induction false} ApplyAllKeys(states: map<int, Activity>, q: seq<Transition>)
    ensures ApplyAll(states, q).Keys == states.Keys
  {
    if q != [] { ApplyAllKeys(states, q[..|q| - 1]); }
  }

  lemma FoldSnoc(states: map<int, Activity>, q: seq<Transition>, tr: Transition)
    ensures ApplyAll(states, q + [tr]) == Apply(ApplyAll(states, q), tr)
    ensures [Composite(states)] + Trace(states, q + [tr])
            == [Composite(states)] + Trace(states, q) + [Composite(Apply(ApplyAll(states, q), tr))]
  {
    assert (q + [tr])[..|q|] == q;
  }

  lemma FoldNone(states: map<int, Activity>, c: Activity)
    ensures ApplyAll(states, []) == states
    ensures [Composite(states)] + Trace(states, []) == [Composite(states)]
    ensures Changes(c, [Composite(states)]) == if Composite(states) != c then [Composite(states)] else []
  {
    ChangesSnoc(c, [], Composite(states));
    assert [] + [Composite(states)] == [Composite(states)];
  }

  lemma ChangesSnoc(c: Activity, trace: seq<Activity>, x: Activity)
    ensures Changes(c, trace + [x]) == Changes(c, trace) + if x != Last(c, trace) then [x] else []
    ensures Changes(c, []) == []
  {
    assert (trace + [x])[..|trace|] == trace;
  }

  // ----- the source's own form

  class Camera3Monitor {
    var monitorStates: map<int, Activity>
    var inputQueue: seq<Transition>
    var monitorUpdated: bool
    var nextMonitor: nat
    var compositeState: Activity
    var updatedStates: seq<Activity>
    /** The callers between the two sections of an acquire or release. */
    ghost var unflagged: nat
    ghost var log: seq<Activity>

    ghost function Model(): State
      reads this
    {
      State(monitorStates, inputQueue, monitorUpdated, compositeState, nextMonitor, unflagged, log)
    }

    /** The ids of live monitors were handed out. */
    ghost predicate Valid()
      reads this
    {
      forall id :: id in monitorStates ==> 0 <= id < nextMonitor
    }

    constructor ()
      ensures Valid() && Model() == INITIAL && updatedStates == []
    {
      monitorStates, inputQueue, updatedStates, log := map[], [], [], [];
      monitorUpdated, nextMonitor, compositeState, unflagged := false, 0, IDLE, 0;
    }

    /** The section of `AcquireMonitor` that holds the lock of the states; the caller goes on with
        `RaiseFlag`. */
    method AddMonitor() returns (id: int)
      requires Valid()
      modifies this`monitorStates, this`nextMonitor, this`unflagged
      ensures Valid() && id == old(nextMonitor) && id !in old(monitorStates)
      ensures Model() == Step(old(Model()), Acquired)
    {
      id := nextMonitor;
      nextMonitor := nextMonitor + 1;
      monitorStates := monitorStates[id := IDLE];
      unflagged := unflagged + 1;
    }

    /** The section of `ReleaseMonitor` that holds the lock of the states; the caller goes on with
        `RaiseFlag` if the monitor was `found`. */
    method RemoveMonitor(id: int) returns (found: bool)
      requires Valid()
      modifies this`monitorStates, this`unflagged
      ensures Valid() && (found <==> id in old(monitorStates)) && id !in monitorStates
      ensures Model() == Step(old(Model()), Released(id))
    {
      found := id in monitorStates;
      if found {
        monitorStates := monitorStates - {id};
        unflagged := unflagged + 1;
      }
    }

    /** The section of both that holds the lock of the queue. */
    method RaiseFlag()
      requires Valid() && unflagged > 0
      modifies this`monitorUpdated, this`unflagged
      ensures Valid() && Model() == Step(old(Model()), Flagged)
    {
      monitorUpdated := true;
      unflagged := unflagged - 1;
    }

    method AcquireMonitor() returns (id: int)
      requires Valid()
      modifies this`monitorStates, this`nextMonitor, this`monitorUpdated, this`unflagged
      ensures Valid() && id == old(nextMonitor)
      ensures Model() == Step(Step(old(Model()), Acquired), Flagged)
    {
      id := AddMonitor();
      RaiseFlag();
    }

    method ReleaseMonitor(id: int)
      requires Valid()
      modifies this`monitorStates, this`monitorUpdated, this`unflagged
      ensures Valid()
      ensures Model() == if id in old(monitorStates) then Step(Step(old(Model()), Released(id)), Flagged)
              else old(Model())
    {
      var found := RemoveMonitor(id);
      if found {
        RaiseFlag();
      }
    }

    method ChangeState(id: int, state: Activity)
      modifies this`inputQueue
      ensures Model() == Step(old(Model()), Posted(Transition(id, state)))
    {
      inputQueue := inputQueue + [Transition(id, state)];
    }

    /** Monitor ids are handed out in increasing order, so this visits the vector in key order. */
    method BuildCompositeState() returns (state: Activity)
      requires Valid()
      ensures state == Composite(monitorStates)
    {
      for id := 0 to nextMonitor
        invariant forall k :: k in monitorStates && k < id ==> monitorStates[k] == IDLE
      {
        if id in monitorStates && monitorStates[id] == ACTIVE {
          return ACTIVE;
        }
      }
      return IDLE;
    }

    /** One pass, from the end of the wait on. */
    method ThreadLoop()
      requires Valid()
      requires updatedStates == []
      modifies this
      ensures Valid()
      ensures Model() == Drain(old(Model())) && updatedStates == []
    {
      hide Changes, Trace, ApplyAll, Composite, Last;
      FoldQueue();
      for i := 0 to |updatedStates|
        modifies this`log
        invariant log == old(log) + updatedStates[..i]
      {
        assert updatedStates[..i + 1] == updatedStates[..i] + [updatedStates[i]];
        log := log + [updatedStates[i]];
      }
      assert updatedStates[..|updatedStates|] == updatedStates;
      updatedStates := [];
    }

    /** The body of the loop over the queue. */
    method FoldOne(newState: Transition, oldState: Activity) returns (state: Activity)
      requires Valid()
      requires oldState == Composite(monitorStates)
      modifies this`monitorStates, this`updatedStates
      ensures Valid()
      ensures monitorStates == Apply(old(monitorStates), newState) && state == Composite(monitorStates)
      ensures updatedStates == old(updatedStates) + if state != oldState then [state] else []
    {
      state := oldState;
      if newState.id in monitorStates {
        monitorStates := monitorStates[newState.id := newState.state];
        state := BuildCompositeState();
        if state != oldState {
          updatedStates := updatedStates + [state];
        }
      }
    }

    /** The loop over the queue, from the composite state `first` of the states as they were. */
    method FoldAll(first: Activity) returns (state: Activity)
      requires Valid() && first == Composite(monitorStates)
      requires updatedStates == Changes(compositeState, [first])
      modifies this`monitorStates, this`updatedStates
      ensures Valid() && state == Composite(monitorStates)
      ensures monitorStates == ApplyAll(old(monitorStates), inputQueue)
      ensures var trace := [first] + Trace(old(monitorStates), inputQueue);
              state == Last(compositeState, trace) && updatedStates == Changes(compositeState, trace)
    {
      ghost var states, seen := monitorStates, [first];
      state := first;
      FoldNone(states, compositeState);
      assert inputQueue[..0] == [];
      hide Changes, Trace, ApplyAll, Composite, Apply;
      for i := 0 to |inputQueue|
        invariant Valid() && monitorStates == ApplyAll(states, inputQueue[..i])
        invariant seen == [first] + Trace(states, inputQueue[..i])
        invariant state == Composite(monitorStates) == Last(compositeState, seen)
        invariant updatedStates == Changes(compositeState, seen)
      {
        assert inputQueue[..i + 1] == inputQueue[..i] + [inputQueue[i]];
        FoldSnoc(states, inputQueue[..i], inputQueue[i]);
        ChangesSnoc(compositeState, seen, Composite(Apply(monitorStates, inputQueue[i])));
        state := FoldOne(inputQueue[i], state);
        seen := seen + [state];
      }
      assert inputQueue[..|inputQueue|] == inputQueue;
    }

    /** The part of a pass made with both locks held. */
    method FoldQueue()
      requires Valid() && updatedStates == []
      modifies this`monitorStates, this`inputQueue, this`monitorUpdated, this`compositeState, this`updatedStates
      ensures Valid() && inputQueue == [] && !monitorUpdated
      ensures monitorStates == ApplyAll(old(monitorStates), old(inputQueue))
      ensures var trace := [Composite(old(monitorStates))] + Trace(old(monitorStates), old(inputQueue));
              compositeState == Last(old(compositeState), trace) && updatedStates == Changes(old(compositeState), trace)
    {
      hide Trace, ApplyAll, Composite;
      var oldState := BuildCompositeState();
      ChangesSnoc(compositeState, [], oldState);
      assert [] + [oldState] == [oldState];
      if oldState != compositeState {
        updatedStates := updatedStates + [oldState];
      }
      assert updatedStates == Changes(compositeState, [oldState]);
      hide Changes;
      oldState := FoldAll(oldState);
      inputQueue := [];
      monitorUpdated := false;
      compositeState := oldState;
    }
  }
}
