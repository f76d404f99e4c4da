/** The life of a helper thread: callers hold one lock for a whole call, while the worker may
    write the state at any moment in between. Each access to the state is one step. */
module ThreadLife {

  /** ACTIVE from its start, TO_IDLE when asked to stop, IDLE when its loop has ended, INACTIVE
      once joined. */
  datatype ThreadState = ACTIVE | TO_IDLE | IDLE | INACTIVE

  /** Where the caller that holds the lock is: `Run` waiting for the loop to end, joining,
      forgetting the old thread, creating the new one, marking it active; `RequestExit` marking;
      `RequestExitAndWait` marking, waiting, joining, forgetting. */
  datatype Caller = Nobody | RunWaits | RunJoins | RunForgets | RunCreates | RunActivates
                  | ExitMarks | StopMarks | StopWaits | StopJoins | StopForgets

  /** `joinable` tells whether the thread object stands for a thread, `looping` whether that
      thread is still in its loop. The history: a joinable thread object was assigned to, or one
      that was not was joined; either ends the program. */
  datatype Helper = Helper(state: ThreadState, caller: Caller, joinable: bool, looping: bool, overwritten: bool,
      misjoined: bool)

  const INITIAL := Helper(INACTIVE, Nobody, false, false, false, false)

  /** A call begins, its caller goes on (`created` is whether a thread could be created), or the
      worker's loop ends. */
  datatype Event = RunCalled | ExitCalled | StopCalled | CallerGoesOn(created: bool) | LoopEnds

  function Enter(s: Helper, e: Event): Helper
    requires e.RunCalled? || e.ExitCalled? || e.StopCalled?
  {
    if !s.caller.Nobody? then s
    else
      s.(caller :=
        match e
        case RunCalled =>
          (match s.state
           case ACTIVE => Nobody
           case TO_IDLE => RunWaits
           case IDLE => RunJoins
           case INACTIVE => RunCreates)
        case ExitCalled => if s.state.ACTIVE? then ExitMarks else Nobody
        case StopCalled =>
          (match s.state
           case ACTIVE => StopMarks
           case TO_IDLE => StopWaits
           case IDLE => StopJoins
           case INACTIVE => Nobody))
  }

  /** A join returns once the loop has ended. */
  function Join(s: Helper, next: Caller): Helper {
    if !s.joinable then s.(caller := next, misjoined := true)
    else if s.looping then s
    else s.(caller := next, joinable := false)
  }

  function GoOn(s: Helper, created: bool): Helper {
    match s.caller
    case Nobody => s
    case RunWaits => if s.state.IDLE? then s.(caller := RunJoins) else s
    case RunJoins => Join(s, RunForgets)
    case RunForgets => s.(state := INACTIVE, caller := RunCreates)
    case RunCreates =>
      if created
      then s.(caller := RunActivates, joinable := true, looping := true, overwritten := s.overwritten || s.joinable)
      else s.(caller := Nobody)
    case RunActivates => s.(state := ACTIVE, caller := Nobody)
    case ExitMarks => s.(state := TO_IDLE, caller := Nobody)
    case StopMarks => s.(state := TO_IDLE, caller := StopJoins)
    case StopWaits => if s.state.IDLE? then s.(caller := StopJoins) else s
    case StopJoins => Join(s, StopForgets)
    case StopForgets => s.(state := INACTIVE, caller := Nobody)
  }

  function Step(s: Helper, e: Event): Helper {
    match e
    case CallerGoesOn(created) => GoOn(s, created)
    case LoopEnds => if s.looping then s.(looping := false, state := IDLE) else s
    case _ => Enter(s, e)
  }

  function Run(s: Helper, events: seq<Event>): Helper {
    if events == [] then s else Step(Run(s, events[..|events| - 1]), events[|events| - 1])
  }

  /** Whenever the lock is free the thread is joinable just when the state is not INACTIVE; a
      caller about to join has a joinable thread, one about to create has none; a thread that
      loops is joinable. */
  predicate ThreadOk(s: Helper) {
    && !s.overwritten && !s.misjoined
    && (s.looping ==> s.joinable)
    && match s.caller
       case Nobody => s.joinable <==> !s.state.INACTIVE?
       case RunForgets => !s.joinable
       case StopForgets => !s.joinable
       case RunCreates => !s.joinable && s.state.INACTIVE?
       case RunActivates => s.joinable && (s.state.INACTIVE? || s.state.IDLE?) && (s.looping <==> s.state.INACTIVE?)
       case _ => s.joinable && !s.state.INACTIVE?
  }

  /** The two misuses that end the program are noted exactly when a caller goes on into them. */
  lemma MisuseNoted(s: Helper, created: bool)
    ensures var t := Step(s, CallerGoesOn(created));
            && (t.misjoined <==> s.misjoined || ((s.caller.RunJoins? || s.caller.StopJoins?) && !s.joinable))
            && (t.overwritten <==> s.overwritten || (s.caller.RunCreates? && created && s.joinable))
  {
  }

  /** Over every run: no joinable thread is overwritten, none is joined twice, and with the lock
      free the thread is joinable exactly when the state is not INACTIVE. */
  lemma {:induction false} HandleSafe(events: seq<Event>)
    ensures ThreadOk(Run(INITIAL, events))
  {
    if events != [] { HandleSafe(events[..|events| - 1]); }
  }

  /** What a call does when the worker ends once it is asked to, and not before: stopping an active
      thread marks it, joins it and leaves it inactive; starting again after it ended joins the
      old thread before the new one is created and active; asking an active thread to exit makes
      its loop see it; an inactive or active thread is left alone by a stop or a start, and one that
      is not active by a request to exit; a start that creates no thread leaves none. */
  lemma UndisturbedCalls(s: Helper)
    requires ThreadOk(s) && s.caller.Nobody?
    ensures var go := CallerGoesOn(true);
            && (s.state.ACTIVE? && s.looping ==>
                  && Run(s, [ExitCalled, go]) == s.(state := TO_IDLE)
                  && Run(s, [StopCalled, go, LoopEnds, go, go]) == s.(state := INACTIVE, joinable := false,
                     looping := false)
                  && Run(s, [RunCalled]) == s)
            && (s.state.TO_IDLE? && s.looping ==>
                  && Run(s, [RunCalled, go, LoopEnds, go, go, go, go, go]) == s.(state := ACTIVE)
                  && Run(s, [StopCalled, go, LoopEnds, go, go, go])
                     == s.(state := INACTIVE, joinable := false, looping := false))
            && (s.state.IDLE? && !s.looping ==>
                  && Run(s, [RunCalled, go, go, go, go]) == s.(state := ACTIVE, looping := true)
                  && Run(s, [StopCalled, go, go]) == s.(state := INACTIVE, joinable := false))
            && (s.state.INACTIVE? ==>
                  && Run(s, [RunCalled, go, go]) == s.(state := ACTIVE, joinable := true, looping := true)
                  && Run(s, [RunCalled, CallerGoesOn(false)]) == s
                  && Run(s, [StopCalled]) == s)
            && (!s.state.ACTIVE? ==> Run(s, [ExitCalled]) == s)
  {
    var go := CallerGoesOn(true);
    Unrolled(s, [ExitCalled, go]);
    Unrolled(s, [RunCalled]);
    Unrolled(s, [StopCalled]);
    Unrolled(s, [StopCalled, go, LoopEnds, go, go]);
    CallsWhenEnded(s);
    Unrolled(s, [StopCalled, go, LoopEnds, go, go, go]);
    Unrolled(s, [RunCalled, go, LoopEnds, go, go, go, go, go]);
  }

  /** The calls when no loop runs. */
  lemma CallsWhenEnded(s: Helper)
    requires ThreadOk(s) && s.caller.Nobody?
    ensures var go := CallerGoesOn(true);
            && (s.state.IDLE? && !s.looping ==>
                  && Run(s, [RunCalled, go, go, go, go]) == s.(state := ACTIVE, looping := true)
                  && Run(s, [StopCalled, go, go]) == s.(state := INACTIVE, joinable := false))
            && (s.state.INACTIVE? ==>
                  && Run(s, [RunCalled, go, go]) == s.(state := ACTIVE, joinable := true, looping := true)
                  && Run(s, [RunCalled, CallerGoesOn(false)]) == s
                  && Run(s, [StopCalled]) == s)
            && (!s.state.ACTIVE? ==> Run(s, [ExitCalled]) == s)
  {
    var go := CallerGoesOn(true);
    Unrolled(s, [StopCalled]);
    Unrolled(s, [RunCalled, go, go]);
    Unrolled(s, [RunCalled, CallerGoesOn(false)]);
    if s.state.IDLE? && !s.looping {
      StartAfterEnd(s);
      StopAfterEnd(s);
    }
    Unrolled(s, [ExitCalled]);
  }

  lemma StartAfterEnd(s: Helper)
    requires ThreadOk(s) && s.caller.Nobody? && s.state.IDLE? && !s.looping
    ensures var go := CallerGoesOn(true);
            Run(s, [RunCalled, go, go, go, go]) == s.(state := ACTIVE, looping := true)
  {
    var go := CallerGoesOn(true);
    RunOne(s, RunCalled);
    RunSnoc(s, [RunCalled], go);
    RunSnoc(s, [RunCalled] + [go], go);
    RunSnoc(s, [RunCalled] + [go] + [go], go);
    RunSnoc(s, [RunCalled] + [go] + [go] + [go], go);
    assert [RunCalled] + [go] + [go] + [go] + [go] == [RunCalled, go, go, go, go];
  }

  lemma StopAfterEnd(s: Helper)
    requires ThreadOk(s) && s.caller.Nobody? && s.state.IDLE? && !s.looping
    ensures var go := CallerGoesOn(true); Run(s, [StopCalled, go, go]) == s.(state := INACTIVE, joinable := false)
  {
    var go := CallerGoesOn(true);
    RunOne(s, StopCalled);
    RunSnoc(s, [StopCalled], go);
    RunSnoc(s, [StopCalled] + [go], go);
    assert [StopCalled] + [go] + [go] == [StopCalled, go, go];
  }

  /** A run from its first event on. */
  function From(s: Helper, events: seq<Event>): Helper
    decreases |events|
  {
    if events == [] then s else From(Step(s, events[0]), events[1..])
  }

  lemma {:induction false} Unrolled(s: Helper, events: seq<Event>)
    ensures Run(s, events) == From(s, events)
    decreases |events|
  {
    if |events| > 1 {
      var init, last := events[..|events| - 1], events[|events| - 1];
      Unrolled(s, init);
      Unrolled(Step(s, events[0]), events[1..]);
      Unrolled(Step(s, events[0]), init[1..]);
      assert events[1..][..|events| - 2] == init[1..];
    }
  }

  /** A call that waits for IDLE is stuck for ever. */
  ghost predicate Stuck(s: Helper) {
    (s.caller.RunWaits? || s.caller.StopWaits?) && forall events :: Run(s, events) == s
  }

  lemma {:induction false} NothingHappens(s: Helper, events: seq<Event>)
    requires (s.caller.RunWaits? || s.caller.StopWaits?) && !s.state.IDLE? && !s.looping
    ensures Run(s, events) == s
  {
    if events != [] { NothingHappens(s, events[..|events| - 1]); }
  }

  /** A caller that waits is stuck exactly when the loop has ended and its IDLE was overwritten. */
  lemma StuckExactly(s: Helper)
    requires s.caller.RunWaits? || s.caller.StopWaits?
    ensures Stuck(s) <==> !s.looping && !s.state.IDLE?
  {
    if !s.looping && !s.state.IDLE? {
      forall events ensures Run(s, events) == s { NothingHappens(s, events); }
    } else {
      RunOne(s, if s.looping then LoopEnds else CallerGoesOn(true));
    }
  }

  lemma RunOne(s: Helper, e: Event)
    ensures Run(s, [e]) == Step(s, e)
  {
    assert [e][..0] == [];
  }

  lemma RunSnoc(s: Helper, events: seq<Event>, e: Event)
    ensures Run(s, events + [e]) == Step(Run(s, events), e)
  {
    assert (events + [e])[..|events|] == events;
  }

  /** A worker whose loop ends between the two accesses of `RequestExit` leaves the next caller
      that waits for it stuck. */
  lemma LostIdleSticksCaller()
    ensures Stuck(Run(INITIAL, [RunCalled, CallerGoesOn(true), CallerGoesOn(true), ExitCalled, LoopEnds,
            CallerGoesOn(true), StopCalled]))
  {
    var go := CallerGoesOn(true);
    var a := [RunCalled];
    RunOne(INITIAL, RunCalled);
    RunSnoc(INITIAL, a, go);
    RunSnoc(INITIAL, a + [go], go);
    RunSnoc(INITIAL, a + [go] + [go], ExitCalled);
    RunSnoc(INITIAL, a + [go] + [go] + [ExitCalled], LoopEnds);
    RunSnoc(INITIAL, a + [go] + [go] + [ExitCalled] + [LoopEnds], go);
    RunSnoc(INITIAL, a + [go] + [go] + [ExitCalled] + [LoopEnds] + [go], StopCalled);
    assert a + [go] + [go] + [ExitCalled] + [LoopEnds] + [go] + [StopCalled]
        == [RunCalled, go, go, ExitCalled, LoopEnds, go, StopCalled];
    StuckExactly(Run(INITIAL, a + [go] + [go] + [ExitCalled] + [LoopEnds] + [go] + [StopCalled]));
  }
}
