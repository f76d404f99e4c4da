/** The last frame number reported for a repeating set. */
module RepeatingSet {
  import opened Wrappers
  import opened RequestScheduler

  /** The index of the last request of a repeating set among those enqueued, or -1. */
  function LastOf(q: seq<Entry>, generation: nat): (r: int)
    ensures -1 <= r < |q|
    ensures r >= 0 ==> q[r].origin == Repeating(generation)
    ensures forall k :: r < k < |q| ==> q[k].origin != Repeating(generation)
  {
    if q == [] then -1
    else if q[|q| - 1].origin == Repeating(generation) then |q| - 1
    else LastOf(q[..|q| - 1], generation)
  }

  lemma LastOfUnique(q: seq<Entry>, generation: nat, r: int)
    requires -1 <= r < |q| && (r >= 0 ==> q[r].origin == Repeating(generation))
    requires forall k :: r < k < |q| ==> q[k].origin != Repeating(generation)
    ensures LastOf(q, generation) == r
  {
  }

  /** `report` is -1 when no request of the set was enqueued, else the number that its last one
      gets: exactly, as long as numbers do not wrap, and modulo 2^32 in any case. */
  predicate ReportOf(q: seq<Entry>, generation: nat, report: int) {
    var last := LastOf(q, generation);
    && (report == NO_IN_FLIGHT_REPEATING_FRAMES <==> last == -1)
    && (last >= 0 ==> report >= 0 && Wrap32(report) == Wrap32(last) && (|q| <= TWO_TO_THE_32 ==> report == last))
  }

  predicate NoneAfter(q: seq<Entry>, generation: nat) {
    forall k :: 0 <= k < |q| && q[k].origin.Repeating? ==> q[k].origin.generation <= generation
  }

  ghost predicate RepeatOk(s: State) {
    Numbered(s) && NoneAfter(s.enqueued, s.generation) && ReportOf(s.enqueued, s.generation, s.streamingLast)
  }

  /** A set not begun yet has no request. */
  lemma FreshSet(q: seq<Entry>, generation: nat)
    requires NoneAfter(q, generation)
    ensures NoneAfter(q, generation + 1) && ReportOf(q, generation + 1, NO_IN_FLIGHT_REPEATING_FRAMES)
  {
    LastOfUnique(q, generation + 1, -1);
  }

  lemma OneShotsKeepReport(q: seq<Entry>, list: seq<Request>, generation: nat, report: int)
    requires NoneAfter(q, generation) && ReportOf(q, generation, report)
    ensures NoneAfter(q + Tagged(list, OneShot), generation) && ReportOf(q + Tagged(list, OneShot), generation, report)
  {
    LastOfUnique(q + Tagged(list, OneShot), generation, LastOf(q, generation));
  }

  lemma BurstAppended(q: seq<Entry>, burst: seq<Request>, generation: nat)
    requires NoneAfter(q, generation) && burst != []
    ensures var q' := q + Tagged(burst, Repeating(generation));
            NoneAfter(q', generation) && LastOf(q', generation) == |q'| - 1 == |q| + |burst| - 1
  {
    var q' := q + Tagged(burst, Repeating(generation));
    LastOfUnique(q', generation, |q'| - 1);
  }

  lemma BurstReport(s: State)
    requires RepeatOk(s) && s.requests == [] && s.streaming != []
    ensures RepeatOk(Burst(s))
  {
    hide Numbered, Tagged, LastOf, NoneAfter, Wrap32;
    BurstNumbered(s);
    NumberedCounts(s);
    BurstAppended(s.enqueued, s.streaming, s.generation);
    WrapSum(|s.issued|, |s.streaming| - 1);
    WrapSmall(|s.issued|);
    var report := s.frame + |s.streaming| - 1;
    assert Burst(s).enqueued == s.enqueued + Tagged(s.streaming, Repeating(s.generation));
    assert ReportOf(Burst(s).enqueued, s.generation, report);
  }

  lemma WrapSmall(n: nat)
    ensures n < TWO_TO_THE_32 ==> Wrap32(n) == n
  {
  }

  lemma NumberedCounts(s: State)
    requires Numbered(s)
    ensures s.frame == Wrap32(|s.issued|) && |s.enqueued| == |s.issued| + |s.requests|
  {
  }

  lemma PrefixNoneAfter(q: seq<Entry>, q': seq<Entry>, generation: nat)
    requires q' <= q && NoneAfter(q, generation)
    ensures NoneAfter(q', generation)
  {
  }

  lemma TakenReport(s: State)
    requires RepeatOk(s)
    ensures RepeatOk(GetRequest(s)) && GetRequest(s).generation == s.generation
  {
    if s.current.None? && !(s.requests == [] && s.streaming == []) {
      if s.requests == [] { BurstReport(s); }
      hide Numbered, NoneAfter, ReportOf;
      TakenNumbered(s);
    }
  }

  lemma ClearReport(s: State)
    requires RepeatOk(s)
    ensures RepeatOk(Clear(s)) && Clear(s).generation == s.generation + 1
  {
    FlushKeeps(s);
    ClearNumbered(s);
    if s.errorCb { FlushNumbered(s); }
    FreshSet(s.enqueued, s.generation);
    assert Clear(s).enqueued <= s.enqueued;
    PrefixNoneAfter(s.enqueued, Clear(s).enqueued, s.generation);
    FreshSet(Clear(s).enqueued, s.generation);
    hide Numbered, NoneAfter, ReportOf, FlushAll;
  }

  lemma StepReport(s: State, e: Event)
    requires RepeatOk(s)
    ensures RepeatOk(Step(s, e)) && s.generation <= Step(s, e).generation
  {
    hide Numbered, NoneAfter, ReportOf, GetRequest, Clear;
    StepNumbered(s, e);
    match e
    case Queued(list) => OneShotsKeepReport(s.enqueued, list, s.generation, s.streamingLast);
    case RepeatingSet(list) => FreshSet(s.enqueued, s.generation);
    case RepeatingCleared => FreshSet(s.enqueued, s.generation);
    case Flushed => ClearReport(s);
    case Taken => TakenReport(s);
    case _ =>
  }

  lemma {:induction false} RunReport(s: State, events: seq<Event>)
    requires RepeatOk(s)
    ensures RepeatOk(Run(s, events)) && s.generation <= Run(s, events).generation
  {
    hide RepeatOk;
    if events != [] {
      RunReport(s, events[..|events| - 1]);
      StepReport(Run(s, events[..|events| - 1]), events[|events| - 1]);
    }
  }

  /** Some request of the current set was issued. */
  ghost predicate SomeIssued(s: State) {
    exists k :: 0 <= k < |s.issued| && s.issued[k].entry.origin == Repeating(s.generation)
  }

  /** A set with a request enqueued has one issued: a burst is enqueued only as its head is issued. */
  ghost predicate BegunOk(s: State) {
    RepeatOk(s) && (LastOf(s.enqueued, s.generation) >= 0 ==> SomeIssued(s))
  }

  lemma IssuedKept(s: State, t: State)
    requires BegunOk(s) && RepeatOk(t) && t.generation == s.generation && s.issued <= t.issued
    requires LastOf(t.enqueued, t.generation) >= 0 ==> LastOf(s.enqueued, s.generation) >= 0
    ensures BegunOk(t)
  {
    if LastOf(t.enqueued, t.generation) >= 0 {
      var k :| 0 <= k < |s.issued| && s.issued[k].entry.origin == Repeating(s.generation);
      assert t.issued[k] == s.issued[k];
    }
  }

  lemma RepeatIsNumbered(s: State)
    requires RepeatOk(s)
    ensures Numbered(s)
  {
  }

  lemma TakenBegun(s: State)
    requires BegunOk(s)
    ensures BegunOk(GetRequest(s))
  {
    hide RepeatOk, Numbered, ReportOf, NoneAfter, LastOf, Wrap32;
    var t := GetRequest(s);
    BegunIsRepeat(s);
    RepeatIsNumbered(s);
    TakenReport(s);
    TakenNumbered(s);
    if s.current.None? && s.requests == [] && s.streaming != [] {
      assert t.issued[|t.issued| - 1].entry == Entry(s.streaming[0], Repeating(s.generation));
    } else {
      assert t.enqueued == s.enqueued;
      IssuedKept(s, t);
    }
  }

  /** A new set has no request yet. */
  lemma NewSetBegun(s: State)
    requires RepeatOk(s) && s.streamingLast == NO_IN_FLIGHT_REPEATING_FRAMES
    ensures BegunOk(s)
  {
  }

  lemma StepBegun(s: State, e: Event)
    requires BegunOk(s)
    ensures BegunOk(Step(s, e))
  {
    hide RepeatOk, BegunOk, SomeIssued, LastOf, Tagged, Wrap32, QueueRequestList, GetRequest, Clear;
    BegunIsRepeat(s);
    StepReport(s, e);
    match e
    case Queued(list) => QueuedBegun(s, list);
    case RepeatingSet(list) => NewSetBegun(Step(s, e));
    case RepeatingCleared => NewSetBegun(Step(s, e));
    case Flushed =>
      ClearForgets(s);
      NewSetBegun(Clear(s));
    case Taken => TakenBegun(s);
    case _ => OtherBegun(s, e);
  }

  lemma OtherBegun(s: State, e: Event)
    requires BegunOk(s) && RepeatOk(Step(s, e))
    requires !e.Queued? && !e.RepeatingSet? && !e.RepeatingCleared? && !e.Flushed? && !e.Taken?
    ensures BegunOk(Step(s, e))
  {
    hide RepeatOk, BegunOk, LastOf;
    IssuedKept(s, Step(s, e));
  }

  lemma BegunIsRepeat(s: State)
    requires BegunOk(s)
    ensures RepeatOk(s)
  {
  }

  lemma QueuedBegun(s: State, list: seq<Request>)
    requires BegunOk(s) && RepeatOk(QueueRequestList(s, list))
    ensures BegunOk(QueueRequestList(s, list))
  {
    hide RepeatOk, BegunOk, LastOf, Tagged;
    QueuedLastOf(s, list);
    IssuedKept(s, QueueRequestList(s, list));
  }

  lemma ClearForgets(s: State)
    ensures Clear(s).streamingLast == NO_IN_FLIGHT_REPEATING_FRAMES
  {
    hide FlushAll;
  }

  lemma QueuedLastOf(s: State, list: seq<Request>)
    ensures LastOf(s.enqueued + Tagged(list, OneShot), s.generation) == LastOf(s.enqueued, s.generation)
  {
    LastOfUnique(s.enqueued + Tagged(list, OneShot), s.generation, LastOf(s.enqueued, s.generation));
  }

  lemma {:induction false} RunBegun(s: State, events: seq<Event>)
    requires BegunOk(s)
    ensures BegunOk(Run(s, events))
  {
    hide BegunOk;
    if events != [] {
      RunBegun(s, events[..|events| - 1]);
      StepBegun(Run(s, events[..|events| - 1]), events[|events| - 1]);
    }
  }

  /** Over every run, the value reported when the repeating set is replaced, cleared or flushed
      is the number that the last request enqueued of that set gets, counting the part of its
      last burst still in the queue, and -1 exactly when no request of the set was ever issued. */
  lemma RepeatingLastFrame(errorCb: bool, id: int, events: seq<Event>)
    ensures var s := Run(Initial(errorCb, id), events);
            && ReportOf(s.enqueued, s.generation, s.streamingLast)
            && (s.streamingLast == NO_IN_FLIGHT_REPEATING_FRAMES <==> !SomeIssued(s))
    ensures var s := Run(Initial(errorCb, id), events);
            forall k :: 0 <= k < |s.issued| ==>
              k < |s.enqueued| && s.issued[k].entry == s.enqueued[k] && s.issued[k].number == Wrap32(k)
  {
    RunBegun(Initial(errorCb, id), events);
    var s := Run(Initial(errorCb, id), events);
    hide Run;
    if k :| 0 <= k < |s.issued| && s.issued[k].entry.origin == Repeating(s.generation) {
      assert s.enqueued[k].origin == Repeating(s.generation);
    }
  }

  /** Once replaced, cleared or flushed a set gets no further request. */
  lemma {:induction false} SetIsClosed(s: State, after: seq<Event>, generation: nat)
    requires RepeatOk(s) && Keeps(s, after) && generation < s.generation
    ensures LastOf(Run(s, after).enqueued, generation) == LastOf(s.enqueued, generation)
  {
    if after != [] {
      var init, e := after[..|after| - 1], after[|after| - 1];
      KeepsPrefix(s, after);
      hide Numbered, LastOf, Drops;
      SetIsClosed(s, init, generation);
      RunReport(s, init);
      ClosedStep(Run(s, init), e, generation);
    }
  }

  lemma ClosedStep(s: State, e: Event, generation: nat)
    requires RepeatOk(s) && !Drops(s, e) && generation < s.generation
    ensures LastOf(Step(s, e).enqueued, generation) == LastOf(s.enqueued, generation)
  {
    EnqueuedBy(s, e);
    var q, q' := s.enqueued, Step(s, e).enqueued;
    hide Step, LastOf, NoneAfter, ReportOf, Numbered;
    LastOfUnique(q', generation, LastOf(q, generation));
  }

  /** A step enqueues nothing but one-shot requests and requests of the current set. */
  lemma EnqueuedBy(s: State, e: Event)
    requires RepeatOk(s) && !Drops(s, e)
    ensures var q := Step(s, e).enqueued;
            && s.enqueued <= q
            && forall k :: |s.enqueued| <= k < |q| ==> q[k].origin == OneShot || q[k].origin == Repeating(s.generation)
  {
    hide Numbered, NoneAfter, ReportOf, Clear;
    if e.Flushed? { ClearNumbered(s); }
  }

  /** The number a flush reports was given to a request of the set exactly when there is an error
      callback or that request had been issued before. */
  lemma FlushReportIsIssued(s: State)
    requires RepeatOk(s) && LastOf(s.enqueued, s.generation) >= 0
    ensures var last := LastOf(s.enqueued, s.generation);
            var t := Clear(s);
            last < |t.issued| && t.issued[last].entry == s.enqueued[last] <==> s.errorCb || last < |s.issued|
  {
    ClearNumbered(s);
    if !s.errorCb { assert Clear(s).issued == s.issued; }
    hide LastOf, ReportOf, NoneAfter, Clear;
  }
}
