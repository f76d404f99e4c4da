/** What the request handler enqueues: the queued lists end to end, and of every repeating set its
    list over and over, a whole number of times. */
module Bursts {
  import opened Wrappers
  import opened RequestScheduler

  /** The repeating sets given in a run, one for each generation; the first, and those after a
      clear or a flush, are empty. */
  function SetsGiven(events: seq<Event>): (sets: seq<seq<Request>>)
    ensures |sets| > 0
  {
    if events == [] then [[]]
    else
      var before := SetsGiven(events[..|events| - 1]);
      match events[|events| - 1]
      case RepeatingSet(list) => before + [list]
      case RepeatingCleared => before + [[]]
      case Flushed => before + [[]]
      case _ => before
  }

  /** The one-shot lists queued in a run, end to end. */
  function ListsGiven(events: seq<Event>): seq<Request> {
    if events == [] then []
    else
      var before := ListsGiven(events[..|events| - 1]);
      if events[|events| - 1].Queued? then before + events[|events| - 1].list else before
  }

  /** The requests of one origin among those enqueued, oldest first. */
  function Only(q: seq<Entry>, origin: Origin): seq<Request> {
    if q == [] then []
    else
      var x := q[|q| - 1];
      Only(q[..|q| - 1], origin) + if x.origin == origin then [x.request] else []
  }

  lemma {:induction false} OnlyTagged(q: seq<Entry>, list: seq<Request>, origin: Origin, other: Origin)
    ensures Only(q + Tagged(list, other), origin) == Only(q, origin) + if origin == other then list else []
  {
    if list == [] {
      assert q + Tagged(list, other) == q;
    } else {
      var init, x := list[..|list| - 1], Entry(list[|list| - 1], other);
      assert q + Tagged(list, other) == (q + Tagged(init, other)) + [x];
      assert ((q + Tagged(init, other)) + [x])[..|q| + |init|] == q + Tagged(init, other);
      OnlyTagged(q, init, origin, other);
      assert init + [x.request] == list;
    }
  }

  /** A list over and over. */
  function Repeated(list: seq<Request>, times: nat): seq<Request> {
    if times == 0 then [] else Repeated(list, times - 1) + list
  }

  ghost predicate WholeBursts(requests: seq<Request>, list: seq<Request>) {
    exists times: nat :: requests == Repeated(list, times)
  }

  /** The requests of a whole number of bursts, one by one. */
  lemma {:induction false} RepeatedAt(list: seq<Request>, times: nat, k: nat)
    requires k < |Repeated(list, times)|
    ensures |Repeated(list, times)| == times * |list|
    ensures Repeated(list, times)[k] == list[k % |list|]
  {
    RepeatedLength(list, times);
    var before := (times - 1) * |list|;
    RepeatedLength(list, times - 1);
    assert times * |list| == before + |list|;
    if k < before { RepeatedAt(list, times - 1, k); } else { Remainder(times - 1, |list|, k - before); }
  }

  lemma {:induction false} RepeatedLength(list: seq<Request>, times: nat)
    ensures |Repeated(list, times)| == times * |list|
  {
    if times > 0 {
      RepeatedLength(list, times - 1);
      assert times * |list| == (times - 1) * |list| + |list|;
    }
  }

  lemma Remainder(q: nat, n: nat, r: nat)
    requires r < n
    ensures (q * n + r) % n == r
  {
    var p := q * n + r;
    var q', r' := p / n, p % n;
    assert p == q' * n + r';
    Apart(n, q, q');
    Apart(n, q', q);
  }

  lemma Apart(n: nat, a: nat, b: nat)
    ensures a < b ==> a * n + n <= b * n
  {
    if a < b {
      Monotone(n, a + 1, b);
      assert n * (a + 1) == a * n + n;
    }
  }

  lemma Monotone(n: nat, a: nat, b: nat)
    requires a <= b
    ensures n * a <= n * b
  {
  }

  /** The queued lists and the bursts of every set so far are what was enqueued. */
  ghost predicate Filled(s: State, sets: seq<seq<Request>>, lists: seq<Request>) {
    && |sets| == s.generation + 1 && s.streaming == sets[s.generation]
    && Only(s.enqueued, OneShot) == lists
    && (forall g :: 0 <= g < |sets| ==> WholeBursts(Only(s.enqueued, Repeating(g)), sets[g]))
    && (forall g: nat :: g >= |sets| ==> Only(s.enqueued, Repeating(g)) == [])
  }

  /** A step that enqueues nothing and keeps the repeating set. */
  lemma SameFilled(s: State, t: State, sets: seq<seq<Request>>, lists: seq<Request>)
    requires Filled(s, sets, lists)
    requires t.enqueued == s.enqueued && t.streaming == s.streaming && t.generation == s.generation
    ensures Filled(t, sets, lists)
  {
  }

  /** A new repeating set, of which nothing is enqueued. */
  lemma NewSetFilled(s: State, t: State, sets: seq<seq<Request>>, lists: seq<Request>)
    requires Filled(s, sets, lists)
    requires t.enqueued == s.enqueued && t.generation == s.generation + 1
    ensures Filled(t, sets + [t.streaming], lists)
  {
    var sets' := sets + [t.streaming];
    forall g | 0 <= g < |sets'| ensures WholeBursts(Only(t.enqueued, Repeating(g)), sets'[g]) {
      if g < |sets| {
        assert sets'[g] == sets[g];
      } else {
        assert Only(t.enqueued, Repeating(g)) == Repeated(sets'[g], 0);
      }
    }
  }

  lemma QueuedFilled(s: State, list: seq<Request>, sets: seq<seq<Request>>, lists: seq<Request>)
    requires Filled(s, sets, lists)
    ensures Filled(QueueRequestList(s, list), sets, lists + list)
  {
    hide Only, Tagged, WholeBursts;
    OnlyTagged(s.enqueued, list, OneShot, OneShot);
    forall g: nat ensures Only(s.enqueued + Tagged(list, OneShot), Repeating(g)) == Only(s.enqueued, Repeating(g)) {
      OnlyTagged(s.enqueued, list, Repeating(g), OneShot);
    }
  }

  lemma BurstFilled(s: State, sets: seq<seq<Request>>, lists: seq<Request>)
    requires Filled(s, sets, lists)
    ensures Filled(Burst(s), sets, lists)
  {
    hide Only, Tagged;
    var q := s.enqueued + Tagged(s.streaming, Repeating(s.generation));
    OnlyTagged(s.enqueued, s.streaming, OneShot, Repeating(s.generation));
    forall g: nat
      ensures Only(q, Repeating(g)) == Only(s.enqueued, Repeating(g)) + if g == s.generation then s.streaming else []
    {
      OnlyTagged(s.enqueued, s.streaming, Repeating(g), Repeating(s.generation));
    }
    forall g | 0 <= g < |sets| ensures WholeBursts(Only(q, Repeating(g)), sets[g]) {
      var times: nat :| Only(s.enqueued, Repeating(g)) == Repeated(sets[g], times);
      if g == s.generation { assert Only(q, Repeating(g)) == Repeated(sets[g], times + 1); }
    }
  }

  lemma TakenFilled(s: State, sets: seq<seq<Request>>, lists: seq<Request>)
    requires Filled(s, sets, lists)
    ensures Filled(GetRequest(s), sets, lists)
  {
    hide Filled, Tagged;
    if s.current.None? && !(s.requests == [] && s.streaming == []) {
      if s.requests == [] { BurstFilled(s, sets, lists); }
      SameFilled(if s.requests == [] then Burst(s) else s, GetRequest(s), sets, lists);
    }
  }

  lemma ClearFilled(s: State, sets: seq<seq<Request>>, lists: seq<Request>)
    requires Filled(s, sets, lists) && Numbered(s) && !Drops(s, Flushed)
    ensures Filled(Clear(s), sets + [[]], lists)
  {
    hide Filled, FlushAll, Numbered;
    ClearNumbered(s);
    FlushKeeps(s);
    NewSetFilled(s, Clear(s), sets, lists);
  }

  lemma OtherFilled(s: State, e: Event, sets: seq<seq<Request>>, lists: seq<Request>)
    requires Filled(s, sets, lists)
    requires !e.Queued? && !e.RepeatingSet? && !e.RepeatingCleared? && !e.Flushed? && !e.Taken?
    ensures Filled(Step(s, e), sets, lists)
  {
    hide Filled;
    SameFilled(s, Step(s, e), sets, lists);
  }

  lemma {:induction false} RunFilled(errorCb: bool, id: int, events: seq<Event>)
    requires Keeps(Initial(errorCb, id), events)
    ensures Filled(Run(Initial(errorCb, id), events), SetsGiven(events), ListsGiven(events))
  {
    var s0 := Initial(errorCb, id);
    if events == [] {
      assert Only([], Repeating(0)) == Repeated([], 0);
    } else {
      var init, e := events[..|events| - 1], events[|events| - 1];
      hide Filled, Numbered, GetRequest, QueueRequestList, Clear, Keeps, Drops, SubmitRequest, WaitEnded, WaitOnPause;
      KeepsPrefix(s0, events);
      RunFilled(errorCb, id, init);
      RunNumbered(s0, init);
      var s, sets, lists := Run(s0, init), SetsGiven(init), ListsGiven(init);
      match e
      case Queued(list) => QueuedFilled(s, list, sets, lists);
      case RepeatingSet(list) => NewSetFilled(s, SetRepeatingRequests(s, list), sets, lists);
      case RepeatingCleared => NewSetFilled(s, ClearRepeatingRequests(s), sets, lists);
      case Flushed => ClearFilled(s, sets, lists);
      case Taken => TakenFilled(s, sets, lists);
      case _ => OtherFilled(s, e, sets, lists);
    }
  }

  /** Over every run that drops nothing: the one-shot requests enqueued are the queued lists end to
      end, and of the g-th repeating set given a whole number of bursts is enqueued, the k-th
      request of which is the one at k modulo the length of its list. What is issued is the first
      part of what is enqueued. */
  lemma EnqueuedExactly(errorCb: bool, id: int, events: seq<Event>, g: nat)
    requires Keeps(Initial(errorCb, id), events)
    ensures var s, sets := Run(Initial(errorCb, id), events), SetsGiven(events);
            var own := Only(s.enqueued, Repeating(g));
            && |sets| == s.generation + 1
            && Only(s.enqueued, OneShot) == ListsGiven(events)
            && (g >= |sets| || sets[g] == [] ==> own == [])
            && (g < |sets| && sets[g] != [] ==>
                  && |own| % |sets[g]| == 0
                  && forall k :: 0 <= k < |own| ==> own[k] == sets[g][k % |sets[g]|])
    ensures var s := Run(Initial(errorCb, id), events);
            |s.issued| <= |s.enqueued| && forall k :: 0 <= k < |s.issued| ==> s.issued[k].entry == s.enqueued[k]
  {
    hide Run, Only, Keeps, ListsGiven, SetsGiven, WholeBursts, Wrap32;
    RunFilled(errorCb, id, events);
    InitialNumbered(errorCb, id);
    RunNumbered(Initial(errorCb, id), events);
    var s, sets := Run(Initial(errorCb, id), events), SetsGiven(events);
    if g < |sets| { BurstsAt(Only(s.enqueued, Repeating(g)), sets[g]); }
  }

  lemma BurstsAt(own: seq<Request>, list: seq<Request>)
    requires WholeBursts(own, list)
    ensures list == [] ==> own == []
    ensures list != [] ==> |own| % |list| == 0 && forall k :: 0 <= k < |own| ==> own[k] == list[k % |list|]
  {
    var times: nat :| own == Repeated(list, times);
    hide Repeated;
    RepeatedLength(list, times);
    if list == [] {
      assert times * |list| == 0;
    } else {
      Remainder(times, |list|, 0);
      forall k | 0 <= k < |own| ensures own[k] == list[k % |list|] { RepeatedAt(list, times, k); }
    }
  }
}
