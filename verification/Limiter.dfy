/** The FIFO semaphore of libs/translations/src/translation.service.ts, and its runs. */
module Limiter {
  import opened Collections

  /** A caller of `acquire`; the source queues the callback that resumes it. */
  type Task = nat

  datatype Slots = Slots(running: int, queue: seq<Task>)

  function Acquired(limit: int, s: Slots, t: Task): Slots {
    if s.running < limit then s.(running := s.running + 1) else s.(queue := s.queue + [t])
  }

  function Released(s: Slots): Slots {
    if s.queue == [] then s.(running := s.running - 1) else s.(queue := s.queue[1..])
  }

  class ConcurrencyLimiter {
    const limit: int
    var running: int
    var queue: seq<Task>

    ghost function State(): Slots
      reads this
    {
      Slots(running, queue)
    }

    constructor (limit: int)
      ensures this.limit == limit && State() == Slots(0, [])
    {
      this.limit := limit;
      running, queue := 0, [];
    }

    /** Returns whether the slot was granted at once. */
    method Acquire(t: Task) returns (granted: bool)
      modifies this
      ensures State() == Acquired(limit, old(State()), t)
      ensures granted <==> old(running) < limit
    {
      if running < limit {
        running := running + 1;
        return true;
      }
      queue := queue + [t];
      return false;
    }

    /** Returns the waiter that is resumed, if any. */
    method Release() returns (next: Option<Task>)
      modifies this
      ensures State() == Released(old(State()))
      ensures next == if old(queue) == [] then None else Some(old(queue)[0])
    {
      running := running - 1;
      next := None;
      if |queue| > 0 {
        next := Some(queue[0]);
        queue := queue[1..];
        running := running + 1;
      }
    }
  }

  // ----- runs -----

  /** The limiter with its history: who asked, who was granted a slot, who gave it back. */
  datatype Run = Run(slots: Slots, arrivals: seq<Task>, granted: seq<Task>, released: set<Task>)

  const Idle := Run(Slots(0, []), [], [], {})

  datatype Event = Acquire(t: Task) | Release(t: Task)

  /** A task asks once, and gives a slot back once, after it was granted. */
  predicate Enabled(r: Run, e: Event) {
    match e
    case Acquire(t) => t !in r.arrivals
    case Release(t) => t in r.granted && t !in r.released
  }

  function Step(limit: int, r: Run, e: Event): Run {
    match e
    case Acquire(t) =>
      Run(Acquired(limit, r.slots, t), r.arrivals + [t],
          if r.slots.running < limit then r.granted + [t] else r.granted, r.released)
    case Release(t) =>
      Run(Released(r.slots), r.arrivals,
          if r.slots.queue == [] then r.granted else r.granted + [r.slots.queue[0]], r.released + {t})
  }

  predicate EnabledAll(limit: int, r: Run, events: seq<Event>)
    decreases |events|
  {
    events == [] || (Enabled(r, events[0]) && EnabledAll(limit, Step(limit, r, events[0]), events[1..]))
  }

  function Steps(limit: int, r: Run, events: seq<Event>): Run
    decreases |events|
  {
    if events == [] then r else Steps(limit, Step(limit, r, events[0]), events[1..])
  }

  /** A run goes on with any event that is enabled after it; so runs of every length exist. */
  lemma {:induction false} EnabledGoesOn(limit: int, r: Run, events: seq<Event>, e: Event)
    ensures EnabledAll(limit, r, events + [e]) <==> EnabledAll(limit, r, events) && Enabled(Steps(limit, r, events), e)
    ensures Steps(limit, r, events + [e]) == Step(limit, Steps(limit, r, events), e)
    decreases |events|
  {
    if events == [] {
      assert events + [e] == [e] && [e][1..] == [];
    } else {
      assert (events + [e])[1..] == events[1..] + [e];
      EnabledGoesOn(limit, Step(limit, r, events[0]), events[1..], e);
    }
  }

  function Capacity(limit: int): nat {
    if limit < 0 then 0 else limit
  }

  /**
   * Slots are granted in the order they were asked for; the running count is the number of granted
   * slots not yet given back and within the limit; somebody waits only while every slot is taken.
   */
  ghost predicate Invariant(limit: int, r: Run) {
    && NoDup(r.arrivals)
    && r.arrivals == r.granted + r.slots.queue
    && r.released <= Elems(r.granted)
    && r.slots.running == |r.granted| - |r.released|
    && r.slots.running <= Capacity(limit)
    && (r.slots.queue != [] ==> r.slots.running == Capacity(limit))
  }

  lemma StepKeepsInvariant(limit: int, r: Run, e: Event)
    requires Invariant(limit, r) && Enabled(r, e)
    ensures Invariant(limit, Step(limit, r, e))
  {
    var r' := Step(limit, r, e);
    if e.Release? && r.slots.queue != [] {
      assert r.slots.queue == [r.slots.queue[0]] + r.slots.queue[1..];
      assert r'.granted + r'.slots.queue == r.granted + r.slots.queue;
    }
    ReleasedFits(r);
  }

  /** No task is granted twice, and no waiter has been granted. */
  lemma WaitersNotGranted(r: Run)
    requires NoDup(r.arrivals) && r.arrivals == r.granted + r.slots.queue
    ensures NoDup(r.granted)
    ensures forall p :: 0 <= p < |r.slots.queue| ==> r.slots.queue[p] !in r.granted
  {
    forall i, j | 0 <= i < j < |r.granted| ensures r.granted[i] != r.granted[j] {
      assert r.arrivals[i] == r.granted[i] && r.arrivals[j] == r.granted[j];
    }
    forall i, p | 0 <= i < |r.granted| && 0 <= p < |r.slots.queue| ensures r.granted[i] != r.slots.queue[p] {
      assert r.arrivals[i] == r.granted[i] && r.arrivals[|r.granted| + p] == r.slots.queue[p];
    }
  }

  lemma ReleasedFits(r: Run)
    requires NoDup(r.arrivals) && r.arrivals == r.granted + r.slots.queue && r.released <= Elems(r.granted)
    ensures |r.released| <= |r.granted|
  {
    WaitersNotGranted(r);
    ElemsSize(r.granted);
    var rest := Elems(r.granted) - r.released;
    assert Elems(r.granted) == r.released + rest;
  }

  lemma {:induction false} ElemsSize<T>(s: seq<T>)
    requires NoDup(s)
    ensures |Elems(s)| == |s|
  {
    if s != [] {
      var init, last := s[..|s| - 1], s[|s| - 1];
      ElemsSize(init);
      assert s == init + [last];
      assert last !in init;
      assert Elems(s) == Elems(init) + {last};
    }
  }

  lemma {:induction false} RunKeepsInvariant(limit: int, r: Run, events: seq<Event>)
    requires Invariant(limit, r) && EnabledAll(limit, r, events)
    ensures Invariant(limit, Steps(limit, r, events))
    decreases |events|
  {
    if events != [] {
      StepKeepsInvariant(limit, r, events[0]);
      RunKeepsInvariant(limit, Step(limit, r, events[0]), events[1..]);
    }
  }

  /** Safety over whole runs, from an idle limiter. */
  lemma LimiterIsSafe(limit: int, events: seq<Event>)
    requires EnabledAll(limit, Idle, events)
    ensures var r := Steps(limit, Idle, events);
            && Invariant(limit, r) && 0 <= r.slots.running
            && r.granted <= r.arrivals
            && r.slots.running == |Elems(r.granted) - r.released|
  {
    RunKeepsInvariant(limit, Idle, events);
    HeldSlots(limit, Steps(limit, Idle, events));
  }

  /** The running count is the number of slots held. */
  lemma HeldSlots(limit: int, r: Run)
    requires Invariant(limit, r)
    ensures r.slots.running == |Elems(r.granted) - r.released| >= 0
  {
    WaitersNotGranted(r);
    ElemsSize(r.granted);
    var rest := Elems(r.granted) - r.released;
    assert Elems(r.granted) == r.released + rest;
  }

  function Releases(events: seq<Event>): nat {
    if events == [] then 0 else (if events[0].Release? then 1 else 0) + Releases(events[1..])
  }

  /** A waiter at queue position `p` has its slot exactly when p + 1 slots have been given back. */
  lemma {:induction false} GrantedAfter(limit: int, r: Run, events: seq<Event>, p: nat)
    requires Invariant(limit, r) && EnabledAll(limit, r, events) && p < |r.slots.queue|
    ensures r.slots.queue[p] in Steps(limit, r, events).granted <==> Releases(events) >= p + 1
    decreases |events|
  {
    var t := r.slots.queue[p];
    if events == [] {
      WaitersNotGranted(r);
    } else {
      var r' := Step(limit, r, events[0]);
      StepKeepsInvariant(limit, r, events[0]);
      if events[0].Release? && p == 0 {
        assert t == r'.granted[|r'.granted| - 1];
        GrantsKept(limit, r', events[1..], t);
      } else {
        GrantedAfter(limit, r', events[1..], if events[0].Release? then p - 1 else p);
      }
    }
  }

  lemma {:induction false} GrantsKept(limit: int, r: Run, events: seq<Event>, t: Task)
    requires t in r.granted
    ensures t in Steps(limit, r, events).granted
    decreases |events|
  {
    if events != [] {
      GrantsKept(limit, Step(limit, r, events[0]), events[1..], t);
    }
  }

  /** Once every task that asked has given its slot back, all slots are free and nobody waits. */
  lemma AllReleasedIsIdle(limit: int, r: Run)
    requires Invariant(limit, r) && Elems(r.arrivals) <= r.released
    ensures r.slots == Slots(0, [])
  {
    HeldSlots(limit, r);
    assert r.slots.queue != [] ==> r.slots.queue[0] in Elems(r.arrivals);
    WaitersNotGranted(r);
    assert Elems(r.granted) - r.released == {};
  }

  /** While somebody waits, a slot is held, and so can be given back, exactly when the limit is at least one. */
  lemma WaitersProgressIff(limit: int, events: seq<Event>)
    requires EnabledAll(limit, Idle, events) && Steps(limit, Idle, events).slots.queue != []
    ensures (exists t :: Enabled(Steps(limit, Idle, events), Release(t))) <==> limit >= 1
  {
    LimiterIsSafe(limit, events);
    var r := Steps(limit, Idle, events);
    var held := Elems(r.granted) - r.released;
    if limit >= 1 {
      assert |held| >= 1;
      var t :| t in held;
      assert Enabled(r, Release(t));
    } else {
      assert held == {};
      forall t ensures !Enabled(r, Release(t)) {
        assert t !in held;
      }
    }
  }
}
