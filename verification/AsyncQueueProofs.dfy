/** What holds in every run of the queues, with any number of producers and consumers. */
module AsyncQueueProofs {
  import opened AsyncQueues
  import opened Wrappers

  /** A run so far: the state, everything pushed, every pop() called, every delivery made, and for
      each delivery the place of its item in the order of pushes. */
  datatype Trace<T> = Trace(
    now: State<T>,
    pushed: seq<T>,
    called: seq<nat>,
    delivered: seq<Delivery<T>>,
    taken: seq<int>)

  function Start<T>(): Trace<T> { Trace(State([], [], []), [], [], [], []) }

  function Extend<T>(container: Container, t: Trace<T>, e: Event<T>): Trace<T> {
    var (next, out) := Step(container, t.now, e);
    Trace(next,
          if e.Push? then t.pushed + [e.item] else t.pushed,
          if e.Pop? then t.called + [e.consumer] else t.called,
          t.delivered + out,
          if out == [] then t.taken else t.taken + [|t.pushed| - |t.now.items|])
  }

  function Run<T>(container: Container, events: seq<Event<T>>): Trace<T>
    decreases |events|
  {
    if events == [] then Start()
    else Extend(container, Run(container, events[..|events| - 1]), events[|events| - 1])
  }

  // ----- no lost wake-up -----

  /** While some consumer is parked, there is a woken consumer for every item. */
  ghost predicate NoLostWakeup<T>(s: State<T>) {
    s.parked != [] ==> |s.items| <= |s.woken|
  }

  lemma {:induction false} EveryRunKeepsWakeups<T>(container: Container, events: seq<Event<T>>)
    ensures NoLostWakeup(Run(container, events).now)
    decreases |events|
  {
    if events == [] {
    } else {
      EveryRunKeepsWakeups(container, events[..|events| - 1]);
    }
  }

  lemma {:induction false} StepKeepsWakeups<T>(container: Container, s: State<T>, e: Event<T>)
    requires NoLostWakeup(s)
    ensures NoLostWakeup(Step(container, s, e).0)
  {}

  /** Every event resumes a consumer that is woken at that point. */
  ghost predicate Resumptions<T>(container: Container, s: State<T>, resumes: seq<Event<T>>)
    decreases |resumes|
  {
    resumes != [] ==>
      && resumes[0].Resume? && resumes[0].k < |s.woken|
      && Resumptions(container, Step(container, s, resumes[0]).0, resumes[1..])
  }

  function After<T>(container: Container, s: State<T>, events: seq<Event<T>>): State<T>
    decreases |events|
  {
    if events == [] then s else After(container, Step(container, s, events[0]).0, events[1..])
  }

  /** In whatever order the executor resumes them, each resumption uses up one woken consumer; so no
      schedule outlasts the woken consumers, and when none is left no item waits beside a parked
      consumer. */
  lemma {:induction false} EveryScheduleDrains<T>(container: Container, s: State<T>, resumes: seq<Event<T>>)
    requires NoLostWakeup(s) && Resumptions(container, s, resumes)
    ensures var end := After(container, s, resumes);
            && |end.woken| == |s.woken| - |resumes|
            && (end.woken == [] ==> end.items == [] || end.parked == [])
    decreases |resumes|
  {
    if resumes == [] {
    } else {
      StepKeepsWakeups(container, s, resumes[0]);
      EveryScheduleDrains(container, Step(container, s, resumes[0]).0, resumes[1..]);
    }
  }

  // ----- consumers -----

  function Consumers<T>(delivered: seq<Delivery<T>>): (cs: seq<nat>)
    ensures |cs| == |delivered|
  {
    seq(|delivered|, i requires 0 <= i < |delivered| => delivered[i].consumer)
  }

  /** Everybody who is parked, woken or served. */
  function Present<T>(s: State<T>, delivered: seq<Delivery<T>>): multiset<nat> {
    multiset(s.parked) + multiset(s.woken) + multiset(Consumers(delivered))
  }

  /** Every call of pop() is parked, woken, or has been given one item: nobody is lost or served
      twice. */
  lemma {:induction false} ConsumersConserved<T>(container: Container, events: seq<Event<T>>)
    ensures var t := Run(container, events); multiset(t.called) == Present(t.now, t.delivered)
    decreases |events|
  {
    if events == [] {
    } else {
      ConsumersConserved(container, events[..|events| - 1]);
      ConsumersStep(container, Run(container, events[..|events| - 1]), events[|events| - 1]);
    }
  }

  lemma {:induction false} ConsumersStep<T>(container: Container, t: Trace<T>, e: Event<T>)
    requires multiset(t.called) == Present(t.now, t.delivered)
    ensures var u := Extend(container, t, e); multiset(u.called) == Present(u.now, u.delivered)
  {
    match e
    case Push(item) => PushMovesOnly(container, t.now, item, t.delivered);
    case Pop(c) => AttemptAdds(t.now, c, t.delivered);
    case Resume(k) =>
      if k < |t.now.woken| {
        ResumeMovesOnly(t.now, k, t.delivered);
      } else {
        assert t.delivered + [] == t.delivered;
      }
    case Clear => assert t.delivered + [] == t.delivered;
  }

  lemma {:induction false} PushMovesOnly<T>(container: Container, s: State<T>, item: T,
                                            delivered: seq<Delivery<T>>)
    ensures Present(Step(container, s, Push(item)).0, delivered + []) == Present(s, delivered)
  {
    assert delivered + [] == delivered;
    if s.parked != [] { assert s.parked == [s.parked[0]] + s.parked[1..]; }
  }

  /** An attempt parks its consumer or serves it, and moves nobody else. */
  lemma {:induction false} AttemptAdds<T>(s: State<T>, consumer: nat, delivered: seq<Delivery<T>>)
    ensures Present(Attempt(s, consumer).0, delivered + Attempt(s, consumer).1)
         == Present(s, delivered) + multiset{consumer}
  {
    if s.items == [] {
      assert delivered + [] == delivered;
    } else {
      var d := Delivery(consumer, s.items[0]);
      assert Consumers(delivered + [d]) == Consumers(delivered) + [consumer];
    }
  }

  lemma {:induction false} ResumeMovesOnly<T>(s: State<T>, k: nat, delivered: seq<Delivery<T>>)
    requires k < |s.woken|
    ensures var (next, out) := Attempt(Unwoken(s, k), s.woken[k]);
            Present(next, delivered + out) == Present(s, delivered)
  {
    AttemptAdds(Unwoken(s, k), s.woken[k], delivered);
    assert s.woken == s.woken[..k] + [s.woken[k]] + s.woken[k + 1..];
  }

  function LastIfLonger(longer: seq<nat>, s: seq<nat>): seq<nat> {
    if |longer| > |s| then [longer[|longer| - 1]] else []
  }

  /** Consumers in the order in which they parked, each time they did. */
  function Parkings<T>(container: Container, events: seq<Event<T>>): seq<nat>
    decreases |events|
  {
    if events == [] then []
    else
      var before := events[..|events| - 1];
      var s, u := Run(container, before).now, Run(container, events).now;
      Parkings(container, before) + LastIfLonger(u.parked, s.parked)
  }

  /** Consumers in the order in which they were woken. */
  function Wakings<T>(container: Container, events: seq<Event<T>>): seq<nat>
    decreases |events|
  {
    if events == [] then []
    else
      var before := events[..|events| - 1];
      var s, u := Run(container, before).now, Run(container, events).now;
      Wakings(container, before) + LastIfLonger(u.woken, s.woken)
  }

  /** Consumers are woken in the order in which they parked; the parked ones are those still to be
      woken. */
  lemma {:induction false} WokenInParkingOrder<T>(container: Container, events: seq<Event<T>>)
    ensures Wakings(container, events) + Run(container, events).now.parked == Parkings(container, events)
    decreases |events|
  {
    if events == [] {
    } else {
      var before := events[..|events| - 1];
      WokenInParkingOrder(container, before);
      WakingStep(container, Run(container, before).now, events[|events| - 1],
                 Wakings(container, before), Parkings(container, before));
    }
  }

  lemma {:induction false} WakingStep<T>(container: Container, s: State<T>, e: Event<T>,
                                         wakings: seq<nat>, parkings: seq<nat>)
    requires wakings + s.parked == parkings
    ensures wakings + LastIfLonger(Step(container, s, e).0.woken, s.woken) + Step(container, s, e).0.parked
         == parkings + LastIfLonger(Step(container, s, e).0.parked, s.parked)
  {
    if e.Push? && s.parked != [] {
      assert s.parked == [s.parked[0]] + s.parked[1..];
      assert wakings + [s.parked[0]] + s.parked[1..] == parkings;
    }
  }

  // ----- items -----

  ghost predicate WithinCapacity<T>(container: Container, s: State<T>) {
    container.Circular? ==> |s.items| <= container.capacity
  }

  /** A circular buffer never holds more than its capacity. */
  lemma {:induction false} EveryRunWithinCapacity<T>(container: Container, events: seq<Event<T>>)
    ensures WithinCapacity(container, Run(container, events).now)
    decreases |events|
  {
    if events == [] {
    } else {
      EveryRunWithinCapacity(container, events[..|events| - 1]);
    }
  }

  /** The buffered items are the newest pushes, in order; what was taken was taken in push order,
      each item at most once. */
  ghost predicate InPushOrder<T>(t: Trace<T>) {
    && |t.now.items| <= |t.pushed|
    && t.now.items == t.pushed[|t.pushed| - |t.now.items|..]
    && TakenInOrder(t.pushed, t.delivered, t.taken, |t.pushed| - |t.now.items|)
  }

  ghost predicate TakenInOrder<T>(pushed: seq<T>, delivered: seq<Delivery<T>>, taken: seq<int>, bound: nat)
    requires bound <= |pushed|
  {
    && |taken| == |delivered|
    && (forall i :: 0 <= i < |taken| ==> 0 <= taken[i] < bound && delivered[i].item == pushed[taken[i]])
    && (forall i, j :: 0 <= i < j < |taken| ==> taken[i] < taken[j])
  }

  lemma {:induction false} EveryRunInPushOrder<T>(container: Container, events: seq<Event<T>>)
    ensures InPushOrder(Run(container, events))
    decreases |events|
  {
    if events == [] {
    } else {
      EveryRunInPushOrder(container, events[..|events| - 1]);
      EveryRunWithinCapacity(container, events[..|events| - 1]);
      InPushOrderStep(container, Run(container, events[..|events| - 1]), events[|events| - 1]);
    }
  }

  lemma {:induction false} InPushOrderStep<T>(container: Container, t: Trace<T>, e: Event<T>)
    requires InPushOrder(t) && WithinCapacity(container, t.now)
    ensures InPushOrder(Extend(container, t, e))
  {
    match e
    case Push(item) => PushInOrder(container, t, item);
    case Pop(c) => AttemptInOrder(t, t.now, c, Extend(container, t, e));
    case Resume(k) =>
      if k < |t.now.woken| {
        AttemptInOrder(t, Unwoken(t.now, k), t.now.woken[k], Extend(container, t, e));
      } else {
        assert t.delivered + [] == t.delivered;
      }
    case Clear => assert t.delivered + [] == t.delivered;
  }

  lemma {:induction false} PushInOrder<T>(container: Container, t: Trace<T>, item: T)
    requires InPushOrder(t) && WithinCapacity(container, t.now)
    ensures InPushOrder(Extend(container, t, Push(item)))
  {
    var u := Extend(container, t, Push(item));
    assert t.delivered + [] == t.delivered;
    assert u.now.items == (t.pushed + [item])[|t.pushed| + 1 - |u.now.items|..];
  }

  lemma {:induction false} AttemptInOrder<T>(t: Trace<T>, s: State<T>, c: nat, u: Trace<T>)
    requires InPushOrder(t) && s.items == t.now.items
    requires u.now == Attempt(s, c).0 && u.pushed == t.pushed && u.delivered == t.delivered + Attempt(s, c).1
    requires u.taken == if s.items == [] then t.taken else t.taken + [|t.pushed| - |t.now.items|]
    ensures InPushOrder(u)
  {
    if s.items == [] {
      assert u.delivered == t.delivered;
    } else {
      var first := |t.pushed| - |t.now.items|;
      assert u.now.items == t.now.items[1..] == t.pushed[first + 1..];
      assert t.pushed[first] == s.items[0];
      TakenGrows(t.pushed, t.delivered, t.taken, first, c);
    }
  }

  lemma {:induction false} TakenGrows<T>(pushed: seq<T>, delivered: seq<Delivery<T>>, taken: seq<int>,
                                         bound: nat, c: nat)
    requires bound < |pushed| && TakenInOrder(pushed, delivered, taken, bound)
    ensures TakenInOrder(pushed, delivered + [Delivery(c, pushed[bound])], taken + [bound], bound + 1)
  {}

  ghost predicate ClearFree<T>(events: seq<Event<T>>) {
    forall e | e in events :: !e.Clear?
  }

  /** Whatever was pushed is still buffered, or was taken, or has at least `capacity` newer pushes. */
  ghost predicate LostOnlyWhenOld<T>(t: Trace<T>, capacity: nat) {
    forall j :: 0 <= j < |t.pushed| - |t.now.items| ==> j in t.taken || |t.pushed| - 1 - j >= capacity
  }

  lemma {:induction false} LossNeedsNewerPushes<T>(capacity: nat, events: seq<Event<T>>)
    requires ClearFree(events)
    ensures LostOnlyWhenOld(Run(Circular(capacity), events), capacity)
    decreases |events|
  {
    if events == [] {
    } else {
      var before, e := events[..|events| - 1], events[|events| - 1];
      LossNeedsNewerPushes(capacity, before);
      EveryRunInPushOrder(Circular(capacity), before);
      EveryRunWithinCapacity(Circular(capacity), before);
      LossStep(capacity, Run(Circular(capacity), before), e);
    }
  }

  lemma {:induction false} LossStep<T>(capacity: nat, t: Trace<T>, e: Event<T>)
    requires InPushOrder(t) && LostOnlyWhenOld(t, capacity) && |t.now.items| <= capacity && !e.Clear?
    ensures LostOnlyWhenOld(Extend(Circular(capacity), t, e), capacity)
  {
    var u := Extend(Circular(capacity), t, e);
    forall j | 0 <= j < |u.pushed| - |u.now.items| && j !in u.taken
      ensures |u.pushed| - 1 - j >= capacity
    {
      if |u.taken| > |t.taken| { assert u.taken[|t.taken|] == |t.pushed| - |t.now.items|; }
      assert forall i :: 0 <= i < |t.taken| ==> u.taken[i] == t.taken[i];
      assert j !in t.taken;
    }
  }

  function Items<T>(delivered: seq<Delivery<T>>): (xs: seq<T>)
    ensures |xs| == |delivered|
  {
    seq(|delivered|, i requires 0 <= i < |delivered| => delivered[i].item)
  }

  /** Without clear() the unbounded queue loses nothing: deliveries followed by what is queued are
      the pushes, in order. */
  lemma {:induction false} QueueIsFifo<T>(events: seq<Event<T>>)
    requires ClearFree(events)
    ensures var t := Run(Deque, events); Items(t.delivered) + t.now.items == t.pushed
    decreases |events|
  {
    if events == [] {
    } else {
      var t, e := Run(Deque, events[..|events| - 1]), events[|events| - 1];
      QueueIsFifo(events[..|events| - 1]);
      FifoStep(t, e);
    }
  }

  lemma {:induction false} FifoStep<T>(t: Trace<T>, e: Event<T>)
    requires Items(t.delivered) + t.now.items == t.pushed && !e.Clear?
    ensures var u := Extend(Deque, t, e); Items(u.delivered) + u.now.items == u.pushed
  {
    var u := Extend(Deque, t, e);
    if |u.delivered| == |t.delivered| {
      assert u.delivered == t.delivered;
    } else {
      assert u.delivered[..|t.delivered|] == t.delivered;
      assert Items(u.delivered) == Items(t.delivered) + [t.now.items[0]];
      assert t.now.items == [t.now.items[0]] + u.now.items;
    }
  }

  /** Once the woken consumers have run, as many items are delivered as there can be. */
  lemma {:induction false} QuiescentDeliveries<T>(events: seq<Event<T>>)
    requires ClearFree(events) && Run(Deque, events).now.woken == []
    ensures var t := Run(Deque, events);
            |t.delivered| == if |t.pushed| <= |t.called| then |t.pushed| else |t.called|
  {
    var t := Run(Deque, events);
    QueueIsFifo(events);
    EveryRunKeepsWakeups(Deque, events);
    ConsumersConserved(Deque, events);
    assert |t.called| == |multiset(t.called)|;
    assert |multiset(t.now.parked) + multiset(t.now.woken) + multiset(Consumers(t.delivered))|
        == |t.now.parked| + |t.now.woken| + |t.delivered|;
    assert |t.pushed| == |t.delivered| + |t.now.items|;
  }

  /** Whatever u delivered after t was pushed after t, and so is all that u still holds. */
  ghost predicate OnlyNewer<T>(t: Trace<T>, u: Trace<T>) {
    && |u.pushed| - |u.now.items| >= |t.pushed|
    && |t.taken| <= |u.taken|
    && forall i :: |t.taken| <= i < |u.taken| ==> u.taken[i] >= |t.pushed|
  }

  lemma {:induction false} RunSnoc<T>(container: Container, events: seq<Event<T>>, e: Event<T>)
    ensures Run(container, events + [e]) == Extend(container, Run(container, events), e)
  {
    assert (events + [e])[..|events + [e]| - 1] == events;
  }

  /** clear() drops the items and nothing else: nobody waiting notices, and no delivery is made. */
  lemma {:induction false} ClearDropsItems<T>(container: Container, events: seq<Event<T>>)
    ensures var t := Run(container, events);
            Run(container, events + [Clear]) == t.(now := State([], t.now.parked, t.now.woken))
  {
    RunSnoc(container, events, Clear);
    assert Run(container, events).delivered + [] == Run(container, events).delivered;
  }

  /** After clear() nothing is left of what was pushed before: in any continuation of any run, whatever
      is delivered was pushed after it. */
  lemma {:induction false} ClearForgets<T>(container: Container, before: seq<Event<T>>, after: seq<Event<T>>)
    ensures OnlyNewer(Run(container, before + [Clear]), Run(container, before + [Clear] + after))
    decreases |after|
  {
    var cleared := before + [Clear];
    if after == [] {
      ClearDropsItems(container, before);
      EveryRunInPushOrder(container, before);
      assert cleared + after == cleared;
    } else {
      var shorter, e := cleared + after[..|after| - 1], after[|after| - 1];
      ClearForgets(container, before, after[..|after| - 1]);
      RunSnoc(container, shorter, e);
      assert cleared + after == shorter + [e];
      OnlyNewerStep(container, Run(container, cleared), Run(container, shorter), e);
    }
  }

  lemma {:induction false} OnlyNewerStep<T>(container: Container, t: Trace<T>, u: Trace<T>, e: Event<T>)
    requires OnlyNewer(t, u)
    ensures OnlyNewer(t, Extend(container, u, e))
  {}

  // ----- when a wake-up is worth an item -----

  /** Every woken consumer can count on an item. */
  predicate Covered<T>(s: State<T>) { |s.woken| <= |s.items| }

  /** What takes a promised item away: a newcomer that takes it first, a clear() after the wake-up,
      and a push that overwrites the item of one wake-up and makes another. */
  predicate BreaksPromise<T>(container: Container, s: State<T>, e: Event<T>) {
    match e
    case Push(_) =>
      container.Circular? && |s.items| == container.capacity && s.parked != [] && |s.woken| == |s.items|
    case Pop(_) => s.items != [] && |s.woken| == |s.items|
    case Clear => s.woken != []
    case Resume(_) => false
  }

  lemma {:induction false} StepKeepsCoveredIff<T>(container: Container, s: State<T>, e: Event<T>)
    requires Covered(s) && WithinCapacity(container, s)
    ensures Covered(Step(container, s, e).0) <==> !BreaksPromise(container, s, e)
  {}

  /** At no point of the run are there more woken consumers than items. */
  ghost predicate AlwaysCovered<T>(container: Container, events: seq<Event<T>>) {
    forall n :: 0 <= n <= |events| ==> CoveredAfter(container, events, n)
  }

  ghost predicate CoveredAfter<T>(container: Container, events: seq<Event<T>>, n: nat)
    requires n <= |events|
  {
    Covered(Run(container, events[..n]).now)
  }

  /** No event of the run breaks a promise. */
  ghost predicate PromisesKept<T>(container: Container, events: seq<Event<T>>) {
    forall n :: 0 <= n < |events| ==> PromiseKept(container, events, n)
  }

  ghost predicate PromiseKept<T>(container: Container, events: seq<Event<T>>, n: nat)
    requires n < |events|
  {
    !BreaksPromise(container, Run(container, events[..n]).now, events[n])
  }

  /** Which runs are covered throughout: exactly those. */
  lemma {:induction false} AlwaysCoveredIff<T>(container: Container, events: seq<Event<T>>)
    ensures AlwaysCovered(container, events) <==> PromisesKept(container, events)
    decreases |events|
  {
    if events == [] {
      assert events[..0] == [];
    } else {
      var before, e := events[..|events| - 1], events[|events| - 1];
      AlwaysCoveredIff(container, before);
      AlwaysCoveredSnoc(container, events);
      PromisesKeptSnoc(container, events);
      EveryRunWithinCapacity(container, before);
      assert events[..|events|] == events;
      if AlwaysCovered(container, before) {
        assert CoveredAfter(container, before, |before|) && before[..|before|] == before;
        StepKeepsCoveredIff(container, Run(container, before).now, e);
      }
    }
  }

  lemma {:induction false} AlwaysCoveredSnoc<T>(container: Container, events: seq<Event<T>>)
    requires events != []
    ensures AlwaysCovered(container, events) <==>
            AlwaysCovered(container, events[..|events| - 1]) && CoveredAfter(container, events, |events|)
  {
    var m := |events| - 1;
    forall n | 0 <= n <= m ensures CoveredAfter(container, events[..m], n) <==> CoveredAfter(container, events, n) {
      assert events[..m][..n] == events[..n];
    }
  }

  lemma {:induction false} PromisesKeptSnoc<T>(container: Container, events: seq<Event<T>>)
    requires events != []
    ensures PromisesKept(container, events) <==>
            PromisesKept(container, events[..|events| - 1]) && PromiseKept(container, events, |events| - 1)
  {
    var m := |events| - 1;
    forall n | 0 <= n < m ensures PromiseKept(container, events[..m], n) <==> PromiseKept(container, events, n) {
      assert events[..m][..n] == events[..n];
    }
  }

  function Deliveries<T>(container: Container, s: State<T>, events: seq<Event<T>>): seq<Delivery<T>>
    decreases |events|
  {
    if events == [] then []
    else
      var (next, out) := Step(container, s, events[0]);
      out + Deliveries(container, next, events[1..])
  }

  /** However the executor orders them, resumptions deliver the buffered items, oldest first, as far
      as they go. */
  lemma {:induction false} ResumptionsDeliver<T>(container: Container, s: State<T>, resumes: seq<Event<T>>)
    requires Resumptions(container, s, resumes)
    ensures Items(Deliveries(container, s, resumes))
         == if |resumes| <= |s.items| then s.items[..|resumes|] else s.items
    decreases |resumes|
  {
    if resumes == [] {
    } else {
      var (next, out) := Step(container, s, resumes[0]);
      var rest := Deliveries(container, next, resumes[1..]);
      ResumptionsDeliver(container, next, resumes[1..]);
      if s.items == [] {
        assert out + rest == rest;
      } else {
        ItemsCons(out[0], rest);
      }
    }
  }

  lemma {:induction false} ItemsCons<T>(d: Delivery<T>, rest: seq<Delivery<T>>)
    ensures Items([d] + rest) == [d.item] + Items(rest)
  {}

  /** A schedule that lets every consumer run that is woken now. */
  ghost predicate FullSchedule<T>(container: Container, s: State<T>, resumes: seq<Event<T>>) {
    Resumptions(container, s, resumes) && |resumes| == |s.woken|
  }

  /** There always is one. */
  lemma {:induction false} OldestFirst<T>(container: Container, s: State<T>) returns (resumes: seq<Event<T>>)
    ensures FullSchedule(container, s, resumes)
    decreases |s.woken|
  {
    if s.woken == [] {
      resumes := [];
    } else {
      var rest := OldestFirst(container, Step<T>(container, s, Resume(0)).0);
      resumes := [Resume(0)] + rest;
      assert resumes[1..] == rest;
    }
  }

  /** Whatever the order of resumption, every woken consumer is served exactly when they are covered:
      otherwise some consumer parks again, even if nobody overtakes it. */
  lemma {:induction false} EveryWokenServedIff<T>(container: Container, s: State<T>)
    ensures Covered(s) <==>
            forall resumes :: FullSchedule(container, s, resumes) ==>
              |Deliveries(container, s, resumes)| == |s.woken|
  {
    forall resumes | FullSchedule(container, s, resumes)
      ensures |Deliveries(container, s, resumes)| == |s.woken| <==> Covered(s)
    {
      ResumptionsDeliver(container, s, resumes);
      assert |Items(Deliveries(container, s, resumes))| == |Deliveries(container, s, resumes)|;
    }
    var resumes := OldestFirst(container, s);
  }

  /** For example, a consumer that was woken can be overtaken by one that calls pop() before it
      resumes, and parks again behind it: the wake-up order is not the delivery order. */
  lemma {:induction false} WokenCanBeOvertaken<T>(container: Container, x: T)
    requires container.Deque? || container.capacity > 0
    ensures var t := Run(container, [Pop(1), Push(x), Pop(2), Resume(0)]);
            t.delivered == [Delivery(2, x)] && t.now.parked == [1]
  {
    var e1: Event<T>, e2, e3: Event<T>, e4: Event<T> := Pop(1), Push(x), Pop(2), Resume(0);
    assert [e1, e2, e3, e4][..3] == [e1, e2, e3];
    assert [e1, e2, e3][..2] == [e1, e2] && [e1, e2][..1] == [e1] && [e1][..0] == [];
    assert Run(container, [e1]).now == State([], [1], []);
    assert Run(container, [e1, e2]).now == State([x], [], [1]);
    assert Run(container, [e1, e2, e3]).now == State([], [], [1]);
  }

  // ----- capacity one -----

  function SlotRun<T>(events: seq<Event<T>>): (Slot<T>, seq<Delivery<T>>)
    decreases |events|
  {
    if events == [] then (Slot(None, [], []), [])
    else
      var (s, out) := SlotRun(events[..|events| - 1]);
      var (s', more) := SlotStep(s, events[|events| - 1]);
      (s', out + more)
  }

  ghost predicate Corresponds<T>(slot: Slot<T>, s: State<T>) {
    && s.items == (match slot.item case None => [] case Some(x) => [x])
    && s.parked == slot.parked
    && s.woken == slot.woken
  }

  /** Corresponding states step to corresponding states with the same deliveries. */
  lemma {:induction false} SlotStepCorresponds<T>(slot: Slot<T>, s: State<T>, e: Event<T>)
    requires Corresponds(slot, s)
    ensures Corresponds(SlotStep(slot, e).0, Step(Circular(1), s, e).0)
    ensures SlotStep(slot, e).1 == Step(Circular(1), s, e).1
  {}

  /** The specialisation is the generic buffer at capacity one, under all interleavings. */
  lemma {:induction false} SpecialisationIsFaithful<T>(events: seq<Event<T>>)
    ensures Corresponds(SlotRun(events).0, Run(Circular(1), events).now)
    ensures SlotRun(events).1 == Run(Circular(1), events).delivered
    decreases |events|
  {
    if events == [] {
    } else {
      var before := events[..|events| - 1];
      SpecialisationIsFaithful(before);
      SlotStepCorresponds(SlotRun(before).0, Run(Circular(1), before).now, events[|events| - 1]);
    }
  }
}
