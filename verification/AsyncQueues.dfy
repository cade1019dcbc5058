/** async_queue and async_circular_buffer: coroutine queues whose timer serves as a condition
    variable. A coroutine runs without interruption between suspension points; cancel_one moves the
    oldest parked consumer to the woken ones, which the executor resumes later, in any order. */
module AsyncQueues {
  import opened Wrappers

  /** What holds the items: std::deque, or boost::circular_buffer with its capacity. */
  datatype Container = Deque | Circular(capacity: nat)

  /** push_back; a full circular buffer overwrites its front, one of capacity zero takes nothing. */
  function PushBack<T>(container: Container, items: seq<T>, item: T): seq<T> {
    match container
    case Deque => items + [item]
    case Circular(capacity) =>
      if capacity == 0 then items
      else if |items| >= capacity then items[1..] + [item]
      else items + [item]
  }

  datatype State<T> = State(items: seq<T>, parked: seq<nat>, woken: seq<nat>)

  datatype Delivery<T> = Delivery(consumer: nat, item: T)

  /** Resume(k) lets the k-th woken consumer run; without such a consumer it does nothing. */
  datatype Event<T> = Push(item: T) | Pop(consumer: nat) | Resume(k: nat) | Clear

  function CancelOne<T>(s: State<T>): State<T> {
    if s.parked == [] then s
    else s.(parked := s.parked[1..], woken := s.woken + [s.parked[0]])
  }

  /** The loop of pop() up to its next suspension or its end. */
  function Attempt<T>(s: State<T>, consumer: nat): (State<T>, seq<Delivery<T>>) {
    if s.items == [] then (s.(parked := s.parked + [consumer]), [])
    else (s.(items := s.items[1..]), [Delivery(consumer, s.items[0])])
  }

  function Unwoken<T>(s: State<T>, k: nat): State<T>
    requires k < |s.woken|
  {
    s.(woken := s.woken[..k] + s.woken[k + 1..])
  }

  function Step<T>(container: Container, s: State<T>, e: Event<T>): (State<T>, seq<Delivery<T>>) {
    match e
    case Push(item) => (CancelOne(s.(items := PushBack(container, s.items, item))), [])
    case Pop(consumer) => Attempt(s, consumer)
    case Resume(k) => if k < |s.woken| then Attempt(Unwoken(s, k), s.woken[k]) else (s, [])
    case Clear => (s.(items := []), [])
  }

  // ----- the two classes -----

  class AsyncQueue<T> {
    var queue: seq<T>
    var parked: seq<nat>
    var woken: seq<nat>

    function Now(): State<T>
      reads this
    {
      State(queue, parked, woken)
    }

    constructor ()
      ensures Now() == State([], [], [])
    {
      queue, parked, woken := [], [], [];
    }

    method Clear()
      modifies this
      ensures Now() == Step(Deque, old(Now()), Event.Clear).0
    {
      queue := [];
    }

    method Push(arg: T)
      modifies this
      ensures Now() == Step(Deque, old(Now()), Event.Push(arg)).0
    {
      queue := queue + [arg];
      if parked != [] {
        woken := woken + [parked[0]];
        parked := parked[1..];
      }
    }

    /** pop() from its call to its first suspension or its end. */
    method Pop(consumer: nat) returns (result: seq<Delivery<T>>)
      modifies this
      ensures (Now(), result) == Step(Deque, old(Now()), Event.Pop(consumer))
    {
      if |queue| == 0 {
        parked := parked + [consumer];
        result := [];
      } else {
        result := [Delivery(consumer, queue[0])];
        queue := queue[1..];
      }
    }

    /** pop() from a wake-up to its next suspension or its end: the loop tests again. */
    method Resume(k: nat) returns (result: seq<Delivery<T>>)
      requires k < |woken|
      modifies this
      ensures (Now(), result) == Step(Deque, old(Now()), Event.Resume(k))
    {
      var consumer := woken[k];
      woken := woken[..k] + woken[k + 1..];
      result := Pop(consumer);
    }
  }

  class AsyncCircularBuffer<T> {
    const capacity: nat
    var buffer: seq<T>
    var parked: seq<nat>
    var woken: seq<nat>

    function Now(): State<T>
      reads this
    {
      State(buffer, parked, woken)
    }

    constructor (capacity: nat)
      ensures Now() == State([], [], []) && this.capacity == capacity
    {
      this.capacity := capacity;
      buffer, parked, woken := [], [], [];
    }

    method Clear()
      modifies this
      ensures Now() == Step(Circular(capacity), old(Now()), Event.Clear).0
    {
      buffer := [];
    }

    method Push(arg: T)
      modifies this
      ensures Now() == Step(Circular(capacity), old(Now()), Event.Push(arg)).0
    {
      if capacity != 0 {
        if |buffer| >= capacity { buffer := buffer[1..]; }
        buffer := buffer + [arg];
      }
      if parked != [] {
        woken := woken + [parked[0]];
        parked := parked[1..];
      }
    }

    method Pop(consumer: nat) returns (result: seq<Delivery<T>>)
      modifies this
      ensures (Now(), result) == Step(Circular(capacity), old(Now()), Event.Pop(consumer))
    {
      if |buffer| == 0 {
        parked := parked + [consumer];
        result := [];
      } else {
        result := [Delivery(consumer, buffer[0])];
        buffer := buffer[1..];
      }
    }

    method Resume(k: nat) returns (result: seq<Delivery<T>>)
      requires k < |woken|
      modifies this
      ensures (Now(), result) == Step(Circular(capacity), old(Now()), Event.Resume(k))
    {
      var consumer := woken[k];
      woken := woken[..k] + woken[k + 1..];
      result := Pop(consumer);
    }
  }

  // ----- the specialisation for capacity one -----

  datatype Slot<T> = Slot(item: Option<T>, parked: seq<nat>, woken: seq<nat>)

  function SlotAttempt<T>(s: Slot<T>, consumer: nat): (Slot<T>, seq<Delivery<T>>) {
    match s.item
    case None => (s.(parked := s.parked + [consumer]), [])
    case Some(item) => (s.(item := None), [Delivery(consumer, item)])
  }

  function SlotStep<T>(s: Slot<T>, e: Event<T>): (Slot<T>, seq<Delivery<T>>) {
    match e
    case Push(item) =>
      var t := s.(item := Some(item));
      (if t.parked == [] then t else t.(parked := t.parked[1..], woken := t.woken + [t.parked[0]]), [])
    case Pop(consumer) => SlotAttempt(s, consumer)
    case Resume(k) =>
      if k < |s.woken| then
        SlotAttempt(s.(woken := s.woken[..k] + s.woken[k + 1..]), s.woken[k])
      else (s, [])
    case Clear => (s.(item := None), [])
  }

  class AsyncSlot<T> {
    var buffer: Option<T>
    var parked: seq<nat>
    var woken: seq<nat>

    function Now(): Slot<T>
      reads this
    {
      Slot(buffer, parked, woken)
    }

    constructor ()
      ensures Now() == Slot(None, [], [])
    {
      buffer, parked, woken := None, [], [];
    }

    method Clear()
      modifies this
      ensures Now() == SlotStep(old(Now()), Event.Clear).0
    {
      buffer := None;
    }

    method Push(arg: T)
      modifies this
      ensures Now() == SlotStep(old(Now()), Event.Push(arg)).0
    {
      buffer := Some(arg);
      if parked != [] {
        woken := woken + [parked[0]];
        parked := parked[1..];
      }
    }

    method Pop(consumer: nat) returns (result: seq<Delivery<T>>)
      modifies this
      ensures (Now(), result) == SlotStep(old(Now()), Event.Pop(consumer))
    {
      if buffer.None? {
        parked := parked + [consumer];
        result := [];
      } else {
        result := [Delivery(consumer, buffer.value)];
        buffer := None;
      }
    }

    method Resume(k: nat) returns (result: seq<Delivery<T>>)
      requires k < |woken|
      modifies this
      ensures (Now(), result) == SlotStep(old(Now()), Event.Resume(k))
    {
      var consumer := woken[k];
      woken := woken[..k] + woken[k + 1..];
      result := Pop(consumer);
    }
  }
}
