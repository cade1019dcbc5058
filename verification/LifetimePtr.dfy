/** lifetime_ptr: a proxy flag with its own reference count decides when an implementation, which
    the proxy's deleter keeps alive, is stopped. */
module LifetimePtr {
  import opened Collections

  /** A shared_ptr<bool>: the flag, and how many lifetime pointers share it. */
  datatype Proxy = Proxy(flag: bool, refs: nat)

  /** One implementation: the shared pointers to it other than those in deleters, the proxies not yet
      deleted, the names given to proxies so far, which proxies were started and stopped (in order),
      whether it was destroyed, and how often start() or stop() ran on it after that. */
  datatype World = World(
    handles: nat,
    proxies: map<nat, Proxy>,
    next: nat,
    started: seq<nat>,
    stopped: seq<nat>,
    destroyed: nat,
    callsAfterDestruction: nat)

  const START: World := World(1, map[], 0, [], [], 0, 0)

  /** The strong count: each deleter holds one shared pointer. */
  function StrongCount(w: World): nat { w.handles + |w.proxies| }

  /** A strong count that reaches zero destroys the implementation. */
  function Settled(w: World): (u: World)
    ensures u == w.(destroyed := u.destroyed)
  {
    if StrongCount(w) == 0 then w.(destroyed := w.destroyed + 1) else w
  }

  /** start() or stop() is running on the implementation. */
  function Called(w: World): (u: World)
    ensures u == w.(callsAfterDestruction := u.callsAfterDestruction)
  {
    if w.destroyed > 0 then w.(callsAfterDestruction := w.callsAfterDestruction + 1) else w
  }

  /** As start() and stop() may themselves make, copy and drop pointers, their calls and their ends
      are separate operations: make_lifetime_ptr is Begin, then Started or Threw; a DropPtr that drops
      the last pointer calls stop(), and StopReturned is the rest of the deleter. */
  datatype Op =
    | CopyHandle
    | DropHandle
    | Begin
    | Started(p: nat)
    | Threw(p: nat)
    | CopyPtr(p: nat)
    | DropPtr(p: nat)
    | StopReturned(p: nat)

  predicate Alive(w: World) { StrongCount(w) > 0 }

  /** start() is running for a proxy. */
  predicate Pending(w: World, p: nat) { p in w.proxies && !w.proxies[p].flag }

  /** Some lifetime pointer to a started implementation has this proxy. */
  predicate Live(w: World, p: nat) { p in w.proxies && w.proxies[p].flag && w.proxies[p].refs > 0 }

  /** stop() is running in the deleter of a proxy. */
  predicate Stopping(w: World, p: nat) { p in w.proxies && w.proxies[p].flag && w.proxies[p].refs == 0 }

  function WithProxy(w: World, p: nat, proxy: Proxy): World { w.(proxies := w.proxies[p := proxy]) }

  /** The flag is deleted; then the deleter is destroyed and lets go of the implementation. */
  function Released(w: World, p: nat): World
    requires p in w.proxies
  {
    Settled(w.(proxies := w.proxies - {p}))
  }

  /** An operation that is not possible is no operation. */
  function Step(w: World, op: Op): World {
    match op
    case CopyHandle => if Alive(w) then w.(handles := w.handles + 1) else w
    case DropHandle => if w.handles > 0 then Settled(w.(handles := w.handles - 1)) else w
    case Begin =>
      if w.handles > 0 then Called(WithProxy(w, w.next, Proxy(false, 1)).(next := w.next + 1)) else w
    case Started(p) =>
      if Pending(w, p) then
        WithProxy(Called(w), p, w.proxies[p].(flag := true)).(started := w.started + [p])
      else w
    case Threw(p) => if Pending(w, p) then Released(Called(w), p) else w
    case CopyPtr(p) =>
      if Live(w, p) then WithProxy(w, p, w.proxies[p].(refs := w.proxies[p].refs + 1)) else w
    case DropPtr(p) =>
      if Live(w, p) then
        var dropped := WithProxy(w, p, w.proxies[p].(refs := w.proxies[p].refs - 1));
        if w.proxies[p].refs > 1 then dropped else Called(dropped).(stopped := w.stopped + [p])
      else w
    case StopReturned(p) => if Stopping(w, p) then Released(Called(w), p) else w
  }

  function Run(ops: seq<Op>): World
    decreases |ops|
  {
    if ops == [] then START else Step(Run(ops[..|ops| - 1]), ops[|ops| - 1])
  }

  // ----- in place -----

  /** What `new bool(false)` makes, with the use count of its control block. */
  class SharedFlag {
    var flag: bool
    var refs: nat

    constructor ()
      ensures !flag && refs == 1
    {
      flag, refs := false, 1;
    }

    function Now(): Proxy
      reads this
    {
      Proxy(flag, refs)
    }
  }

  /** The object of type T with its control block, and the flags whose deleters hold it. */
  class Implementation {
    var handles: nat
    var flags: map<nat, SharedFlag>
    var next: nat
    var started: seq<nat>
    var stopped: seq<nat>
    var destroyed: nat
    var callsAfterDestruction: nat

    /** No two proxies share a flag. */
    ghost predicate Valid()
      reads this
    {
      forall p, q | p in flags && q in flags && flags[p] == flags[q] :: p == q
    }

    function Now(): World
      reads this, flags.Values
    {
      World(handles, map p | p in flags :: flags[p].Now(), next, started, stopped, destroyed,
            callsAfterDestruction)
    }

    constructor ()
      ensures Valid() && Now() == START
    {
      handles, flags, next := 1, map[], 0;
      started, stopped, destroyed, callsAfterDestruction := [], [], 0, 0;
    }

    method Call()
      requires Valid()
      modifies this`callsAfterDestruction
      ensures Valid() && Now() == Called(old(Now()))
    {
      if destroyed > 0 {
        callsAfterDestruction := callsAfterDestruction + 1;
      }
    }

    /** A shared pointer to the implementation is gone. */
    method Settle()
      requires Valid()
      modifies this`destroyed
      ensures Valid() && Now() == Settled(old(Now()))
    {
      assert Now().proxies.Keys == flags.Keys;
      if handles + |flags| == 0 {
        destroyed := destroyed + 1;
      }
    }

    /** Up to and including the call of start(). */
    method BeginMake() returns (p: nat)
      requires Valid() && handles > 0
      modifies this
      ensures Valid() && fresh(flags.Values - old(flags.Values))
      ensures Now() == Step(old(Now()), Op.Begin) && p == old(next)
    {
      p := next;
      var proxy := new SharedFlag();
      flags := flags[p := proxy];
      next := p + 1;
      assert Now().proxies == old(Now().proxies)[p := Proxy(false, 1)];
      Call();
    }

    /** start() returned: the flag is set. */
    method EndMake(p: nat)
      requires Valid() && Pending(Now(), p)
      modifies this, flags[p]
      ensures Valid() && Now() == Step(old(Now()), Op.Started(p))
    {
      Call();
      started := started + [p];
      flags[p].flag := true;
      assert Now().proxies == old(Now().proxies)[p := Proxy(true, flags[p].refs)];
    }

    /** start() threw: unwinding drops the only pointer to the proxy, whose deleter finds its flag
        not set. */
    method AbortMake(p: nat)
      requires Valid() && Pending(Now(), p)
      modifies this
      ensures Valid() && Now() == Step(old(Now()), Op.Threw(p))
    {
      assert p in flags;
      Call();
      Delete(p);
    }

    method CopyHandle()
      requires Valid() && Alive(Now())
      modifies this`handles
      ensures Valid() && Now() == Step(old(Now()), Op.CopyHandle)
    {
      handles := handles + 1;
    }

    method DropHandle()
      requires Valid() && handles > 0
      modifies this
      ensures Valid() && Now() == Step(old(Now()), Op.DropHandle)
    {
      handles := handles - 1;
      Settle();
    }

    method CopyPtr(p: nat)
      requires Valid() && Live(Now(), p)
      modifies flags[p]
      ensures Valid() && Now() == Step(old(Now()), Op.CopyPtr(p))
    {
      flags[p].refs := flags[p].refs + 1;
      assert Now().proxies == old(Now().proxies)[p := flags[p].Now()];
    }

    /** Only the last lifetime pointer runs the deleter, up to and including the call of stop(). */
    method DropPtr(p: nat)
      requires Valid() && Live(Now(), p)
      modifies this, flags[p]
      ensures Valid() && Now() == Step(old(Now()), Op.DropPtr(p))
    {
      flags[p].refs := flags[p].refs - 1;
      assert Now().proxies == old(Now().proxies)[p := flags[p].Now()];
      if flags[p].refs == 0 {
        Call();
        stopped := stopped + [p];
      }
    }

    /** The deleter once stop() returned. */
    method EndStop(p: nat)
      requires Valid() && Stopping(Now(), p)
      modifies this
      ensures Valid() && Now() == Step(old(Now()), Op.StopReturned(p))
    {
      assert p in flags;
      Call();
      Delete(p);
    }

    /** The end of lifetime_deleter::operator(), and the destruction of the deleter after it. */
    method Delete(p: nat)
      requires Valid() && p in flags
      modifies this
      ensures Valid() && Now() == Released(old(Now()), p)
    {
      flags := flags - {p};
      assert Now().proxies == old(Now().proxies) - {p};
      Settle();
    }
  }

  // ----- invariants -----

  function Running(w: World): set<nat> { set p | p in w.proxies && Live(w, p) }

  /** Each proxy starts at most once; what started is either live or stopped, not both, and stopped at
      most once; of the proxies that are left, those stopped whose deleter is running. */
  ghost predicate Ledger(w: World) {
    && NoRepeats<nat>(w.started) && NoRepeats<nat>(w.stopped)
    && Elements<nat>(w.started) == Elements<nat>(w.stopped) + Running(w)
    && (forall p | p in w.proxies :: p in Elements<nat>(w.stopped) <==> Stopping(w, p))
    && (forall p | p in Elements<nat>(w.started) :: p < w.next)
  }

  /** The implementation is there while anything refers to it, and was never called afterwards; while
      start() runs there is one pointer to the proxy. */
  ghost predicate Counts(w: World) {
    && (forall p | p in w.proxies :: p < w.next && (w.proxies[p].flag || w.proxies[p].refs == 1))
    && w.destroyed == (if Alive(w) then 0 else 1)
    && w.callsAfterDestruction == 0
  }

  ghost predicate Inv(w: World) { Ledger(w) && Counts(w) }

  lemma {:induction false} SomeProxy(w: World, p: nat)
    requires p in w.proxies
    ensures |w.proxies| > 0 && Alive(w)
  {
    assert |w.proxies.Keys| == |w.proxies|;
  }

  /** A call on an implementation that is alive leaves no mark. */
  lemma {:induction false} CalledAlive(w: World, p: nat)
    requires Counts(w) && p in w.proxies
    ensures Called(w) == w
  {
    SomeProxy(w, p);
  }

  lemma {:induction false} ReleasedKeeps(w: World, p: nat)
    requires Inv(w) && p in w.proxies && !Live(w, p)
    ensures Inv(Released(w, p))
  {
    var u := Released(w, p);
    SomeProxy(w, p);
    assert u.proxies.Keys == w.proxies.Keys - {p};
    assert Running(u) == Running(w);
  }

  /** Replacing the record of one proxy leaves the strong count alone. */
  lemma {:induction false} WithProxyKeepsCounts(w: World, p: nat, proxy: Proxy)
    requires Counts(w) && p in w.proxies && proxy.flag
    ensures Counts(WithProxy(w, p, proxy))
  {
    var u := WithProxy(w, p, proxy);
    assert u.proxies.Keys == w.proxies.Keys;
    assert |u.proxies.Keys| == |u.proxies| && |w.proxies.Keys| == |w.proxies|;
  }

  lemma {:induction false} BeginKeeps(w: World)
    requires Inv(w)
    ensures Inv(Step(w, Begin))
  {
    if w.handles > 0 {
      var u := Step(w, Begin);
      assert u.proxies == w.proxies[w.next := Proxy(false, 1)];
      assert u.proxies.Keys == w.proxies.Keys + {w.next};
      assert Running(u) == Running(w);
      assert w.next !in Elements<nat>(w.stopped) by { assert Elements<nat>(w.stopped) <= Elements<nat>(w.started); }
    }
  }

  lemma {:induction false} HandlesKeep(w: World, op: Op)
    requires Inv(w) && (op.CopyHandle? || op.DropHandle?)
    ensures Inv(Step(w, op))
  {
    assert Running(Step(w, op)) == Running(w);
  }

  lemma {:induction false} StartedKeeps(w: World, p: nat)
    requires Inv(w)
    ensures Inv(Step(w, Op.Started(p)))
  {
    if Pending(w, p) {
      var u := Step(w, Op.Started(p));
      CalledAlive(w, p);
      WithProxyKeepsCounts(w, p, w.proxies[p].(flag := true));
      NoRepeatsSnoc<nat>(w.started, p);
      assert Running(u) == Running(w) + {p};
    }
  }

  lemma {:induction false} ThrewKeeps(w: World, p: nat)
    requires Inv(w)
    ensures Inv(Step(w, Op.Threw(p)))
  {
    if Pending(w, p) {
      CalledAlive(w, p);
      ReleasedKeeps(w, p);
    }
  }

  /** Counting lifetime pointers, as long as one is left, changes nothing else. */
  lemma {:induction false} RefsKeep(w: World, p: nat, refs: nat)
    requires Inv(w) && Live(w, p) && refs > 0
    ensures Inv(WithProxy(w, p, Proxy(true, refs)))
  {
    WithProxyKeepsCounts(w, p, Proxy(true, refs));
    assert Running(WithProxy(w, p, Proxy(true, refs))) == Running(w);
  }

  lemma {:induction false} CopyPtrKeeps(w: World, p: nat)
    requires Inv(w)
    ensures Inv(Step(w, Op.CopyPtr(p)))
  {
    if Live(w, p) { RefsKeep(w, p, w.proxies[p].refs + 1); }
  }

  lemma {:induction false} LastDropKeeps(w: World, p: nat)
    requires Inv(w) && Live(w, p) && w.proxies[p].refs == 1
    ensures Inv(Step(w, Op.DropPtr(p)))
  {
    var dropped := WithProxy(w, p, Proxy(true, 0));
    WithProxyKeepsCounts(w, p, Proxy(true, 0));
    CalledAlive(dropped, p);
    NoRepeatsSnoc<nat>(w.stopped, p);
    assert p in Running(w) && Running(Step(w, Op.DropPtr(p))) == Running(w) - {p};
  }

  lemma {:induction false} DropPtrKeeps(w: World, p: nat)
    requires Inv(w)
    ensures Inv(Step(w, Op.DropPtr(p)))
  {
    if Live(w, p) {
      if w.proxies[p].refs > 1 { RefsKeep(w, p, w.proxies[p].refs - 1); } else { LastDropKeeps(w, p); }
    }
  }

  lemma {:induction false} StopReturnedKeeps(w: World, p: nat)
    requires Inv(w)
    ensures Inv(Step(w, Op.StopReturned(p)))
  {
    if Stopping(w, p) {
      CalledAlive(w, p);
      ReleasedKeeps(w, p);
    }
  }

  lemma {:induction false} StepKeeps(w: World, op: Op)
    requires Inv(w)
    ensures Inv(Step(w, op))
  {
    match op
    case CopyHandle => HandlesKeep(w, op);
    case DropHandle => HandlesKeep(w, op);
    case Begin => BeginKeeps(w);
    case Started(p) => StartedKeeps(w, p);
    case Threw(p) => ThrewKeeps(w, p);
    case CopyPtr(p) => CopyPtrKeeps(w, p);
    case DropPtr(p) => DropPtrKeeps(w, p);
    case StopReturned(p) => StopReturnedKeeps(w, p);
  }

  lemma {:induction false} EveryRunKeeps(ops: seq<Op>)
    ensures Inv(Run(ops))
    decreases |ops|
  {
    if ops == [] {
      assert Running(START) == {};
    } else {
      EveryRunKeeps(ops[..|ops| - 1]);
      StepKeeps(Run(ops[..|ops| - 1]), ops[|ops| - 1]);
    }
  }

  /** In every run, completed starts minus stops is the number of live proxies whose flag is set; no
      start() or stop() is called or still running on a destroyed implementation, which is destroyed
      at most once. */
  lemma {:induction false} StartsBalanceStops(ops: seq<Op>)
    ensures var w := Run(ops);
            && |w.started| - |w.stopped| == |Running(w)|
            && w.callsAfterDestruction == 0 && w.destroyed <= 1
            && (w.destroyed == 1 <==> w.handles == 0 && w.proxies == map[])
  {
    var w := Run(ops);
    EveryRunKeeps(ops);
    CountElements<nat>(w.started);
    CountElements<nat>(w.stopped);
    assert Elements<nat>(w.stopped) !! Running(w);
  }

  /** stop() is called exactly once for a proxy that was started and whose last pointer is gone, and
      otherwise never; one whose start() threw is never stopped. */
  lemma {:induction false} StoppedIff(ops: seq<Op>, p: nat)
    ensures var w := Run(ops);
            multiset(w.stopped)[p] == if p in w.started && !Live(w, p) then 1 else 0
  {
    var w := Run(ops);
    EveryRunKeeps(ops);
    assert p in w.started <==> p in Elements<nat>(w.stopped) || p in Running(w);
    CountOnce(w.stopped, p);
  }

  // ----- accounts of a run -----

  /** Whether an operation has an effect. */
  predicate Possible(w: World, op: Op) {
    match op
    case CopyHandle => Alive(w)
    case DropHandle => w.handles > 0
    case Begin => w.handles > 0
    case Started(p) => Pending(w, p)
    case Threw(p) => Pending(w, p)
    case CopyPtr(p) => Live(w, p)
    case DropPtr(p) => Live(w, p)
    case StopReturned(p) => Stopping(w, p)
  }

  /** How often an operation of the run had an effect. */
  function Times(ops: seq<Op>, op: Op): nat
    decreases |ops|
  {
    if ops == [] then 0
    else
      var before, last := ops[..|ops| - 1], ops[|ops| - 1];
      Times(before, op) + if last == op && Possible(Run(before), op) then 1 else 0
  }

  /** What the run did to one proxy: nothing before it was made; nothing but start() until that
      returned or threw; from then on its pointers are the first one and the copies, less those
      dropped; and stop() is called when that makes none. */
  ghost predicate ProxyAccounts(ops: seq<Op>, p: nat) {
    var w := Run(ops);
    var started, threw, returned := Times(ops, Started(p)), Times(ops, Threw(p)), Times(ops, StopReturned(p));
    var copies, drops := Times(ops, CopyPtr(p)), Times(ops, DropPtr(p));
    && started + threw <= (if p < w.next then 1 else 0)
    && (started == 0 ==> copies == drops == 0) && drops <= started + copies
    && returned <= (if started == 1 && drops == 1 + copies then 1 else 0)
    && (p in w.started <==> started == 1)
    && (p in w.stopped <==> started == 1 && drops == 1 + copies)
    && (p in w.proxies <==> p < w.next && threw == 0 && returned == 0)
    && (p in w.proxies ==> w.proxies[p] == Proxy(started == 1, 1 + copies - drops))
  }

  ghost predicate Accounts(ops: seq<Op>) {
    var w := Run(ops);
    && w.handles + Times(ops, DropHandle) == 1 + Times(ops, CopyHandle)
    && w.next == Times(ops, Begin)
    && forall p :: ProxyAccounts(ops, p)
  }

  /** In every run the pointers that are left are those made and copied less those dropped, for the
      implementation and for each proxy; a proxy is there from its making until start() threw or
      stop() returned; and stop() was called exactly for those that were started and of which as many
      pointers were dropped as there ever were. */
  lemma {:induction false} EveryRunBalances(ops: seq<Op>)
    ensures Accounts(ops)
    decreases |ops|
  {
    if ops == [] {
      forall p: nat ensures ProxyAccounts(ops, p) {}
    } else {
      var before := ops[..|ops| - 1];
      EveryRunBalances(before);
      HandlesBalance(ops);
      forall p: nat ensures ProxyAccounts(ops, p) {
        assert ProxyAccounts(before, p);
        ProxyBalances(ops, p);
      }
    }
  }

  lemma {:induction false} HandlesBalance(ops: seq<Op>)
    requires ops != [] && Accounts(ops[..|ops| - 1])
    ensures Run(ops).handles + Times(ops, DropHandle) == 1 + Times(ops, CopyHandle)
    ensures Run(ops).next == Times(ops, Begin)
  {}

  predicate Concerns(op: Op, p: nat) { !op.CopyHandle? && !op.DropHandle? && !op.Begin? && op.p == p }

  lemma {:induction false} ProxyBalances(ops: seq<Op>, p: nat)
    requires ops != [] && ProxyAccounts(ops[..|ops| - 1], p)
    ensures ProxyAccounts(ops, p)
  {
    if Concerns(ops[|ops| - 1], p) {
      OwnProxyBalances(ops, p);
    } else {
      OtherProxyBalances(ops, p);
    }
  }

  lemma {:induction false} OwnProxyBalances(ops: seq<Op>, p: nat)
    requires ops != [] && Concerns(ops[|ops| - 1], p) && ProxyAccounts(ops[..|ops| - 1], p)
    ensures ProxyAccounts(ops, p)
  {}

  lemma {:induction false} OtherProxyBalances(ops: seq<Op>, p: nat)
    requires ops != [] && !Concerns(ops[|ops| - 1], p) && ProxyAccounts(ops[..|ops| - 1], p)
    ensures ProxyAccounts(ops, p)
  {
    var before, op := ops[..|ops| - 1], ops[|ops| - 1];
    StepAside(Run(before), op, p);
    HistoryAside(Run(before), Run(ops), op, p);
    forall o | Concerns(o, p) ensures Times(ops, o) == Times(before, o) {}
  }

  /** A step that does not concern a proxy leaves it as it is, or makes it. */
  lemma {:induction false} StepAside(w: World, op: Op, p: nat)
    requires !Concerns(op, p)
    ensures var u, begins := Step(w, op), op.Begin? && w.handles > 0;
            && u.next == (if begins then w.next + 1 else w.next)
            && if begins && p == w.next then p in u.proxies && u.proxies[p] == Proxy(false, 1)
               else (p in u.proxies <==> p in w.proxies) && (p in w.proxies ==> u.proxies[p] == w.proxies[p])
  {}

  lemma {:induction false} HistoryGrows(w: World, op: Op)
    ensures var u := Step(w, op);
            && (u.started == w.started || (op.Started? && u.started == w.started + [op.p]))
            && (u.stopped == w.stopped || (op.DropPtr? && u.stopped == w.stopped + [op.p]))
  {}

  lemma {:induction false} HistoryAside(w: World, u: World, op: Op, p: nat)
    requires !Concerns(op, p) && u == Step(w, op)
    ensures (p in u.started <==> p in w.started) && (p in u.stopped <==> p in w.stopped)
  {
    HistoryGrows(w, op);
    if u.started != w.started { assert op.p != p; }
    if u.stopped != w.stopped { assert op.p != p; }
  }

  /** start() or stop() is called or ends. */
  predicate Calls(w: World, op: Op) {
    Possible(w, op) &&
    match op
    case CopyHandle | DropHandle | CopyPtr(_) => false
    case DropPtr(p) => w.proxies[p].refs == 1
    case _ => true
  }

  /** In any world, reachable or not, such a call on a destroyed implementation is counted. */
  lemma {:induction false} CallsAreCounted(w: World, op: Op)
    ensures Step(w, op).callsAfterDestruction
         == w.callsAfterDestruction + if Calls(w, op) && w.destroyed > 0 then 1 else 0
  {}

  /** Whenever start() or stop() is called or ends, the implementation is there, and the call leaves it
      there. */
  lemma {:induction false} AliveAtEveryCall(ops: seq<Op>, op: Op)
    requires Possible(Run(ops), op) && !op.CopyHandle? && !op.DropHandle? && !op.CopyPtr?
    ensures Run(ops).destroyed == 0
    ensures op.Begin? || op.Started? || op.DropPtr? ==> Step(Run(ops), op).destroyed == 0
  {
    EveryRunKeeps(ops);
    if !op.Begin? { SomeProxy(Run(ops), op.p); }
  }

  lemma {:induction false} CountOnce(s: seq<nat>, p: nat)
    requires NoRepeats<nat>(s)
    ensures multiset(s)[p] == if p in Elements<nat>(s) then 1 else 0
  {
    if p in s {
      var i :| 0 <= i < |s| && s[i] == p;
      OccursOnce<nat>(s, i);
    }
  }
}
