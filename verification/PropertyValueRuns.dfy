/** Ownership of heap-stored values over any run of constructions, moves and destructions. */
module PropertyValueRuns {
  import opened PropertyValues
  import opened Wrappers
  import opened Collections

  /** All property values alive, by name, and the free store. */
  datatype World = World(slots: map<nat, Slot>, store: Store)

  const START: World := World(map[], Store(map[], 0, []))

  /** An operation on names that do not fit (an object created twice, or used when it does not
      exist) is no operation. */
  datatype Op =
    | CreateVoid(id: nat)
    | Create(id: nat, x: Content)
    | MoveCreate(id: nat, from: nat)
    | Assign(id: nat, from: nat)
    | Destroy(id: nat)

  function Step(w: World, op: Op): World {
    match op
    case CreateVoid(id) => if id in w.slots then w else w.(slots := w.slots[id := EMPTY])
    case Create(id, x) =>
      if id in w.slots then w
      else var (slot, store) := Constructed(x, w.store); World(w.slots[id := slot], store)
    case MoveCreate(id, from) =>
      if id in w.slots || from !in w.slots then w
      else var (mine, left) := MoveConstructed(w.slots[from]); w.(slots := w.slots[id := mine][from := left])
    case Assign(id, from) =>
      if id !in w.slots || from !in w.slots || id == from then w
      else
        var (mine, left, store) := MoveAssigned(w.slots[id], w.slots[from], w.store);
        World(w.slots[id := mine][from := left], store)
    case Destroy(id) =>
      if id !in w.slots then w else World(w.slots - {id}, Destroyed(w.slots[id], w.store))
  }

  function Run(w: World, ops: seq<Op>): World
    decreases |ops|
  {
    if ops == [] then w else Run(Step(w, ops[0]), ops[1..])
  }

  function AddressOf(slot: Slot): Option<nat> {
    match slot
    case Slot(Long(_), Owner(p)) => p
    case _ => None
  }

  ghost predicate OwnedBy(w: World, a: nat, id: nat) {
    id in w.slots && AddressOf(w.slots[id]) == Some(a)
  }

  /** Every jump table is right about its storage, and every object on the heap has one owner. */
  ghost predicate OneOwner(w: World) {
    && (forall id | id in w.slots :: Sound(w.slots[id], w.store))
    && (forall a | a in w.store.live :: exists id :: OwnedBy(w, a, id))
    && (forall a, i, j :: OwnedBy(w, a, i) && OwnedBy(w, a, j) ==> i == j)
  }

  /** Every address handed out is either live or was released, and released once. */
  ghost predicate ReleasedOnce(s: Store) {
    && (forall a | a in s.live :: a < s.next && a !in s.released)
    && (forall a :: 0 <= a < s.next && a !in s.live ==> a in s.released)
    && (forall i :: 0 <= i < |s.released| ==> s.released[i] < s.next)
    && NoRepeats(s.released)
  }

  ghost predicate Good(w: World) { OneOwner(w) && ReleasedOnce(w.store) }

  // ----- each operation -----

  lemma {:induction false} CreateKeeps(w: World, id: nat, x: Content)
    requires Good(w) && id !in w.slots
    ensures Good(Step(w, Create(id, x)))
  {
    var w' := Step(w, Create(id, x));
    forall a | a in w'.store.live ensures exists i :: OwnedBy(w', a, i) {
      if a in w.store.live {
        var i :| OwnedBy(w, a, i);
        assert OwnedBy(w', a, i);
      } else {
        assert OwnedBy(w', a, id);
      }
    }
    forall a, i, j | OwnedBy(w', a, i) && OwnedBy(w', a, j) ensures i == j {
      assert i != id ==> OwnedBy(w, a, i) && a in w.store.live;
      assert j != id ==> OwnedBy(w, a, j) && a in w.store.live;
    }
  }

  /** Handing a slot's contents to an empty place and leaving it void changes no ownership. */
  lemma {:induction false} HandOverKeeps(w: World, id: nat, from: nat, mine: Slot, left: Slot)
    requires Good(w) && from in w.slots && id != from
    requires id in w.slots ==> AddressOf(w.slots[id]).None?
    requires Sound(mine, w.store) && AddressOf(mine) == AddressOf(w.slots[from]) && left.jt.Void?
    ensures Good(w.(slots := w.slots[id := mine][from := left]))
  {
    var w' := w.(slots := w.slots[id := mine][from := left]);
    forall a | a in w'.store.live ensures exists i :: OwnedBy(w', a, i) {
      var i :| OwnedBy(w, a, i);
      assert OwnedBy(w', a, if i == from then id else i);
    }
    forall a, i, j | OwnedBy(w', a, i) && OwnedBy(w', a, j) ensures i == j {
      assert OwnedBy(w, a, if i == id then from else i);
      assert OwnedBy(w, a, if j == id then from else j);
    }
  }

  /** Destroying the contents of one slot releases exactly what it owns. */
  lemma {:induction false} DestroyKeeps(w: World, id: nat)
    requires Good(w) && id in w.slots
    ensures Good(World(w.slots - {id}, Destroyed(w.slots[id], w.store)))
    ensures forall i | i in w.slots && i != id ::
              && Sound(w.slots[i], Destroyed(w.slots[id], w.store))
              && ValueOf(w.slots[i], Destroyed(w.slots[id], w.store)) == ValueOf(w.slots[i], w.store)
  {
    var store := Destroyed(w.slots[id], w.store);
    var w' := World(w.slots - {id}, store);
    forall i | i in w.slots && i != id
      ensures Sound(w.slots[i], store) && ValueOf(w.slots[i], store) == ValueOf(w.slots[i], w.store)
    {
      if AddressOf(w.slots[i]).Some? && AddressOf(w.slots[id]) == AddressOf(w.slots[i]) {
        assert OwnedBy(w, AddressOf(w.slots[i]).value, i) && OwnedBy(w, AddressOf(w.slots[i]).value, id);
      }
    }
    forall a | a in w'.store.live ensures exists i :: OwnedBy(w', a, i) {
      var i :| OwnedBy(w, a, i);
      assert i == id ==> AddressOf(w.slots[id]) == Some(a);
      assert OwnedBy(w', a, i);
    }
    forall a, i, j | OwnedBy(w', a, i) && OwnedBy(w', a, j) ensures i == j {
      assert OwnedBy(w, a, i) && OwnedBy(w, a, j);
    }
    DestroyedReleasesOnce(w.slots[id], w.store);
  }

  lemma {:induction false} DestroyedReleasesOnce(slot: Slot, store: Store)
    requires ReleasedOnce(store) && Sound(slot, store)
    ensures ReleasedOnce(Destroyed(slot, store))
  {}

  lemma {:induction false} MoveCreateKeeps(w: World, id: nat, from: nat)
    requires Good(w) && id !in w.slots && from in w.slots
    ensures Good(Step(w, MoveCreate(id, from)))
  {
    var (mine, left) := MoveConstructed(w.slots[from]);
    HandOverKeeps(w, id, from, mine, left);
  }

  lemma {:induction false} AssignKeeps(w: World, id: nat, from: nat)
    requires Good(w) && id in w.slots && from in w.slots && id != from
    ensures Good(Step(w, Assign(id, from)))
  {
    DestroyKeeps(w, id);
    var (mine, left, store) := MoveAssigned(w.slots[id], w.slots[from], w.store);
    var w0 := World(w.slots - {id}, store);
    HandOverKeeps(w0, id, from, mine, left);
    assert w0.slots[id := mine][from := left] == w.slots[id := mine][from := left];
  }

  /** Every operation keeps one owner for each live object and releases each object at most once. */
  lemma {:induction false} StepKeeps(w: World, op: Op)
    requires Good(w)
    ensures Good(Step(w, op))
  {
    match op
    case CreateVoid(id) =>
      if id !in w.slots { VoidKeeps(w, id); }
    case Create(id, x) =>
      if id !in w.slots { CreateKeeps(w, id, x); }
    case MoveCreate(id, from) =>
      if id !in w.slots && from in w.slots { MoveCreateKeeps(w, id, from); }
    case Assign(id, from) =>
      if id in w.slots && from in w.slots && id != from { AssignKeeps(w, id, from); }
    case Destroy(id) =>
      if id in w.slots { DestroyKeeps(w, id); }
  }

  lemma {:induction false} VoidKeeps(w: World, id: nat)
    requires Good(w) && id !in w.slots
    ensures Good(Step(w, CreateVoid(id)))
  {
    var w' := Step(w, CreateVoid(id));
    forall a | a in w'.store.live ensures exists i :: OwnedBy(w', a, i) {
      var i :| OwnedBy(w, a, i);
      assert OwnedBy(w', a, i);
    }
    forall a, i, j | OwnedBy(w', a, i) && OwnedBy(w', a, j) ensures i == j {
      assert OwnedBy(w, a, i) && OwnedBy(w, a, j);
    }
  }

  // ----- every run -----

  lemma {:induction false} RunKeeps(w: World, ops: seq<Op>)
    requires Good(w)
    ensures Good(Run(w, ops))
    decreases |ops|
  {
    if ops == [] {
    } else {
      StepKeeps(w, ops[0]);
      RunKeeps(Step(w, ops[0]), ops[1..]);
    }
  }

  /** In every run each heap-stored object has exactly one owner until it is released, and is
      released once; when no property value is left, every address handed out has been released. */
  lemma {:induction false} EveryRunOwnsAndReleasesOnce(ops: seq<Op>)
    ensures var w := Run(START, ops);
            && Good(w)
            && (w.slots == map[] ==> w.store.live == map[] && |w.store.released| == w.store.next)
  {
    RunKeeps(START, ops);
    var w := Run(START, ops);
    if w.slots == map[] {
      assert forall a :: a !in w.store.live;
      AllReleased(w.store);
    }
  }

  lemma {:induction false} AllReleased(s: Store)
    requires ReleasedOnce(s) && s.live == map[]
    ensures |s.released| == s.next
  {
    assert forall a :: 0 <= a < s.next ==> a !in s.live;
    assert Below(s.next) == Elements(s.released);
    CountElements(s.released);
  }

  /** A new property value holds what it was made from, inline or on the heap, and no other changes. */
  lemma {:induction false} CreateHolds(w: World, id: nat, x: Content)
    requires Good(w) && id !in w.slots
    ensures var w' := Step(w, Create(id, x));
            && id in w'.slots && ValueOf(w'.slots[id], w'.store) == Some(x)
            && (AddressOf(w'.slots[id]).Some? <==> x.info.size > SBO_SIZE)
            && (forall i | i in w.slots ::
                  i in w'.slots && ValueOf(w'.slots[i], w'.store) == ValueOf(w.slots[i], w.store))
  {
    CreateKeeps(w, id, x);
    forall i | i in w.slots
      ensures ValueOf(Step(w, Create(id, x)).slots[i], Step(w, Create(id, x)).store) == ValueOf(w.slots[i], w.store)
    {
      assert Sound(w.slots[i], w.store);
    }
  }

  /** What a move leaves in the storage: a unique_ptr that owns nothing, or a moved-from object. */
  predicate LeftBehind(was: Slot, now: Slot) {
    match was.jt
    case Void => now == was
    case Short(_) => now.sbo == MovedFrom
    case Long(_) => now.sbo == Owner(None)
  }

  /** A move carries type and value over, leaves the source void, and touches nobody else. */
  lemma {:induction false} AssignCarries(w: World, id: nat, from: nat)
    requires Good(w) && id in w.slots && from in w.slots
    ensures var w' := Step(w, Assign(id, from));
            && id in w'.slots && from in w'.slots
            && ValueOf(w'.slots[id], w'.store) == ValueOf(w.slots[from], w.store)
            && (id != from ==> w'.slots[from].jt == Void && LeftBehind(w.slots[from], w'.slots[from]))
            && (forall i | i in w.slots && i != id && i != from ::
                  i in w'.slots && w'.slots[i] == w.slots[i]
                  && ValueOf(w'.slots[i], w'.store) == ValueOf(w.slots[i], w.store))
  {
    if id != from { DestroyKeeps(w, id); }
  }

  function ToRelease(slot: Slot): seq<nat> {
    match AddressOf(slot)
    case Some(a) => [a]
    case None => []
  }

  /** Destroying a property value releases what it owns on the heap and nothing else; no other changes. */
  lemma {:induction false} DestroyReleases(w: World, id: nat)
    requires Good(w) && id in w.slots
    ensures var w' := Step(w, Destroy(id));
            && w'.slots.Keys == w.slots.Keys - {id}
            && w'.store.released == w.store.released + ToRelease(w.slots[id])
            && w'.store.live.Keys == w.store.live.Keys - Elements(ToRelease(w.slots[id]))
            && (forall i | i in w'.slots ::
                  w'.slots[i] == w.slots[i] && ValueOf(w'.slots[i], w'.store) == ValueOf(w.slots[i], w.store))
  {
    DestroyKeeps(w, id);
  }

  /** A move assignment between different objects releases what the destination owned, and nothing
      else; a self-assignment changes nothing at all. */
  lemma {:induction false} AssignReleases(w: World, id: nat, from: nat)
    requires Good(w) && id in w.slots && from in w.slots
    ensures var w' := Step(w, Assign(id, from));
            if id == from then w' == w
            else w'.store.released == w.store.released + ToRelease(w.slots[id])
                 && w'.store.live.Keys == w.store.live.Keys - Elements(ToRelease(w.slots[id]))
  {}

  /** A default-constructed property value holds nothing, and no other changes. */
  lemma {:induction false} CreateVoidHolds(w: World, id: nat)
    requires id !in w.slots
    ensures var w' := Step(w, CreateVoid(id));
            && w'.store == w.store && w'.slots.Keys == w.slots.Keys + {id}
            && w'.slots[id].jt == Void && ValueOf(w'.slots[id], w'.store) == None
            && (forall i | i in w.slots :: w'.slots[i] == w.slots[i])
  {}

  lemma {:induction false} MoveCreateCarries(w: World, id: nat, from: nat)
    requires Good(w) && id !in w.slots && from in w.slots
    ensures var w' := Step(w, MoveCreate(id, from));
            && w'.store == w.store
            && ValueOf(w'.slots[id], w'.store) == ValueOf(w.slots[from], w.store)
            && w'.slots[from].jt == Void && LeftBehind(w.slots[from], w'.slots[from])
            && (forall i | i in w.slots && i != from :: w'.slots[i] == w.slots[i])
  {
    assert Sound(w.slots[from], w.store);
  }
}
