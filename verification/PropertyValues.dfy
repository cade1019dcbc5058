/** property_value: a value of any type, kept inline when it is small and behind a unique_ptr when
    it is not, and moved but never copied. */
module PropertyValues {
  import opened Wrappers

  /** std::infoinfo with the size that decides where a value is kept. */
  datatype TypeInfo = TypeInfo(name: string, size: nat)

  datatype Content = Content(info: TypeInfo, data: int)

  /** sizeof(std::string), the size of the inline storage. */
  const SBO_SIZE: nat := 32

  predicate Small(t: TypeInfo) { t.size <= SBO_SIZE }

  /** Which jump table is installed. */
  datatype JumpTable = Void | Short(t: TypeInfo) | Long(t: TypeInfo)

  /** The bytes of the inline storage: nothing yet, an object, an object that was moved from, or a
      unique_ptr. */
  datatype Storage = Raw | Inline(data: int) | MovedFrom | Owner(p: Option<nat>)

  datatype Slot = Slot(jt: JumpTable, sbo: Storage)

  const EMPTY: Slot := Slot(Void, Raw)

  /** Heap objects and, in order, the addresses released so far. */
  datatype Store = Store(live: map<nat, Content>, next: nat, released: seq<nat>)

  /** jt_->destroy: only a unique_ptr that owns something releases it. */
  function Destroyed(slot: Slot, store: Store): Store {
    match slot.jt
    case Long(_) =>
      (match slot.sbo
       case Owner(Some(a)) => store.(live := store.live - {a}, released := store.released + [a])
       case _ => store)
    case _ => store
  }

  /** jt_->move_construct: what the destination holds and what is left in the source. */
  function Moved(jt: JumpTable, dest: Storage, source: Storage): (Storage, Storage) {
    match jt
    case Void => (dest, source)
    case Short(_) => (source, MovedFrom)
    case Long(_) => (source, Owner(None))
  }

  /** The value a slot holds, wherever it is kept; None for void. */
  function ValueOf(slot: Slot, store: Store): Option<Content> {
    match slot
    case Slot(Short(t), Inline(d)) => Some(Content(t, d))
    case Slot(Long(t), Owner(Some(a))) => if a in store.live then Some(store.live[a]) else None
    case _ => None
  }

  class FreeStore {
    var now: Store

    constructor ()
      ensures now == Store(map[], 0, [])
    {
      now := Store(map[], 0, []);
    }
  }

  class PropertyValue {
    var jt: JumpTable
    var sbo: Storage

    function Now(): Slot
      reads this
    {
      Slot(jt, sbo)
    }

    constructor ()
      ensures Now() == EMPTY
    {
      jt, sbo := Void, Raw;
    }

    constructor Construct(x: Content, store: FreeStore)
      modifies store
      ensures (Now(), store.now) == Constructed(x, old(store.now))
    {
      jt, sbo := Void, Raw;
      new;
      if Small(x.info) {
        sbo := Inline(x.data);
        jt := Short(x.info);
      } else {
        var s := store.now;
        store.now := s.(live := s.live[s.next := x], next := s.next + 1);
        sbo := Owner(Some(s.next));
        jt := Long(x.info);
      }
    }

    constructor MoveConstruct(other: PropertyValue)
      modifies other
      ensures (Now(), other.Now()) == MoveConstructed(old(other.Now()))
    {
      jt, sbo := Void, Raw;
      new;
      var (mine, left) := Moved(other.jt, sbo, other.sbo);
      sbo, other.sbo := mine, left;
      jt := other.jt;
      other.jt := Void;
    }

    /** The receiver and `other` may be the same object. */
    method MoveAssign(other: PropertyValue, store: FreeStore)
      modifies this, other, store
      ensures this != other ==>
                (Now(), other.Now(), store.now) == MoveAssigned(old(Now()), old(other.Now()), old(store.now))
      ensures this == other ==> Now() == old(Now()) && store.now == old(store.now)
    {
      var tmp := new PropertyValue.MoveConstruct(other);
      store.now := Destroyed(Now(), store.now);
      jt := Void;
      var (mine, left) := Moved(tmp.jt, sbo, tmp.sbo);
      sbo, tmp.sbo := mine, left;
      jt := tmp.jt;
      tmp.jt := Void;
      store.now := Destroyed(tmp.Now(), store.now);
    }

    method Destroy(store: FreeStore)
      modifies store
      ensures store.now == Destroyed(Now(), old(store.now))
    {
      store.now := Destroyed(Now(), store.now);
    }

    /** operator==: the types are the same and the values compare equal, wherever they are kept. */
    method Equals(r: PropertyValue, store: FreeStore) returns (b: bool)
      requires Sound(Now(), store.now) && Sound(r.Now(), store.now)
      ensures b <==> ValueOf(Now(), store.now) == ValueOf(r.Now(), store.now)
    {
      match jt
      case Void => b := r.jt.Void?;
      case Short(t) => b := !r.jt.Void? && r.jt.t == t && ValueOf(r.Now(), store.now).value.data == sbo.data;
      case Long(t) => b := !r.jt.Void? && r.jt.t == t
                        && ValueOf(r.Now(), store.now).value.data == store.now.live[sbo.p.value].data;
    }
  }

  function Constructed(x: Content, store: Store): (Slot, Store) {
    if Small(x.info) then (Slot(Short(x.info), Inline(x.data)), store)
    else (Slot(Long(x.info), Owner(Some(store.next))),
          store.(live := store.live[store.next := x], next := store.next + 1))
  }

  function MoveConstructed(source: Slot): (Slot, Slot) {
    var (mine, left) := Moved(source.jt, Raw, source.sbo);
    (Slot(source.jt, mine), Slot(Void, left))
  }

  /** Between different objects: the destination's contents are destroyed, the source's go over. */
  function MoveAssigned(dest: Slot, source: Slot, store: Store): (Slot, Slot, Store) {
    var (tmp, left) := MoveConstructed(source);
    (Slot(source.jt, Moved(source.jt, dest.sbo, tmp.sbo).0), left, Destroyed(dest, store))
  }

  /** What a jump table says about the storage is true. */
  ghost predicate Sound(slot: Slot, store: Store) {
    match slot.jt
    case Void => true
    case Short(t) => Small(t) && slot.sbo.Inline?
    case Long(t) => !Small(t) && slot.sbo.Owner? && slot.sbo.p.Some?
                    && slot.sbo.p.value in store.live && store.live[slot.sbo.p.value].info == t
  }
}
