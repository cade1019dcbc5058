/** property_map: layers on a shared heap, each with an optional parent; a mutable map writes to its
    own layer, and fixing hands that layer to an immutable map. */
module PropertyMaps {
  import opened Wrappers

  /** property_map_layer; layers are named by the order of their creation. */
  datatype Layer<V> = Layer(parent: Option<nat>, entries: map<string, V>)

  type Heap<V> = seq<Layer<V>>

  /** A parent exists before its child does. */
  ghost predicate Ordered<V>(heap: Heap<V>) {
    forall l :: 0 <= l < |heap| && heap[l].parent.Some? ==> heap[l].parent.value < l
  }

  /** property_map_layer::query. */
  function Query<V>(heap: Heap<V>, l: nat, key: string): Option<V>
    requires Ordered(heap) && l < |heap|
    decreases l
  {
    if key in heap[l].entries then Some(heap[l].entries[key])
    else match heap[l].parent
      case Some(p) => Query(heap, p, key)
      case None => None
  }

  /** The layers that a query of l can visit. */
  function Chain<V>(heap: Heap<V>, l: nat): (c: set<nat>)
    requires Ordered(heap) && l < |heap|
    ensures forall m | m in c :: m <= l
    decreases l
  {
    match heap[l].parent
    case Some(p) => {l} + Chain(heap, p)
    case None => {l}
  }

  /** The chain flattened: nearer layers win. */
  function Flatten<V>(heap: Heap<V>, l: nat): map<string, V>
    requires Ordered(heap) && l < |heap|
    decreases l
  {
    match heap[l].parent
    case Some(p) => Flatten(heap, p) + heap[l].entries
    case None => heap[l].entries
  }

  /** property_map_layer::set. */
  function SetIn<V>(heap: Heap<V>, l: nat, key: string, v: V): Heap<V>
    requires l < |heap|
  {
    heap[l := heap[l].(entries := heap[l].entries[key := v])]
  }

  /** All layers, the layer of each property_map made so far (None for a default one), and the
      layer of each mutable_property_map (None once it was moved from). */
  datatype World<V> = World(heap: Heap<V>, fixed: seq<Option<nat>>, muts: seq<Option<nat>>)

  /** Operations name maps by their place in the order of creation. Copy copies a mutable map, which
      shares its layer. An operation on a map that is not there is no operation. */
  datatype Op<V> =
    | NewMutable
    | DefaultMap
    | Mutate(source: nat)
    | Set(target: nat, key: string, v: V)
    | Fix(target: nat)
    | Copy(target: nat)

  predicate Writable<V>(w: World<V>, j: nat) { j < |w.muts| && w.muts[j].Some? && w.muts[j].value < |w.heap| }

  function Step<V>(w: World<V>, op: Op<V>): World<V> {
    match op
    case NewMutable => WithMutable(w, None)
    case DefaultMap => w.(fixed := w.fixed + [None])
    case Mutate(i) => if i < |w.fixed| then WithMutable(w, w.fixed[i]) else w
    case Set(j, key, v) => if Writable(w, j) then w.(heap := SetIn(w.heap, w.muts[j].value, key, v)) else w
    case Fix(j) => if j < |w.muts| then w.(fixed := w.fixed + [w.muts[j]], muts := w.muts[j := None]) else w
    case Copy(j) => if j < |w.muts| then w.(muts := w.muts + [w.muts[j]]) else w
  }

  /** make_shared of a layer over a parent, owned by a new mutable map. */
  function WithMutable<V>(w: World<V>, parent: Option<nat>): World<V> {
    w.(heap := w.heap + [Layer(parent, map[])], muts := w.muts + [Some(|w.heap|)])
  }

  function Run<V>(w: World<V>, ops: seq<Op<V>>): World<V>
    decreases |ops|
  {
    if ops == [] then w else Run(Step(w, ops[0]), ops[1..])
  }

  // ----- in place -----

  class PropertyMapLayer<V> {
    const parent: PropertyMapLayer?<V>
    var entries: map<string, V>

    /** This layer and those above it, nearest first. */
    ghost const chain: seq<PropertyMapLayer<V>>

    ghost predicate Linked()
      decreases |chain|
    {
      && chain == [this] + (if parent == null then [] else parent.chain)
      && (parent != null ==> parent.Linked())
    }

    /** What queries can see from here. */
    ghost function View(): map<string, V>
      requires Linked()
      reads set l | l in chain
      decreases |chain|
    {
      if parent == null then entries else parent.View() + entries
    }

    constructor (parent: PropertyMapLayer?<V>)
      requires parent != null ==> parent.Linked()
      ensures Linked() && this.parent == parent && entries == map[]
      ensures parent != null ==> View() == parent.View()
    {
      this.parent := parent;
      entries := map[];
      chain := [this] + (if parent == null then [] else parent.chain);
    }

    function Query(key: string): (r: Option<V>)
      requires Linked()
      reads set l | l in chain
      ensures r == if key in View() then Some(View()[key]) else None
      decreases |chain|
    {
      if key in entries then Some(entries[key])
      else if parent != null then parent.Query(key)
      else None
    }

    method Set(name: string, value: V)
      requires Linked()
      modifies this`entries
      ensures entries == old(entries)[name := value]
      ensures View() == old(View())[name := value]
    {
      NotAboveItself(this);
      if name !in entries {
        entries := entries + map[name := value];
      } else {
        entries := entries[name := value];
      }
    }
  }

  lemma {:induction false} ChainSuffix<V>(layer: PropertyMapLayer<V>, i: nat)
    requires layer.Linked() && i < |layer.chain|
    ensures layer.chain[i].Linked() && layer.chain[i].chain == layer.chain[i..]
    decreases i
  {
    if i == 0 {
    } else {
      ChainSuffix(layer.parent, i - 1);
    }
  }

  /** Chains of layers have no cycles. */
  lemma {:induction false} NotAboveItself<V>(layer: PropertyMapLayer<V>)
    requires layer.Linked()
    ensures layer.parent != null ==> layer !in layer.parent.chain
  {
    if layer.parent != null && layer in layer.parent.chain {
      var i :| 0 <= i < |layer.parent.chain| && layer.parent.chain[i] == layer;
      ChainSuffix(layer.parent, i);
      assert false;
    }
  }

  /** A property_map: a value that refers to a layer, or to none by default. */
  datatype PropertyMap<V> = PropertyMap(impl: PropertyMapLayer?<V>)

  class MutablePropertyMap<V> {
    var impl: PropertyMapLayer?<V>

    constructor (parentLayer: PropertyMapLayer?<V>)
      requires parentLayer != null ==> parentLayer.Linked()
      ensures impl != null && fresh(impl) && impl.Linked()
      ensures impl.parent == parentLayer && impl.entries == map[]
    {
      impl := new PropertyMapLayer(parentLayer);
    }

    /** Changes the view of this map at one name. Every layer whose chain this map's layer is not part
        of keeps its view, as nothing else is written. */
    method Set(name: string, value: V)
      requires impl != null && impl.Linked()
      modifies impl
      ensures impl.entries == old(impl.entries)[name := value]
      ensures impl.View() == old(impl.View())[name := value]
    {
      impl.Set(name, value);
    }
  }

  /** mutate: a fresh layer over the map's own. */
  method MutateMap<V>(source: PropertyMap<V>) returns (m: MutablePropertyMap<V>)
    requires source.impl != null ==> source.impl.Linked()
    ensures fresh(m) && m.impl != null && fresh(m.impl) && m.impl.Linked() && m.impl.parent == source.impl
    ensures m.impl.View() == if source.impl == null then map[] else source.impl.View()
  {
    m := new MutablePropertyMap(source.impl);
  }

  /** fix: the layer is moved out of the mutable map. */
  method FixMap<V>(m: MutablePropertyMap<V>) returns (r: PropertyMap<V>)
    modifies m
    ensures r.impl == old(m.impl) && m.impl == null
  {
    r := PropertyMap(m.impl);
    m.impl := null;
  }
}
