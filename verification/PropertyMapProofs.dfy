/** A query sees the flattened chain; writing changes one key of one view; maps that were fixed do
    not change, as long as no mutable map is copied. */
module PropertyMapProofs {
  import opened PropertyMaps
  import opened Wrappers

  /** A query at any depth is a lookup in the flattened chain. */
  lemma {:induction false} QueryIsFlattened<V>(heap: Heap<V>, l: nat, key: string)
    requires Ordered(heap) && l < |heap|
    ensures Query(heap, l, key) == if key in Flatten(heap, l) then Some(Flatten(heap, l)[key]) else None
    decreases l
  {
    match heap[l].parent
    case Some(p) => QueryIsFlattened(heap, p, key);
    case None =>
  }

  /** No layer nearer to l than m defines the key. */
  ghost predicate Reaches<V>(heap: Heap<V>, l: nat, m: nat, key: string)
    requires Ordered(heap) && l < |heap|
    decreases l
  {
    l == m || (key !in heap[l].entries && heap[l].parent.Some? && Reaches(heap, heap[l].parent.value, m, key))
  }

  /** What writing to layer m does to the view of any layer l: only the key changes, and only when
      the query for it reaches m. */
  lemma {:induction false} SetSeenFrom<V>(heap: Heap<V>, l: nat, m: nat, key: string, v: V, k: string)
    requires Ordered(heap) && l < |heap| && m < |heap|
    ensures Ordered(SetIn(heap, m, key, v))
    ensures Query(SetIn(heap, m, key, v), l, k) ==
            if k == key && Reaches(heap, l, m, key) then Some(v) else Query(heap, l, k)
    decreases l
  {
    if heap[l].parent.None? {
    } else {
      if l == m {
        QueryAbove(heap, heap[l].parent.value, m, key, v, k);
      } else {
        SetSeenFrom(heap, heap[l].parent.value, m, key, v, k);
      }
    }
  }

  /** Writing above a layer is not seen from it. */
  lemma {:induction false} QueryAbove<V>(heap: Heap<V>, l: nat, m: nat, key: string, v: V, k: string)
    requires Ordered(heap) && l < m < |heap|
    ensures Ordered(SetIn(heap, m, key, v))
    ensures Query(SetIn(heap, m, key, v), l, k) == Query(heap, l, k)
    decreases l
  {
    if heap[l].parent.None? {
    } else {
      QueryAbove(heap, heap[l].parent.value, m, key, v, k);
    }
  }

  lemma {:induction false} ReachesOnlyInChain<V>(heap: Heap<V>, l: nat, m: nat, key: string)
    requires Ordered(heap) && l < |heap|
    ensures Reaches(heap, l, m, key) ==> m in Chain(heap, l)
    decreases l
  {
    if l == m || heap[l].parent.None? {
    } else {
      ReachesOnlyInChain(heap, heap[l].parent.value, m, key);
    }
  }

  // ----- layers as objects -----

  ghost predicate SameParent<V>(layers: seq<PropertyMapLayer<V>>, heap: Heap<V>, l: nat)
    requires l < |layers| == |heap|
  {
    match heap[l].parent
    case Some(p) => p < l && layers[l].parent == layers[p]
    case None => layers[l].parent == null
  }

  /** The objects made so far, in the order of their creation, and what the heap says of them. */
  ghost predicate Represents<V>(layers: seq<PropertyMapLayer<V>>, heap: Heap<V>)
    reads layers
  {
    && |layers| == |heap|
    && (forall l, m :: 0 <= l < m < |layers| ==> layers[l] != layers[m])
    && (forall l :: 0 <= l < |layers| ==>
          layers[l].Linked() && layers[l].entries == heap[l].entries && SameParent(layers, heap, l))
  }

  /** An object sees what the heap's flattened chain says, and so answers what Query answers. */
  lemma {:induction false} ObjectsAnswerAsHeap<V>(layers: seq<PropertyMapLayer<V>>, heap: Heap<V>, l: nat, key: string)
    requires Represents(layers, heap) && l < |heap|
    ensures Ordered(heap) && layers[l].View() == Flatten(heap, l)
    ensures layers[l].Query(key) == Query(heap, l, key)
    decreases l
  {
    assert forall m :: 0 <= m < |heap| ==> SameParent(layers, heap, m);
    match heap[l].parent
    case Some(p) => ObjectsAnswerAsHeap(layers, heap, p, key);
    case None =>
  }

  /** Writing through one object is SetIn. */
  twostate lemma SetOfObjectIsSetIn<V>(layers: seq<PropertyMapLayer<V>>, heap: Heap<V>, l: nat, name: string, v: V)
    requires old(Represents(layers, heap)) && l < |layers|
    requires layers[l].entries == old(layers[l].entries)[name := v]
    requires forall m :: 0 <= m < |layers| && m != l ==> layers[m].entries == old(layers[m].entries)
    ensures Represents(layers, SetIn(heap, l, name, v))
  {
    forall m | 0 <= m < |layers| ensures SameParent(layers, SetIn(heap, l, name, v), m) {
      assert SameParent(layers, heap, m);
    }
  }

  /** A new object over an existing one, or over none, is one layer more. */
  lemma {:induction false} NewObjectIsNewLayer<V>(layers: seq<PropertyMapLayer<V>>, heap: Heap<V>,
                                                  layer: PropertyMapLayer<V>, parent: Option<nat>)
    requires Represents(layers, heap) && layer !in layers && layer.Linked() && layer.entries == map[]
    requires match parent
             case Some(p) => p < |layers| && layer.parent == layers[p]
             case None => layer.parent == null
    ensures Represents(layers + [layer], heap + [Layer(parent, map[])])
  {
    forall m | 0 <= m < |layers| ensures SameParent(layers + [layer], heap + [Layer(parent, map[])], m) {
      assert SameParent(layers, heap, m);
    }
  }

  // ----- runs -----

  ghost predicate Refers<V>(w: World<V>, h: Option<nat>) { h.Some? ==> h.value < |w.heap| }

  /** Handles refer to layers, and parents are older than their children. */
  ghost predicate Valid<V>(w: World<V>) {
    && Ordered(w.heap)
    && (forall i :: 0 <= i < |w.fixed| ==> Refers(w, w.fixed[i]))
    && (forall j :: 0 <= j < |w.muts| ==> Refers(w, w.muts[j]))
  }

  ghost predicate WrittenBy<V>(w: World<V>, j: nat, l: nat) { j < |w.muts| && w.muts[j] == Some(l) }

  /** The layer of a mutable map belongs to it alone: no other mutable map has it, no fixed map has
      it, and no layer is built on it. */
  ghost predicate Private<V>(w: World<V>) {
    && (forall j, k, l: nat :: WrittenBy(w, j, l) && WrittenBy(w, k, l) ==> j == k)
    && (forall i, j, l: nat :: 0 <= i < |w.fixed| && WrittenBy(w, j, l) ==> w.fixed[i] != Some(l))
    && (forall m, j, l: nat :: 0 <= m < |w.heap| && WrittenBy(w, j, l) ==> w.heap[m].parent != Some(l))
  }

  lemma {:induction false} StepKeepsValid<V>(w: World<V>, op: Op<V>)
    requires Valid(w)
    ensures Valid(Step(w, op)) && |Step(w, op).heap| >= |w.heap|
    ensures |w.fixed| <= |Step(w, op).fixed| && Step(w, op).fixed[..|w.fixed|] == w.fixed
  {}

  /** Every operation but Copy keeps layers private. */
  lemma {:induction false} StepKeepsPrivate<V>(w: World<V>, op: Op<V>)
    requires Valid(w) && Private(w) && !op.Copy?
    ensures Private(Step(w, op))
  {
    var u := Step(w, op);
    forall j, l: nat | WrittenBy(u, j, l) ensures WrittenBy(w, j, l) || (j == |w.muts| && l == |w.heap|) {}
    forall i, j, l: nat | 0 <= i < |u.fixed| && WrittenBy(u, j, l) ensures u.fixed[i] != Some(l) {
      if op.Fix? && i == |w.fixed| { assert u.fixed[i] == Some(l) ==> WrittenBy(w, op.target, l); }
    }
  }

  lemma {:induction false} MutableOutsideChain<V>(w: World<V>, l: nat, j: nat, m: nat)
    requires Valid(w) && Private(w) && l < |w.heap| && WrittenBy(w, j, m) && l != m
    ensures m !in Chain(w.heap, l)
    decreases l
  {
    if w.heap[l].parent.None? {
    } else {
      MutableOutsideChain(w, w.heap[l].parent.value, j, m);
    }
  }

  lemma {:induction false} QueryInLongerHeap<V>(heap: Heap<V>, layer: Layer<V>, l: nat, key: string)
    requires Ordered(heap) && Ordered(heap + [layer]) && l < |heap|
    ensures Query(heap + [layer], l, key) == Query(heap, l, key)
    decreases l
  {
    if heap[l].parent.None? {
    } else {
      QueryInLongerHeap(heap, layer, heap[l].parent.value, key);
    }
  }

  /** What a fixed map answers; a default-constructed one must not be asked. */
  function Answer<V>(w: World<V>, i: nat, key: string): Option<V>
    requires Ordered(w.heap) && i < |w.fixed| && w.fixed[i].Some? && w.fixed[i].value < |w.heap|
  {
    Query(w.heap, w.fixed[i].value, key)
  }

  lemma {:induction false} StepKeepsAnswers<V>(w: World<V>, op: Op<V>, i: nat, key: string)
    requires Valid(w) && Private(w) && i < |w.fixed| && w.fixed[i].Some?
    ensures Valid(Step(w, op)) && Step(w, op).fixed[..|w.fixed|] == w.fixed && i < |Step(w, op).fixed|
    ensures Step(w, op).fixed[i] == w.fixed[i] && w.fixed[i].value < |w.heap| <= |Step(w, op).heap|
    ensures Answer(Step(w, op), i, key) == Answer(w, i, key)
  {
    StepKeepsValid(w, op);
    var l := w.fixed[i].value;
    assert Step(w, op).fixed[..|w.fixed|][i] == w.fixed[i];
    match op
    case NewMutable => QueryInLongerHeap(w.heap, Layer(None, map[]), l, key);
    case Mutate(k) => if k < |w.fixed| { QueryInLongerHeap(w.heap, Layer(w.fixed[k], map[]), l, key); }
    case Set(j, k, v) =>
      if Writable(w, j) {
        var m := w.muts[j].value;
        assert WrittenBy(w, j, m);
        MutableOutsideChain(w, l, j, m);
        ReachesOnlyInChain(w.heap, l, m, k);
        SetSeenFrom(w.heap, l, m, k, v, key);
      }
    case _ =>
  }

  ghost predicate CopyFree<V>(ops: seq<Op<V>>) {
    forall op | op in ops :: !op.Copy?
  }

  /** Every map that was fixed answers every query the same for the rest of any run in which no
      mutable map is copied. */
  lemma {:induction false} FixedMapsNeverChange<V>(w: World<V>, ops: seq<Op<V>>, i: nat, key: string)
    requires Valid(w) && Private(w) && CopyFree(ops) && i < |w.fixed| && w.fixed[i].Some?
    ensures Valid(Run(w, ops)) && i < |Run(w, ops).fixed| && Run(w, ops).fixed[i] == w.fixed[i]
    ensures w.fixed[i].value < |w.heap| <= |Run(w, ops).heap|
    ensures Answer(Run(w, ops), i, key) == Answer(w, i, key)
    decreases |ops|
  {
    if ops == [] {
    } else {
      StepKeepsAnswers(w, ops[0], i, key);
      StepKeepsPrivate(w, ops[0]);
      FixedMapsNeverChange(Step(w, ops[0]), ops[1..], i, key);
    }
  }

  /** A run that copies no mutable map keeps layers private; the empty world is where runs begin. */
  lemma {:induction false} EveryRunIsPrivate<V>(w: World<V>, ops: seq<Op<V>>)
    requires Valid(w) && Private(w) && CopyFree(ops)
    ensures Valid(Run(w, ops)) && Private(Run(w, ops))
    ensures Valid<V>(World([], [], [])) && Private<V>(World([], [], []))
    decreases |ops|
  {
    if ops == [] {
    } else {
      StepKeepsValid(w, ops[0]);
      StepKeepsPrivate(w, ops[0]);
      EveryRunIsPrivate(Step(w, ops[0]), ops[1..]);
    }
  }

  /** Writing through a mutable map changes its own view at that key and at no other. */
  lemma {:induction false} SetIsLocal<V>(w: World<V>, j: nat, key: string, v: V, k: string)
    requires Valid(w) && Writable(w, j)
    ensures var u := Step(w, Set(j, key, v));
            && Ordered(u.heap) && u.muts == w.muts && |u.heap| == |w.heap|
            && Query(u.heap, w.muts[j].value, k)
            == if k == key then Some(v) else Query(w.heap, w.muts[j].value, k)
  {
    SetSeenFrom(w.heap, w.muts[j].value, w.muts[j].value, key, v, k);
  }

  /** A map made anew answers nothing, and making it changes no view. */
  lemma {:induction false} NewMutableIsEmpty<V>(w: World<V>, l: nat, key: string)
    requires Valid(w)
    ensures var u := Step(w, NewMutable);
            && Valid(u) && u.muts == w.muts + [Some(|w.heap|)] && u.fixed == w.fixed && |u.heap| == |w.heap| + 1
            && Query(u.heap, |w.heap|, key) == None
            && (l < |w.heap| ==> Query(u.heap, l, key) == Query(w.heap, l, key))
  {
    StepKeepsValid(w, NewMutable);
    if l < |w.heap| { QueryInLongerHeap(w.heap, Layer(None, map[]), l, key); }
  }

  /** A default-constructed property_map has no layer, and making it changes nothing else. */
  lemma {:induction false} DefaultMapHasNoLayer<V>(w: World<V>)
    ensures var u := Step(w, DefaultMap);
            u.heap == w.heap && u.muts == w.muts && u.fixed == w.fixed + [None]
  {}

  /** Mutating a fixed map starts from its view. */
  lemma {:induction false} MutateStartsFromView<V>(w: World<V>, i: nat, key: string)
    requires Valid(w) && i < |w.fixed| && w.fixed[i].Some?
    ensures var u := Step(w, Mutate(i));
            && Ordered(u.heap) && u.fixed == w.fixed && u.muts == w.muts + [Some(|w.heap|)] && |w.heap| < |u.heap|
            && Query(u.heap, |w.heap|, key) == Query(w.heap, w.fixed[i].value, key)
  {
    StepKeepsValid(w, Mutate(i));
    QueryInLongerHeap(w.heap, Layer(w.fixed[i], map[]), w.fixed[i].value, key);
  }

  /** A fixed map answers what its mutable map would have answered, and the mutable map is left
      without a layer. */
  lemma {:induction false} FixHandsOverView<V>(w: World<V>, j: nat, key: string)
    requires Valid(w) && Writable(w, j)
    ensures var u := Step(w, Fix(j));
            && Valid(u) && |u.fixed| == |w.fixed| + 1 && u.fixed[|w.fixed|].Some?
            && Answer(u, |w.fixed|, key) == Query(w.heap, w.muts[j].value, key)
            && !Writable(u, j)
  {
    StepKeepsValid(w, Fix(j));
  }

  /** In any world, copies or not: writing through a mutable map leaves all answers of a fixed map as
      they were exactly when the query for the key does not get to the written layer, or the answer
      was already that value. */
  lemma {:induction false} SetHarmlessIff<V>(w: World<V>, j: nat, key: string, v: V, i: nat)
    requires Valid(w) && Writable(w, j) && i < |w.fixed| && w.fixed[i].Some?
    ensures var u, l := Step(w, Set(j, key, v)), w.fixed[i].value;
            && Valid(u) && u.fixed == w.fixed
            && ((forall k :: Answer(u, i, k) == Answer(w, i, k)) <==>
                !Reaches(w.heap, l, w.muts[j].value, key) || Answer(w, i, key) == Some(v))
  {
    var u, l := Step(w, Set(j, key, v)), w.fixed[i].value;
    forall k
      ensures Answer(u, i, k) ==
              if k == key && Reaches(w.heap, l, w.muts[j].value, key) then Some(v) else Answer(w, i, k)
    {
      SetSeenFrom(w.heap, l, w.muts[j].value, key, v, k);
    }
  }

  /** A copy of a mutable map shares its layer: after fixing one, writing through the other changes
      the fixed map. */
  lemma {:induction false} CopyBreaksFixedMap<V>(v: V)
    ensures var before := Run(World([], [], []), [NewMutable, Copy(0), Fix(0)]);
            var after := Step(before, Set(1, "k", v));
            && Ordered(before.heap) && Ordered(after.heap)
            && before.fixed == after.fixed == [Some(0)] && |before.heap| == |after.heap| == 1
            && Query(before.heap, 0, "k") == None && Query(after.heap, 0, "k") == Some(v)
  {
    var w0: World<V> := World([], [], []);
    var ops: seq<Op<V>> := [NewMutable, Copy(0), Fix(0)];
    assert ops[1..] == [Copy(0), Fix(0)] && ops[1..][1..] == [Fix(0)] && ops[1..][1..][1..] == [];
    var w1 := Step(w0, NewMutable);
    assert w1 == World([Layer(None, map[])], [], [Some(0)]);
    var w2 := Step(w1, Copy(0));
    assert w2.muts == [Some(0), Some(0)];
    var w3 := Step(w2, Fix(0));
    assert w3.fixed == [Some(0)] && w3.muts == [None, Some(0)];
    assert Run(w0, ops) == w3;
  }
}
