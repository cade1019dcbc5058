/** Keys that record which parts of a JSON document were used (mutable_key, immutable_key). */
module Keys {
  import opened TextOrder
  import opened Json
  import opened JsonProofs
  import opened JsonHash
  import opened Paths
  import opened Wrappers
  import opened Collections
  import opened PathProofs

  /** path_set: a std::set<json::string>, as the sequence its iterators visit. */
  type Index = seq<string>

  ghost predicate SortedIndex(index: Index) { SortedBy(index, Itself) }

  /** std::set::insert. */
  function InsertPath(index: Index, path: string): Index {
    if path in index then index else Insert(index, path, Itself)
  }

  function InsertAll(index: Index, paths: seq<string>): Index
    decreases |paths|
  {
    if paths == [] then index else InsertAll(InsertPath(index, paths[0]), paths[1..])
  }

  ghost predicate AllResolve(doc: Document, index: Index) {
    forall p | p in index :: Lookup(doc, p).Some?
  }

  /** Everything the constructor of immutable_key feeds to the hash. */
  ghost function KeyStream(doc: Document, index: Index): string
    requires AllResolve(doc, index)
  {
    if index == [] then "" else
      index[0] + Stream(Lookup(doc, index[0]).value) + KeyStream(doc, index[1..])
  }

  datatype ImmutableKey = ImmutableKey(doc: Document, index: Index, digest: Digest)

  /** What every constructed key satisfies. */
  ghost predicate Constructed(k: ImmutableKey, hash: Hash) {
    && SortedIndex(k.index)
    && AllResolve(k.doc, k.index)
    && k.digest == hash(KeyStream(k.doc, k.index))
  }

  lemma {:induction false} ResolveWellFormed(v: Json, path: seq<string>)
    requires WellFormed(v) && Resolve(v, path).Some?
    ensures WellFormed(Resolve(v, path).value)
    decreases |path|
  {
    if path == [] {
    } else {
      match v
      case Object(ms) =>
        assert ms[FindKey(ms, path[0])] in ms;
        ResolveWellFormed(Subvalue(v, path[0]).value, path[1..]);
      case Array(elems) =>
        assert Subvalue(v, path[0]).value in elems;
        ResolveWellFormed(Subvalue(v, path[0]).value, path[1..]);
      case _ =>
    }
  }

  lemma {:induction false} KeyStreamOneMore(doc: Document, index: Index, i: nat)
    requires i < |index| && AllResolve(doc, index[..i]) && Lookup(doc, index[i]).Some?
    ensures AllResolve(doc, index[..i + 1])
    ensures KeyStream(doc, index[..i + 1])
         == KeyStream(doc, index[..i]) + index[i] + Stream(Lookup(doc, index[i]).value)
  {
    assert index[..i + 1] == index[..i] + [index[i]];
    KeyStreamSnoc(doc, index[..i], index[i]);
    Associate(KeyStream(doc, index[..i]), index[i], Stream(Lookup(doc, index[i]).value));
  }

  lemma {:induction false} KeyStreamSnoc(doc: Document, index: Index, p: string)
    requires AllResolve(doc, index) && Lookup(doc, p).Some?
    ensures AllResolve(doc, index + [p])
    ensures KeyStream(doc, index + [p]) == KeyStream(doc, index) + (p + Stream(Lookup(doc, p).value))
    decreases |index|
  {
    var more := p + Stream(Lookup(doc, p).value);
    if index == [] {
      assert index + [p] == [p] && [p][1..] == [];
      assert KeyStream(doc, [p]) == more + KeyStream(doc, []);
    } else {
      KeyStreamSnoc(doc, index[1..], p);
      assert (index + [p])[1..] == index[1..] + [p];
      Associate(index[0] + Stream(Lookup(doc, index[0]).value), KeyStream(doc, index[1..]), more);
    }
  }

  /** The constructor; None stands for the exception of find_path. */
  method MakeImmutableKey(hash: Hash, original: Document, idx: Index) returns (r: Option<ImmutableKey>)
    ensures r.Some? <==> AllResolve(original, idx)
    ensures r.Some? ==> r.value == ImmutableKey(original, idx, hash(KeyStream(original, idx)))
  {
    var ctx := new Sha256Context();
    for i := 0 to |idx|
      invariant AllResolve(original, idx[..i])
      invariant ctx.fed == KeyStream(original, idx[..i])
    {
      ctx.Update(idx[i]);
      var found := FindPathText(original, idx[i]);
      if found.Failed? {
        assert idx[i] in idx;
        return None;
      }
      ResolveWellFormed(original, Dissect(idx[i]));
      UpdateSha256(ctx, found.value);
      KeyStreamOneMore(original, idx, i);
    }
    assert idx[..|idx|] == idx;
    var digest := ctx.Final(hash);
    return Some(ImmutableKey(original, idx, digest));
  }

  /** Two keys agree at a path when both documents have something there and it is the same. */
  ghost predicate AgreeAt(l: Document, r: Document, path: string, rule: Rule) {
    && Lookup(l, path).Some? && Lookup(r, path).Some?
    && Same(Lookup(l, path).value, Lookup(r, path).value, rule)
  }

  /** The same set of paths, and the same values there. */
  ghost predicate Agree(l: ImmutableKey, r: ImmutableKey, rule: Rule) {
    && SameElements(l.index, r.index)
    && forall p | p in l.index :: AgreeAt(l.doc, r.doc, p, rule)
  }

  /** immutable_key::equal_contents: the two sorted indexes in lockstep. */
  method EqualContents(l: ImmutableKey, r: ImmutableKey) returns (b: bool)
    requires SortedIndex(l.index) && AllResolve(l.doc, l.index)
    requires SortedIndex(r.index) && AllResolve(r.doc, r.index)
    ensures b <==> Agree(l, r, Ieee)
  {
    if SameElements(l.index, r.index) { SortedUnique(l.index, r.index, Itself); }
    if |l.index| != |r.index| {
      return false;
    }
    var i := 0;
    while i != |l.index|
      invariant 0 <= i <= |l.index| && l.index[..i] == r.index[..i]
      invariant forall p | p in l.index[..i] :: AgreeAt(l.doc, r.doc, p, Ieee)
      decreases |l.index| - i
    {
      var lk, rk := l.index[i], r.index[i];
      if lk != rk {
        return false;
      }
      assert lk in l.index && rk in r.index;
      var lv := FindPathText(l.doc, lk);
      var rv := FindPathText(r.doc, rk);
      if !Same(lv.value, rv.value, Ieee) {
        return false;
      }
      assert l.index[..i + 1] == l.index[..i] + [lk];
      i := i + 1;
    }
    assert l.index[..i] == l.index && r.index[..i] == r.index;
    return true;
  }

  /** immutable_key::operator==. */
  ghost predicate KeysEqual(l: ImmutableKey, r: ImmutableKey) {
    l.digest == r.digest && Agree(l, r, Ieee)
  }

  method Equals(l: ImmutableKey, r: ImmutableKey) returns (b: bool)
    requires SortedIndex(l.index) && AllResolve(l.doc, l.index)
    requires SortedIndex(r.index) && AllResolve(r.doc, r.index)
    ensures b <==> KeysEqual(l, r)
  {
    if l.digest == r.digest {
      b := EqualContents(l, r);
    } else {
      b := false;
    }
  }

  // ----- runs of operations on a mutable key -----

  datatype KeyOp = Use(path: string) | Merge(other: ImmutableKey)

  function IndexAfter(doc: Document, index: Index, op: KeyOp): Index {
    match op
    case Use(path) => if Lookup(doc, path).Some? then InsertPath(index, Normalise(path)) else index
    case Merge(other) => InsertAll(index, other.index)
  }

  function IndexAfterAll(doc: Document, index: Index, ops: seq<KeyOp>): Index
    decreases |ops|
  {
    if ops == [] then index else IndexAfterAll(doc, IndexAfter(doc, index, ops[0]), ops[1..])
  }

  class MutableKey {
    const doc: Document
    var index: Index

    constructor (original: Document, idx: Index)
      ensures doc == original && index == idx
    {
      doc := original;
      index := idx;
    }

    /** Looks the path up and records it; a path that leads nowhere leaves the index alone. */
    method Use(path: string) returns (r: FindResult)
      modifies this
      ensures r.Found? <==> Lookup(doc, path).Some?
      ensures r.Found? ==> Lookup(doc, path) == Some(r.value)
      ensures index == IndexAfter(doc, old(index), KeyOp.Use(path))
    {
      var dissected := DissectPath(path);
      r := FindPath(doc, dissected);
      if r.Failed? {
        return;
      }
      var canonical := ToPath(dissected, 0, |dissected|);
      assert dissected[0..|dissected|] == dissected;
      index := InsertPath(index, canonical);
    }

    method Merge(other: ImmutableKey)
      modifies this
      ensures index == IndexAfter(doc, old(index), KeyOp.Merge(other))
    {
      for i := 0 to |other.index|
        invariant InsertAll(index, other.index[i..]) == InsertAll(old(index), other.index)
      {
        index := InsertPath(index, other.index[i]);
        assert other.index[i..][1..] == other.index[i + 1..];
      }
    }

    method Fix(hash: Hash) returns (r: Option<ImmutableKey>)
      ensures r.Some? <==> AllResolve(doc, index)
      ensures r.Some? ==> r.value == ImmutableKey(doc, index, hash(KeyStream(doc, index)))
    {
      r := MakeImmutableKey(hash, doc, index);
    }
  }

  /** immutable_key::mutate. */
  method Mutate(k: ImmutableKey) returns (m: MutableKey)
    ensures fresh(m) && m.doc == k.doc && m.index == k.index
  {
    m := new MutableKey(k.doc, k.index);
  }
}
