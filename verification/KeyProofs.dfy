/** When two keys are equal, and what a run of uses and merges leaves in a key. */
module KeyProofs {
  import opened TextOrder
  import opened Json
  import opened JsonProofs
  import opened JsonHash
  import opened Paths
  import opened PathProofs
  import opened Keys
  import opened Wrappers
  import opened Collections

  // ----- equality and digests -----

  lemma {:induction false} AgreeMeansSameIndex(l: ImmutableKey, r: ImmutableKey, rule: Rule)
    requires SortedIndex(l.index) && SortedIndex(r.index) && Agree(l, r, rule)
    ensures l.index == r.index && AllResolve(l.doc, l.index) && AllResolve(r.doc, r.index)
  {
    SortedUnique(l.index, r.index, Itself);
  }

  lemma {:induction false} ValuesWellFormed(l: Document, r: Document, path: string)
    requires Lookup(l, path).Some? && Lookup(r, path).Some?
    ensures WellFormed(Lookup(l, path).value) && WellFormed(Lookup(r, path).value)
  {
    ResolveWellFormed(l, Dissect(path));
    ResolveWellFormed(r, Dissect(path));
  }

  /** Where two documents agree, the value streams have one length, and are equal exactly when the
      values are the same bit for bit. */
  lemma {:induction false} ValueStreams(l: Document, r: Document, path: string)
    requires AgreeAt(l, r, path, Ieee)
    ensures var a, b := Stream(Lookup(l, path).value), Stream(Lookup(r, path).value);
            |a| == |b| && (a == b <==> AgreeAt(l, r, path, Bits))
  {
    ValuesWellFormed(l, r, path);
    SameLength(Lookup(l, path).value, Lookup(r, path).value, Ieee);
    StreamDecidesBits(Lookup(l, path).value, Lookup(r, path).value);
  }

  ghost predicate AgreeAlong(l: Document, r: Document, index: Index, rule: Rule) {
    forall p | p in index :: AgreeAt(l, r, p, rule)
  }

  lemma {:induction false} AgreeAlongCons(l: Document, r: Document, index: Index, rule: Rule)
    requires index != []
    ensures AgreeAlong(l, r, index, rule) <==> AgreeAt(l, r, index[0], rule) && AgreeAlong(l, r, index[1..], rule)
  {
    assert index == [index[0]] + index[1..];
  }

  lemma {:induction false} AgreeAlongResolves(l: Document, r: Document, index: Index)
    requires AgreeAlong(l, r, index, Ieee)
    ensures AllResolve(l, index) && AllResolve(r, index)
  {
    assert forall p | p in index :: AgreeAt(l, r, p, Ieee);
  }

  lemma {:induction false} HeadSplits(l: Document, r: Document, index: Index)
    requires index != [] && AllResolve(l, index) && AllResolve(r, index)
    requires AgreeAt(l, r, index[0], Ieee)
    ensures KeyStream(l, index) == KeyStream(r, index) <==>
            AgreeAt(l, r, index[0], Bits) && KeyStream(l, index[1..]) == KeyStream(r, index[1..])
  {
    ValueStreams(l, r, index[0]);
    SplitEqual(index[0], Stream(Lookup(l, index[0]).value), Stream(Lookup(r, index[0]).value),
               KeyStream(l, index[1..]), KeyStream(r, index[1..]));
  }

  /** For documents that agree along an index, the streams are equal exactly when they agree there
      bit for bit. */
  lemma {:induction false} StreamsDecideBits(l: Document, r: Document, index: Index)
    requires AllResolve(l, index) && AllResolve(r, index) && AgreeAlong(l, r, index, Ieee)
    ensures KeyStream(l, index) == KeyStream(r, index) <==> AgreeAlong(l, r, index, Bits)
    decreases |index|
  {
    if index == [] {
    } else {
      AgreeAlongCons(l, r, index, Ieee);
      AgreeAlongCons(l, r, index, Bits);
      HeadSplits(l, r, index);
      StreamsDecideBits(l, r, index[1..]);
    }
  }

  lemma {:induction false} SplitEqual(p: string, a: string, b: string, x: string, y: string)
    requires |a| == |b|
    ensures p + a + x == p + b + y <==> a == b && x == y
  {
    var s, t, n := p + a + x, p + b + y, |p| + |a|;
    assert s[|p|..n] == a && t[|p|..n] == b;
    assert s[n..] == x && t[n..] == y;
  }

  lemma {:induction false} StreamsDecideAgreement(l: ImmutableKey, r: ImmutableKey)
    requires SortedIndex(l.index) && SortedIndex(r.index) && Agree(l, r, Ieee)
    ensures AllResolve(l.doc, l.index) && AllResolve(r.doc, r.index)
    ensures Agree(l, r, Bits) <==> KeyStream(l.doc, l.index) == KeyStream(r.doc, r.index)
  {
    AgreeMeansSameIndex(l, r, Ieee);
    AgreeAlongResolves(l.doc, r.doc, l.index);
    StreamsDecideBits(l.doc, r.doc, l.index);
  }

  /** The key that fix() gives over this document and index when hashing with `hash`. */
  ghost function KeyOver(doc: Document, index: Index, hash: Hash): ImmutableKey
    requires AllResolve(doc, index)
  {
    ImmutableKey(doc, index, hash(KeyStream(doc, index)))
  }

  /** Of two keys that agree, the digest test accepts the ones built with any hash function whatever
      exactly when no zero differs in sign: agreement bit for bit is necessary and sufficient. */
  lemma {:induction false} DigestTestAcceptsAgreement(l: ImmutableKey, r: ImmutableKey)
    requires SortedIndex(l.index) && SortedIndex(r.index) && Agree(l, r, Ieee)
    ensures AllResolve(l.doc, l.index) && AllResolve(r.doc, r.index)
    ensures Agree(l, r, Bits) <==>
            forall hash: Hash :: KeyOver(l.doc, l.index, hash).digest == KeyOver(r.doc, r.index, hash).digest
  {
    StreamsDecideAgreement(l, r);
    var ls, rs := KeyStream(l.doc, l.index), KeyStream(r.doc, r.index);
    if ls != rs {
      var hash: Hash := Separating(ls);
      assert KeyOver(l.doc, l.index, hash).digest[0] != KeyOver(r.doc, r.index, hash).digest[0];
    }
  }

  /** A hash function that gives one text a digest of its own. */
  function Separating(text: string): Hash {
    s => seq(DIGEST_LENGTH, _ => if s == text then '1' else '0')
  }

  /** operator==, up to collisions of the hash function on the two streams at hand. */
  lemma {:induction false} EqualUpToCollision(l: ImmutableKey, r: ImmutableKey, hash: Hash)
    requires Constructed(l, hash) && Constructed(r, hash)
    requires var ls, rs := KeyStream(l.doc, l.index), KeyStream(r.doc, r.index);
             hash(ls) == hash(rs) ==> ls == rs
    ensures KeysEqual(l, r) <==> Agree(l, r, Ieee) && Agree(l, r, Bits)
  {
    if Agree(l, r, Ieee) { StreamsDecideAgreement(l, r); }
  }

  ghost predicate UsesNoNegativeZero(k: ImmutableKey) {
    forall p | p in k.index && Lookup(k.doc, p).Some? :: NoNegativeZero(Lookup(k.doc, p).value)
  }

  /** Without negative zeros in the used parts, and with no assumption on the hash function at all,
      two keys are equal exactly when they use the same paths and find the same values there. */
  lemma {:induction false} EqualExactlyWhenAgree(l: ImmutableKey, r: ImmutableKey, hash: Hash)
    requires Constructed(l, hash) && Constructed(r, hash)
    requires UsesNoNegativeZero(l) && UsesNoNegativeZero(r)
    ensures KeysEqual(l, r) <==> Agree(l, r, Ieee)
  {
    if Agree(l, r, Ieee) {
      AgreeMeansSameIndex(l, r, Ieee);
      forall p | p in l.index ensures AgreeAt(l.doc, r.doc, p, Bits) {
        ValuesWellFormed(l.doc, r.doc, p);
        NoNegativeZeroSameBits(Lookup(l.doc, p).value, Lookup(r.doc, p).value);
      }
      StreamsDecideAgreement(l, r);
    }
  }

  /** The parts of the document that were not used have no influence. */
  lemma {:induction false} UnusedPartsIgnored(l: ImmutableKey, r: ImmutableKey, hash: Hash)
    requires Constructed(l, hash) && Constructed(r, hash) && l.index == r.index
    requires forall p | p in l.index :: Lookup(l.doc, p) == Lookup(r.doc, p)
    ensures l.digest == r.digest
    ensures KeysEqual(l, r) <==> KeysEqual(l, l)
  {
    KeyStreamCong(l.doc, r.doc, l.index);
  }

  lemma {:induction false} KeyStreamCong(l: Document, r: Document, index: Index)
    requires AllResolve(l, index) && AllResolve(r, index)
    requires forall p | p in index :: Lookup(l, p) == Lookup(r, p)
    ensures KeyStream(l, index) == KeyStream(r, index)
    decreases |index|
  {
    if index == [] {
    } else {
      assert index[0] in index;
      KeyStreamCong(l, r, index[1..]);
    }
  }

  ghost predicate UsesNoNaN(k: ImmutableKey) {
    forall p | p in k.index && Lookup(k.doc, p).Some? :: NaNFree(Lookup(k.doc, p).value)
  }

  /** A key equals itself exactly when no used part holds a NaN. */
  lemma {:induction false} EqualReflexive(k: ImmutableKey, hash: Hash)
    requires Constructed(k, hash)
    ensures KeysEqual(k, k) <==> UsesNoNaN(k)
  {
    forall p | p in k.index
      ensures AgreeAt(k.doc, k.doc, p, Ieee) <==> NaNFree(Lookup(k.doc, p).value)
    {
      ResolveWellFormed(k.doc, Dissect(p));
      SameReflexive(Lookup(k.doc, p).value, Ieee);
    }
  }

  /** The key over a whole document: use("/") and fix(). */
  lemma {:induction false} WholeDocumentKey(doc: Document, hash: Hash)
    ensures Lookup(doc, "/") == Some(doc) && AllResolve(doc, ["/"])
    ensures IndexAfter(doc, [], Use("/")) == ["/"]
    ensures Constructed(KeyOver(doc, ["/"], hash), hash)
    ensures KeyStream(doc, ["/"]) == "/" + Stream(doc)
  {
    DissectPrinted([]);
    assert Normalise("/") == "/";
    assert ["/"][1..] == [];
  }

  /** Two keys that use equal values and are not equal: only the sign of zero differs. */
  lemma {:induction false} AgreeingKeysCanDiffer()
    ensures exists hash, l, r ::
              && Constructed(l, hash) && Constructed(r, hash)
              && Agree(l, r, Ieee) && !KeysEqual(l, r)
  {
    var a: Document, b: Document := Double(0), Double(TWO_63);
    var hash := Separating("/" + Stream(a));
    WholeDocumentKey(a, hash);
    WholeDocumentKey(b, hash);
    SignedZerosDiffer();
    assert ("/" + Stream(b))[1..] == Stream(b) && ("/" + Stream(a))[1..] == Stream(a);
    var l, r := KeyOver(a, ["/"], hash), KeyOver(b, ["/"], hash);
    assert l.digest[0] != r.digest[0];
    assert Constructed(l, hash) && Constructed(r, hash) && Agree(l, r, Ieee) && !KeysEqual(l, r);
  }

  /** Under any hash function there is a key that does not equal itself: it uses a NaN. */
  lemma {:induction false} NaNKeyDiffersFromItself(hash: Hash)
    ensures exists k :: Constructed(k, hash) && !KeysEqual(k, k)
  {
    var doc: Document := Double(0x7FF8_0000_0000_0000);
    WholeDocumentKey(doc, hash);
    var k := KeyOver(doc, ["/"], hash);
    EqualReflexive(k, hash);
    assert "/" in k.index && !NaNFree(Lookup(doc, "/").value);
    assert Constructed(k, hash) && !KeysEqual(k, k);
  }

  lemma {:induction false} EqualSymmetric(l: ImmutableKey, r: ImmutableKey)
    requires KeysEqual(l, r)
    ensures KeysEqual(r, l)
  {
    forall p | p in r.index ensures AgreeAt(r.doc, l.doc, p, Ieee) {
      assert p in l.index;
      ValuesWellFormed(l.doc, r.doc, p);
      SameSymmetric(Lookup(l.doc, p).value, Lookup(r.doc, p).value, Ieee);
    }
  }

  lemma {:induction false} EqualTransitive(k: ImmutableKey, l: ImmutableKey, m: ImmutableKey)
    requires KeysEqual(k, l) && KeysEqual(l, m)
    ensures KeysEqual(k, m)
  {
    forall p | p in k.index ensures AgreeAt(k.doc, m.doc, p, Ieee) {
      assert p in l.index;
      assert AgreeAt(k.doc, l.doc, p, Ieee) && AgreeAt(l.doc, m.doc, p, Ieee);
      SameTransitive(Lookup(k.doc, p).value, Lookup(l.doc, p).value, Lookup(m.doc, p).value, Ieee);
    }
  }

  // ----- the index as a set -----

  lemma {:induction false} InsertPathElements(index: Index, path: string)
    requires SortedIndex(index)
    ensures SortedIndex(InsertPath(index, path))
    ensures Elements(InsertPath(index, path)) == Elements(index) + {path}
  {
    if path !in index {
      InsertSorted(index, path, Itself);
      var r := Insert(index, path, Itself);
      forall p ensures p in r <==> p in index || p == path {
        assert p in r <==> p in multiset(r);
        assert p in index <==> p in multiset(index);
      }
    }
  }

  lemma {:induction false} InsertAllElements(index: Index, paths: seq<string>)
    requires SortedIndex(index)
    ensures SortedIndex(InsertAll(index, paths))
    ensures Elements(InsertAll(index, paths)) == Elements(index) + Elements(paths)
    decreases |paths|
  {
    if paths == [] {
    } else {
      InsertPathElements(index, paths[0]);
      InsertAllElements(InsertPath(index, paths[0]), paths[1..]);
      ElementsCons(paths);
    }
  }

  lemma {:induction false} SortedIndexUnique(i: Index, j: Index)
    requires SortedIndex(i) && SortedIndex(j) && Elements(i) == Elements(j)
    ensures i == j
  {
    forall p | p in i ensures p in j { assert p in Elements(i); }
    forall p | p in j ensures p in i { assert p in Elements(j); }
    SortedUnique(i, j, Itself);
  }

  // ----- runs -----

  /** The canonical paths one operation contributes. */
  function CollectedBy(doc: Document, op: KeyOp): set<string> {
    match op
    case Use(path) => if Lookup(doc, path).Some? then {Normalise(path)} else {}
    case Merge(other) => Elements(other.index)
  }

  function Collected(doc: Document, ops: seq<KeyOp>): set<string> {
    set op, p | op in ops && p in CollectedBy(doc, op) :: p
  }

  lemma {:induction false} StepCollects(doc: Document, index: Index, op: KeyOp)
    requires SortedIndex(index)
    ensures SortedIndex(IndexAfter(doc, index, op))
    ensures Elements(IndexAfter(doc, index, op)) == Elements(index) + CollectedBy(doc, op)
  {
    match op
    case Use(path) => InsertPathElements(index, Normalise(path));
    case Merge(other) => InsertAllElements(index, other.index);
  }

  lemma {:induction false} CollectedCons(doc: Document, ops: seq<KeyOp>)
    requires ops != []
    ensures Collected(doc, ops) == CollectedBy(doc, ops[0]) + Collected(doc, ops[1..])
  {
    forall op ensures op in ops <==> op == ops[0] || op in ops[1..] {
      assert ops == [ops[0]] + ops[1..];
    }
  }

  /** After any run the index is the old paths and the collected ones. */
  lemma {:induction false} RunCollects(doc: Document, index: Index, ops: seq<KeyOp>)
    requires SortedIndex(index)
    ensures SortedIndex(IndexAfterAll(doc, index, ops))
    ensures Elements(IndexAfterAll(doc, index, ops)) == Elements(index) + Collected(doc, ops)
    decreases |ops|
  {
    if ops == [] {
    } else {
      StepCollects(doc, index, ops[0]);
      RunCollects(doc, IndexAfter(doc, index, ops[0]), ops[1..]);
      CollectedCons(doc, ops);
    }
  }

  /** Order, repetition and spelling do not matter: runs that collect the same canonical paths fix
      to the very same key. */
  lemma {:induction false} RunsDependOnCollectedOnly(doc: Document, index: Index, xs: seq<KeyOp>, ys: seq<KeyOp>)
    requires SortedIndex(index) && Collected(doc, xs) == Collected(doc, ys)
    ensures IndexAfterAll(doc, index, xs) == IndexAfterAll(doc, index, ys)
  {
    RunCollects(doc, index, xs);
    RunCollects(doc, index, ys);
    SortedIndexUnique(IndexAfterAll(doc, index, xs), IndexAfterAll(doc, index, ys));
  }

  /** Two spellings of a path are interchangeable anywhere in a run when they dissect alike. */
  lemma {:induction false} SpellingIrrelevant(doc: Document, index: Index, before: seq<KeyOp>,
                                              p: string, q: string, after: seq<KeyOp>)
    requires SortedIndex(index) && Dissect(p) == Dissect(q)
    ensures IndexAfterAll(doc, index, before + [Use(p)] + after)
         == IndexAfterAll(doc, index, before + [Use(q)] + after)
  {
    var xs, ys := before + [Use(p)] + after, before + [Use(q)] + after;
    NormaliseAlike(p, q);
    assert CollectedBy(doc, Use(p)) == CollectedBy(doc, Use(q));
    CollectedParts(doc, before, Use(p), after);
    CollectedParts(doc, before, Use(q), after);
    RunsDependOnCollectedOnly(doc, index, xs, ys);
  }

  lemma {:induction false} CollectedParts(doc: Document, before: seq<KeyOp>, op: KeyOp, after: seq<KeyOp>)
    ensures Collected(doc, before + [op] + after)
         == Collected(doc, before) + CollectedBy(doc, op) + Collected(doc, after)
  {
    var all := before + [op] + after;
    forall o ensures o in all <==> o in before || o == op || o in after {}
  }

  /** Fixing an empty key after merging k into it gives k back. */
  lemma {:induction false} MergeIntoEmptyIsSame(k: ImmutableKey, hash: Hash)
    requires Constructed(k, hash)
    ensures IndexAfterAll(k.doc, [], [Merge(k)]) == k.index
  {
    RunCollects(k.doc, [], [Merge(k)]);
    assert Merge(k) in [Merge(k)];
    forall p ensures p in Collected(k.doc, [Merge(k)]) <==> p in Elements(k.index) {
      assert p in Elements(k.index) ==> p in CollectedBy(k.doc, Merge(k));
    }
    SortedIndexUnique(IndexAfterAll(k.doc, [], [Merge(k)]), k.index);
  }

  // ----- what fix() needs -----

  /** Sorted, canonical, and leading somewhere in the document. */
  ghost predicate Good(doc: Document, index: Index) {
    && SortedIndex(index)
    && forall p | p in index :: Canonical(p) && Lookup(doc, p).Some?
  }

  /** A use, and a merge of a good key over the same document, keep an index good. */
  lemma {:induction false} OperationKeepsGood(doc: Document, index: Index, op: KeyOp)
    requires Good(doc, index) && (op.Merge? ==> Good(doc, op.other.index))
    ensures Good(doc, IndexAfter(doc, index, op))
  {
    StepCollects(doc, index, op);
    forall p | p in IndexAfter(doc, index, op) ensures Canonical(p) && Lookup(doc, p).Some? {
      assert p in Elements(IndexAfter(doc, index, op));
      if p !in index && op.Use? { NormaliseKeepsMeaning(doc, op.path); }
    }
  }

  /** A mutable key as a value. */
  datatype Draft = Draft(doc: Document, index: Index)

  /** All keys made so far, over any documents, and how many calls of fix() have thrown. */
  datatype KeyWorld = KeyWorld(drafts: seq<Draft>, fixed: seq<ImmutableKey>, failures: nat)

  const NO_KEYS: KeyWorld := KeyWorld([], [], 0)

  /** Operations name keys by their place in the order of creation; one on a key that is not there is
      no operation. */
  datatype WorldOp =
    | New(doc: Document)
    | UseOf(i: nat, path: string)
    | MergeInto(i: nat, j: nat)
    | Fix(i: nat)
    | Mutate(j: nat)

  function WithDraft(w: KeyWorld, i: nat, op: KeyOp): KeyWorld
    requires i < |w.drafts|
  {
    w.(drafts := w.drafts[i := w.drafts[i].(index := IndexAfter(w.drafts[i].doc, w.drafts[i].index, op))])
  }

  ghost function WorldStep(w: KeyWorld, hash: Hash, op: WorldOp): KeyWorld {
    match op
    case New(doc) => w.(drafts := w.drafts + [Draft(doc, [])])
    case UseOf(i, path) => if i < |w.drafts| then WithDraft(w, i, Use(path)) else w
    case MergeInto(i, j) =>
      if i < |w.drafts| && j < |w.fixed| then WithDraft(w, i, Merge(w.fixed[j])) else w
    case Fix(i) =>
      if i >= |w.drafts| then w
      else if AllResolve(w.drafts[i].doc, w.drafts[i].index) then
        w.(fixed := w.fixed + [KeyOver(w.drafts[i].doc, w.drafts[i].index, hash)])
      else w.(failures := w.failures + 1)
    case Mutate(j) =>
      if j < |w.fixed| then w.(drafts := w.drafts + [Draft(w.fixed[j].doc, w.fixed[j].index)]) else w
  }

  ghost function World(hash: Hash, ops: seq<WorldOp>): KeyWorld
    decreases |ops|
  {
    if ops == [] then NO_KEYS else WorldStep(World(hash, ops[..|ops| - 1]), hash, ops[|ops| - 1])
  }

  /** What an operation of the world does to the draft named i. */
  function OnDraft(w: KeyWorld, i: nat, op: WorldOp): seq<KeyOp> {
    match op
    case UseOf(k, path) => if k == i then [Use(path)] else []
    case MergeInto(k, j) => if k == i && j < |w.fixed| then [Merge(w.fixed[j])] else []
    case _ => []
  }

  /** Everything a run does to the draft named i. */
  ghost function DraftOps(hash: Hash, ops: seq<WorldOp>, i: nat): seq<KeyOp>
    decreases |ops|
  {
    if ops == [] then []
    else
      var before := ops[..|ops| - 1];
      DraftOps(hash, before, i) +
      if i < |World(hash, before).drafts| then OnDraft(World(hash, before), i, ops[|ops| - 1]) else []
  }

  lemma {:induction false} IndexAfterSnoc(doc: Document, index: Index, ops: seq<KeyOp>, op: KeyOp)
    ensures IndexAfterAll(doc, index, ops + [op]) == IndexAfter(doc, IndexAfterAll(doc, index, ops), op)
    decreases |ops|
  {
    if ops == [] {
      assert ops + [op] == [op] && [op][1..] == [];
      assert IndexAfterAll(doc, index, [op]) == IndexAfterAll(doc, IndexAfter(doc, index, op), []);
    } else {
      IndexAfterSnoc(doc, IndexAfter(doc, index, ops[0]), ops[1..], op);
      assert (ops + [op])[1..] == ops[1..] + [op];
    }
  }

  lemma {:induction false} WorldSnoc(hash: Hash, ops: seq<WorldOp>, op: WorldOp, i: nat)
    ensures World(hash, ops + [op]) == WorldStep(World(hash, ops), hash, op)
    ensures i < |World(hash, ops).drafts| ==>
              DraftOps(hash, ops + [op], i) == DraftOps(hash, ops, i) + OnDraft(World(hash, ops), i, op)
    ensures i >= |World(hash, ops).drafts| ==> DraftOps(hash, ops + [op], i) == DraftOps(hash, ops, i) + []
  {
    assert (ops + [op])[..|ops + [op]| - 1] == ops;
  }

  lemma {:induction false} StepOnDraft(w: KeyWorld, hash: Hash, i: nat, op: WorldOp)
    requires i < |w.drafts|
    ensures var u, d, more := WorldStep(w, hash, op), w.drafts[i], OnDraft(w, i, op);
            && i < |u.drafts| && |more| <= 1
            && u.drafts[i] == if more == [] then d else d.(index := IndexAfter(d.doc, d.index, more[0]))
  {}

  lemma {:induction false} DraftOpsGrow(d: Draft, done: seq<KeyOp>, more: seq<KeyOp>)
    requires |more| <= 1 && d.index == IndexAfterAll(d.doc, [], done)
    ensures (if more == [] then d.index else IndexAfter(d.doc, d.index, more[0]))
         == IndexAfterAll(d.doc, [], done + more)
  {
    if more == [] {
      assert done + more == done;
    } else {
      assert more == [more[0]];
      IndexAfterSnoc(d.doc, [], done, more[0]);
    }
  }

  /** The draft named i is over the document and has the index that its uses and merges give. */
  ghost predicate FollowsItsOps(hash: Hash, ops: seq<WorldOp>, doc: Document, i: nat) {
    && i < |World(hash, ops).drafts|
    && World(hash, ops).drafts[i] == Draft(doc, IndexAfterAll(doc, [], DraftOps(hash, ops, i)))
  }

  lemma {:induction false} FollowsSnoc(hash: Hash, ops: seq<WorldOp>, op: WorldOp, doc: Document, i: nat)
    requires FollowsItsOps(hash, ops, doc, i)
    ensures FollowsItsOps(hash, ops + [op], doc, i)
  {
    var w := World(hash, ops);
    WorldSnoc(hash, ops, op, i);
    StepOnDraft(w, hash, i, op);
    DraftOpsGrow(w.drafts[i], DraftOps(hash, ops, i), OnDraft(w, i, op));
  }

  lemma {:induction false} NewFollows(hash: Hash, before: seq<WorldOp>, doc: Document)
    ensures FollowsItsOps(hash, before + [New(doc)], doc, |World(hash, before).drafts|)
    ensures DraftOps(hash, before + [New(doc)], |World(hash, before).drafts|) == []
  {
    var i := |World(hash, before).drafts|;
    WorldSnoc(hash, before, New(doc), i);
    NoOpsBefore(hash, before, i);
  }

  /** A draft made by New over a document ends up, however its uses and merges are interleaved with work
      on other keys, with the index that they alone give it. */
  lemma {:induction false} DraftFollowsItsOps(hash: Hash, before: seq<WorldOp>, doc: Document, after: seq<WorldOp>)
    ensures FollowsItsOps(hash, before + [New(doc)] + after, doc, |World(hash, before).drafts|)
    ensures DraftOps(hash, before + [New(doc)], |World(hash, before).drafts|) == []
    decreases |after|
  {
    var made, i := before + [New(doc)], |World(hash, before).drafts|;
    NewFollows(hash, before, doc);
    if after == [] {
      NothingMore(made);
    } else {
      var shorter, op := made + after[..|after| - 1], after[|after| - 1];
      DraftFollowsItsOps(hash, before, doc, after[..|after| - 1]);
      FollowsSnoc(hash, shorter, op, doc, i);
      SplitLast(made, after);
    }
  }

  lemma {:induction false} NoOpsBefore(hash: Hash, ops: seq<WorldOp>, i: nat)
    requires i >= |World(hash, ops).drafts|
    ensures DraftOps(hash, ops, i) == []
    decreases |ops|
  {
    if ops == [] {
    } else {
      NoOpsBefore(hash, ops[..|ops| - 1], i);
    }
  }

  /** Fixing it gives the key over that index, or throws if some path does not resolve; mutating that
      key gives a draft with the same document and index. */
  lemma {:induction false} FixAndMutate(w: KeyWorld, hash: Hash, i: nat)
    requires i < |w.drafts|
    ensures var u, d := WorldStep(w, hash, Fix(i)), w.drafts[i];
            && u.drafts == w.drafts
            && (!AllResolve(d.doc, d.index) ==> u.fixed == w.fixed && u.failures == w.failures + 1)
            && (AllResolve(d.doc, d.index) ==>
                  && u.failures == w.failures
                  && u.fixed == w.fixed + [ImmutableKey(d.doc, d.index, hash(KeyStream(d.doc, d.index)))]
                  && WorldStep(u, hash, Mutate(|w.fixed|)).drafts == w.drafts + [d])
  {}

  /** Only keys over the draft's own document are merged into it. */
  predicate SameDocument(w: KeyWorld, op: WorldOp) {
    op.MergeInto? && op.i < |w.drafts| && op.j < |w.fixed| ==> w.drafts[op.i].doc == w.fixed[op.j].doc
  }

  ghost predicate SameDocumentMerges(hash: Hash, ops: seq<WorldOp>) {
    forall n :: 0 <= n < |ops| ==> SameDocument(World(hash, ops[..n]), ops[n])
  }

  ghost predicate GoodWorld(w: KeyWorld, hash: Hash) {
    && (forall d | d in w.drafts :: Good(d.doc, d.index))
    && (forall k | k in w.fixed :: Good(k.doc, k.index) && Constructed(k, hash))
    && w.failures == 0
  }

  lemma {:induction false} WorldStepKeepsGood(w: KeyWorld, hash: Hash, op: WorldOp)
    requires GoodWorld(w, hash) && SameDocument(w, op)
    ensures GoodWorld(WorldStep(w, hash, op), hash)
  {
    match op
    case UseOf(i, path) =>
      if i < |w.drafts| { OperationKeepsGood(w.drafts[i].doc, w.drafts[i].index, Use(path)); }
    case MergeInto(i, j) =>
      if i < |w.drafts| && j < |w.fixed| {
        OperationKeepsGood(w.drafts[i].doc, w.drafts[i].index, Merge(w.fixed[j]));
      }
    case _ =>
  }

  /** In every run of making keys, use(), merge() of keys over the same document, fix() and mutate(),
      over any number of documents: every index is sorted, canonical and resolves in its document, and
      no fix() has thrown. */
  lemma {:induction false} ReachableIsGood(hash: Hash, ops: seq<WorldOp>)
    requires SameDocumentMerges(hash, ops)
    ensures GoodWorld(World(hash, ops), hash)
    decreases |ops|
  {
    if ops == [] {
    } else {
      var before, op := ops[..|ops| - 1], ops[|ops| - 1];
      forall n | 0 <= n < |before| ensures SameDocument(World(hash, before[..n]), before[n]) {
        assert before[..n] == ops[..n];
        assert SameDocument(World(hash, ops[..n]), ops[n]);
      }
      ReachableIsGood(hash, before);
      assert SameDocument(World(hash, ops[..|ops| - 1]), ops[|ops| - 1]);
      WorldStepKeepsGood(World(hash, before), hash, op);
    }
  }

  /** merge() does not look at the other document: after any run, fix() succeeds exactly when every
      merged path leads somewhere in this one. */
  lemma {:induction false} FixSucceedsIff(doc: Document, ops: seq<KeyOp>)
    ensures AllResolve(doc, IndexAfterAll(doc, [], ops)) <==>
            forall op | op in ops && op.Merge? :: AllResolve(doc, op.other.index)
  {
    var index := IndexAfterAll(doc, [], ops);
    RunCollects(doc, [], ops);
    if forall op | op in ops && op.Merge? :: AllResolve(doc, op.other.index) {
      forall p | p in index ensures Lookup(doc, p).Some? {
        assert p in Elements(index);
        var op :| op in ops && p in CollectedBy(doc, op);
        if op.Use? { NormaliseKeepsMeaning(doc, op.path); }
      }
    }
    if AllResolve(doc, index) {
      forall op, p | op in ops && op.Merge? && p in op.other.index ensures Lookup(doc, p).Some? {
        assert p in CollectedBy(doc, op);
        assert p in Elements(index);
      }
    }
  }

  /** A key merged from another document can make fix() throw. */
  lemma {:induction false} ForeignMergeCanFail(hash: Hash)
    ensures exists k: ImmutableKey :: Constructed(k, hash)
              && !AllResolve(Null, IndexAfterAll(Null, [], [Merge(k)]))
  {
    var doc: Document := Object([Member("a", Null)]);
    var path := "/a";
    assert Dissect(path) == Dissect(path[1..]) == ["a"] by { DissectPrinted(["a"]); assert Joined(["a"]) == "/a"; }
    assert Resolve(doc, ["a"]) == Resolve(Null, []);
    assert Subvalue(Null, "a").None?;
    var k := ImmutableKey(doc, [path], hash(KeyStream(doc, [path])));
    FixSucceedsIff(Null, [Merge(k)]);
    assert Merge(k) in [Merge(k)] && path in k.index;
    assert Constructed(k, hash);
  }
}
