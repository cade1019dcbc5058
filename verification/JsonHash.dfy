/** jsonext::update_sha256 and its helpers: they feed a hash context in place. */
module JsonHash {
  import opened TextOrder
  import opened Json
  import opened JsonProofs
  import opened Collections

  const DIGEST_LENGTH: nat := 32

  type Digest = d: string | |d| == DIGEST_LENGTH witness seq(DIGEST_LENGTH, _ => '\0')

  /** SHA-256 as a function of everything fed, section 6.2 of FIPS 180-4; nothing is assumed of it. */
  type Hash = string -> Digest

  /** SHA256_CTX between SHA256_Init and SHA256_Final. */
  class Sha256Context {
    var fed: string

    constructor ()
      ensures fed == ""
    {
      fed := "";
    }

    method Update(data: string)
      modifies this
      ensures fed == old(fed) + data
    {
      fed := fed + data;
    }

    method Final(hash: Hash) returns (digest: Digest)
      ensures digest == hash(fed)
    {
      digest := hash(fed);
    }
  }

  /** The contract of std::sort under by_key. */
  ghost predicate InKeyOrder(ms: seq<Member>) {
    forall i, j :: 0 <= i < j < |ms| ==> !Less(ms[j].key, ms[i].key)
  }

  method SortByKey(ms: seq<Member>) returns (sorted: seq<Member>)
    ensures multiset(sorted) == multiset(ms) && InKeyOrder(sorted)
  {
    sorted := [];
    for i := 0 to |ms|
      invariant multiset(sorted) == multiset(ms[..i]) && InKeyOrder(sorted)
    {
      var p := |sorted|;
      while p > 0 && Less(ms[i].key, sorted[p - 1].key)
        invariant 0 <= p <= |sorted|
        invariant forall k :: p <= k < |sorted| ==> Less(ms[i].key, sorted[k].key)
      {
        p := p - 1;
      }
      PlaceKeepsOrder(sorted, ms[i], p);
      PlaceKeepsElements(sorted, ms[i], p);
      sorted := sorted[..p] + [ms[i]] + sorted[p..];
      assert ms[..i + 1] == ms[..i] + [ms[i]];
    }
    assert ms[..|ms|] == ms;
  }

  lemma {:induction false} PlaceKeepsOrder(s: seq<Member>, m: Member, p: nat)
    requires InKeyOrder(s) && p <= |s|
    requires p > 0 ==> !Less(m.key, s[p - 1].key)
    requires forall k :: p <= k < |s| ==> Less(m.key, s[k].key)
    ensures InKeyOrder(s[..p] + [m] + s[p..])
  {
    var r := s[..p] + [m] + s[p..];
    forall k | 0 <= k < p ensures !Less(m.key, s[k].key) {
      if k < p - 1 && Less(m.key, s[k].key) {
        LessConnected(s[k].key, s[p - 1].key);
        LessTransitive(m.key, s[k].key, s[p - 1].key);
      }
    }
    forall k | p <= k < |s| ensures !Less(s[k].key, m.key) {
      LessAsymmetric(s[k].key, m.key);
    }
    forall i, j | 0 <= i < j < |r| ensures !Less(r[j].key, r[i].key) {
      var before := if j < p then s[j] else if j == p then m else s[j - 1];
      assert r[j] == before;
      assert r[i] == if i < p then s[i] else if i == p then m else s[i - 1];
    }
  }

  lemma {:induction false} PlaceKeepsElements(s: seq<Member>, m: Member, p: nat)
    requires p <= |s|
    ensures multiset(s[..p] + [m] + s[p..]) == multiset(s) + multiset{m}
  {
    assert s == s[..p] + s[p..];
  }

  lemma {:induction false} SortingKeepsMembers(ms: seq<Member>, sorted: seq<Member>)
    requires multiset(sorted) == multiset(ms)
    ensures forall m :: m in ms <==> m in sorted
  {
    forall m ensures m in ms <==> m in sorted {
      assert m in ms <==> m in multiset(ms);
      assert m in sorted <==> m in multiset(sorted);
    }
  }

  /** Whatever sorting algorithm is used, distinct keys leave it no choice. */
  lemma {:induction false} SortedMembersGiveEntries(ms: seq<Member>, sorted: seq<Member>)
    requires DistinctKeys(ms) && multiset(sorted) == multiset(ms) && InKeyOrder(sorted)
    ensures Entries(sorted) == SortEntries(Entries(ms))
  {
    SortingKeepsMembers(ms, sorted);
    SubsetEntries(sorted, ms);
    SubsetEntries(ms, sorted);
    SortKeepsElements(Entries(ms));
    EntriesStrictlySorted(ms, sorted);
    EntriesDistinct(ms);
    SortSorts(Entries(ms));
    SortedUnique(Entries(sorted), SortEntries(Entries(ms)), EntryKey);
  }

  lemma {:induction false} SubsetEntries(ms: seq<Member>, ns: seq<Member>)
    requires forall m | m in ms :: m in ns
    ensures forall e | e in Entries(ms) :: e in Entries(ns)
  {
    forall e | e in Entries(ms) ensures e in Entries(ns) {
      var i :| 0 <= i < |ms| && Entries(ms)[i] == e;
      EntryAt(ms, i);
      assert ms[i] in ns;
      var j :| 0 <= j < |ns| && ns[j] == ms[i];
      EntryAt(ns, j);
    }
  }

  lemma {:induction false} EntriesStrictlySorted(ms: seq<Member>, sorted: seq<Member>)
    requires DistinctKeys(ms) && multiset(sorted) == multiset(ms) && InKeyOrder(sorted)
    ensures SortedBy(Entries(sorted), EntryKey)
  {
    forall i, j | 0 <= i < j < |sorted| ensures Less(Entries(sorted)[i].key, Entries(sorted)[j].key) {
      EntryAt(sorted, i);
      EntryAt(sorted, j);
      DistinctAfterSorting(ms, sorted, i, j);
      LessConnected(sorted[i].key, sorted[j].key);
    }
  }

  lemma {:induction false} DistinctAfterSorting(ms: seq<Member>, sorted: seq<Member>, i: nat, j: nat)
    requires DistinctKeys(ms) && multiset(sorted) == multiset(ms)
    requires i < j < |sorted|
    ensures sorted[i].key != sorted[j].key
  {
    SortingKeepsMembers(ms, sorted);
    assert sorted[i] in ms && sorted[j] in ms;
    var a :| 0 <= a < |ms| && ms[a] == sorted[i];
    OccursOnce(ms, a);
    if sorted[i] == sorted[j] { OccursTwice(sorted, i, j); }
  }

  // ----- one more step of each loop -----

  lemma {:induction false} FeedSnoc(es: seq<Entry>, e: Entry)
    ensures Feed(es + [e]) == Feed(es) + (e.key + e.bytes)
  {
    if es == [] {
      assert es + [e] == [e] && [e][1..] == [];
      assert Feed([e]) == e.key + e.bytes + Feed([]);
    } else {
      FeedSnoc(es[1..], e);
      assert (es + [e])[1..] == es[1..] + [e];
      Associate(es[0].key + es[0].bytes, Feed(es[1..]), e.key + e.bytes);
    }
  }

  lemma {:induction false} EntriesSnoc(ms: seq<Member>, m: Member)
    ensures Entries(ms + [m]) == Entries(ms) + [Entry(m.key, Stream(m.val))]
  {
    if ms == [] {
      assert ms + [m] == [m] && [m][1..] == [];
    } else {
      EntriesSnoc(ms[1..], m);
      assert (ms + [m])[1..] == ms[1..] + [m];
    }
  }

  lemma {:induction false} StreamAllSnoc(elems: seq<Json>, v: Json)
    ensures StreamAll(elems + [v]) == StreamAll(elems) + Stream(v)
  {
    if elems == [] {
      assert elems + [v] == [v] && [v][1..] == [];
    } else {
      StreamAllSnoc(elems[1..], v);
      assert (elems + [v])[1..] == elems[1..] + [v];
      Associate(Stream(elems[0]), StreamAll(elems[1..]), Stream(v));
    }
  }

  lemma {:induction false} FeedOneMore(before: string, ms: seq<Member>, i: nat)
    requires i < |ms|
    ensures before + Feed(Entries(ms[..i])) + (ms[i].key + Stream(ms[i].val))
         == before + Feed(Entries(ms[..i + 1]))
  {
    assert ms[..i + 1] == ms[..i] + [ms[i]];
    EntriesSnoc(ms[..i], ms[i]);
    FeedSnoc(Entries(ms[..i]), Entry(ms[i].key, Stream(ms[i].val)));
    Associate(before, Feed(Entries(ms[..i])), ms[i].key + Stream(ms[i].val));
  }

  lemma {:induction false} StreamOneMore(before: string, elems: seq<Json>, i: nat)
    requires i < |elems|
    ensures before + StreamAll(elems[..i]) + Stream(elems[i]) == before + StreamAll(elems[..i + 1])
  {
    assert elems[..i + 1] == elems[..i] + [elems[i]];
    StreamAllSnoc(elems[..i], elems[i]);
    Associate(before, StreamAll(elems[..i]), Stream(elems[i]));
  }

  // ----- the update functions -----

  method UpdateBool(ctx: Sha256Context, val: bool)
    modifies ctx
    ensures ctx.fed == old(ctx.fed) + Stream(Bool(val))
  {
    ctx.Update([if val then '1' else '0']);
  }

  method UpdateArray(ctx: Sha256Context, a: Document)
    requires a.Array?
    modifies ctx
    ensures ctx.fed == old(ctx.fed) + Stream(a)
    decreases a, 0
  {
    for i := 0 to |a.elems|
      invariant ctx.fed == old(ctx.fed) + StreamAll(a.elems[..i])
    {
      assert a.elems[i] in a.elems;
      UpdateSha256(ctx, a.elems[i]);
      StreamOneMore(old(ctx.fed), a.elems, i);
    }
    assert a.elems[..|a.elems|] == a.elems;
  }

  method UpdateObject(ctx: Sha256Context, o: Document)
    requires o.Object?
    modifies ctx
    ensures ctx.fed == old(ctx.fed) + Stream(o)
    decreases o, 1
  {
    var pointers := SortByKey(o.members);
    SortingKeepsMembers(o.members, pointers);
    for i := 0 to |pointers|
      invariant ctx.fed == old(ctx.fed) + Feed(Entries(pointers[..i]))
    {
      assert pointers[i] in o.members;
      UpdateMember(ctx, o, pointers[i]);
      FeedOneMore(old(ctx.fed), pointers, i);
    }
    assert pointers[..|pointers|] == pointers;
    SortedMembersGiveEntries(o.members, pointers);
  }

  /** The body of the second loop of update_object. */
  method UpdateMember(ctx: Sha256Context, ghost o: Document, m: Member)
    requires o.Object? && m in o.members
    modifies ctx
    ensures ctx.fed == old(ctx.fed) + (m.key + Stream(m.val))
    decreases o, 0
  {
    ctx.Update(m.key);
    UpdateSha256(ctx, m.val);
  }

  method UpdateSha256(ctx: Sha256Context, val: Document)
    modifies ctx
    ensures ctx.fed == old(ctx.fed) + Stream(val)
    decreases val, 2
  {
    match val
    case Array(_) => UpdateArray(ctx, val);
    case Null => ctx.Update("null");
    case Bool(b) => UpdateBool(ctx, b);
    case Signed(i) => ctx.Update(LittleEndian(TwosComplement(i), 8));
    case Unsigned(u) => ctx.Update(LittleEndian(u, 8));
    case Double(d) => ctx.Update(LittleEndian(d, 8));
    case String(s) => ctx.Update(s);
    case Object(_) => UpdateObject(ctx, val);
  }
}
