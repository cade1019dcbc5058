/** Equality of JSON values is an equivalence apart from NaN; equal values feed the same bytes apart
    from the sign of zero; and values of the same shape feed the same bytes only if they are equal
    bit for bit. */
module JsonProofs {
  import opened TextOrder
  import opened Json

  // ----- members of an object, paired by key -----

  function Keys(ms: seq<Member>): set<string> { set m | m in ms :: m.key }

  lemma {:induction false} KeysCount(ms: seq<Member>)
    requires DistinctKeys(ms)
    ensures |Keys(ms)| == |ms|
  {
    if ms == [] {
    } else {
      var rest := ms[1..];
      KeysCount(rest);
      assert ms == [ms[0]] + rest;
      assert Keys(ms) == {ms[0].key} + Keys(rest);
      assert ms[0].key !in Keys(rest);
    }
  }

  lemma {:induction false} SubsetOfSameSize<T>(a: set<T>, b: set<T>)
    requires a <= b && |a| == |b|
    ensures a == b
  {
    assert |b - a| == |b| - |a|;
  }

  lemma {:induction false} FindKeyAt(ms: seq<Member>, j: nat)
    requires DistinctKeys(ms) && j < |ms|
    ensures FindKey(ms, ms[j].key) == j
  {}

  /** The loop in object equality looks up one side's keys only; equal sizes do the rest. */
  lemma {:induction false} PartnerOf(ms: seq<Member>, ns: seq<Member>, rule: Rule, j: nat) returns (i: nat)
    requires DistinctKeys(ms) && DistinctKeys(ns)
    requires Same(Object(ms), Object(ns), rule)
    requires j < |ns|
    ensures i < |ms| && ms[i].key == ns[j].key && Same(ms[i].val, ns[j].val, rule)
  {
    KeysCount(ms);
    KeysCount(ns);
    forall k | k in Keys(ms) ensures k in Keys(ns) {
      var i :| 0 <= i < |ms| && ms[i].key == k;
      assert SameMember(ms[i], ns, rule);
      assert ns[FindKey(ns, k)] in ns;
    }
    SubsetOfSameSize(Keys(ms), Keys(ns));
    assert ns[j].key in Keys(ns);
    i :| 0 <= i < |ms| && ms[i].key == ns[j].key;
    assert SameMember(ms[i], ns, rule);
    FindKeyAt(ns, j);
  }

  // ----- when values are equal -----

  /** The 64 bits of a double: sign, 11 bits of exponent, 52 bits of fraction. A NaN has all bits of
      the exponent and some of the fraction; a zero has none of either. */
  lemma {:induction false} DoubleClasses(d: Word)
    ensures var exponent, fraction := d / 0x10_0000_0000_0000 % 0x800, d % 0x10_0000_0000_0000;
            && (IsNaN(d) <==> exponent == 0x7FF && fraction != 0)
            && (IsZero(d) <==> exponent == 0 && fraction == 0)
            && (IsZero(d) <==> d == 0 || d == TWO_63)
  {
    var high, exponent := d / TWO_63, d / 0x10_0000_0000_0000 % 0x800;
    var fraction := d % 0x10_0000_0000_0000;
    assert d == high * TWO_63 + exponent * 0x10_0000_0000_0000 + fraction;
  }

  function IntegerOf(v: Json): int
    requires v.Signed? || v.Unsigned?
  {
    match v
    case Signed(i) => i
    case Unsigned(u) => u
  }

  /** Integers are equal when their values are, whatever their kinds. */
  lemma {:induction false} IntegersSame(a: Json, b: Json, rule: Rule)
    requires (a.Signed? || a.Unsigned?) && (b.Signed? || b.Unsigned?) && !rule.Shape?
    ensures Same(a, b, rule) <==> IntegerOf(a) == IntegerOf(b)
  {}

  ghost predicate HasPartner(m: Member, ns: seq<Member>, rule: Rule) {
    exists j :: 0 <= j < |ns| && ns[j].key == m.key && Same(m.val, ns[j].val, rule)
  }

  /** Objects are equal when they have equally many members and every member of one has an equal one
      under the same key in the other, at any place. */
  lemma {:induction false} ObjectsSameIff(ms: seq<Member>, ns: seq<Member>, rule: Rule)
    requires WellFormed(Object(ms)) && WellFormed(Object(ns))
    ensures Same(Object(ms), Object(ns), rule) <==>
            |ms| == |ns| && forall m | m in ms :: HasPartner(m, ns, rule)
  {
    forall m | m in ms ensures SameMember(m, ns, rule) <==> HasPartner(m, ns, rule) {
      forall j | 0 <= j < |ns| && ns[j].key == m.key ensures FindKey(ns, m.key) == j { FindKeyAt(ns, j); }
    }
    if Same(Object(ms), Object(ns), rule) {
      forall m | m in ms ensures SameMember(m, ns, rule) {
        var i :| 0 <= i < |ms| && ms[i] == m;
        assert SameMember(ms[i], ns, rule);
      }
    }
  }

  // ----- equality as a relation -----

  /** No double inside is a NaN. */
  predicate NaNFree(v: Json)
    decreases v
  {
    match v
    case Double(d) => !IsNaN(d)
    case Array(elems) => forall i :: 0 <= i < |elems| ==> NaNFree(elems[i])
    case Object(ms) => forall i :: 0 <= i < |ms| ==> NaNFree(ms[i].val)
    case _ => true
  }

  /** A value equals itself exactly when it holds no NaN; by bits and by shape it always does. */
  lemma {:induction false} SameReflexive(v: Json, rule: Rule)
    requires WellFormed(v)
    ensures Same(v, v, rule) <==> !rule.Ieee? || NaNFree(v)
    decreases v
  {
    match v
    case Array(elems) =>
      forall i | 0 <= i < |elems|
        ensures Same(elems[i], elems[i], rule) <==> !rule.Ieee? || NaNFree(elems[i])
      {
        SameReflexive(elems[i], rule);
      }
    case Object(ms) =>
      forall i | 0 <= i < |ms|
        ensures SameMember(ms[i], ms, rule) <==> !rule.Ieee? || NaNFree(ms[i].val)
      {
        FindKeyAt(ms, i);
        assert ms[i] in ms;
        SameReflexive(ms[i].val, rule);
      }
    case _ =>
  }

  lemma {:induction false} SameSymmetric(a: Json, b: Json, rule: Rule)
    requires WellFormed(a) && WellFormed(b) && Same(a, b, rule)
    ensures Same(b, a, rule)
    decreases a
  {
    match (a, b)
    case (Array(xs), Array(ys)) =>
      forall i | 0 <= i < |xs| ensures Same(ys[i], xs[i], rule) {
        SameSymmetric(xs[i], ys[i], rule);
      }
    case (Object(ms), Object(ns)) =>
      forall j | 0 <= j < |ns| ensures SameMember(ns[j], ms, rule) {
        var i := PartnerOf(ms, ns, rule, j);
        FindKeyAt(ms, i);
        assert ms[i] in ms && ns[j] in ns;
        SameSymmetric(ms[i].val, ns[j].val, rule);
      }
    case _ =>
  }

  lemma {:induction false} SameTransitive(a: Json, b: Json, c: Json, rule: Rule)
    requires !rule.Shape? && Same(a, b, rule) && Same(b, c, rule)
    ensures Same(a, c, rule)
    decreases a
  {
    match (a, b, c)
    case (Array(xs), Array(ys), Array(zs)) =>
      forall i | 0 <= i < |xs| ensures Same(xs[i], zs[i], rule) {
        SameTransitive(xs[i], ys[i], zs[i], rule);
      }
    case (Object(ms), Object(ns), Object(os)) =>
      forall i | 0 <= i < |ms| ensures SameMember(ms[i], os, rule) {
        assert SameMember(ms[i], ns, rule);
        var j := FindKey(ns, ms[i].key);
        assert SameMember(ns[j], os, rule);
        var k := FindKey(os, ms[i].key);
        SameTransitive(ms[i].val, ns[j].val, os[k].val, rule);
      }
    case _ =>
  }

  // ----- what is fed -----

  lemma {:induction false} EntryAt(ms: seq<Member>, i: nat)
    requires i < |ms|
    ensures Entries(ms)[i] == Entry(ms[i].key, Stream(ms[i].val))
  {
    if i == 0 {
    } else {
      EntryAt(ms[1..], i - 1);
    }
  }

  ghost predicate DistinctEntries(es: seq<Entry>) {
    forall i, j :: 0 <= i < j < |es| ==> es[i].key != es[j].key
  }

  lemma {:induction false} EntriesDistinct(ms: seq<Member>)
    requires DistinctKeys(ms)
    ensures DistinctEntries(Entries(ms))
  {
    forall i | 0 <= i < |ms| ensures Entries(ms)[i].key == ms[i].key { EntryAt(ms, i); }
  }

  lemma {:induction false} SortKeepsElements(es: seq<Entry>)
    ensures SameElements(es, SortEntries(es)) && |SortEntries(es)| == |es|
  {
    forall e ensures e in es <==> e in SortEntries(es) {
      assert e in es <==> e in multiset(es);
      assert e in SortEntries(es) <==> e in multiset(SortEntries(es));
    }
    assert |multiset(es)| == |es| && |multiset(SortEntries(es))| == |SortEntries(es)|;
  }

  lemma {:induction false} SortSorts(es: seq<Entry>)
    requires DistinctEntries(es)
    ensures SortedBy(SortEntries(es), EntryKey)
  {
    if es == [] {
    } else {
      SortSorts(es[1..]);
      SortKeepsElements(es[1..]);
      forall y | y in SortEntries(es[1..]) ensures EntryKey(y) != EntryKey(es[0]) {
        assert y in es[1..];
      }
      InsertSorted(SortEntries(es[1..]), es[0], EntryKey);
    }
  }

  lemma {:induction false} FeedLength(es: seq<Entry>, fs: seq<Entry>)
    requires |es| == |fs|
    requires forall i :: 0 <= i < |es| ==> es[i].key == fs[i].key && |es[i].bytes| == |fs[i].bytes|
    ensures |Feed(es)| == |Feed(fs)|
    ensures Feed(es) == Feed(fs) ==> es == fs
  {
    if es == [] {
    } else {
      FeedLength(es[1..], fs[1..]);
      if Feed(es) == Feed(fs) {
        var n, b := |es[0].key|, |es[0].bytes|;
        assert Feed(es) == es[0].key + es[0].bytes + Feed(es[1..]);
        assert Feed(fs) == fs[0].key + fs[0].bytes + Feed(fs[1..]);
        assert es[0].bytes == Feed(es)[n..n + b] == Feed(fs)[n..n + b] == fs[0].bytes;
        assert Feed(es[1..]) == Feed(es)[n + b..] == Feed(fs)[n + b..] == Feed(fs[1..]);
        assert es == [es[0]] + es[1..] && fs == [fs[0]] + fs[1..];
      }
    }
  }

  /** Members in any order, equal by key, give the same sorted entries when their bytes agree. */
  lemma {:induction false} SameMembersSameEntries(ms: seq<Member>, ns: seq<Member>)
    requires WellFormed(Object(ms)) && WellFormed(Object(ns)) && Same(Object(ms), Object(ns), Bits)
    requires forall i, j | 0 <= i < |ms| && 0 <= j < |ns| && Same(ms[i].val, ns[j].val, Bits)
               :: Stream(ms[i].val) == Stream(ns[j].val)
    ensures SortEntries(Entries(ms)) == SortEntries(Entries(ns))
  {
    var es, fs := Entries(ms), Entries(ns);
    forall e | e in es ensures e in fs {
      var i :| 0 <= i < |es| && es[i] == e;
      assert SameMember(ms[i], ns, Bits);
      EntryAt(ms, i);
      EntryAt(ns, FindKey(ns, ms[i].key));
    }
    forall f | f in fs ensures f in es {
      var j :| 0 <= j < |fs| && fs[j] == f;
      var i := PartnerOf(ms, ns, Bits, j);
      EntryAt(ms, i);
      EntryAt(ns, j);
    }
    EntriesDistinct(ms);
    EntriesDistinct(ns);
    SortSorts(es);
    SortSorts(fs);
    SortKeepsElements(es);
    SortKeepsElements(fs);
    SortedUnique(SortEntries(es), SortEntries(fs), EntryKey);
  }

  lemma {:induction false} StreamAllCong(xs: seq<Json>, ys: seq<Json>)
    requires |xs| == |ys|
    requires forall i :: 0 <= i < |xs| ==> Stream(xs[i]) == Stream(ys[i])
    ensures StreamAll(xs) == StreamAll(ys)
  {
    if xs == [] {
    } else {
      StreamAllCong(xs[1..], ys[1..]);
    }
  }

  /** Values equal up to member order and integer kind feed exactly the same bytes. */
  lemma {:induction false} SameBitsSameStream(a: Json, b: Json)
    requires WellFormed(a) && WellFormed(b) && Same(a, b, Bits)
    ensures Stream(a) == Stream(b)
    decreases a
  {
    match (a, b)
    case (Array(xs), Array(ys)) =>
      forall i | 0 <= i < |xs| ensures Stream(xs[i]) == Stream(ys[i]) {
        SameBitsSameStream(xs[i], ys[i]);
      }
      StreamAllCong(xs, ys);
    case (Object(ms), Object(ns)) =>
      forall i, j | 0 <= i < |ms| && 0 <= j < |ns| && Same(ms[i].val, ns[j].val, Bits)
        ensures Stream(ms[i].val) == Stream(ns[j].val)
      {
        assert ms[i] in ms && ns[j] in ns;
        SameBitsSameStream(ms[i].val, ns[j].val);
      }
      SameMembersSameEntries(ms, ns);
    case _ =>
  }

  lemma {:induction false} PermutedMembers(ms: seq<Member>, ns: seq<Member>)
    requires WellFormed(Object(ms)) && multiset(ms) == multiset(ns)
    ensures WellFormed(Object(ns)) && forall m :: m in ms <==> m in ns
  {
    assert |multiset(ms)| == |ms| && |multiset(ns)| == |ns|;
    forall m ensures m in ms <==> m in ns {
      assert m in ms <==> m in multiset(ms);
      assert m in ns <==> m in multiset(ns);
    }
    KeysCount(ms);
    assert Keys(ms) == Keys(ns);
    ManyKeysDistinct(ns);
  }

  lemma {:induction false} KeysAtMost(ms: seq<Member>)
    ensures |Keys(ms)| <= |ms|
  {
    if ms == [] {
    } else {
      KeysAtMost(ms[1..]);
      assert ms == [ms[0]] + ms[1..];
      assert Keys(ms) == {ms[0].key} + Keys(ms[1..]);
    }
  }

  lemma {:induction false} ManyKeysDistinct(ms: seq<Member>)
    requires |Keys(ms)| == |ms|
    ensures DistinctKeys(ms)
  {
    if ms == [] {
    } else {
      KeysAtMost(ms[1..]);
      assert ms == [ms[0]] + ms[1..];
      assert Keys(ms) == {ms[0].key} + Keys(ms[1..]);
      assert ms[0].key !in Keys(ms[1..]);
      ManyKeysDistinct(ms[1..]);
      forall j | 1 <= j < |ms| ensures ms[j].key != ms[0].key { assert ms[j] in ms[1..]; }
    }
  }

  /** Member order does not matter: any permutation of the members of an object is equal to it, unless
      it holds a NaN, and feeds the same bytes. */
  lemma {:induction false} MemberOrderIrrelevant(ms: seq<Member>, ns: seq<Member>, rule: Rule)
    requires WellFormed(Object(ms)) && multiset(ms) == multiset(ns)
    requires rule.Ieee? ==> NaNFree(Object(ms))
    ensures WellFormed(Object(ns)) && Same(Object(ms), Object(ns), rule)
    ensures Stream(Object(ms)) == Stream(Object(ns))
  {
    PermutedMembers(ms, ns);
    forall m | m in ms ensures HasPartner(m, ns, rule) && HasPartner(m, ns, Bits) {
      SameReflexive(m.val, rule);
      SameReflexive(m.val, Bits);
      var j :| 0 <= j < |ns| && ns[j] == m;
    }
    assert |multiset(ms)| == |ms| && |multiset(ns)| == |ns|;
    ObjectsSameIff(ms, ns, rule);
    ObjectsSameIff(ms, ns, Bits);
    SameBitsSameStream(Object(ms), Object(ns));
  }

  lemma {:induction false} EmptyFeedsNothing()
    ensures Stream(Object([])) == "" && Stream(Array([])) == ""
  {}

  /** The stream of an object in terms of its members: first the key and the value whose key comes
      first, then the stream of the object without that member. */
  lemma {:induction false} LeastMemberFirst(ms: seq<Member>, i: nat)
    requires DistinctKeys(ms) && i < |ms|
    requires forall m | m in ms && m != ms[i] :: Less(ms[i].key, m.key)
    ensures Stream(Object(ms)) == ms[i].key + Stream(ms[i].val) + Stream(Object(ms[..i] + ms[i + 1..]))
  {
    var rest, e := ms[..i] + ms[i + 1..], Entry(ms[i].key, Stream(ms[i].val));
    LeastEntryFirst(ms, i);
    FeedCons(e, SortEntries(Entries(rest)));
    StreamOfObject(ms);
    StreamOfObject(rest);
  }

  lemma {:induction false} StreamOfObject(ms: seq<Member>)
    ensures Stream(Object(ms)) == Feed(SortEntries(Entries(ms)))
  {}

  lemma {:induction false} FeedCons(e: Entry, es: seq<Entry>)
    ensures Feed([e] + es) == e.key + e.bytes + Feed(es)
  {
    assert ([e] + es)[1..] == es;
  }

  lemma {:induction false} LeastEntryFirst(ms: seq<Member>, i: nat)
    requires DistinctKeys(ms) && i < |ms|
    requires forall m | m in ms && m != ms[i] :: Less(ms[i].key, m.key)
    ensures SortEntries(Entries(ms))
         == [Entry(ms[i].key, Stream(ms[i].val))] + SortEntries(Entries(ms[..i] + ms[i + 1..]))
  {
    var rest, e := ms[..i] + ms[i + 1..], Entry(ms[i].key, Stream(ms[i].val));
    var es, fs := SortEntries(Entries(ms)), SortEntries(Entries(rest));
    assert DistinctKeys(rest);
    SortedEntriesOf(ms);
    SortedEntriesOf(rest);
    WithoutMember(ms, i);
    forall f | f in fs ensures Less(e.key, f.key) { LeastKey(ms, i, f); }
    SortedCons(e, fs);
    SortedUnique(es, [e] + fs, EntryKey);
  }

  lemma {:induction false} SortedCons(e: Entry, es: seq<Entry>)
    requires SortedBy(es, EntryKey) && forall f | f in es :: Less(e.key, f.key)
    ensures SortedBy([e] + es, EntryKey)
  {}

  lemma {:induction false} SortedEntriesOf(ms: seq<Member>)
    requires DistinctKeys(ms)
    ensures var es := SortEntries(Entries(ms)); SortedBy(es, EntryKey) && forall e :: e in Entries(ms) <==> e in es
  {
    EntriesDistinct(ms);
    SortSorts(Entries(ms));
    SortKeepsElements(Entries(ms));
  }

  lemma {:induction false} WithoutMember(ms: seq<Member>, i: nat)
    requires DistinctKeys(ms) && i < |ms|
    ensures var rest := ms[..i] + ms[i + 1..];
            && (forall m :: m in ms <==> m == ms[i] || m in rest) && ms[i] !in rest
            && (forall f :: f in Entries(ms) <==>
                  f == Entry(ms[i].key, Stream(ms[i].val)) || f in Entries(rest))
  {
    var rest := ms[..i] + ms[i + 1..];
    assert ms == ms[..i] + [ms[i]] + ms[i + 1..];
    EntryAt(ms, i);
    forall f ensures f in Entries(ms) <==> f == Entry(ms[i].key, Stream(ms[i].val)) || f in Entries(rest) {
      EntryOfSome(ms, f);
      EntryOfSome(rest, f);
    }
  }

  lemma {:induction false} EntryOfSome(ms: seq<Member>, f: Entry)
    ensures f in Entries(ms) <==> exists m :: m in ms && f == Entry(m.key, Stream(m.val))
  {
    if f in Entries(ms) {
      var j :| 0 <= j < |ms| && Entries(ms)[j] == f;
      EntryAt(ms, j);
      assert ms[j] in ms;
    }
    forall m | m in ms && f == Entry(m.key, Stream(m.val)) ensures f in Entries(ms) {
      var j :| 0 <= j < |ms| && ms[j] == m;
      EntryAt(ms, j);
      assert Entries(ms)[j] == f;
    }
  }

  lemma {:induction false} LeastKey(ms: seq<Member>, i: nat, f: Entry)
    requires DistinctKeys(ms) && i < |ms| && f in Entries(ms[..i] + ms[i + 1..])
    requires forall m | m in ms && m != ms[i] :: Less(ms[i].key, m.key)
    ensures Less(ms[i].key, f.key)
  {
    var rest := ms[..i] + ms[i + 1..];
    EntryOfSome(rest, f);
    var m :| m in rest && f == Entry(m.key, Stream(m.val));
    WithoutMember(ms, i);
    assert m in ms && m != ms[i];
  }

  // ----- what equal values can still differ in -----

  /** The number that a run of bytes spells, least significant first. */
  function ReadLittleEndian(s: string): nat {
    if s == "" then 0 else s[0] as int + 256 * ReadLittleEndian(s[1..])
  }

  /** Reading back gives the number, as far as it fits. */
  lemma {:induction false} LittleEndianReadsBack(n: nat, k: nat)
    requires n < Power256(k)
    ensures ReadLittleEndian(LittleEndian(n, k)) == n
  {
    if k == 0 {
    } else {
      var s := LittleEndian(n, k);
      LittleEndianReadsBack(n / 256, k - 1);
      assert s[1..] == LittleEndian(n / 256, k - 1);
    }
  }

  function Power256(k: nat): nat { if k == 0 then 1 else 256 * Power256(k - 1) }

  lemma {:induction false} Power256Of8()
    ensures Power256(8) == TWO_64
  {
    assert Power256(4) == 0x1_0000_0000;
    assert Power256(5) == 256 * Power256(4);
    assert Power256(6) == 256 * Power256(5);
    assert Power256(7) == 256 * Power256(6);
  }

  lemma {:induction false} StreamAllLength(xs: seq<Json>, ys: seq<Json>)
    requires |xs| == |ys|
    requires forall i :: 0 <= i < |xs| ==> |Stream(xs[i])| == |Stream(ys[i])|
    ensures |StreamAll(xs)| == |StreamAll(ys)|
    ensures StreamAll(xs) == StreamAll(ys) ==>
              (forall i | 0 <= i < |xs| :: Stream(xs[i]) == Stream(ys[i]))
  {
    if xs == [] {
    } else {
      StreamAllLength(xs[1..], ys[1..]);
      if StreamAll(xs) == StreamAll(ys) {
        var n := |Stream(xs[0])|;
        assert Stream(xs[0]) == StreamAll(xs)[..n] == StreamAll(ys)[..n] == Stream(ys[0]);
        assert StreamAll(xs[1..]) == StreamAll(xs)[n..] == StreamAll(ys)[n..] == StreamAll(ys[1..]);
        forall i | 0 <= i < |xs| ensures Stream(xs[i]) == Stream(ys[i]) {
          if i > 0 { assert xs[i] == xs[1..][i - 1] && ys[i] == ys[1..][i - 1]; }
        }
      }
    }
  }

  function EntryKeys(es: seq<Entry>): (ks: seq<string>)
    ensures |ks| == |es| && forall i :: 0 <= i < |es| ==> ks[i] == es[i].key
  {
    seq(|es|, i requires 0 <= i < |es| => es[i].key)
  }

  lemma {:induction false} EntryKeysSorted(ms: seq<Member>)
    requires DistinctKeys(ms)
    ensures SortedBy(EntryKeys(SortEntries(Entries(ms))), Itself)
  {
    EntriesDistinct(ms);
    SortSorts(Entries(ms));
  }

  /** Sorted entries of two objects equal by key line up, whatever the comparison of scalars. */
  lemma {:induction false} SortedEntriesAlign(ms: seq<Member>, ns: seq<Member>, rule: Rule)
    requires WellFormed(Object(ms)) && WellFormed(Object(ns)) && Same(Object(ms), Object(ns), rule)
    ensures EntryKeys(SortEntries(Entries(ms))) == EntryKeys(SortEntries(Entries(ns)))
  {
    var es, fs := EntryKeys(SortEntries(Entries(ms))), EntryKeys(SortEntries(Entries(ns)));
    forall k | k in es ensures k in fs {
      var i := MemberOfEntry(ms, k);
      assert SameMember(ms[i], ns, rule);
      EntryOfMember(ns, FindKey(ns, k));
    }
    forall k | k in fs ensures k in es {
      var j := MemberOfEntry(ns, k);
      var i := PartnerOf(ms, ns, rule, j);
      EntryOfMember(ms, i);
    }
    EntryKeysSorted(ms);
    EntryKeysSorted(ns);
    SortedUnique(es, fs, Itself);
  }

  lemma {:induction false} MemberOfEntry(ms: seq<Member>, k: string) returns (i: nat)
    requires k in EntryKeys(SortEntries(Entries(ms)))
    ensures i < |ms| && ms[i].key == k
  {
    var es := SortEntries(Entries(ms));
    var p :| 0 <= p < |es| && es[p].key == k;
    SortKeepsElements(Entries(ms));
    assert es[p] in Entries(ms);
    i :| 0 <= i < |ms| && Entries(ms)[i] == es[p];
    EntryAt(ms, i);
  }

  lemma {:induction false} EntryOfMember(ms: seq<Member>, i: nat)
    requires i < |ms|
    ensures Entry(ms[i].key, Stream(ms[i].val)) in SortEntries(Entries(ms))
    ensures ms[i].key in EntryKeys(SortEntries(Entries(ms)))
  {
    EntryAt(ms, i);
    SortKeepsElements(Entries(ms));
    var e := Entry(ms[i].key, Stream(ms[i].val));
    assert e in Entries(ms);
    var es := SortEntries(Entries(ms));
    var p :| 0 <= p < |es| && es[p] == e;
    assert EntryKeys(es)[p] == e.key;
  }

  /** One entry of a sorted object belongs to exactly one member. */
  lemma {:induction false} EntryBytes(ms: seq<Member>, e: Entry, i: nat)
    requires DistinctKeys(ms) && e in SortEntries(Entries(ms))
    requires i < |ms| && ms[i].key == e.key
    ensures e.bytes == Stream(ms[i].val)
  {
    SortKeepsElements(Entries(ms));
    assert e in Entries(ms);
    var j :| 0 <= j < |ms| && Entries(ms)[j] == e;
    EntryAt(ms, j);
  }

  lemma {:induction false} SameLength(a: Json, b: Json, rule: Rule)
    requires WellFormed(a) && WellFormed(b) && Same(a, b, rule)
    ensures |Stream(a)| == |Stream(b)|
    decreases a, 1
  {
    match (a, b)
    case (Array(xs), Array(ys)) =>
      forall i | 0 <= i < |xs| ensures |Stream(xs[i])| == |Stream(ys[i])| {
        SameLength(xs[i], ys[i], rule);
      }
      StreamAllLength(xs, ys);
    case (Object(ms), Object(ns)) =>
      EntryLengths(a, b, rule);
      FeedLength(SortEntries(Entries(ms)), SortEntries(Entries(ns)));
    case _ =>
  }

  lemma {:induction false} EntryLengths(a: Json, b: Json, rule: Rule)
    requires a.Object? && b.Object?
    requires WellFormed(a) && WellFormed(b) && Same(a, b, rule)
    ensures var es, fs := SortEntries(Entries(a.members)), SortEntries(Entries(b.members));
            && |es| == |fs|
            && forall p :: 0 <= p < |es| ==> es[p].key == fs[p].key && |es[p].bytes| == |fs[p].bytes|
    decreases a, 0
  {
    var ms, ns := a.members, b.members;
    var es, fs := SortEntries(Entries(ms)), SortEntries(Entries(ns));
    SortedEntriesAlign(ms, ns, rule);
    assert |es| == |EntryKeys(es)| == |fs|;
    forall p | 0 <= p < |es| ensures es[p].key == fs[p].key && |es[p].bytes| == |fs[p].bytes| {
      assert EntryKeys(es)[p] == EntryKeys(fs)[p];
      var i := MemberOfEntry(ms, es[p].key);
      assert SameMember(ms[i], ns, rule);
      var j := FindKey(ns, ms[i].key);
      EntryBytes(ms, es[p], i);
      EntryBytes(ns, fs[p], j);
      assert ms[i] in ms && ns[j] in ns;
      SameLength(ms[i].val, ns[j].val, rule);
    }
  }

  /** What a caller can check without looking at any number or character: the same kinds at every
      place, except that a non-negative number may be of either integer kind; strings and arrays of
      the same lengths; objects with the same keys. */
  predicate SameShape(a: Json, b: Json) { Same(a, b, Shape) }

  /** What that means for scalars. */
  lemma {:induction false} ShapesOfScalars(a: Json, b: Json)
    ensures a.Null? || a.Bool? || a.Double? ==>
              (SameShape(a, b) <==> (a.Null? && b.Null?) || (a.Bool? && b.Bool?) || (a.Double? && b.Double?))
    ensures a.String? ==> (SameShape(a, b) <==> b.String? && |a.text| == |b.text|)
    ensures a.Signed? || a.Unsigned? ==>
              (SameShape(a, b) <==>
               || (a.Signed? && b.Signed?) || (a.Unsigned? && b.Unsigned?)
               || ((b.Signed? || b.Unsigned?) && IntegerOf(a) >= 0 && IntegerOf(b) >= 0))
  {}

  lemma {:induction false} SameMeansSameShape(a: Json, b: Json, rule: Rule)
    requires WellFormed(a) && WellFormed(b) && Same(a, b, rule)
    ensures SameShape(a, b)
    decreases a
  {
    match (a, b)
    case (Array(xs), Array(ys)) =>
      forall i | 0 <= i < |xs| ensures Same(xs[i], ys[i], Shape) {
        SameMeansSameShape(xs[i], ys[i], rule);
      }
    case (Object(ms), Object(ns)) =>
      forall i | 0 <= i < |ms| ensures SameMember(ms[i], ns, Shape) {
        assert SameMember(ms[i], ns, rule);
        var j := FindKey(ns, ms[i].key);
        assert ms[i] in ms && ns[j] in ns;
        SameMeansSameShape(ms[i].val, ns[j].val, rule);
      }
    case _ =>
  }

  lemma {:induction false} SameArrayStreams(xs: seq<Json>, ys: seq<Json>)
    requires WellFormed(Array(xs)) && WellFormed(Array(ys)) && SameShape(Array(xs), Array(ys))
    requires StreamAll(xs) == StreamAll(ys)
    ensures forall i | 0 <= i < |xs| :: Stream(xs[i]) == Stream(ys[i])
  {
    forall i | 0 <= i < |xs| ensures |Stream(xs[i])| == |Stream(ys[i])| {
      SameLength(xs[i], ys[i], Shape);
    }
    StreamAllLength(xs, ys);
  }

  lemma {:induction false} WordBytesDecide(x: Word, y: Word)
    ensures LittleEndian(x, 8) == LittleEndian(y, 8) <==> x == y
  {
    Power256Of8();
    LittleEndianReadsBack(x, 8);
    LittleEndianReadsBack(y, 8);
  }

  lemma {:induction false} SameStreamSameScalar(a: Json, b: Json)
    requires SameScalar(a, b, Shape) && Stream(a) == Stream(b)
    ensures SameScalar(a, b, Bits)
  {
    match (a, b)
    case (Signed(x), Signed(y)) => WordBytesDecide(TwosComplement(x), TwosComplement(y));
    case (Signed(x), Unsigned(y)) => WordBytesDecide(TwosComplement(x), y);
    case (Unsigned(x), Signed(y)) => WordBytesDecide(x, TwosComplement(y));
    case (Unsigned(x), Unsigned(y)) => WordBytesDecide(x, y);
    case (Double(x), Double(y)) => WordBytesDecide(x, y);
    case _ =>
  }

  /** Values of the same shape that feed the same bytes are equal, every double bit for bit. */
  lemma {:induction false} SameStreamSameBits(a: Json, b: Json)
    requires WellFormed(a) && WellFormed(b) && SameShape(a, b)
    requires Stream(a) == Stream(b)
    ensures Same(a, b, Bits)
    decreases a, 1
  {
    match (a, b)
    case (Array(xs), Array(ys)) =>
      SameArrayStreams(xs, ys);
      forall i | 0 <= i < |xs| ensures Same(xs[i], ys[i], Bits) {
        SameStreamSameBits(xs[i], ys[i]);
      }
    case (Object(ms), Object(ns)) =>
      EntryLengths(a, b, Shape);
      FeedLength(SortEntries(Entries(ms)), SortEntries(Entries(ns)));
      forall i | 0 <= i < |ms| ensures SameMember(ms[i], ns, Bits) {
        SameMemberBits(a, b, i);
      }
    case _ => SameStreamSameScalar(a, b);
  }

  lemma {:induction false} SameMemberBits(a: Json, b: Json, i: nat)
    requires a.Object? && b.Object? && WellFormed(a) && WellFormed(b) && SameShape(a, b)
    requires SortEntries(Entries(a.members)) == SortEntries(Entries(b.members)) && i < |a.members|
    ensures SameMember(a.members[i], b.members, Bits)
    decreases a, 0
  {
    var ms, ns := a.members, b.members;
    assert SameMember(ms[i], ns, Shape);
    var j := FindKey(ns, ms[i].key);
    EntryOfMember(ms, i);
    EntryBytes(ns, Entry(ms[i].key, Stream(ms[i].val)), j);
    assert ms[i] in ms && ns[j] in ns;
    SameStreamSameBits(ms[i].val, ns[j].val);
  }

  /** When the stream determines the value: among values of the same shape, the same bytes are fed
      exactly by those that are equal bit for bit. */
  lemma {:induction false} StreamDecidesValue(a: Json, b: Json)
    requires WellFormed(a) && WellFormed(b) && SameShape(a, b)
    ensures Stream(a) == Stream(b) <==> Same(a, b, Bits)
  {
    if Stream(a) == Stream(b) {
      SameStreamSameBits(a, b);
    } else if Same(a, b, Bits) {
      SameBitsSameStream(a, b);
    }
  }

  /** In particular among equal values: the sign of zero is the only thing equality forgets and the
      hash does not. */
  lemma {:induction false} StreamDecidesBits(a: Json, b: Json)
    requires WellFormed(a) && WellFormed(b) && Same(a, b, Ieee)
    ensures Stream(a) == Stream(b) <==> Same(a, b, Bits)
  {
    SameMeansSameShape(a, b, Ieee);
    StreamDecidesValue(a, b);
  }

  /** No double inside is the negative zero. */
  predicate NoNegativeZero(v: Json)
    decreases v
  {
    match v
    case Double(d) => d != TWO_63
    case Array(elems) => forall i :: 0 <= i < |elems| ==> NoNegativeZero(elems[i])
    case Object(ms) => forall i :: 0 <= i < |ms| ==> NoNegativeZero(ms[i].val)
    case _ => true
  }

  /** What a caller can check beforehand: without negative zeros, equal means equal bit for bit. */
  lemma {:induction false} NoNegativeZeroSameBits(a: Json, b: Json)
    requires WellFormed(a) && WellFormed(b) && Same(a, b, Ieee)
    requires NoNegativeZero(a) && NoNegativeZero(b)
    ensures Same(a, b, Bits)
    decreases a
  {
    match (a, b)
    case (Array(xs), Array(ys)) =>
      forall i | 0 <= i < |xs| ensures Same(xs[i], ys[i], Bits) {
        NoNegativeZeroSameBits(xs[i], ys[i]);
      }
    case (Object(ms), Object(ns)) =>
      forall i | 0 <= i < |ms| ensures SameMember(ms[i], ns, Bits) {
        assert SameMember(ms[i], ns, Ieee);
        var j := FindKey(ns, ms[i].key);
        assert ms[i] in ms && ns[j] in ns;
        NoNegativeZeroSameBits(ms[i].val, ns[j].val);
      }
    case _ =>
  }

  /** Values of another shape can feed the same bytes because the stream has no delimiters: cutting
      a text anywhere gives an array that feeds what the whole text does. */
  lemma {:induction false} StreamNotInjective(s: string, t: string)
    ensures var a, b := Array([String(s), String(t)]), Array([String(s + t)]);
            Stream(a) == Stream(b) && !SameShape(a, b)
  {
    var last, whole := [String(t)], [String(s + t)];
    assert [String(s), String(t)][1..] == last && last[1..] == [] && whole[1..] == [];
    assert StreamAll([String(s), String(t)]) == s + StreamAll(last) == s + (t + "");
    assert StreamAll(whole) == s + t + "";
  }

  /** And because it has no tags for kinds: any 64 bits feed the same bytes as an unsigned integer,
      as a double, as a text of eight characters and, when the highest is set, as a negative
      integer; the texts null, 1 and 0 feed what Null and the booleans do. */
  lemma {:induction false} KindsAlias(x: Word, flag: bool)
    ensures Stream(Unsigned(x)) == Stream(Double(x)) && !SameShape(Unsigned(x), Double(x))
    ensures var text := String(LittleEndian(x, 8));
            Stream(Unsigned(x)) == Stream(text) && !SameShape(Unsigned(x), text)
    ensures x >= TWO_63 ==>
              Stream(Signed(x - TWO_64)) == Stream(Unsigned(x)) && !SameShape(Signed(x - TWO_64), Unsigned(x))
    ensures Stream(Null) == Stream(String("null")) && !SameShape(Null, String("null"))
    ensures var text := String(if flag then "1" else "0");
            Stream(Bool(flag)) == Stream(text) && !SameShape(Bool(flag), text)
  {}

  /** 0.0 and -0.0 are equal and feed different bytes. */
  lemma {:induction false} SignedZerosDiffer()
    ensures Same(Double(0), Double(TWO_63), Ieee)
    ensures Stream(Double(0)) != Stream(Double(TWO_63))
  {
    StreamDecidesBits(Double(0), Double(TWO_63));
  }
}
