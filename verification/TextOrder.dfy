/** The order that std::string_view and std::set<json::string> use for keys and paths, and the
    fact the whole project leans on: a strictly sorted sequence is determined by its elements. */
module TextOrder {

  /** Strict lexicographic order, as std::char_traits<char>::compare gives it. */
  predicate Less(a: string, b: string) {
    b != [] && (a == [] || a[0] < b[0] || (a[0] == b[0] && Less(a[1..], b[1..])))
  }

  /** The first k characters agree, and then a ends or has the smaller character. */
  ghost predicate ComesFirstAt(a: string, b: string, k: nat) {
    k <= |a| && k < |b| && a[..k] == b[..k] && (k == |a| || a[k] < b[k])
  }

  lemma {:induction false} ComesFirstHead(a: string, b: string, k: nat)
    requires ComesFirstAt(a, b, k)
    ensures b != [] && (k > 0 ==> a != [] && a[0] == b[0])
    ensures k == 0 ==> a == [] || a[0] < b[0]
  {
    assert k > 0 ==> a[..k][0] == b[..k][0];
  }

  lemma {:induction false} ComesFirstTail(a: string, b: string, k: nat)
    requires a != [] && b != [] && a[0] == b[0]
    ensures ComesFirstAt(a[1..], b[1..], k) <==> ComesFirstAt(a, b, k + 1)
  {
    if k < |a| && k < |b| {
      assert a[..k + 1] == [a[0]] + a[1..][..k] && b[..k + 1] == [b[0]] + b[1..][..k];
      assert a[1..][..k] == a[..k + 1][1..] && b[1..][..k] == b[..k + 1][1..];
    }
  }

  /** Which of two texts comes first: a proper prefix, or the one with the smaller character at the
      first place where they differ. */
  lemma {:induction false} LessIff(a: string, b: string)
    ensures Less(a, b) <==> exists k: nat :: ComesFirstAt(a, b, k)
  {
    forall k: nat | ComesFirstAt(a, b, k) ensures b != [] && (k == 0 ==> Less(a, b)) {
      ComesFirstHead(a, b, k);
    }
    if a == [] || b == [] || a[0] != b[0] {
      forall k: nat | ComesFirstAt(a, b, k) ensures k == 0 { ComesFirstHead(a, b, k); }
      assert Less(a, b) ==> ComesFirstAt(a, b, 0);
    } else {
      LessIff(a[1..], b[1..]);
      forall k: nat ensures ComesFirstAt(a[1..], b[1..], k) <==> ComesFirstAt(a, b, k + 1) {
        ComesFirstTail(a, b, k);
      }
      assert !ComesFirstAt(a, b, 0);
      assert forall k: nat :: ComesFirstAt(a, b, k) ==> ComesFirstAt(a[1..], b[1..], k - 1);
    }
  }

  lemma {:induction false} LessAsymmetric(a: string, b: string)
    ensures !(Less(a, b) && Less(b, a))
  {
    if a == [] || b == [] {
    } else {
      LessAsymmetric(a[1..], b[1..]);
    }
  }

  lemma {:induction false} LessConnected(a: string, b: string)
    ensures Less(a, b) || a == b || Less(b, a)
  {
    if a == [] || b == [] {
    } else {
      LessConnected(a[1..], b[1..]);
      assert a == [a[0]] + a[1..] && b == [b[0]] + b[1..];
    }
  }

  lemma {:induction false} LessTransitive(a: string, b: string, c: string)
    requires Less(a, b) && Less(b, c)
    ensures Less(a, c)
  {
    if a != [] && a[0] == b[0] == c[0] {
      LessTransitive(a[1..], b[1..], c[1..]);
    }
  }

  /** Strictly increasing in the keys that `key` reads off the elements. */
  ghost predicate SortedBy<T>(s: seq<T>, key: T -> string) {
    forall i, j :: 0 <= i < j < |s| ==> Less(key(s[i]), key(s[j]))
  }

  ghost predicate SameElements<T>(a: seq<T>, b: seq<T>) {
    && (forall x | x in a :: x in b)
    && (forall x | x in b :: x in a)
  }

  lemma {:induction false} SameHead<T>(a: seq<T>, b: seq<T>, key: T -> string)
    requires SortedBy(a, key) && SortedBy(b, key) && SameElements(a, b)
    requires a != []
    ensures b != [] && a[0] == b[0]
  {
    assert a[0] in b && b[0] in a;
    var j :| 0 <= j < |b| && b[j] == a[0];
    var k :| 0 <= k < |a| && a[k] == b[0];
    if j != 0 && k != 0 {
      LessAsymmetric(key(a[0]), key(b[0]));
    }
  }

  lemma {:induction false} TailElements<T>(a: seq<T>, b: seq<T>, key: T -> string)
    requires SortedBy(a, key) && SameElements(a, b)
    requires a != [] && b != [] && a[0] == b[0]
    ensures forall x | x in a[1..] :: x in b[1..]
  {
    forall x | x in a[1..] ensures x in b[1..] {
      var i :| 1 <= i < |a| && a[i] == x;
      LessAsymmetric(key(a[0]), key(x));
      assert x in b && b == [b[0]] + b[1..];
    }
  }

  /** There is only one way to sort a collection whose keys are distinct. */
  lemma {:induction false} SortedUnique<T>(a: seq<T>, b: seq<T>, key: T -> string)
    requires SortedBy(a, key) && SortedBy(b, key) && SameElements(a, b)
    ensures a == b
  {
    if a == [] {
      if b != [] { SameHead(b, a, key); }
    } else {
      SameHead(a, b, key);
      TailElements(a, b, key);
      TailElements(b, a, key);
      SortedUnique(a[1..], b[1..], key);
      assert a == [a[0]] + a[1..] && b == [b[0]] + b[1..];
    }
  }

  function Itself(s: string): string { s }

  /** The position at which an element of key k goes: everything before it is smaller,
      nothing after it is. */
  function Position<T>(s: seq<T>, k: string, key: T -> string): (p: nat)
    ensures p <= |s|
    ensures forall i :: 0 <= i < p ==> Less(key(s[i]), k)
    ensures p < |s| ==> !Less(key(s[p]), k)
  {
    if s == [] || !Less(key(s[0]), k) then 0 else 1 + Position(s[1..], k, key)
  }

  /** Insertion in front of the first element that is not smaller. */
  function Insert<T>(s: seq<T>, x: T, key: T -> string): (r: seq<T>)
    ensures multiset(r) == multiset(s) + multiset{x}
  {
    var p := Position(s, key(x), key);
    assert s == s[..p] + s[p..];
    s[..p] + [x] + s[p..]
  }

  lemma {:induction false} InsertSorted<T>(s: seq<T>, x: T, key: T -> string)
    requires SortedBy(s, key)
    requires forall y | y in s :: key(y) != key(x)
    ensures SortedBy(Insert(s, x, key), key)
  {
    var p := Position(s, key(x), key);
    forall i | p <= i < |s| ensures Less(key(x), key(s[i])) {
      LessConnected(key(x), key(s[p]));
      if i != p { LessTransitive(key(x), key(s[p]), key(s[i])); }
    }
  }

  lemma {:induction false} Associate(a: string, b: string, c: string)
    ensures a + b + c == a + (b + c)
  {}
}
