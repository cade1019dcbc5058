/** JSON values as Boost.JSON holds them, with its equality, and the canonical byte stream that
    jsonext::update_sha256 feeds to the hash. */
module Json {
  import opened TextOrder

  const TWO_63: int := 0x8000_0000_0000_0000
  const TWO_64: int := 0x1_0000_0000_0000_0000

  type Int64 = i: int | -TWO_63 <= i < TWO_63
  type Word = u: int | 0 <= u < TWO_64

  /** A double is its 64-bit pattern; an object keeps its members in insertion order. */
  datatype Json =
    | Null
    | Bool(flag: bool)
    | Signed(i: Int64)
    | Unsigned(u: Word)
    | Double(bits: Word)
    | String(text: string)
    | Array(elems: seq<Json>)
    | Object(members: seq<Member>)

  datatype Member = Member(key: string, val: Json)

  ghost predicate DistinctKeys(ms: seq<Member>) {
    forall i, j :: 0 <= i < j < |ms| ==> ms[i].key != ms[j].key
  }

  /** What the container guarantees: keys are distinct and sizes fit in std::size_t. */
  ghost predicate WellFormed(v: Json) {
    match v
    case Array(elems) => |elems| < TWO_64 && forall e | e in elems :: WellFormed(e)
    case Object(ms) => |ms| < TWO_64 && DistinctKeys(ms) && forall m | m in ms :: WellFormed(m.val)
    case _ => true
  }

  type Document = v: Json | WellFormed(v) witness Null

  // ----- equality -----

  predicate IsNaN(d: Word) { d % TWO_63 > 0x7FF0_0000_0000_0000 }

  predicate IsZero(d: Word) { d % TWO_63 == 0 }

  /** How two scalars are compared: as operator== does, with doubles bit for bit, or only by what
      decides how many bytes they feed and how those bytes are read. */
  datatype Rule = Ieee | Bits | Shape

  predicate SameDouble(a: Word, b: Word, rule: Rule) {
    match rule
    case Ieee => !IsNaN(a) && !IsNaN(b) && (a == b || (IsZero(a) && IsZero(b)))
    case Bits => a == b
    case Shape => true
  }

  /** Equal numbers of either integer kind are equal; of unequal kinds, a negative one never is. */
  predicate SameScalar(a: Json, b: Json, rule: Rule) {
    match (a, b)
    case (Null, Null) => true
    case (Bool(x), Bool(y)) => rule.Shape? || x == y
    case (Signed(x), Signed(y)) => rule.Shape? || x == y
    case (Signed(x), Unsigned(y)) => if rule.Shape? then x >= 0 else x == y
    case (Unsigned(x), Signed(y)) => if rule.Shape? then y >= 0 else x == y
    case (Unsigned(x), Unsigned(y)) => rule.Shape? || x == y
    case (Double(x), Double(y)) => SameDouble(x, y, rule)
    case (String(x), String(y)) => if rule.Shape? then |x| == |y| else x == y
    case _ => false
  }

  /** The first member with key k; |ms| stands for end(). */
  function FindKey(ms: seq<Member>, k: string): (p: nat)
    ensures p <= |ms|
    ensures p < |ms| ==> ms[p].key == k
    ensures forall i :: 0 <= i < p ==> ms[i].key != k
  {
    if ms == [] || ms[0].key == k then 0 else 1 + FindKey(ms[1..], k)
  }

  /** json::value::operator==, with the comparison of scalars as a parameter: arrays element by
      element, objects member by member in any order. */
  predicate Same(a: Json, b: Json, rule: Rule)
    decreases a
  {
    if a.Array? && b.Array? then
      |a.elems| == |b.elems| && forall i :: 0 <= i < |a.elems| ==> Same(a.elems[i], b.elems[i], rule)
    else if a.Object? && b.Object? then
      |a.members| == |b.members| && forall i :: 0 <= i < |a.members| ==> SameMember(a.members[i], b.members, rule)
    else SameScalar(a, b, rule)
  }

  predicate SameMember(m: Member, ns: seq<Member>, rule: Rule)
    decreases m
  {
    var j := FindKey(ns, m.key);
    j < |ns| && Same(m.val, ns[j].val, rule)
  }

  // ----- the canonical byte stream -----

  /** k bytes of n, least significant first. */
  function LittleEndian(n: nat, k: nat): (s: string)
    ensures |s| == k
  {
    if k == 0 then "" else [(n % 256) as char] + LittleEndian(n / 256, k - 1)
  }

  function TwosComplement(i: Int64): Word { if i < 0 then i + TWO_64 else i }

  datatype Entry = Entry(key: string, bytes: string)

  function EntryKey(e: Entry): string { e.key }

  /** The bytes that update_sha256 feeds for one value. */
  function Stream(v: Json): string
    decreases v
  {
    match v
    case Null => "null"
    case Bool(b) => if b then "1" else "0"
    case Signed(i) => LittleEndian(TwosComplement(i), 8)
    case Unsigned(u) => LittleEndian(u, 8)
    case Double(d) => LittleEndian(d, 8)
    case String(s) => s
    case Array(elems) => StreamAll(elems)
    case Object(ms) => Feed(SortEntries(Entries(ms)))
  }

  function StreamAll(elems: seq<Json>): string
    decreases elems
  {
    if elems == [] then "" else Stream(elems[0]) + StreamAll(elems[1..])
  }

  function Entries(ms: seq<Member>): (es: seq<Entry>)
    ensures |es| == |ms|
    decreases ms
  {
    if ms == [] then [] else [Entry(ms[0].key, Stream(ms[0].val))] + Entries(ms[1..])
  }

  function SortEntries(es: seq<Entry>): (r: seq<Entry>)
    ensures multiset(r) == multiset(es)
  {
    if es == [] then []
    else
      assert es == [es[0]] + es[1..];
      Insert(SortEntries(es[1..]), es[0], EntryKey)
  }

  function Feed(es: seq<Entry>): string {
    if es == [] then "" else es[0].key + es[0].bytes + Feed(es[1..])
  }
}
