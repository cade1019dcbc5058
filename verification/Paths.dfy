/** Splitting, printing and following paths (jsonext::dissect_path, to_path, find_path, subvalue). */
module Paths {
  import opened Json
  import opened Wrappers

  const SEP: char := '/'

  // ----- splitting and printing -----

  /** Where the next separator is, or the end; std::find_if with is_sep. */
  function FindSep(s: string): (n: nat)
    ensures n <= |s|
    ensures SEP !in s[..n]
    ensures n < |s| ==> s[n] == SEP
  {
    if s == "" || s[0] == SEP then 0 else
      var n := FindSep(s[1..]);
      assert s[..n + 1] == [s[0]] + s[1..][..n];
      n + 1
  }

  /** The segments of a path: its maximal runs of characters other than the separator. */
  function Dissect(s: string): seq<string>
    decreases |s|
  {
    if s == "" then []
    else if s[0] == SEP then Dissect(s[1..])
    else [s[..FindSep(s)]] + Dissect(s[FindSep(s)..])
  }

  function Joined(segments: seq<string>): string {
    if segments == [] then "" else [SEP] + segments[0] + Joined(segments[1..])
  }

  function Printed(segments: seq<string>): string {
    if segments == [] then [SEP] else Joined(segments)
  }

  /** mutable_key::normalise. */
  function Normalise(path: string): string { Printed(Dissect(path)) }

  method DissectPath(input: string) returns (result: seq<string>)
    ensures result == Dissect(input)
  {
    result := [];
    var current := 0;
    while current != |input|
      invariant current <= |input|
      invariant result + Dissect(input[current..]) == Dissect(input)
      decreases |input| - current
    {
      ghost var rest := input[current..];
      if input[current] == SEP {
        current := current + 1;
        assert input[current..] == rest[1..];
      } else {
        var sep := current + FindSep(input[current..]);
        assert input[current..sep] == rest[..sep - current] && input[sep..] == rest[sep - current..];
        result := result + [input[current..sep]];
        current := sep;
      }
    }
  }

  method ToPath(segments: seq<string>, first: nat, last: nat) returns (result: string)
    requires first <= last <= |segments|
    ensures result == Printed(segments[first..last])
  {
    result := "";
    var it := first;
    while it != last
      invariant first <= it <= last
      invariant result + Joined(segments[it..last]) == Joined(segments[first..last])
      invariant result == "" <==> it == first
      decreases last - it
    {
      assert segments[it..last][1..] == segments[it + 1..last];
      result := result + [SEP];
      result := result + segments[it];
      it := it + 1;
    }
    if result == "" {
      result := result + [SEP];
    }
  }

  // ----- following -----

  predicate IsDigit(c: char) { '0' <= c <= '9' }

  /** isspace in the "C" locale. */
  predicate IsSpace(c: char) { c == ' ' || '\t' as int <= c as int <= '\r' as int }

  function Spaces(s: string): (n: nat)
    ensures n <= |s|
  {
    if s == "" || !IsSpace(s[0]) then 0 else 1 + Spaces(s[1..])
  }

  function Digits(s: string): (n: nat)
    ensures n <= |s|
    ensures forall i :: 0 <= i < n ==> IsDigit(s[i])
  {
    if s == "" || !IsDigit(s[0]) then 0 else 1 + Digits(s[1..])
  }

  function DigitValue(c: char): nat
    requires IsDigit(c)
  {
    c as int - '0' as int
  }

  function Decimal(s: string): nat
    requires forall i :: 0 <= i < |s| ==> IsDigit(s[i])
  {
    if s == "" then 0 else Decimal(s[..|s| - 1]) * 10 + DigitValue(s[|s| - 1])
  }

  /** ::strtoul in base 10 with a 64-bit unsigned long: the value and how much was consumed.
      Blanks and a sign are skipped, overflow saturates, a minus negates modulo 2^64
      (section 7.22.1.4 of C17). */
  function Strtoul(s: string): (r: (Word, nat))
    ensures r.1 <= |s|
  {
    var t := s[Spaces(s)..];
    var signed := if t != "" && t[0] in {'+', '-'} then 1 else 0;
    var n := Digits(t[signed..]);
    if n == 0 then (0, 0)
    else
      var magnitude := Decimal(t[signed..][..n]);
      var value := if magnitude >= TWO_64 then TWO_64 - 1
                   else if t[0] == '-' then (TWO_64 - magnitude) % TWO_64
                   else magnitude;
      (value, Spaces(s) + signed + n)
  }

  /** What name.c_str() shows of a string: it ends at the first NUL. */
  function CString(s: string): string {
    if s == "" || s[0] == '\0' then "" else [s[0]] + CString(s[1..])
  }

  function AssertUnsignedInteger(s: string): Option<Word> {
    var (value, consumed) := Strtoul(s);
    if consumed != |s| then None else Some(value)
  }

  /** One step into a value; None stands for the exception. */
  function Subvalue(v: Json, name: string): Option<Json> {
    match v
    case Object(ms) => var j := FindKey(ms, name); if j < |ms| then Some(ms[j].val) else None
    case Array(elems) =>
      (match AssertUnsignedInteger(CString(name))
       case Some(i) => if i < |elems| then Some(elems[i]) else None
       case None => None)
    case _ => None
  }

  function Resolve(v: Json, path: seq<string>): Option<Json>
    decreases |path|
  {
    if path == [] then Some(v)
    else match Subvalue(v, path[0])
      case Some(w) => Resolve(w, path[1..])
      case None => None
  }

  /** find_path on a path as text. */
  function Lookup(v: Json, path: string): Option<Json> { Resolve(v, Dissect(path)) }

  /** The outcome of find_path; a failure carries what its message names. */
  datatype FindResult = Found(value: Json) | Failed(at: string, evaluating: string)

  method FindPath(v: Json, path: seq<string>) returns (r: FindResult)
    ensures r.Found? <==> Resolve(v, path).Some?
    ensures r.Found? ==> Resolve(v, path) == Some(r.value)
    ensures r.Failed? ==> exists k :: 0 <= k < |path| && StopsAt(v, path, k)
                                   && r.at == Printed(path[..k]) && r.evaluating == path[k]
  {
    var current := v;
    var first := 0;
    while first != |path|
      invariant 0 <= first <= |path|
      invariant Resolve(v, path[..first]) == Some(current)
      invariant Resolve(v, path) == Resolve(current, path[first..])
      decreases |path| - first
    {
      var step := Subvalue(current, path[first]);
      ResolveSnoc(v, path, first);
      match step {
        case None =>
          var at := ToPath(path, 0, first);
          assert path[0..first] == path[..first];
          return Failed(at, path[first]);
        case Some(w) =>
          assert path[first..][1..] == path[first + 1..];
          current := w;
      }
      first := first + 1;
    }
    assert path[..first] == path;
    return Found(current);
  }

  method FindPathText(v: Json, path: string) returns (r: FindResult)
    ensures r.Found? <==> Lookup(v, path).Some?
    ensures r.Found? ==> Lookup(v, path) == Some(r.value)
    ensures r.Failed? ==> var segments := Dissect(path);
                          exists k :: 0 <= k < |segments| && StopsAt(v, segments, k)
                                   && r.at == Printed(segments[..k]) && r.evaluating == segments[k]
  {
    var segments := DissectPath(path);
    r := FindPath(v, segments);
  }

  /** path[..k] is the longest prefix that resolves. */
  ghost predicate StopsAt(v: Json, path: seq<string>, k: nat)
    requires k < |path|
  {
    && (forall i :: 0 <= i <= k ==> Resolve(v, path[..i]).Some?)
    && (forall i :: k < i <= |path| ==> Resolve(v, path[..i]).None?)
  }

  lemma {:induction false} ResolveSnoc(v: Json, path: seq<string>, k: nat)
    requires k < |path|
    requires Resolve(v, path[..k]).Some?
    ensures Resolve(v, path[..k + 1]) == Subvalue(Resolve(v, path[..k]).value, path[k])
    ensures Resolve(v, path[..k + 1]).None? ==> StopsAt(v, path, k)
  {
    ResolveConcat(v, path[..k], [path[k]]);
    assert path[..k + 1] == path[..k] + [path[k]];
    forall i | 0 <= i <= k ensures Resolve(v, path[..i]).Some? {
      PrefixResolves(v, path, i, k);
    }
    forall i | k < i <= |path| && Resolve(v, path[..i]).Some? ensures Resolve(v, path[..k + 1]).Some? {
      PrefixResolves(v, path, k + 1, i);
    }
  }

  lemma {:induction false} PrefixResolves(v: Json, path: seq<string>, i: nat, k: nat)
    requires i <= k <= |path| && Resolve(v, path[..k]).Some?
    ensures Resolve(v, path[..i]).Some?
  {
    ResolveConcat(v, path[..i], path[i..k]);
    assert path[..k] == path[..i] + path[i..k];
  }

  /** Following a concatenation is following one part and then the other. */
  lemma {:induction false} ResolveConcat(v: Json, p: seq<string>, q: seq<string>)
    ensures Resolve(v, p + q) ==
            match Resolve(v, p) case Some(w) => Resolve(w, q) case None => None
    decreases |p|
  {
    if p == [] {
      assert p + q == q;
    } else {
      assert (p + q)[1..] == p[1..] + q;
      match Subvalue(v, p[0])
      case Some(w) => ResolveConcat(w, p[1..], q);
      case None =>
    }
  }
}
