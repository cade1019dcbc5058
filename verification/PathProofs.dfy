/** Printing and splitting undo each other, canonical paths have a shape one can check without
    splitting, and array steps mean what their decimal value says. */
module PathProofs {
  import opened TextOrder
  import opened Json
  import opened JsonProofs
  import opened Paths
  import opened Wrappers

  ghost predicate IsSegment(s: string) { s != "" && SEP !in s }

  ghost predicate IsSegments(segments: seq<string>) {
    forall i :: 0 <= i < |segments| ==> IsSegment(segments[i])
  }

  lemma {:induction false} DissectGivesSegments(s: string)
    ensures IsSegments(Dissect(s))
    decreases |s|
  {
    if s == "" {
    } else {
      if s[0] == SEP {
        DissectGivesSegments(s[1..]);
      } else {
        DissectGivesSegments(s[FindSep(s)..]);
      }
    }
  }

  /** Splitting in general: a text without separators is one segment, or none if it is empty, and a
      separator anywhere splits the text in two. */
  lemma {:induction false} DissectSegment(s: string)
    requires SEP !in s
    ensures Dissect(s) == if s == "" then [] else [s]
  {
    if s != "" {
      assert s[0] in s;
      FindSepInConcat(s, "");
      assert s + "" == s && s[..|s|] == s && s[|s|..] == "";
    }
  }

  lemma {:induction false} DissectAtSeparator(s: string, t: string)
    ensures Dissect(s + [SEP] + t) == Dissect(s) + Dissect(t)
    decreases |s|
  {
    var all := s + [SEP] + t;
    if s == "" {
      assert all[1..] == t;
    } else if s[0] == SEP {
      assert all[1..] == s[1..] + [SEP] + t;
      DissectAtSeparator(s[1..], t);
    } else {
      var n := FindSep(s);
      var rest := s[n..] + [SEP] + t;
      FindSepInConcat(s[..n], rest);
      assert all == s[..n] + rest;
      assert all[..n] == s[..n] && all[n..] == rest;
      DissectAtSeparator(s[n..], t);
      assert Dissect(s) == [s[..n]] + Dissect(s[n..]);
    }
  }

  lemma {:induction false} FindSepInConcat(segment: string, rest: string)
    requires SEP !in segment
    requires rest != "" ==> rest[0] == SEP
    ensures FindSep(segment + rest) == |segment|
  {
    if segment == "" {
      assert segment + rest == rest;
    } else {
      assert segment[0] in segment;
      FindSepInConcat(segment[1..], rest);
      assert (segment + rest)[1..] == segment[1..] + rest;
    }
  }

  /** Splitting what was printed gives the segments back. */
  lemma {:induction false} DissectPrinted(segments: seq<string>)
    requires IsSegments(segments)
    ensures Dissect(Printed(segments)) == segments
  {
    if segments == [] {
      assert Dissect([SEP]) == Dissect([SEP][1..]);
    } else {
      DissectJoined(segments);
    }
  }

  lemma {:induction false} DissectJoined(segments: seq<string>)
    requires IsSegments(segments)
    ensures Dissect(Joined(segments)) == segments
  {
    if segments == [] {
    } else {
      var head, rest := segments[0], Joined(segments[1..]);
      var s := head + rest;
      assert Joined(segments)[1..] == s;
      FindSepInConcat(head, rest);
      assert s[..|head|] == head && s[|head|..] == rest;
      DissectJoined(segments[1..]);
      assert s[0] == head[0] && head[0] in head;
      assert Dissect(s) == [head] + Dissect(rest);
    }
  }

  lemma {:induction false} DissectNormalised(path: string)
    ensures Dissect(Normalise(path)) == Dissect(path)
  {
    DissectGivesSegments(path);
    DissectPrinted(Dissect(path));
  }

  /** Normalising changes nothing about what is found, and doing it twice changes nothing more. */
  lemma {:induction false} NormaliseKeepsMeaning(v: Json, path: string)
    ensures Lookup(v, Normalise(path)) == Lookup(v, path)
    ensures Normalise(Normalise(path)) == Normalise(path)
  {
    DissectNormalised(path);
  }

  /** Normal forms distinguish exactly what splitting distinguishes. */
  lemma {:induction false} NormaliseAlike(p: string, q: string)
    ensures Normalise(p) == Normalise(q) <==> Dissect(p) == Dissect(q)
  {
    DissectNormalised(p);
    DissectNormalised(q);
  }

  // ----- canonical paths -----

  ghost predicate Canonical(path: string) { Normalise(path) == path }

  /** Begins with a slash, no two slashes in a row, and no slash at the end unless it is all. */
  ghost predicate CanonicalShape(path: string) {
    path == [SEP] || (path != "" && ShapedRun(path))
  }

  ghost predicate ShapedRun(path: string) {
    && (path != "" ==> path[0] == SEP && path[|path| - 1] != SEP)
    && (forall i :: 0 <= i < |path| - 1 ==> !(path[i] == SEP && path[i + 1] == SEP))
  }

  lemma {:induction false} JoinedHasShape(segments: seq<string>)
    requires IsSegments(segments)
    ensures ShapedRun(Joined(segments))
    ensures Joined(segments) == "" <==> segments == []
  {
    if segments == [] {
    } else {
      var head, rest, path := segments[0], Joined(segments[1..]), Joined(segments);
      JoinedHasShape(segments[1..]);
      assert path == [SEP] + head + rest;
      forall i | 0 <= i < |path| ensures path[i] ==
        if i == 0 then SEP else if i <= |head| then head[i - 1] else rest[i - 1 - |head|] {}
      assert forall i :: 0 <= i < |head| ==> head[i] in head;
    }
  }

  lemma {:induction false} ShapedRunRejoins(path: string)
    requires ShapedRun(path)
    ensures Joined(Dissect(path)) == path
    decreases |path|
  {
    if path == "" {
    } else {
      var s := path[1..];
      var n := FindSep(s);
      var rest := s[n..];
      assert s[0] != SEP;
      assert rest == path[1 + n..];
      ShapedSuffix(path, 1 + n);
      ShapedRunRejoins(rest);
      assert path == [SEP] + s[..n] + rest;
      assert Dissect(path) == Dissect(s) == [s[..n]] + Dissect(rest);
    }
  }

  lemma {:induction false} ShapedSuffix(path: string, k: nat)
    requires ShapedRun(path) && k <= |path|
    requires k < |path| ==> path[k] == SEP
    ensures ShapedRun(path[k..])
  {
    var rest := path[k..];
    forall i | 0 <= i < |rest| ensures rest[i] == path[k + i] {}
  }

  /** The fixed points of normalising are exactly the paths of canonical shape. */
  lemma {:induction false} CanonicalIffShape(path: string)
    ensures Canonical(path) <==> CanonicalShape(path)
  {
    DissectGivesSegments(path);
    JoinedHasShape(Dissect(path));
    if path == [SEP] {
      assert Dissect(path) == Dissect(path[1..]);
    } else if CanonicalShape(path) {
      ShapedRunRejoins(path);
    }
  }

  // ----- steps into objects and scalars -----

  /** A step into an object finds the value under exactly that key. */
  lemma {:induction false} MemberStep(ms: seq<Member>, name: string)
    requires DistinctKeys(ms)
    ensures forall i :: 0 <= i < |ms| && ms[i].key == name ==> Subvalue(Object(ms), name) == Some(ms[i].val)
    ensures Subvalue(Object(ms), name).None? <==> forall m | m in ms :: m.key != name
  {
    forall i | 0 <= i < |ms| && ms[i].key == name ensures FindKey(ms, name) == i { FindKeyAt(ms, i); }
    if FindKey(ms, name) < |ms| { assert ms[FindKey(ms, name)] in ms; }
  }

  /** There is no step into anything but objects and arrays; no step at all stays where it is. */
  lemma {:induction false} StepsElsewhere(v: Json, name: string)
    ensures !v.Object? && !v.Array? ==> Subvalue(v, name).None?
    ensures Resolve(v, []) == Some(v)
    ensures Resolve(v, [name]) == Subvalue(v, name)
  {
    assert [name][1..] == [];
  }

  // ----- steps into arrays -----

  ghost predicate IsBlanks(s: string) {
    forall i :: 0 <= i < |s| ==> s[i] in {' ', '\t', '\n', '\U{0B}', '\U{0C}', '\r'}
  }

  ghost predicate IsNumber(s: string) { s != "" && forall i :: 0 <= i < |s| ==> IsDigit(s[i]) }

  ghost predicate IsSign(s: string) { s == "" || s == "+" || s == "-" }

  lemma {:induction false} SpacesInConcat(blanks: string, rest: string)
    requires IsBlanks(blanks) && (rest != "" ==> !IsSpace(rest[0]))
    ensures Spaces(blanks + rest) == |blanks|
  {
    if blanks == "" {
      assert blanks + rest == rest;
    } else {
      SpacesInConcat(blanks[1..], rest);
      assert (blanks + rest)[1..] == blanks[1..] + rest;
    }
  }

  lemma {:induction false} SpacesAreBlanks(s: string)
    ensures IsBlanks(s[..Spaces(s)])
  {
    if s == "" || !IsSpace(s[0]) {
    } else {
      SpacesAreBlanks(s[1..]);
      assert s[..Spaces(s)] == [s[0]] + s[1..][..Spaces(s[1..])];
    }
  }

  /** What a sign and digits stand for in an unsigned long of 64 bits. */
  function Numeral(sign: string, digits: string): Word
    requires forall i :: 0 <= i < |digits| ==> IsDigit(digits[i])
  {
    var n := Decimal(digits);
    if n >= TWO_64 then TWO_64 - 1 else if sign == "-" then (TWO_64 - n) % TWO_64 else n
  }

  /** Blanks, a sign and digits are read to the end. */
  lemma {:induction false} NumeralRead(blanks: string, sign: string, digits: string)
    requires IsBlanks(blanks) && IsSign(sign) && IsNumber(digits)
    ensures AssertUnsignedInteger(blanks + sign + digits) == Some(Numeral(sign, digits))
  {
    var t := sign + digits;
    SignedDigits(sign, digits);
    SignedRead(sign, digits);
    BlanksRead(blanks, t);
    Associate(blanks, sign, digits);
  }

  lemma {:induction false} BlanksRead(blanks: string, t: string)
    requires IsBlanks(blanks) && t != "" && !IsSpace(t[0])
    ensures AssertUnsignedInteger(t).Some? ==> AssertUnsignedInteger(blanks + t) == AssertUnsignedInteger(t)
  {
    SpacesInConcat(blanks, t);
    assert (blanks + t)[|blanks|..] == t && Spaces(t) == 0 && t[0..] == t;
  }

  lemma {:induction false} SignedRead(sign: string, digits: string)
    requires IsSign(sign) && IsNumber(digits)
    ensures AssertUnsignedInteger(sign + digits) == Some(Numeral(sign, digits))
  {
    var t := sign + digits;
    SignedDigits(sign, digits);
    AllDigits(digits);
    assert Spaces(t) == 0 && t[0..] == t;
  }

  lemma {:induction false} SignedDigits(sign: string, digits: string)
    requires IsSign(sign) && IsNumber(digits)
    ensures var t := sign + digits;
            && !IsSpace(t[0]) && (t[0] in {'+', '-'} <==> sign != "") && (t[0] == '-' <==> sign == "-")
            && t[|sign|..] == digits && digits[..|digits|] == digits
  {}

  /** Nothing else is an index, apart from an empty name, which is read as zero. */
  lemma {:induction false} OnlyNumerals(name: string)
    ensures AssertUnsignedInteger(name).Some? <==>
            name == "" || exists blanks, sign, digits ::
              IsBlanks(blanks) && IsSign(sign) && IsNumber(digits) && name == blanks + sign + digits
    ensures AssertUnsignedInteger("") == Some(0)
  {
    if AssertUnsignedInteger(name).Some? && name != "" {
      var t := name[Spaces(name)..];
      var k := if t != "" && t[0] in {'+', '-'} then 1 else 0;
      SpacesAreBlanks(name);
      assert name == name[..Spaces(name)] + t[..k] + t[k..];
      assert IsSign(t[..k]) && IsNumber(t[k..]);
    }
    forall blanks, sign, digits |
      IsBlanks(blanks) && IsSign(sign) && IsNumber(digits) && name == blanks + sign + digits
      ensures AssertUnsignedInteger(name).Some?
    {
      NumeralRead(blanks, sign, digits);
    }
  }

  /** A NUL ends the name of an element. */
  lemma {:induction false} NulEndsName(elems: seq<Json>, name: string, rest: string)
    requires '\0' !in name
    ensures Subvalue(Array(elems), name + "\0" + rest) == Subvalue(Array(elems), name)
  {
    CStringStops(name, rest);
    NoNulCString(name);
  }

  lemma {:induction false} CStringStops(name: string, rest: string)
    requires '\0' !in name
    ensures CString(name + "\0" + rest) == name
  {
    if name == "" {
      assert name + "\0" + rest == "\0" + rest;
    } else {
      CStringStops(name[1..], rest);
      assert (name + "\0" + rest)[1..] == name[1..] + "\0" + rest;
    }
  }

  /** A step into an array under a name without NUL: the empty name gives the first element, a numeral
      the element it stands for if there is one, and any other name none. */
  lemma {:induction false} ArrayStep(elems: seq<Json>, name: string)
    requires |elems| < TWO_64 && '\0' !in name
    ensures name == "" ==> Subvalue(Array(elems), name) == if elems == [] then None else Some(elems[0])
    ensures forall blanks, sign, digits |
              IsBlanks(blanks) && IsSign(sign) && IsNumber(digits) && name == blanks + sign + digits ::
              Subvalue(Array(elems), name) ==
              if Numeral(sign, digits) < |elems| then Some(elems[Numeral(sign, digits)]) else None
    ensures Subvalue(Array(elems), name).Some? ==> name == "" || exists blanks, sign, digits ::
              IsBlanks(blanks) && IsSign(sign) && IsNumber(digits) && name == blanks + sign + digits
  {
    NoNulCString(name);
    OnlyNumerals(name);
    forall blanks, sign, digits |
      IsBlanks(blanks) && IsSign(sign) && IsNumber(digits) && name == blanks + sign + digits
      ensures AssertUnsignedInteger(name) == Some(Numeral(sign, digits))
    {
      NumeralRead(blanks, sign, digits);
    }
  }

  lemma {:induction false} AllDigits(s: string)
    requires forall i :: 0 <= i < |s| ==> IsDigit(s[i])
    ensures Digits(s) == |s|
  {
    if s == "" {
    } else {
      AllDigits(s[1..]);
    }
  }

  lemma {:induction false} NoNulCString(s: string)
    requires '\0' !in s
    ensures CString(s) == s
  {
    if s == "" {
    } else {
      NoNulCString(s[1..]);
    }
  }

  /** A segment of digits, of any length: the step succeeds exactly when its decimal value is an
      index, although strtoul saturates. */
  lemma {:induction false} DigitsStep(elems: seq<Json>, name: string)
    requires |elems| < TWO_64 && name != ""
    requires forall i :: 0 <= i < |name| ==> IsDigit(name[i])
    ensures Subvalue(Array(elems), name) ==
            if Decimal(name) < |elems| then Some(elems[Decimal(name)]) else None
  {
    NoNulCString(name);
    AllDigits(name);
    assert name[0..] == name && name[..|name|] == name;
  }

  /** A minus sign wraps around: "-n" reaches element 2^64 - n, which no container is large enough
      to have unless n is close to 2^64. */
  lemma {:induction false} MinusStep(elems: seq<Json>, digits: string)
    requires |elems| < TWO_64 && digits != ""
    requires forall i :: 0 <= i < |digits| ==> IsDigit(digits[i])
    ensures var n := Decimal(digits);
            Subvalue(Array(elems), "-" + digits) ==
            if n == 0 && elems != [] then Some(elems[0])
            else if 0 < n < TWO_64 && TWO_64 - n < |elems| then Some(elems[TWO_64 - n])
            else None
  {
    var name := "-" + digits;
    NoNulCString(name);
    AllDigits(digits);
    assert Spaces(name) == 0 && name[0..] == name;
    assert name[1..] == digits && digits[..|digits|] == digits;
  }

  /** A leading zero names the same element by a different canonical path. */
  lemma {:induction false} LeadingZero(v: Json, digits: string)
    requires WellFormed(v) && v.Array? && digits != ""
    requires forall i :: 0 <= i < |digits| ==> IsDigit(digits[i])
    ensures Subvalue(v, "0" + digits) == Subvalue(v, digits)
    ensures "0" + digits != digits
  {
    DecimalLeadingZero(digits);
    DigitsStep(v.elems, digits);
    DigitsStep(v.elems, "0" + digits);
  }

  lemma {:induction false} DecimalLeadingZero(digits: string)
    requires forall i :: 0 <= i < |digits| ==> IsDigit(digits[i])
    ensures Decimal("0" + digits) == Decimal(digits)
  {
    var s := "0" + digits;
    if digits == "" {
      assert s == "0" && s[..0] == "";
    } else {
      DecimalLeadingZero(digits[..|digits| - 1]);
      assert s[..|s| - 1] == "0" + digits[..|digits| - 1];
    }
  }
}
