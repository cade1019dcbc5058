/** Sequences without repetition, and how many elements they have. */
module Collections {

  function Elements<T(==)>(s: seq<T>): set<T> { set x | x in s }

  ghost predicate NoRepeats<T>(s: seq<T>) {
    forall i, j :: 0 <= i < j < |s| ==> s[i] != s[j]
  }

  lemma {:induction false} NoRepeatsSnoc<T>(s: seq<T>, x: T)
    requires NoRepeats(s) && x !in Elements(s)
    ensures NoRepeats(s + [x]) && Elements(s + [x]) == Elements(s) + {x}
  {}

  lemma {:induction false} ElementsCons<T>(s: seq<T>)
    requires s != []
    ensures Elements(s) == {s[0]} + Elements(s[1..])
  {
    assert s == [s[0]] + s[1..];
  }

  lemma {:induction false} NoRepeatsTail<T>(s: seq<T>)
    requires NoRepeats(s) && s != []
    ensures NoRepeats(s[1..]) && s[0] !in s[1..]
  {
    var rest := s[1..];
    forall i, j | 0 <= i < j < |rest| ensures rest[i] != rest[j] { assert s[i + 1] != s[j + 1]; }
    forall j | 0 <= j < |rest| ensures rest[j] != s[0] { assert s[0] != s[j + 1]; }
  }

  lemma {:induction false} CountElements<T>(s: seq<T>)
    requires NoRepeats(s)
    ensures |Elements(s)| == |s|
  {
    if s == [] {
    } else {
      NoRepeatsTail(s);
      CountElements(s[1..]);
      ElementsCons(s);
    }
  }

  lemma {:induction false} OccursOnce<T>(s: seq<T>, i: nat)
    requires NoRepeats(s) && i < |s|
    ensures multiset(s)[s[i]] == 1
  {
    assert s[i] !in s[..i] && s[i] !in s[i + 1..];
    assert s == s[..i] + [s[i]] + s[i + 1..];
  }

  lemma {:induction false} OccursTwice<T>(s: seq<T>, i: nat, j: nat)
    requires i < j < |s| && s[i] == s[j]
    ensures multiset(s)[s[i]] >= 2
  {
    assert s == s[..j] + [s[j]] + s[j + 1..];
    assert s[i] in s[..j];
  }

  lemma {:induction false} SplitLast<T>(front: seq<T>, back: seq<T>)
    requires back != []
    ensures front + back == front + back[..|back| - 1] + [back[|back| - 1]]
  {}

  lemma {:induction false} NothingMore<T>(s: seq<T>)
    ensures s + [] == s
  {}

  /** The numbers below n. */
  function Below(n: nat): (s: set<nat>)
    ensures |s| == n && forall a :: a in s <==> 0 <= a < n
  {
    if n == 0 then {} else Below(n - 1) + {n - 1}
  }
}
