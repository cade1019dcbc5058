/** The backtracking matcher computes what one scan from left to right computes, and decoding is
    stable under rebuilding. */
module UrlProofs {
  import opened Url
  import opened Wrappers

  // ----- the scan -----

  /** The next place from i on that holds one of the stops, or the end. */
  function UntilFrom(s: string, i: nat, stops: set<char>): (j: nat)
    requires i <= |s|
    ensures i <= j <= |s|
    ensures forall k :: i <= k < j ==> s[k] !in stops
    ensures j < |s| ==> s[j] in stops
    decreases |s| - i
  {
    if i == |s| || s[i] in stops then i else UntilFrom(s, i + 1, stops)
  }

  /** One place further if c is here. */
  function Skip(s: string, i: nat, c: char): (j: nat)
    requires i <= |s|
    ensures i <= j <= |s|
  {
    if i < |s| && s[i] == c then i + 1 else i
  }

  predicate HasScheme(s: string, w: string) {
    WordAt(w, s, 0) && WordAt("://", s, |w|)
  }

  function SchemeLength(s: string): Option<nat> {
    if HasScheme(s, "ws") then Some(2)
    else if HasScheme(s, "wss") then Some(3)
    else if HasScheme(s, "http") then Some(4)
    else if HasScheme(s, "https") then Some(5)
    else None
  }

  /** What follows the scheme: the host ends at the first slash or colon, the port at the next
      slash, the path at a question mark or hash, the query at a hash. */
  function ScanBody(protocol: string, s: string, b: nat): Captures
    requires b <= |s|
  {
    var host := UntilFrom(s, b, {'/', ':'});
    var colon := Skip(s, host, ':');
    var port := UntilFrom(s, colon, {'/'});
    var path := UntilFrom(s, port, {'?', '#'});
    var mark := Skip(s, path, '?');
    var query := UntilFrom(s, mark, {'#'});
    var hash := Skip(s, query, '#');
    Captures(protocol, s[b..host], s[colon..port], s[port..path], s[mark..query], s[hash..])
  }

  function Scan(s: string): Option<Captures> {
    match SchemeLength(s)
    case None => None
    case Some(n) =>
      var c := ScanBody(s[..n], s, n + 3);
      if ' ' in s[n + 3..] || c.host == "" then None else Some(c)
  }

  // ----- backtracking is not needed -----

  /** When the rest matches after the longest repetition, nothing shorter is tried. */
  lemma {:induction false} LongestFirst(terms: seq<Term>, s: string, i: nat)
    requires terms != [] && terms[0].Repeat? && i <= |s|
    requires Longest(terms[0].charClass, s, i, terms[0].max) >= terms[0].min
    requires Match(terms[1..], s, i + Longest(terms[0].charClass, s, i, terms[0].max)).Some?
    ensures var j := i + Longest(terms[0].charClass, s, i, terms[0].max);
            Match(terms, s, i) == Some([j] + Match(terms[1..], s, j).value)
  {}

  /** Where a repetition ends when it takes all it can. */
  function TermEnd(t: Term, s: string, i: nat): (j: nat)
    requires i <= |s| && t.Repeat?
    ensures i <= j <= |s|
  {
    i + Longest(t.charClass, s, i, t.max)
  }

  ghost predicate NoSpaceFrom(s: string, i: nat) {
    forall k :: i <= k < |s| ==> s[k] != ' '
  }

  ghost predicate Repetitions(terms: seq<Term>) {
    forall k :: 0 <= k < |terms| ==> terms[k].Repeat?
  }

  function GreedyEnds(terms: seq<Term>, s: string, i: nat): (ends: seq<nat>)
    requires i <= |s| && Repetitions(terms)
    ensures |ends| == |terms|
    decreases |terms|
  {
    if terms == [] then []
    else [TermEnd(terms[0], s, i)] + GreedyEnds(terms[1..], s, TermEnd(terms[0], s, i))
  }

  /** Terms that may all be empty, the last taking anything but a space, match greedily. */
  lemma {:induction false} GreedyMatches(terms: seq<Term>, s: string, i: nat)
    requires i <= |s| && NoSpaceFrom(s, i) && Repetitions(terms)
    requires terms != [] && (forall k :: 0 <= k < |terms| ==> terms[k].min == 0)
    requires terms[|terms| - 1].charClass == NoneOf({' '}) && terms[|terms| - 1].max.None?
    ensures Match(terms, s, i) == Some(GreedyEnds(terms, s, i))
    decreases |terms|
  {
    var j := TermEnd(terms[0], s, i);
    if |terms| == 1 {
      assert j == |s|;
    } else {
      GreedyMatches(terms[1..], s, j);
    }
    LongestFirst(terms, s, i);
  }

  // ----- what no match can contain -----

  predicate RejectsSpace(t: Term) {
    match t
    case Words(words) => forall w | w in words :: ' ' !in w
    case Repeat(charClass, _, _) => !Accepts(charClass, ' ')
  }

  lemma {:induction false} MatchHasNoSpace(terms: seq<Term>, s: string, i: nat)
    requires i <= |s| && Match(terms, s, i).Some?
    requires forall t | t in terms :: RejectsSpace(t)
    ensures NoSpaceFrom(s, i)
    decreases |terms|, 0
  {
    if terms == [] {
    } else {
      var rest := terms[1..];
      assert RejectsSpace(terms[0]);
      match terms[0]
      case Words(words) => TryWordsHasNoSpace(words, rest, s, i);
      case Repeat(charClass, min, max) =>
        TryCountsHasNoSpace(Longest(charClass, s, i, max), min, rest, s, i, charClass);
    }
  }

  lemma {:induction false} TryWordsHasNoSpace(words: seq<string>, rest: seq<Term>, s: string, i: nat)
    requires i <= |s| && TryWords(words, rest, s, i).Some?
    requires forall t | t in rest :: RejectsSpace(t)
    requires forall w | w in words :: ' ' !in w
    ensures NoSpaceFrom(s, i)
    decreases |rest|, 1, |words|
  {
    var w, j := words[0], i + |words[0]|;
    if WordAt(w, s, i) && Match(rest, s, j).Some? {
      MatchHasNoSpace(rest, s, j);
      forall k | i <= k < j ensures s[k] != ' ' {
        assert Lower(s[i..j][k - i]) == Lower(w[k - i]) && w[k - i] in w;
      }
    } else {
      TryWordsHasNoSpace(words[1..], rest, s, i);
    }
  }

  lemma {:induction false} TryCountsHasNoSpace(n: nat, min: nat, rest: seq<Term>, s: string, i: nat,
                                                  charClass: CharClass)
    requires i + n <= |s| && min <= n && TryCounts(n, min, rest, s, i).Some?
    requires forall t | t in rest :: RejectsSpace(t)
    requires !Accepts(charClass, ' ') && forall k :: i <= k < i + n ==> Accepts(charClass, s[k])
    ensures NoSpaceFrom(s, i)
    decreases |rest|, 1, n
  {
    if Match(rest, s, i + n).Some? {
      MatchHasNoSpace(rest, s, i + n);
    } else {
      TryCountsHasNoSpace(n - 1, min, rest, s, i, charClass);
    }
  }

  const BODY: seq<Term> := [HOST, COLON, PORT, SLASH, PATH, QUESTION, QUERY, HASH, FRAGMENT]

  lemma {:induction false} BodyRejectsSpace()
    ensures forall t | t in BODY :: RejectsSpace(t)
  {
    forall i | 0 <= i < |BODY| ensures RejectsSpace(BODY[i]) {}
  }

  // ----- the scheme -----

  lemma {:induction false} MatchAfterScheme(s: string, n: nat)
    requires n <= |s|
    ensures Match([MARK] + BODY, s, n) ==
            if WordAt("://", s, n) && Match(BODY, s, n + 3).Some?
            then Some([n + 3] + Match(BODY, s, n + 3).value) else None
  {
    assert ([MARK] + BODY)[1..] == BODY;
    assert TryWords([], BODY, s, n) == None;
    assert ["://"][1..] == [];
  }

  /** At most one alternative is followed by "://". */
  lemma {:induction false} SchemesExclusive(s: string)
    ensures !(HasScheme(s, "ws") && HasScheme(s, "wss"))
    ensures !(HasScheme(s, "http") && HasScheme(s, "https"))
    ensures !((HasScheme(s, "ws") || HasScheme(s, "wss")) && (HasScheme(s, "http") || HasScheme(s, "https")))
  {
    if WordAt("://", s, 2) { assert Lower(s[2..5][0]) == ':'; }
    if WordAt("wss", s, 0) { assert Lower(s[0..3][2]) == 's'; assert Lower(s[0..3][0]) == 'w'; }
    if WordAt("ws", s, 0) { assert Lower(s[0..2][0]) == 'w'; }
    if WordAt("://", s, 4) { assert Lower(s[4..7][0]) == ':'; }
    if WordAt("https", s, 0) { assert Lower(s[0..5][4]) == 's'; assert Lower(s[0..5][0]) == 'h'; }
    if WordAt("http", s, 0) { assert Lower(s[0..4][0]) == 'h'; }
  }

  /** The outcome of the first alternative w with everything that follows it. */
  function SchemeOutcome(s: string, w: string): Option<seq<nat>> {
    if !HasScheme(s, w) then None
    else match Match(BODY, s, |w| + 3)
      case None => None
      case Some(ends) => Some([|w|, |w| + 3] + ends)
  }

  function OrElse<T>(a: Option<T>, b: Option<T>): Option<T> { if a.Some? then a else b }

  lemma {:induction false} SchemeTried(s: string, w: string, words: seq<string>)
    ensures TryWords([w] + words, [MARK] + BODY, s, 0)
         == OrElse(SchemeOutcome(s, w), TryWords(words, [MARK] + BODY, s, 0))
  {
    assert ([w] + words)[1..] == words;
    if WordAt(w, s, 0) {
      MatchAfterScheme(s, |w|);
      if HasScheme(s, w) && Match(BODY, s, |w| + 3).Some? {
        var ends := Match(BODY, s, |w| + 3).value;
        assert [|w|] + ([|w| + 3] + ends) == [|w|, |w| + 3] + ends;
      }
    }
  }

  lemma {:induction false} SchemesTried(s: string)
    ensures Match(PATTERN, s, 0)
         == OrElse(SchemeOutcome(s, "ws"), OrElse(SchemeOutcome(s, "wss"),
            OrElse(SchemeOutcome(s, "http"), SchemeOutcome(s, "https"))))
  {
    assert PATTERN == [SCHEME] + ([MARK] + BODY);
    assert SCHEMES == ["ws"] + (["wss"] + (["http"] + (["https"] + [])));
    SchemeTried(s, "ws", ["wss"] + (["http"] + (["https"] + [])));
    SchemeTried(s, "wss", ["http"] + (["https"] + []));
    SchemeTried(s, "http", ["https"] + []);
    SchemeTried(s, "https", []);
  }

  lemma {:induction false} MatchSchemes(s: string)
    ensures Match(PATTERN, s, 0) ==
            match SchemeLength(s)
            case None => None
            case Some(n) =>
              match Match(BODY, s, n + 3)
              case None => None
              case Some(ends) => Some([n, n + 3] + ends)
  {
    SchemesTried(s);
    SchemesExclusive(s);
  }

  /** From the host on: a match is greedy throughout, and there is one exactly when no space is left
      and the host is not empty. */
  lemma {:induction false} MatchBody(s: string, i: nat)
    requires i <= |s|
    ensures Match(BODY, s, i) ==
            if NoSpaceFrom(s, i) && TermEnd(HOST, s, i) > i then Some(GreedyEnds(BODY, s, i)) else None
  {
    if Match(BODY, s, i).Some? {
      BodyRejectsSpace();
      MatchHasNoSpace(BODY, s, i);
    }
    if NoSpaceFrom(s, i) && TermEnd(HOST, s, i) > i {
      assert BODY[1..][|BODY| - 2] == FRAGMENT;
      GreedyMatches(BODY[1..], s, TermEnd(HOST, s, i));
      LongestFirst(BODY, s, i);
    }
  }

  // ----- greedy ends are the places of the scan -----

  lemma {:induction false} UntilIs(s: string, i: nat, stops: set<char>, j: nat)
    requires i <= j <= |s|
    requires forall k :: i <= k < j ==> s[k] !in stops
    requires j < |s| ==> s[j] in stops
    ensures UntilFrom(s, i, stops) == j
  {}

  lemma {:induction false} RunEnd(t: Term, s: string, i: nat, stops: set<char>)
    requires i <= |s| && NoSpaceFrom(s, i)
    requires t.Repeat? && t.charClass == NoneOf(stops + {' '}) && t.max.None?
    ensures TermEnd(t, s, i) == UntilFrom(s, i, stops)
  {
    UntilIs(s, i, stops, TermEnd(t, s, i));
  }

  lemma {:induction false} OptionalEnd(t: Term, s: string, i: nat, c: char)
    requires i <= |s| && t == Repeat(Only(c), 0, Some(1))
    ensures TermEnd(t, s, i) == Skip(s, i, c)
  {}

  /** The term for the path starts with an optional slash, which no stop of the path is. */
  lemma {:induction false} PathEnd(s: string, i: nat)
    requires i <= |s| && NoSpaceFrom(s, i)
    ensures TermEnd(PATH, s, TermEnd(SLASH, s, i)) == UntilFrom(s, i, {'?', '#'})
  {
    OptionalEnd(SLASH, s, i, '/');
    RunEnd(PATH, s, Skip(s, i, '/'), {'?', '#'});
    UntilIs(s, i, {'?', '#'}, UntilFrom(s, Skip(s, i, '/'), {'?', '#'}));
  }

  lemma {:induction false} FragmentEnd(s: string, i: nat)
    requires i <= |s| && NoSpaceFrom(s, i)
    ensures TermEnd(FRAGMENT, s, i) == |s|
  {}

  lemma {:induction false} GreedyEndAt(terms: seq<Term>, s: string, i: nat, k: nat, t: Term)
    requires i <= |s| && Repetitions(terms) && 0 < k < |terms| && terms[k] == t
    ensures GreedyEnds(terms, s, i)[k - 1] <= |s|
    ensures GreedyEnds(terms, s, i)[k] == TermEnd(t, s, GreedyEnds(terms, s, i)[k - 1])
    decreases k
  {
    var j := TermEnd(terms[0], s, i);
    var rest := GreedyEnds(terms[1..], s, j);
    assert GreedyEnds(terms, s, i) == [j] + rest;
    if k == 1 {
      assert rest[0] == TermEnd(t, s, j);
    } else {
      GreedyEndAt(terms[1..], s, j, k - 1, t);
    }
  }

  function BodyEnd(s: string, b: nat, k: nat): (j: nat)
    requires b <= |s| && k < |BODY|
  {
    GreedyEnds(BODY, s, b)[k]
  }

  lemma {:induction false} BodyEndNext(s: string, b: nat, k: nat, t: Term)
    requires b <= |s| && 0 < k < |BODY| && BODY[k] == t
    ensures t.Repeat? && BodyEnd(s, b, k - 1) <= |s|
    ensures BodyEnd(s, b, k) == TermEnd(t, s, BodyEnd(s, b, k - 1))
  {
    GreedyEndAt(BODY, s, b, k, t);
  }

  lemma {:induction false} AuthorityPlaces(s: string, b: nat)
    requires b <= |s| && NoSpaceFrom(s, b)
    ensures BodyEnd(s, b, 0) == UntilFrom(s, b, {'/', ':'})
    ensures BodyEnd(s, b, 1) == Skip(s, BodyEnd(s, b, 0), ':')
    ensures b <= BodyEnd(s, b, 2) <= |s|
    ensures BodyEnd(s, b, 2) == UntilFrom(s, BodyEnd(s, b, 1), {'/'})
  {
    RunEnd(HOST, s, b, {'/', ':'});
    BodyEndNext(s, b, 1, COLON);
    OptionalEnd(COLON, s, BodyEnd(s, b, 0), ':');
    BodyEndNext(s, b, 2, PORT);
    RunEnd(PORT, s, BodyEnd(s, b, 1), {'/'});
  }

  lemma {:induction false} TargetPlaces(s: string, b: nat)
    requires b <= |s| && NoSpaceFrom(s, b) && b <= BodyEnd(s, b, 2) <= |s|
    ensures BodyEnd(s, b, 4) == UntilFrom(s, BodyEnd(s, b, 2), {'?', '#'})
    ensures BodyEnd(s, b, 5) == Skip(s, BodyEnd(s, b, 4), '?')
    ensures b <= BodyEnd(s, b, 5) <= |s|
  {
    BodyEndNext(s, b, 3, SLASH);
    BodyEndNext(s, b, 4, PATH);
    PathEnd(s, BodyEnd(s, b, 2));
    BodyEndNext(s, b, 5, QUESTION);
    OptionalEnd(QUESTION, s, BodyEnd(s, b, 4), '?');
  }

  lemma {:induction false} TailPlaces(s: string, b: nat)
    requires b <= |s| && NoSpaceFrom(s, b) && b <= BodyEnd(s, b, 5) <= |s|
    ensures BodyEnd(s, b, 6) == UntilFrom(s, BodyEnd(s, b, 5), {'#'})
    ensures BodyEnd(s, b, 7) == Skip(s, BodyEnd(s, b, 6), '#')
    ensures BodyEnd(s, b, 8) == |s|
  {
    BodyEndNext(s, b, 6, QUERY);
    RunEnd(QUERY, s, BodyEnd(s, b, 5), {'#'});
    BodyEndNext(s, b, 7, HASH);
    OptionalEnd(HASH, s, BodyEnd(s, b, 6), '#');
    BodyEndNext(s, b, 8, FRAGMENT);
    FragmentEnd(s, BodyEnd(s, b, 7));
  }

  /** A greedy match of the body captures what the scan finds. */
  lemma {:induction false} CapturesAreScanned(protocol: string, s: string, b: nat)
    requires b <= |s| && NoSpaceFrom(s, b)
    ensures var e := GreedyEnds(BODY, s, b);
            ScanBody(protocol, s, b) == Captures(protocol, Slice(s, b, e[0]), Slice(s, e[1], e[2]),
                                                 Slice(s, e[2], e[4]), Slice(s, e[5], e[6]), Slice(s, e[7], e[8]))
  {
    AuthorityPlaces(s, b);
    TargetPlaces(s, b);
    TailPlaces(s, b);
  }

  lemma {:induction false} SpaceInRest(s: string, b: nat)
    requires b <= |s|
    ensures ' ' in s[b..] <==> !NoSpaceFrom(s, b)
  {
    if k :| b <= k < |s| && s[k] == ' ' { assert s[b..][k - b] == ' '; }
  }

  lemma {:induction false} BodyIsScanned(protocol: string, s: string, b: nat)
    requires b <= |s|
    ensures Match(BODY, s, b).Some? <==> NoSpaceFrom(s, b) && ScanBody(protocol, s, b).host != ""
    ensures Match(BODY, s, b).Some? ==>
              var e := Match(BODY, s, b).value;
              ScanBody(protocol, s, b) == Captures(protocol, Slice(s, b, e[0]), Slice(s, e[1], e[2]),
                                                   Slice(s, e[2], e[4]), Slice(s, e[5], e[6]), Slice(s, e[7], e[8]))
  {
    MatchBody(s, b);
    if NoSpaceFrom(s, b) {
      CapturesAreScanned(protocol, s, b);
      GreedyStart(s, b);
    }
  }

  lemma {:induction false} GreedyStart(s: string, b: nat)
    requires b <= |s|
    ensures b <= GreedyEnds(BODY, s, b)[0] == TermEnd(HOST, s, b) <= |s|
  {}

  lemma {:induction false} MatchFromScheme(s: string, n: nat)
    requires SchemeLength(s) == Some(n)
    ensures RegexMatch(s) ==
            if NoSpaceFrom(s, n + 3) && ScanBody(s[..n], s, n + 3).host != ""
            then Some(ScanBody(s[..n], s, n + 3)) else None
  {
    MatchSchemes(s);
    BodyIsScanned(s[..n], s, n + 3);
  }

  /** Regular-expression matching with backtracking and the scan accept the same subjects and give
      the same captures. */
  lemma {:induction false} MatchIsScan(s: string)
    ensures RegexMatch(s) == Scan(s)
  {
    match SchemeLength(s)
    case None => MatchSchemes(s);
    case Some(n) =>
      SpaceInRest(s, n + 3);
      MatchFromScheme(s, n);
  }
}
