/** decode_url: a backtracking regular expression whose captures feed a port, a target and a
    transport. */
module Url {
  import opened Wrappers

  // ----- characters -----

  /** std::tolower in the "C" locale. */
  function Lower(c: char): char {
    if 'A' <= c <= 'Z' then (c as int + 32) as char else c
  }

  /** boost::algorithm::iequals. */
  predicate IEquals(a: string, b: string) {
    |a| == |b| && forall i :: 0 <= i < |a| ==> Lower(a[i]) == Lower(b[i])
  }

  // ----- the pattern -----

  datatype CharClass = Only(c: char) | NoneOf(cs: set<char>)

  predicate Accepts(charClass: CharClass, c: char) {
    match charClass
    case Only(d) => c == d
    case NoneOf(cs) => c !in cs
  }

  /** The pattern uses alternatives between words and greedily repeated character classes. */
  datatype Term =
    | Words(words: seq<string>)
    | Repeat(charClass: CharClass, min: nat, max: Option<nat>)

  const SCHEMES: seq<string> := ["ws", "wss", "http", "https"]

  const SCHEME: Term := Words(SCHEMES)
  const MARK: Term := Words(["://"])
  const HOST: Term := Repeat(NoneOf({'/', ' ', ':'}), 1, None)
  const COLON: Term := Repeat(Only(':'), 0, Some(1))
  const PORT: Term := Repeat(NoneOf({'/', ' '}), 0, None)
  const SLASH: Term := Repeat(Only('/'), 0, Some(1))
  const PATH: Term := Repeat(NoneOf({' ', '#', '?'}), 0, None)
  const QUESTION: Term := Repeat(Only('?'), 0, Some(1))
  const QUERY: Term := Repeat(NoneOf({' ', '#'}), 0, None)
  const HASH: Term := Repeat(Only('#'), 0, Some(1))
  const FRAGMENT: Term := Repeat(NoneOf({' '}), 0, None)

  const PATTERN: seq<Term> :=
    [SCHEME, MARK, HOST, COLON, PORT, SLASH, PATH, QUESTION, QUERY, HASH, FRAGMENT]

  // ----- the matcher, section 15.10.2 of ECMA-262, third edition -----

  /** A word of the pattern at a place of the subject, ignoring case. */
  predicate WordAt(w: string, s: string, i: nat) {
    i + |w| <= |s| && IEquals(s[i..i + |w|], w)
  }

  /** How many characters from i on the class accepts, up to the limit. */
  function Longest(charClass: CharClass, s: string, i: nat, limit: Option<nat>): (n: nat)
    requires i <= |s|
    ensures i + n <= |s|
    ensures forall k :: i <= k < i + n ==> Accepts(charClass, s[k])
    ensures limit.Some? ==> n <= limit.value
    ensures i + n < |s| && Accepts(charClass, s[i + n]) ==> limit == Some(n)
    decreases |s| - i
  {
    if i == |s| || !Accepts(charClass, s[i]) || limit == Some(0) then 0
    else
      1 + Longest(charClass, s, i + 1,
                  match limit case Some(m) => Some(m - 1) case None => None)
  }

  /** The first match, in backtracking order, of all terms from i to the end of the subject: the
      places where the terms end. */
  function Match(terms: seq<Term>, s: string, i: nat): (r: Option<seq<nat>>)
    requires i <= |s|
    ensures r.Some? ==> |r.value| == |terms|
    decreases |terms|, 0
  {
    if terms == [] then (if i == |s| then Some([]) else None)
    else match terms[0]
      case Words(words) => TryWords(words, terms[1..], s, i)
      case Repeat(charClass, min, max) =>
        var n := Longest(charClass, s, i, max);
        if n < min then None else TryCounts(n, min, terms[1..], s, i)
  }

  /** Alternatives are tried from left to right. */
  function TryWords(words: seq<string>, rest: seq<Term>, s: string, i: nat): (r: Option<seq<nat>>)
    requires i <= |s|
    ensures r.Some? ==> |r.value| == 1 + |rest|
    decreases |rest|, 1, |words|
  {
    if words == [] then None
    else
      var j := i + |words[0]|;
      if WordAt(words[0], s, i) && Match(rest, s, j).Some? then Some([j] + Match(rest, s, j).value)
      else TryWords(words[1..], rest, s, i)
  }

  /** Repetitions are tried from the longest down. */
  function TryCounts(n: nat, min: nat, rest: seq<Term>, s: string, i: nat): (r: Option<seq<nat>>)
    requires i + n <= |s| && min <= n
    ensures r.Some? ==> |r.value| == 1 + |rest|
    decreases |rest|, 1, n
  {
    match Match(rest, s, i + n)
    case Some(ends) => Some([i + n] + ends)
    case None => if n == min then None else TryCounts(n - 1, min, rest, s, i)
  }

  datatype Captures = Captures(
    protocol: string, host: string, port: string, path: string, query: string, fragment: string)

  function Slice(s: string, i: int, j: int): string {
    if 0 <= i <= j <= |s| then s[i..j] else ""
  }

  /** std::regex_match with the six groups of the pattern. */
  function RegexMatch(s: string): Option<Captures> {
    match Match(PATTERN, s, 0)
    case None => None
    case Some(e) =>
      Some(Captures(Slice(s, 0, e[0]), Slice(s, e[1], e[2]), Slice(s, e[3], e[4]),
                    Slice(s, e[4], e[6]), Slice(s, e[7], e[8]), Slice(s, e[9], e[10])))
  }

  // ----- from captures to parts -----

  datatype Transport = Tcp | Tls

  datatype UrlParts = UrlParts(hostname: string, service: string, pathEtc: string, transport: Transport)

  datatype Error = InvalidUrl | CannotDeducePort | CannotDeduceTransport | InvalidScheme

  datatype Result<+T> = Ok(value: T) | Err(error: Error)

  function PortOf(scheme: string, port: string): Result<string> {
    if port != "" then Ok(port)
    else if IEquals(scheme, "ws") || IEquals(scheme, "http") then Ok("http")
    else if IEquals(scheme, "wss") || IEquals(scheme, "https") then Ok("https")
    else Err(CannotDeducePort)
  }

  method DeducePort(scheme: string, givenPort: string) returns (r: Result<string>)
    ensures r == PortOf(scheme, givenPort)
  {
    var port := givenPort;
    if port == "" {
      if IEquals(scheme, "ws") || IEquals(scheme, "http") {
        port := "http";
      } else if IEquals(scheme, "wss") || IEquals(scheme, "https") {
        port := "https";
      } else {
        return Err(CannotDeducePort);
      }
    }
    return Ok(port);
  }

  function DeduceTransport(scheme: string, port: string): Result<Transport> {
    if scheme == "" then
      if port == "" then Ok(Tcp)
      else if IEquals(port, "http") || IEquals(port, "ws") || IEquals(port, "80") then Ok(Tcp)
      else if IEquals(port, "https") || IEquals(port, "wss") || IEquals(port, "443") then Ok(Tls)
      else Err(CannotDeduceTransport)
    else
      if IEquals(scheme, "http") || IEquals(scheme, "ws") then Ok(Tcp)
      else if IEquals(scheme, "https") || IEquals(scheme, "wss") then Ok(Tls)
      else Err(InvalidScheme)
  }

  /** A part with its introducing character, or nothing. */
  function Prefixed(c: char, part: string): string { if part == "" then "" else [c] + part }

  function TargetOf(path: string, query: string, fragment: string): string {
    (if path == "" then "/" else path) + Prefixed('?', query) + Prefixed('#', fragment)
  }

  method BuildTarget(path: string, query: string, fragment: string) returns (result: string)
    ensures result == TargetOf(path, query, fragment)
  {
    if path == "" {
      result := "/";
    } else {
      result := path;
    }
    if query != "" {
      result := result + ("?" + query);
    }
    if fragment != "" {
      result := result + ("#" + fragment);
    }
  }

  function PartsOf(m: Captures): Result<UrlParts> {
    match PortOf(m.protocol, m.port)
    case Err(e) => Err(e)
    case Ok(service) =>
      match DeduceTransport(m.protocol, m.port)
      case Err(e) => Err(e)
      case Ok(transport) =>
        Ok(UrlParts(m.host, service, TargetOf(m.path, m.query, m.fragment), transport))
  }

  function Decode(url: string): Result<UrlParts> {
    match RegexMatch(url)
    case None => Err(InvalidUrl)
    case Some(m) => PartsOf(m)
  }

  method DecodeUrl(url: string) returns (r: Result<UrlParts>)
    ensures r == Decode(url)
  {
    var m := RegexMatch(url);
    if m.None? {
      return Err(InvalidUrl);
    }
    var service := DeducePort(m.value.protocol, m.value.port);
    if service.Err? {
      return Err(service.error);
    }
    var target := BuildTarget(m.value.path, m.value.query, m.value.fragment);
    var transport := DeduceTransport(m.value.protocol, m.value.port);
    if transport.Err? {
      return Err(transport.error);
    }
    return Ok(UrlParts(m.value.host, service.value, target, transport.value));
  }
}
