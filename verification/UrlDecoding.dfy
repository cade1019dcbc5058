/** What decode_url accepts, what its parts look like, and that rebuilding a URL from its parts and
    decoding it again gives the same parts. */
module UrlDecoding {
  import opened Url
  import opened UrlProofs
  import opened Wrappers

  // ----- spelling -----

  /** c is the ASCII capital of the small letter d. */
  predicate CapitalOf(c: char, d: char) { 'A' <= c <= 'Z' && d as int == c as int + 32 }

  /** Two texts are equal when case is ignored exactly when they differ, place by place, in nothing but
      the case of letters. */
  lemma {:induction false} IEqualsIff(a: string, b: string)
    ensures IEquals(a, b) <==>
            && |a| == |b|
            && forall i :: 0 <= i < |a| ==> a[i] == b[i] || CapitalOf(a[i], b[i]) || CapitalOf(b[i], a[i])
  {
    forall i | 0 <= i < |a| && i < |b|
      ensures Lower(a[i]) == Lower(b[i]) <==> a[i] == b[i] || CapitalOf(a[i], b[i]) || CapitalOf(b[i], a[i])
    {}
  }

  /** Each character is the one of w or its capital. */
  predicate Spells(s: string, w: string) {
    |s| == |w| && forall i :: 0 <= i < |s| ==> s[i] == w[i] || CapitalOf(s[i], w[i])
  }

  predicate NoCapitals(w: string) { forall i :: 0 <= i < |w| ==> !('A' <= w[i] <= 'Z') }

  lemma {:induction false} SpellsIffIEquals(s: string, w: string)
    requires NoCapitals(w)
    ensures Spells(s, w) <==> IEquals(s, w)
  {
    IEqualsIff(s, w);
  }

  /** The url begins with the scheme in any case, then "://". */
  predicate Begins(url: string, w: string) {
    |w| + 3 <= |url| && Spells(url[..|w|], w) && url[|w|..|w| + 3] == "://"
  }

  lemma {:induction false} BeginsIffHasScheme(url: string, w: string)
    requires NoCapitals(w)
    ensures Begins(url, w) <==> HasScheme(url, w)
  {
    if |w| + 3 <= |url| {
      assert url[0..|w|] == url[..|w|];
      SpellsIffIEquals(url[..|w|], w);
      MarkHasNoCase(url[|w|..|w| + 3]);
    }
  }

  lemma {:induction false} MarkHasNoCase(s: string)
    ensures IEquals(s, "://") <==> s == "://"
  {
    IEqualsIff(s, "://");
  }

  lemma {:induction false} SchemesAreSmall(w: string)
    requires w in SCHEMES
    ensures NoCapitals(w)
  {}

  // ----- acceptance -----

  /** A known scheme in any case, "://", a character that can start a host, and no space after it. */
  ghost predicate Acceptable(url: string) {
    exists w | w in SCHEMES :: Begins(url, w) && HostFollows(url, |w| + 3)
  }

  ghost predicate HostFollows(url: string, b: nat) {
    b < |url| && url[b] !in {'/', ':'} && NoSpaceFrom(url, b)
  }

  lemma {:induction false} SchemeLengthIs(url: string, w: string)
    requires w in SCHEMES && HasScheme(url, w)
    ensures SchemeLength(url) == Some(|w|)
  {
    SchemesExclusive(url);
  }

  lemma {:induction false} KnownScheme(url: string) returns (w: string)
    requires SchemeLength(url).Some?
    ensures w in SCHEMES && HasScheme(url, w) && |w| == SchemeLength(url).value
  {
    w := if HasScheme(url, "ws") then "ws" else if HasScheme(url, "wss") then "wss"
         else if HasScheme(url, "http") then "http" else "https";
    assert SCHEMES[0] == "ws" && SCHEMES[1] == "wss" && SCHEMES[2] == "http" && SCHEMES[3] == "https";
  }

  lemma {:induction false} AcceptableScheme(url: string)
    requires Acceptable(url)
    ensures SchemeLength(url).Some? && HostFollows(url, SchemeLength(url).value + 3)
  {
    var w :| w in SCHEMES && Begins(url, w) && HostFollows(url, |w| + 3);
    SchemesAreSmall(w);
    BeginsIffHasScheme(url, w);
    SchemeLengthIs(url, w);
  }

  lemma {:induction false} HostIffFollows(protocol: string, url: string, b: nat)
    requires b <= |url|
    ensures ' ' !in url[b..] && ScanBody(protocol, url, b).host != "" <==> HostFollows(url, b)
  {
    SpaceInRest(url, b);
  }

  lemma {:induction false} ScanAcceptsIff(url: string)
    ensures Scan(url).Some? <==> Acceptable(url)
  {
    if SchemeLength(url).Some? {
      var w := KnownScheme(url);
      HostIffFollows(url[..|w|], url, |w| + 3);
      SchemesAreSmall(w);
      BeginsIffHasScheme(url, w);
    }
    if Acceptable(url) {
      AcceptableScheme(url);
    }
  }

  function TransportOf(w: string): Transport { if w == "wss" || w == "https" then Tls else Tcp }

  function DefaultService(w: string): string { if w == "wss" || w == "https" then "https" else "http" }

  /** A protocol spelled in any case deduces what its scheme deduces. */
  lemma {:induction false} DeductionsSucceed(protocol: string, port: string, w: string)
    requires w in SCHEMES && Spells(protocol, w)
    ensures PortOf(protocol, port) == Ok(if port == "" then DefaultService(w) else port)
    ensures DeduceTransport(protocol, port) == Ok(TransportOf(w))
  {
    SpellsIffIEquals(protocol, w);
    assert w == "ws" || w == "wss" || w == "http" || w == "https";
    if |protocol| == 4 { assert Lower(protocol[0]) == 'h'; }
    assert "http"[0] == 'h' && "https"[0] == 'h';
  }

  /** Any other protocol deduces nothing but a given port. */
  lemma {:induction false} DeductionsFail(protocol: string, port: string)
    requires forall w | w in SCHEMES :: !Spells(protocol, w)
    ensures PortOf(protocol, port) == if port != "" then Ok(port) else Err(CannotDeducePort)
    ensures protocol != "" ==> DeduceTransport(protocol, port) == Err(InvalidScheme)
  {
    assert SCHEMES[0] == "ws" && SCHEMES[1] == "wss" && SCHEMES[2] == "http" && SCHEMES[3] == "https";
    forall w | w in SCHEMES ensures !IEquals(protocol, w) { SpellsIffIEquals(protocol, w); }
  }

  const PLAIN_SERVICES: seq<string> := ["http", "ws", "80"]
  const SECURE_SERVICES: seq<string> := ["https", "wss", "443"]

  predicate SpellsOne(s: string, words: seq<string>) { exists w | w in words :: Spells(s, w) }

  /** Without a scheme the port decides. */
  lemma {:induction false} TransportOfPort(port: string)
    ensures DeduceTransport("", port) ==
            if port == "" || SpellsOne(port, PLAIN_SERVICES) then Ok(Tcp)
            else if SpellsOne(port, SECURE_SERVICES) then Ok(Tls)
            else Err(CannotDeduceTransport)
  {
    var plain, secure := PLAIN_SERVICES, SECURE_SERVICES;
    assert plain[0] == "http" && plain[1] == "ws" && plain[2] == "80";
    assert secure[0] == "https" && secure[1] == "wss" && secure[2] == "443";
    forall w | w in plain || w in secure ensures Spells(port, w) <==> IEquals(port, w) {
      SpellsIffIEquals(port, w);
    }
  }

  /** The parts that captures give under a known scheme. */
  function PartsFrom(w: string, c: Captures): UrlParts {
    UrlParts(c.host, if c.port == "" then DefaultService(w) else c.port,
             TargetOf(c.path, c.query, c.fragment), TransportOf(w))
  }

  lemma {:induction false} PartsOfKnown(c: Captures, w: string)
    requires w in SCHEMES && Spells(c.protocol, w)
    ensures PartsOf(c) == Ok(PartsFrom(w, c))
  {
    DeductionsSucceed(c.protocol, c.port, w);
  }

  /** Decoding in terms of the scan. */
  lemma {:induction false} DecodeScanned(url: string) returns (w: string)
    ensures Scan(url).None? ==> Decode(url) == Err(InvalidUrl)
    ensures Scan(url).Some? ==>
              && w in SCHEMES && HasScheme(url, w) && Spells(Scan(url).value.protocol, w)
              && Decode(url) == PartsOf(Scan(url).value)
  {
    w := "ws";
    MatchIsScan(url);
    if Scan(url).Some? {
      w := KnownScheme(url);
      SchemesAreSmall(w);
      BeginsIffHasScheme(url, w);
    }
  }

  /** decode_url succeeds exactly on acceptable subjects, and "invalid url" is the only way it fails:
      the errors of the two deductions cannot be reached. TLS holds exactly for wss and https. */
  lemma {:induction false} DecodeIff(url: string)
    ensures Decode(url).Ok? <==> Acceptable(url)
    ensures Decode(url).Err? ==> Decode(url).error == InvalidUrl
    ensures Decode(url).Ok? ==>
              (Decode(url).value.transport == Tls <==> Begins(url, "wss") || Begins(url, "https"))
  {
    ScanAcceptsIff(url);
    var w := DecodeScanned(url);
    if Scan(url).Some? {
      PartsOfKnown(Scan(url).value, w);
      TlsIffSecureScheme(url, w);
    }
  }

  lemma {:induction false} TlsIffSecureScheme(url: string, w: string)
    requires w in SCHEMES && HasScheme(url, w)
    ensures TransportOf(w) == Tls <==> Begins(url, "wss") || Begins(url, "https")
  {
    SchemesExclusive(url);
    BeginsIffHasScheme(url, "wss");
    BeginsIffHasScheme(url, "https");
    assert w == "ws" || w == "wss" || w == "http" || w == "https";
  }

  // ----- shape of the parts -----

  ghost predicate Free(s: string, cs: set<char>) {
    forall k :: 0 <= k < |s| ==> s[k] !in cs
  }

  ghost predicate WellShaped(c: Captures) {
    && c.host != "" && Free(c.host, {'/', ':', ' '})
    && Free(c.port, {'/', ' '})
    && (c.path == "" ==> c.query == "" && c.fragment == "")
    && (c.path != "" ==> c.path[0] == '/')
    && Free(c.path, {'?', '#', ' '}) && Free(c.query, {'#', ' '}) && Free(c.fragment, {' '})
  }

  /** The captures are free of the delimiters that end them; without a path there is neither query
      nor fragment, and a path begins with a slash. */
  lemma {:induction false} CapturesWellShaped(url: string)
    requires Scan(url).Some?
    ensures WellShaped(Scan(url).value)
  {
    var n := SchemeLength(url).value;
    SpaceInRest(url, n + 3);
    BodyWellShaped(url[..n], url, n + 3);
  }

  lemma {:induction false} BodyWellShaped(protocol: string, s: string, b: nat)
    requires b <= |s| && NoSpaceFrom(s, b) && ScanBody(protocol, s, b).host != ""
    ensures WellShaped(ScanBody(protocol, s, b))
  {
    var c := ScanBody(protocol, s, b);
    var host := UntilFrom(s, b, {'/', ':'});
    var colon := Skip(s, host, ':');
    var port := UntilFrom(s, colon, {'/'});
    var path := UntilFrom(s, port, {'?', '#'});
    var mark := Skip(s, path, '?');
    var query := UntilFrom(s, mark, {'#'});
    SliceFree(s, b, host, {'/', ':'});
    SliceFree(s, colon, port, {'/'});
    SliceFree(s, port, path, {'?', '#'});
    SliceFree(s, mark, query, {'#'});
    SliceFree(s, Skip(s, query, '#'), |s|, {});
    assert {'/', ':'} + {' '} == {'/', ':', ' '} && {'/'} + {' '} == {'/', ' '};
    assert {'?', '#'} + {' '} == {'?', '#', ' '} && {'#'} + {' '} == {'#', ' '} && {} + {' '} == {' '};
    assert s[Skip(s, query, '#')..] == s[Skip(s, query, '#')..|s|];
    assert port < |s| ==> s[port] == '/';
  }

  lemma {:induction false} SliceFree(s: string, i: nat, j: nat, stops: set<char>)
    requires i <= j <= |s| && NoSpaceFrom(s, i)
    requires forall k :: i <= k < j ==> s[k] !in stops
    ensures Free(s[i..j], stops + {' '})
  {}

  /** A decoded URL has a known scheme and well-shaped captures, and its parts are theirs. */
  lemma {:induction false} Decoded(url: string) returns (w: string, c: Captures)
    requires Decode(url).Ok?
    ensures w in SCHEMES && HasScheme(url, w) && WellShaped(c)
    ensures Decode(url) == Ok(PartsFrom(w, c))
  {
    w := DecodeScanned(url);
    CapturesWellShaped(url);
    c := Scan(url).value;
    PartsOfKnown(c, w);
  }

  lemma {:induction false} PartsFromWellShaped(w: string, c: Captures)
    requires w in SCHEMES && WellShaped(c)
    ensures var p := PartsFrom(w, c);
            && p.hostname != "" && Free(p.hostname, {'/', ':', ' '})
            && p.service != "" && Free(p.service, {'/', ' '})
            && p.pathEtc != "" && p.pathEtc[0] == '/' && Free(p.pathEtc, {' '})
  {}

  /** The parts of a decoded URL, as a caller sees them. */
  lemma {:induction false} PartsWellShaped(url: string)
    requires Decode(url).Ok?
    ensures var p := Decode(url).value;
            && p.hostname != "" && Free(p.hostname, {'/', ':', ' '})
            && p.service != "" && Free(p.service, {'/', ' '})
            && p.pathEtc != "" && p.pathEtc[0] == '/' && Free(p.pathEtc, {' '})
  {
    var w, c := Decoded(url);
    PartsFromWellShaped(w, c);
  }

  // ----- assembling -----

  /** The text after "://" that spells the captures. */
  function BodyText(c: Captures): string {
    c.host + Prefixed(':', c.port) + c.path + (Prefixed('?', c.query) + Prefixed('#', c.fragment))
  }

  lemma {:induction false} UntilInConcat(s: string, before: string, part: string, after: string, stops: set<char>)
    requires s == before + part + after
    requires Free(part, stops) && (after != "" ==> after[0] in stops)
    ensures UntilFrom(s, |before|, stops) == |before| + |part|
  {
    forall k | |before| <= k < |before| + |part| ensures s[k] !in stops {
      assert s[k] == part[k - |before|];
    }
    assert after != "" ==> s[|before| + |part|] == after[0];
    UntilIs(s, |before|, stops, |before| + |part|);
  }

  /** Scanning what was assembled from well-shaped captures gives them back. */
  lemma {:induction false} ScanAssembled(protocol: string, front: string, c: Captures, s: string)
    requires WellShaped(c) && s == front + BodyText(c)
    ensures ScanBody(protocol, s, |front|) == c.(protocol := protocol)
  {
    var tail := Prefixed('?', c.query) + Prefixed('#', c.fragment);
    var before := front + c.host + Prefixed(':', c.port);
    BodyTextSplits(front, c, s);
    AuthorityAssembled(s, front, c.host, c.port, c.path + tail);
    PathAssembled(s, before, c.path, tail);
    TailAssembled(s, before + c.path, c.query, c.fragment);
  }

  lemma {:induction false} BodyTextSplits(front: string, c: Captures, s: string)
    requires s == front + BodyText(c)
    ensures var before := front + c.host + Prefixed(':', c.port);
            var tail := Prefixed('?', c.query) + Prefixed('#', c.fragment);
            s == before + (c.path + tail) && s == before + c.path + tail
  {}

  lemma {:induction false} PathAssembled(s: string, before: string, path: string, tail: string)
    requires s == before + path + tail
    requires Free(path, {'?', '#'}) && (tail != "" ==> tail[0] in {'?', '#'})
    ensures UntilFrom(s, |before|, {'?', '#'}) == |before + path|
    ensures s[|before|..|before + path|] == path
  {
    UntilInConcat(s, before, path, tail, {'?', '#'});
  }

  lemma {:induction false} HostAssembled(s: string, front: string, host: string, after: string)
    requires s == front + host + after
    requires Free(host, {'/', ':'}) && (after != "" ==> after[0] in {'/', ':'})
    ensures UntilFrom(s, |front|, {'/', ':'}) == |front + host| && s[|front|..|front + host|] == host
    ensures Skip(s, |front + host|, ':') == |front + host| + if after != "" && after[0] == ':' then 1 else 0
  {
    UntilInConcat(s, front, host, after, {'/', ':'});
    assert after != "" ==> s[|front + host|] == after[0];
  }

  lemma {:induction false} PortAssembled(s: string, before: string, port: string, target: string)
    requires s == before + port + target
    requires Free(port, {'/'}) && (target != "" ==> target[0] == '/')
    ensures UntilFrom(s, |before|, {'/'}) == |before + port| && s[|before|..|before + port|] == port
  {
    UntilInConcat(s, before, port, target, {'/'});
  }

  lemma {:induction false} AuthorityAssembled(s: string, front: string, host: string, port: string, target: string)
    requires s == front + host + Prefixed(':', port) + target
    requires Free(host, {'/', ':'}) && Free(port, {'/'}) && (target != "" ==> target[0] == '/')
    ensures UntilFrom(s, |front|, {'/', ':'}) == |front + host| && s[|front|..|front + host|] == host
    ensures var colon := Skip(s, |front + host|, ':'); var end := |front + host + Prefixed(':', port)|;
            colon <= end && UntilFrom(s, colon, {'/'}) == end && s[colon..end] == port
  {
    if port == "" {
      NoPortAssembled(s, front, host, target);
    } else {
      assert s == front + host + (":" + port + target) && s == (front + host + ":") + port + target;
      HostAssembled(s, front, host, ":" + port + target);
      PortAssembled(s, front + host + ":", port, target);
    }
  }

  lemma {:induction false} NoPortAssembled(s: string, front: string, host: string, target: string)
    requires s == front + host + "" + target
    requires Free(host, {'/', ':'}) && (target != "" ==> target[0] == '/')
    ensures UntilFrom(s, |front|, {'/', ':'}) == |front + host| && s[|front|..|front + host|] == host
    ensures Skip(s, |front + host|, ':') == |front + host|
    ensures UntilFrom(s, |front + host|, {'/'}) == |front + host|
  {
    assert s == front + host + target;
    HostAssembled(s, front, host, target);
    PortAssembled(s, front + host, "", target);
  }

  lemma {:induction false} TailAssembled(s: string, before: string, query: string, fragment: string)
    requires s == before + (Prefixed('?', query) + Prefixed('#', fragment))
    requires Free(query, {'#'})
    ensures var mark := Skip(s, |before|, '?');
            var end := UntilFrom(s, mark, {'#'});
            s[mark..end] == query && s[Skip(s, end, '#')..] == fragment
  {
    var q, f := Prefixed('?', query), Prefixed('#', fragment);
    assert s == before + q + f;
    QueryAssembled(s, before, query, f);
    FragmentAssembled(s, before + q, fragment);
  }

  lemma {:induction false} QueryAssembled(s: string, before: string, query: string, after: string)
    requires s == before + Prefixed('?', query) + after
    requires Free(query, {'#'}) && (after != "" ==> after[0] == '#')
    ensures var mark := Skip(s, |before|, '?');
            UntilFrom(s, mark, {'#'}) == |before| + |Prefixed('?', query)|
            && s[mark..|before| + |Prefixed('?', query)|] == query
  {
    if query != "" {
      assert s == (before + "?") + query + after;
      UntilInConcat(s, before + "?", query, after, {'#'});
      assert s[|before|] == '?';
    } else {
      assert s == before + "" + after;
      UntilInConcat(s, before, "", after, {'#'});
    }
  }

  lemma {:induction false} FragmentAssembled(s: string, before: string, fragment: string)
    requires s == before + Prefixed('#', fragment)
    ensures s[Skip(s, |before|, '#')..] == fragment
  {}

  /** The protocol may spell the scheme in any case. */
  lemma {:induction false} SchemeReadBack(protocol: string, w: string, rest: string, s: string)
    requires w in SCHEMES && Spells(protocol, w) && s == protocol + "://" + rest
    ensures SchemeLength(s) == Some(|w|) && HasScheme(s, w)
    ensures s[..|w|] == protocol && s[|w| + 3..] == rest
  {
    assert s[..|w|] == protocol && s[|w|..|w| + 3] == "://";
    SchemesAreSmall(w);
    BeginsIffHasScheme(s, w);
    SchemeLengthIs(s, w);
  }

  lemma {:induction false} BodyTextHasNoSpace(c: Captures)
    requires WellShaped(c)
    ensures ' ' !in BodyText(c)
  {
    assert ' ' !in c.host && ' ' !in c.port && ' ' !in c.path && ' ' !in c.query && ' ' !in c.fragment;
  }

  lemma {:induction false} AssembledScans(protocol: string, w: string, c: Captures, s: string)
    requires w in SCHEMES && Spells(protocol, w) && WellShaped(c)
    requires s == protocol + "://" + BodyText(c)
    ensures Scan(s) == Some(c.(protocol := protocol))
  {
    SchemeReadBack(protocol, w, BodyText(c), s);
    BodyTextHasNoSpace(c);
    ScanAssembled(protocol, protocol + "://", c, s);
  }

  /** decode_url undoes assembling: any scheme in any spelling, with any well-shaped host, optional
      port, path, query and fragment, decodes to exactly the parts they stand for. */
  lemma {:induction false} DecodeAssembled(protocol: string, w: string, c: Captures)
    requires w in SCHEMES && Spells(protocol, w) && WellShaped(c)
    ensures Decode(protocol + "://" + BodyText(c)) == Ok(PartsFrom(w, c))
  {
    var s := protocol + "://" + BodyText(c);
    AssembledScans(protocol, w, c, s);
    var v := DecodeScanned(s);
    PartsOfKnown(Scan(s).value, w);
  }

  /** The same in plain text. */
  lemma {:induction false} DecodePlainText(protocol: string, w: string, c: Captures)
    requires w in SCHEMES && Spells(protocol, w) && WellShaped(c)
    ensures var secure := w == "wss" || w == "https";
            var port := if c.port == "" then "" else ":" + c.port;
            var query := if c.query == "" then "" else "?" + c.query;
            var fragment := if c.fragment == "" then "" else "#" + c.fragment;
            && Decode(protocol + "://" + c.host + port + c.path + query + fragment).Ok?
            && var parts := Decode(protocol + "://" + c.host + port + c.path + query + fragment).value;
            && parts.hostname == c.host
            && parts.service == (if c.port != "" then c.port else if secure then "https" else "http")
            && parts.pathEtc == (if c.path == "" then "/" else c.path) + query + fragment
            && parts.transport == if secure then Tls else Tcp
  {
    var port, query, fragment := Prefixed(':', c.port), Prefixed('?', c.query), Prefixed('#', c.fragment);
    Regroup(protocol + "://", c.host, port, c.path, query, fragment);
    DecodeAssembled(protocol, w, c);
  }

  lemma {:induction false} Regroup(a: string, b: string, c: string, d: string, e: string, f: string)
    ensures a + (b + c + d + (e + f)) == a + b + c + d + e + f
  {}

  // ----- rebuilding -----

  /** scheme://hostname:service followed by the path and the rest. */
  function Rebuild(w: string, p: UrlParts): string {
    w + "://" + p.hostname + ":" + p.service + p.pathEtc
  }

  /** Rebuilding from the parts of a decoded URL, with any scheme of the same transport, and
      decoding again gives the same parts. */
  lemma {:induction false} RebuildRoundTrip(url: string, w: string)
    requires Decode(url).Ok?
    requires w in SCHEMES && TransportOf(w) == Decode(url).value.transport
    ensures Decode(Rebuild(w, Decode(url).value)) == Decode(url)
  {
    var v, c := Decoded(url);
    PartsRoundTrip(v, c, w, PartsFrom(v, c));
  }

  lemma {:induction false} PartsRoundTrip(v: string, c: Captures, w: string, p: UrlParts)
    requires w in SCHEMES && TransportOf(w) == TransportOf(v) && WellShaped(c) && p == PartsFrom(v, c)
    ensures Decode(Rebuild(w, p)) == Ok(p)
  {
    var full := Completed(v, c);
    CompletedGivesParts(v, c, w);
    RebuildIsAssembled(w, full, p);
    assert Spells(w, w);
    DecodeAssembled(w, w, full);
  }

  /** The captures with the default service and the root path filled in. */
  function Completed(v: string, c: Captures): Captures {
    c.(port := PartsFrom(v, c).service, path := if c.path == "" then "/" else c.path)
  }

  lemma {:induction false} CompletedGivesParts(v: string, c: Captures, w: string)
    requires WellShaped(c) && TransportOf(w) == TransportOf(v)
    ensures var full := Completed(v, c);
            WellShaped(full) && full.port != "" && full.path != "" && PartsFrom(w, full) == PartsFrom(v, c)
  {}

  lemma {:induction false} RebuildIsAssembled(w: string, c: Captures, p: UrlParts)
    requires c.port != "" && c.path != "" && p == PartsFrom(w, c)
    ensures Rebuild(w, p) == w + "://" + BodyText(c)
  {
    var q, f := Prefixed('?', c.query), Prefixed('#', c.fragment);
    assert p.pathEtc == c.path + (q + f);
    assert Rebuild(w, p) == w + "://" + c.host + (":" + c.port) + c.path + (q + f);
  }
}
