/**
 The client request: one flat buffer holding the origin key, the request line, the
 headers and an inline body, edited in place through stored offsets.

 Every edit is proved to leave exactly the buffer that building the request afresh
 for the new method and URL would give, later header lines and body included.
 Requests that do not go through a cleartext proxy are modelled.
 */
module HttpRequests {
  import opened Text
  import opened UrlParse

  // ------------------------------------------------------------------- vocabulary

  datatype Method = GET | HEAD | POST | PUT | DELETE | CONNECT | OPTIONS | TRACE | PATCH

  function MethodText(m: Method): (r: string)
    ensures 3 <= |r| <= 7
  {
    match m
    case GET => "GET"
    case HEAD => "HEAD"
    case POST => "POST"
    case PUT => "PUT"
    case DELETE => "DELETE"
    case CONNECT => "CONNECT"
    case OPTIONS => "OPTIONS"
    case TRACE => "TRACE"
    case PATCH => "PATCH"
  }

  /** The method as the buffer spells it: told from its first one or two letters. */
  function MethodAt(data: string, at: nat): Method
    requires at + 1 < |data|
  {
    if data[at] == 'G' then GET
    else if data[at] == 'H' then HEAD
    else if data[at] == 'P' then (if data[at + 1] == 'O' then POST else if data[at + 1] == 'U' then PUT else PATCH)
    else if data[at] == 'D' then DELETE
    else if data[at] == 'C' then CONNECT
    else if data[at] == 'O' then OPTIONS
    else TRACE
  }

  predicate IsHex(c: char) { '0' <= c <= '9' || 'a' <= c <= 'f' || 'A' <= c <= 'F' }

  /** A byte that may stand in a target; a percent sign only before two hex digits. */
  predicate TargetByte(target: string, i: nat)
    requires i < |target|
  {
    && target[i] > ' ' && target[i] != '\U{7F}'
    && (target[i] == '%' ==> i + 2 < |target| && DigitValue(target[i + 1]) < 16 && DigitValue(target[i + 2]) < 16)
  }

  predicate ValidTarget(target: string) {
    target != "" && forall i :: 0 <= i < |target| ==> TargetByte(target, i)
  }

  /** The scan the code does, skipping each escape as a unit. */
  method IsValidRequestTarget(target: string) returns (valid: bool)
    ensures valid == ValidTarget(target)
  {
    if target == "" { return false; }
    var i := 0;
    while i < |target|
      invariant i <= |target|
      invariant forall k :: 0 <= k < i ==> TargetByte(target, k)
    {
      var c := target[i];
      if c <= ' ' || c == '\U{7F}' {
        assert !TargetByte(target, i);
        return false;
      }
      if c == '%' {
        if |target| - (i + 1) < 2 || !IsHex(target[i + 1]) || !IsHex(target[i + 2]) {
          assert !TargetByte(target, i);
          return false;
        }
        assert TargetByte(target, i) && TargetByte(target, i + 1) && TargetByte(target, i + 2);
        i := i + 2;
      }
      i := i + 1;
    }
    return true;
  }

  const HEADER_LIMIT: nat := 0x100_0000            // 24-bit header position
  const BODY_LIMIT: nat := 0x100_0000_0000         // 40-bit body position
  const WORD: nat := 0x1_0000_0000_0000_0000

  /** The request line of any method fits the 24-bit header position. */
  predicate TargetFits(target: string, originKeyLen: nat) {
    originKeyLen + 7 + 2 + 8 + |target| < HEADER_LIMIT
  }

  predicate CheckTarget(target: string, originKeyLen: nat) {
    ValidTarget(target) && TargetFits(target, originKeyLen)
  }

  // ------------------------------------------------------------- packed positions

  /** Both positions in one 64-bit word: 40 bits of body start, 24 of header start. */
  function Pack(header: nat, body: nat): nat { body * HEADER_LIMIT + header }

  function HeaderOf(word: nat): nat { word % HEADER_LIMIT }

  function BodyOf(word: nat): nat { word / HEADER_LIMIT % BODY_LIMIT }

  /** Adding a possibly negative difference to an unsigned word wraps around. */
  function AddWrapping(word: nat, diff: int): nat { (word + diff) % WORD }

  function AdjustHeadersAndBody(word: nat, diff: int): nat {
    AddWrapping(AddWrapping(word, diff), diff * HEADER_LIMIT)
  }

  function AdjustBody(word: nat, diff: int): nat { AddWrapping(word, diff * HEADER_LIMIT) }

  function SetHeader(word: nat, header: nat): nat { word / HEADER_LIMIT * HEADER_LIMIT + header }

  /** Unpacking recovers what was packed. */
  lemma Unpack(header: nat, body: nat)
    requires header < HEADER_LIMIT && body < BODY_LIMIT
    ensures HeaderOf(Pack(header, body)) == header && BodyOf(Pack(header, body)) == body
    ensures Pack(header, body) < WORD
  {
  }

  /** The wrap-around arithmetic moves both positions, for negative differences too. */
  lemma AdjustMovesBoth(header: nat, body: nat, diff: int)
    requires header < HEADER_LIMIT && body < BODY_LIMIT
    requires 0 <= header + diff < HEADER_LIMIT && 0 <= body + diff < BODY_LIMIT
    ensures AdjustHeadersAndBody(Pack(header, body), diff) == Pack(header + diff, body + diff)
  {
    var w := Pack(header, body) + diff;
    var target := Pack(header + diff, body + diff);
    assert w + diff * HEADER_LIMIT == target;
    WrapTwice(w, diff * HEADER_LIMIT, target);
  }

  /** Reducing halfway changes nothing when the exact result is in range. */
  lemma WrapTwice(w: int, d: int, exact: nat)
    requires w + d == exact < WORD
    ensures (w % WORD + d) % WORD == exact
  {
    var q := w / WORD;
    assert w == q * WORD + w % WORD;
    assert w % WORD + d == exact + (-q) * WORD;
    ModPlus(exact, -q);
  }

  lemma {:induction false} ModPlus(x: nat, k: int)
    requires x < WORD
    ensures (x + k * WORD) % WORD == x
    decreases if k < 0 then -k else k
  {
    if k > 0 {
      ModPlus(x, k - 1);
      assert x + k * WORD == x + (k - 1) * WORD + WORD;
    } else if k < 0 {
      ModPlus(x, k + 1);
      assert x + k * WORD == x + (k + 1) * WORD - WORD;
    }
  }

  lemma AdjustMovesBody(header: nat, body: nat, diff: int)
    requires header < HEADER_LIMIT && body < BODY_LIMIT && 0 <= body + diff < BODY_LIMIT
    ensures AdjustBody(Pack(header, body), diff) == Pack(header, body + diff)
    ensures forall h :: 0 <= h < HEADER_LIMIT ==> SetHeader(Pack(header, body), h) == Pack(h, body)
  {
  }

  // --------------------------------------------------------------- buffer editing

  /** `ensureAvailableCapacityExponential`: room for `diff` more bytes, contents kept. */
  function Grown(data: string, diff: int): (r: string)
    ensures |r| >= |data| && |r| >= |data| + diff && r[..|data|] == data
  {
    if diff > 0 then data + seq(diff, _ => '\0') else data
  }

  function MemMove(buf: string, dst: nat, src: nat, n: nat): (r: string)
    requires dst + n <= |buf| && src + n <= |buf|
    ensures |r| == |buf|
  {
    buf[..dst] + buf[src..src + n] + buf[dst + n..]
  }

  function CopyInto(buf: string, at: nat, text: string): (r: string)
    requires at + |text| <= |buf|
    ensures |r| == |buf|
  {
    buf[..at] + text + buf[at + |text|..]
  }

  /** The common edit before the resize: the `oldLen` bytes at `at` become `text`, the rest moves over. */
  function EditBuffer(data: string, at: nat, oldLen: nat, text: string): (r: string)
    requires at + oldLen <= |data|
    ensures |r| >= |data| && |r| >= |data| + |text| - oldLen
  {
    var buf := Grown(data, |text| - oldLen);
    CopyInto(MemMove(buf, at + |text|, at + oldLen, |data| - (at + oldLen)), at, text)
  }

  function Edited(data: string, at: nat, oldLen: nat, text: string): string
    requires at + oldLen <= |data|
  {
    EditBuffer(data, at, oldLen, text)[..|data| + |text| - oldLen]
  }

  /** Grow, move, copy and resize amount to a splice. */
  lemma EditIsSplice(before: string, old_: string, after: string, text: string)
    ensures Edited(before + old_ + after, |before|, |old_|, text) == before + text + after
  {
    var data := before + old_ + after;
    var at, diff := |before|, |text| - |old_|;
    var buf := Grown(data, diff);
    assert buf[at + |old_|..at + |old_| + |after|] == after by {
      assert buf[..|data|][at + |old_|..] == after;
    }
    assert buf[..at] == before by { assert buf[..|data|][..at] == before; }
    var moved := MemMove(buf, at + |text|, at + |old_|, |after|);
    assert moved[at + |text|..at + |text| + |after|] == after;
    assert moved[..at] == before;
  }

  // ---------------------------------------------------------------- what is built

  predicate IsIpv6(host: string) { ':' in host }

  function HostValue(u: Url): string {
    (if IsIpv6(u.host) then "[" + u.host + "]" else u.host) +
    (if u.HasNonDefaultPort() then ":" + ToChars(u.port, 10) else "")
  }

  /** The request line, from the method to the version. */
  function RequestLine(m: Method, target: string): string { MethodText(m) + " " + target + " HTTP/1.1" }

  /** The request lines in letters. */
  lemma RequestLinesInText(target: string)
    ensures RequestLine(GET, target) == "GET " + target + " HTTP/1.1"
    ensures RequestLine(HEAD, target) == "HEAD " + target + " HTTP/1.1"
    ensures RequestLine(POST, target) == "POST " + target + " HTTP/1.1"
    ensures RequestLine(PUT, target) == "PUT " + target + " HTTP/1.1"
    ensures RequestLine(DELETE, target) == "DELETE " + target + " HTTP/1.1"
    ensures RequestLine(CONNECT, target) == "CONNECT " + target + " HTTP/1.1"
    ensures RequestLine(OPTIONS, target) == "OPTIONS " + target + " HTTP/1.1"
    ensures RequestLine(TRACE, target) == "TRACE " + target + " HTTP/1.1"
    ensures RequestLine(PATCH, target) == "PATCH " + target + " HTTP/1.1"
  {
    assert "GET" + " " == "GET " && "HEAD" + " " == "HEAD " && "POST" + " " == "POST " && "PUT" + " " == "PUT ";
    assert "DELETE" + " " == "DELETE " && "CONNECT" + " " == "CONNECT " && "OPTIONS" + " " == "OPTIONS ";
    assert "TRACE" + " " == "TRACE " && "PATCH" + " " == "PATCH ";
  }

  /** `InitData`: origin key, request line and Host header, up to the end of its value. */
  function InitData(m: Method, u: Url): string {
    OriginKey(u) + RequestLine(m, u.target) + "\r\nHost: " + HostValue(u)
  }

  function HeaderSize(nameLen: nat, valueLen: nat): nat { nameLen + valueLen + 4 }

  function ComputeHostHeaderSize(u: Url): nat {
    HeaderSize(4, |u.host|) + (if IsIpv6(u.host) then 2 else 0) +
    (if u.HasNonDefaultPort() then 1 + |ToChars(u.port, 10)| else 0)
  }

  function OriginKeyLength(u: Url): nat {
    (if u.isTls then 5 else 4) + 3 + |u.host| + 1 + |ToChars(u.port, 10)|
  }

  /** The length formulas the code allocates and moves by are exact. */
  lemma LengthFormulas(m: Method, u: Url)
    ensures |OriginKey(u)| == OriginKeyLength(u)
    ensures |InitData(m, u)| == |OriginKey(u)| + |MethodText(m)| + 1 + |u.target| + 1 + 8 + ComputeHostHeaderSize(u)
  {
    hide ToChars;
  }

  /** The host of an authority that starts with a bracket holds no closing one. */
  lemma BracketedHostIs(authority: string, target: string, isTls: bool)
    requires authority != "" && authority[0] == '[' && TargetText(target)
    requires forall c :: c in authority ==> c !in "/?#@"
    ensures ']' !in ParseAuthority(authority + target, isTls).host
    ensures ']' !in authority ==> ParseAuthority(authority + target, isTls).host == ""
  {
    hide FromChars, SplitAuthority, Find, AuthorityEnd;
    TextEnds(authority, target, "");
    assert authority + target + "" == authority + target;
    assert (authority + target)[..|authority|] == authority;
    BracketedSplitHost(authority);
  }

  lemma BracketedSplitHost(authority: string)
    requires authority != "" && authority[0] == '['
    ensures SplitAuthority(authority).Some? ==> ']' !in SplitAuthority(authority).value.0 && ']' in authority
  {
    var close := Find(authority, ']');
    assert forall i :: 1 <= i < close ==> authority[i] in authority[..close];
  }

  /** What follows the host in a Host value. */
  function PortSuffix(u: Url): string { if u.HasNonDefaultPort() then ":" + ToChars(u.port, 10) else "" }

  lemma PortSuffixReads(u: Url)
    requires Accepted(u)
    ensures PortPart(PortSuffix(u)) && ']' !in PortSuffix(u)
    ensures UrlOf(u.host, if PortSuffix(u) == "" then "" else PortSuffix(u)[1..], u.target, u.isTls) == u
  {
    hide ToChars;
    PortText(u.port);
    PortReads(u.host, u.port, u.target, u.isTls);
    var digits := ToChars(u.port, 10);
    assert forall i :: 0 <= i < |digits| ==> digits[i] in digits;
    assert (":" + digits)[1..] == digits;
  }

  /**
   The Host value says which origin is meant: with the scheme and the target it parses back to the
   URL if and only if the host, when it holds a colon, holds no closing bracket and, when it does
   not, starts with no opening one.
   */
  lemma HostValueRoundTrip(u: Url)
    requires Accepted(u)
    ensures ParseUrl(Scheme(u.isTls) + "://" + (HostValue(u) + u.target)) == u <==>
            if ':' in u.host then ']' !in u.host else u.host[0] != '['
  {
    hide ParseUrl, ParseAuthority, ToChars, UrlOf, PortSuffix, Spells;
    var ipv6, suffix := IsIpv6(u.host), PortSuffix(u);
    var authority := Shown(u.host, ipv6) + suffix;
    SuffixIs(u);
    assert HostValue(u) == authority;
    SchemeSpelled(u.isTls);
    SpelledScheme(Scheme(u.isTls), u.isTls, authority + u.target);
    PortSuffixReads(u);
    if Showable(u.host, ipv6) {
      AuthorityMeaning(u.host, ipv6, suffix, u.target, "", u.isTls);
      assert authority + u.target + "" == authority + u.target;
    } else {
      AuthorityChars(u.host, ipv6, suffix);
      BracketedHostIs(authority, u.target, u.isTls);
      AuthorityHolds(u.host, ipv6, suffix);
    }
  }

  lemma SuffixIs(u: Url)
    ensures PortSuffix(u) == (if u.HasNonDefaultPort() then ":" + ToChars(u.port, 10) else "")
  {
  }

  lemma SchemeSpelled(isTls: bool)
    ensures Spells(Scheme(isTls), Scheme(isTls))
  {
  }

  lemma AuthorityChars(host: string, ipv6: bool, suffix: string)
    requires host != "" && HostText(host) && PortPart(suffix) && (ipv6 || host[0] == '[')
    ensures var a := Shown(host, ipv6) + suffix;
            a != "" && a[0] == '[' && forall c :: c in a ==> c !in "/?#@"
  {
    var a, k := Shown(host, ipv6) + suffix, |Shown(host, ipv6)|;
    forall i | 0 <= i < |a| ensures a[i] !in "/?#@" {
      if i < k {
        assert a[i] == Shown(host, ipv6)[i];
      } else {
        assert a[i] == suffix[i - k];
      }
    }
  }

  lemma AuthorityHolds(host: string, ipv6: bool, suffix: string)
    ensures !ipv6 && ']' !in host && ']' !in suffix ==> ']' !in Shown(host, ipv6) + suffix
  {
  }

  /** A request: method, URL, everything after the Host value, and where in that the body starts. */
  datatype Request = Request(m: Method, url: Url, tail: string, bodyAt: nat)

  /** The buffer of a request built from scratch. */
  function Built(r: Request): string { InitData(r.m, r.url) + r.tail }

  function HeadersStart(r: Request): nat { |OriginKey(r.url)| + |RequestLine(r.m, r.url.target)| }

  function BodyStart(r: Request): nat { |InitData(r.m, r.url)| + r.bodyAt }

  /** No line break hides in the host. */
  predicate CleanHost(host: string) {
    forall i :: 0 <= i < |host| - 1 ==> !(host[i] == '\r' && host[i + 1] == '\n')
  }

  ghost predicate WellFormed(r: Request) {
    && |r.url.host| <= UINT16_MAX && 1 <= r.url.port <= UINT16_MAX
    && r.url.target != "" && TargetFits(r.url.target, |OriginKey(r.url)|)
    && |r.tail| >= 2 && r.tail[..2] == "\r\n" && r.bodyAt <= |r.tail|
    && BodyStart(r) < BODY_LIMIT
  }

  /** What goes on the wire before the body, and a body held in the buffer. */
  function HeadText(r: Request): string
    requires r.bodyAt <= |r.tail|
  {
    RequestLine(r.m, r.url.target) + "\r\nHost: " + HostValue(r.url) + r.tail[..r.bodyAt]
  }

  function InlineBody(r: Request): string
    requires r.bodyAt <= |r.tail|
  {
    r.tail[r.bodyAt..]
  }

  /** The buffer is the origin key, the head and the body, in this order. */
  lemma BuiltParts(r: Request)
    requires r.bodyAt <= |r.tail|
    ensures Built(r) == OriginKey(r.url) + HeadText(r) + InlineBody(r)
    ensures |OriginKey(r.url)| + |HeadText(r)| == BodyStart(r)
  {
    hide OriginKey, HostValue, RequestLine;
    assert r.tail == r.tail[..r.bodyAt] + r.tail[r.bodyAt..];
  }

  /** The buffer spells the method at the end of the origin key. */
  lemma MethodReads(before: string, m: Method, after: string)
    requires after != ""
    ensures MethodAt(before + MethodText(m) + after, |before|) == m
  {
    var data := before + MethodText(m) + after;
    assert data[|before|] == MethodText(m)[0] && data[|before| + 1] == MethodText(m)[1];
  }

  // ------------------------------------------------------------------ redirects

  predicate Contains3(s: string) { FindSchemeEnd(s) < |s| }

  /** The part of a target before its query. */
  function PathOf(target: string): string { target[..Find(target, '?')] }

  /** Bytes of the old target kept by a relative reference. */
  function KeptPrefix(target: string, location: string): (k: nat)
    requires target != ""
    ensures 1 <= k <= |target|
  {
    if location != "" && location[0] == '?' then |target|
    else
      var k := AfterLast(PathOf(target), '/');
      if k == 0 then 1 else k
  }

  datatype Resolution = NewUrl(url: Url) | NewTarget(target: string) | Unresolved

  /** Where a Location leads from a URL, before any target check. */
  function Resolve(u: Url, location: string): Resolution
    requires u.target != ""
  {
    if Contains3(location) then
      var v := ParseUrl(location);
      if v.host == "" then Unresolved else NewUrl(v)
    else if |location| >= 2 && location[..2] == "//" then
      var v := ParseAuthority(location[2..], u.isTls);
      if v.host == "" then Unresolved else NewUrl(v)
    else
      var ref := location[..Find(location, '#')];
      if ref != "" && ref[0] == '/' then NewTarget(ref)
      else NewTarget(u.target[..KeptPrefix(u.target, ref)] + ref)
  }

  /** A reference without its fragment. */
  function WithoutFragment(location: string): string { location[..Find(location, '#')] }

  /**
   A query-only reference replaces the query if and only if there was none before and the
   reference holds no "://", which the code takes for an absolute URL wherever it stands.
   */
  lemma QueryRedirect(u: Url, location: string)
    requires u.target != "" && location != "" && location[0] == '?'
    ensures Resolve(u, location) == NewTarget(PathOf(u.target) + WithoutFragment(location)) <==>
              '?' !in u.target && !Contains3(location)
  {
    hide FindSchemeEnd, ParseUrl, ParseAuthority, AfterLast;
    if !Contains3(location) {
      var ref := WithoutFragment(location);
      StartKept(location);
      assert u.target[..|u.target|] == u.target;
      var q := Find(u.target, '?');
      if '?' in u.target {
        assert |PathOf(u.target) + ref| == q + |ref| < |u.target + ref|;
      } else {
        FindAbsent(u.target, '?');
      }
    }
  }

  /** A fragment sign is not the first byte of a reference that starts with another. */
  lemma StartKept(location: string)
    requires location != "" && location[0] != '#'
    ensures WithoutFragment(location) != "" && WithoutFragment(location)[0] == location[0]
  {
  }

  /**
   A relative path replaces the last segment if and only if the target is an absolute path
   and the reference holds no "://".
   */
  lemma RelativeRedirect(u: Url, location: string)
    requires u.target != "" && location != "" && location[0] !in "?/#"
    ensures var dir := PathOf(u.target)[..AfterLast(PathOf(u.target), '/')];
            Resolve(u, location) == NewTarget(dir + WithoutFragment(location)) <==>
              '/' in PathOf(u.target) && !Contains3(location)
  {
    hide FindSchemeEnd, ParseUrl, ParseAuthority, Find;
    if !Contains3(location) {
      StartKept(location);
      var ref := WithoutFragment(location);
      var path := PathOf(u.target);
      var k := AfterLast(path, '/');
      if k == 0 {
        assert path[0..] == path && '/' !in path;
        assert |u.target[..1] + ref| != |path[..0] + ref|;
      } else {
        assert path[k - 1] in path;
        assert path[..k] == u.target[..k];
      }
    }
  }

  /** An absolute path replaces the target if and only if it is not a "//" authority and holds no "://". */
  lemma AbsolutePathRedirect(u: Url, location: string)
    requires u.target != "" && location != "" && location[0] == '/'
    ensures Resolve(u, location) == NewTarget(WithoutFragment(location)) <==>
              !Contains3(location) && !(|location| >= 2 && location[1] == '/')
  {
    hide FindSchemeEnd, ParseUrl, ParseAuthority;
    StartKept(location);
    assert |location| >= 2 ==> (location[..2] == "//" <==> location[1] == '/');
  }

  /**
   A network-path reference keeps the scheme and leads to the host it names, at the port it names or
   the default one of the scheme; it is refused if the port is no port or "://" stands anywhere in it.
   */
  lemma NetworkPathRedirect(u: Url, host: string, bracketed: bool, part: string, target: string, fragment: string)
    requires u.target != "" && Showable(host, bracketed) && PortPart(part)
    requires (target == "" || TargetText(target)) && (fragment == "" || fragment[0] == '#')
    ensures var location := "//" + (Shown(host, bracketed) + part + target + fragment);
            var v := UrlOf(host, if part == "" then "" else part[1..], TargetOrRoot(target), u.isTls);
            Resolve(u, location) == if Contains3(location) || v.host == "" then Unresolved else NewUrl(v)
  {
    hide ParseUrl, ParseAuthority, UrlOf, Shown, FindSchemeEnd, Find, Showable, PortPart;
    var rest := Shown(host, bracketed) + part + target + fragment;
    var location := "//" + rest;
    assert location[..2] == "//" && location[2..] == rest;
    AuthorityMeaning(host, bracketed, part, target, fragment, u.isTls);
    if Contains3(location) {
      SlashIsNoScheme(location);
      SeparatorMeansAbsolute(u, location);
    }
  }

  lemma SlashIsNoScheme(location: string)
    requires location != "" && location[0] == '/'
    ensures !SpokenScheme(location)
  {
    hide FindSchemeEnd, Lower;
    var before := location[..FindSchemeEnd(location)];
    SchemeNames();
    EqualMeansSpells(before, "http", "http");
    EqualMeansSpells(before, "https", "https");
    assert before != "" ==> before[0] == '/';
  }

  /** The scheme of an absolute URL is one of the two the client speaks. */
  predicate SpokenScheme(location: string) {
    EqualIgnoreCase(location[..FindSchemeEnd(location)], "http") ||
    EqualIgnoreCase(location[..FindSchemeEnd(location)], "https")
  }

  /**
   A reference that holds "://", wherever it stands, is refused if and only if it is not an
   acceptable URL as a whole; it is whenever anything but http or https stands before the sign.
   */
  lemma SeparatorMeansAbsolute(u: Url, location: string)
    requires u.target != "" && Contains3(location)
    ensures Resolve(u, location) == Unresolved <==> !Accepted(ParseUrl(location))
    ensures !SpokenScheme(location) ==> Resolve(u, location) == Unresolved
  {
    hide ParseAuthority, FindSchemeEnd, EqualIgnoreCase;
    if ParseUrl(location).host != "" { ParseUrlAccepts(location); }
  }

  /**
   "?c" against "/a?b" keeps the old query, "x" against "*" keeps the asterisk, and a
   reference whose query names a URL is refused.
   */
  lemma RedirectsThatDiffer(u: Url)
    ensures Resolve(u.(target := "/a?b"), "?c") == NewTarget("/a?b?c")
    ensures Resolve(u.(target := "*"), "x") == NewTarget("*x")
    ensures Resolve(u.(target := "/a"), "?n=abc" + "://b") == Unresolved
    ensures Resolve(u.(target := "/a"), "/l?n=a" + "://b") == Unresolved
  {
    hide Resolve;
    QueryKept(u.(target := "/a?b"));
    AsteriskKept(u.(target := "*"));
    RefusedSeparator(u.(target := "/a"), "?n=abc");
    RefusedSeparator(u.(target := "/a"), "/l?n=a");
  }

  lemma QueryKept(u: Url)
    requires u.target == "/a?b"
    ensures Resolve(u, "?c") == NewTarget("/a?b?c")
  {
    NotAbsolute("?c");
    FindAbsent("?c", '#');
    assert "?c"[..2] == "?c" && "/a?b"[..4] == "/a?b" && "/a?b" + "?c" == "/a?b?c";
  }

  lemma AsteriskKept(u: Url)
    requires u.target == "*"
    ensures Resolve(u, "x") == NewTarget("*x")
  {
    NotAbsolute("x");
    FindAbsent("x", '#');
    FindAbsent("*", '?');
    AfterLastAbsent("*", '/');
    assert "x"[..1] == "x" && "*"[..1] == "*" && "*" + "x" == "*x";
  }

  lemma RefusedSeparator(u: Url, before: string)
    requires u.target != "" && ':' !in before && |before| == 6
    ensures Resolve(u, before + "://b") == Unresolved
  {
    hide Resolve, ParseUrl;
    var s := before + "://b";
    assert SeparatorAt(s, 6);
    forall i | 0 <= i < 6 ensures !SeparatorAt(s, i) { assert s[i] == before[i] && before[i] in before; }
    assert |Lower(s[..6])| == 6;
    SeparatorMeansAbsolute(u, s);
  }

  lemma NotAbsolute(s: string)
    requires |s| < 3
    ensures !Contains3(s)
  {
  }

  lemma AfterLastAbsent(s: string, c: char)
    requires c !in s
    ensures AfterLast(s, c) == 0
  {
  }

  // ------------------------------------------------------------------- the class

  datatype Outcome = Done | Rejected | Thrown

  /** Everything of a built request around its method, and around its target. */
  lemma AroundMethod(r: Request)
    ensures Built(r) == OriginKey(r.url) + MethodText(r.m) +
                        (" " + r.url.target + " HTTP/1.1" + "\r\nHost: " + HostValue(r.url) + r.tail)
  {
    hide OriginKey, HostValue, MethodText;
  }

  lemma AroundTarget(r: Request)
    ensures Built(r) == (OriginKey(r.url) + MethodText(r.m) + " ") + r.url.target +
                        (" HTTP/1.1" + "\r\nHost: " + HostValue(r.url) + r.tail)
  {
    hide OriginKey, HostValue, MethodText;
  }

  /** Keeping the first `k` bytes of the target, the rest of it can be spliced too. */
  lemma AroundTargetSuffix(r: Request, k: nat)
    requires k <= |r.url.target|
    ensures Built(r) == (OriginKey(r.url) + MethodText(r.m) + " " + r.url.target[..k]) + r.url.target[k..] +
                        (" HTTP/1.1" + "\r\nHost: " + HostValue(r.url) + r.tail)
  {
    hide OriginKey, HostValue, MethodText;
    AroundTarget(r);
    var a := OriginKey(r.url) + MethodText(r.m) + " ";
    assert r.url.target == r.url.target[..k] + r.url.target[k..];
    assert a + (r.url.target[..k] + r.url.target[k..]) == a + r.url.target[..k] + r.url.target[k..];
  }

  /** Same request with another target. */
  function WithTarget(r: Request, target: string): Request { r.(url := r.url.(target := target)) }

  lemma SameOrigin(r: Request, target: string)
    ensures OriginKey(WithTarget(r, target).url) == OriginKey(r.url)
    ensures HostValue(WithTarget(r, target).url) == HostValue(r.url)
  {
  }

  /** `SearchCRLF` from `at`: index of the next CR LF, or the length. */
  function SearchCrlf(data: string, at: nat): (r: nat)
    requires at <= |data|
    ensures at <= r <= |data|
    decreases |data| - at
  {
    if at == |data| || (at + 1 < |data| && data[at] == '\r' && data[at + 1] == '\n') then at
    else SearchCrlf(data, at + 1)
  }

  lemma {:induction false} SearchCrlfAt(data: string, at: nat, end: nat)
    requires at <= end && end + 1 < |data| && data[end] == '\r' && data[end + 1] == '\n'
    requires forall i :: at <= i < end ==> !(data[i] == '\r' && data[i + 1] == '\n')
    ensures SearchCrlf(data, at) == end
    decreases end - at
  {
    if at < end {
      SearchCrlfAt(data, at + 1, end);
    }
  }

  /** A CR LF before the end stops the search there. */
  lemma {:induction false} SearchCrlfStops(data: string, at: nat, i: nat)
    requires at <= i && i + 1 < |data| && data[i] == '\r' && data[i + 1] == '\n'
    ensures SearchCrlf(data, at) <= i
    decreases i - at
  {
    if at < i { SearchCrlfStops(data, at + 1, i); }
  }

  /**
   The search for the end of the Host line finds the end of its value if and only if no line
   break hides in the host; otherwise it stops short.
   */
  lemma HostLineEnds(r: Request)
    requires WellFormed(r)
    ensures HeadersStart(r) + 8 <= |Built(r)|
    ensures SearchCrlf(Built(r), HeadersStart(r) + 8) <= |InitData(r.m, r.url)|
    ensures SearchCrlf(Built(r), HeadersStart(r) + 8) == |InitData(r.m, r.url)| <==> CleanHost(r.url.host)
  {
    hide ToChars, MethodText, OriginKey;
    var data, at, end := Built(r), HeadersStart(r) + 8, |InitData(r.m, r.url)|;
    var value := HostValue(r.url);
    HostValueClean(r.url);
    assert data[end] == r.tail[..2][0] && data[end + 1] == r.tail[..2][1];
    assert at == |OriginKey(r.url) + RequestLine(r.m, r.url.target) + "\r\nHost: "|;
    assert forall i :: at <= i < end ==> data[i] == value[i - at];
    SearchCrlfStops(data, at, end);
    if CleanHost(value) {
      forall i | at <= i < end ensures !(data[i] == '\r' && data[i + 1] == '\n') {
        assert data[i] == value[i - at];
        assert i + 1 < end ==> data[i + 1] == value[i + 1 - at];
      }
      SearchCrlfAt(data, at, end);
    } else {
      var j :| 0 <= j < |value| - 1 && value[j] == '\r' && value[j + 1] == '\n';
      assert data[at + j] == value[j] && data[at + j + 1] == value[j + 1];
      SearchCrlfStops(data, at, at + j);
    }
  }

  predicate NoBreak(text: string) { forall i :: 0 <= i < |text| ==> text[i] != '\r' && text[i] != '\n' }

  /** Text without line breaks around a host neither adds one nor hides one. */
  lemma CleanAround(before: string, host: string, after: string)
    requires NoBreak(before) && NoBreak(after)
    ensures CleanHost(before + host + after) <==> CleanHost(host)
  {
    var value, k := before + host + after, |before|;
    if CleanHost(host) {
      forall i | 0 <= i < |value| - 1 ensures !(value[i] == '\r' && value[i + 1] == '\n') {
        if k <= i < k + |host| - 1 {
          assert value[i] == host[i - k] && value[i + 1] == host[i - k + 1];
        } else {
          assert i < k ==> value[i] == before[i];
          assert i >= k + |host| ==> value[i] == after[i - k - |host|];
          assert i + 1 == k + |host| ==> value[i + 1] == after[0];
        }
      }
    } else {
      var j :| 0 <= j < |host| - 1 && host[j] == '\r' && host[j + 1] == '\n';
      assert value[j + k] == '\r' && value[j + k + 1] == '\n';
    }
  }

  lemma HostValueClean(u: Url)
    ensures CleanHost(HostValue(u)) <==> CleanHost(u.host)
  {
    hide ToChars, CleanHost;
    ToCharsRoundTrip(u.port, 10);
    var port := if u.HasNonDefaultPort() then ":" + ToChars(u.port, 10) else "";
    assert NoBreak(port);
    if IsIpv6(u.host) {
      CleanAround("[", u.host, "]" + port);
      assert HostValue(u) == "[" + u.host + ("]" + port);
    } else {
      CleanAround("", u.host, port);
      assert HostValue(u) == "" + u.host + port;
    }
  }

  /** Such hosts are accepted: "http://a", a line break, "b:80/". */
  lemma LineBreakHost()
    ensures var u := Url("a\r\nb", "/", 80, false);
            ParseUrl(OriginKey(u) + u.target) == u && !CleanHost(u.host)
  {
    hide ParseUrl, OriginKey;
    var u := Url("a\r\nb", "/", 80, false);
    assert u.host[1] == '\r' && u.host[2] == '\n';
    PrintedUrl(u);
  }

  // ------------------------------------------------- each edit on the built buffer

  lemma MethodEdit(r: Request, m: Method)
    requires WellFormed(r) && BodyStart(r) + 7 < BODY_LIMIT
    ensures |OriginKey(r.url)| + |MethodText(r.m)| <= |Built(r)|
    ensures Edited(Built(r), |OriginKey(r.url)|, |MethodText(r.m)|, MethodText(m)) == Built(r.(m := m))
    ensures HeadersStart(r.(m := m)) == HeadersStart(r) + |MethodText(m)| - |MethodText(r.m)|
    ensures BodyStart(r.(m := m)) == BodyStart(r) + |MethodText(m)| - |MethodText(r.m)|
    ensures WellFormed(r.(m := m)) && HeadersStart(r.(m := m)) < HEADER_LIMIT
  {
    hide OriginKey, HostValue, Edited, MethodText, CleanHost;
    HeaderInRange(r.(m := m));
    AroundMethod(r);
    AroundMethod(r.(m := m));
    EditIsSplice(OriginKey(r.url), MethodText(r.m),
                 " " + r.url.target + " HTTP/1.1" + "\r\nHost: " + HostValue(r.url) + r.tail, MethodText(m));
  }

  /** Replace the target past its first `k` bytes. */
  lemma TargetEdit(r: Request, k: nat, text: string)
    requires WellFormed(r) && k <= |r.url.target|
    ensures var at := |OriginKey(r.url)| + |MethodText(r.m)| + 1 + k;
            var r' := WithTarget(r, r.url.target[..k] + text);
            && at + (|r.url.target| - k) <= |Built(r)|
            && Edited(Built(r), at, |r.url.target| - k, text) == Built(r')
            && HeadersStart(r') == HeadersStart(r) + |text| - (|r.url.target| - k)
            && BodyStart(r') == BodyStart(r) + |text| - (|r.url.target| - k)
            && (r'.url.target != "" && TargetFits(r'.url.target, |OriginKey(r.url)|) && BodyStart(r') < BODY_LIMIT ==>
                  WellFormed(r'))
  {
    hide OriginKey, HostValue, Edited, MethodText, CleanHost;
    var r' := WithTarget(r, r.url.target[..k] + text);
    SameOrigin(r, r'.url.target);
    AroundTargetSuffix(r, k);
    AroundTargetSuffix(r', k);
    assert r'.url.target[..k] == r.url.target[..k] && r'.url.target[k..] == text;
    EditIsSplice(OriginKey(r.url) + MethodText(r.m) + " " + r.url.target[..k], r.url.target[k..],
                 " HTTP/1.1" + "\r\nHost: " + HostValue(r.url) + r.tail, text);
  }

  /** Replace everything up to the end of the Host line. */
  lemma UrlEdit(r: Request, u: Url)
    requires WellFormed(r)
    ensures var r' := r.(url := u);
            var end := |InitData(r.m, r.url)|;
            && end <= |Built(r)|
            && Edited(Built(r), 0, end, InitData(r.m, u)) == Built(r')
            && BodyStart(r') == BodyStart(r) + |InitData(r.m, u)| - end
            && HeadersStart(r') == |InitData(r.m, u)| - ComputeHostHeaderSize(u)
  {
    hide OriginKey, HostValue, Edited, MethodText, CleanHost, ToChars, InitData;
    LengthFormulas(r.m, u);
    EditIsSplice("", InitData(r.m, r.url), r.tail, InitData(r.m, u));
    assert "" + InitData(r.m, r.url) + r.tail == Built(r);
    assert "" + InitData(r.m, u) + r.tail == Built(r.(url := u));
  }

  /** Another origin can only be written over a host without line breaks. */
  predicate Retargetable(r: Request, location: string)
    requires r.url.target != ""
  {
    Resolve(r.url, location).NewUrl? ==> CleanHost(r.url.host)
  }

  /** Cutting short of the old head leaves too much of it. */
  lemma UrlEditLength(r: Request, u: Url, end: nat)
    requires end <= |InitData(r.m, r.url)|
    ensures end <= |Built(r)|
    ensures end < |InitData(r.m, r.url)| ==> Edited(Built(r), 0, end, InitData(r.m, u)) != Built(r.(url := u))
  {
    hide InitData;
    var data := Built(r);
    EditIsSplice("", data[..end], data[end..], InitData(r.m, u));
    assert "" + data[..end] + data[end..] == data;
  }

  /** The URL a Location leads to; None when it is refused. */
  function ResolvedUrl(u: Url, location: string): Option<Url>
    requires u.target != ""
  {
    match Resolve(u, location)
    case Unresolved => None
    case NewUrl(v) => if CheckTarget(v.target, |OriginKey(v)|) then Some(v) else None
    case NewTarget(t) => if CheckTarget(t, |OriginKey(u)|) then Some(u.(target := t)) else None
  }

  /** What a request becomes when a Location is followed. */
  function Followed(r: Request, location: string): Option<Request>
    requires r.url.target != ""
  {
    match ResolvedUrl(r.url, location)
    case None => None
    case Some(u) => Some(r.(url := u))
  }

  /**
   The code throws instead of refusing: another host too long for its field, or an absolute
   path that is no valid target.
   */
  predicate RedirectThrows(u: Url, location: string)
    requires u.target != ""
  {
    match Resolve(u, location)
    case Unresolved => false
    case NewUrl(v) => |v.host| > UINT16_MAX
    case NewTarget(t) => IsAbsolutePath(WithoutFragment(location)) && !CheckTarget(t, |OriginKey(u)|)
  }

  predicate IsAbsolutePath(ref: string) { ref != "" && ref[0] == '/' }

  /** A relative reference with a space in it is refused; the same reference as an absolute path throws. */
  lemma BlankInPath(u: Url)
    requires u.target != ""
    ensures RedirectThrows(u, "/ ") && ResolvedUrl(u, "/ ") == None
    ensures !RedirectThrows(u, " ") && ResolvedUrl(u, " ") == None
  {
    hide OriginKey, KeptPrefix;
    NotAbsolute("/ ");
    NotAbsolute(" ");
    FindAbsent("/ ", '#');
    FindAbsent(" ", '#');
    assert "/ "[..2] == "/ " && " "[..1] == " ";
    assert !TargetByte("/ ", 1) && !ValidTarget("/ ");
    assert Resolve(u, "/ ") == NewTarget("/ ");
    var t := u.target[..KeptPrefix(u.target, " ")] + " ";
    assert !TargetByte(t, |t| - 1) && !ValidTarget(t);
    assert Resolve(u, " ") == NewTarget(t);
  }

  /** Nothing but its length and a line break can spoil a request that is made to follow a Location. */
  predicate Followable(r: Request, location: string)
    requires r.url.target != ""
  {
    && BodyStart(r) + |location| + 9 < BODY_LIMIT && Retargetable(r, location)
    && (Followed(r, location).Some? ==> BodyStart(Followed(r, location).value) + 9 < BODY_LIMIT)
  }

  lemma FollowedWellFormed(r: Request, location: string)
    requires WellFormed(r) && Followed(r, location).Some? && !RedirectThrows(r.url, location)
    requires BodyStart(Followed(r, location).value) < BODY_LIMIT
    ensures WellFormed(Followed(r, location).value)
  {
    hide ParseUrl, ParseAuthority, OriginKey, BodyStart, FindSchemeEnd, Find, KeptPrefix;
    match Resolve(r.url, location)
    case Unresolved =>
    case NewUrl(v) =>
      if Contains3(location) { ParseUrlAccepts(location); } else { ParseAuthorityAccepts(location[2..], r.url.isTls); }
    case NewTarget(t) => SameOrigin(r, t);
  }

  class HttpRequest {
    var data: string
    var positions: nat
    var hostLen: nat
    var port: nat
    var originKeyLen: nat

    /** The object holds exactly the request `r`, as if built for it. */
    ghost predicate Holds(r: Request)
      reads this
    {
      && WellFormed(r) && data == Built(r)
      && positions == Pack(HeadersStart(r), BodyStart(r))
      && hostLen == |r.url.host| && port == r.url.port && originKeyLen == |OriginKey(r.url)|
    }

    /** What the getters compute from the buffer and the positions. */
    lemma Getters(r: Request)
      requires Holds(r)
      ensures HeaderOf(positions) == HeadersStart(r) < HEADER_LIMIT && BodyOf(positions) == BodyStart(r) < BODY_LIMIT
      ensures originKeyLen + 1 < |data| && MethodAt(data, originKeyLen) == r.m
      ensures var at := originKeyLen + |MethodText(r.m)| + 1;
              && HeadersStart(r) - 8 - 1 == at + |r.url.target| <= |data|
              && data[at..HeadersStart(r) - 8 - 1] == r.url.target
      ensures |data| > 4 && (data[4] == 's' <==> r.url.isTls)
    {
      hide HostValue, ToChars, Pack, HeaderOf, BodyOf, MethodAt, MethodText, CleanHost;
      Unpack(HeadersStart(r), BodyStart(r));
      AroundMethod(r);
      MethodReads(OriginKey(r.url), r.m,
                  " " + r.url.target + " HTTP/1.1" + "\r\nHost: " + HostValue(r.url) + r.tail);
      AroundTarget(r);
      assert data[4] == OriginKey(r.url)[4];
    }

    /** The views the client takes of a request: pool key, head and body. */
    method Views(ghost r: Request) returns (key: string, head: string, body: string)
      requires Holds(r)
      ensures key == OriginKey(r.url) && head == HeadText(r) && body == InlineBody(r) && head != ""
    {
      hide OriginKey, HeadText, HostValue, Built, WellFormed, Pack, HeaderOf, BodyOf, MethodAt, MethodText,
           HeadersStart, BodyStart;
      Getters(r);
      ViewsFit(r);
      key := data[..originKeyLen];
      head := data[originKeyLen..BodyOf(positions)];
      body := data[BodyOf(positions)..];
    }

    /** Drop the body, and whatever header lines go with it. */
    method DropBody(r: Request) returns (tail: string)
      requires Holds(r) && BodyStart(r) + 9 < BODY_LIMIT
      modifies this`data, this`positions
      ensures 2 <= |tail| <= r.bodyAt + 2 && Holds(r.(tail := tail, bodyAt := |tail|))
    {
      hide OriginKey, HostValue, MethodText, HeaderOf, BodyOf, Pack, InitData, RequestLine;
      Getters(r);
      var end := |InitData(r.m, r.url)|;
      var lines: string := *;
      tail := "\r\n" + if |lines| <= r.bodyAt then lines else "";
      assert tail[..2] == "\r\n";
      data := data[..end] + tail;
      positions := Pack(HeaderOf(positions), |data|);
    }

    method SetMethod(m: Method, ghost r: Request)
      requires Holds(r) && BodyStart(r) + 7 < BODY_LIMIT
      modifies this`data, this`positions
      ensures Holds(r.(m := m))
    {
      hide OriginKey, HostValue, Edited, MethodText, WellFormed, Built, Pack, HeaderOf, BodyOf,
           AdjustHeadersAndBody, MethodAt, HeadersStart, BodyStart;
      Getters(r);
      var oldMethod := MethodAt(data, originKeyLen);
      if m == oldMethod { return; }
      var newText, oldLen := MethodText(m), |MethodText(oldMethod)|;
      MethodEdit(r, m);
      AdjustMovesBoth(HeadersStart(r), BodyStart(r), |newText| - oldLen);
      data := Edited(data, originKeyLen, oldLen, newText);
      positions := AdjustHeadersAndBody(positions, |newText| - oldLen);
    }

    /** Put `text` in place of the target past its first `k` bytes. */
    method SpliceTarget(k: nat, text: string, ghost r: Request)
      requires Holds(r) && k <= |r.url.target|
      requires r.url.target[..k] + text != "" && TargetFits(r.url.target[..k] + text, |OriginKey(r.url)|)
      requires BodyStart(r) + |text| < BODY_LIMIT
      modifies this`data, this`positions
      ensures Holds(WithTarget(r, r.url.target[..k] + text))
    {
      hide OriginKey, HostValue, Edited, MethodText, WellFormed, Built, Pack, HeaderOf, BodyOf,
           AdjustHeadersAndBody, MethodAt, HeadersStart, BodyStart;
      Getters(r);
      TargetEdit(r, k, text);
      ghost var r' := WithTarget(r, r.url.target[..k] + text);
      SameOrigin(r, r'.url.target);
      HeaderInRange(r');
      var at := originKeyLen + |MethodText(MethodAt(data, originKeyLen))| + 1;
      var oldLen := HeaderOf(positions) - 8 - 1 - at - k;
      AdjustMovesBoth(HeadersStart(r), BodyStart(r), |text| - oldLen);
      data := Edited(data, at + k, oldLen, text);
      positions := AdjustHeadersAndBody(positions, |text| - oldLen);
    }

    method SetTarget(target: string, ghost r: Request) returns (outcome: Outcome)
      requires Holds(r) && BodyStart(r) + |target| < BODY_LIMIT
      modifies this`data, this`positions
      ensures outcome == (if CheckTarget(target, |OriginKey(r.url)|) then Done else Thrown)
      ensures Holds(if outcome == Done then WithTarget(r, target) else r)
    {
      hide OriginKey, Built, WellFormed, Pack, HeadersStart, BodyStart;
      var valid := IsValidRequestTarget(target);
      if !valid || !TargetFits(target, originKeyLen) { return Thrown; }
      assert r.url.target[..0] + target == target;
      SpliceTarget(0, target, r);
      return Done;
    }

    /**
     Retarget the request at another origin. It becomes a request built for that origin if and
     only if the old host hides no line break; a refusal leaves the buffer alone, but not the
     remembered lengths once the host was acceptable.
     */
    method SetNewUrl(u: Url, ghost r: Request) returns (outcome: Outcome)
      requires Holds(r)
      modifies this
      ensures outcome == Done <==> |u.host| <= UINT16_MAX && CheckTarget(u.target, |OriginKey(u)|)
      ensures outcome == Done && WellFormed(r.(url := u)) ==> (Holds(r.(url := u)) <==> CleanHost(r.url.host))
      ensures outcome == Thrown <==> |u.host| > UINT16_MAX
      ensures outcome == Thrown ==> Holds(r)
      ensures outcome == Rejected ==>
                && data == old(data) && positions == old(positions)
                && hostLen == |u.host| && port == u.port && originKeyLen == |OriginKey(u)|
    {
      hide OriginKey, HostValue, Edited, MethodText, Built, Pack, HeaderOf, BodyOf, MethodAt, HeadersStart,
           BodyStart, InitData, ComputeHostHeaderSize, OriginKeyLength, SetHeader, AdjustBody, SearchCrlf, CleanHost;
      Getters(r);
      HostLineEnds(r);
      LengthFormulas(r.m, u);
      var oldEnd := SearchCrlf(data, HeaderOf(positions) + 8);
      var m := MethodAt(data, originKeyLen);
      if |u.host| > UINT16_MAX { return Thrown; }
      hostLen, port, originKeyLen := |u.host|, u.port, OriginKeyLength(u);
      var valid := IsValidRequestTarget(u.target);
      if !valid || !TargetFits(u.target, originKeyLen) { return Rejected; }
      var hostHeaderSize := ComputeHostHeaderSize(u);
      var newEnd := originKeyLen + |MethodText(m)| + 1 + |u.target| + 1 + 8 + hostHeaderSize;
      var diff := newEnd - oldEnd;
      UrlEdit(r, u);
      UrlEditLength(r, u, oldEnd);
      data := Edited(data, 0, oldEnd, InitData(m, u));
      ghost var r' := r.(url := u);
      HeaderInRange(r');
      if BodyStart(r') < BODY_LIMIT && CleanHost(r.url.host) {
        AdjustMovesBody(HeadersStart(r'), BodyStart(r), diff);
        AdjustMovesBody(HeadersStart(r), BodyStart(r), 0);
      }
      positions := SetHeader(positions, newEnd - hostHeaderSize);
      positions := AdjustBody(positions, diff);
      return Done;
    }

    /** A reference relative to the current target: the bytes are written before the check. */
    method RelativeTarget(ref: string, ghost r: Request) returns (outcome: Outcome)
      requires Holds(r)
      modifies this`data, this`positions
      ensures var t := r.url.target[..KeptPrefix(r.url.target, ref)] + ref;
              && (outcome == Done <==> CheckTarget(t, |OriginKey(r.url)|)) && outcome != Thrown
              && (outcome == Done && BodyStart(WithTarget(r, t)) < BODY_LIMIT ==> Holds(WithTarget(r, t)))
      ensures outcome == Rejected ==> positions == old(positions) && |data| == |old(data)|
    {
      hide OriginKey, HostValue, EditBuffer, MethodText, Built, Pack, HeaderOf, BodyOf, MethodAt, HeadersStart,
           BodyStart, AdjustHeadersAndBody, CleanHost, ValidTarget, KeptPrefix;
      Getters(r);
      var at := originKeyLen + |MethodText(MethodAt(data, originKeyLen))| + 1;
      var old_ := data[at..HeaderOf(positions) - 8 - 1];
      var k := KeptPrefix(old_, ref);
      var newLen, oldLen := k + |ref|, |old_|;
      ghost var t := old_[..k] + ref;
      TargetEdit(r, k, ref);
      TargetBytes(r, k, ref);
      var buf := EditBuffer(data, at + k, oldLen - k, ref);
      var valid := IsValidRequestTarget(buf[at..at + newLen]);
      if !valid || !TargetFits(buf[at..at + newLen], originKeyLen) {
        data := buf[..|data|];
        return Rejected;
      }
      SameOrigin(r, t);
      HeaderInRange(WithTarget(r, t));
      if BodyStart(WithTarget(r, t)) < BODY_LIMIT {
        AdjustMovesBoth(HeadersStart(r), BodyStart(r), newLen - oldLen);
      }
      positions := AdjustHeadersAndBody(positions, newLen - oldLen);
      data := buf[..|data| + newLen - oldLen];
      assert BodyStart(WithTarget(r, t)) < BODY_LIMIT ==> Holds(WithTarget(r, t)) by { assert |t| == newLen; }
      return Done;
    }

    /** Follow a Location header. */
    method ResolveRedirect(location: string, ghost r: Request) returns (outcome: Outcome)
      requires Holds(r) && BodyStart(r) + |location| < BODY_LIMIT
      modifies this
      ensures outcome == Thrown <==> RedirectThrows(r.url, location)
      ensures outcome == Done <==> Followed(r, location).Some? && !RedirectThrows(r.url, location)
      ensures Followed(r, location).Some? && WellFormed(Followed(r, location).value) && Retargetable(r, location) ==>
                outcome == Done && Holds(Followed(r, location).value)
    {
      hide OriginKey, Built, Pack, HeadersStart, BodyStart, HeaderOf, BodyOf, MethodAt, MethodText,
           ParseUrl, ParseAuthority, CheckTarget, CleanHost, KeptPrefix, FindSchemeEnd, Find;
      Getters(r);
      if Contains3(location) {
        var u := ParseUrl(location);
        if u.host == "" { return Rejected; }
        outcome := SetNewUrl(u, r);
        return;
      }
      if |location| >= 2 && location[..2] == "//" {
        var u := ParseAuthority(location[2..], data[4] == 's');
        if u.host == "" { return Rejected; }
        outcome := SetNewUrl(u, r);
        return;
      }
      var ref := location[..Find(location, '#')];
      if ref != "" && ref[0] == '/' {
        outcome := SetTarget(ref, r);
      } else {
        outcome := RelativeTarget(ref, r);
      }
    }

    /** Any sequence of edits leaves the buffer a fresh build of the final request would have. */
    method ApplyEdits(edits: seq<Edit>, ghost r: Request)
      requires Holds(r) && AfterEdits(r, edits).Some?
      modifies this
      ensures Holds(AfterEdits(r, edits).value)
    {
      hide WellFormed, Built, BodyStart, HeadersStart, Pack, OriginKey, Followed, CheckTarget;
      ghost var q := r;
      assert edits[0..] == edits;
      for i := 0 to |edits|
        invariant Holds(q)
        invariant AfterEdits(q, edits[i..]) == AfterEdits(r, edits)
      {
        assert edits[i..][0] == edits[i] && edits[i..][1..] == edits[i + 1..];
        StepDefined(q, edits[i..]);
        match edits[i] {
          case ToMethod(m) => SetMethod(m, q);
          case ToTarget(target) => var _ := SetTarget(target, q);
          case Redirect(location) => var _ := ResolveRedirect(location, q);
        }
        q := AfterEdit(q, edits[i]).value;
      }
      assert edits[|edits|..] == [];
    }

    /** Build a request for a method, a URL and ready-made header lines. */
    static method Create(m: Method, url: string, headers: string) returns (outcome: Outcome, req: HttpRequest?)
      requires headers == "" || |headers| >= 2
      ensures var u := ParseUrl(url);
              outcome == Done <==> u.host != "" && |u.host| <= UINT16_MAX && CheckTarget(u.target, |OriginKey(u)|)
      ensures outcome == Done ==> req != null && fresh(req)
      ensures var r := NewRequest(m, ParseUrl(url), headers);
              outcome == Done && BodyStart(r) < BODY_LIMIT ==> req.Holds(r)
    {
      hide OriginKey, ParseUrl, ToChars, CleanHost, Pack;
      var u := ParseUrl(url);
      if u.host == "" { return Thrown, null; }
      if |u.host| > UINT16_MAX { return Thrown, null; }
      var valid := IsValidRequestTarget(u.target);
      LengthFormulas(m, u);
      if !valid || !TargetFits(u.target, OriginKeyLength(u)) { return Thrown, null; }
      ParseUrlAccepts(url);
      req := new HttpRequest(m, u, headers);
      return Done, req;
    }

    constructor (m: Method, u: Url, headers: string)
      requires headers == "" || |headers| >= 2
      ensures data == Built(NewRequest(m, u, headers))
      ensures |data| == NeededCapacity(m, u, headers)
      ensures hostLen == |u.host| && port == u.port && originKeyLen == |OriginKey(u)|
      ensures positions == Pack(HeadersStart(NewRequest(m, u, headers)), |data|)
    {
      hide OriginKey, ToChars, Pack;
      LengthFormulas(m, u);
      hostLen, port, originKeyLen := |u.host|, u.port, OriginKeyLength(u);
      var head := InitData(m, u);
      var headersStart := |head| - ComputeHostHeaderSize(u);
      var text := head;
      if headers != "" {
        text := text + "\r\n" + headers[..|headers| - 2];
      }
      text := text + "\r\n\r\n";
      data := text;
      positions := Pack(headersStart, NeededCapacity(m, u, headers));
    }
  }

  lemma ViewsFit(r: Request)
    requires WellFormed(r)
    ensures var k, b := |OriginKey(r.url)|, BodyStart(r);
            && k <= b <= |Built(r)| && Built(r)[..k] == OriginKey(r.url) && Built(r)[k..b] == HeadText(r) != ""
            && Built(r)[b..] == InlineBody(r)
  {
    hide OriginKey, HeadText, InlineBody, Built, BodyStart;
    BuiltParts(r);
    HeadNotEmpty(r);
  }

  lemma HeadNotEmpty(r: Request)
    requires r.bodyAt <= |r.tail|
    ensures HeadText(r) != ""
  {
    hide HostValue;
  }

  /** A target fits exactly when the header position of every method does, in 24 bits. */
  lemma FitsEveryMethod(r: Request)
    ensures TargetFits(r.url.target, |OriginKey(r.url)|) <==> forall m :: HeadersStart(r.(m := m)) < 0x100_0000
  {
    hide OriginKey;
    assert |MethodText(OPTIONS)| == 7;
    assert HeadersStart(r.(m := OPTIONS)) == |OriginKey(r.url)| + 7 + 2 + 8 + |r.url.target|;
  }

  lemma HeaderInRange(r: Request)
    requires TargetFits(r.url.target, |OriginKey(r.url)|)
    ensures HeadersStart(r) < HEADER_LIMIT
  {
    hide OriginKey;
  }

  /** The edited buffer shows the new target where the old one was. */
  lemma TargetBytes(r: Request, k: nat, text: string)
    requires WellFormed(r) && k <= |r.url.target|
    ensures var at := |OriginKey(r.url)| + |MethodText(r.m)| + 1;
            && at + |r.url.target| <= |Built(r)|
            && var buf := EditBuffer(Built(r), at + k, |r.url.target| - k, text);
               at + k + |text| <= |buf| && buf[at..at + k + |text|] == r.url.target[..k] + text
  {
    hide OriginKey, HostValue, EditBuffer, MethodText, CleanHost;
    TargetEdit(r, k, text);
    var r' := WithTarget(r, r.url.target[..k] + text);
    SameOrigin(r, r'.url.target);
    AroundTarget(r');
    var at := |OriginKey(r.url)| + |MethodText(r.m)| + 1;
    var buf := EditBuffer(Built(r), at + k, |r.url.target| - k, text);
    var e := buf[..|Built(r')|];
    assert e[at..at + k + |text|] == r'.url.target;
  }

  // ------------------------------------------------------------ sequences of edits

  datatype Edit = ToMethod(m: Method) | ToTarget(target: string) | Redirect(location: string)

  /** The request an edit leads to: the same one for a refused target, none after a refused redirect. */
  ghost function AfterEdit(r: Request, e: Edit): Option<Request>
    requires WellFormed(r)
  {
    var next := match e
      case ToMethod(m) => if BodyStart(r) + 7 < BODY_LIMIT then Some(r.(m := m)) else None
      case ToTarget(t) =>
        if BodyStart(r) + |t| >= BODY_LIMIT then None
        else if CheckTarget(t, |OriginKey(r.url)|) then Some(WithTarget(r, t))
        else Some(r)
      case Redirect(location) =>
        if BodyStart(r) + |location| < BODY_LIMIT && Retargetable(r, location) then Followed(r, location) else None;
    if next.Some? && WellFormed(next.value) then next else None
  }

  ghost function AfterEdits(r: Request, edits: seq<Edit>): Option<Request>
    requires WellFormed(r)
    decreases |edits|
  {
    if edits == [] then Some(r)
    else
      match AfterEdit(r, edits[0])
      case None => None
      case Some(r') => AfterEdits(r', edits[1..])
  }

  lemma StepDefined(r: Request, edits: seq<Edit>)
    requires WellFormed(r) && edits != [] && AfterEdits(r, edits).Some?
    ensures AfterEdit(r, edits[0]).Some? && WellFormed(AfterEdit(r, edits[0]).value)
    ensures AfterEdits(r, edits) == AfterEdits(AfterEdit(r, edits[0]).value, edits[1..])
  {
    hide WellFormed, Followed, CheckTarget;
  }

  /** Whatever the edits, later header lines and body are untouched and the body offset still finds the body. */
  lemma {:induction false} EditsKeepTail(r: Request, edits: seq<Edit>)
    requires WellFormed(r) && AfterEdits(r, edits).Some?
    ensures var q := AfterEdits(r, edits).value;
            && q.tail == r.tail && q.bodyAt == r.bodyAt
            && BodyStart(q) <= |Built(q)| && Built(q)[BodyStart(q)..] == r.tail[r.bodyAt..]
            && HeadersStart(q) + 2 <= |Built(q)| && Built(q)[HeadersStart(q)..HeadersStart(q) + 2] == "\r\n"
    decreases |edits|
  {
    hide OriginKey, HostValue, MethodText, CheckTarget, CleanHost;
    if edits == [] {
      assert Built(r)[|InitData(r.m, r.url)|..] == r.tail;
      var line := OriginKey(r.url) + RequestLine(r.m, r.url.target);
      assert Built(r) == line + "\r\n" + ("Host: " + HostValue(r.url) + r.tail);
    } else {
      StepDefined(r, edits);
      EditsKeepTail(AfterEdit(r, edits[0]).value, edits[1..]);
    }
  }

  /** The header block after the Host line, from ready-made lines. */
  function TailOf(headers: string): string
    requires headers == "" || |headers| >= 2
  {
    (if headers == "" then "" else "\r\n" + headers[..|headers| - 2]) + "\r\n\r\n"
  }

  function NewRequest(m: Method, u: Url, headers: string): Request
    requires headers == "" || |headers| >= 2
  {
    Request(m, u, TailOf(headers), |TailOf(headers)|)
  }

  /** The capacity the constructor reserves. */
  function NeededCapacity(m: Method, u: Url, headers: string): nat {
    (|MethodText(m)| + 1 + |u.target| + 1 + 8 + 4) + ComputeHostHeaderSize(u) + |headers| + OriginKeyLength(u)
  }
}
