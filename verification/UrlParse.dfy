/**
 URL parsing and the origin key printed from its result.
 */
module UrlParse {
  import opened Text

  /** `UrlParseResult`; an empty host marks malformed input. */
  datatype Url = Url(host: string, target: string, port: nat, isTls: bool)
  {
    predicate HasNonDefaultPort() { if isTls then port != 443 else port != 80 }
  }

  const NO_URL := Url("", "", 0, false)

  /** Index of the first '/' or '?', or the length. */
  function AuthorityEnd(s: string): (r: nat)
    ensures r <= |s|
    ensures forall i :: 0 <= i < r ==> s[i] != '/' && s[i] != '?'
    ensures r < |s| ==> s[r] == '/' || s[r] == '?'
  {
    if s == [] || s[0] == '/' || s[0] == '?' then 0 else 1 + AuthorityEnd(s[1..])
  }

  /** Host and port text of an authority; None when it is malformed. */
  function SplitAuthority(authority: string): Option<(string, string)> {
    if authority == [] || '@' in authority then None
    else if authority[0] == '[' then
      var close := Find(authority, ']');
      if close == |authority| then None
      else
        var after := authority[close + 1..];
        if after == [] then Some((authority[1..close], ""))
        else if after[0] != ':' then None
        else Some((authority[1..close], after[1..]))
    else
      var k := AfterLast(authority, ':');
      if k == 0 then Some((authority, "")) else Some((authority[..k - 1], authority[k..]))
  }

  /** "host[:port][/path][?query]" after the scheme; the fragment is dropped. */
  function ParseAuthority(text: string, isTls: bool): Url {
    var rest := text[..Find(text, '#')];
    var end := AuthorityEnd(rest);
    var target := if end == |rest| then "/" else rest[end..];
    match SplitAuthority(rest[..end])
    case None => Url("", target, 0, isTls)
    case Some((host, portText)) =>
      if host == [] then Url("", target, 0, isTls)
      else if portText == [] then Url(host, target, if isTls then 443 else 80, isTls)
      else
        match FromChars(portText, 10, UINT16_MAX)
        case None => Url("", target, 0, isTls)
        case Some(port) => if port == 0 then Url("", target, 0, isTls) else Url(host, target, port, isTls)
  }

  predicate SeparatorAt(s: string, i: nat) {
    i + 3 <= |s| && s[i] == ':' && s[i + 1] == '/' && s[i + 2] == '/'
  }

  /** First occurrence of "://" at or after `from`, or the length. */
  function FindSchemeEnd(s: string, from: nat := 0): (r: nat)
    requires from <= |s|
    ensures from <= r <= |s|
    ensures r < |s| ==> SeparatorAt(s, r)
    ensures forall i :: from <= i < r ==> !SeparatorAt(s, i)
    decreases |s| - from
  {
    if from == |s| || SeparatorAt(s, from) then from else FindSchemeEnd(s, from + 1)
  }

  function ParseUrl(url: string): Url {
    var end := FindSchemeEnd(url);
    if end == |url| || end == 0 then NO_URL
    else if EqualIgnoreCase(url[..end], "https") then ParseAuthority(url[end + 3..], true)
    else if EqualIgnoreCase(url[..end], "http") then ParseAuthority(url[end + 3..], false)
    else NO_URL
  }

  function Scheme(isTls: bool): string { if isTls then "https" else "http" }

  /** "scheme://host:port", the port always spelled out. */
  function OriginKey(u: Url): string {
    Scheme(u.isTls) + "://" + u.host + ":" + ToChars(u.port, 10)
  }

  // ------------------------------------------------------------- what a parse yields

  /** Characters an accepted host can never hold. */
  ghost predicate HostText(host: string) {
    forall i :: 0 <= i < |host| ==> host[i] !in "/?#@"
  }

  /** Origin-form target: starts with '/' or '?', no fragment. */
  ghost predicate TargetText(target: string) {
    target != "" && (target[0] == '/' || target[0] == '?') && '#' !in target
  }

  ghost predicate Accepted(u: Url) {
    u.host != "" && HostText(u.host) && TargetText(u.target) && 1 <= u.port <= UINT16_MAX
  }

  lemma SplitAuthorityHost(authority: string)
    requires SplitAuthority(authority).Some?
    ensures var (host, _) := SplitAuthority(authority).value;
            '@' !in authority && forall c :: c in host ==> c in authority
  {
  }

  lemma ParseAuthorityAccepts(text: string, isTls: bool)
    requires ParseAuthority(text, isTls).host != ""
    ensures Accepted(ParseAuthority(text, isTls)) && ParseAuthority(text, isTls).isTls == isTls
  {
    hide FromChars, SplitAuthority;
    var rest := text[..Find(text, '#')];
    var end := AuthorityEnd(rest);
    var authority := rest[..end];
    assert '#' !in rest;
    FromCharsBound();
    SplitAuthorityHost(authority);
    var host := ParseAuthority(text, isTls).host;
    forall i | 0 <= i < |host| ensures host[i] !in "/?#@" {
      assert host[i] in authority && host[i] in rest;
    }
  }

  lemma FromCharsBound()
    ensures forall s, max :: FromChars(s, 10, max).Some? ==> FromChars(s, 10, max).value <= max
  {
  }

  lemma ParseUrlAccepts(url: string)
    requires ParseUrl(url).host != ""
    ensures Accepted(ParseUrl(url))
  {
    hide ParseAuthority, EqualIgnoreCase, Accepted;
    var end := FindSchemeEnd(url);
    if EqualIgnoreCase(url[..end], "https") {
      ParseAuthorityAccepts(url[end + 3..], true);
    } else {
      ParseAuthorityAccepts(url[end + 3..], false);
    }
  }

  // ---------------------------------------------------------------------- round trip

  /** The printed port is a non-empty run of digits that reads back. */
  lemma PortText(port: nat)
    requires 1 <= port <= UINT16_MAX
    ensures var p := ToChars(port, 10);
            p != "" && FromChars(p, 10, UINT16_MAX) == Some(port)
    ensures forall c :: c in ToChars(port, 10) ==> c !in ":/?#@[]"
  {
    hide ToChars;
    ToCharsRoundTrip(port, 10);
    ToCharsFromChars(port, 10, UINT16_MAX);
  }

  /** Authority "host:port" splits at its last colon, unless the host looks like a bracket. */
  lemma SplitPrinted(host: string, port: string)
    requires host != "" && HostText(host) && port != ""
    requires forall c :: c in port ==> c !in ":/?#@[]"
    ensures host[0] != '[' ==> SplitAuthority(host + ":" + port) == Some((host, port))
    ensures host[0] == '[' && ']' !in host ==> SplitAuthority(host + ":" + port) == None
  {
    var a := host + ":" + port;
    forall c | c in a ensures c != '@' {
      assert c in host || c == ':' || c in port;
    }
    assert a[0] == host[0];
    if host[0] != '[' {
      assert a[|host|] == ':' && a[|host| + 1..] == port && a[..|host|] == host;
      AfterLastAt(a, ':', |host| + 1);
    } else if ']' !in host {
      assert ']' !in a;
      FindAbsent(a, ']');
    }
  }

  lemma AfterLastAt(s: string, c: char, k: nat)
    requires 0 < k <= |s| && s[k - 1] == c && c !in s[k..]
    ensures AfterLast(s, c) == k
    decreases |s|
  {
    if |s| > k {
      assert s[|s| - 1] in s[k..];
      var t := s[..|s| - 1];
      assert t[k..] == s[k..|s| - 1] && forall c' :: c' in t[k..] ==> c' in s[k..];
      AfterLastAt(t, c, k);
    }
  }

  /** Authority and target come apart where they were joined. */
  lemma AuthorityThenTarget(authority: string, target: string)
    requires TargetText(target) && forall c :: c in authority ==> c !in "/?#"
    ensures var text := authority + target;
            Find(text, '#') == |text| && AuthorityEnd(text) == |authority|
  {
    var text := authority + target;
    assert forall c :: c in text ==> c in authority || c in target;
    FindAbsent(text, '#');
    var e := AuthorityEnd(text);
    assert text[|authority|] == target[0];
    assert forall i :: 0 <= i < |authority| ==> text[i] in authority;
  }

  lemma PrintedAuthority(u: Url)
    requires Accepted(u)
    ensures var r := ParseAuthority(u.host + ":" + ToChars(u.port, 10) + u.target, u.isTls);
            && (u.host[0] != '[' ==> r == u)
            && (u.host[0] == '[' && ']' !in u.host ==> r.host == "")
  {
    hide FromChars, ToChars, SplitAuthority;
    var port := ToChars(u.port, 10);
    PortText(u.port);
    var authority := u.host + ":" + port;
    forall c | c in authority ensures c !in "/?#" {
      assert c in u.host || c == ':' || c in port;
    }
    AuthorityThenTarget(authority, u.target);
    var text := authority + u.target;
    assert text[..|text|] == text && text[..|authority|] == authority && text[|authority|..] == u.target;
    SplitPrinted(u.host, port);
  }

  lemma SchemeFound(isTls: bool, rest: string)
    ensures var url := Scheme(isTls) + "://" + rest;
            && FindSchemeEnd(url) == |Scheme(isTls)|
            && url[..|Scheme(isTls)|] == Scheme(isTls) && url[|Scheme(isTls)| + 3..] == rest
  {
    var url, n := Scheme(isTls) + "://" + rest, |Scheme(isTls)|;
    assert SeparatorAt(url, n);
    forall i | 0 <= i < n ensures !SeparatorAt(url, i) {
      assert url[i] == Scheme(isTls)[i];
    }
  }

  lemma SchemeNames()
    ensures Lower("https") == "https" && Lower("http") == "http"
  {
  }

  /**
   Round trip and its exact reach.  For every accepted URL, parsing its origin key
   followed by its target gives it back if and only if the host does not start with '['.
   */
  lemma UrlRoundTrip(url: string)
    requires ParseUrl(url).host != ""
    ensures var u := ParseUrl(url);
            ParseUrl(OriginKey(u) + u.target) == u <==> u.host[0] != '['
  {
    hide ParseAuthority, ToChars, Lower, Accepted;
    var u := ParseUrl(url);
    ParseUrlAccepts(url);
    PrintedUrl(u);
    if u.host[0] == '[' {
      BracketedHost(url);
    }
  }

  /** The printed form of an acceptable URL parses as its authority does. */
  lemma PrintedUrl(u: Url)
    requires Accepted(u)
    ensures u.host[0] != '[' ==> ParseUrl(OriginKey(u) + u.target) == u
    ensures u.host[0] == '[' && ']' !in u.host ==> ParseUrl(OriginKey(u) + u.target).host == ""
  {
    hide ParseAuthority, ToChars, Lower;
    var rest := u.host + ":" + ToChars(u.port, 10) + u.target;
    assert OriginKey(u) + u.target == Scheme(u.isTls) + "://" + rest;
    SchemeFound(u.isTls, rest);
    SchemeNames();
    PrintedAuthority(u);
  }

  /** A host that starts with '[' came from inside brackets, so it holds no ']'. */
  lemma BracketedHost(url: string)
    requires ParseUrl(url).host != "" && ParseUrl(url).host[0] == '['
    ensures ']' !in ParseUrl(url).host
  {
    hide FromChars, EqualIgnoreCase, FindSchemeEnd;
    var end := FindSchemeEnd(url);
    var text := url[end + 3..];
    var rest := text[..Find(text, '#')];
    var authority := rest[..AuthorityEnd(rest)];
    if authority[0] == '[' {
      var close := Find(authority, ']');
      assert ']' !in authority[1..close];
    }
  }

  lemma BracketedSplit(h: string)
    requires HostText(h) && ']' !in h
    ensures SplitAuthority("[" + h + "]") == Some((h, ""))
  {
    hide Find, AfterLast;
    var authority := "[" + h + "]";
    assert '@' !in authority by { assert forall c :: c in authority ==> c == '[' || c in h || c == ']'; }
    assert authority[..1 + |h|] == "[" + h && authority[1..1 + |h|] == h && authority[1 + |h| + 1..] == "";
    FindAt(authority, ']', 1 + |h|);
  }

  /** A bracketed host is taken as it stands, whatever it starts with. */
  lemma BracketedParses(h: string)
    requires h != "" && HostText(h) && ']' !in h
    ensures ParseUrl("http" + "://" + ("[" + h + "]" + "/")) == Url(h, "/", 80, false)
  {
    hide Lower, FindSchemeEnd, AuthorityEnd, Find, SplitAuthority;
    var authority := "[" + h + "]";
    var text := authority + "/";
    SchemeFound(false, text);
    SchemeNames();
    forall c | c in authority ensures c !in "/?#" { assert c == '[' || c in h || c == ']'; }
    AuthorityThenTarget(authority, "/");
    assert text[..|text|] == text && text[..|authority|] == authority && text[|authority|..] == "/";
    BracketedSplit(h);
  }

  /** The double bracket is the input that does not come back. */
  lemma BracketedHostFails()
    ensures var u := ParseUrl("http" + "://" + ("[" + "[a" + "]" + "/"));
            u == Url("[a", "/", 80, false) && ParseUrl(OriginKey(u) + u.target) != u
  {
    hide ParseUrl, OriginKey;
    var url := "http" + "://" + ("[" + "[a" + "]" + "/");
    BracketedParses("[a");
    UrlRoundTrip(url);
  }

  // ------------------------------------------------------------ URLs by their text

  /** A host as an authority shows it: in brackets, or as it stands. */
  function Shown(host: string, bracketed: bool): string { if bracketed then "[" + host + "]" else host }

  /** The host can be told from what surrounds it. */
  ghost predicate Showable(host: string, bracketed: bool) {
    && host != "" && HostText(host)
    && (if bracketed then ']' !in host else host[0] != '[' && ':' !in host)
  }

  /** Nothing, or a colon and some port text. */
  ghost predicate PortPart(part: string) {
    part == "" || (part[0] == ':' && forall i :: 1 <= i < |part| ==> part[i] !in ":/?#@")
  }

  lemma ShownChars(host: string, bracketed: bool, part: string)
    requires Showable(host, bracketed) && PortPart(part)
    ensures var a := Shown(host, bracketed) + part;
            a != "" && forall c :: c in a ==> c !in "/?#@"
  {
    var a := Shown(host, bracketed) + part;
    forall i | 0 <= i < |a| ensures a[i] !in "/?#@" {
      var k := |Shown(host, bracketed)|;
      if i < k {
        assert a[i] == Shown(host, bracketed)[i];
      } else {
        assert a[i] == part[i - k];
      }
    }
  }

  lemma BracketsSplit(host: string, part: string)
    requires Showable(host, true) && PortPart(part)
    ensures SplitAuthority("[" + host + "]" + part) == Some((host, if part == "" then "" else part[1..]))
  {
    hide AfterLast, Find;
    var a := "[" + host + "]" + part;
    assert a == Shown(host, true) + part;
    ShownChars(host, true, part);
    AroundBrackets(host, part);
    FindAt(a, ']', 1 + |host|);
  }

  lemma AroundBrackets(host: string, part: string)
    ensures var a := "[" + host + "]" + part;
            && a[0] == '[' && a[1 + |host|] == ']' && a[..1 + |host|] == "[" + host && a[1..1 + |host|] == host
            && a[|host| + 2..] == part
  {
  }

  lemma PlainSplits(host: string, part: string)
    requires Showable(host, false) && PortPart(part)
    ensures SplitAuthority(host + part) == Some((host, if part == "" then "" else part[1..]))
  {
    hide AfterLast, Find;
    var a := host + part;
    ShownChars(host, false, part);
    assert a[0] == host[0];
    if part == "" {
      assert a == host;
    } else {
      assert a[|host|] == ':' && a[|host| + 1..] == part[1..] && a[..|host|] == host;
      AfterLastAt(a, ':', |host| + 1);
    }
  }

  /** Host and port text come apart again. */
  lemma ShownSplits(host: string, bracketed: bool, part: string)
    requires Showable(host, bracketed) && PortPart(part)
    ensures SplitAuthority(Shown(host, bracketed) + part) == Some((host, if part == "" then "" else part[1..]))
  {
    hide SplitAuthority, Showable, PortPart;
    if bracketed { BracketsSplit(host, part); } else { PlainSplits(host, part); }
  }

  /** The target an authority is followed by: none means the root. */
  function TargetOrRoot(target: string): string { if target == "" then "/" else target }

  /** The URL of a host and port text: the default port without one, nothing for a port out of range. */
  function UrlOf(host: string, portText: string, target: string, isTls: bool): Url {
    if portText == "" then Url(host, target, if isTls then 443 else 80, isTls)
    else
      match FromChars(portText, 10, 65535)
      case None => Url("", target, 0, isTls)
      case Some(port) => if port == 0 then Url("", target, 0, isTls) else Url(host, target, port, isTls)
  }

  lemma TextEnds(authority: string, target: string, fragment: string)
    requires (target == "" || TargetText(target)) && (fragment == "" || fragment[0] == '#')
    requires forall c :: c in authority ==> c !in "/?#"
    ensures var text := authority + target + fragment;
            text[..Find(text, '#')] == authority + target && AuthorityEnd(authority + target) == |authority|
  {
    var text, rest := authority + target + fragment, authority + target;
    forall c | c in rest ensures c != '#' { assert c in authority || c in target; }
    assert text[..|rest|] == rest;
    if fragment == "" { FindAbsent(text, '#'); } else { FindAt(text, '#', |rest|); }
    assert forall i :: 0 <= i < |authority| ==> rest[i] in authority;
    assert target != "" ==> rest[|authority|] == target[0];
  }

  /** What an authority, a target and a fragment parse to. */
  lemma AuthorityMeaning(host: string, bracketed: bool, part: string, target: string, fragment: string, isTls: bool)
    requires Showable(host, bracketed) && PortPart(part)
    requires (target == "" || TargetText(target)) && (fragment == "" || fragment[0] == '#')
    ensures ParseAuthority(Shown(host, bracketed) + part + target + fragment, isTls) ==
            UrlOf(host, if part == "" then "" else part[1..], TargetOrRoot(target), isTls)
  {
    hide FromChars, SplitAuthority, Find, AuthorityEnd;
    var authority := Shown(host, bracketed) + part;
    ShownChars(host, bracketed, part);
    ShownSplits(host, bracketed, part);
    TextEnds(authority, target, fragment);
    assert (authority + target)[..|authority|] == authority && (authority + target)[|authority|..] == target;
  }

  lemma SpelledScheme(scheme: string, isTls: bool, rest: string)
    requires Spells(scheme, Scheme(isTls))
    ensures ParseUrl(scheme + "://" + rest) == ParseAuthority(rest, isTls)
  {
    hide ParseAuthority, Lower;
    var url, n := scheme + "://" + rest, |scheme|;
    assert SeparatorAt(url, n);
    forall i | 0 <= i < n ensures !SeparatorAt(url, i) { assert url[i] == scheme[i] && scheme[i] != ':'; }
    assert url[..n] == scheme && url[n + 3..] == rest;
    SchemeNames();
    EqualMeansSpells(scheme, "https", "https");
    EqualMeansSpells(scheme, "http", "http");
  }

  /**
   URLs by their text: either scheme in any case, a host in brackets or without a colon, a port or
   none, a target or none, a fragment or none. Without a port it is 443 for https and 80 for http.
   */
  lemma UrlMeaning(scheme: string, isTls: bool, host: string, bracketed: bool, part: string, target: string,
                   fragment: string)
    requires Spells(scheme, if isTls then "https" else "http") && Showable(host, bracketed) && PortPart(part)
    requires (target == "" || TargetText(target)) && (fragment == "" || fragment[0] == '#')
    ensures ParseUrl(scheme + "://" + (Shown(host, bracketed) + part + target + fragment)) ==
            UrlOf(host, if part == "" then "" else part[1..], TargetOrRoot(target), isTls)
  {
    hide ParseUrl, ParseAuthority, Spells, UrlOf, Shown;
    SpelledScheme(scheme, isTls, Shown(host, bracketed) + part + target + fragment);
    AuthorityMeaning(host, bracketed, part, target, fragment, isTls);
  }

  /** No host to read: nothing, a user part, a bracket left open, empty or followed by no colon, or only a port. */
  ghost predicate NoHost(authority: string) {
    || authority == "" || '@' in authority
    || (authority[0] == '[' && (']' !in authority || exists k :: ClosedBadly(authority, k)))
    || (authority[0] == ':' && ':' !in authority[1..])
  }

  /** The first closing bracket stands at `k`, right behind the opening one or before something other than a colon. */
  ghost predicate ClosedBadly(authority: string, k: nat) {
    && 0 < k < |authority| && authority[k] == ']' && ']' !in authority[..k]
    && (k == 1 || (k + 1 < |authority| && authority[k + 1] != ':'))
  }

  lemma NoHostSplit(authority: string)
    requires NoHost(authority)
    ensures SplitAuthority(authority).Some? ==> SplitAuthority(authority).value.0 == ""
  {
    if authority != "" && '@' !in authority {
      if authority[0] == '[' {
        if ']' !in authority {
          FindAbsent(authority, ']');
        } else {
          var k :| ClosedBadly(authority, k);
          FindAt(authority, ']', k);
        }
      } else {
        AfterLastAt(authority, ':', 1);
      }
    }
  }

  /** Such URLs are refused. */
  lemma RefusedUrl(scheme: string, isTls: bool, authority: string, target: string, fragment: string)
    requires Spells(scheme, if isTls then "https" else "http") && NoHost(authority)
    requires forall c :: c in authority ==> c !in "/?#"
    requires (target == "" || TargetText(target)) && (fragment == "" || fragment[0] == '#')
    ensures ParseUrl(scheme + "://" + (authority + target + fragment)).host == ""
  {
    hide ParseUrl, Spells, SplitAuthority, FromChars, NoHost, Find, AuthorityEnd;
    SpelledScheme(scheme, isTls, authority + target + fragment);
    NoHostSplit(authority);
    TextEnds(authority, target, fragment);
    assert (authority + target)[..|authority|] == authority;
  }

  /** The port of every number from 1 to 65535 is read back. */
  lemma PortReads(host: string, port: nat, target: string, isTls: bool)
    requires 1 <= port <= 65535
    ensures UrlOf(host, ToChars(port, 10), target, isTls) == Url(host, target, port, isTls)
  {
    hide ToChars, FromChars;
    ToCharsFromChars(port, 10, 65535);
  }

  // --------------------------------------------------------------------- injectivity

  /** Requests share a pool bucket only if scheme, host and port agree -- for any host text. */
  lemma OriginKeyInjective(u: Url, v: Url)
    requires OriginKey(u) == OriginKey(v)
    ensures u.isTls == v.isTls && u.host == v.host && u.port == v.port
  {
    hide ToChars, OriginKey;
    SameScheme(u, v);
    var pu, pv := ToChars(u.port, 10), ToChars(v.port, 10);
    PastScheme(u);
    PastScheme(v);
    NoColon(u.port);
    NoColon(v.port);
    SameSplit(u.host, pu, v.host, pv);
    ToCharsRoundTrip(u.port, 10);
    ToCharsRoundTrip(v.port, 10);
  }

  lemma PastScheme(u: Url)
    ensures |Scheme(u.isTls)| + 3 <= |OriginKey(u)|
    ensures OriginKey(u)[|Scheme(u.isTls)| + 3..] == u.host + ":" + ToChars(u.port, 10)
  {
    hide ToChars;
    var rest := u.host + ":" + ToChars(u.port, 10);
    assert OriginKey(u) == Scheme(u.isTls) + "://" + rest;
  }

  /** The fifth byte tells the schemes apart. */
  lemma SameScheme(u: Url, v: Url)
    requires OriginKey(u) == OriginKey(v)
    ensures u.isTls == v.isTls
  {
    hide ToChars;
    assert OriginKey(u)[4] == if u.isTls then 's' else ':';
    assert OriginKey(v)[4] == if v.isTls then 's' else ':';
  }

  lemma SameSplit(h: string, p: string, h': string, p': string)
    requires ':' !in p && ':' !in p' && h + ":" + p == h' + ":" + p'
    ensures h == h' && p == p'
  {
    LastColon(h, p);
    LastColon(h', p');
    assert (h + ":" + p)[..|h|] == h && (h' + ":" + p')[..|h'|] == h';
    assert (h + ":" + p)[|h| + 1..] == p && (h' + ":" + p')[|h'| + 1..] == p';
  }

  lemma NoColon(port: nat)
    ensures ':' !in ToChars(port, 10)
  {
    hide ToChars;
    ToCharsRoundTrip(port, 10);
  }

  lemma LastColon(host: string, port: string)
    requires ':' !in port
    ensures AfterLast(host + ":" + port, ':') == |host| + 1
  {
    var s := host + ":" + port;
    assert s[|host|] == ':' && s[|host| + 1..] == port;
    AfterLastAt(s, ':', |host| + 1);
  }
}
