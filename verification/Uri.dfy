/**
 WebSocket URIs: the parsing constructor and its printer.
 */
module Uri {
  import opened Text

  const DEFAULT_PORT: nat := 80
  const DEFAULT_SECURE_PORT: nat := 443

  /** The fields of a uri object whose constructor ran to the end. */
  datatype Uri = Uri(scheme: string, host: string, port: nat, resource: string, secure: bool)

  function DefaultPort(secure: bool): nat { if secure then DEFAULT_SECURE_PORT else DEFAULT_PORT }

  /** The port as printed: nothing at all for the scheme's own port. */
  function PortText(u: Uri): string {
    if u.port == DefaultPort(u.secure) then "" else ":" + Decimal(u.port)
  }

  /** uri::str() */
  function Str(u: Uri): string {
    u.scheme + "://" + u.host + PortText(u) + u.resource
  }

  // ---------------------------------------------------------------------------
  // Parsing
  // ---------------------------------------------------------------------------

  /** The four prefixes; each needs at least one more character after it. */
  function SchemeOf(s: string): (r: Option<(string, bool)>)
    ensures r.Some? ==> |r.value.0| + 3 < |s| && s[..|r.value.0| + 3] == r.value.0 + "://"
    ensures r.Some? ==> IsScheme(r.value.0, r.value.1)
  {
    if |s| >= 7 && s[..6] == "wss://" then Some(("wss", true))
    else if |s| >= 6 && s[..5] == "ws://" then Some(("ws", false))
    else if |s| >= 8 && s[..7] == "http://" then Some(("http", false))
    else if |s| >= 9 && s[..8] == "https://" then Some(("https", true))
    else None
  }

  predicate IsScheme(scheme: string, secure: bool) {
    || ((scheme == "ws" || scheme == "http") && !secure)
    || ((scheme == "wss" || scheme == "https") && secure)
  }

  /** get_port_from_string; a number that does not fit an int is taken as invalid too. */
  function PortFromString(port: string, secure: bool): (r: Option<nat>)
    ensures r.Some? ==> 1 <= r.value <= 65535
  {
    if port == "" then Some(DefaultPort(secure))
    else
      match ReadNumber(port)
      case None => None
      case Some(n) => if 1 <= n <= 65535 then Some(n) else None
  }

  function Until(s: string, chars: set<char>): (n: nat)
    ensures n <= |s| && (forall i :: 0 <= i < n ==> s[i] !in chars) && (n < |s| ==> s[n] in chars)
  {
    match FindFirstOf(s, chars, 0) case Some(i) => i case None => |s|
  }

  /** What the code's `state` says once the host is read. */
  datatype Host = Host(host: string, portFollows: bool, consumed: nat)

  /** The host at the start of what follows the scheme, and how far it and its delimiter reach. */
  function HostPart(rest: string): (r: Option<Host>)
    requires rest != []
    ensures r.Some? ==> r.value.consumed <= |rest|
  {
    if rest[0] == '[' then
      var e := 1 + Until(rest[1..], {']'});
      if e == |rest| then None
      else if e + 1 == |rest| then Some(Host(rest[1..e], false, |rest|))
      else if rest[e + 1] == '/' then Some(Host(rest[1..e], false, e + 2))
      else if rest[e + 1] == ':' then Some(Host(rest[1..e], true, e + 2))
      else None
    else
      var e := Until(rest, {'/', ':'});
      if e == |rest| then Some(Host(rest, false, e))
      else Some(Host(rest[..e], rest[e] == ':', e + 1))
  }

  /** The port text, and how far it and its delimiter reach. */
  function PortPart(rest: string): (r: (string, nat))
    ensures r.1 <= |rest|
  {
    var e := Until(rest, {'/'});
    (rest[..e], if e == |rest| then e else e + 1)
  }

  function ParseUri(s: string): (r: Option<Uri>)
  {
    match SchemeOf(s)
    case None => None
    case Some((scheme, secure)) => ParseAuthority(scheme, secure, s[|scheme| + 3..])
  }

  function ParseAuthority(scheme: string, secure: bool, rest: string): (r: Option<Uri>)
    requires rest != []
  {
    match HostPart(rest)
    case None => None
    case Some(h) =>
      var after := rest[h.consumed..];
      var (portText, n) := if h.portFollows then PortPart(after) else ("", 0);
      match PortFromString(portText, secure)
      case None => None
      case Some(port) => Some(Uri(scheme, h.host, port, "/" + after[n..], secure))
  }

  // ---------------------------------------------------------------------------
  // The parsing constructor: one cursor `it`, and a state for what it is in
  // ---------------------------------------------------------------------------

  method ReadBracketedHost(s: string, start: nat) returns (r: Option<Host>)
    requires start < |s| && s[start] == '['
    ensures r == HostPart(s[start..])
  {
    var it := start + 1;
    var temp := it;
    ghost var rest := s[start..];
    ghost var e := 1 + Until(rest[1..], {']'});
    while temp != |s|
      invariant it <= temp <= start + e
    {
      assert s[temp] == rest[1..][temp - it];
      if s[temp] == ']' {
        break;
      }
      temp := temp + 1;
    }
    if temp == |s| {
      return None;
    }
    var host := s[it..temp];
    assert host == rest[1..e];
    it := temp + 1;
    if it == |s| {
      return Some(Host(host, false, it - start));
    } else if s[it] == '/' {
      return Some(Host(host, false, it + 1 - start));
    } else if s[it] == ':' {
      return Some(Host(host, true, it + 1 - start));
    } else {
      return None;
    }
  }

  method ReadPlainHost(s: string, start: nat) returns (r: Host)
    requires start < |s| && s[start] != '['
    ensures Some(r) == HostPart(s[start..])
  {
    var it := start;
    var state := 0;
    var host: string := "";
    ghost var rest := s[start..];
    ghost var e := Until(rest, {'/', ':'});
    while state == 0
      invariant 0 <= state <= 2
      invariant state == 0 ==> start <= it <= start + e && host == rest[..it - start]
      invariant state != 0 ==> host == rest[..e] && it == if e == |rest| then |s| else start + e + 1
      invariant state != 0 ==> (state == 1 <==> e < |rest| && rest[e] == ':')
      decreases state == 0, |s| - it
    {
      if it == |s| {
        state := 2;
        break;
      }
      assert s[it] == rest[it - start];
      if s[it] == '/' {
        state := 2;
      } else if s[it] == ':' {
        state := 1;
      } else {
        host := host + [s[it]];
      }
      it := it + 1;
    }
    assert rest[..|rest|] == rest;
    r := Host(host, state == 1, it - start);
  }

  method ReadPort(s: string, start: nat) returns (port: string, it: nat)
    requires start <= |s|
    ensures start <= it <= |s| && (port, it - start) == PortPart(s[start..])
  {
    it := start;
    port := "";
    var state := 1;
    ghost var rest := s[start..];
    ghost var e := Until(rest, {'/'});
    while state == 1
      invariant state == 1 || state == 3
      invariant state == 1 ==> start <= it <= start + e && port == rest[..it - start]
      invariant state == 3 ==> e < |rest| && port == rest[..e] && it == start + e + 1
      decreases state == 1, |s| - it
    {
      if it == |s| {
        break;
      }
      assert s[it] == rest[it - start];
      if s[it] == '/' {
        state := 3;
      } else {
        port := port + [s[it]];
      }
      it := it + 1;
    }
  }

  /** Host, port and resource, once the scheme is known and `it` is behind it. */
  method ParseAfterScheme(s: string, scheme: string, secure: bool, start: nat) returns (r: Option<Uri>)
    requires start < |s|
    ensures r == ParseAuthority(scheme, secure, s[start..])
  {
    hide HostPart, PortPart, PortFromString;
    ghost var rest := s[start..];
    var host;
    if s[start] == '[' {
      var bracketed := ReadBracketedHost(s, start);
      if bracketed.None? {
        return None;
      }
      host := bracketed.value;
    } else {
      host := ReadPlainHost(s, start);
    }
    var it := start + host.consumed;
    ghost var after := rest[host.consumed..];
    assert s[it..] == after;
    var port: string := "";
    if host.portFollows {
      ghost var from := it;
      port, it := ReadPort(s, it);
      assert s[it..] == after[it - from..];
    } else {
      assert after[0..] == after;
    }
    match PortFromString(port, secure)
    case None => return None;
    case Some(n) => r := Some(Uri(scheme, host.host, n, "/" + s[it..], secure));
  }

  method Parse(s: string) returns (r: Option<Uri>)
    ensures r == ParseUri(s)
  {
    hide ParseAuthority;
    if |s| >= 7 && s[..6] == "wss://" {
      r := ParseAfterScheme(s, "wss", true, 6);
    } else if |s| >= 6 && s[..5] == "ws://" {
      r := ParseAfterScheme(s, "ws", false, 5);
    } else if |s| >= 8 && s[..7] == "http://" {
      r := ParseAfterScheme(s, "http", false, 7);
    } else if |s| >= 9 && s[..8] == "https://" {
      r := ParseAfterScheme(s, "https", true, 8);
    } else {
      r := None;
    }
  }

  // ---------------------------------------------------------------------------
  // Which URIs survive printing and parsing
  // ---------------------------------------------------------------------------

  predicate HostOk(host: string) {
    '/' !in host && ':' !in host && (host != "" ==> host[0] != '[')
  }

  /** What a caller can check of the five fields. */
  predicate Printable(u: Uri) {
    && IsScheme(u.scheme, u.secure)
    && 1 <= u.port <= 65535
    && HostOk(u.host)
    && u.resource != "" && u.resource[0] == '/'
  }

  lemma UntilIs(s: string, chars: set<char>, n: nat)
    requires n <= |s| && (forall i :: 0 <= i < n ==> s[i] !in chars) && (n < |s| ==> s[n] in chars)
    ensures Until(s, chars) == n
  {
    FindsAt(s, chars, 0, n);
  }

  lemma Differs(s: string, other: string, i: nat)
    requires i < |other| && i < |s| && s[i] != other[i]
    ensures |s| >= |other| ==> s[..|other|] != other
  {
    assert |s| >= |other| ==> s[..|other|][i] == s[i];
  }

  lemma SchemeOfPrinted(scheme: string, secure: bool, rest: string)
    requires IsScheme(scheme, secure) && rest != []
    ensures SchemeOf(scheme + "://" + rest) == Some((scheme, secure))
    ensures (scheme + "://" + rest)[|scheme| + 3..] == rest
  {
    var s, prefix := scheme + "://" + rest, scheme + "://";
    assert s == prefix + rest && s[..|prefix|] == prefix && s[|prefix|..] == rest;
    if scheme == "ws" {
      assert s[2] == prefix[2];
      Differs(s, "wss://", 2);
    } else if scheme == "http" {
      assert s[0] == prefix[0] && s[4] == prefix[4];
      Differs(s, "wss://", 0);
      Differs(s, "ws://", 0);
    } else if scheme == "https" {
      assert s[0] == prefix[0] && s[4] == prefix[4];
      Differs(s, "wss://", 0);
      Differs(s, "ws://", 0);
      Differs(s, "http://", 4);
    }
  }

  lemma PortReads(port: nat, secure: bool)
    requires 1 <= port <= 65535
    ensures PortFromString("", secure) == Some(DefaultPort(secure))
    ensures PortFromString(Decimal(port), secure) == Some(port)
  {
    DecimalReads(port);
    hide Decimal, ReadNumber;
  }

  lemma DigitsAreNotDelimiters(s: string)
    requires AllDigits(s)
    ensures '/' !in s && ':' !in s
  {
  }

  lemma PlainHostReads(host: string, tail: string)
    requires HostOk(host) && tail != [] && (tail[0] == '/' || tail[0] == ':')
    ensures HostPart(host + tail) == Some(Host(host, tail[0] == ':', |host| + 1))
    ensures (host + tail)[|host| + 1..] == tail[1..]
  {
    var rest := host + tail;
    assert rest[..|host|] == host;
    UntilIs(rest, {'/', ':'}, |host|);
  }

  lemma PortPartReads(digits: string, resource: string)
    requires AllDigits(digits) && resource != [] && resource[0] == '/'
    ensures PortPart(digits + resource) == (digits, |digits| + 1)
    ensures (digits + resource)[|digits| + 1..] == resource[1..]
  {
    DigitsAreNotDelimiters(digits);
    UntilIs(digits + resource, {'/'}, |digits|);
    assert (digits + resource)[..|digits|] == digits;
  }

  /** What follows the scheme is cut where the printer put the parts together. */
  lemma AuthorityReads(u: Uri)
    requires Printable(u)
    ensures ParseAuthority(u.scheme, u.secure, u.host + (PortText(u) + u.resource)) == Some(u)
  {
    hide Decimal, HostPart, PortPart, PortFromString, ParseAuthority, HostOk, IsScheme;
    PortReads(u.port, u.secure);
    assert u.resource == "/" + u.resource[1..];
    if PortText(u) == "" {
      assert PortText(u) + u.resource == u.resource;
      PlainHostReads(u.host, u.resource);
      WithoutPort(u);
    } else {
      var tail := PortText(u) + u.resource;
      assert tail[1..] == Decimal(u.port) + u.resource;
      PlainHostReads(u.host, tail);
      PortPartReads(Decimal(u.port), u.resource);
      WithPort(u, tail);
    }
  }

  lemma WithoutPort(u: Uri)
    requires u.resource != "" && u.resource == "/" + u.resource[1..]
    requires HostPart(u.host + u.resource) == Some(Host(u.host, false, |u.host| + 1))
    requires (u.host + u.resource)[|u.host| + 1..] == u.resource[1..]
    requires PortFromString("", u.secure) == Some(u.port)
    ensures ParseAuthority(u.scheme, u.secure, u.host + u.resource) == Some(u)
  {
    hide HostPart, PortPart, PortFromString;
    assert u.resource[1..][0..] == u.resource[1..];
  }

  lemma WithPort(u: Uri, tail: string)
    requires tail != [] && u.resource != "" && u.resource == "/" + u.resource[1..]
    requires HostPart(u.host + tail) == Some(Host(u.host, true, |u.host| + 1))
    requires (u.host + tail)[|u.host| + 1..] == tail[1..]
    requires PortPart(tail[1..]).0 == Decimal(u.port) && tail[1..][PortPart(tail[1..]).1..] == u.resource[1..]
    requires PortFromString(Decimal(u.port), u.secure) == Some(u.port)
    ensures ParseAuthority(u.scheme, u.secure, u.host + tail) == Some(u)
  {
    hide HostPart, PortPart, PortFromString, Decimal;
  }

  /** A bracket is never part of the host that is read, so a host cannot start with one. */
  lemma {:induction false} AllBrackets(s: string, n: nat)
    requires 0 < n < |s| && s[0] == '[' && s[1..n + 1] == s[..n]
    ensures s[n] == '['
  {
    forall i | 0 <= i <= n ensures s[i] == '[' {
      BracketAt(s, n, i);
    }
  }

  lemma {:induction false} BracketAt(s: string, n: nat, i: nat)
    requires 0 < n < |s| && s[0] == '[' && s[1..n + 1] == s[..n] && i <= n
    ensures s[i] == '['
  {
    if 0 < i {
      BracketAt(s, n, i - 1);
      assert s[i] == s[1..n + 1][i - 1] && s[i - 1] == s[..n][i - 1];
    }
  }

  lemma PlainHostHasNoDelimiter(rest: string)
    requires rest != [] && rest[0] != '[' && HostPart(rest).Some?
    ensures HostOk(HostPart(rest).value.host)
  {
    var e := Until(rest, {'/', ':'});
    assert rest[..e] == HostPart(rest).value.host by { assert rest[..|rest|] == rest; }
    forall c | c in rest[..e] ensures c != '/' && c != ':' {
      var i :| 0 <= i < e && rest[i] == c;
    }
  }

  lemma BracketedHostIsInside(rest: string)
    requires rest != [] && rest[0] == '[' && HostPart(rest).Some?
    ensures var h := HostPart(rest).value.host; |h| + 1 < |rest| && h == rest[1..|h| + 1]
  {
  }

  /** A host that reads back from before a "/" or ":" has no delimiter and no leading bracket. */
  lemma HostReadsBackOnlyIfOk(host: string, tail: string)
    requires tail != [] && tail[0] != '['
    requires HostPart(host + tail).Some? && HostPart(host + tail).value.host == host
    ensures HostOk(host)
  {
    hide HostPart, HostOk;
    var rest := host + tail;
    if rest[0] == '[' {
      BracketedHostIsInside(rest);
      var n := |host|;
      assert rest[..n] == host && rest[n] == tail[0];
      if 0 < n {
        AllBrackets(rest, n);
      }
    } else {
      PlainHostHasNoDelimiter(rest);
    }
  }

  /** What every successful parse guarantees. */
  lemma ParsedParts(s: string, u: Uri)
    requires ParseUri(s) == Some(u)
    ensures IsScheme(u.scheme, u.secure) && |u.scheme| + 3 < |s|
    ensures 1 <= u.port <= 65535
    ensures u.resource != "" && u.resource[0] == '/'
    ensures HostPart(s[|u.scheme| + 3..]).Some? && HostPart(s[|u.scheme| + 3..]).value.host == u.host
  {
    hide HostPart, PortPart, PortFromString, IsScheme;
  }

  /** Whatever parses back to itself has all the properties a caller can check beforehand. */
  lemma OnlyPrintable(u: Uri)
    requires ParseUri(Str(u)) == Some(u)
    ensures Printable(u)
  {
    hide ParseUri, Decimal, HostPart, HostOk, PortPart, IsScheme;
    ParsedParts(Str(u), u);
    var tail := PortText(u) + u.resource;
    FourParts(u.scheme + "://", u.host, PortText(u), u.resource);
    assert tail[0] == if PortText(u) == "" then u.resource[0] else ':';
    hide PortText;
    var prefix := u.scheme + "://";
    assert (prefix + (u.host + tail))[|prefix|..] == u.host + tail;
    HostReadsBackOnlyIfOk(u.host, tail);
  }

  /** Printing and parsing gives the same URI back exactly for the printable ones. */
  lemma RoundTripIffPrintable(u: Uri)
    ensures ParseUri(Str(u)) == Some(u) <==> Printable(u)
  {
    hide ParseUri, Str, Printable;
    if Printable(u) {
      PrintableReads(u);
    }
    if ParseUri(Str(u)) == Some(u) {
      OnlyPrintable(u);
    }
  }

  lemma FourParts(a: string, b: string, c: string, d: string)
    ensures a + b + c + d == a + (b + (c + d))
  {
  }

  lemma PrintableReads(u: Uri)
    requires Printable(u)
    ensures ParseUri(Str(u)) == Some(u)
  {
    hide SchemeOf, ParseAuthority, PortText, HostOk, IsScheme;
    var rest := u.host + (PortText(u) + u.resource);
    FourParts(u.scheme + "://", u.host, PortText(u), u.resource);
    SchemeOfPrinted(u.scheme, u.secure, rest);
    AuthorityReads(u);
  }

  // ---------------------------------------------------------------------------
  // What a text is parsed to, and what is printed, letter by letter
  // ---------------------------------------------------------------------------

  /** The port is left out exactly when it is 443 with a secure scheme and 80 with the other. */
  lemma Printed(u: Uri)
    ensures Str(u) == u.scheme + "://" + u.host
      + (if u.port == (if u.secure then 443 else 80) then "" else ":" + Decimal(u.port)) + u.resource
  {
    hide Decimal;
  }

  /** The host as it stands in a URI, between brackets or bare. */
  predicate HostText(text: string, host: string) {
    || (text == "[" + host + "]" && ']' !in host)
    || (text == host && '/' !in host && ':' !in host && (host != "" ==> host[0] != '['))
  }

  lemma HostReads(text: string, host: string, tail: string)
    requires HostText(text, host) && text + tail != "" && (tail == "" || tail[0] == '/' || tail[0] == ':')
    ensures HostPart(text + tail) ==
      Some(Host(host, tail != "" && tail[0] == ':', |text| + if tail == "" then 0 else 1))
  {
    var rest := text + tail;
    if text == "[" + host + "]" && ']' !in host {
      BracketedReads(text, host, tail);
    } else {
      assert rest[..|host|] == host;
      assert tail == "" ==> rest == host;
      UntilIs(rest, {'/', ':'}, |host|);
    }
  }

  lemma BracketedReads(text: string, host: string, tail: string)
    requires text == "[" + host + "]" && ']' !in host && (tail == "" || tail[0] == '/' || tail[0] == ':')
    ensures HostPart(text + tail) ==
      Some(Host(host, tail != "" && tail[0] == ':', |text| + if tail == "" then 0 else 1))
  {
    var rest := text + tail;
    assert rest[0] == '[' && rest[1..] == host + ("]" + tail);
    UntilIs(rest[1..], {']'}, |host|);
    assert rest[1..1 + |host|] == host;
    assert tail != "" ==> rest[|host| + 2] == tail[0];
  }

  /** A bracket that is not closed, or is followed by neither port nor path, is no URI. */
  lemma BadBracket(scheme: string, rest: string)
    requires scheme in {"ws", "wss", "http", "https"}
    requires rest != "" && rest[0] == '['
    requires forall i :: 0 <= i < |rest| && rest[i] == ']' && ']' !in rest[..i] ==>
      i + 1 < |rest| && rest[i + 1] != '/' && rest[i + 1] != ':'
    ensures ParseUri(scheme + "://" + rest) == None
  {
    var secure := scheme == "wss" || scheme == "https";
    SchemeOfPrinted(scheme, secure, rest);
    var e := 1 + Until(rest[1..], {']'});
    if e < |rest| {
      assert rest[..e] == ['['] + rest[1..][..e - 1];
      assert ']' !in rest[1..][..e - 1];
      assert rest[e] == ']' && ']' !in rest[..e];
    }
    hide SchemeOf, Until;
    assert HostPart(rest) == None;
  }

  lemma PortReadsTo(port: string, path: string)
    requires '/' !in port && (path == "" || path[0] == '/')
    ensures PortPart(port + path) == (port, |port| + if path == "" then 0 else 1)
  {
    var rest := port + path;
    assert rest[..|port|] == port;
    UntilIs(rest, {'/'}, |port|);
  }

  /** The port number that a port's text stands for: none at all for the scheme's own. */
  lemma PortIs(port: string, secure: bool)
    ensures PortFromString(port, secure) ==
      if port == "" then Some(if secure then 443 else 80)
      else if ReadNumber(port).Some? && 1 <= ReadNumber(port).value <= 65535 then Some(ReadNumber(port).value)
      else None
  {
    hide ReadNumber;
  }

  lemma AuthorityIs(scheme: string, secure: bool, rest: string, h: Host, port: string, n: nat, after: string)
    requires rest != "" && HostPart(rest) == Some(h) && after == rest[h.consumed..] && n <= |after|
    requires (port, n) == if h.portFollows then PortPart(after) else ("", 0)
    ensures ParseAuthority(scheme, secure, rest) ==
      match PortFromString(port, secure)
      case None => None
      case Some(number) => Some(Uri(scheme, h.host, number, "/" + after[n..], secure))
  {
    hide HostPart, PortPart, PortFromString;
  }

  lemma BehindHost(text: string, first: char, rest: string)
    ensures (text + ([first] + rest))[|text| + 1..] == rest
  {
  }

  lemma BehindPort(port: string, path: string)
    requires path == "" || path[0] == '/'
    ensures "/" + (port + path)[|port| + if path == "" then 0 else 1..] == if path == "" then "/" else path
  {
    assert path != "" ==> "/" + path[1..] == path;
    assert (port + path)[|port|..] == path;
    assert path != "" ==> (port + path)[|port| + 1..] == path[1..];
  }

  /** Scheme, host, port and path are each what stands in their place; a bad port makes it no URI. */
  lemma ParsedWithPort(scheme: string, text: string, host: string, port: string, path: string)
    requires scheme in {"ws", "wss", "http", "https"} && HostText(text, host)
    requires '/' !in port && (path == "" || path[0] == '/')
    ensures var secure := scheme in {"wss", "https"};
      ParseUri(scheme + "://" + (text + ([':'] + (port + path)))) ==
        match PortFromString(port, secure)
        case None => None
        case Some(number) => Some(Uri(scheme, host, number, if path == "" then "/" else path, secure))
  {
    var secure := scheme in {"wss", "https"};
    var after := port + path;
    var rest := text + ([':'] + after);
    SchemeOfPrinted(scheme, secure, rest);
    HostReads(text, host, [':'] + after);
    PortReadsTo(port, path);
    BehindHost(text, ':', after);
    BehindPort(port, path);
    hide SchemeOf, HostPart, PortPart, PortFromString, HostText, ParseAuthority;
    AuthorityIs(scheme, secure, rest, HostPart(rest).value, port, PortPart(after).1, after);
  }

  /** Without one, the port is the scheme's own. */
  lemma ParsedWithoutPort(scheme: string, text: string, host: string, path: string)
    requires scheme in {"ws", "wss", "http", "https"} && HostText(text, host)
    requires (path == "" || path[0] == '/') && text + path != ""
    ensures var secure := scheme in {"wss", "https"};
      ParseUri(scheme + "://" + (text + path)) ==
        Some(Uri(scheme, host, if secure then 443 else 80, if path == "" then "/" else path, secure))
  {
    var secure := scheme in {"wss", "https"};
    var rest := text + path;
    SchemeOfPrinted(scheme, secure, rest);
    HostReads(text, host, path);
    PortIs("", secure);
    BehindPort(text, path);
    hide SchemeOf, HostPart, PortPart, PortFromString, HostText, ParseAuthority;
    var after := rest[HostPart(rest).value.consumed..];
    assert after[0..] == after;
    AuthorityIs(scheme, secure, rest, HostPart(rest).value, "", 0, after);
  }

  /** Nothing else begins a URI. */
  lemma NoScheme(s: string)
    requires forall scheme :: scheme in {"ws", "wss", "http", "https"} ==>
      |s| <= |scheme| + 3 || s[..|scheme| + 3] != scheme + "://"
    ensures ParseUri(s) == None
  {
    assert SchemeOf(s).Some? ==> SchemeOf(s).value.0 in {"ws", "wss", "http", "https"};
    hide SchemeOf;
  }
}
