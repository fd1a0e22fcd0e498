/**
 * Reading `OLLAMA_HOST` and printing it back (src/engines/ollama.rs:276-395).
 *
 * Text is a sequence of characters.  Parsing an IP literal and writing it in
 * its canonical form is one function parameter, `canonical`; of its answers
 * only that they hold no slash and no bracket is ever used.
 */
module OllamaHost {
  import opened Basics

  const DEFAULT_PORT: Port := 11434

  type Port = n: nat | n < 0x1_0000

  datatype Address = Address(scheme: string, host: string, port: Port, path: string)

  type Canonical = string -> Option<string>

  // ----- text ---------------------------------------------------------------

  /** The characters of Unicode's White_Space property. */
  predicate IsWhitespace(c: char) {
    var n := c as int;
    || 0x09 <= n <= 0x0D
    || n == 0x20
    || n == 0x85
    || n == 0xA0
    || n == 0x1680
    || 0x2000 <= n <= 0x200A
    || n == 0x2028
    || n == 0x2029
    || n == 0x202F
    || n == 0x205F
    || n == 0x3000
  }

  predicate IsQuote(c: char) {
    c == '"' || c == '\''
  }

  predicate IsBracket(c: char) {
    c == '[' || c == ']'
  }

  predicate HasBracket(s: string) {
    '[' in s || ']' in s
  }

  function TrimStart(s: string, p: char -> bool): string {
    if s == "" || !p(s[0]) then s else TrimStart(s[1..], p)
  }

  function TrimEnd(s: string, p: char -> bool): string {
    if s == "" || !p(s[|s| - 1]) then s else TrimEnd(s[..|s| - 1], p)
  }

  function Trim(s: string, p: char -> bool): string {
    TrimEnd(TrimStart(s, p), p)
  }

  function Clean(s: string): string {
    Trim(Trim(Trim(s, IsWhitespace), IsQuote), IsWhitespace)
  }

  predicate IsTrimmed(c: char) {
    IsWhitespace(c) || IsQuote(c)
  }

  function IndexOf(s: string, c: char): (r: Option<nat>)
    ensures r.None? <==> c !in s
    ensures r.Some? ==> r.value < |s| && s[r.value] == c && forall j :: 0 <= j < r.value ==> s[j] != c
  {
    if s == "" then None
    else if s[0] == c then Some(0)
    else
      match IndexOf(s[1..], c)
      case None => None
      case Some(i) => Some(i + 1)
  }

  function LastIndexOf(s: string, c: char): (r: Option<nat>)
    ensures r.None? <==> c !in s
    ensures r.Some? ==> r.value < |s| && s[r.value] == c && forall j :: r.value < j < |s| ==> s[j] != c
  {
    if s == "" then None
    else if s[|s| - 1] == c then Some(|s| - 1)
    else
      assert s == s[..|s| - 1] + [s[|s| - 1]];
      LastIndexOf(s[..|s| - 1], c)
  }

  const SEPARATOR := "://"

  predicate SeparatorAt(s: string, i: nat) {
    i + 3 <= |s| && s[i] == ':' && s[i + 1] == '/' && s[i + 2] == '/'
  }

  ghost predicate HasSeparator(s: string) {
    exists i: nat :: SeparatorAt(s, i)
  }

  /** `split_once("://")`. */
  function SplitScheme(s: string): (r: Option<(string, string)>)
    ensures r.None? <==> !HasSeparator(s)
    ensures r.Some? ==> s == r.value.0 + SEPARATOR + r.value.1
    ensures r.Some? ==> forall i: nat :: i < |r.value.0| ==> !SeparatorAt(s, i)
  {
    if s == "" then None
    else if SeparatorAt(s, 0) then
      assert s == "" + SEPARATOR + s[3..];
      assert HasSeparator(s);
      Some(("", s[3..]))
    else
      assert forall i: nat :: 0 < i ==> SeparatorAt(s, i) == SeparatorAt(s[1..], i - 1);
      match SplitScheme(s[1..])
      case None => None
      case Some(parts) =>
        assert SeparatorAt(s, |parts.0| + 1);
        Some(([s[0]] + parts.0, parts.1))
  }

  /** `split_once('/')`, with the whole text and no path where there is none. */
  function SplitPath(s: string): (string, string) {
    match IndexOf(s, '/')
    case None => (s, "")
    case Some(i) => (s[..i], s[i + 1..])
  }

  // ----- numbers ------------------------------------------------------------

  function Decimal(n: nat): (s: string)
    ensures s != "" && forall c :: c in s ==> IsDigit(c)
  {
    var last := '0' + (n % 10) as char;
    if n < 10 then [last] else Decimal(n / 10) + [last]
  }

  function Value(digits: string): nat
    requires forall c :: c in digits ==> IsDigit(c)
  {
    if digits == "" then 0
    else
      var last := digits[|digits| - 1];
      assert IsDigit(last);
      Value(digits[..|digits| - 1]) * 10 + (last as int - '0' as int)
  }

  /** `str::parse::<i32>`: an optional sign and at least one ASCII digit. */
  function ParseI32(s: string): Option<int> {
    var signed := s != "" && (s[0] == '-' || s[0] == '+');
    var digits := if signed then s[1..] else s;
    if digits == "" || exists c :: c in digits && !IsDigit(c) then None
    else
      var n: int := if signed && s[0] == '-' then 0 - Value(digits) else Value(digits);
      if -0x8000_0000 <= n < 0x8000_0000 then Some(n) else None
  }

  function PortOr(s: string, fallback: Port): Port {
    match ParseI32(s)
    case Some(n) => if 0 <= n < 0x1_0000 then n else fallback
    case None => fallback
  }

  // ----- addresses ----------------------------------------------------------

  function JoinHostPort(host: string, port: Port): string {
    if ':' in host then "[" + host + "]:" + Decimal(port) else host + ":" + Decimal(port)
  }

  function SplitHostPort(hostport: string): Option<(string, string)> {
    match LastIndexOf(hostport, ':')
    case None => None
    case Some(colon) =>
      if hostport[0] == '[' then
        match IndexOf(hostport, ']')
        case None => None
        case Some(end) =>
          if end + 1 != colon || '[' in hostport[1..] || ']' in hostport[end + 1..] then None
          else Some((hostport[1..end], hostport[colon + 1..]))
      else if ':' in hostport[..colon] || HasBracket(hostport) then None
      else Some((hostport[..colon], hostport[colon + 1..]))
  }

  function HostAndPort(hostport: string, canonical: Canonical): (string, string) {
    match SplitHostPort(hostport)
    case Some(parts) => parts
    case None =>
      var host := match canonical(Trim(hostport, IsBracket))
        case Some(ip) => ip
        case None => if hostport != "" then hostport else "127.0.0.1";
      (host, "")
  }

  function FromEnv(value: Option<string>, canonical: Canonical): Address {
    var s := Clean(if value.Some? then value.value else "");
    var (scheme, rest, fallback) :=
      match SplitScheme(s)
      case None => if s == "ollama.com" then ("https", "ollama.com:443", DEFAULT_PORT) else ("http", s, DEFAULT_PORT)
      case Some(parts) =>
        (parts.0, parts.1, if parts.0 == "http" then 80 else if parts.0 == "https" then 443 else DEFAULT_PORT);
    var (hostport, path) := SplitPath(rest);
    var (host, port) := HostAndPort(hostport, canonical);
    Address(scheme, host, PortOr(port, fallback), path)
  }

  function Url(a: Address): string {
    a.scheme + SEPARATOR + JoinHostPort(a.host, a.port) + if a.path == "" then "" else "/" + a.path
  }

  /** The host the dashboard probes: 127.0.0.1 for a server on every interface. */
  function ReachedHost(host: string, unspecified: string -> bool): string {
    if host == "" || unspecified(host) then "127.0.0.1" else host
  }

  function Endpoint(a: Address, unspecified: string -> bool): string {
    "http://" + JoinHostPort(ReachedHost(a.host, unspecified), a.port)
  }

  ghost predicate PlainForms(canonical: Canonical) {
    forall s :: canonical(s).Some? ==> !HasBracket(canonical(s).value) && '/' !in canonical(s).value
  }

  // ----- decimal numbers ----------------------------------------------------

  lemma {:induction false} ValueOfDecimal(n: nat)
    ensures Value(Decimal(n)) == n
  {
    if n >= 10 {
      ValueOfDecimal(n / 10);
      var s := Decimal(n / 10) + ['0' + (n % 10) as char];
      assert s[..|s| - 1] == Decimal(n / 10);
    }
  }

  lemma PortReadsBack(port: Port, fallback: Port)
    ensures PortOr(Decimal(port), fallback) == port
  {
    var s := Decimal(port);
    assert s[0] in s;
    ValueOfDecimal(port);
  }

  lemma {:induction false} DecimalIsInjective(m: nat, n: nat)
    requires Decimal(m) == Decimal(n)
    ensures m == n
  {
    ValueOfDecimal(m);
    ValueOfDecimal(n);
  }

  // ----- host and port ------------------------------------------------------

  ghost predicate IsAddress(s: string, host: string, port: string) {
    && ':' !in port && !HasBracket(port) && !HasBracket(host)
    && ((':' !in host && s == host + ":" + port) || s == "[" + host + "]:" + port)
  }

  lemma {:induction false} LastIndexIs(a: string, c: char, b: string)
    requires c !in b
    ensures LastIndexOf(a + [c] + b, c) == Some(|a|)
  {
    var s := a + [c] + b;
    if b != "" {
      assert s[|s| - 1] == b[|b| - 1];
      assert s[..|s| - 1] == a + [c] + b[..|b| - 1];
      LastIndexIs(a, c, b[..|b| - 1]);
    }
  }

  lemma IndexIs(a: string, c: char, b: string)
    requires c !in a
    ensures IndexOf(a + [c] + b, c) == Some(|a|)
  {
    hide *;
    var s := a + [c] + b;
    assert s[|a|] == c;
    assert forall j :: 0 <= j < |a| ==> s[j] == a[j];
  }

  /** The accepted forms, and only those: `host:port` with a colonless host, or `[host]:port`. */
  lemma SplitHostPortExactly(s: string, host: string, port: string)
    ensures SplitHostPort(s) == Some((host, port)) <==> IsAddress(s, host, port)
  {
    if SplitHostPort(s) == Some((host, port)) {
      SplitIsAddress(s, host, port);
    }
    if IsAddress(s, host, port) {
      AddressSplits(s, host, port);
    }
  }

  lemma SplitIsAddress(s: string, host: string, port: string)
    requires SplitHostPort(s) == Some((host, port))
    ensures IsAddress(s, host, port)
  {
    hide LastIndexOf, IndexOf;
    if s[0] == '[' {
      SplitIsBracketed(s, IndexOf(s, ']').value);
    } else {
      var colon := LastIndexOf(s, ':').value;
      assert s == s[..colon] + ":" + s[colon + 1..];
      assert ':' !in port && !HasBracket(port);
    }
  }

  lemma SplitIsBracketed(s: string, end: nat)
    requires 0 < end && end + 1 < |s| && s[0] == '[' && s[end] == ']' && s[end + 1] == ':'
    requires ']' !in s[1..end] && '[' !in s[1..] && ']' !in s[end + 1..] && ':' !in s[end + 2..]
    ensures IsAddress(s, s[1..end], s[end + 2..])
  {
    var host, port := s[1..end], s[end + 2..];
    assert s == "[" + host + "]:" + port;
    assert forall c :: c in host || c in port ==> c in s[1..];
    assert forall c :: c in port ==> c in s[end + 1..];
  }

  lemma AddressSplits(s: string, host: string, port: string)
    requires IsAddress(s, host, port)
    ensures SplitHostPort(s) == Some((host, port))
  {
    if s == "[" + host + "]:" + port {
      BracketedSplits(s, host, port);
    } else {
      assert s == host + [':'] + port;
      LastIndexIs(host, ':', port);
      assert s[..|host|] == host && s[|host| + 1..] == port;
    }
  }

  lemma BracketedSplits(s: string, host: string, port: string)
    requires s == "[" + host + "]:" + port
    requires ':' !in port && !HasBracket(port) && !HasBracket(host)
    ensures SplitHostPort(s) == Some((host, port))
  {
    hide LastIndexOf, IndexOf;
    var head := "[" + host;
    assert s == (head + "]") + [':'] + port;
    LastIndexIs(head + "]", ':', port);
    assert s == head + [']'] + (":" + port);
    IndexIs(head, ']', ":" + port);
    assert s[1..|head|] == host && s[|head| + 2..] == port;
    assert s[1..] == host + "]:" + port;
    assert s[|head| + 1..] == ":" + port;
  }

  /** What is joined splits back, colons and the empty host included. */
  lemma JoinedSplits(host: string, port: Port)
    requires !HasBracket(host)
    ensures SplitHostPort(JoinHostPort(host, port)) == Some((host, Decimal(port)))
  {
    AddressSplits(JoinHostPort(host, port), host, Decimal(port));
  }

  /** No two host and port pairs print alike, brackets in the host or not. */
  lemma JoinIsInjective(h: string, p: Port, k: string, q: Port)
    requires JoinHostPort(h, p) == JoinHostPort(k, q)
    ensures h == k && p == q
  {
    hide LastIndexOf, Decimal;
    var left, right := Bracketed(h), Bracketed(k);
    assert JoinHostPort(h, p) == left + [':'] + Decimal(p);
    assert JoinHostPort(k, q) == right + [':'] + Decimal(q);
    LastIndexIs(left, ':', Decimal(p));
    LastIndexIs(right, ':', Decimal(q));
    assert left == JoinHostPort(h, p)[..|left|] == right;
    assert Decimal(p) == JoinHostPort(h, p)[|left| + 1..] == Decimal(q);
    DecimalIsInjective(p, q);
    BracketedIsInjective(h, k);
  }

  function Bracketed(host: string): string {
    if ':' in host then "[" + host + "]" else host
  }

  lemma BracketedIsInjective(h: string, k: string)
    requires Bracketed(h) == Bracketed(k)
    ensures h == k
  {
    var s := Bracketed(h);
    assert (':' in h <==> ':' in s) && (':' in k <==> ':' in s);
    if ':' in s {
      assert h == s[1..|s| - 1] == k;
    }
  }

  /** Two servers share an endpoint exactly when they are reached at one host and port. */
  lemma EndpointIsIdentity(a: Address, b: Address, unspecified: string -> bool)
    ensures Endpoint(a, unspecified) == Endpoint(b, unspecified)
       <==> a.port == b.port
            && (if a.host == "" || unspecified(a.host) then "127.0.0.1" else a.host)
               == (if b.host == "" || unspecified(b.host) then "127.0.0.1" else b.host)
  {
    if Endpoint(a, unspecified) == Endpoint(b, unspecified) {
      var h, k := ReachedHost(a.host, unspecified), ReachedHost(b.host, unspecified);
      assert JoinHostPort(h, a.port) == Endpoint(a, unspecified)[7..];
      assert JoinHostPort(k, b.port) == Endpoint(b, unspecified)[7..];
      JoinIsInjective(h, a.port, k, b.port);
    }
  }

  /** An address keeps its host exactly when the host holds no bracket. */
  lemma HostSurvivesExactly(host: string, port: Port, canonical: Canonical)
    requires PlainForms(canonical)
    ensures HostAndPort(JoinHostPort(host, port), canonical).0 == host <==> !HasBracket(host)
    ensures !HasBracket(host) ==> HostAndPort(JoinHostPort(host, port), canonical).1 == Decimal(port)
  {
    var s := JoinHostPort(host, port);
    if !HasBracket(host) {
      JoinedSplits(host, port);
    } else if SplitHostPort(s).Some? {
      SplitIsAddress(s, SplitHostPort(s).value.0, SplitHostPort(s).value.1);
    }
  }

  lemma HostHoldsNoSlash(hostport: string, canonical: Canonical)
    requires PlainForms(canonical) && '/' !in hostport
    ensures '/' !in HostAndPort(hostport, canonical).0
  {
    if SplitHostPort(hostport).Some? {
      SplitIsAddress(hostport, SplitHostPort(hostport).value.0, SplitHostPort(hostport).value.1);
    }
  }

  // ----- reading back a printed address -------------------------------------

  /** Trimming works on what surrounds a middle that it cannot enter. */
  lemma TrimAround(x: string, m: string, y: string, p: char -> bool)
    requires m != "" && !p(m[0]) && !p(m[|m| - 1])
    ensures Trim(x + m + y, p) == TrimStart(x, p) + m + TrimEnd(y, p)
  {
    TrimStartBefore(x, m + y, p);
    assert x + m + y == x + (m + y);
    var front := TrimStart(x, p) + m;
    TrimEndAfter(front, y, p);
    assert TrimStart(x, p) + (m + y) == front + y;
  }

  lemma {:induction false} TrimStartBefore(x: string, rest: string, p: char -> bool)
    requires rest != "" && !p(rest[0])
    ensures TrimStart(x + rest, p) == TrimStart(x, p) + rest
  {
    if x == "" {
      assert x + rest == rest;
    } else {
      assert (x + rest)[1..] == x[1..] + rest;
      TrimStartBefore(x[1..], rest, p);
    }
  }

  lemma {:induction false} TrimEndAfter(front: string, y: string, p: char -> bool)
    requires front != "" && !p(front[|front| - 1])
    ensures TrimEnd(front + y, p) == front + TrimEnd(y, p)
  {
    if y == "" {
      assert front + y == front;
    } else {
      var s := front + y;
      assert s[..|s| - 1] == front + y[..|y| - 1];
      TrimEndAfter(front, y[..|y| - 1], p);
    }
  }

  /** What is left of the text before, and of the text after, a middle that survives. */
  function CleanStart(x: string): string {
    TrimStart(TrimStart(TrimStart(x, IsWhitespace), IsQuote), IsWhitespace)
  }

  function CleanEnd(y: string): string {
    TrimEnd(TrimEnd(TrimEnd(y, IsWhitespace), IsQuote), IsWhitespace)
  }

  lemma CleanAround(x: string, m: string, y: string)
    requires m != "" && !IsTrimmed(m[0]) && !IsTrimmed(m[|m| - 1])
    ensures Clean(x + m + y) == CleanStart(x) + m + CleanEnd(y)
  {
    hide TrimStart, TrimEnd, Trim, IsWhitespace, IsQuote;
    var x1, y1 := TrimStart(x, IsWhitespace), TrimEnd(y, IsWhitespace);
    var x2, y2 := TrimStart(x1, IsQuote), TrimEnd(y1, IsQuote);
    TrimAround(x, m, y, IsWhitespace);
    TrimAround(x1, m, y1, IsQuote);
    TrimAround(x2, m, y2, IsWhitespace);
  }

  lemma {:induction false} TrimStartShortens(x: string, p: char -> bool)
    ensures |TrimStart(x, p)| <= |x|
    ensures |TrimStart(x, p)| == |x| <==> x == "" || !p(x[0])
    ensures |TrimStart(x, p)| == |x| ==> TrimStart(x, p) == x
  {
    if x != "" {
      TrimStartShortens(x[1..], p);
    }
  }

  lemma {:induction false} TrimEndShortens(y: string, p: char -> bool)
    ensures |TrimEnd(y, p)| <= |y|
    ensures |TrimEnd(y, p)| == |y| <==> y == "" || !p(y[|y| - 1])
    ensures |TrimEnd(y, p)| == |y| ==> TrimEnd(y, p) == y
  {
    if y != "" {
      TrimEndShortens(y[..|y| - 1], p);
    }
  }

  lemma CleanShortens(x: string, y: string)
    ensures |CleanStart(x)| <= |x| && |CleanEnd(y)| <= |y|
    ensures |CleanStart(x)| == |x| <==> x == "" || !IsTrimmed(x[0])
    ensures |CleanStart(x)| == |x| ==> CleanStart(x) == x
    ensures |CleanEnd(y)| == |y| <==> y == "" || !IsTrimmed(y[|y| - 1])
    ensures |CleanEnd(y)| == |y| ==> CleanEnd(y) == y
  {
    hide IsWhitespace, IsQuote, TrimStart, TrimEnd;
    var x1, y1 := TrimStart(x, IsWhitespace), TrimEnd(y, IsWhitespace);
    var x2, y2 := TrimStart(x1, IsQuote), TrimEnd(y1, IsQuote);
    TrimStartShortens(x, IsWhitespace);
    TrimStartShortens(x1, IsQuote);
    TrimStartShortens(x2, IsWhitespace);
    TrimEndShortens(y, IsWhitespace);
    TrimEndShortens(y1, IsQuote);
    TrimEndShortens(y2, IsWhitespace);
  }

  /** The separator is found right after a scheme that holds none, and earlier otherwise. */
  lemma SchemeSplits(x: string, rest: string)
    ensures var r := SplitScheme(x + SEPARATOR + rest);
            && r.Some?
            && |r.value.0| <= |x|
            && (|r.value.0| == |x| <==> !HasSeparator(x))
            && (!HasSeparator(x) ==> r.value == (x, rest))
  {
    hide SplitScheme;
    var s := x + SEPARATOR + rest;
    assert SeparatorAt(s, |x|);
    var parts := SplitScheme(s).value;
    assert SeparatorAt(s, |parts.0|);
    if i: nat :| SeparatorAt(x, i) {
      assert SeparatorAt(s, i);
    }
    if |parts.0| < |x| {
      assert SeparatorAt(x, |parts.0|);
    } else {
      assert parts.0 == s[..|x|] == x;
      assert parts.1 == s[|x| + 3..] == rest;
    }
  }

  lemma PathSplits(address: string, path: string)
    requires '/' !in address
    ensures SplitPath(address + "/" + path) == (address, path)
    ensures SplitPath(address) == (address, "")
  {
    var s := address + ['/'] + path;
    IndexIs(address, '/', path);
    assert s[..|address|] == address && s[|address| + 1..] == path;
  }

  /** What the scheme, the address and the path of a URL are to the cleaned text. */
  lemma UrlCleans(a: Address)
    ensures var rest := JoinHostPort(a.host, a.port) + if a.path == "" then "" else "/" + CleanEnd(a.path);
            Clean(Url(a)) == CleanStart(a.scheme) + SEPARATOR + rest
  {
    hide IsWhitespace, CleanStart, Clean;
    var m := SEPARATOR + JoinHostPort(a.host, a.port) + if a.path == "" then "" else "/";
    assert Url(a) == a.scheme + m + a.path;
    LastIsPlain(m[0]);
    var last := m[|m| - 1];
    if a.path == "" {
      assert last == Decimal(a.port)[|Decimal(a.port)| - 1];
    }
    LastIsPlain(last);
    CleanAround(a.scheme, m, a.path);
    assert a.path == "" ==> CleanEnd(a.path) == "";
  }

  lemma LastIsPlain(c: char)
    ensures c == ':' || c == '/' || IsDigit(c) ==> !IsTrimmed(c)
  {
  }

  ghost predicate EndsPlain(a: Address) {
    && (a.scheme == "" || !IsTrimmed(a.scheme[0]))
    && (a.path == "" || !IsTrimmed(a.path[|a.path| - 1]))
  }

  /**
   * Reading a printed URL gives back the address it was printed from, for
   * every scheme, host, port and path, exactly when the scheme holds no
   * separator, the host no bracket and no slash, and the URL neither begins
   * nor ends with a character that reading trims.
   */
  lemma ReadsBackExactly(a: Address, canonical: Canonical)
    requires PlainForms(canonical)
    ensures FromEnv(Some(Url(a)), canonical) == a
       <==> !HasSeparator(a.scheme) && !HasBracket(a.host) && '/' !in a.host && EndsPlain(a)
  {
    hide Clean, CleanStart, CleanEnd, Url, IsTrimmed, SplitScheme, HasSeparator;
    hide SplitPath, HostAndPort, PortOr, JoinHostPort, Decimal, PlainForms;
    UrlCleans(a);
    CleanShortens(a.scheme, a.path);
    var scheme, path := CleanStart(a.scheme), CleanEnd(a.path);
    var address := JoinHostPort(a.host, a.port);
    var rest := address + if a.path == "" then "" else "/" + path;
    SchemeSplits(scheme, rest);
    if scheme == a.scheme && !HasSeparator(scheme) {
      RestReadsBack(a.host, a.port, a.path, path, canonical);
      PortReadsBack(a.port, if scheme == "http" then 80 else if scheme == "https" then 443 else DEFAULT_PORT);
    }
  }

  lemma RestReadsBack(host: string, port: Port, path: string, kept: string, canonical: Canonical)
    requires PlainForms(canonical)
    requires path == "" ==> kept == ""
    ensures var (hostport, rest) := SplitPath(JoinHostPort(host, port) + if path == "" then "" else "/" + kept);
            var parts := HostAndPort(hostport, canonical);
            && (parts.0 == host <==> !HasBracket(host) && '/' !in host)
            && (parts.0 == host ==> rest == kept && parts.1 == Decimal(port))
  {
    hide HostAndPort, PlainForms, Decimal;
    var address := JoinHostPort(host, port);
    if '/' in host {
      var s := address + if path == "" then "" else "/" + kept;
      HostHoldsNoSlash(SplitPath(s).0, canonical);
    } else {
      assert '/' !in address;
      PathSplits(address, kept);
      assert address + "" == address && address + ("/" + kept) == address + "/" + kept;
      HostSurvivesExactly(host, port, canonical);
    }
  }

  lemma SchemeHoldsNoSeparator(value: Option<string>, canonical: Canonical)
    ensures !HasSeparator(FromEnv(value, canonical).scheme)
  {
    hide Clean, HostAndPort, SplitPath, PortOr;
    var s := Clean(if value.Some? then value.value else "");
    match SplitScheme(s)
    case None =>
    case Some(parts) =>
      assert forall i: nat :: SeparatorAt(parts.0, i) ==> SeparatorAt(s, i);
  }

  /** What reading produces reads back from its own URL exactly when its host
      is bracket-free and its ends are plain: the rest holds of every value. */
  lemma ReadingIsStableExactly(value: Option<string>, canonical: Canonical)
    requires PlainForms(canonical)
    ensures var a := FromEnv(value, canonical);
            FromEnv(Some(Url(a)), canonical) == a <==> !HasBracket(a.host) && EndsPlain(a)
  {
    hide FromEnv, Url, HasSeparator, EndsPlain, PlainForms;
    var a := FromEnv(value, canonical);
    ReadsBackExactly(a, canonical);
    SchemeHoldsNoSeparator(value, canonical);
    HostOfValueHoldsNoSlash(value, canonical);
  }

  lemma HostOfValueHoldsNoSlash(value: Option<string>, canonical: Canonical)
    requires PlainForms(canonical)
    ensures '/' !in FromEnv(value, canonical).host
  {
    hide Clean, SplitScheme, HasSeparator, HostAndPort, PortOr, PlainForms;
    var s := Clean(if value.Some? then value.value else "");
    var rest := match SplitScheme(s)
      case None => if s == "ollama.com" then "ollama.com:443" else s
      case Some(parts) => parts.1;
    HostHoldsNoSlash(SplitPath(rest).0, canonical);
  }

  /** An endpoint reads back as plain HTTP at the root of the host that is reached. */
  lemma EndpointReadsBack(a: Address, unspecified: string -> bool, canonical: Canonical)
    requires PlainForms(canonical) && !HasBracket(a.host) && '/' !in a.host
    ensures FromEnv(Some(Endpoint(a, unspecified)), canonical)
         == Address("http", if a.host == "" || unspecified(a.host) then "127.0.0.1" else a.host, a.port, "")
  {
    hide FromEnv, JoinHostPort;
    var reached := Address("http", ReachedHost(a.host, unspecified), a.port, "");
    assert Endpoint(a, unspecified) == Url(reached);
    ReadsBackExactly(reached, canonical);
  }

  // ----- a host without a port ----------------------------------------------

  /** A host that stands alone: no port, no bracket, no path, nothing to trim. */
  ghost predicate IsBareHost(host: string) {
    && host != "" && ':' !in host && '/' !in host && !HasBracket(host)
    && !IsTrimmed(host[0]) && !IsTrimmed(host[|host| - 1])
  }

  function CanonicalHost(host: string, canonical: Canonical): string {
    match canonical(host)
    case Some(ip) => ip
    case None => host
  }

  lemma BareHostHasNoPort(host: string, canonical: Canonical)
    requires IsBareHost(host)
    ensures SplitPath(host) == (host, "")
    ensures HostAndPort(host, canonical) == (CanonicalHost(host, canonical), "")
  {
    hide Trim, IsWhitespace, IsQuote;
    TrimAround("", host, "", IsBracket);
    assert "" + host + "" == host;
  }

  /** With a scheme and no port: 80 for `http`, 443 for `https`, and 11434 for any other scheme. */
  lemma SchemeChoosesThePort(scheme: string, host: string, canonical: Canonical)
    requires IsBareHost(host) && !HasSeparator(scheme)
    requires scheme == "" || !IsTrimmed(scheme[0])
    ensures FromEnv(Some(scheme + SEPARATOR + host), canonical)
         == Address(scheme, CanonicalHost(host, canonical),
                    if scheme == "http" then 80 else if scheme == "https" then 443 else 11434, "")
  {
    hide Clean, CleanStart, CleanEnd, SplitScheme, HasSeparator, SplitPath, HostAndPort, CanonicalHost, IsTrimmed;
    var m := SEPARATOR + host;
    assert scheme + m + "" == scheme + SEPARATOR + host;
    assert m[0] == ':' && m[|m| - 1] == host[|host| - 1];
    LastIsPlain(':');
    CleanAround(scheme, m, "");
    CleanShortens(scheme, "");
    SchemeSplits(scheme, host);
    BareHostHasNoPort(host, canonical);
  }

  /** With no scheme: `http` and 11434, save for the one name that means https and 443. */
  lemma BareHostMeansOllamaPort(host: string, canonical: Canonical)
    requires IsBareHost(host)
    ensures FromEnv(Some(host), canonical)
         == if host == "ollama.com" then Address("https", "ollama.com", 443, "")
            else Address("http", CanonicalHost(host, canonical), 11434, "")
  {
    hide Clean, CleanStart, CleanEnd, SplitScheme, SplitPath, HostAndPort, CanonicalHost, IsTrimmed;
    assert "" + host + "" == host;
    CleanAround("", host, "");
    CleanShortens("", "");
    assert !HasSeparator(host);
    if host == "ollama.com" {
      OllamaComHasItsPort(canonical);
    } else {
      BareHostHasNoPort(host, canonical);
    }
  }

  lemma OllamaComHasItsPort(canonical: Canonical)
    ensures SplitPath("ollama.com:443") == ("ollama.com:443", "")
    ensures HostAndPort("ollama.com:443", canonical) == ("ollama.com", "443")
    ensures PortOr("443", DEFAULT_PORT) == 443
  {
    hide *;
    assert "ollama.com:443" == "ollama.com" + ":" + "443";
    PlainNames();
    ColonlessSplits("ollama.com", "443", canonical);
    PortOfOllamaCom();
  }

  lemma PlainNames()
    ensures ':' !in "ollama.com" && '/' !in "ollama.com" && !HasBracket("ollama.com")
    ensures ':' !in "443" && '/' !in "443" && !HasBracket("443")
  {
  }

  lemma ColonlessSplits(host: string, port: string, canonical: Canonical)
    requires ':' !in host && '/' !in host && !HasBracket(host)
    requires ':' !in port && '/' !in port && !HasBracket(port)
    ensures SplitPath(host + ":" + port) == (host + ":" + port, "")
    ensures HostAndPort(host + ":" + port, canonical) == (host, port)
  {
    hide SplitHostPort;
    AddressSplits(host + ":" + port, host, port);
  }

  lemma PortOfOllamaCom()
    ensures PortOr("443", DEFAULT_PORT) == 443
  {
    hide ParseI32, PortOr;
    assert Decimal(4) == "4";
    assert Decimal(44) == "4" + "4";
    assert Decimal(443) == "44" + "3";
    assert "443" == "44" + "3";
    PortReadsBack(443, DEFAULT_PORT);
  }

  // ---- Every other form of the value ----

  /** Unset or empty, the value means this host on Ollama's port. */
  lemma UnsetMeansDefault(canonical: Canonical)
    requires canonical("").None?
    ensures FromEnv(None, canonical) == FromEnv(Some(""), canonical) == Address("http", "127.0.0.1", 11434, "")
  {
    assert Clean("") == "" && SplitScheme("").None?;
  }

  /** A value that is an address alone, with nothing to trim. */
  ghost predicate IsPlainValue(s: string) {
    s != "" && '/' !in s && !IsTrimmed(s[0]) && !IsTrimmed(s[|s| - 1]) && s != "ollama.com"
  }

  lemma PlainValueIsAddress(s: string, canonical: Canonical)
    requires IsPlainValue(s)
    ensures FromEnv(Some(s), canonical)
         == Address("http", HostAndPort(s, canonical).0, PortOr(HostAndPort(s, canonical).1, 11434), "")
  {
    hide IsTrimmed, Clean, CleanStart, CleanEnd, HostAndPort, PortOr;
    assert "" + s + "" == s;
    CleanAround("", s, "");
    CleanShortens("", "");
    assert !HasSeparator(s) && SplitPath(s) == (s, "");
  }

  /** Without a scheme, an address is taken as it is written: `:port` binds every
      interface. */
  lemma AddressAlone(host: string, port: Port, canonical: Canonical)
    requires !HasBracket(host) && '/' !in host && (host == "" || ':' in host || !IsTrimmed(host[0]))
    ensures FromEnv(Some(JoinHostPort(host, port)), canonical) == Address("http", host, port, "")
  {
    hide IsTrimmed, Decimal, IsWhitespace, IsQuote;
    var s := JoinHostPort(host, port);
    assert s[|s| - 1] == Decimal(port)[|Decimal(port)| - 1] && IsDigit(s[|s| - 1]);
    LastIsPlain(s[|s| - 1]);
    LastIsPlain(':');
    assert !IsTrimmed('[') by {
      BracketIsPlain();
    }
    assert s[0] == (if ':' in host then '[' else if host == "" then ':' else host[0]);
    OllamaComIsNoAddress(host, port);
    PlainValueIsAddress(s, canonical);
    JoinedSplits(host, port);
    PortReadsBack(port, 11434);
  }

  lemma BracketIsPlain()
    ensures !IsTrimmed('[') && !IsTrimmed(']')
  {
  }

  lemma OllamaComIsNoAddress(host: string, port: Port)
    ensures JoinHostPort(host, port) != "ollama.com"
  {
    hide Decimal;
    assert ':' in JoinHostPort(host, port);
    assert ':' !in "ollama.com";
  }

  /** A bare IPv6 literal, bracketed or not, is read in its canonical form. */
  lemma LiteralAlone(ip: string, canonical: Canonical)
    requires canonical(ip).Some? && IsPlainValue(ip) && !HasBracket(ip)
    requires exists i, j :: 0 <= i < j < |ip| && ip[i] == ':' && ip[j] == ':'
    ensures FromEnv(Some(ip), canonical) == Address("http", canonical(ip).value, 11434, "")
    ensures FromEnv(Some("[" + ip + "]"), canonical) == Address("http", canonical(ip).value, 11434, "")
  {
    hide *;
    BracketedIsPlain(ip);
    PlainValueIsAddress(ip, canonical);
    PlainValueIsAddress("[" + ip + "]", canonical);
    LiteralIsHost(ip, canonical);
    PortsExactly(0, 11434);
  }

  lemma BracketedIsPlain(ip: string)
    requires IsPlainValue(ip)
    ensures IsPlainValue("[" + ip + "]")
  {
    BracketIsPlain();
    var s := "[" + ip + "]";
    assert s[0] == '[' && s[|s| - 1] == ']' && "ollama.com"[0] == 'o';
    hide IsTrimmed;
  }

  lemma LiteralIsHost(ip: string, canonical: Canonical)
    requires canonical(ip).Some? && ip != "" && !HasBracket(ip)
    requires exists i, j :: 0 <= i < j < |ip| && ip[i] == ':' && ip[j] == ':'
    ensures HostAndPort(ip, canonical) == HostAndPort("[" + ip + "]", canonical) == (canonical(ip).value, "")
  {
    hide Trim, SplitHostPort;
    assert "" + ip + "" == ip;
    TrimAround("", ip, "", IsBracket);
    NothingToTrim();
    TrimBrackets(ip);
    TwoColonsHaveNoPort(ip);
    BracketedHasNoPort(ip);
  }

  lemma NothingToTrim()
    ensures TrimStart("", IsBracket) == "" && TrimEnd("", IsBracket) == ""
  {
  }

  lemma TrimBrackets(ip: string)
    requires ip != "" && !HasBracket(ip)
    ensures Trim("[" + ip + "]", IsBracket) == ip
  {
    TrimAround("[", ip, "]", IsBracket);
    assert "["[1..] == "" && "]"[..0] == "";
    assert "" + ip + "" == ip;
  }

  lemma TwoColonsHaveNoPort(ip: string)
    requires !HasBracket(ip) && exists i, j :: 0 <= i < j < |ip| && ip[i] == ':' && ip[j] == ':'
    ensures SplitHostPort(ip) == None
  {
    if SplitHostPort(ip).Some? {
      var (host, port) := SplitHostPort(ip).value;
      SplitIsAddress(ip, host, port);
      var i, j :| 0 <= i < j < |ip| && ip[i] == ':' && ip[j] == ':';
      OneColon(host, port, i, j);
    }
  }

  lemma OneColon(host: string, port: string, i: nat, j: nat)
    requires ':' !in host && ':' !in port && i < j < |host + ":" + port|
    ensures (host + ":" + port)[i] != ':' || (host + ":" + port)[j] != ':'
  {
    var s := host + ":" + port;
    assert forall k :: 0 <= k < |s| && k != |host| ==> s[k] in host || s[k] in port;
  }

  lemma BracketedHasNoPort(ip: string)
    requires !HasBracket(ip)
    ensures SplitHostPort("[" + ip + "]") == None
  {
    var s := "[" + ip + "]";
    if SplitHostPort(s).Some? {
      var (host, port) := SplitHostPort(s).value;
      SplitIsAddress(s, host, port);
      assert s[|s| - 1] == ']' && s[0] == '[';
      EndsInPort(s, host, port);
    }
  }

  lemma EndsInPort(s: string, host: string, port: string)
    requires IsAddress(s, host, port)
    ensures s[|s| - 1] == ':' || s[|s| - 1] in port
  {
    if port != "" {
      assert s[|s| - 1] == port[|port| - 1];
    }
  }

  /** Whitespace about a value and quotes about that are trimmed. */
  lemma QuotedIsRead(s: string, canonical: Canonical)
    requires s != "" && !IsTrimmed(s[0]) && !IsTrimmed(s[|s| - 1])
    ensures FromEnv(Some(" \"" + s + "\"\n"), canonical) == FromEnv(Some(s), canonical)
    ensures FromEnv(Some("\t'" + s + "'\r"), canonical) == FromEnv(Some(s), canonical)
  {
    hide FromEnv;
    assert "" + s + "" == s;
    CleanAround(" \"", s, "\"\n");
    CleanAround("\t'", s, "'\r");
    CleanAround("", s, "");
    QuotesAreCleaned();
    CleanedIsRead(" \"" + s + "\"\n", s, canonical);
    CleanedIsRead("\t'" + s + "'\r", s, canonical);
  }

  lemma QuotesAreCleaned()
    ensures CleanStart(" \"") == CleanStart("\t'") == CleanStart("") == ""
    ensures CleanEnd("\"\n") == CleanEnd("'\r") == CleanEnd("") == ""
  {
    assert " \""[1..] == "\"" && "\t'"[1..] == "'" && "\""[1..] == "" && "'"[1..] == "";
    assert "\"\n"[..1] == "\"" && "'\r"[..1] == "'" && "\""[..0] == "" && "'"[..0] == "";
  }

  lemma CleanedIsRead(s: string, t: string, canonical: Canonical)
    requires Clean(s) == Clean(t)
    ensures FromEnv(Some(s), canonical) == FromEnv(Some(t), canonical)
  {
    hide Clean;
  }

  // ---- Ports ----

  /** A sign is accepted and the number must fit 16 bits; nothing else is a port. */
  lemma PortsExactly(n: nat, fallback: Port)
    ensures PortOr(Decimal(n), fallback) == if n < 65536 then n else fallback
    ensures PortOr("+" + Decimal(n), fallback) == if n < 65536 then n else fallback
    ensures PortOr("-" + Decimal(n), fallback) == if n == 0 then 0 else fallback
    ensures PortOr("", fallback) == fallback
  {
    var s := Decimal(n);
    assert s[0] in s;
    ValueOfDecimal(n);
    assert ("+" + s)[1..] == s && ("-" + s)[1..] == s;
    hide Value, Decimal;
  }

  lemma NoNumberIsNoPort(s: string, c: char, fallback: Port)
    requires s != "" && c in s[1..] && !IsDigit(c)
    ensures PortOr(s, fallback) == fallback
  {
    assert forall x :: x in s[1..] ==> x in s;
  }
}
