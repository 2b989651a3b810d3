/** Gopher URLs: "gopher://host[:port]/<type><selector>", read and built. Strings are
    the characters before the terminating NUL. */
module GopherUrl {
  import opened Common
  import opened Decimal
  import Digits

  const DEFAULT_PORT := 70
  const NO_HOST := 3  // the error code for a URL without a host

  datatype Url = Url(host: string, port: int, kind: char, selector: string)

  predicate EndsHost(c: char) {
    c == ':' || c == '/'
  }

  /** The length of the host name a text starts with. */
  function HostLen(s: string): (n: nat)
    ensures n <= |s| && (n < |s| ==> EndsHost(s[n]))
    ensures forall i :: 0 <= i < n ==> !EndsHost(s[i])
  {
    if s == "" || EndsHost(s[0]) then 0 else 1 + HostLen(s[1..])
  }

  function WithoutScheme(url: string): string {
    if "gopher://" <= url || "GOPHER://" <= url then url[9..] else url
  }

  /** A port from its digits, of which at most fifteen are looked at. */
  function PortOf(digits: string): (port: int)
    ensures 0 < port <= 65535
  {
    var v := Atoi(if |digits| > 15 then digits[..15] else digits);
    if v <= 0 || v > 65535 then DEFAULT_PORT else v
  }

  /** The type and selector in what follows host and port. */
  function KindAndSelector(path: string): (char, string) {
    var p := if path != "" && path[0] == '/' then path[1..] else path;
    if p == "" then ('1', "") else (p[0], p[1..])
  }

  /** The port and the path that follow a host name. */
  function PortAndPath(after: string): (int, string) {
    if after == "" || after[0] != ':' then (DEFAULT_PORT, after)
    else
      var n := DigitRun(after[1..]);
      (if n > 0 then PortOf(after[1..][..n]) else DEFAULT_PORT, after[1..][n..])
  }

  function FromHost(host: string, after: string): Result<Url, int> {
    var (port, path) := PortAndPath(after);
    if host == "" then Err(NO_HOST)
    else Ok(Url(host, port, KindAndSelector(path).0, KindAndSelector(path).1))
  }

  function Parsed(url: string): Result<Url, int> {
    var s := WithoutScheme(url);
    FromHost(s[..HostLen(s)], s[HostLen(s)..])
  }

  method FindHostEnd(url: string, start: nat) returns (p: nat)
    requires start <= |url|
    ensures p == start + HostLen(url[start..])
  {
    p := start;
    while p < |url| && url[p] != ':' && url[p] != '/'
      invariant start <= p <= |url|
      invariant p + HostLen(url[p..]) == start + HostLen(url[start..])
    {
      DropOfDrop(url, p, 1);
      p := p + 1;
    }
  }

  method FindDigitsEnd(url: string, start: nat) returns (q: nat)
    requires start <= |url|
    ensures q == start + DigitRun(url[start..])
  {
    q := start;
    while q < |url| && IsDigit(url[q])
      invariant start <= q <= |url|
      invariant q + DigitRun(url[q..]) == start + DigitRun(url[start..])
    {
      DropOfDrop(url, q, 1);
      q := q + 1;
    }
  }

  /** Reads the port in url[start..q]. */
  method ReadDigits(url: string, start: nat, q: nat) returns (port: int)
    requires start <= q <= |url|
    ensures port == PortOf(url[start..q])
  {
    hide Atoi;
    var n := q - start;
    if n >= 16 { n := 15; }
    var digits := url[start..start + n];
    assert url[start..q][..n] == digits;
    port := Atoi(digits);
    if port <= 0 || port > 65535 { port := DEFAULT_PORT; }
  }

  /** Reads an optional ":port" at p. */
  method ReadPortAt(url: string, p: nat) returns (port: int, q: nat)
    requires p <= |url|
    ensures p <= q <= |url| && PortAndPath(url[p..]) == (port, url[q..])
  {
    hide PortOf, DigitRun;
    port, q := DEFAULT_PORT, p;
    if p < |url| && url[p] == ':' {
      var start := p + 1;
      q := FindDigitsEnd(url, start);
      if q > start { port := ReadDigits(url, start, q); }
      DropOfDrop(url, p, 1);
      DropOfDrop(url, start, q - start);
      SliceOfDrop(url, start, 0, q - start);
    }
  }

  /** Reads the type and selector at p. */
  method ReadKindAt(url: string, p: nat) returns (kind: char, selector: string)
    requires p <= |url|
    ensures KindAndSelector(url[p..]) == (kind, selector)
  {
    var path := p;
    if path < |url| && url[path] == '/' {
      DropOfDrop(url, path, 1);
      path := path + 1;
    }
    kind, selector := '1', "";
    if path < |url| {
      kind, selector := url[path], url[path + 1..];
      DropOfDrop(url, path, 1);
    }
  }

  /** Reads a URL. */
  method Parse(url: string) returns (r: Result<Url, int>)
    ensures r == Parsed(url)
  {
    hide PortAndPath, KindAndSelector, HostLen;
    var start := if "gopher://" <= url then 9 else if "GOPHER://" <= url then 9 else 0;
    assert url[start..] == WithoutScheme(url);
    var p := FindHostEnd(url, start);
    var host := url[start..p];
    SliceOfDrop(url, start, 0, p - start);
    DropOfDrop(url, start, p - start);
    var port, q := ReadPortAt(url, p);
    var kind, selector := ReadKindAt(url, q);
    if |host| == 0 { return Err(NO_HOST); }
    r := Ok(Url(host, port, kind, selector));
  }

  /** The C type of ports. */
  type CInt = i: int | -0x8000_0000 <= i < 0x8000_0000

  function PrintedPort(port: CInt): string {
    if port > 0 && port != DEFAULT_PORT then ":" + Print(port) else ""
  }

  /** Prints a URL; the default port, and none, are left out. */
  function Built(host: string, port: CInt, kind: char, selector: string): string {
    CString("gopher://" + (host + (PrintedPort(port) + ("/" + ([kind] + selector)))))
  }

  // ---------- round trips ----------

  ghost predicate NoNul(s: string) {
    forall i :: 0 <= i < |s| ==> s[i] != '\0'
  }

  lemma {:induction false} CStringOfAppend(s: string, t: string)
    requires NoNul(s)
    ensures CString(s + t) == s + CString(t)
    decreases |s|
  {
    if s == "" {
      assert s + t == t;
    } else {
      assert (s + t)[1..] == s[1..] + t;
      CStringOfAppend(s[1..], t);
    }
  }

  lemma {:induction false} HostLenOfAppend(s: string, t: string)
    requires t != "" && EndsHost(t[0])
    ensures HostLen(s + t) == if HostLen(s) < |s| then HostLen(s) else |s|
    decreases |s|
  {
    if s == "" {
      assert s + t == t;
    } else {
      assert (s + t)[1..] == s[1..] + t;
      HostLenOfAppend(s[1..], t);
    }
  }

  /** What a built URL says about the port: one out of range is lost. */
  function ReadPort(port: CInt): (p: CInt) {
    if 0 < port <= 65535 then port else DEFAULT_PORT
  }

  /** Reading the digits of a port number, of which fifteen are looked at. */
  lemma PortRoundTrip(port: CInt)
    requires port > 0
    ensures PortOf(Print(port)) == ReadPort(port)
  {
    AtoiPrint(port);
    assert port < Digits.Pow(10, 10);
    PrintIsShort(port, 10);
  }

  lemma PortAndPathRoundTrip(port: CInt, path: string)
    requires path != "" && path[0] == '/'
    ensures PortAndPath(PrintedPort(port) + path) == (ReadPort(port), path)
  {
    hide PortOf, Print, ReadPort;
    if port > 0 && port != DEFAULT_PORT {
      var digits := Print(port);
      PrintIsDigits(port);
      LeadingOfDigits(digits, path);
      assert (":" + digits + path)[1..] == digits + path;
      assert (digits + path)[..|digits|] == digits && (digits + path)[|digits|..] == path;
      PortRoundTrip(port);
    } else {
      assert "" + path == path;
      assert ReadPort(port) == DEFAULT_PORT by { ReadDefault(port); }
    }
  }

  lemma ReadDefault(port: CInt)
    requires !(port > 0 && port != DEFAULT_PORT)
    ensures ReadPort(port) == DEFAULT_PORT
  {
  }

  /** What a built URL parses to: host and selector come back, the port if it is one,
      the type if it is not NUL. */
  lemma BuildParses(host: string, port: CInt, kind: char, selector: string)
    requires NoNul(host) && NoNul(selector)
    requires host != "" && HostLen(host) == |host|
    ensures Parsed(Built(host, port, kind, selector)) ==
      Ok(if kind != '\0' then Url(host, ReadPort(port), kind, selector) else Url(host, ReadPort(port), '1', ""))
  {
    hide PortAndPath, PrintedPort, ReadPort, HostLen, CString;
    var path := "/" + CString([kind] + selector);
    CStringOfBuilt(host, port, kind, selector);
    CStringOfKind(kind, selector);
    PortAndPathRoundTrip(port, path);
    assert path[1..] == CString([kind] + selector);
    var s := host + (PrintedPort(port) + path);
    var after := PrintedPort(port) + path;
    assert ("gopher://" + s)[9..] == s;
    assert EndsHost(after[0]) by { PrintedPortEndsHost(port, path); }
    HostLenOfAppend(host, after);
    assert s[..|host|] == host && s[|host|..] == after;
  }

  lemma PrintedPortEndsHost(port: CInt, path: string)
    requires path != "" && path[0] == '/'
    ensures PrintedPort(port) + path != "" && EndsHost((PrintedPort(port) + path)[0])
  {
    hide Print;
  }

  lemma CStringOfKind(kind: char, selector: string)
    requires NoNul(selector)
    ensures kind == '\0' ==> CString([kind] + selector) == ""
    ensures kind != '\0' ==> CString([kind] + selector) == [kind] + selector && ([kind] + selector)[1..] == selector
  {
    assert ([kind] + selector)[1..] == selector;
    CStringOfAppend(selector, "");
    assert selector + "" == selector;
  }

  lemma CStringOfBuilt(host: string, port: CInt, kind: char, selector: string)
    requires NoNul(host)
    ensures Built(host, port, kind, selector) == "gopher://" + (host + (PrintedPort(port) + ("/" + CString([kind] + selector))))
  {
    hide CString;
    var tail := [kind] + selector;
    assert NoNul(PrintedPort(port)) by { if port > 0 { PrintIsDigits(port); } }
    CStringOfAppend("gopher://", host + (PrintedPort(port) + ("/" + tail)));
    CStringOfAppend(host, PrintedPort(port) + ("/" + tail));
    CStringOfAppend(PrintedPort(port), "/" + tail);
    CStringOfAppend("/", tail);
  }

  /** The host comes back exactly when it is not empty and has no ':' or '/'. */
  lemma HostComesBackIff(host: string, port: CInt, kind: char, selector: string)
    requires NoNul(host) && NoNul(selector)
    ensures var r := Parsed(Built(host, port, kind, selector));
      (r.Ok? && r.value.host == host) <==> host != "" && HostLen(host) == |host|
  {
    if host != "" && HostLen(host) == |host| {
      BuildParses(host, port, kind, selector);
    } else {
      CutHost(host, port, kind, selector);
    }
  }

  lemma CutHost(host: string, port: CInt, kind: char, selector: string)
    requires NoNul(host) && (host == "" || HostLen(host) < |host|)
    ensures var r := Parsed(Built(host, port, kind, selector));
      r.Ok? ==> r.value.host != host
  {
    hide PortAndPath, PrintedPort, CString, KindAndSelector;
    var path := "/" + CString([kind] + selector);
    CStringOfBuilt(host, port, kind, selector);
    PrintedPortEndsHost(port, path);
    var after := PrintedPort(port) + path;
    HostLenOfAppend(host, after);
    assert ("gopher://" + (host + after))[9..] == host + after;
  }

  /** Parsing, building and parsing again changes nothing, for every accepted URL. */
  lemma ParseBuildParse(url: string)
    requires NoNul(url) && Parsed(url).Ok?
    ensures var u := Parsed(url).value;
      && 0 < u.port <= 65535
      && Parsed(Built(u.host, u.port, u.kind, u.selector)) == Parsed(url)
  {
    hide PortOf, CString;
    var u := Parsed(url).value;
    var s := WithoutScheme(url);
    assert NoNul(s);
    var after := s[HostLen(s)..];
    var path := PortAndPath(after).1;
    assert NoNul(path) by { if after != "" && after[0] == ':' { assert forall i :: 0 <= i < |path| ==> path[i] in after; } }
    HostLenOfHost(s);
    BuildParses(u.host, u.port, u.kind, u.selector);
  }

  lemma {:induction false} HostLenOfHost(s: string)
    ensures HostLen(s[..HostLen(s)]) == HostLen(s)
    decreases |s|
  {
    if s != "" && !EndsHost(s[0]) {
      HostLenOfHost(s[1..]);
      assert s[..HostLen(s)][1..] == s[1..][..HostLen(s) - 1];
    }
  }

  // ---------- the forms a URL takes ----------

  ghost predicate HostName(host: string) {
    host != "" && forall i :: 0 <= i < |host| ==> host[i] != ':' && host[i] != '/'
  }

  /** The scheme may be left out, or be in capitals. */
  lemma SchemeIsOptional(s: string)
    requires !("gopher://" <= s) && !("GOPHER://" <= s)
    ensures Parsed("gopher://" + s) == Parsed(s) && Parsed("GOPHER://" + s) == Parsed(s)
  {
    hide FromHost, HostLen;
    assert ("gopher://" + s)[9..] == s && ("GOPHER://" + s)[9..] == s;
  }

  /** What a path says: the character after its slash, or its first, is the type, and
      the rest is the selector; no path is the root menu, of type 1. */
  ghost predicate Names(path: string, url: Url) {
    && (path == "" || path == "/" ==> url.kind == '1' && url.selector == "")
    && (|path| > 1 && path[0] == '/' ==> url.kind == path[1] && url.selector == path[2..])
    && (path != "" && path[0] != '/' ==> url.kind == path[0] && url.selector == path[1..])
  }

  lemma HostFirst(host: string, after: string)
    requires HostName(host) && (after == "" || after[0] == ':' || after[0] == '/')
    ensures Parsed("gopher://" + (host + after)) == FromHost(host, after)
  {
    hide FromHost;
    var s := host + after;
    assert ("gopher://" + s)[9..] == s;
    WholeHost(host);
    if after != "" { HostLenOfAppend(host, after); } else { assert s == host; }
    assert s[..|host|] == host && s[|host|..] == after;
  }

  lemma {:induction false} WholeHost(host: string)
    requires forall i :: 0 <= i < |host| ==> host[i] != ':' && host[i] != '/'
    ensures HostLen(host) == |host|
    decreases |host|
  {
    if host != "" { WholeHost(host[1..]); }
  }

  /** Without a port the port is 70. */
  lemma UrlWithoutPort(host: string, path: string)
    requires HostName(host) && (path == "" || path[0] == '/')
    ensures var r := Parsed("gopher://" + (host + path));
      r.Ok? && r.value.host == host && r.value.port == 70 && Names(path, r.value)
  {
    HostFirst(host, path);
    PathNames(host, 70, path);
    hide KindAndSelector, Names;
  }

  lemma PathNames(host: string, port: int, path: string)
    ensures Names(path, Url(host, port, KindAndSelector(path).0, KindAndSelector(path).1))
  {
  }

  /** With a port it is the number read from at most fifteen digits, or 70 when that is
      none from 1 to 65535; the path starts at the first character that is no digit. */
  lemma UrlWithPort(host: string, digits: string, path: string)
    requires HostName(host)
    requires forall i :: 0 <= i < |digits| ==> '0' <= digits[i] <= '9'
    requires path == "" || !('0' <= path[0] <= '9')
    ensures var r := Parsed("gopher://" + (host + (":" + (digits + path))));
      var value := ValueOf(if |digits| > 15 then digits[..15] else digits);
      && r.Ok? && r.value.host == host && Names(path, r.value)
      && r.value.port == if 1 <= value <= 65535 then value else 70
  {
    var after := ":" + (digits + path);
    HostFirst(host, after);
    PathNames(host, PortAndPath(after).0, path);
    hide KindAndSelector, Names;
    LeadingOfDigits(digits, path);
    assert after[1..] == digits + path && after[1..][..|digits|] == digits && after[1..][|digits|..] == path;
    ReadDigitsOnly(digits);
  }

  lemma ReadDigitsOnly(digits: string)
    requires forall i :: 0 <= i < |digits| ==> '0' <= digits[i] <= '9'
    ensures var value := ValueOf(if |digits| > 15 then digits[..15] else digits);
      (if |digits| > 0 then PortOf(digits) else 70) == if 1 <= value <= 65535 then value else 70
  {
    var seen := if |digits| > 15 then digits[..15] else digits;
    AtoiForms("", "", seen, "");
    assert "" + ("" + (seen + "")) == seen;
    hide Atoi;
  }

  /** A URL that starts with a port or a path has no host. */
  lemma UrlWithoutHost(after: string)
    requires after == "" || after[0] == ':' || after[0] == '/'
    ensures Parsed("gopher://" + after) == Err(3)
  {
    assert ("gopher://" + after)[9..] == after;
  }

  /** How a URL is printed. */
  lemma UrlIsPrinted(host: string, port: CInt, kind: char, selector: string)
    requires NoNul(host) && NoNul(selector) && kind != '\0'
    ensures Built(host, port, kind, selector) ==
      "gopher://" + host + (if port <= 0 || port == 70 then "" else ":" + Print(port)) + "/" + [kind] + selector
  {
    hide CString, Print;
    CStringOfBuilt(host, port, kind, selector);
    CStringOfKind(kind, selector);
  }
}
