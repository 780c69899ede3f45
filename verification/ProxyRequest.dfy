/** The request rewriting of proxylab-handout/proxy.c: an absolute-form GET (section 5.3.2 of RFC 7230)
becomes an origin-form request with the proxy's own headers. Strings hold no NUL. */
module ProxyRequest {
  import opened Options

  // ----- strtok and strchr

  /** How many leading characters are not in d. */
  function Span(s: string, d: string): (n: nat)
    ensures n <= |s| && (n < |s| ==> s[n] in d)
    ensures forall i :: 0 <= i < n ==> s[i] !in d
  {
    if s == "" || s[0] in d then 0
    else
      var n := Span(s[1..], d);
      assert forall i :: 0 < i < n + 1 ==> s[i] == s[1..][i - 1];
      1 + n
  }

  /** The string without its leading characters that are in d. */
  function Skip(s: string, d: string): (t: string)
    ensures |t| <= |s| && (t != "" ==> t[0] !in d)
  {
    if s == "" || s[0] !in d then s else Skip(s[1..], d)
  }

  datatype Token = Token(text: string, rest: string)

  /** strtok: the next token, and what is left after the delimiter that ended it. */
  function NextToken(s: string, d: string): (r: Option<Token>)
    ensures r.Some? ==> |r.value.rest| < |s|
  {
    var t := Skip(s, d);
    if t == "" then None
    else
      var n := Span(t, d);
      Some(Token(t[..n], if n < |t| then t[n + 1..] else ""))
  }

  predicate Free(s: string, d: string) { forall i :: 0 <= i < |s| ==> s[i] !in d }

  predicate Only(s: string, d: string) { forall i :: 0 <= i < |s| ==> s[i] in d }

  lemma {:induction false} SpanIs(s: string, c: char, rest: string, d: string)
    requires Free(s, d) && c in d
    ensures Span(s + [c] + rest, d) == |s|
  {
    var whole := s + [c] + rest;
    assert whole[|s|] == c;
    assert forall i :: 0 <= i < |s| ==> whole[i] == s[i];
  }

  lemma {:induction false} SkipIs(before: string, s: string, d: string)
    requires Only(before, d) && (s != "" ==> s[0] !in d)
    ensures Skip(before + s, d) == s
  {
    if before == "" {
      assert before + s == s;
    } else {
      assert (before + s)[1..] == before[1..] + s;
      SkipIs(before[1..], s, d);
    }
  }

  lemma TokenIs(before: string, text: string, c: char, rest: string, d: string)
    requires Only(before, d) && text != "" && Free(text, d) && c in d
    ensures NextToken(before + (text + [c] + rest), d) == Some(Token(text, rest))
  {
    var t := text + [c] + rest;
    assert t[0] == text[0];
    SkipIs(before, t, d);
    SpanIs(text, c, rest, d);
    assert t[..|text|] == text && t[|text| + 1..] == rest;
  }

  lemma NoToken(s: string, d: string)
    requires Only(s, d)
    ensures NextToken(s, d) == None
  {
    SkipIs(s, "", d);
    assert s + "" == s;
  }

  // ----- what parse computes

  const CRLF := "\r\n"

  function Agent(): string {
    " Mozilla/5.0" + " (X11; Linux x86" + "_64; rv:10.0.3)" + " Gecko/20120305 " + "Firefox/10.0.3"
  }

  function OwnHeaders(): string {
    "User-Agent:" + Agent() + CRLF + ("Connection: close" + CRLF + ("Proxy-Connection: close" + CRLF))
  }

  predicate Dropped(name: string) {
    name == "Connection" || name == "Proxy-Connection" || name == "User-Agent"
  }

  /** The header lines that are kept, and whether one of them is Host. */
  datatype Scan = Scan(lines: string, hasHost: bool)

  /** The loop over the headers; None where the code follows the null pointer that strchr returns
      for a line without a colon. */
  function ScanHeaders(s: string): Option<Scan>
    decreases |s|
  {
    match NextToken(s, CRLF)
    case None => Some(Scan("", false))
    case Some(token) =>
      var header, name := token.text, token.text[..Span(token.text, ":")];
      if |name| == |header| then None
      else
        match ScanHeaders(token.rest)
        case None => None
        case Some(scan) =>
          if Dropped(name) then Some(scan)
          else Some(Scan(header + CRLF + scan.lines, name == "Host" || scan.hasHost))
  }

  datatype Rewritten = Rewritten(host: string, port: Option<string>, request: string)

  function Assemble(verb: string, path: string, host: string, scan: Scan): string {
    verb + " /" + path + " " + "HTTP/1.0\r\n" + scan.lines + (if scan.hasHost then "" else host + CRLF)
    + OwnHeaders() + CRLF
  }

  /** parse: the request for the server, the host and the port; None where the code would follow a
      null pointer. A method or scheme of another kind is reported but not refused. */
  function Rewrite(original: string): Option<Rewritten> {
    match NextToken(original, " ")
    case None => None
    case Some(verb) =>
      match NextToken(verb.rest, "/")
      case None => None
      case Some(scheme) => RewriteTarget(verb.text, scheme.rest)
  }

  /** What parse makes of the request after the scheme. */
  function RewriteTarget(verb: string, s: string): Option<Rewritten> {
    match NextToken(s, "/")
    case None => None
    case Some(authority) =>
      match NextToken(authority.rest, CRLF)
      case None => None
      case Some(target) => RewriteParts(verb, authority.text, target.text, target.rest)
  }

  function RewriteParts(verb: string, authority: string, target: string, headers: string): Option<Rewritten> {
    var colon, space := Span(authority, ":"), Span(target, " ");
    if space == |target| then None
    else
      match ScanHeaders(headers)
      case None => None
      case Some(scan) =>
        var host := authority[..colon];
        var port := if colon == |authority| then None else Some(authority[colon + 1..]);
        Some(Rewritten(host, port, Assemble(verb, target[..space], host, scan)))
  }

  // ----- well-formed requests

  datatype Header = Header(name: string, value: string)

  datatype Get = Get(host: string, port: Option<string>, path: string, version: string, headers: seq<Header>)

  predicate GoodHeader(h: Header) {
    Free(h.name, ":\r\n") && Free(h.value, "\r\n")
  }

  /** A host: a name or an address without colons, or an IP literal in brackets (section 3.2.2 of
      RFC 3986). */
  predicate GoodHost(host: string) {
    && host != "" && Free(host, "/?@ \r\n")
    && (Free(host, ":") || IsLiteral(host))
  }

  predicate IsLiteral(host: string) {
    |host| > 2 && host[0] == '[' && host[|host| - 1] == ']'
  }

  predicate GoodGet(g: Get) {
    && GoodHost(g.host)
    && (g.port.Some? ==> Free(g.port.value, "/\r\n"))
    && Free(g.path, " \r\n") && Free(g.version, "\r\n")
    && forall i :: 0 <= i < |g.headers| ==> GoodHeader(g.headers[i])
  }

  function Line(h: Header): string { h.name + ":" + h.value }

  function Lines(hs: seq<Header>): string {
    if hs == [] then "" else Line(hs[0]) + CRLF + Lines(hs[1..])
  }

  function Authority(g: Get): string {
    g.host + (if g.port.Some? then ":" + g.port.value else "")
  }

  /** The request as the client sends it. */
  function Render(g: Get): string {
    "GET http://" + Authority(g) + "/" + g.path + " " + g.version + CRLF + Lines(g.headers) + CRLF
  }

  /** The client's headers that are not dropped, in order. */
  function Kept(hs: seq<Header>): seq<Header> {
    if hs == [] then []
    else if Dropped(hs[0].name) then Kept(hs[1..])
    else [hs[0]] + Kept(hs[1..])
  }

  predicate HasHost(hs: seq<Header>) {
    exists i :: 0 <= i < |hs| && hs[i].name == "Host"
  }

  function Own(): seq<Header> {
    [Header("User-Agent", Agent()), Header("Connection", " close"), Header("Proxy-Connection", " close")]
  }

  /** The request as it should go to the server. */
  function Forwarded(g: Get): string {
    "GET /" + g.path + " HTTP/1.0\r\n" + Lines(Kept(g.headers))
    + (if HasHost(g.headers) then "" else g.host + CRLF) + Lines(Own()) + CRLF
  }

  lemma ScanStep(h: Header, more: string)
    requires GoodHeader(h)
    ensures ScanHeaders("\n" + (Line(h) + ['\r'] + more)) ==
      match ScanHeaders(more)
      case None => None
      case Some(scan) =>
        if Dropped(h.name) then Some(scan)
        else Some(Scan(Line(h) + CRLF + scan.lines, h.name == "Host" || scan.hasHost))
  {
    var line := Line(h);
    LineIs(h);
    TokenIs("\n", line, '\r', more, CRLF);
    assert line[..|h.name|] == h.name;
  }

  lemma HasHostCons(h: Header, hs: seq<Header>)
    ensures HasHost([h] + hs) <==> h.name == "Host" || HasHost(hs)
  {
    var all := [h] + hs;
    assert all[0] == h;
    assert forall i :: 0 <= i < |hs| ==> all[i + 1] == hs[i];
  }

  lemma {:induction false} ScanLines(hs: seq<Header>)
    requires forall i :: 0 <= i < |hs| ==> GoodHeader(hs[i])
    ensures ScanHeaders("\n" + Lines(hs) + CRLF) == Some(Scan(Lines(Kept(hs)), HasHost(hs)))
  {
    var s := "\n" + Lines(hs) + CRLF;
    if hs == [] {
      assert s == "\n\r\n";
      NoToken(s, CRLF);
    } else {
      var h, rest := hs[0], hs[1..];
      var more := "\n" + Lines(rest) + CRLF;
      assert GoodHeader(h);
      assert s == "\n" + (Line(h) + ['\r'] + more);
      ScanStep(h, more);
      ScanLines(rest);
      assert hs == [h] + rest;
      HasHostCons(h, rest);
      if !Dropped(h.name) {
        LinesCons(h, Kept(rest));
      }
    }
  }

  lemma LineIs(h: Header)
    requires GoodHeader(h)
    ensures Line(h) != "" && Free(Line(h), CRLF) && Span(Line(h), ":") == |h.name| < |Line(h)|
  {
    assert Free(h.name, ":");
    SpanIs(h.name, ':', h.value, ":");
    assert Line(h) == h.name + [':'] + h.value;
  }

  lemma LinesCons(h: Header, hs: seq<Header>)
    ensures Lines([h] + hs) == Line(h) + CRLF + Lines(hs)
  {
    assert ([h] + hs)[1..] == hs;
  }

  lemma OwnLine(name: string, colon: string, value: string)
    requires colon == name + ":"
    ensures Line(Header(name, value)) == colon + value
  {
  }

  lemma ThreeLines(a: Header, b: Header, c: Header)
    ensures Lines([a, b, c]) == Line(a) + CRLF + (Line(b) + CRLF + (Line(c) + CRLF))
  {
    LinesCons(c, []);
    LinesCons(b, [c]);
    LinesCons(a, [b, c]);
    assert [b] + [c] == [b, c] && [a] + [b, c] == [a, b, c] && [c] + [] == [c];
    assert Lines([]) == "";
  }

  lemma OwnIsHeaders()
    ensures Lines(Own()) == OwnHeaders()
  {
    var agent := Agent();
    var a, b, c := Header("User-Agent", agent), Header("Connection", " close"), Header("Proxy-Connection", " close");
    ThreeLines(a, b, c);
    OwnLine("User-Agent", "User-Agent:", agent);
    assert Line(b) == "Connection: close";
    assert Line(c) == "Proxy-Connection: close";
  }

  lemma TwoTokens(verb: string, scheme: string, s: string)
    requires verb != "" && Free(verb, " ") && scheme != "" && Free(scheme, "/")
    ensures Rewrite(verb + [' '] + (scheme + ['/'] + s)) == RewriteTarget(verb, s)
  {
    var r1 := scheme + ['/'] + s;
    var r0 := verb + [' '] + r1;
    assert "" + r0 == r0 && "" + r1 == r1;
    TokenIs("", verb, ' ', r1, " ");
    TokenIs("", scheme, '/', s, "/");
  }

  lemma TargetTokens(verb: string, authority: string, target: string, headers: string)
    requires authority != "" && Free(authority, "/") && target != "" && Free(target, CRLF)
    ensures RewriteTarget(verb, "/" + (authority + ['/'] + (target + ['\r'] + headers)))
      == RewriteParts(verb, authority, target, headers)
  {
    var r3 := target + ['\r'] + headers;
    assert "" + r3 == r3;
    TokenIs("/", authority, '/', r3, "/");
    TokenIs("", target, '\r', headers, CRLF);
  }

  lemma HttpGet(tail: string)
    ensures Rewrite("GET http://" + tail) == RewriteTarget("GET", "/" + tail)
  {
    assert "GET http://" == "GET" + [' '] + ("http:" + ['/'] + "/");
    assert "GET http://" + tail == "GET" + [' '] + ("http:" + ['/'] + ("/" + tail));
    TwoTokens("GET", "http:", "/" + tail);
  }

  lemma RenderShape(authority: string, path: string, version: string, lines: string)
    ensures "GET http://" + authority + "/" + path + " " + version + CRLF + lines + CRLF
      == "GET http://" + (authority + ['/'] + ((path + " " + version) + ['\r'] + ("\n" + lines + CRLF)))
  {
  }

  lemma RewriteRendered(g: Get)
    requires GoodGet(g)
    ensures Rewrite(Render(g))
      == RewriteParts("GET", Authority(g), g.path + " " + g.version, "\n" + Lines(g.headers) + CRLF)
  {
    var target, headers := g.path + " " + g.version, "\n" + Lines(g.headers) + CRLF;
    AuthorityFree(g);
    TargetIs(g);
    RenderShape(Authority(g), g.path, g.version, Lines(g.headers));
    HttpGet(Authority(g) + ['/'] + (target + ['\r'] + headers));
    TargetTokens("GET", Authority(g), target, headers);
  }

  /** The rewritten request of a well-formed request keeps the path and the headers that are not
      dropped, and gets the proxy's own headers and a blank line. */
  lemma RewriteIsForwarded(g: Get)
    requires GoodGet(g) && Free(g.host, ":")
    ensures Rewrite(Render(g)) == Some(Rewritten(g.host, g.port, Forwarded(g)))
  {
    RewriteRendered(g);
    PartsAreForwarded(g);
  }

  lemma AuthorityFree(g: Get)
    requires GoodGet(g)
    ensures Authority(g) != "" && Free(Authority(g), "/") && Free(Authority(g), CRLF)
  {
    assert Free(g.host, "/") && Free(g.host, CRLF) && Free(":", "/") && Free(":", CRLF);
    if g.port.Some? {
      assert Free(g.port.value, "/") && Free(g.port.value, CRLF);
    }
  }

  lemma AuthorityIs(g: Get)
    requires GoodGet(g) && Free(g.host, ":")
    ensures var a := Authority(g);
      && a != "" && Free(a, "/")
      && Span(a, ":") == |g.host| && a[..|g.host|] == g.host
      && if g.port.Some? then |a| > |g.host| && a[|g.host| + 1..] == g.port.value else a == g.host
  {
    AuthorityFree(g);
    if g.port.Some? {
      SpanIs(g.host, ':', g.port.value, ":");
      assert Authority(g) == g.host + [':'] + g.port.value;
    }
  }

  lemma TargetIs(g: Get)
    requires GoodGet(g)
    ensures var t := g.path + " " + g.version;
      t != "" && Free(t, CRLF) && Span(t, " ") == |g.path| < |t| && t[..|g.path|] == g.path
  {
    assert Free(g.path, " ");
    SpanIs(g.path, ' ', g.version, " ");
  }

  lemma PartsAreForwarded(g: Get)
    requires GoodGet(g) && Free(g.host, ":")
    ensures RewriteParts("GET", Authority(g), g.path + " " + g.version, "\n" + Lines(g.headers) + CRLF)
      == Some(Rewritten(g.host, g.port, Forwarded(g)))
  {
    AuthorityIs(g);
    TargetIs(g);
    ScanLines(g.headers);
    OwnIsHeaders();
    var kept, own := Lines(Kept(g.headers)), OwnHeaders();
    var host := if HasHost(g.headers) then "" else g.host + CRLF;
    SameRequest(g.path, kept, host, own);
  }

  lemma SameRequest(path: string, kept: string, host: string, own: string)
    ensures "GET" + " /" + path + " " + "HTTP/1.0\r\n" + kept + host + own + CRLF
      == "GET /" + path + " HTTP/1.0\r\n" + kept + host + own + CRLF
  {
    assert "GET" + " /" == "GET /" && " " + "HTTP/1.0\r\n" == " HTTP/1.0\r\n";
    assert "GET /" + path + " " + "HTTP/1.0\r\n" == "GET /" + path + (" " + "HTTP/1.0\r\n");
  }

  // ----- other methods and schemes

  /** The request with another method and another scheme. */
  function RenderBy(g: Get, verb: string, scheme: string): string {
    verb + " " + scheme + "//" + Authority(g) + "/" + g.path + " " + g.version + CRLF + Lines(g.headers) + CRLF
  }

  lemma RenderByShape(verb: string, scheme: string, authority: string, path: string, version: string, lines: string)
    ensures verb + " " + scheme + "//" + authority + "/" + path + " " + version + CRLF + lines + CRLF
      == verb + [' '] + (scheme + ['/'] + ("/" + (authority + ['/']
        + ((path + " " + version) + ['\r'] + ("\n" + lines + CRLF)))))
  {
    assert "//" == ['/'] + "/";
  }

  lemma FrontApart(verb: string, a: string, b: string, c: string, d: string, e: string)
    ensures verb + a + b + c + d + e == verb + (a + b + c + d + e)
  {
  }

  lemma AssembleRest(verb: string, path: string, host: string, scan: Scan) returns (rest: string)
    ensures rest == AfterVerb(path, host, scan) && Assemble(verb, path, host, scan) == verb + rest
  {
    var line := " /" + path + " " + "HTTP/1.0\r\n";
    var bare := if scan.hasHost then "" else host + CRLF;
    var own := OwnHeaders();
    rest := AfterVerb(path, host, scan);
    FrontApart(verb, " /", path, " ", "HTTP/1.0\r\n", "");
    assert verb + line == verb + " /" + path + " " + "HTTP/1.0\r\n";
    FrontApart(verb, line, scan.lines, bare, own, CRLF);
  }

  function AfterVerb(path: string, host: string, scan: Scan): string {
    (" /" + path + " " + "HTTP/1.0\r\n") + scan.lines + (if scan.hasHost then "" else host + CRLF)
    + OwnHeaders() + CRLF
  }

  lemma AssembleBy(verb: string, path: string, host: string, scan: Scan)
    ensures var get := Assemble("GET", path, host, scan);
      |get| >= 3 && Assemble(verb, path, host, scan) == verb + get[3..]
  {
    var rest := AssembleRest("GET", path, host, scan);
    var same := AssembleRest(verb, path, host, scan);
    assert ("GET" + rest)[3..] == rest;
  }

  /** Any method and any scheme are let through: a request that is a GET of http but for them is
      forwarded as that GET is, with its own method. */
  lemma AnyMethod(g: Get, verb: string, scheme: string)
    requires GoodGet(g) && Free(g.host, ":")
    requires verb != "" && Free(verb, " ") && scheme != "" && Free(scheme, "/")
    ensures |Forwarded(g)| >= 3
    ensures Rewrite(RenderBy(g, verb, scheme)) == Some(Rewritten(g.host, g.port, verb + Forwarded(g)[3..]))
  {
    var target, headers := g.path + " " + g.version, "\n" + Lines(g.headers) + CRLF;
    AuthorityFree(g);
    TargetIs(g);
    RenderByShape(verb, scheme, Authority(g), g.path, g.version, Lines(g.headers));
    TwoTokens(verb, scheme, "/" + (Authority(g) + ['/'] + (target + ['\r'] + headers)));
    TargetTokens(verb, Authority(g), target, headers);
    PartsAreForwarded(g);
    ScanLines(g.headers);
    AuthorityIs(g);
    AssembleBy(verb, g.path, g.host, ScanHeaders(headers).value);
  }

  // ----- what follows the authority

  /** What may follow the authority without a slash by section 2.7 of RFC 7230: nothing or a query. */
  predicate NothingOrQuery(path: string) { path == "" || path[0] == '?' }

  /** The request with a slash and the rest of the target after the authority, or without that slash. */
  function RenderAs(g: Get, slash: bool): string {
    if slash then Render(g)
    else "GET http://" + Authority(g) + g.path + " " + g.version + CRLF + Lines(g.headers) + CRLF
  }

  lemma SpanAtLeast(s: string, n: nat, d: string)
    requires n <= |s| && Free(s[..n], d)
    ensures Span(s, d) >= n
  {
    assert forall i :: 0 <= i < n ==> s[i] == s[..n][i];
  }

  lemma SpanAtMost(s: string, i: nat, d: string)
    requires i < |s| && s[i] in d
    ensures Span(s, d) <= i
  {
  }

  /** A host with a colon is cut at it. */
  lemma CutAtColon(g: Get, authority: string, target: string, headers: string)
    requires GoodGet(g) && |authority| >= |Authority(g)| && authority[..|Authority(g)|] == Authority(g)
    requires !Free(g.host, ":")
    ensures var r := RewriteParts("GET", authority, target, headers);
      r.Some? ==> r.value.host != g.host
  {
    var i :| 0 <= i < |g.host| && g.host[i] in ":";
    assert authority[i] == authority[..|Authority(g)|][i] == g.host[i];
    SpanAtMost(authority, i, ":");
  }

  /** An authority that has run on past the right one gives another host or another port. */
  lemma RunsOn(g: Get, authority: string, target: string, headers: string)
    requires GoodGet(g) && |authority| > |Authority(g)| && authority[..|Authority(g)|] == Authority(g)
    requires authority[|Authority(g)|] != ':'
    ensures var r := RewriteParts("GET", authority, target, headers);
      r.Some? ==> r.value.host != g.host || r.value.port != g.port
  {
    var n := |g.host|;
    if !Free(g.host, ":") {
      CutAtColon(g, authority, target, headers);
    } else {
      assert authority[..n] == Authority(g)[..n] == g.host;
      SpanAtLeast(authority, n, ":");
      if g.port.Some? {
        assert authority[n] == Authority(g)[n] == ':';
        assert |authority[n + 1..]| > |g.port.value|;
      } else {
        assert authority[n] != ':';
      }
    }
  }

  /** The token that starts with a text free of slashes goes at least to the end of that text. */
  lemma LongToken(text: string, rest: string)
    requires text != "" && Free(text, "/")
    ensures var token := NextToken("/" + (text + rest), "/");
      token.Some? && |token.value.text| >= |text| && token.value.text[..|text|] == text
  {
    var tail := text + rest;
    assert tail[0] == text[0];
    SkipIs("/", tail, "/");
    assert tail[..|text|] == text;
    SpanAtLeast(tail, |text|, "/");
    assert tail[..Span(tail, "/")][..|text|] == tail[..|text|];
  }

  lemma WithoutSlash(g: Get, c: char, rest: string)
    requires GoodGet(g) && (c == ' ' || c == '?')
    ensures var r := RewriteTarget("GET", "/" + ((Authority(g) + [c]) + rest));
      r.Some? ==> r.value.host != g.host || r.value.port != g.port
  {
    var a := Authority(g);
    AuthorityFree(g);
    assert Free([c], "/");
    FreeConcat(a, [c], "/");
    LongToken(a + [c], rest);
    var token := NextToken("/" + ((a + [c]) + rest), "/").value;
    assert token.text[..|a|] == token.text[..|a| + 1][..|a|] == a;
    assert token.text[|a|] == token.text[..|a| + 1][|a|] == c;
    var target := NextToken(token.rest, CRLF);
    if target.Some? {
      RunsOn(g, token.text, target.value.text, target.value.rest);
    }
  }

  /** The request without the slash, from the first character after the authority on. */
  lemma BareShape(g: Get) returns (c: char, rest: string)
    requires GoodGet(g) && NothingOrQuery(g.path)
    ensures (c == ' ' || c == '?') && RenderAs(g, false) == "GET http://" + ((Authority(g) + [c]) + rest)
  {
    var more := g.version + CRLF + Lines(g.headers) + CRLF;
    if g.path == "" {
      c, rest := ' ', more;
      assert Authority(g) + "" == Authority(g);
    } else {
      c, rest := '?', g.path[1..] + " " + more;
      assert g.path == ['?'] + g.path[1..];
    }
  }

  /** A request in absolute form is rewritten as it should be exactly when a slash follows the authority
      and the host has no colon in it; otherwise host or port come out wrong or parse follows a null
      pointer. */
  lemma RewriteRightExactly(g: Get, slash: bool)
    requires GoodGet(g) && (slash || NothingOrQuery(g.path))
    ensures Rewrite(RenderAs(g, slash)) == Some(Rewritten(g.host, g.port, Forwarded(g)))
      <==> slash && ':' !in g.host
  {
    if !slash {
      var c, rest := BareShape(g);
      HttpGet((Authority(g) + [c]) + rest);
      WithoutSlash(g, c, rest);
    } else if Free(g.host, ":") {
      RewriteIsForwarded(g);
    } else {
      RewriteRendered(g);
      var target, headers := g.path + " " + g.version, "\n" + Lines(g.headers) + CRLF;
      assert Authority(g)[..|Authority(g)|] == Authority(g);
      CutAtColon(g, Authority(g), target, headers);
    }
  }

  /** A version as section 2.6 of RFC 7230 has it: a name, a slash, a number. */
  predicate IsVersion(version: string, name: string, number: string) {
    version == name + "/" + number && Free(name, "/\r\n") && number != "" && Free(number, " \r\n")
  }

  /** With a space in the target and a colon in every header line, parse goes through. */
  lemma PartsGoThrough(authority: string, target: string, g: Get)
    requires GoodGet(g) && ' ' in target
    ensures RewriteParts("GET", authority, target, "\n" + Lines(g.headers) + CRLF).Some?
  {
    ScanLines(g.headers);
    var i :| 0 <= i < |target| && target[i] == ' ';
    SpanAtMost(target, i, " ");
  }

  /** The first slash of the request without the slash is in the path, */
  lemma SlashInPath(g: Get, first: string, second: string)
    requires GoodGet(g) && g.path == first + "/" + second && Free(first, "/")
    ensures Rewrite(RenderAs(g, false)).Some?
  {
    var authority, target := Authority(g) + first, second + " " + g.version;
    var headers := "\n" + Lines(g.headers) + CRLF;
    assert RenderAs(g, false) == "GET http://" + (authority + ['/'] + (target + ['\r'] + headers));
    AuthorityFree(g);
    FreeConcat(Authority(g), first, "/");
    assert forall i :: 0 <= i < |second| ==> second[i] == g.path[|first| + 1 + i];
    assert Free(second, CRLF) && Free(" ", CRLF);
    FreeConcat(second, " ", CRLF);
    FreeConcat(second + " ", g.version, CRLF);
    HttpGet(authority + ['/'] + (target + ['\r'] + headers));
    TargetTokens("GET", authority, target, headers);
    assert target[|second|] == ' ';
    PartsGoThrough(authority, target, g);
  }

  /** or in the version. */
  lemma SlashInVersion(g: Get, name: string, number: string)
    requires GoodGet(g) && IsVersion(g.version, name, number) && Free(g.path, "/")
    ensures Rewrite(RenderAs(g, false)).None?
  {
    var authority, headers := Authority(g) + g.path + " " + name, "\n" + Lines(g.headers) + CRLF;
    assert RenderAs(g, false) == "GET http://" + (authority + ['/'] + (number + ['\r'] + headers));
    AuthorityFree(g);
    assert Free(" ", "/") && Free(name, "/") && Free(number, CRLF) && Free(number, " ");
    FreeConcat(Authority(g), g.path, "/");
    FreeConcat(Authority(g) + g.path, " ", "/");
    FreeConcat(Authority(g) + g.path + " ", name, "/");
    HttpGet(authority + ['/'] + (number + ['\r'] + headers));
    TargetTokens("GET", authority, number, headers);
  }

  /** Whatever the version is called, parse follows a null pointer exactly when there is no slash after
      the authority, nor any in a query there. */
  lemma NoSlashFailsExactly(g: Get, slash: bool, name: string, number: string)
    requires GoodGet(g) && IsVersion(g.version, name, number) && (slash || NothingOrQuery(g.path))
    ensures Rewrite(RenderAs(g, slash)).Some? <==> slash || '/' in g.path
  {
    if slash {
      RewriteRendered(g);
      assert (g.path + " " + g.version)[|g.path|] == ' ';
      PartsGoThrough(Authority(g), g.path + " " + g.version, g);
    } else if '/' in g.path {
      var n := Span(g.path, "/");
      var i :| 0 <= i < |g.path| && g.path[i] == '/';
      SpanAtMost(g.path, i, "/");
      assert g.path == g.path[..n] + "/" + g.path[n + 1..];
      SlashInPath(g, g.path[..n], g.path[n + 1..]);
    } else {
      SlashInVersion(g, name, number);
    }
  }

  // ----- where a request ends

  /** A line end, and the start of another, as strstr looks for them. */
  predicate IsBlankLine(s: string, i: nat) {
    i + 4 <= |s| && s[i] == '\r' && s[i + 1] == '\n' && s[i + 2] == '\r' && s[i + 3] == '\n'
  }

  predicate BlankLine(s: string) {
    exists i :: 0 <= i <= |s| - 4 && IsBlankLine(s, i)
  }

  /** A text has a blank line exactly when the four characters stand somewhere in it, at its very start
      or end as well. */
  lemma BlankLineExactly(s: string)
    ensures BlankLine(s) <==> exists a, b :: s == a + "\r\n\r\n" + b
  {
    if BlankLine(s) {
      var i :| 0 <= i <= |s| - 4 && IsBlankLine(s, i);
      assert s[i..i + 4] == "\r\n\r\n";
      assert s == s[..i] + "\r\n\r\n" + s[i + 4..];
    }
    forall a, b | s == a + "\r\n\r\n" + b ensures BlankLine(s) {
      assert s[|a|..|a| + 4] == "\r\n\r\n";
      assert IsBlankLine(s, |a|);
    }
  }

  /** No line is empty. */
  predicate NoGap(s: string) {
    forall i :: 0 <= i < |s| - 1 && s[i] == '\n' ==> s[i + 1] != '\r'
  }

  lemma NoGapConcat(a: string, b: string)
    requires NoGap(a) && NoGap(b) && (b != "" ==> b[0] != '\r')
    ensures NoGap(a + b)
  {
  }

  lemma NoGapLine(line: string)
    requires Free(line, CRLF) && line != ""
    ensures NoGap(line + CRLF) && (line + CRLF)[0] != '\r'
  {
  }

  lemma {:induction false} NoGapLines(hs: seq<Header>)
    requires forall i :: 0 <= i < |hs| ==> GoodHeader(hs[i])
    ensures NoGap(Lines(hs)) && (Lines(hs) != "" ==> Lines(hs)[0] != '\r')
    ensures hs != [] ==> |Lines(hs)| >= 2 && Lines(hs)[|Lines(hs)| - 2..] == CRLF
  {
    if hs != [] {
      assert GoodHeader(hs[0]);
      LineIs(hs[0]);
      NoGapLine(Line(hs[0]));
      NoGapLines(hs[1..]);
      NoGapConcat(Line(hs[0]) + CRLF, Lines(hs[1..]));
    }
  }

  lemma FirstLine(g: Get)
    requires GoodGet(g)
    ensures var first := "GET http://" + Authority(g) + "/" + g.path + " " + g.version;
      first != "" && Free(first, CRLF)
  {
    var start, slash, space := "GET http://", "/", " ";
    assert Free(start, CRLF) && Free(slash, CRLF) && Free(space, CRLF) && Free(g.path, CRLF);
    AuthorityFree(g);
    FreeConcat(start, Authority(g), CRLF);
    FreeConcat(start + Authority(g), slash, CRLF);
    FreeConcat(start + Authority(g) + slash, g.path, CRLF);
    FreeConcat(start + Authority(g) + slash + g.path, space, CRLF);
    FreeConcat(start + Authority(g) + slash + g.path + space, g.version, CRLF);
  }

  lemma GapOnlyAtEnd(s: string, n: nat)
    requires NoGap(s) && n <= |s| + 2 && BlankLine((s + CRLF)[..n])
    ensures n == |s| + 2
  {
    var t := (s + CRLF)[..n];
    var i :| 0 <= i <= |t| - 4 && IsBlankLine(t, i);
    assert t[i + 1] == (s + CRLF)[i + 1] && t[i + 2] == (s + CRLF)[i + 2] && t[i + 3] == (s + CRLF)[i + 3];
  }

  /** A request ends where its blank line is: no shorter part of it has one. */
  lemma EndsAtBlankLine(g: Get, n: nat)
    requires GoodGet(g) && n <= |Render(g)|
    ensures BlankLine(Render(g)[..n]) <==> n == |Render(g)|
  {
    var first := "GET http://" + Authority(g) + "/" + g.path + " " + g.version;
    FirstLine(g);
    NoGapLine(first);
    NoGapLines(g.headers);
    var body := first + CRLF + Lines(g.headers);
    NoGapConcat(first + CRLF, Lines(g.headers));
    assert Render(g) == body + CRLF;
    if BlankLine(Render(g)[..n]) {
      GapOnlyAtEnd(body, n);
    }
    assert body[|body| - 2..] == CRLF;
    assert IsBlankLine(Render(g), |body| - 2);
    assert Render(g)[..|Render(g)|] == Render(g);
  }

  // ----- what the server reads

  /** The lines of a message, as a reader that skips line ends sees them. */
  function SplitLines(s: string): seq<string>
    decreases |s|
  {
    match NextToken(s, CRLF)
    case None => []
    case Some(token) => [token.text] + SplitLines(token.rest)
  }

  function LineTexts(hs: seq<Header>): seq<string> {
    if hs == [] then [] else [Line(hs[0])] + LineTexts(hs[1..])
  }

  predicate HasColon(line: string) { Span(line, ":") < |line| }

  predicate AllHaveColon(lines: seq<string>) {
    forall i :: 0 <= i < |lines| ==> HasColon(lines[i])
  }

  lemma HasColonExactly(line: string)
    ensures HasColon(line) <==> ':' in line
  {
  }

  lemma AllHaveColonCons(line: string, lines: seq<string>)
    ensures AllHaveColon([line] + lines) <==> HasColon(line) && AllHaveColon(lines)
  {
    var all := [line] + lines;
    assert all[0] == line;
    assert forall i :: 0 <= i < |lines| ==> all[i + 1] == lines[i];
  }

  /** The loop over the headers goes through exactly when every line has a colon. */
  lemma {:induction false} ScanExactly(s: string)
    ensures ScanHeaders(s).Some? <==> AllHaveColon(SplitLines(s))
    decreases |s|
  {
    var token := NextToken(s, CRLF);
    if token.Some? {
      AllHaveColonCons(token.value.text, SplitLines(token.value.rest));
      ScanExactly(token.value.rest);
    }
  }

  /** With a good request line, parse succeeds on any headers exactly when each of their lines has a
      colon. */
  lemma HeadersDecideExactly(g: Get, headers: string)
    requires GoodGet(g)
    ensures Rewrite("GET http://" + (Authority(g) + ['/'] + ((g.path + " " + g.version) + ['\r'] + headers))).Some?
      <==> forall i :: 0 <= i < |SplitLines(headers)| ==> ':' in SplitLines(headers)[i]
  {
    var target, lines := g.path + " " + g.version, SplitLines(headers);
    HttpGet(Authority(g) + ['/'] + (target + ['\r'] + headers));
    AuthorityFree(g);
    TargetIs(g);
    TargetTokens("GET", Authority(g), target, headers);
    ScanExactly(headers);
    forall i | 0 <= i < |lines| ensures HasColon(lines[i]) <==> ':' in lines[i] {
      HasColonExactly(lines[i]);
    }
  }

  lemma SplitOne(before: string, line: string, rest: string)
    requires Only(before, CRLF) && line != "" && Free(line, CRLF)
    ensures SplitLines(before + (line + CRLF + rest)) == [line] + SplitLines("\n" + rest)
  {
    assert line + CRLF + rest == line + ['\r'] + ("\n" + rest);
    TokenIs(before, line, '\r', "\n" + rest, CRLF);
  }

  lemma RestLast(line: string, lines: string, rest: string)
    ensures (line + CRLF + lines) + rest == line + CRLF + (lines + rest)
  {
  }

  lemma SplitHeader(h: Header, lines: string, rest: string)
    requires GoodHeader(h)
    ensures SplitLines("\n" + ((Line(h) + CRLF + lines) + rest)) == [Line(h)] + SplitLines("\n" + (lines + rest))
  {
    LineIs(h);
    RestLast(Line(h), lines, rest);
    SplitOne("\n", Line(h), lines + rest);
  }

  lemma FirstApart(line: string, lines: seq<string>, rest: seq<string>)
    ensures [line] + (lines + rest) == ([line] + lines) + rest
  {
  }

  lemma {:induction false} SplitHeaders(hs: seq<Header>, rest: string)
    requires forall i :: 0 <= i < |hs| ==> GoodHeader(hs[i])
    ensures SplitLines("\n" + (Lines(hs) + rest)) == LineTexts(hs) + SplitLines("\n" + rest)
  {
    if hs == [] {
      assert Lines(hs) + rest == rest;
    } else {
      assert GoodHeader(hs[0]);
      SplitHeader(hs[0], Lines(hs[1..]), rest);
      SplitHeaders(hs[1..], rest);
      FirstApart(Line(hs[0]), LineTexts(hs[1..]), SplitLines("\n" + rest));
    }
  }

  lemma {:induction false} KeptGood(hs: seq<Header>)
    requires forall i :: 0 <= i < |hs| ==> GoodHeader(hs[i])
    ensures forall i :: 0 <= i < |Kept(hs)| ==> GoodHeader(Kept(hs)[i])
  {
    if hs != [] {
      KeptGood(hs[1..]);
    }
  }

  lemma OwnGood()
    ensures forall i :: 0 <= i < |Own()| ==> GoodHeader(Own()[i])
  {
    AgentFree();
  }

  lemma FreeConcat(s: string, t: string, d: string)
    requires Free(s, d) && Free(t, d)
    ensures Free(s + t, d)
  {
  }

  lemma AgentFree()
    ensures Free(Agent(), "\r\n")
  {
    var a, b, c, d, e := " Mozilla/5.0", " (X11; Linux x86", "_64; rv:10.0.3)", " Gecko/20120305 ", "Firefox/10.0.3";
    FreeConcat(a, b, CRLF);
    FreeConcat(a + b, c, CRLF);
    FreeConcat(a + b + c, d, CRLF);
    FreeConcat(a + b + c + d, e, CRLF);
  }

  function HostLine(host: string): string { if host == "" then "" else host + CRLF }

  lemma SplitHostLine(host: string, rest: string)
    requires Free(host, CRLF)
    ensures SplitLines("\n" + (HostLine(host) + rest))
      == (if host == "" then [] else [host]) + SplitLines("\n" + rest)
  {
    if host == "" {
      assert HostLine(host) + rest == rest;
    } else {
      SplitOne("\n", host, rest);
    }
  }

  lemma SplitEnd()
    ensures SplitLines("\n" + CRLF) == []
  {
    NoToken("\n" + CRLF, CRLF);
  }

  lemma Associate(a: string, b: string, c: string, d: string, e: string)
    ensures a + b + c + d + e == "" + (a + (b + (c + (d + e))))
  {
  }

  lemma SplitForwarded(first: string, kept: seq<Header>, host: string, own: seq<Header>)
    requires first != "" && Free(first, CRLF) && Free(host, CRLF)
    requires forall i :: 0 <= i < |kept| ==> GoodHeader(kept[i])
    requires forall i :: 0 <= i < |own| ==> GoodHeader(own[i])
    ensures SplitLines(first + CRLF + Lines(kept) + HostLine(host) + Lines(own) + CRLF)
      == [first] + (LineTexts(kept) + ((if host == "" then [] else [host]) + LineTexts(own)))
  {
    var r2 := Lines(own) + CRLF;
    var r1 := HostLine(host) + r2;
    var r0 := Lines(kept) + r1;
    Associate(first + CRLF, Lines(kept), HostLine(host), Lines(own), CRLF);
    SplitOne("", first, r0);
    SplitHeaders(kept, r1);
    SplitHostLine(host, r2);
    SplitHeaders(own, CRLF);
    SplitEnd();
    assert LineTexts(own) + [] == LineTexts(own);
  }

  /** The server reads the request line, the kept headers, then the bare host if there was no Host
      header, and the proxy's own headers. */
  lemma ForwardedLines(g: Get)
    requires GoodGet(g)
    ensures var bare := if HasHost(g.headers) then [] else [g.host];
      SplitLines(Forwarded(g))
      == ["GET /" + g.path + " HTTP/1.0"] + (LineTexts(Kept(g.headers)) + (bare + LineTexts(Own())))
  {
    var first, host := "GET /" + g.path + " HTTP/1.0", if HasHost(g.headers) then "" else g.host;
    assert Free(host, CRLF);
    KeptGood(g.headers);
    OwnGood();
    RequestLine(g.path);
    SplitForwarded(first, Kept(g.headers), host, Own());
  }

  lemma RequestLine(path: string)
    requires Free(path, " \r\n")
    ensures var first := "GET /" + path + " HTTP/1.0";
      first != "" && Free(first, CRLF) && first + CRLF == "GET /" + path + " HTTP/1.0\r\n"
  {
    var a, b := "GET /", " HTTP/1.0";
    assert Free(a, CRLF) && Free(path, CRLF) && Free(b, CRLF);
    FreeConcat(a, path, CRLF);
    FreeConcat(a + path, b, CRLF);
    assert " HTTP/1.0\r\n" == b + CRLF;
  }

  /** The message ends with a blank line. */
  lemma EndsWithBlankLine(g: Get)
    ensures |Forwarded(g)| >= 4 && Forwarded(g)[|Forwarded(g)| - 4..] == "\r\n\r\n"
  {
    OwnIsHeaders();
    var own := OwnHeaders();
    assert own[|own| - 2..] == CRLF;
    assert Forwarded(g)[..|Forwarded(g)| - 2][|Forwarded(g)| - 2 - |own|..] == own;
  }

  // ----- no character is made up

  lemma {:induction false} SkipFree(s: string, d: string, z: string)
    requires Free(s, z)
    ensures Free(Skip(s, d), z)
  {
    if s != "" && s[0] in d {
      SkipFree(s[1..], d, z);
    }
  }

  lemma TokenFree(s: string, d: string, z: string)
    requires Free(s, z) && NextToken(s, d).Some?
    ensures Free(NextToken(s, d).value.text, z) && Free(NextToken(s, d).value.rest, z)
  {
    SkipFree(s, d, z);
  }

  lemma {:induction false} ScanFree(s: string)
    requires Free(s, "\0") && ScanHeaders(s).Some?
    ensures Free(ScanHeaders(s).value.lines, "\0")
    decreases |s|
  {
    var token := NextToken(s, CRLF);
    ScanOne(s);
    if token.Some? {
      TokenFree(s, CRLF, "\0");
      ScanFree(token.value.rest);
      FreeConcat(token.value.text, CRLF, "\0");
      FreeConcat(token.value.text + CRLF, ScanHeaders(token.value.rest).value.lines, "\0");
    }
  }

  lemma OwnFree()
    ensures Free(OwnHeaders(), "\0")
  {
    var agent, name, close, proxy := Agent(), "User-Agent:", "Connection: close", "Proxy-Connection: close";
    AgentPlain();
    FreeConcat(name, agent, "\0");
    FreeConcat(name + agent, CRLF, "\0");
    FreeConcat(close, CRLF, "\0");
    FreeConcat(proxy, CRLF, "\0");
    FreeConcat(close + CRLF, proxy + CRLF, "\0");
    FreeConcat(name + agent + CRLF, (close + CRLF) + (proxy + CRLF), "\0");
    assert OwnHeaders() == name + agent + CRLF + ((close + CRLF) + (proxy + CRLF));
  }

  lemma AgentPlain()
    ensures Free(Agent(), "\0")
  {
    var a, b, c, d, e := " Mozilla/5.0", " (X11; Linux x86", "_64; rv:10.0.3)", " Gecko/20120305 ", "Firefox/10.0.3";
    FreeConcat(a, b, "\0");
    FreeConcat(a + b, c, "\0");
    FreeConcat(a + b + c, d, "\0");
    FreeConcat(a + b + c + d, e, "\0");
  }

  lemma AssembleFree(verb: string, path: string, host: string, scan: Scan)
    requires Free(verb, "\0") && Free(path, "\0") && Free(host, "\0") && Free(scan.lines, "\0")
    ensures Free(Assemble(verb, path, host, scan), "\0")
  {
    var slash, space, version := " /", " ", "HTTP/1.0\r\n";
    var bare := if scan.hasHost then "" else host + CRLF;
    OwnFree();
    FreeConcat(host, CRLF, "\0");
    FreeConcat(verb, slash, "\0");
    FreeConcat(verb + slash, path, "\0");
    FreeConcat(verb + slash + path, space, "\0");
    FreeConcat(verb + slash + path + space, version, "\0");
    FreeConcat(verb + slash + path + space + version, scan.lines, "\0");
    FreeConcat(verb + slash + path + space + version + scan.lines, bare, "\0");
    FreeConcat(verb + slash + path + space + version + scan.lines + bare, OwnHeaders(), "\0");
    FreeConcat(verb + slash + path + space + version + scan.lines + bare + OwnHeaders(), CRLF, "\0");
  }

  lemma PartsFree(verb: string, authority: string, target: string, headers: string)
    requires Free(verb, "\0") && Free(authority, "\0") && Free(target, "\0") && Free(headers, "\0")
    requires RewriteParts(verb, authority, target, headers).Some?
    ensures Free(RewriteParts(verb, authority, target, headers).value.request, "\0")
  {
    var host, path := authority[..Span(authority, ":")], target[..Span(target, " ")];
    ScanFree(headers);
    AssembleFree(verb, path, host, ScanHeaders(headers).value);
  }

  /** A request without a NUL is rewritten into one without, so that strlen measures all of it. */
  lemma RewriteFree(original: string)
    requires Free(original, "\0") && Rewrite(original).Some?
    ensures Free(Rewrite(original).value.request, "\0")
  {
    var verb := NextToken(original, " ").value;
    TokenFree(original, " ", "\0");
    var scheme := NextToken(verb.rest, "/").value;
    TokenFree(verb.rest, "/", "\0");
    var authority := NextToken(scheme.rest, "/").value;
    TokenFree(scheme.rest, "/", "\0");
    var target := NextToken(authority.rest, CRLF).value;
    TokenFree(authority.rest, CRLF, "\0");
    PartsFree(verb.text, authority.text, target.text, target.rest);
  }

  // ----- which headers there are

  /** The names of the headers that the proxy writes itself. */
  predicate OwnName(name: string) {
    exists i :: 0 <= i < |Own()| && Own()[i].name == name
  }

  /** What is dropped is what the proxy writes itself. */
  lemma DroppedExactly(name: string)
    ensures Dropped(name) <==> OwnName(name)
  {
    var own := Own();
    assert own[0].name == "User-Agent" && own[1].name == "Connection" && own[2].name == "Proxy-Connection";
  }

  /** What happens to each header of the client: as often as before, or not at all when the proxy
      writes one of that name. */
  lemma {:induction false} KeptExactly(hs: seq<Header>, h: Header)
    ensures multiset(Kept(hs))[h] == if OwnName(h.name) then 0 else multiset(hs)[h]
  {
    DroppedExactly(h.name);
    if hs != [] {
      KeptExactly(hs[1..], h);
      assert hs == [hs[0]] + hs[1..];
    }
  }

  lemma {:induction false} KeptInOrder(a: seq<Header>, b: seq<Header>)
    ensures Kept(a + b) == Kept(a) + Kept(b)
  {
    if a == [] {
      assert a + b == b;
    } else {
      assert (a + b)[1..] == a[1..] + b;
      KeptInOrder(a[1..], b);
    }
  }

  function LowerChar(c: char): char {
    if 'A' <= c <= 'Z' then ((c as int) + 32) as char else c
  }

  function Lower(s: string): string {
    seq(|s|, i requires 0 <= i < |s| => LowerChar(s[i]))
  }

  /** How many headers have a name, however it is written: case does not matter in a field name
      (section 3.2 of RFC 7230). */
  function Count(hs: seq<Header>, name: string): nat {
    if hs == [] then 0 else (if Lower(hs[0].name) == Lower(name) then 1 else 0) + Count(hs[1..], name)
  }

  lemma {:induction false} CountConcat(a: seq<Header>, b: seq<Header>, name: string)
    ensures Count(a + b, name) == Count(a, name) + Count(b, name)
  {
    if a == [] {
      assert a + b == b;
    } else {
      assert (a + b)[1..] == a[1..] + b;
      CountConcat(a[1..], b, name);
    }
  }

  /** No client header has this name written in another case. */
  predicate UsualCase(hs: seq<Header>, name: string) {
    forall i :: 0 <= i < |hs| && Lower(hs[i].name) == Lower(name) ==> hs[i].name == name
  }

  lemma UsualCaseCons(h: Header, hs: seq<Header>, name: string)
    ensures UsualCase([h] + hs, name)
      <==> (Lower(h.name) == Lower(name) ==> h.name == name) && UsualCase(hs, name)
  {
    var all := [h] + hs;
    assert all[0] == h;
    assert forall i :: 0 <= i < |hs| ==> all[i + 1] == hs[i];
  }

  lemma DifferentNames()
    ensures Lower("Connection") != Lower("Proxy-Connection")
    ensures Lower("Connection") != Lower("User-Agent")
    ensures Lower("User-Agent") != Lower("Proxy-Connection")
  {
    assert Lower("Connection")[0] == 'c' && Lower("Proxy-Connection")[0] == 'p';
    assert Lower("User-Agent")[0] == 'u';
  }

  lemma {:induction false} KeptCount(hs: seq<Header>, name: string)
    requires Dropped(name)
    ensures Count(Kept(hs), name) == 0 <==> UsualCase(hs, name)
  {
    if hs != [] {
      var h, rest := hs[0], hs[1..];
      KeptCount(rest, name);
      assert hs == [h] + rest;
      UsualCaseCons(h, rest, name);
      DifferentNames();
      if !Dropped(h.name) {
        assert ([h] + Kept(rest))[1..] == Kept(rest);
      }
    }
  }

  /** The outgoing request carries exactly one header of each of the proxy's own names exactly when
      the client wrote that name, if at all, in the case that the proxy compares with. */
  lemma OneOfEachExactly(g: Get, name: string)
    requires OwnName(name)
    ensures Count(Kept(g.headers) + Own(), name) == 1 <==> UsualCase(g.headers, name)
  {
    DroppedExactly(name);
    CountConcat(Kept(g.headers), Own(), name);
    KeptCount(g.headers, name);
    OwnCount(name);
  }

  lemma OwnCount(name: string)
    requires Dropped(name)
    ensures Count(Own(), name) == 1
  {
    DifferentNames();
    var own := Own();
    assert own[1..] == [own[1], own[2]] && own[1..][1..] == [own[2]] && own[1..][1..][1..] == [];
    assert Count([own[2]], name) == if Lower(own[2].name) == Lower(name) then 1 else 0;
  }

  // ----- the method

  /** The headers read so far, and what the rest will give. */
  ghost function After(lines: string, hasHost: bool, rest: Option<Scan>): Option<Scan> {
    match rest
    case None => None
    case Some(scan) => Some(Scan(lines + scan.lines, hasHost || scan.hasHost))
  }

  lemma AfterNone(rest: Option<Scan>)
    ensures After("", false, rest) == rest
  {
    if rest.Some? {
      assert "" + rest.value.lines == rest.value.lines;
    }
  }

  lemma AfterOne(lines: string, hasHost: bool, line: string, isHost: bool, rest: Option<Scan>)
    ensures After(lines, hasHost, After(line, isHost, rest)) == After(lines + line, hasHost || isHost, rest)
  {
    if rest.Some? {
      assert lines + (line + rest.value.lines) == (lines + line) + rest.value.lines;
    }
  }

  lemma ScanOne(s: string)
    ensures match NextToken(s, CRLF)
      case None => ScanHeaders(s) == Some(Scan("", false))
      case Some(token) =>
        var colon := Span(token.text, ":");
        if colon == |token.text| then ScanHeaders(s) == None
        else if Dropped(token.text[..colon]) then ScanHeaders(s) == ScanHeaders(token.rest)
        else ScanHeaders(s) == After(token.text + CRLF, token.text[..colon] == "Host", ScanHeaders(token.rest))
  {
  }

  /** The loop over the headers, as the code runs it. */
  method CopyHeaders(request: string, headers: string) returns (ok: bool, grown: string, hasHost: bool)
    ensures match ScanHeaders(headers)
      case None => !ok
      case Some(scan) => ok && grown == request + scan.lines && hasHost == scan.hasHost
  {
    grown, hasHost := request, false;
    var rest := headers;
    ghost var lines := "";
    assert request + "" == request;
    AfterNone(ScanHeaders(headers));
    while true
      invariant grown == request + lines
      invariant ScanHeaders(headers) == After(lines, hasHost, ScanHeaders(rest))
      decreases |rest|
    {
      var token := NextToken(rest, CRLF);
      ScanOne(rest);
      if token.None? {
        assert lines + "" == lines;
        return true, grown, hasHost;
      }
      var header := token.value.text;
      rest := token.value.rest;
      var colon := Span(header, ":");
      if colon == |header| {
        return false, grown, hasHost;
      }
      var name := header[..colon];
      if name == "Connection" || name == "Proxy-Connection" || name == "User-Agent" {
        continue;
      }
      AfterOne(lines, hasHost, header + CRLF, name == "Host", ScanHeaders(rest));
      if name == "Host" {
        hasHost := true;
      }
      grown := grown + header;
      grown := grown + CRLF;
      Move(request, lines, header, CRLF);
      lines := lines + (header + CRLF);
    }
  }

  lemma Move(a: string, b: string, c: string, d: string)
    ensures a + b + c + d == a + (b + (c + d))
  {
  }

  /** The end of the request: the bare host if needed, and the proxy's own lines. */
  method Finish(request: string, host: string, hasHost: bool) returns (r: string)
    ensures r == request + (if hasHost then "" else host + CRLF) + OwnHeaders() + CRLF
  {
    r := request;
    if !hasHost {
      r := r + host;
      r := r + CRLF;
      assert r == request + (host + CRLF);
    } else {
      assert request + "" == request;
    }
    r := r + OwnHeaders();
    r := r + CRLF;
  }

  /** parse. */
  method Parse(original: string) returns (r: Option<Rewritten>)
    ensures r == Rewrite(original)
  {
    var verb := NextToken(original, " ");
    if verb.None? { return None; }
    var scheme := NextToken(verb.value.rest, "/");
    if scheme.None? { return None; }
    r := ParseTarget(verb.value.text, scheme.value.rest);
  }

  method ParseTarget(verb: string, s: string) returns (r: Option<Rewritten>)
    ensures r == RewriteTarget(verb, s)
  {
    var authority := NextToken(s, "/");
    if authority.None? { return None; }
    var target := NextToken(authority.value.rest, CRLF);
    if target.None? { return None; }
    r := ParseParts(verb, authority.value.text, target.value.text, target.value.rest);
  }

  method ParseParts(verb: string, authority: string, target: string, headers: string)
    returns (r: Option<Rewritten>)
    ensures r == RewriteParts(verb, authority, target, headers)
  {
    var host, port := authority, None;
    var colon := Span(host, ":");
    assert authority[..|authority|] == authority;
    if colon < |host| {
      port := Some(host[colon + 1..]);
      host := host[..colon];
    }
    var space := Span(target, " ");
    if space == |target| { return None; }
    var path := target[..space];
    var request := verb;
    request := request + " /";
    request := request + path;
    request := request + " ";
    request := request + "HTTP/1.0\r\n";
    var ok, hasHost;
    ok, request, hasHost := CopyHeaders(request, headers);
    if !ok { return None; }
    request := Finish(request, host, hasHost);
    r := Some(Rewritten(host, port, request));
  }
}
