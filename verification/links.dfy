/** The links the application mails out: its base URL, built from the incoming request, followed
    by an endpoint path and the token string. */
module Links {
  import opened Wrappers
  import opened Text

  /** The parts of the incoming HTTP request that the base URL is built from. */
  datatype Request = Request(serverName: string, serverPort: int, contextPath: string)

  const VERIFY_PATH := "/verifyRegistration?token="
  const SAVE_PASSWORD_PATH := "/savePassword?token="

  /** `applicationUrl`: the scheme, the server name, a colon, the port in decimal and the
      context path. */
  function ApplicationUrl(req: Request): (url: string)
    ensures |url| > 7 && url[..7] == "http://"
    ensures ':' !in req.serverName && req.serverPort >= 0 && ContextPathWf(req.contextPath) ==>
      ParseApplicationUrl(url) == Some(req)
  {
    UrlPartsRoundTrip(req.serverName, req.serverPort, req.contextPath);
    "http://" + req.serverName + ":" + IntToDecimal(req.serverPort) + req.contextPath
  }

  /** Splits a base URL back into server name, port and context path. */
  function ParseApplicationUrl(url: string): Option<Request> {
    if |url| < 7 || url[..7] != "http://" then None else ParseAuthority(url[7..])
  }

  /** Splits what follows the scheme: the server name runs up to the first colon, and the port
      and the context path follow it. */
  function ParseAuthority(rest: string): Option<Request> {
    match IndexOf(rest, ':')
    case None => None
    case Some(i) =>
      match ParsePort(rest[i + 1..])
      case None => None
      case Some((port, ctx)) => Some(Request(rest[..i], port, ctx))
  }

  /** Reads the port as the leading digit run, spelled without leading zeros, and returns it
      with the remaining text. */
  function ParsePort(after: string): Option<(nat, string)> {
    var n := LeadingDigits(after);
    if n == 0 || (n > 1 && after[0] == '0') then None
    else Some((DecimalValue(after[..n]), after[n..]))
  }

  /** A servlet context path is either empty or starts with "/". */
  predicate ContextPathWf(p: string) {
    |p| == 0 || p[0] == '/'
  }

  /** The parts of a base URL are recovered from its text, for a server name without a colon, a
      non-negative port and a well-formed context path. */
  lemma UrlPartsRoundTrip(name: string, port: int, ctx: string)
    ensures ':' !in name && port >= 0 && ContextPathWf(ctx) ==>
      ParseApplicationUrl("http://" + name + ":" + IntToDecimal(port) + ctx) == Some(Request(name, port, ctx))
  {
    if ':' !in name && port >= 0 && ContextPathWf(ctx) {
      var d := NatToDecimal(port);
      var rest := name + [':'] + (d + ctx);
      var url := "http://" + name + ":" + d + ctx;
      assert url == "http://" + rest;
      assert url[..7] == "http://" && url[7..] == rest;
      AuthorityRoundTrip(name, d, ctx);
      DecimalRoundTrip(port);
    }
  }

  /** Any text that parses as a base URL is exactly the base URL of the parts it parses to:
      the parser accepts only the canonical spelling of the port. */
  lemma ParseApplicationUrlSound(url: string, req: Request)
    requires ParseApplicationUrl(url) == Some(req)
    ensures ApplicationUrl(req) == url
  {
    var rest := url[7..];
    assert url[..7] == "http://";
    ParseAuthoritySound(rest, req);
    SplitAt(url, 7);
    var d := NatToDecimal(req.serverPort);
    assert IntToDecimal(req.serverPort) == d;
    Regroup("http://", req.serverName, d, req.contextPath);
  }

  /** What follows the scheme is rebuilt exactly from the parts it parses to. */
  lemma ParseAuthoritySound(rest: string, req: Request)
    requires ParseAuthority(rest) == Some(req)
    ensures req.serverPort >= 0
    ensures rest == req.serverName + ":" + (NatToDecimal(req.serverPort) + req.contextPath)
  {
    var i := IndexOf(rest, ':').value;
    var after := rest[i + 1..];
    var p := ParsePort(after).value;
    assert req.serverName == rest[..i] && req.serverPort == p.0 && req.contextPath == p.1;
    ParsePortSound(after);
    SplitAround(rest, i);
  }

  /** A sequence is its prefix followed by its suffix. */
  lemma SplitAt(s: string, k: nat)
    requires k <= |s|
    ensures s == s[..k] + s[k..]
  {
  }

  /** A sequence is the part before position `k`, the element at `k`, and the part after. */
  lemma SplitAround(s: string, k: nat)
    requires k < |s|
    ensures s == s[..k] + [s[k]] + s[k + 1..]
  {
  }

  /** The scheme followed by the authority text is the base URL, grouped as it is built. */
  lemma Regroup(scheme: string, name: string, port: string, ctx: string)
    ensures scheme + (name + ":" + (port + ctx)) == scheme + name + ":" + port + ctx
  {
  }

  /** The port text is rebuilt exactly from the value and the remainder it parses to. */
  lemma ParsePortSound(after: string)
    requires ParsePort(after).Some?
    ensures after == NatToDecimal(ParsePort(after).value.0) + ParsePort(after).value.1
  {
    var n := LeadingDigits(after);
    var d := after[..n];
    assert d[0] == after[0];
    CanonicalDecimal(d);
    assert after == d + after[n..];
  }

  /** The authority part splits at its first colon and after the port's digit run. */
  lemma AuthorityRoundTrip(name: string, d: string, ctx: string)
    requires ':' !in name
    requires |d| > 0 && AllDigits(d)
    requires d[0] == '0' ==> |d| == 1
    requires ContextPathWf(ctx)
    ensures ParseAuthority(name + [':'] + (d + ctx)) == Some(Request(name, DecimalValue(d), ctx))
  {
    var after := d + ctx;
    var rest := name + [':'] + after;
    IndexOfAfterPrefix(name, ':', after);
    assert rest[|name| + 1..] == after;
    assert rest[..|name|] == name;
    PortRoundTrip(d, ctx);
  }

  /** A canonical digit run followed by a well-formed context path parses back to both. */
  lemma PortRoundTrip(d: string, ctx: string)
    requires |d| > 0 && AllDigits(d)
    requires d[0] == '0' ==> |d| == 1
    requires ContextPathWf(ctx)
    ensures ParsePort(d + ctx) == Some((DecimalValue(d), ctx))
  {
    var after := d + ctx;
    LeadingDigitsOfConcat(d, ctx);
    assert after[..|d|] == d;
    assert after[|d|..] == ctx;
    assert after[0] == d[0];
  }

  /** A link: base URL, endpoint path, token string. */
  function Link(appUrl: string, path: string, token: string): string {
    appUrl + path + token
  }

  /** The token carried by `url`, if `url` is a link over `appUrl` and `path`. */
  function TokenOfLink(appUrl: string, path: string, url: string): Option<string> {
    var prefix := appUrl + path;
    if |prefix| <= |url| && url[..|prefix|] == prefix then Some(url[|prefix|..]) else None
  }

  /** Stripping the prefix of a link gives back its token. */
  lemma LinkRoundTrip(appUrl: string, path: string, token: string)
    ensures TokenOfLink(appUrl, path, Link(appUrl, path, token)) == Some(token)
  {
  }

  /** Any url that yields a token is exactly the link for that token. */
  lemma TokenOfLinkSound(appUrl: string, path: string, url: string, token: string)
    requires TokenOfLink(appUrl, path, url) == Some(token)
    ensures Link(appUrl, path, token) == url
  {
  }

  /** The link to the verification endpoint that carries `token`. */
  function VerificationLink(appUrl: string, token: string): (url: string)
    ensures TokenOfLink(appUrl, VERIFY_PATH, url) == Some(token)
    ensures url[..|appUrl|] == appUrl
  {
    LinkRoundTrip(appUrl, VERIFY_PATH, token);
    Link(appUrl, VERIFY_PATH, token)
  }

  /** The link to the save-password endpoint that carries `token`. */
  function PasswordResetLink(appUrl: string, token: string): (url: string)
    ensures TokenOfLink(appUrl, SAVE_PASSWORD_PATH, url) == Some(token)
    ensures url[..|appUrl|] == appUrl
  {
    LinkRoundTrip(appUrl, SAVE_PASSWORD_PATH, token);
    Link(appUrl, SAVE_PASSWORD_PATH, token)
  }
}
