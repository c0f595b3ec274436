/** The part of the `http`/`hyper` request and response types that the
    proxy's handlers look at: header lookup, `HeaderValue::to_str`, the parts of
    a parsed `Uri` and `Uri::host`. */
module Http {
  import opened Wrappers

  newtype byte = x: int | 0 <= x < 256

  /** A request header as hyper stores it; names are already lower-case. */
  datatype Header = Header(name: string, value: seq<byte>)

  const HOST := "host"
  const LOCATION := "location"

  /** `HeaderMap::get`: the value of the first header stored under `name`. */
  function GetHeader(headers: seq<Header>, name: string): (r: Option<seq<byte>>)
    ensures r.None? <==> forall i :: 0 <= i < |headers| ==> headers[i].name != name
    ensures r.Some? ==>
      exists i :: && 0 <= i < |headers|
                  && headers[i].name == name
                  && headers[i].value == r.value
                  && forall j :: 0 <= j < i ==> headers[j].name != name
    decreases |headers|
  {
    if |headers| == 0 then None
    else if headers[0].name == name then Some(headers[0].value)
    else
      var r := GetHeader(headers[1..], name);
      assert forall i :: 1 <= i < |headers| ==> headers[i] == headers[1..][i - 1];
      if r.Some? then
        var k :| && 0 <= k < |headers[1..]|
                 && headers[1..][k].name == name
                 && headers[1..][k].value == r.value
                 && forall j :: 0 <= j < k ==> headers[1..][j].name != name;
        assert headers[k + 1].name == name && headers[k + 1].value == r.value;
        assert forall j :: 0 <= j < k + 1 ==> headers[j].name != name by {
          forall j | 0 <= j < k + 1 ensures headers[j].name != name {
            if j > 0 { assert headers[j] == headers[1..][j - 1]; }
          }
        }
        r
      else
        r
  }

  /** The bytes `HeaderValue::to_str` accepts: tab and printable ASCII. */
  predicate IsVisibleAscii(b: byte) {
    b == 9 || 32 <= b < 127
  }

  /** Text whose every character is one `HeaderValue::to_str` accepts. */
  predicate IsVisibleText(s: string) {
    forall i :: 0 <= i < |s| ==> s[i] == '\t' || ' ' <= s[i] <= '~'
  }

  /** `HeaderValue::to_str`: the value as text, or `None` when a byte is not
      visible ASCII. */
  function ToStr(value: seq<byte>): (r: Option<string>)
    ensures r.Some? <==> forall i :: 0 <= i < |value| ==> IsVisibleAscii(value[i])
  {
    if forall i :: 0 <= i < |value| ==> IsVisibleAscii(value[i])
    then Some(seq(|value|, i requires 0 <= i < |value| => (value[i] as int) as char))
    else None
  }

  /** The bytes of ASCII text, as a client would put it in a header. */
  function AsciiBytes(s: string): (b: seq<byte>)
    requires IsVisibleText(s)
    ensures |b| == |s|
  {
    seq(|s|, i requires 0 <= i < |s| => (s[i] as int) as byte)
  }

  /** Visible text survives being sent as header bytes and read back. */
  lemma ToStrAsciiBytes(s: string)
    requires IsVisibleText(s)
    ensures ToStr(AsciiBytes(s)) == Some(s)
  {
    var b := AsciiBytes(s);
    assert forall i :: 0 <= i < |b| ==> IsVisibleAscii(b[i]);
    assert ToStr(b).value == s;
  }

  /** Whatever `to_str` accepts is visible text whose bytes are the header's. */
  lemma ToStrInverse(value: seq<byte>)
    requires ToStr(value).Some?
    ensures IsVisibleText(ToStr(value).value)
    ensures AsciiBytes(ToStr(value).value) == value
  {
    var s := ToStr(value).value;
    forall i | 0 <= i < |s| ensures s[i] == '\t' || ' ' <= s[i] <= '~' {
      assert IsVisibleAscii(value[i]);
    }
  }

  /** The parts of a parsed `http::Uri`; each is `None` where hyper's accessor
      (`scheme_str`, `authority`, `path_and_query`) yields `None`. */
  datatype Uri = Uri(scheme: Option<string>, authority: Option<string>, pathAndQuery: Option<string>)

  /** `uri.path_and_query().map_or("/", PathAndQuery::as_str)`. */
  function PathOr(u: Uri): string {
    u.pathAndQuery.GetOr("/")
  }

  /** The text of an absolute URI: `scheme://authority` followed by its path
      and query. */
  function Render(u: Uri): string
    requires u.scheme.Some? && u.authority.Some?
  {
    u.scheme.value + "://" + u.authority.value + PathOr(u)
  }

  /** The text after the last `c`, or all of `s` when it has none
      (`rsplitn(2, c).next()`). */
  function AfterLast(s: string, c: char): (r: string)
    ensures c !in r
    ensures |r| <= |s| && r == s[|s| - |r|..]
    ensures |r| < |s| ==> s[|s| - |r| - 1] == c
    decreases |s|
  {
    if |s| == 0 then s
    else if s[|s| - 1] == c then []
    else AfterLast(s[..|s| - 1], c) + [s[|s| - 1]]
  }

  /** The text before the first `c`, or all of `s` when it has none
      (`split(c).next()`). */
  function BeforeFirst(s: string, c: char): (r: string)
    ensures c !in r
    ensures |r| <= |s| && r == s[..|r|]
    ensures |r| < |s| ==> s[|r|] == c
    decreases |s|
  {
    if |s| == 0 then s
    else if s[0] == c then []
    else [s[0]] + BeforeFirst(s[1..], c)
  }

  /** `Uri::host` on an authority: drop any `userinfo@` prefix, then keep a
      bracketed IPv6 literal through its `]`, or else cut at the first `:`. */
  function HostOfAuthority(authority: string): (r: string)
    ensures '@' !in r
    ensures (|r| == 0 || r[0] != '[') ==> ':' !in r
  {
    var hostPort := AfterLast(authority, '@');
    if |hostPort| > 0 && hostPort[0] == '[' then
      var inner := BeforeFirst(hostPort, ']');
      if |inner| < |hostPort| then hostPort[..|inner| + 1] else hostPort
    else
      BeforeFirst(hostPort, ':')
  }

  /** `Uri::host`: present exactly when the URI has an authority. */
  function Host(u: Uri): (r: Option<string>)
    ensures r.Some? <==> u.authority.Some?
  {
    match u.authority
    case None => None
    case Some(a) => Some(HostOfAuthority(a))
  }

  lemma AfterLastWithout(s: string, c: char)
    requires c !in s
    ensures AfterLast(s, c) == s
  {
  }

  lemma {:induction false} AfterLastSplit(x: string, c: char, y: string)
    requires c !in y
    ensures AfterLast(x + [c] + y, c) == y
    decreases |y|
  {
    var s := x + [c] + y;
    if |y| == 0 {
      assert s == x + [c];
    } else {
      var front := y[..|y| - 1];
      var last := y[|y| - 1];
      assert last in y;
      assert s == (x + [c] + front) + [last];
      assert s[..|s| - 1] == x + [c] + front;
      assert AfterLast(s, c) == AfterLast(x + [c] + front, c) + [last];
      AfterLastSplit(x, c, front);
      assert y == front + [last];
    }
  }

  lemma BeforeFirstWithout(s: string, c: char)
    requires c !in s
    ensures BeforeFirst(s, c) == s
  {
  }

  lemma {:induction false} BeforeFirstSplit(x: string, c: char, y: string)
    requires c !in x
    ensures BeforeFirst(x + [c] + y, c) == x
    decreases |x|
  {
    var s := x + [c] + y;
    if |x| > 0 {
      assert s[1..] == x[1..] + [c] + y;
      BeforeFirstSplit(x[1..], c, y);
      assert x == [x[0]] + x[1..];
    }
  }

  /** A `host:port` authority has host `host`: the port is dropped. */
  lemma HostDropsPort(host: string, port: string)
    requires ':' !in host && '@' !in host && '@' !in port
    requires |host| == 0 || host[0] != '['
    ensures HostOfAuthority(host + ":" + port) == host
    ensures HostOfAuthority(host) == host
  {
    var a := host + ":" + port;
    assert '@' !in a by {
      forall i | 0 <= i < |a| ensures a[i] != '@' {
        if i < |host| { assert a[i] == host[i]; }
        else if i > |host| { assert a[i] == port[i - |host| - 1]; }
      }
    }
    AfterLastWithout(a, '@');
    assert host + ":" + port == host + [':'] + port;
    BeforeFirstSplit(host, ':', port);
    AfterLastWithout(host, '@');
    BeforeFirstWithout(host, ':');
  }

  /** A `userinfo@` prefix never reaches the host. */
  lemma HostDropsUserinfo(userinfo: string, hostPort: string)
    requires '@' !in hostPort
    ensures HostOfAuthority(userinfo + "@" + hostPort) == HostOfAuthority(hostPort)
  {
    assert userinfo + "@" + hostPort == userinfo + ['@'] + hostPort;
    AfterLastSplit(userinfo, '@', hostPort);
    AfterLastWithout(hostPort, '@');
  }

  /** A request as a handler receives it (`Request<Body>`); `verb` is the
      HTTP method. */
  datatype Request = Request(verb: string, uri: Uri, version: nat, headers: seq<Header>, body: seq<byte>)

  /** A response body: `Body::empty()`, a `String` body, or bytes relayed
      from the backend. */
  datatype Body = Empty | Text(text: string) | Bytes(bytes: seq<byte>)

  /** A response header. */
  datatype Field = Field(name: string, value: string)

  datatype Response = Response(status: nat, headers: seq<Field>, body: Body)

  /** The status `Response::new` and `Response::builder` start from. */
  const OK := 200
  const PERMANENT_REDIRECT := 308
  const BAD_REQUEST := 400
  const NOT_FOUND := 404

  /** `Response::new(Body::empty())` with its status replaced. */
  function EmptyResponse(status: nat): Response {
    Response(status, [], Empty)
  }

  /** The host a request's `Host` header names: the header must be present,
      accepted by `to_str`, accepted by `parseUri` (the http crate's URI
      parser) and carry a host component. */
  function RequestHost(req: Request, parseUri: string -> Option<Uri>): (r: Option<string>)
    ensures r.None? <==>
      || GetHeader(req.headers, HOST).None?
      || ToStr(GetHeader(req.headers, HOST).value).None?
      || parseUri(ToStr(GetHeader(req.headers, HOST).value).value).None?
      || parseUri(ToStr(GetHeader(req.headers, HOST).value).value).value.authority.None?
    ensures r.Some? ==>
      var uri := parseUri(ToStr(GetHeader(req.headers, HOST).value).value).value;
      r.value == HostOfAuthority(uri.authority.value)
    ensures r.Some? ==> '@' !in r.value
    ensures r.Some? && (|r.value| == 0 || r.value[0] != '[') ==> ':' !in r.value
  {
    match GetHeader(req.headers, HOST)
    case None => None
    case Some(value) =>
      match ToStr(value)
      case None => None
      case Some(text) =>
        match parseUri(text)
        case None => None
        case Some(uri) => Host(uri)
  }
}
