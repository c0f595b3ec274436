/** `SocketAddr::from_str` for the IPv4 form `a.b.c.d:port`, as used by
    `host_addr` to decide whether a `CONNECT` authority is a socket address.
    Only IP literals parse: a host name such as `localhost` never does. */
module SocketAddrs {
  import opened Wrappers
  import Http

  /** A socket address. Only the IPv4 form is ever produced by the parser;
      IPv6 peers appear as connection addresses. */
  datatype SocketAddr = V4(octets: seq<nat>, port: nat) | V6(segments: seq<nat>, port: nat)

  /** An IP address without a port: what `SocketAddr::ip` returns. */
  datatype IpAddr = Ipv4(octets: seq<nat>) | Ipv6(segments: seq<nat>)

  /** `SocketAddr::ip`: the address with its port dropped. */
  function Ip(a: SocketAddr): (r: IpAddr)
    ensures r.Ipv4? <==> a.V4?
    ensures a.V4? ==> r.octets == a.octets
    ensures a.V6? ==> r.segments == a.segments
  {
    match a
    case V4(octets, _) => Ipv4(octets)
    case V6(segments, _) => Ipv6(segments)
  }

  /** Four octets and a port, each within its bit width. */
  predicate ValidV4(a: SocketAddr) {
    && a.V4?
    && |a.octets| == 4
    && (forall i :: 0 <= i < 4 ==> a.octets[i] < 256)
    && a.port < 0x1_0000
  }

  predicate IsDigit(c: char) {
    '0' <= c <= '9'
  }

  predicate AllDigits(s: string) {
    forall i :: 0 <= i < |s| ==> IsDigit(s[i])
  }

  /** The decimal value of a digit string. */
  function Value(s: string): nat
    requires AllDigits(s)
    decreases |s|
  {
    if |s| == 0 then 0
    else Value(s[..|s| - 1]) * 10 + (s[|s| - 1] as int - '0' as int)
  }

  /** An octet: one to three digits, no leading zero, at most 255 (a `u8`
      read with at most three digits and no zero prefix). */
  function ParseOctet(s: string): (r: Option<nat>)
    ensures r.Some? ==> r.value < 256
  {
    if 1 <= |s| <= 3 && AllDigits(s) && !(|s| > 1 && s[0] == '0') && Value(s) < 256
    then Some(Value(s))
    else None
  }

  /** A port: one or more digits (zero prefixes allowed) whose value fits a
      `u16`. */
  function ParsePort(s: string): (r: Option<nat>)
    ensures r.Some? ==> r.value < 0x1_0000
  {
    if 1 <= |s| && AllDigits(s) && Value(s) < 0x1_0000 then Some(Value(s)) else None
  }

  /** The fields of `s` between occurrences of `sep`. */
  function Split(s: string, sep: char): (parts: seq<string>)
    ensures |parts| > 0
    decreases |s|
  {
    var head := Http.BeforeFirst(s, sep);
    if |head| == |s| then [s] else [head] + Split(s[|head| + 1..], sep)
  }

  /** The fields joined again with `sep` between them. */
  function Join(parts: seq<string>, sep: char): string
    requires |parts| > 0
    decreases |parts|
  {
    if |parts| == 1 then parts[0] else parts[0] + [sep] + Join(parts[1..], sep)
  }

  /** The octets of a dotted quad, if all four parse. */
  function ParseIpv4(s: string): (r: Option<seq<nat>>)
    ensures r.Some? ==> |r.value| == 4 && forall i :: 0 <= i < 4 ==> r.value[i] < 256
  {
    var fields := Split(s, '.');
    if |fields| != 4 then None
    else
      match (ParseOctet(fields[0]), ParseOctet(fields[1]), ParseOctet(fields[2]), ParseOctet(fields[3]))
      case (Some(a), Some(b), Some(c), Some(d)) => Some([a, b, c, d])
      case _ => None
  }

  /** A dotted quad that parses is its octets' decimals joined by dots. */
  lemma ParseIpv4Spelled(s: string)
    requires ParseIpv4(s).Some?
    ensures s == DottedQuad(ParseIpv4(s).value)
  {
    var fields := Split(s, '.');
    JoinSplit(s, '.');
    JoinFour(fields, '.');
    DecimalOfValue(fields[0]); DecimalOfValue(fields[1]); DecimalOfValue(fields[2]); DecimalOfValue(fields[3]);
  }

  /** `s` is the text of the IPv4 socket address `a`: its octets in decimal
      without zero prefixes, joined by dots, then a colon and one or more
      digits (zero prefixes allowed) whose value is the port. */
  predicate Spells(s: string, a: SocketAddr) {
    && ValidV4(a)
    && var ip := Http.BeforeFirst(s, ':');
       && |ip| < |s|
       && ip == DottedQuad(a.octets)
       && |s[|ip| + 1..]| > 0
       && AllDigits(s[|ip| + 1..])
       && Value(s[|ip| + 1..]) == a.port
  }

  /** `s.parse::<SocketAddr>().ok()` for the IPv4 form: what parses is the
      address the text spells. */
  function ParseSocketAddr(s: string): (r: Option<SocketAddr>)
    ensures r.Some? ==> Spells(s, r.value)
  {
    var ip := Http.BeforeFirst(s, ':');
    if |ip| == |s| then None
    else
      match ParseIpv4(ip)
      case None => None
      case Some(octets) =>
        match ParsePort(s[|ip| + 1..])
        case None => None
        case Some(port) => ParseIpv4Spelled(ip); Some(V4(octets, port))
  }

  /** The decimal digits of `n`, without leading zeros. */
  function Decimal(n: nat): (s: string)
    ensures |s| > 0 && AllDigits(s)
    ensures n > 0 ==> s[0] != '0'
    ensures n < 10 ==> |s| == 1
    ensures n < 100 ==> |s| <= 2
    ensures n < 1000 ==> |s| <= 3
    decreases n
  {
    var last := [('0' as int + n % 10) as char];
    if n < 10 then last else Decimal(n / 10) + last
  }

  lemma {:induction false} DecimalValue(n: nat)
    ensures Value(Decimal(n)) == n
    decreases n
  {
    if n >= 10 {
      var s := Decimal(n);
      assert s[..|s| - 1] == Decimal(n / 10);
      DecimalValue(n / 10);
    }
  }

  /** A digit string with a leading digit other than zero has a positive
      value. */
  lemma {:induction false} ValuePositive(s: string)
    requires |s| > 0 && AllDigits(s) && s[0] != '0'
    ensures Value(s) > 0
    decreases |s|
  {
    if |s| > 1 {
      ValuePositive(s[..|s| - 1]);
    }
  }

  /** A digit string without a zero prefix is the decimal text of its
      value. */
  lemma {:induction false} DecimalOfValue(s: string)
    requires |s| > 0 && AllDigits(s) && !(|s| > 1 && s[0] == '0')
    ensures Decimal(Value(s)) == s
    decreases |s|
  {
    if |s| > 1 {
      var front := s[..|s| - 1];
      ValuePositive(front);
      DecimalOfValue(front);
      assert s == front + [s[|s| - 1]];
    }
  }

  /** Splitting and joining again gives back the text. */
  lemma {:induction false} JoinSplit(s: string, sep: char)
    ensures Join(Split(s, sep), sep) == s
    decreases |s|
  {
    var head := Http.BeforeFirst(s, sep);
    if |head| < |s| {
      var rest := s[|head| + 1..];
      var parts := Split(rest, sep);
      assert Split(s, sep) == [head] + parts;
      assert ([head] + parts)[1..] == parts;
      JoinSplit(rest, sep);
      assert Join([head] + parts, sep) == head + [sep] + rest;
      assert s == s[..|head|] + [s[|head|]] + rest;
    } else {
      assert Split(s, sep) == [s];
    }
  }

  /** Four octets joined by dots. */
  function Dotted(d0: string, d1: string, d2: string, d3: string): string {
    d0 + ['.'] + (d1 + ['.'] + (d2 + ['.'] + d3))
  }

  /** The dotted quad of four octets, each in decimal. */
  function DottedQuad(o: seq<nat>): string
    requires |o| == 4
  {
    Dotted(Decimal(o[0]), Decimal(o[1]), Decimal(o[2]), Decimal(o[3]))
  }

  /** `a.b.c.d:port` as `Display` writes it. */
  function Format(a: SocketAddr): string
    requires ValidV4(a)
  {
    DottedQuad(a.octets) + ":" + Decimal(a.port)
  }

  lemma DigitsHaveNo(s: string, c: char)
    requires AllDigits(s) && !IsDigit(c)
    ensures c !in s
  {
  }

  lemma SplitFirst(x: string, sep: char, y: string)
    requires sep !in x
    ensures Split(x + [sep] + y, sep) == [x] + Split(y, sep)
  {
    Http.BeforeFirstSplit(x, sep, y);
    assert (x + [sep] + y)[|x| + 1..] == y;
  }

  lemma SplitNone(x: string, sep: char)
    requires sep !in x
    ensures Split(x, sep) == [x]
  {
    Http.BeforeFirstWithout(x, sep);
  }

  lemma SplitTwo(x: string, y: string, sep: char)
    requires sep !in x && sep !in y
    ensures Split(x + [sep] + y, sep) == [x, y]
  {
    SplitFirst(x, sep, y);
    SplitNone(y, sep);
  }

  lemma SplitThree(x: string, y: string, z: string, sep: char)
    requires sep !in x && sep !in y && sep !in z
    ensures Split(x + [sep] + (y + [sep] + z), sep) == [x, y, z]
  {
    SplitFirst(x, sep, y + [sep] + z);
    SplitTwo(y, z, sep);
  }

  lemma SplitDotted(d0: string, d1: string, d2: string, d3: string)
    requires '.' !in d0 && '.' !in d1 && '.' !in d2 && '.' !in d3
    ensures Split(Dotted(d0, d1, d2, d3), '.') == [d0, d1, d2, d3]
  {
    SplitFirst(d0, '.', d1 + ['.'] + (d2 + ['.'] + d3));
    SplitThree(d1, d2, d3, '.');
  }

  lemma JoinFour(parts: seq<string>, sep: char)
    requires |parts| == 4
    ensures Join(parts, sep) == parts[0] + [sep] + (parts[1] + [sep] + (parts[2] + [sep] + parts[3]))
  {
    assert Join(parts[3..], sep) == parts[3];
    assert parts[2..][1..] == parts[3..];
    assert Join(parts[2..], sep) == parts[2] + [sep] + parts[3];
    assert parts[1..][1..] == parts[2..];
    assert Join(parts[1..], sep) == parts[1] + [sep] + Join(parts[2..], sep);
  }

  /** Dotted digit strings hold only digits and dots. */
  lemma DottedDigits(d0: string, d1: string, d2: string, d3: string)
    requires AllDigits(d0) && AllDigits(d1) && AllDigits(d2) && AllDigits(d3)
    ensures var ip := Dotted(d0, d1, d2, d3);
      forall i :: 0 <= i < |ip| ==> IsDigit(ip[i]) || ip[i] == '.'
  {
    var ip := Dotted(d0, d1, d2, d3);
    forall i | 0 <= i < |ip| ensures IsDigit(ip[i]) || ip[i] == '.' {
      if i < |d0| { assert ip[i] == d0[i]; }
      else if i == |d0| { }
      else if i < |d0| + 1 + |d1| { assert ip[i] == d1[i - |d0| - 1]; }
      else if i == |d0| + 1 + |d1| { }
      else if i < |d0| + 2 + |d1| + |d2| { assert ip[i] == d2[i - |d0| - |d1| - 2]; }
      else if i == |d0| + 2 + |d1| + |d2| { }
      else { assert ip[i] == d3[i - |d0| - |d1| - |d2| - 3]; }
    }
  }

  lemma DottedDigitsHaveNoColon(d0: string, d1: string, d2: string, d3: string)
    requires AllDigits(d0) && AllDigits(d1) && AllDigits(d2) && AllDigits(d3)
    ensures ':' !in Dotted(d0, d1, d2, d3)
  {
    DottedDigits(d0, d1, d2, d3);
  }

  lemma ParseOctetDecimal(n: nat)
    requires n < 256
    ensures ParseOctet(Decimal(n)) == Some(n)
  {
    DecimalValue(n);
  }

  lemma ParseIpv4Dotted(o: seq<nat>)
    requires |o| == 4 && forall i :: 0 <= i < 4 ==> o[i] < 256
    ensures ParseIpv4(DottedQuad(o)) == Some(o)
  {
    var d0, d1, d2, d3 := Decimal(o[0]), Decimal(o[1]), Decimal(o[2]), Decimal(o[3]);
    DigitsHaveNo(d0, '.'); DigitsHaveNo(d1, '.'); DigitsHaveNo(d2, '.'); DigitsHaveNo(d3, '.');
    SplitDotted(d0, d1, d2, d3);
    ParseOctetDecimal(o[0]); ParseOctetDecimal(o[1]); ParseOctetDecimal(o[2]); ParseOctetDecimal(o[3]);
    assert [o[0], o[1], o[2], o[3]] == o;
  }

  /** The printed text of an address spells it. */
  lemma FormatSpells(a: SocketAddr)
    requires ValidV4(a)
    ensures Spells(Format(a), a)
  {
    var o := a.octets;
    var ip := Dotted(Decimal(o[0]), Decimal(o[1]), Decimal(o[2]), Decimal(o[3]));
    var p := Decimal(a.port);
    DottedDigitsHaveNoColon(Decimal(o[0]), Decimal(o[1]), Decimal(o[2]), Decimal(o[3]));
    assert Format(a) == ip + [':'] + p;
    Http.BeforeFirstSplit(ip, ':', p);
    assert Format(a)[|ip| + 1..] == p;
    DecimalValue(a.port);
  }

  /** Every IPv4 socket address parses back from its text. */
  lemma ParseFormat(a: SocketAddr)
    requires ValidV4(a)
    ensures ParseSocketAddr(Format(a)) == Some(a)
  {
    FormatSpells(a);
    ParseSpells(Format(a), a);
  }

  /** Conversely, every text that spells an address parses to it: together
      with the contract of `ParseSocketAddr`, `ParseSocketAddr(s) == Some(a)`
      exactly when `Spells(s, a)`. */
  lemma ParseSpells(s: string, a: SocketAddr)
    requires Spells(s, a)
    ensures ParseSocketAddr(s) == Some(a)
  {
    var ip := Http.BeforeFirst(s, ':');
    var o := a.octets;
    assert ip == DottedQuad(o);
    ParseIpv4Dotted(o);
    assert ParsePort(s[|ip| + 1..]) == Some(a.port);
    ParseSocketAddrParts(s, o, a.port);
    assert a == V4(o, a.port);
  }

  lemma ParseSocketAddrParts(s: string, octets: seq<nat>, port: nat)
    requires var ip := Http.BeforeFirst(s, ':');
      && |ip| < |s|
      && ParseIpv4(ip) == Some(octets)
      && ParsePort(s[|ip| + 1..]) == Some(port)
    ensures ParseSocketAddr(s) == Some(V4(octets, port))
  {
  }

  /** Before its colon, a socket address holds only digits and dots. */
  lemma SocketAddrCharacters(s: string)
    ensures ParseSocketAddr(s).Some? ==>
      forall j :: 0 <= j < |Http.BeforeFirst(s, ':')| ==> IsDigit(s[j]) || s[j] == '.'
  {
    var r := ParseSocketAddr(s);
    if r.Some? {
      var ip := Http.BeforeFirst(s, ':');
      var o := r.value.octets;
      var dotted := Dotted(Decimal(o[0]), Decimal(o[1]), Decimal(o[2]), Decimal(o[3]));
      assert ip == dotted;
      DottedDigits(Decimal(o[0]), Decimal(o[1]), Decimal(o[2]), Decimal(o[3]));
      forall j | 0 <= j < |ip| ensures IsDigit(s[j]) || s[j] == '.' {
        assert s[j] == ip[j] == dotted[j];
      }
    }
  }

  /** A host name is never a socket address: any character other than a
      digit or a dot before the first colon makes the parse fail. */
  lemma HostNameNotSocketAddr(s: string, i: nat)
    requires i < |Http.BeforeFirst(s, ':')| && !IsDigit(s[i]) && s[i] != '.'
    ensures ParseSocketAddr(s).None?
  {
    SocketAddrCharacters(s);
  }

  /** An authority whose host has no dots is not an IPv4 socket address. */
  lemma UndottedHostNotSocketAddr(host: string, port: string)
    requires ':' !in host && '.' !in host
    ensures ParseSocketAddr(host + [':'] + port) == None
  {
    Http.BeforeFirstSplit(host, ':', port);
    SplitNone(host, '.');
  }

  lemma LocalhostParts()
    ensures "localhost:1111" == "localhost" + [':'] + "1111"
    ensures ':' !in "localhost" && '.' !in "localhost"
  {
    var host := "localhost";
    assert forall i :: 0 <= i < |host| ==> 'a' <= host[i] <= 'z';
  }

  /** A host name is not a socket address: `localhost:1111` does not parse. */
  lemma BackendIsNotSocketAddr()
    ensures ParseSocketAddr("localhost:1111") == None
  {
    LocalhostParts();
    UndottedHostNotSocketAddr("localhost", "1111");
  }
}
