/** Server addresses: the three accepted forms, the parser, and the printer. */
module Uris {
  import opened Wrappers

  datatype URI = URI(scheme: string, hostOrPath: string, port: Option<nat>)

  datatype UriError = InvalidArgument | UnexpectedError

  const TCP := "tcp"
  const UNIX := "unix"
  const TCP_PREFIX := "tcp://"
  const UNIX_PREFIX := "unix://"
  const MAX_PORT: nat := 0xffff

  // ----- The languages of the three regular expressions -----

  predicate Digit(c: char) { '0' <= c <= '9' }

  /** In the character class, `+-.` is the range from `+` to `.`. */
  predicate HostChar(c: char) {
    'a' <= c <= 'z' || 'A' <= c <= 'Z' || Digit(c) || '+' <= c <= '.'
  }

  predicate AllHost(s: string) { s != "" && forall i :: 0 <= i < |s| ==> HostChar(s[i]) }

  predicate AllHostOrColon(s: string) { s != "" && forall i :: 0 <= i < |s| ==> HostChar(s[i]) || s[i] == ':' }

  predicate AllDigits(s: string) { s != "" && forall i :: 0 <= i < |s| ==> Digit(s[i]) }

  predicate OneLine(s: string) { s != "" && '\n' !in s }

  predicate IpForm(s: string, host: string, digits: string) {
    s == TCP_PREFIX + host + ":" + digits && AllHost(host) && AllDigits(digits)
  }

  predicate BracketForm(s: string, host: string, digits: string) {
    s == TCP_PREFIX + "[" + host + "]" + ":" + digits && AllHostOrColon(host) && AllDigits(digits)
  }

  predicate PathForm(s: string, path: string) {
    s == UNIX_PREFIX + path && OneLine(path)
  }

  function DigitValue(c: char): nat
    requires Digit(c)
  {
    c as nat - '0' as nat
  }

  /** Leading zeros are allowed. */
  function Value(digits: string): nat
    requires forall i :: 0 <= i < |digits| ==> Digit(digits[i])
  {
    if digits == "" then 0 else 10 * Value(digits[..|digits| - 1]) + DigitValue(digits[|digits| - 1])
  }

  /** The string `s` has one of the three forms, a port that fits 16 bits if any, and `u` is what it says. */
  ghost predicate Denotes(s: string, u: URI) {
    || (u.scheme == TCP && exists digits ::
          && (IpForm(s, u.hostOrPath, digits) || BracketForm(s, u.hostOrPath, digits))
          && u.port == Some(Value(digits)) && Value(digits) <= MAX_PORT)
    || (u.scheme == UNIX && u.port == None && PathForm(s, u.hostOrPath))
  }

  // ----- Matching -----

  function LastColon(s: string): (r: Option<nat>)
    ensures r == None ==> ':' !in s
    ensures r.Some? ==> r.value < |s| && s[r.value] == ':' && ':' !in s[r.value + 1..]
  {
    if s == "" then None
    else if s[|s| - 1] == ':' then Some(|s| - 1)
    else
      var r := LastColon(s[..|s| - 1]);
      assert r.Some? ==> s[r.value + 1..] == s[..|s| - 1][r.value + 1..] + [s[|s| - 1]];
      assert s == s[..|s| - 1] + [s[|s| - 1]];
      r
  }

  lemma {:induction false} LastColonUnique(a: string, b: string)
    requires ':' !in b
    ensures LastColon(a + ":" + b) == Some(|a|)
  {
    var s := a + ":" + b;
    if b == "" {
      assert s[|s| - 1] == ':';
    } else {
      var init := b[..|b| - 1];
      assert s[..|s| - 1] == a + ":" + init;
      assert s[|s| - 1] == b[|b| - 1] && b[|b| - 1] in b;
      LastColonUnique(a, init);
    }
  }

  datatype Captures = Captures(host: string, digits: string)

  /** What follows `tcp://`, split at its last colon. */
  function SplitPort(s: string): Option<Captures> {
    if !(TCP_PREFIX <= s) then None
    else match LastColon(s[|TCP_PREFIX|..])
      case None => None
      case Some(k) => Some(Captures(s[|TCP_PREFIX|..][..k], s[|TCP_PREFIX|..][k + 1..]))
  }

  lemma AfterPrefix(rest: string)
    ensures TCP_PREFIX <= TCP_PREFIX + rest && (TCP_PREFIX + rest)[|TCP_PREFIX|..] == rest
  {
  }

  lemma AroundColon(host: string, digits: string)
    ensures var rest := host + ":" + digits; rest[..|host|] == host && rest[|host| + 1..] == digits
  {
  }

  lemma JoinedSplits(host: string, digits: string)
    requires ':' !in digits
    ensures SplitPort(TCP_PREFIX + (host + ":" + digits)) == Some(Captures(host, digits))
  {
    AfterPrefix(host + ":" + digits);
    LastColonUnique(host, digits);
    AroundColon(host, digits);
  }

  lemma SplitJoins(s: string)
    requires SplitPort(s).Some?
    ensures s == TCP_PREFIX + (SplitPort(s).value.host + ":" + SplitPort(s).value.digits)
  {
    var rest := s[|TCP_PREFIX|..];
    var k := LastColon(rest).value;
    assert rest == rest[..k] + ":" + rest[k + 1..];
    assert s == TCP_PREFIX + rest;
  }

  lemma SplitPortIff(s: string, host: string, digits: string)
    requires ':' !in digits
    ensures SplitPort(s) == Some(Captures(host, digits)) <==> s == TCP_PREFIX + host + ":" + digits
  {
    assert TCP_PREFIX + host + ":" + digits == TCP_PREFIX + (host + ":" + digits);
    JoinedSplits(host, digits);
    if SplitPort(s).Some? {
      SplitJoins(s);
    }
  }

  function MatchIp(s: string): Option<Captures> {
    match SplitPort(s)
    case Some(c) => if AllHost(c.host) && AllDigits(c.digits) then Some(c) else None
    case None => None
  }

  function Unbracket(host: string): Option<string> {
    if |host| >= 2 && host[0] == '[' && host[|host| - 1] == ']' then Some(host[1..|host| - 1]) else None
  }

  function MatchBracket(s: string): Option<Captures> {
    match SplitPort(s)
    case Some(c) =>
      (match Unbracket(c.host)
       case Some(host) => if AllHostOrColon(host) && AllDigits(c.digits) then Some(Captures(host, c.digits)) else None
       case None => None)
    case None => None
  }

  function MatchPath(s: string): Option<string> {
    if UNIX_PREFIX <= s && OneLine(s[|UNIX_PREFIX|..]) then Some(s[|UNIX_PREFIX|..]) else None
  }

  lemma NoColon(digits: string)
    requires AllDigits(digits)
    ensures ':' !in digits
  {
  }

  lemma MatchIpIff(s: string, host: string, digits: string)
    ensures MatchIp(s) == Some(Captures(host, digits)) <==> IpForm(s, host, digits)
  {
    if AllDigits(digits) {
      NoColon(digits);
      SplitPortIff(s, host, digits);
    }
  }

  lemma MatchBracketIff(s: string, host: string, digits: string)
    ensures MatchBracket(s) == Some(Captures(host, digits)) <==> BracketForm(s, host, digits)
  {
    if AllDigits(digits) {
      NoColon(digits);
      var bracketed := "[" + host + "]";
      assert TCP_PREFIX + "[" + host + "]" == TCP_PREFIX + bracketed;
      SplitPortIff(s, bracketed, digits);
      assert Unbracket(bracketed) == Some(host);
      if MatchBracket(s) == Some(Captures(host, digits)) {
        var h := SplitPort(s).value.host;
        assert h == [h[0]] + h[1..|h| - 1] + [h[|h| - 1]];
      }
    }
  }

  /** No string has two of the forms, and none can be split in two ways. */
  lemma FormsAreDisjoint(s: string, h1: string, d1: string, h2: string, d2: string, path: string)
    ensures !(IpForm(s, h1, d1) && BracketForm(s, h2, d2))
    ensures !(PathForm(s, path) && (IpForm(s, h1, d1) || BracketForm(s, h1, d1)))
    ensures IpForm(s, h1, d1) && IpForm(s, h2, d2) ==> h1 == h2 && d1 == d2
    ensures BracketForm(s, h1, d1) && BracketForm(s, h2, d2) ==> h1 == h2 && d1 == d2
  {
    MatchIpIff(s, h1, d1);
    MatchIpIff(s, h2, d2);
    MatchBracketIff(s, h1, d1);
    MatchBracketIff(s, h2, d2);
    if PathForm(s, path) {
      assert s[0] == 'u';
    }
  }

  // ----- The parser -----

  function PortOf(c: Option<Captures>): Option<nat>
    requires c.Some? ==> AllDigits(c.value.digits)
  {
    if c.Some? && Value(c.value.digits) <= MAX_PORT then Some(Value(c.value.digits)) else None
  }

  lemma MatchesHaveDigits(s: string)
    ensures MatchIp(s).Some? ==> AllDigits(MatchIp(s).value.digits)
    ensures MatchBracket(s).Some? ==> AllDigits(MatchBracket(s).value.digits)
  {
  }

  /** The regular expressions in the order they are tried; a port that does not fit makes a match fail. */
  function ParseSpec(s: string): Option<URI> {
    MatchesHaveDigits(s);
    if PortOf(MatchIp(s)).Some? then Some(URI(TCP, MatchIp(s).value.host, PortOf(MatchIp(s))))
    else if PortOf(MatchBracket(s)).Some? then Some(URI(TCP, MatchBracket(s).value.host, PortOf(MatchBracket(s))))
    else match MatchPath(s)
      case Some(path) => Some(URI(UNIX, path, None))
      case None => None
  }

  lemma TcpParses(s: string, u: URI, digits: string)
    requires IpForm(s, u.hostOrPath, digits) || BracketForm(s, u.hostOrPath, digits)
    requires u == URI(TCP, u.hostOrPath, Some(Value(digits))) && Value(digits) <= MAX_PORT
    ensures ParseSpec(s) == Some(u)
  {
    MatchIpIff(s, u.hostOrPath, digits);
    MatchBracketIff(s, u.hostOrPath, digits);
    if MatchIp(s).Some? {
      var c := MatchIp(s).value;
      MatchIpIff(s, c.host, c.digits);
      FormsAreDisjoint(s, c.host, c.digits, u.hostOrPath, digits, "");
    }
  }

  lemma DenotedParses(s: string, u: URI)
    requires Denotes(s, u)
    ensures ParseSpec(s) == Some(u)
  {
    if u.scheme == TCP {
      var digits :| (IpForm(s, u.hostOrPath, digits) || BracketForm(s, u.hostOrPath, digits))
        && u.port == Some(Value(digits)) && Value(digits) <= MAX_PORT;
      TcpParses(s, u, digits);
    } else {
      assert s[0] == 'u';
    }
  }

  lemma ParsedDenotes(s: string, u: URI)
    requires ParseSpec(s) == Some(u)
    ensures Denotes(s, u)
  {
    if PortOf(MatchIp(s)).Some? {
      MatchIpIff(s, u.hostOrPath, MatchIp(s).value.digits);
    } else if PortOf(MatchBracket(s)).Some? {
      MatchBracketIff(s, u.hostOrPath, MatchBracket(s).value.digits);
    }
  }

  /** The parser accepts exactly the three languages with 16-bit ports, and reads each string as it should. */
  lemma ParseIffDenotes(s: string, u: URI)
    ensures ParseSpec(s) == Some(u) <==> Denotes(s, u)
  {
    if Denotes(s, u) {
      DenotedParses(s, u);
    } else if ParseSpec(s) == Some(u) {
      ParsedDenotes(s, u);
    }
  }

  /** `URI::parse`. Its last line, which throws `UNEXPECTED_ERROR`, is never reached. */
  method ParseUri(s: string) returns (r: Result<URI, UriError>)
    ensures match ParseSpec(s) {
              case Some(u) => r == Success(u)
              case None => r == Failure(InvalidArgument)
            }
    ensures r != Failure(UnexpectedError)
  {
    MatchesHaveDigits(s);
    var scheme, host, port := "", "", 0;
    var ip, bracket, path := MatchIp(s), MatchBracket(s), MatchPath(s);
    if PortOf(ip).Some? {
      scheme, host, port := TCP, ip.value.host, PortOf(ip).value;
    } else if PortOf(bracket).Some? {
      scheme, host, port := TCP, bracket.value.host, PortOf(bracket).value;
    } else if path.Some? {
      scheme, host := UNIX, path.value;
    } else {
      return Failure(InvalidArgument);
    }
    if scheme == TCP {
      return Success(URI(scheme, host, Some(port)));
    }
    if scheme == UNIX {
      return Success(URI(scheme, host, None));
    }
    return Failure(UnexpectedError);
  }

  // ----- The printer -----

  function Print(n: nat): (s: string)
    ensures AllDigits(s) && Value(s) == n
  {
    if n < 10 then
      var s := [('0' as nat + n) as char];
      assert s[..0] == "" && Value("") == 0;
      s
    else
      var init := Print(n / 10);
      var s := init + [('0' as nat + n % 10) as char];
      assert s[..|s| - 1] == init;
      s
  }

  function Format(u: URI): string {
    u.scheme + "://"
    + (if u.scheme == TCP && ':' in u.hostOrPath then "[" + u.hostOrPath + "]" else u.hostOrPath)
    + (if u.port.Some? then ":" + Print(u.port.value) else "")
  }

  /**
    The formatter: appends piece by piece. What it prints says the address, with brackets where the host has a colon,
    whenever the address is one that can be parsed at all.
   */
  method FormatUri(u: URI) returns (out: string)
    ensures Denotes(out, u) <==> Printable(u)
    ensures ParseSpec(out) == Some(u) <==> Printable(u)
    ensures out == Format(u)
  {
    out := u.scheme + "://";
    if u.scheme == TCP {
      if ':' !in u.hostOrPath {
        out := out + u.hostOrPath;
      } else {
        out := out + ("[" + u.hostOrPath + "]");
      }
    } else {
      out := out + u.hostOrPath;
    }
    if u.port.Some? {
      out := out + (":" + Print(u.port.value));
    }
    assert out == Format(u);
    FormatThenParseIff(u);
    ParseIffDenotes(out, u);
  }

  /** What the members of a parsed address can be. */
  predicate Printable(u: URI) {
    || (u.scheme == TCP && AllHostOrColon(u.hostOrPath) && u.port.Some? && u.port.value <= MAX_PORT)
    || (u.scheme == UNIX && OneLine(u.hostOrPath) && u.port == None)
  }

  lemma FormatDenotes(u: URI)
    requires Printable(u)
    ensures Denotes(Format(u), u)
  {
    var s := Format(u);
    if u.scheme == TCP {
      var digits := Print(u.port.value);
      if ':' in u.hostOrPath {
        assert s == TCP_PREFIX + "[" + u.hostOrPath + "]" + ":" + digits;
        assert BracketForm(s, u.hostOrPath, digits);
      } else {
        assert s == TCP_PREFIX + u.hostOrPath + ":" + digits;
        assert IpForm(s, u.hostOrPath, digits);
      }
    } else {
      assert s == UNIX_PREFIX + u.hostOrPath;
    }
  }

  lemma DenotedIsPrintable(s: string, u: URI)
    requires Denotes(s, u)
    ensures Printable(u)
  {
  }

  /** An address survives printing and parsing exactly when its members are those of a parsed one. */
  lemma FormatThenParseIff(u: URI)
    ensures ParseSpec(Format(u)) == Some(u) <==> Printable(u)
  {
    ParseIffDenotes(Format(u), u);
    if Printable(u) {
      FormatDenotes(u);
    } else if Denotes(Format(u), u) {
      DenotedIsPrintable(Format(u), u);
    }
  }

  /**
    Every accepted string prints to one that parses to the same address, brackets and leading zeros notwithstanding.
   */
  lemma ParseFormatParse(s: string)
    requires ParseSpec(s).Some?
    ensures ParseSpec(Format(ParseSpec(s).value)) == ParseSpec(s)
  {
    var u := ParseSpec(s).value;
    ParseIffDenotes(s, u);
    DenotedIsPrintable(s, u);
    FormatThenParseIff(u);
  }
}
