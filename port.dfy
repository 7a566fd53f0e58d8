/**
 * The argument handling at the top of `main` in telnet-irc.c: a host is
 * required; the port is 6667 unless a second argument is given, in which
 * case it is `atoi` of it and only 0 is rejected; what is accepted reaches
 * the socket address through `htons`, which narrows it to 16 bits.
 */
module Port {
  import opened Sequences

  const DEFAULT_PORT: int := 6667
  /** The number of values of the 16-bit `sin_port` field. */
  const PORT_RANGE: int := 65536
  /** The largest value of a 32-bit `int`, the type `atoi` returns. */
  const INT_MAX: int := 0x7fff_ffff

  /**
   * `isspace` in the "C" locale, on characters: the same six values as
   * `CStrings.IsSpace`. `argv` is modelled as `string`, where the relay
   * works on raw bytes, so the predicate and its run are restated here.
   */
  predicate IsSpaceChar(c: char) {
    c == ' ' || '\t' <= c <= '\r'
  }

  predicate IsDigit(c: char) {
    '0' <= c <= '9'
  }

  predicate AllDigits(s: string) {
    forall i :: 0 <= i < |s| ==> IsDigit(s[i])
  }

  /** The length of the leading run of whitespace of `s`. */
  function SpaceRun(s: string): (n: nat)
    ensures n <= |s|
    ensures forall i :: 0 <= i < n ==> IsSpaceChar(s[i])
    ensures n < |s| ==> !IsSpaceChar(s[n])
  {
    if s == [] || !IsSpaceChar(s[0]) then 0 else 1 + SpaceRun(s[1..])
  }

  /** The length of the leading run of decimal digits of `s`. */
  function DigitRun(s: string): (n: nat)
    ensures n <= |s|
    ensures AllDigits(s[..n])
    ensures n < |s| ==> !IsDigit(s[n])
  {
    if s == [] || !IsDigit(s[0]) then 0 else 1 + DigitRun(s[1..])
  }

  /** The value of one decimal digit. */
  function DigitValue(c: char): nat
    requires IsDigit(c)
  {
    c as int - '0' as int
  }

  /** The value of a string of decimal digits, most significant first. */
  function DigitsValue(d: string): nat
    requires AllDigits(d)
  {
    if d == [] then 0
    else
      assert IsDigit(d[|d| - 1]);
      DigitsValue(d[..|d| - 1]) * 10 + DigitValue(d[|d| - 1])
  }

  /**
   * `atoi(s)`, as `strtol(s, NULL, 10)`: leading whitespace is skipped, one
   * optional sign is read, then the longest run of decimal digits; anything
   * after it is ignored, and a string with no digits there gives 0.
   */
  function Atoi(s: string): (r: int)
    ensures r < 0 ==> SpaceRun(s) < |s| && s[SpaceRun(s)] == '-'
    ensures r != 0 ==> exists i :: 0 <= i < |s| && IsDigit(s[i])
  {
    var t := s[SpaceRun(s)..];
    if |t| > 0 && (t[0] == '-' || t[0] == '+') then
      var digits := t[1..][..DigitRun(t[1..])];
      if t[0] == '-' then -(DigitsValue(digits) as int) else DigitsValue(digits)
    else
      DigitsValue(t[..DigitRun(t)])
  }

  /** The decimal numeral of `n`, without leading zeros. */
  function Decimal(n: nat): (s: string)
    ensures |s| > 0 && AllDigits(s)
    ensures |s| > 1 ==> s[0] != '0'
  {
    var digit := ['0' + ((n % 10) as char)];
    if n < 10 then digit else Decimal(n / 10) + digit
  }

  /** Reading back a decimal numeral gives its number. */
  lemma {:induction false} DigitsValueDecimal(n: nat)
    ensures DigitsValue(Decimal(n)) == n
  {
    var s := Decimal(n);
    if n >= 10 {
      DigitsValueDecimal(n / 10);
      assert s[..|s| - 1] == Decimal(n / 10);
    }
  }

  /** Leading whitespace does not change what `atoi` reads. */
  lemma AtoiAfterBlank(blank: string, t: string)
    requires forall i :: 0 <= i < |blank| ==> IsSpaceChar(blank[i])
    requires t == [] || !IsSpaceChar(t[0])
    ensures Atoi(blank + t) == Atoi(t)
  {
    SpaceRunIs(blank + t, |blank|);
    SpaceRunIs(t, 0);
    assert (blank + t)[|blank|..] == t;
  }

  /** The digit run of a numeral followed by non-digit text is the numeral. */
  lemma ReadNumeral(n: nat, rest: string)
    requires rest == [] || !IsDigit(rest[0])
    ensures DigitRun(Decimal(n) + rest) == |Decimal(n)|
    ensures (Decimal(n) + rest)[..|Decimal(n)|] == Decimal(n)
    ensures DigitsValue(Decimal(n)) == n
  {
    var d := Decimal(n);
    assert (d + rest)[..|d|] == d;
    DigitRunIs(d + rest, |d|);
    DigitsValueDecimal(n);
  }

  /** `atoi` of a numeral, plain or signed, followed by non-digit text. */
  lemma AtoiNumeral(n: nat, rest: string)
    requires rest == [] || !IsDigit(rest[0])
    ensures Atoi(Decimal(n) + rest) == n
    ensures Atoi("+" + (Decimal(n) + rest)) == n
    ensures Atoi("-" + (Decimal(n) + rest)) == -(n as int)
  {
    var t := Decimal(n) + rest;
    ReadNumeral(n, rest);
    assert t[0] == Decimal(n)[0];
    SpaceRunIs(t, 0);
    var plus, minus := "+" + t, "-" + t;
    SpaceRunIs(plus, 0);
    SpaceRunIs(minus, 0);
    assert plus[1..] == t && minus[1..] == t;
  }

  /**
   * `atoi` reads back a numeral written with leading whitespace, an optional
   * sign and any non-digit text after it.
   */
  lemma AtoiDecimal(blank: string, n: nat, rest: string)
    requires forall i :: 0 <= i < |blank| ==> IsSpaceChar(blank[i])
    requires rest == [] || !IsDigit(rest[0])
    ensures Atoi(blank + Decimal(n) + rest) == n
    ensures Atoi(blank + "+" + Decimal(n) + rest) == n
    ensures Atoi(blank + "-" + Decimal(n) + rest) == -(n as int)
  {
    var t := Decimal(n) + rest;
    AtoiNumeral(n, rest);
    assert t[0] == Decimal(n)[0];
    AtoiAfterBlank(blank, t);
    AtoiAfterBlank(blank, "+" + t);
    AtoiAfterBlank(blank, "-" + t);
    AppendAssoc(blank, Decimal(n), rest);
    AppendAssoc(blank + "+", Decimal(n), rest);
    AppendAssoc(blank, "+", t);
    AppendAssoc(blank + "-", Decimal(n), rest);
    AppendAssoc(blank, "-", t);
  }

  /** A run is determined by where it stops. */
  lemma {:induction false} SpaceRunIs(s: string, n: nat)
    requires n <= |s|
    requires forall i :: 0 <= i < n ==> IsSpaceChar(s[i])
    requires n < |s| ==> !IsSpaceChar(s[n])
    ensures SpaceRun(s) == n
  {
    if n > 0 {
      SpaceRunIs(s[1..], n - 1);
    }
  }

  /** A run is determined by where it stops. */
  lemma {:induction false} DigitRunIs(s: string, n: nat)
    requires n <= |s|
    requires AllDigits(s[..n])
    requires n < |s| ==> !IsDigit(s[n])
    ensures DigitRun(s) == n
  {
    if n > 0 {
      assert IsDigit(s[..n][0]);
      assert s[1..][..n - 1] == s[..n][1..];
      DigitRunIs(s[1..], n - 1);
    }
  }

  /**
   * Text with no digit where `atoi` expects the first one reads as 0: after
   * the leading whitespace `blank` and at most one sign, `t` is empty or
   * starts with a non-digit (and, without a sign, with neither whitespace
   * nor a sign). Examples are "", "  ", "x", " x", "+", "-x" and "- 5".
   */
  lemma AtoiNonNumeric(blank: string, sign: string, t: string)
    requires forall i :: 0 <= i < |blank| ==> IsSpaceChar(blank[i])
    requires sign == "" || sign == "+" || sign == "-"
    requires sign == "" ==> t == [] || !(IsSpaceChar(t[0]) || t[0] == '+' || t[0] == '-')
    requires t == [] || !IsDigit(t[0])
    ensures Atoi(blank + sign + t) == 0
  {
    var u := sign + t;
    assert u == [] || !IsSpaceChar(u[0]);
    AtoiAfterBlank(blank, u);
    AppendAssoc(blank, sign, t);
    SpaceRunIs(u, 0);
    if sign == "" {
      assert u == t;
      DigitRunIs(t, 0);
    } else {
      assert u[1..] == t;
      DigitRunIs(t, 0);
    }
  }

  /** Why `main` stops with the usage message. */
  datatype UsageError = NoHost | InvalidPort

  /**
   * What `main` does with its arguments: print the usage message, or try to
   * connect to `host`. `port` is the `int` it computed and `wirePort` the
   * 16-bit value `htons(port)` stores in the socket address.
   */
  datatype Startup = Usage(error: UsageError) | Connect(host: string, port: int, wirePort: int)

  /**
   * `(uint16_t) port`, the conversion `htons` applies to its `int`
   * argument: the value modulo 2^16. (The byte swap the call then does is
   * representation only.)
   */
  function Narrow16(port: int): (w: int)
    ensures 0 <= w < PORT_RANGE
    ensures (port - w) % PORT_RANGE == 0
  {
    port % PORT_RANGE
  }

  /** A port in the 16-bit range reaches the socket address unchanged. */
  lemma Narrow16InRange(port: int)
    requires 0 <= port < PORT_RANGE
    ensures Narrow16(port) == port
  {
  }

  /** `main`'s handling of `argv` (program name, host, optional port), as written. */
  function ParseArgs(argv: seq<string>): (r: Startup)
    ensures |argv| <= 1 ==> r == Usage(NoHost)
    ensures |argv| == 2 ==> r == Connect(argv[1], DEFAULT_PORT, DEFAULT_PORT)
    ensures |argv| > 2 ==> (r == Usage(InvalidPort) <==> Atoi(argv[2]) == 0)
    ensures |argv| > 2 ==> (r.Connect? <==> Atoi(argv[2]) != 0)
    ensures |argv| > 2 && r.Connect? ==>
              r.host == argv[1] && r.port == Atoi(argv[2]) && 0 <= r.wirePort < PORT_RANGE &&
              (r.port - r.wirePort) % PORT_RANGE == 0
  {
    if |argv| <= 1 then Usage(NoHost)
    else
      var port := if |argv| > 2 then Atoi(argv[2]) else DEFAULT_PORT;
      if port != 0 then Connect(argv[1], port, Narrow16(port)) else Usage(InvalidPort)
  }

  /** A numeric port argument in 1..65535 is used as given. */
  lemma ParseArgsNumeric(prog: string, host: string, n: nat)
    requires 0 < n < PORT_RANGE
    ensures ParseArgs([prog, host, Decimal(n)]) == Connect(host, n, n)
  {
    AtoiNumeral(n, "");
    assert Decimal(n) + "" == Decimal(n);
    assert Atoi(Decimal(n)) == n;
    Narrow16InRange(n);
  }

  /**
   * A port argument with no digits where `atoi` expects them (see
   * `AtoiNonNumeric`) reads as 0 and is rejected.
   */
  lemma ParseArgsNonNumeric(prog: string, host: string, blank: string, sign: string, t: string)
    requires forall i :: 0 <= i < |blank| ==> IsSpaceChar(blank[i])
    requires sign == "" || sign == "+" || sign == "-"
    requires sign == "" ==> t == [] || !(IsSpaceChar(t[0]) || t[0] == '+' || t[0] == '-')
    requires t == [] || !IsDigit(t[0])
    ensures ParseArgs([prog, host, blank + sign + t]) == Usage(InvalidPort)
  {
    AtoiNonNumeric(blank, sign, t);
  }

  /**
   * As written, any non-zero multiple of 65536 that fits in an `int` passes
   * the `port != 0` check and `htons` turns it into port 0.
   */
  lemma ParseArgsAcceptsWrappedZero(prog: string, host: string, n: nat)
    requires 0 < n <= INT_MAX && n % PORT_RANGE == 0
    ensures ParseArgs([prog, host, Decimal(n)]) == Connect(host, n, 0)
  {
    AtoiNumeral(n, "");
    assert Decimal(n) + "" == Decimal(n);
  }

  /** As written, "-1" passes the check and becomes port 65535. */
  lemma ParseArgsAcceptsNegative(prog: string, host: string)
    ensures ParseArgs([prog, host, "-1"]) == Connect(host, -1, PORT_RANGE - 1)
  {
    AtoiNumeral(1, "");
    assert "-" + (Decimal(1) + "") == "-1";
  }

  /**
   * The check the usage message implies: a given port must be in 1..65535,
   * so `htons` never changes it.
   */
  function ParseArgsChecked(argv: seq<string>): (r: Startup)
    ensures |argv| <= 1 ==> r == Usage(NoHost)
    ensures |argv| == 2 ==> r == Connect(argv[1], DEFAULT_PORT, DEFAULT_PORT)
    ensures |argv| > 2 ==> (r == Usage(InvalidPort) <==> !(0 < Atoi(argv[2]) < PORT_RANGE))
    ensures |argv| > 2 ==> (r.Connect? <==> 0 < Atoi(argv[2]) < PORT_RANGE)
    ensures r.Connect? ==> r.host == argv[1] && r.port == (if |argv| > 2 then Atoi(argv[2]) else DEFAULT_PORT)
    ensures r.Connect? ==> 0 < r.port < PORT_RANGE && r.wirePort == r.port
  {
    if |argv| <= 1 then Usage(NoHost)
    else
      var port := if |argv| > 2 then Atoi(argv[2]) else DEFAULT_PORT;
      if 0 < port < PORT_RANGE then Connect(argv[1], port, Narrow16(port)) else Usage(InvalidPort)
  }

  /** The corrected check agrees with the source on every port it accepts. */
  lemma CheckedAgreesInRange(argv: seq<string>)
    requires ParseArgsChecked(argv).Connect?
    ensures ParseArgs(argv) == ParseArgsChecked(argv)
  {
  }

  /** The corrected check rejects the wrapped-to-zero ports the source accepts. */
  lemma CheckedRejectsWrappedZero(prog: string, host: string, n: nat)
    requires 0 < n <= INT_MAX && n % PORT_RANGE == 0
    ensures ParseArgsChecked([prog, host, Decimal(n)]) == Usage(InvalidPort)
  {
    AtoiNumeral(n, "");
    assert Decimal(n) + "" == Decimal(n);
  }
}
