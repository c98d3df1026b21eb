/**
 The DPoP target URI (`htu`) assembled from parsed components, section 4.2 of RFC 9449: it is a canonical
 form. `Url::parse` comes before this and is not part of the model.
 */
module Htu {
  import opened Text
  import opened Digits

  type Port = p: int | 0 <= p <= 65535

  datatype Scheme = Http | Https {
    function AsStr(): string { if this == Http then "http" else "https" }

    function DefaultPort(): Port { if this == Http then 80 else 443 }
  }

  function ParseScheme(s: string): Option<Scheme> {
    if Lower(s) == "http" then Some(Http) else if Lower(s) == "https" then Some(Https) else None
  }

  /** A scheme is recognised in any case, and no other string is. */
  lemma SchemeParsesExactly(s: string, scheme: Scheme)
    ensures ParseScheme(s) == Some(scheme) <==> EqIgnoreCase(s, scheme.AsStr())
  {
    assert Lower("http") == "http" && Lower("https") == "https";
    assert |"http"| != |"https"|;
  }

  datatype Components = Components(scheme: Scheme, host: string, port: Option<Port>, path: string)

  // ---------------------------------------------------------------------------------------------
  // Decimal ports
  // ---------------------------------------------------------------------------------------------

  function DigitChar(d: nat): char
    requires d < 10
  {
    '0' + d as char
  }

  /** Big-endian decimal digits; zero is a single '0'. */
  function PortDigits(p: nat): (ds: seq<nat>)
    ensures InBase(ds, 10)
  {
    CarryDigitsValue(p, 10);
    if p == 0 then [0] else Reverse(CarryDigits(p, 10))
  }

  function Spelled(ds: seq<nat>): (s: string)
    requires InBase(ds, 10)
    ensures |s| == |ds| && forall i :: 0 <= i < |s| ==> s[i] == DigitChar(ds[i])
  {
    seq(|ds|, i requires 0 <= i < |ds| => DigitChar(ds[i]))
  }

  function Decimal(p: nat): string { Spelled(PortDigits(p)) }

  /** Decimal parsing. */
  function ParseDecimal(s: string): nat
    requires forall i :: 0 <= i < |s| ==> IsDigit(s[i])
  {
    if s == "" then 0
    else
      assert IsDigit(s[|s| - 1]);
      ParseDecimal(s[..|s| - 1]) * 10 + (s[|s| - 1] as int - '0' as int)
  }

  lemma {:induction false} ParseSpelled(ds: seq<nat>)
    requires InBase(ds, 10)
    ensures (forall i :: 0 <= i < |ds| ==> IsDigit(Spelled(ds)[i])) && ParseDecimal(Spelled(ds)) == Number(ds, 10)
  {
    if ds != [] {
      ParseSpelled(ds[..|ds| - 1]);
      assert Spelled(ds)[..|ds| - 1] == Spelled(ds[..|ds| - 1]);
    }
  }

  /** The digits stand for the number and have no leading zero. */
  lemma DigitsNumber(p: nat)
    ensures Number(PortDigits(p), 10) == p && PortDigits(p) != [] && (PortDigits(p)[0] == 0 ==> PortDigits(p) == [0])
  {
    if p > 0 {
      CarryDigitsValue(p, 10);
      NumberIsReversedValue(Reverse(CarryDigits(p, 10)), 10);
      ReverseTwice(CarryDigits(p, 10));
    } else {
      assert Number([0], 10) == Number([], 10) * 10 + 0;
    }
  }

  lemma SpelledZero(ds: seq<nat>)
    requires InBase(ds, 10) && ds != []
    ensures Spelled(ds)[0] == '0' <==> ds[0] == 0
    ensures ds == [0] ==> Spelled(ds) == "0"
  {
  }

  /** Printing a number and parsing it back gives the number; the print has no leading zero. */
  lemma ParseInvertsPrint(p: nat)
    ensures forall i :: 0 <= i < |Decimal(p)| ==> IsDigit(Decimal(p)[i])
    ensures ParseDecimal(Decimal(p)) == p
    ensures Decimal(p) != "" && (Decimal(p)[0] == '0' ==> Decimal(p) == "0")
  {
    DigitsNumber(p);
    SpelledZero(PortDigits(p));
    ParseSpelled(PortDigits(p));
  }

  function Pow10(k: nat): nat { if k == 0 then 1 else 10 * Pow10(k - 1) }

  /** A number below a power of ten fits that many digits. */
  lemma {:induction false} DigitsFit(n: nat, k: nat)
    requires n < Pow10(k)
    ensures |CarryDigits(n, 10)| <= k
  {
    if n > 0 {
      DigitsFit(n / 10, k - 1);
    }
  }

  /** Five digits are enough for a port, so the six-byte buffer never overruns. */
  lemma {:induction false} PortFits(p: Port)
    ensures |CarryDigits(p, 10)| <= 5
  {
    assert Pow10(5) == 10 * (10 * Pow10(3)) && Pow10(3) == 10 * (10 * Pow10(1));
    DigitsFit(p, 5);
  }

  // ---------------------------------------------------------------------------------------------
  // Assembly
  // ---------------------------------------------------------------------------------------------

  function EffectivePort(c: Components): Port { if c.port.Some? then c.port.value else c.scheme.DefaultPort() }

  function EffectivePath(path: string): string { if path == "" then "/" else path }

  function PortText(c: Components): string {
    if EffectivePort(c) == c.scheme.DefaultPort() then "" else ":" + Decimal(EffectivePort(c))
  }

  function Tail(c: Components): string { PortText(c) + EffectivePath(c.path) }

  function Build(c: Components): string { c.scheme.AsStr() + "://" + c.host + PortText(c) + EffectivePath(c.path) }

  // ---------------------------------------------------------------------------------------------
  // Canonicity
  // ---------------------------------------------------------------------------------------------

  predicate IsDelimiter(ch: char) { ch == ':' || ch == '/' }

  predicate IsPlainHost(h: string) { forall i :: 0 <= i < |h| ==> !IsDelimiter(h[i]) }

  /** A bracketed address literal: one closing bracket, at the end. */
  predicate IsBracketed(h: string) {
    |h| >= 2 && h[0] == '[' && h[|h| - 1] == ']' && forall i :: 0 <= i < |h| - 1 ==> h[i] != ']'
  }

  /** The two hosts are plain, or are of the two kinds a URL parser produces. */
  predicate Comparable(g: string, h: string) {
    || (IsPlainHost(g) && IsPlainHost(h))
    || (IsHost(g) && IsHost(h))
  }

  predicate IsHost(h: string) { if h != "" && h[0] == '[' then IsBracketed(h) else IsPlainHost(h) }

  predicate IsPath(path: string) { path != "" ==> path[0] == '/' }

  /** What two components must share to have the same `htu`. */
  predicate SameTarget(a: Components, b: Components) {
    && a.scheme == b.scheme && a.host == b.host && EffectivePort(a) == EffectivePort(b)
    && EffectivePath(a.path) == EffectivePath(b.path)
  }

  /** Where the first stop character is, or the length. */
  function FirstStop(s: string, stop: char -> bool): nat {
    if s == "" || stop(s[0]) then 0 else 1 + FirstStop(s[1..], stop)
  }

  lemma {:induction false} FirstStopAfter(x: string, r: string, stop: char -> bool)
    requires r != "" && stop(r[0]) && forall i :: 0 <= i < |x| ==> !stop(x[i])
    ensures FirstStop(x + r, stop) == |x|
  {
    if x == "" {
      assert x + r == r;
    } else {
      assert (x + r)[1..] == x[1..] + r;
      FirstStopAfter(x[1..], r, stop);
    }
  }

  /** Stop-free prefixes before a stop are determined by the whole. */
  lemma PrefixUnique(x: string, r: string, y: string, q: string, stop: char -> bool)
    requires x + r == y + q && r != "" && q != "" && stop(r[0]) && stop(q[0])
    requires forall i :: 0 <= i < |x| ==> !stop(x[i])
    requires forall i :: 0 <= i < |y| ==> !stop(y[i])
    ensures x == y && r == q
  {
    FirstStopAfter(x, r, stop);
    FirstStopAfter(y, q, stop);
    assert x == (x + r)[..|x|] && y == (y + q)[..|y|];
    assert r == (x + r)[|x|..] && q == (y + q)[|y|..];
  }

  predicate IsClosing(c: char) { c == ']' }

  lemma BracketedUnique(x: string, r: string, y: string, q: string)
    requires x + r == y + q && IsBracketed(x) && IsBracketed(y)
    ensures x == y && r == q
  {
    var x', y' := x[..|x| - 1], y[..|y| - 1];
    assert x == x' + [']'] && y == y' + [']'];
    assert x + r == x' + ([']'] + r) && y + q == y' + ([']'] + q);
    PrefixUnique(x', [']'] + r, y', [']'] + q, IsClosing);
    assert r == ([']'] + r)[1..] && q == ([']'] + q)[1..];
  }

  lemma HostUnique(x: string, r: string, y: string, q: string)
    requires x + r == y + q && r != "" && q != "" && IsDelimiter(r[0]) && IsDelimiter(q[0])
    requires Comparable(x, y)
    ensures x == y && r == q
  {
    if IsPlainHost(x) && IsPlainHost(y) {
      PrefixUnique(x, r, y, q, IsDelimiter);
    } else {
      assert (x + r)[0] == (y + q)[0];
      BracketedUnique(x, r, y, q);
    }
  }

  lemma TailStarts(c: Components)
    requires IsPath(c.path)
    ensures Tail(c) != "" && IsDelimiter(Tail(c)[0]) && (Tail(c)[0] == ':' <==> PortText(c) != "")
  {
  }

  lemma NoDelimiterInDecimal(p: nat)
    ensures forall i :: 0 <= i < |Decimal(p)| ==> !IsDelimiter(Decimal(p)[i])
  {
    ParseInvertsPrint(p);
  }

  lemma DecimalInjective(p: nat, q: nat)
    requires Decimal(p) == Decimal(q)
    ensures p == q
  {
    ParseInvertsPrint(p);
    ParseInvertsPrint(q);
  }

  lemma DecimalUnique(p: nat, path: string, q: nat, path': string)
    requires Decimal(p) + path == Decimal(q) + path' && path != "" && path' != "" && path[0] == path'[0] == '/'
    ensures p == q && path == path'
  {
    NoDelimiterInDecimal(p);
    NoDelimiterInDecimal(q);
    PrefixUnique(Decimal(p), path, Decimal(q), path', IsDelimiter);
    DecimalInjective(p, q);
  }

  lemma DropColon(d: string, r: string, e: string, q: string)
    requires ":" + d + r == ":" + e + q
    ensures d + r == e + q
  {
    assert (":" + d + r)[1..] == d + r && (":" + e + q)[1..] == e + q;
  }

  /** Port text and path are determined by their concatenation. */
  lemma TailUnique(a: Components, b: Components)
    requires a.scheme == b.scheme && IsPath(a.path) && IsPath(b.path) && Tail(a) == Tail(b)
    ensures EffectivePort(a) == EffectivePort(b) && EffectivePath(a.path) == EffectivePath(b.path)
  {
    TailStarts(a);
    TailStarts(b);
    if PortText(a) == "" {
      assert Tail(a) == EffectivePath(a.path) && Tail(b) == EffectivePath(b.path);
    } else {
      var p, q := EffectivePort(a), EffectivePort(b);
      DropColon(Decimal(p), EffectivePath(a.path), Decimal(q), EffectivePath(b.path));
      DecimalUnique(p, EffectivePath(a.path), q, EffectivePath(b.path));
    }
  }

  lemma SchemeUnique(s: Scheme, r: string, t: Scheme, q: string)
    requires s.AsStr() + "://" + r == t.AsStr() + "://" + q
    ensures s == t && r == q
  {
    var x, y := s.AsStr() + "://" + r, t.AsStr() + "://" + q;
    assert x[4] == if s == Http then ':' else 's';
    assert y[4] == if t == Http then ':' else 's';
    var n := |s.AsStr()| + 3;
    assert x[n..] == r && y[n..] == q;
  }

  lemma BuildSplits(c: Components)
    ensures Build(c) == c.scheme.AsStr() + "://" + (c.host + Tail(c))
  {
  }

  /** Two outputs are equal exactly when scheme, host, effective port and path are. */
  lemma HtuIsCanonical(a: Components, b: Components)
    requires Comparable(a.host, b.host) && IsPath(a.path) && IsPath(b.path)
    ensures Build(a) == Build(b) <==> SameTarget(a, b)
  {
    if Build(a) == Build(b) {
      BuildSplits(a);
      BuildSplits(b);
      SchemeUnique(a.scheme, a.host + Tail(a), b.scheme, b.host + Tail(b));
      TailStarts(a);
      TailStarts(b);
      HostUnique(a.host, Tail(a), b.host, Tail(b));
      TailUnique(a, b);
    }
  }

  /** Scheme and slashes as they are printed. */
  function Prefix(scheme: Scheme): string { if scheme == Https then "https://" else "http://" }

  /** No port is printed if none is given, for 443 with `https` and for 80 with `http`; every other one is, in decimal. */
  function Shown(c: Components): string {
    if c.port.None? || c.port == Some(if c.scheme == Https then 443 else 80) then "" else ":" + Decimal(c.port.value)
  }

  lemma PrefixIs(scheme: Scheme)
    ensures scheme.AsStr() + "://" == Prefix(scheme)
  {
  }

  lemma ShownIs(c: Components)
    ensures PortText(c) == Shown(c)
  {
  }

  /** The target is scheme, host, a port other than the scheme's own, and the path, which is never empty. */
  lemma DefaultPortsAreOmitted(c: Components)
    ensures Build(c) == Prefix(c.scheme) + c.host + Shown(c) + (if c.path == "" then "/" else c.path)
  {
    PrefixIs(c.scheme);
    ShownIs(c);
  }

  /** Outside those hosts it is not: a colon in one host can stand for another's port separator. */
  lemma ColonInHostCollides(scheme: Scheme, host: string, port: Port, path: string)
    requires port != scheme.DefaultPort()
    ensures var a := Components(scheme, host, Some(port), path);
            var b := Components(scheme, host + (":" + Decimal(port)), None, path);
            Build(a) == Build(b) && !SameTarget(a, b)
  {
    var a := Components(scheme, host, Some(port), path);
    var b := Components(scheme, host + (":" + Decimal(port)), None, path);
    Regroup(scheme.AsStr() + "://", host, ":" + Decimal(port), EffectivePath(path));
  }

  lemma Regroup(prefix: string, host: string, port: string, path: string)
    ensures prefix + host + port + path == prefix + (host + port) + "" + path
  {
  }

  // ---------------------------------------------------------------------------------------------
  // The invariant check
  // ---------------------------------------------------------------------------------------------

  predicate StartsWithExplicitPort(s: string) { |s| >= 2 && s[0] == ':' && IsDigit(s[1]) }

  predicate HasQueryOrFragment(s: string) { exists i :: 0 <= i < |s| && (s[i] == '?' || s[i] == '#') }

  predicate InvariantsHold(c: Components, out: string) {
    && out == Build(c)
    && !HasQueryOrFragment(c.host) && !HasQueryOrFragment(c.path)
    && var prefix := c.scheme.AsStr() + "://";
       && prefix <= out && Lower(c.host) <= out[|prefix|..]
       && var after := out[|prefix| + |c.host|..];
          if c.port.None? || c.port.value == c.scheme.DefaultPort() then !StartsWithExplicitPort(after)
          else ":" + Decimal(c.port.value) <= after
  }

  lemma Pieces(c: Components)
    ensures var prefix, out := c.scheme.AsStr() + "://", Build(c);
            && prefix <= out && out[|prefix|..] == c.host + Tail(c)
            && out[|prefix| + |c.host|..] == Tail(c)
  {
    Concatenated(c.scheme.AsStr() + "://", c.host, PortText(c), EffectivePath(c.path));
  }

  lemma Concatenated(prefix: string, host: string, port: string, path: string)
    ensures var out := prefix + host + port + path;
            && prefix <= out && out[|prefix|..] == host + (port + path)
            && out[|prefix| + |host|..] == port + path
  {
  }

  lemma LowerPrefix(h: string, rest: string)
    ensures Lower(h) <= h + rest <==> Lower(h) == h
  {
    assert (h + rest)[..|h|] == h;
  }

  lemma PortLeads(c: Components)
    ensures PortText(c) <= Tail(c) && (PortText(c) == "" ==> Tail(c) == EffectivePath(c.path))
  {
    assert "" + EffectivePath(c.path) == EffectivePath(c.path);
  }

  /**
   The check passes exactly on the assembled output of a lowercase host without query or fragment marks,
   unless the path could be read as a port where none is printed.
   */
  lemma InvariantsHoldExactly(c: Components, out: string)
    ensures InvariantsHold(c, out) <==>
            && out == Build(c) && Lower(c.host) == c.host
            && !HasQueryOrFragment(c.host) && !HasQueryOrFragment(c.path)
            && (PortText(c) == "" ==> !StartsWithExplicitPort(EffectivePath(c.path)))
  {
    Pieces(c);
    LowerPrefix(c.host, Tail(c));
    PortLeads(c);
  }

  /** So it passes on every output of lowercase, query-free components with a proper path. */
  lemma OutputsPass(c: Components)
    requires Lower(c.host) == c.host && IsPath(c.path)
    requires !HasQueryOrFragment(c.host) && !HasQueryOrFragment(c.path)
    ensures InvariantsHold(c, Build(c))
  {
    InvariantsHoldExactly(c, Build(c));
  }

  // ---------------------------------------------------------------------------------------------
  // The loops
  // ---------------------------------------------------------------------------------------------

  lemma {:induction false} NextDigit(n: nat, before: seq<nat>)
    requires n > 0
    ensures |CarryDigits(n, 10)| == 1 + |CarryDigits(n / 10, 10)|
    ensures before + CarryDigits(n, 10) == before + [n % 10] + CarryDigits(n / 10, 10)
  {
  }

  /** The first loop of `decimal_port_str`: digits into the buffer, least significant first. */
  method FillBuffer(buf: array<nat>, port: Port) returns (len: nat)
    requires buf.Length == 6
    modifies buf
    ensures len <= 5 && buf[..len] == if port == 0 then [0] else CarryDigits(port, 10)
  {
    PortFits(port);
    len := 0;
    var n: nat := port;
    if n == 0 {
      buf[0] := 0;
      len := 1;
      return;
    }
    while n > 0
      invariant len + |CarryDigits(n, 10)| <= 5
      invariant buf[..len] + CarryDigits(n, 10) == CarryDigits(port, 10)
    {
      NextDigit(n, buf[..len]);
      ghost var before := buf[..len];
      buf[len] := n % 10;
      n := n / 10;
      len := len + 1;
      assert buf[..len] == before + [buf[len - 1]];
    }
  }

  /** The second loop of `decimal_port_str`: a colon, then the digits read backwards. */
  method ReadBackwards(digits: seq<nat>) returns (out: string)
    requires InBase(digits, 10)
    ensures out == ":" + Spelled(Reverse(digits))
  {
    ghost var text := Spelled(Reverse(digits));
    out := ":";
    var k := |digits|;
    while k > 0
      invariant 0 <= k <= |digits|
      invariant out == ":" + text[..|digits| - k]
    {
      k := k - 1;
      out := out + [DigitChar(digits[k])];
      assert text[..|digits| - k] == text[..|digits| - k - 1] + [text[|digits| - k - 1]];
    }
  }

  /** `decimal_port_str`: fill a six-byte buffer, then read it out in reverse. */
  method DecimalPortStr(port: Port) returns (out: string)
    ensures out == ":" + Decimal(port)
  {
    var buf := new nat[6](i => 0);
    var len := FillBuffer(buf, port);
    CarryDigitsValue(port, 10);
    assert Reverse([0]) == [0];
    out := ReadBackwards(buf[..len]);
  }

  /** `build_normalized_htu`. */
  method BuildNormalizedHtu(c: Components) returns (out: string)
    ensures out == Build(c)
  {
    var portStr := "";
    if c.port.Some? && c.port.value != c.scheme.DefaultPort() {
      portStr := DecimalPortStr(c.port.value);
    }
    var path := if c.path == "" then "/" else c.path;
    out := c.scheme.AsStr();
    out := out + "://";
    out := out + c.host;
    out := out + portStr;
    out := out + path;
  }
}
