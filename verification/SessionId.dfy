/** session::id(): the text under which a session is filed, as an encoding of its endpoint. */
module SessionId {
  import opened Wrappers
  import opened Bytes

  /** `host` is the address's own text; a V6 text may carry a zone after '%'. */
  datatype Endpoint = V4(host: string, port: u16) | V6(host: string, port: u16)

  const UNKNOWN_ID: string := "unknown"

  // ---------------------------------------------------------------- escaping

  /** Every '%' becomes "%25", every other character stays. */
  function Escape(s: string): string {
    if |s| == 0 then "" else (if s[0] == '%' then "%25" else [s[0]]) + Escape(s[1..])
  }

  /** Reads "%25" back as '%' in one pass. */
  function Unescape(s: string): string {
    if |s| == 0 then ""
    else if |s| >= 3 && s[..3] == "%25" then "%" + Unescape(s[3..])
    else [s[0]] + Unescape(s[1..])
  }

  lemma {:induction false} EscapeConcat(a: string, b: string)
    ensures Escape(a + b) == Escape(a) + Escape(b)
  {
    if |a| == 0 {
      assert a + b == b;
    } else {
      assert (a + b)[1..] == a[1..] + b;
      EscapeConcat(a[1..], b);
    }
  }

  lemma {:induction false} EscapePlain(s: string)
    requires '%' !in s
    ensures Escape(s) == s
  {
    if |s| > 0 { EscapePlain(s[1..]); }
  }

  lemma {:induction false} UnescapeEscape(s: string)
    ensures Unescape(Escape(s)) == s
  {
    if |s| > 0 {
      var rest := Escape(s[1..]);
      UnescapeEscape(s[1..]);
      if s[0] == '%' {
        assert ("%25" + rest)[..3] == "%25" && ("%25" + rest)[3..] == rest;
      } else {
        assert ([s[0]] + rest)[1..] == rest;
      }
    }
  }

  /** The strings that escaping produces: every '%' is followed by "25". */
  ghost predicate Escaped(s: string) {
    forall i :: 0 <= i < |s| && s[i] == '%' ==> i + 3 <= |s| && s[i + 1] == '2' && s[i + 2] == '5'
  }

  lemma {:induction false} EscapeIsEscaped(s: string)
    ensures Escaped(Escape(s))
  {
    if |s| > 0 {
      var rest := Escape(s[1..]);
      EscapeIsEscaped(s[1..]);
      var n := if s[0] == '%' then 3 else 1;
      assert forall i :: n <= i < |Escape(s)| ==> Escape(s)[i] == rest[i - n];
    }
  }

  /** Escaping is a bijection onto these strings. */
  lemma EscapedExactly(s: string)
    ensures Escaped(s) <==> Escape(Unescape(s)) == s
  {
    if Escaped(s) { EscapeUnescape(s); }
    EscapeIsEscaped(Unescape(s));
  }

  lemma EscapedTail(s: string, k: nat)
    requires Escaped(s) && k <= |s|
    ensures Escaped(s[k..])
  {
    assert forall i :: 0 <= i < |s[k..]| ==> s[k..][i] == s[i + k];
  }

  lemma EscapeOne(c: char, rest: string)
    ensures Escape([c] + rest) == (if c == '%' then "%25" else [c]) + Escape(rest)
  {
    assert ([c] + rest)[1..] == rest;
  }

  /** How many characters of an escaped string its first character takes. */
  function Taken(s: string): nat
    requires |s| > 0
  {
    if s[0] == '%' then 3 else 1
  }

  lemma UnescapeOne(s: string)
    requires Escaped(s) && |s| > 0
    ensures Taken(s) <= |s| && s[..Taken(s)] == (if s[0] == '%' then "%25" else [s[0]])
    ensures Unescape(s) == [s[0]] + Unescape(s[Taken(s)..])
  {
    if s[0] == '%' {
      assert s[1] == '2' && s[2] == '5';
      assert s[..3] == [s[0], s[1], s[2]] == "%25";
    } else if |s| >= 3 {
      assert s[..3][0] == s[0] && "%25"[0] == '%';
    }
  }

  lemma {:induction false} EscapeUnescape(s: string)
    requires Escaped(s)
    ensures Escape(Unescape(s)) == s
    decreases |s|
  {
    if |s| > 0 {
      var n := Taken(s);
      UnescapeOne(s);
      EscapedTail(s, n);
      EscapeUnescape(s[n..]);
      EscapeOne(s[0], Unescape(s[n..]));
      assert s == s[..n] + s[n..];
    }
  }

  /** std::string::find from a position: None is npos. */
  method Find(s: string, c: char, from: nat) returns (r: Option<nat>)
    requires from <= |s|
    ensures r.None? ==> c !in s[from..]
    ensures r.Some? ==> from <= r.value < |s| && s[r.value] == c && c !in s[from..r.value]
  {
    var i := from;
    while i < |s|
      invariant from <= i <= |s| && c !in s[from..i]
    {
      if s[i] == c { return Some(i); }
      i := i + 1;
    }
    return None;
  }

  lemma EscapePercent()
    ensures Escape("%") == "%25"
  {
    assert "%"[1..] == "";
  }

  lemma EscapeUpToPercent(done: string, plain: string)
    requires '%' !in plain
    ensures Escape(done + plain + "%") == Escape(done) + plain + "%25"
  {
    EscapePlain(plain);
    EscapeConcat(done, plain);
    EscapeConcat(done + plain, "%");
    EscapePercent();
  }

  /** One pass of the escape loop: the '%' at `at` is replaced and the position moves past it. */
  lemma EscapePass(done: string, host: string, pos: nat, at: nat)
    requires pos <= at < |host| && host[at] == '%' && '%' !in host[pos..at]
    requires host[..pos] == Escape(done)
    ensures var next, done' := host[..at] + "%25" + host[at + 1..], done + host[pos..at] + "%";
            && done' + host[at + 1..] == done + host[pos..]
            && next[..at + 3] == Escape(done') && next[at + 3..] == host[at + 1..]
  {
    EscapeUpToPercent(done, host[pos..at]);
    assert host[..at] == host[..pos] + host[pos..at];
    assert host[pos..] == host[pos..at] + "%" + host[at + 1..];
  }

  lemma EscapeRest(done: string, host: string, pos: nat)
    requires pos <= |host| && '%' !in host[pos..] && host[..pos] == Escape(done)
    ensures Escape(done + host[pos..]) == host
  {
    EscapeConcat(done, host[pos..]);
    EscapePlain(host[pos..]);
  }

  /** The escape loop: the string grows under the loop while the position moves past each insertion. */
  method EscapeInPlace(text: string) returns (host: string)
    ensures host == Escape(text)
  {
    host := text;
    var pos: nat := 0;
    ghost var done := "";
    while true
      invariant pos <= |host|
      invariant text == done + host[pos..] && host[..pos] == Escape(done)
      decreases |host| - pos
    {
      var found := Find(host, '%', pos);
      if found.None? {
        EscapeRest(done, host, pos);
        return;
      }
      EscapePass(done, host, pos, found.value);
      done := done + host[pos..found.value] + "%";
      host := host[..found.value] + "%25" + host[found.value + 1..];
      pos := found.value + 3;
    }
  }

  // ---------------------------------------------------------------- decimal ports

  function Digit(d: nat): char
    requires d < 10
  {
    '0' + d as char
  }

  /** std::to_string of an unsigned number. */
  function Decimal(n: nat): (r: string)
    ensures |r| > 0
  {
    if n < 10 then [Digit(n)] else Decimal(n / 10) + [Digit(n % 10)]
  }

  predicate IsDigits(s: string) { forall i :: 0 <= i < |s| ==> '0' <= s[i] <= '9' }

  function Value(s: string): nat
    requires IsDigits(s)
  {
    if |s| == 0 then 0 else 10 * Value(s[..|s| - 1]) + (s[|s| - 1] - '0') as nat
  }

  lemma {:induction false} ValueOfDecimal(n: nat)
    ensures IsDigits(Decimal(n)) && Value(Decimal(n)) == n
  {
    if n >= 10 {
      ValueOfDecimal(n / 10);
      assert Decimal(n)[..|Decimal(n)| - 1] == Decimal(n / 10);
    } else {
      assert [Digit(n)][..0] == "";
    }
  }

  /** `s` is the usual decimal numeral of `n`: digits only, and no zero in front of another digit. */
  ghost predicate Numeral(s: string, n: nat) {
    && |s| > 0 && IsDigits(s) && Value(s) == n
    && (|s| > 1 ==> s[0] != '0')
  }

  lemma {:induction false} DecimalIsNumeral(n: nat)
    ensures Numeral(Decimal(n), n) && (n > 0 ==> Decimal(n)[0] != '0')
  {
    ValueOfDecimal(n);
    if n >= 10 { DecimalIsNumeral(n / 10); }
  }

  /** A numeral of more than one digit is worth at least ten. */
  lemma {:induction false} LongNumeral(s: string)
    requires |s| > 1 && IsDigits(s) && s[0] != '0'
    ensures Value(s) >= 10
    decreases |s|
  {
    if |s| > 2 {
      LongNumeral(s[..|s| - 1]);
    } else {
      assert Value(s[..1]) == 10 * Value(s[..1][..0]) + (s[0] - '0') as nat;
    }
  }

  lemma TenfoldPlus(front: nat, d: nat)
    requires d < 10
    ensures (10 * front + d) / 10 == front && (10 * front + d) % 10 == d
  {
  }

  lemma LastDigit(s: string)
    requires |s| > 0 && IsDigits(s)
    ensures IsDigits(s[..|s| - 1]) && s[|s| - 1] == Digit(Value(s) % 10) && Value(s[..|s| - 1]) == Value(s) / 10
  {
    var d := (s[|s| - 1] - '0') as nat;
    assert d < 10 && Digit(d) == s[|s| - 1];
    TenfoldPlus(Value(s[..|s| - 1]), d);
  }

  /** There is only one numeral for each number. */
  lemma {:induction false} NumeralExactly(s: string, n: nat)
    ensures Numeral(s, n) <==> s == Decimal(n)
    decreases |s|
  {
    DecimalIsNumeral(n);
    if Numeral(s, n) {
      LastDigit(s);
      var front := s[..|s| - 1];
      if |s| == 1 {
        assert Value(front) == 0;
      } else {
        LongNumeral(s);
        NumeralExactly(front, n / 10);
      }
      assert s == front + [s[|s| - 1]];
    }
  }

  // ---------------------------------------------------------------- the id and its parser

  function HostText(e: Endpoint): string {
    match e
    case V4(h, _) => h
    case V6(h, _) => "[" + Escape(h) + "]"
  }

  /** The id of a session with this endpoint, or of one whose endpoint is not available. */
  function IdOf(e: Option<Endpoint>): string {
    match e
    case None => UNKNOWN_ID
    case Some(ep) => HostText(ep) + ":" + Decimal(ep.port)
  }

  /** `text` is `host` with "%25" for each '%'. */
  ghost predicate EscapeOf(text: string, host: string) { Escaped(text) && Unescape(text) == host }

  /**
   What an id looks like: the text "unknown", or the host, a ':' and the port's numeral, where
   an IPv6 host is escaped and stands in brackets.
   */
  ghost predicate Spells(id: string, e: Option<Endpoint>) {
    match e
    case None => id == "unknown"
    case Some(V4(h, p)) => |h| < |id| && id[..|h| + 1] == h + ":" && Numeral(id[|h| + 1..], p)
    case Some(V6(h, p)) =>
      exists k: nat :: k + 2 < |id| && Bracketed(id, k) && EscapeOf(id[1..k], h) && Numeral(id[k + 2..], p)
  }

  /** A '[' in front, and a ']' at `k` that is followed by ':'. */
  predicate Bracketed(id: string, k: nat) {
    0 < k && k + 1 < |id| && id[0] == '[' && id[k] == ']' && id[k + 1] == ':'
  }

  lemma EscapeOfExactly(text: string, host: string)
    ensures EscapeOf(text, host) <==> text == Escape(host)
  {
    EscapedExactly(text);
    UnescapeEscape(host);
    EscapeIsEscaped(host);
  }

  lemma SpellsV4(id: string, h: string, p: u16)
    ensures Spells(id, Some(V4(h, p))) <==> id == h + ":" + Decimal(p)
  {
    var d := Decimal(p);
    if id == h + ":" + d {
      assert id[..|h| + 1] == h + ":" && id[|h| + 1..] == d;
      NumeralExactly(d, p);
    }
    if Spells(id, Some(V4(h, p))) {
      NumeralExactly(id[|h| + 1..], p);
      assert id == id[..|h| + 1] + id[|h| + 1..];
    }
  }

  lemma BracketedParts(text: string, port: string)
    requires |port| > 0
    ensures var id, k := "[" + text + "]" + ":" + port, |text| + 1;
            Bracketed(id, k) && k + 2 < |id| && id[1..k] == text && id[k + 2..] == port
  {
  }

  lemma BracketedWhole(id: string, k: nat)
    requires Bracketed(id, k)
    ensures id == "[" + id[1..k] + "]" + ":" + id[k + 2..]
  {
  }

  lemma SpellsV6(id: string, h: string, p: u16)
    ensures Spells(id, Some(V6(h, p))) <==> id == "[" + Escape(h) + "]" + ":" + Decimal(p)
  {
    if id == "[" + Escape(h) + "]" + ":" + Decimal(p) {
      BracketedParts(Escape(h), Decimal(p));
      NumeralExactly(Decimal(p), p);
      EscapeOfExactly(Escape(h), h);
    }
    if Spells(id, Some(V6(h, p))) {
      var k: nat :| k + 2 < |id| && Bracketed(id, k) && EscapeOf(id[1..k], h) && Numeral(id[k + 2..], p);
      NumeralExactly(id[k + 2..], p);
      EscapeOfExactly(id[1..k], h);
      BracketedWhole(id, k);
    }
  }

  /** An id is what it looks like: there is exactly one text of this shape for each endpoint. */
  lemma IdExactly(id: string, e: Option<Endpoint>)
    ensures Spells(id, e) <==> id == IdOf(e)
  {
    match e
    case None =>
    case Some(V4(h, p)) => SpellsV4(id, h, p);
    case Some(V6(h, p)) =>
      SpellsV6(id, h, p);
      assert IdOf(e) == "[" + Escape(h) + "]" + ":" + Decimal(p);
  }

  method Id(remote: Option<Endpoint>) returns (id: string)
    ensures id == IdOf(remote) && Spells(id, remote)
  {
    IdExactly(IdOf(remote), remote);
    if remote.None? { return UNKNOWN_ID; }
    var host := remote.value.host;
    if remote.value.V6? {
      host := EscapeInPlace(host);
      host := "[" + host + "]";
    }
    return host + ":" + Decimal(remote.value.port);
  }

  /** The position of the last occurrence, or the length if there is none. */
  function LastIndex(s: string, c: char): (k: nat)
    ensures k <= |s| && (k < |s| ==> s[k] == c) && forall i :: k < i < |s| ==> s[i] != c
    ensures k == |s| ==> c !in s
  {
    if |s| == 0 then 0
    else if s[|s| - 1] == c then |s| - 1
    else var k := LastIndex(s[..|s| - 1], c); if k == |s| - 1 then |s| else k
  }

  predicate IsBracketed(host: string) { |host| >= 2 && host[0] == '[' && host[|host| - 1] == ']' }

  /** Splits at the last ':', tells IPv6 by the brackets, and undoes the escaping. */
  function Parse(id: string): Option<Endpoint> {
    var k := LastIndex(id, ':');
    if k == |id| || !IsDigits(id[k + 1..]) || Value(id[k + 1..]) >= 0x1_0000 then None
    else
      var host, port := id[..k], Value(id[k + 1..]);
      if IsBracketed(host) then Some(V6(Unescape(host[1..|host| - 1]), port)) else Some(V4(host, port))
  }

  lemma SplitAtLastColon(host: string, port: nat)
    ensures var id := host + ":" + Decimal(port);
            && LastIndex(id, ':') == |host| && id[..|host|] == host && id[|host| + 1..] == Decimal(port)
  {
    var id := host + ":" + Decimal(port);
    ValueOfDecimal(port);
    assert id[|host| + 1..] == Decimal(port);
    assert forall i :: |host| < i < |id| ==> id[i] == Decimal(port)[i - |host| - 1];
    assert id[|host|] == ':';
  }

  /** IPv4 texts never look bracketed: "a.b.c.d" has no '['. */
  predicate PlainV4(e: Endpoint) { e.V4? ==> !IsBracketed(e.host) }

  /**
   The id can be read back exactly: parsing returns the endpoint's family, host text and
   port, if and only if a V4 host text does not itself stand in brackets.
   */
  lemma ParseInvertsId(e: Endpoint)
    ensures Parse(IdOf(Some(e))) == Some(e) <==> PlainV4(e)
  {
    SplitAtLastColon(HostText(e), e.port);
    ValueOfDecimal(e.port);
    if e.V6? {
      UnescapeEscape(e.host);
      assert HostText(e)[1..|HostText(e)| - 1] == Escape(e.host);
    }
  }

  /** A V4 text that spells the bracketed form of a V6 text with the same port. */
  predicate Masquerades(a: Endpoint, b: Endpoint) {
    a.V4? && b.V6? && a.port == b.port && a.host == HostText(b)
  }

  /** Exactly when two sessions share an id. */
  lemma SameId(a: Endpoint, b: Endpoint)
    ensures IdOf(Some(a)) == IdOf(Some(b)) <==> a == b || Masquerades(a, b) || Masquerades(b, a)
  {
    SplitAtLastColon(HostText(a), a.port);
    SplitAtLastColon(HostText(b), b.port);
    ValueOfDecimal(a.port);
    ValueOfDecimal(b.port);
    if a.V6? && b.V6? {
      UnescapeEscape(a.host);
      UnescapeEscape(b.host);
      assert HostText(a)[1..|HostText(a)| - 1] == Escape(a.host);
      assert HostText(b)[1..|HostText(b)| - 1] == Escape(b.host);
    }
  }

  lemma NeverUnknown(e: Endpoint)
    ensures IdOf(Some(e)) != UNKNOWN_ID
  {
    SplitAtLastColon(HostText(e), e.port);
    assert ':' !in UNKNOWN_ID;
  }

  /** Distinct endpoints with unbracketed IPv4 texts have distinct ids, and none is the unknown id. */
  lemma IdsAreKeys(a: Option<Endpoint>, b: Option<Endpoint>)
    requires (a.Some? ==> PlainV4(a.value)) && (b.Some? ==> PlainV4(b.value))
    ensures IdOf(a) == IdOf(b) <==> a == b
  {
    match (a, b)
    case (Some(x), Some(y)) => SameId(x, y);
    case (Some(x), None) => NeverUnknown(x);
    case (None, Some(y)) => NeverUnknown(y);
    case (None, None) =>
  }
}
