/**
 * serde_json's externally tagged encoding of the enums the menus
 * serialize, in its compact form:
 *   unit variant      V            "V"
 *   struct variant    V { f: n }   {"V":{"f":n}}
 *   newtype variant   V(n)         {"V":n}
 * Numbers follow JSON's grammar: an optional `-`, then `0` or digits without
 * a leading zero. `Parse` inverts `Render`, and a number it accepts is the
 * value's own spelling, except that `-0` reads as 0.
 */
module Json {
  import opened Wrappers
  import opened Decimal

  predicate IsIdentChar(c: char) { 'a' <= c <= 'z' || 'A' <= c <= 'Z' || '0' <= c <= '9' || c == '_' }

  /** A variant or field name: non-empty, made of identifier characters. */
  predicate IsIdent(s: string) { |s| > 0 && forall i :: 0 <= i < |s| ==> IsIdentChar(s[i]) }

  datatype Tagged =
    | Unit(name: string)
    | Struct(name: string, field: string, value: int)
    | Newtype(name: string, value: int)

  predicate WellNamed(t: Tagged)
  {
    IsIdent(t.name) && (t.Struct? ==> IsIdent(t.field))
  }

  function Render(t: Tagged): string
  {
    match t
      case Unit(n) => "\"" + n + "\""
      case Struct(n, f, v) => "{\"" + n + "\":{\"" + f + "\":" + IntToString(v) + "}}"
      case Newtype(n, v) => "{\"" + n + "\":" + IntToString(v) + "}"
  }

  /** A JSON integer: `-?(0|[1-9][0-9]*)`. */
  function ParseNumber(s: string): (r: Option<int>)
    ensures r.Some? ==> s == IntToString(r.value) || s == "-0"
  {
    var negative := |s| > 0 && s[0] == '-';
    var digits := if negative then s[1..] else s;
    if !NoLeadingZero(digits) then None
    else
      NoLeadingZeroSpelling(digits);
      if negative then
        assert s == "-" + digits;
        Some(-(ParseDigits(digits) as int))
      else Some(ParseDigits(digits))
  }

  lemma NumberRoundTrip(v: int)
    ensures ParseNumber(IntToString(v)) == Some(v)
  {
    var s := IntToString(v);
    if v < 0 {
      assert s[1..] == NatToString(-v);
      NatRoundTrip(-v);
    } else {
      NatRoundTrip(v);
    }
  }

  /** A leading zero before further digits is rejected, with or without a sign. */
  lemma LeadingZeroRejected(d: string)
    requires |d| > 0 && AllDigits(d)
    ensures ParseNumber("0" + d) == None && ParseNumber("-0" + d) == None
  {
    assert ("-0" + d)[1..] == "0" + d;
  }

  /** Number of leading identifier characters of `s`. */
  function IdentLength(s: string): (k: nat)
    ensures k <= |s|
    ensures forall i :: 0 <= i < k ==> IsIdentChar(s[i])
    ensures k < |s| ==> !IsIdentChar(s[k])
  {
    if s != [] && IsIdentChar(s[0]) then 1 + IdentLength(s[1..]) else 0
  }

  /** The text after `{"name":{"`, which must be `field":n}}`. */
  function ParseFieldBody(name: string, r: string): Option<Tagged>
  {
    var k := IdentLength(r);
    var rest := r[k..];
    if k > 0 && |rest| >= 4 && rest[..2] == "\":" && rest[|rest| - 2..] == "}}" then
      match ParseNumber(rest[2..|rest| - 2])
        case Some(v) => Some(Struct(name, r[..k], v))
        case None => None
    else None
  }

  /** The body after `{"name":`, either `{"field":n}}` or `n}`. */
  function ParseBody(name: string, b: string): Option<Tagged>
  {
    if |b| >= 2 && b[..2] == "{\"" then ParseFieldBody(name, b[2..])
    else if |b| >= 1 && b[|b| - 1] == '}' then
      match ParseNumber(b[..|b| - 1])
        case Some(v) => Some(Newtype(name, v))
        case None => None
    else None
  }

  function Parse(s: string): Option<Tagged>
  {
    if |s| >= 2 && s[0] == '"' && s[|s| - 1] == '"' then
      if IsIdent(s[1..|s| - 1]) then Some(Unit(s[1..|s| - 1])) else None
    else if |s| >= 2 && s[..2] == "{\"" then
      var r := s[2..];
      var k := IdentLength(r);
      var rest := r[k..];
      if k > 0 && |rest| >= 2 && rest[..2] == "\":" then ParseBody(r[..k], rest[2..]) else None
    else None
  }

  lemma {:induction false} IdentLengthOf(id: string, rest: string)
    requires forall i :: 0 <= i < |id| ==> IsIdentChar(id[i])
    requires rest != [] && !IsIdentChar(rest[0])
    ensures IdentLength(id + rest) == |id|
    decreases |id|
  {
    if id != [] {
      assert (id + rest)[1..] == id[1..] + rest;
      IdentLengthOf(id[1..], rest);
    }
  }

  lemma IntToStringStart(v: int)
    ensures IntToString(v)[0] == '-' || IsDigit(IntToString(v)[0])
  {
  }

  /** Parsing `{"name":` followed by a body hands the body to `ParseBody`. */
  lemma ParseHead(n: string, body: string)
    requires IsIdent(n)
    ensures Parse("{\"" + n + "\":" + body) == ParseBody(n, body)
  {
    var s := "{\"" + n + "\":" + body;
    var tail := "\":" + body;
    assert s == "{\"" + (n + tail);
    assert s[0] == '{';
    assert s[..2] == "{\"";
    var r := s[2..];
    assert r == n + tail;
    IdentLengthOf(n, tail);
    assert r[..|n|] == n;
    assert r[|n|..] == tail;
    assert tail[2..] == body;
  }

  lemma ParseFieldBodyOf(n: string, f: string, v: int)
    requires IsIdent(f)
    ensures ParseFieldBody(n, f + ("\":" + IntToString(v) + "}}")) == Some(Struct(n, f, v))
  {
    var iv := IntToString(v);
    var tail := "\":" + iv + "}}";
    var r := f + tail;
    IdentLengthOf(f, tail);
    assert r[..|f|] == f;
    var rest := r[|f|..];
    assert rest == tail;
    assert |rest| >= 4;
    assert rest[..2] == "\":";
    assert rest[|rest| - 2..] == "}}";
    assert rest[2..|rest| - 2] == iv;
    NumberRoundTrip(v);
  }

  lemma ParseBodyStruct(n: string, f: string, v: int)
    requires IsIdent(f)
    ensures ParseBody(n, "{\"" + f + "\":" + IntToString(v) + "}}") == Some(Struct(n, f, v))
  {
    var iv := IntToString(v);
    var b := "{\"" + f + "\":" + iv + "}}";
    var tail := "\":" + iv + "}}";
    assert b == "{\"" + (f + tail);
    assert b[..2] == "{\"";
    var r := b[2..];
    assert r == f + tail;
    ParseFieldBodyOf(n, f, v);
  }

  lemma ParseBodyNewtype(n: string, v: int)
    ensures ParseBody(n, IntToString(v) + "}") == Some(Newtype(n, v))
  {
    var iv := IntToString(v);
    var b := iv + "}";
    IntToStringStart(v);
    assert b[0] == iv[0];
    assert b[..|b| - 1] == iv;
    NumberRoundTrip(v);
  }

  /** Every well-named value renders to a string that parses back to it. */
  lemma RoundTrip(t: Tagged)
    requires WellNamed(t)
    ensures Parse(Render(t)) == Some(t)
  {
    match t
      case Unit(n) =>
        var s := Render(t);
        assert s[1..|s| - 1] == n;
      case Struct(n, f, v) =>
        var body := "{\"" + f + "\":" + IntToString(v) + "}}";
        assert Render(t) == "{\"" + n + "\":" + body;
        ParseHead(n, body);
        ParseBodyStruct(n, f, v);
      case Newtype(n, v) =>
        var body := IntToString(v) + "}";
        assert Render(t) == "{\"" + n + "\":" + body;
        ParseHead(n, body);
        ParseBodyNewtype(n, v);
  }

  /** Rendering is injective on well-named values. */
  lemma RenderInjective(t: Tagged, u: Tagged)
    requires WellNamed(t) && WellNamed(u)
    ensures Render(t) == Render(u) ==> t == u
  {
    RoundTrip(t);
    RoundTrip(u);
  }
}
