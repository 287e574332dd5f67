/** Option type used for "no value" results (a JavaScript null or NaN). */
module Wrappers {
  datatype Option<T> = None | Some(value: T)
}

/** The parts of JavaScript's number semantics the widgets rely on: `Number(text)`,
    `parseInt(text)`, truncation toward zero, the `%` remainder, and
    `Math.max` / `Math.min` over a list that may be empty or hold NaN. */
module JsNumber {
  import opened Wrappers
  import opened Text

  /** Truncation toward zero, as JavaScript's ToIntegerOrInfinity does. */
  function Trunc(x: real): (r: int)
    ensures x >= 0.0 ==> r as real <= x < r as real + 1.0
    ensures x < 0.0 ==> r as real - 1.0 < x <= r as real
  {
    if x >= 0.0 then x.Floor else -((-x).Floor)
  }

  /** An integer is its own truncation. */
  lemma TruncOfInt(n: int)
    ensures Trunc(n as real) == n
  {
  }

  /** `a % b` for a positive divisor: the sign follows the dividend. */
  function JsRem(a: int, b: int): (r: int)
    requires b > 0
    ensures a >= 0 ==> r == a % b
    ensures a < 0 ==> -b < r <= 0
  {
    if a >= 0 then a % b else -((-a) % b)
  }

  /** The value of the digits after a decimal point: `0.d1d2...`. */
  function FractionValue(s: string): (r: real)
    requires AllDigits(s)
    ensures 0.0 <= r <= 1.0
  {
    if s == [] then 0.0 else (DigitValue(s[0]) as real + FractionValue(s[1..])) / 10.0
  }

  /** The unsigned body of a numeric literal: digits, optionally a '.' and more
      digits, at least one digit in all. */
  function ParseUnsigned(s: string): (r: Option<real>)
    ensures r.Some? ==> r.value >= 0.0
    ensures r.Some? ==> HasDigit(s)
  {
    var k := IndexOf(s, '.');
    var ip := s[..k];
    var fp := if k < |s| then s[k + 1..] else "";
    if AllDigits(ip) && AllDigits(fp) && |ip| + |fp| > 0 then
      assert if |ip| > 0 then s[0] == ip[0] else s[k + 1] == fp[0];
      Some(DigitsValue(ip) as real + FractionValue(fp))
    else
      None
  }

  /** `Number(text)`: the empty string is 0, an optionally signed decimal literal is
      its value, anything else is NaN (None). */
  function ParseDecimal(s: string): (r: Option<real>)
    ensures s == "" ==> r == Some(0.0)
    ensures s != "" && r.Some? ==> HasDigit(s)
    ensures r.Some? && r.value < 0.0 ==> s[0] == '-'
  {
    if s == "" then Some(0.0)
    else if s[0] == '-' then
      match ParseUnsigned(s[1..])
      case Some(v) => Some(-v)
      case None => None
    else if s[0] == '+' then ParseUnsigned(s[1..])
    else ParseUnsigned(s)
  }

  lemma ParseUnsignedDigits(s: string)
    requires AllDigits(s) && s != ""
    ensures ParseUnsigned(s) == Some(DigitsValue(s) as real)
  {
    assert forall i :: 0 <= i < |s| ==> s[i] != '.' by {
      forall i | 0 <= i < |s| ensures s[i] != '.' { assert IsDigit(s[i]); }
    }
    var k := IndexOf(s, '.');
    assert s[..k] == s;
  }

  /** A non-empty digit string reads back as the number it spells. */
  lemma ParseDigits(s: string)
    requires AllDigits(s) && s != ""
    ensures ParseDecimal(s) == Some(DigitsValue(s) as real)
  {
    assert IsDigit(s[0]);
    ParseUnsignedDigits(s);
  }

  /** `Number(text)` on a decimal rendering gives back the integer. */
  lemma ParseIntToString(i: int)
    ensures ParseDecimal(IntToString(i)) == Some(i as real)
  {
    if i < 0 {
      var s := NatToString(-i);
      var t := IntToString(i);
      ParseUnsignedDigits(s);
      NatToStringRoundTrip(-i);
      assert t[0] == '-' && t[1..] == s;
      assert ParseUnsigned(t[1..]) == Some((-i) as real);
    } else {
      ParseDigits(NatToString(i));
      NatToStringRoundTrip(i);
    }
  }

  /** Some character of `s` is a decimal digit. */
  predicate HasDigit(s: string)
  {
    exists i :: 0 <= i < |s| && IsDigit(s[i])
  }

  /** The characters JavaScript's StrWhiteSpaceChar admits: the WhiteSpace set (tab,
      vertical tab, form feed, space, no-break space, byte order mark and the Unicode
      space separators) and the LineTerminator set (LF, CR, U+2028, U+2029). */
  predicate IsSpace(c: char)
  {
    c == '\t' || c == '\U{000B}' || c == '\U{000C}' || c == ' ' || c == '\U{00A0}' || c == '\U{FEFF}'
    || c == '\U{1680}' || ('\U{2000}' <= c <= '\U{200A}') || c == '\U{202F}' || c == '\U{205F}'
    || c == '\U{3000}' || c == '\n' || c == '\r' || c == '\U{2028}' || c == '\U{2029}'
  }

  function SkipSpace(s: string): (r: string)
    ensures |r| <= |s| && r == s[|s| - |r|..]
    ensures r != [] ==> !IsSpace(r[0])
  {
    if s != [] && IsSpace(s[0]) then SkipSpace(s[1..]) else s
  }

  function DigitPrefix(s: string): (r: string)
    ensures AllDigits(r) && IsPrefix(r, s)
    ensures |r| < |s| ==> !IsDigit(s[|r|])
  {
    if s != [] && IsDigit(s[0]) then [s[0]] + DigitPrefix(s[1..]) else []
  }

  /** `parseInt(text)`: leading white space, an optional sign, then the longest run
      of digits; NaN (None) when there is no digit. */
  function ParseIntPrefix(s: string): (r: Option<int>)
    ensures r.Some? ==> HasDigit(s)
    ensures r.Some? && r.value < 0 ==> SkipSpace(s) != [] && SkipSpace(s)[0] == '-'
  {
    var t := SkipSpace(s);
    var r := SignedDigits(t);
    assert r.Some? ==> HasDigit(s) by {
      if r.Some? {
        var i :| 0 <= i < |t| && IsDigit(t[i]);
        assert t[i] == s[|s| - |t| + i];
      }
    }
    r
  }

  /** What `parseInt` reads once the white space is skipped: an optional sign and
      the longest run of digits after it. */
  function SignedDigits(t: string): (r: Option<int>)
    ensures r.Some? ==> HasDigit(t)
    ensures r.Some? && r.value < 0 ==> t != [] && t[0] == '-'
  {
    if t != [] && (t[0] == '-' || t[0] == '+') then
      var d := DigitPrefix(t[1..]);
      if d == [] then None
      else
        assert t[1] == d[0];
        Some(if t[0] == '-' then -(DigitsValue(d) as int) else DigitsValue(d))
    else
      var d := DigitPrefix(t);
      if d == [] then None
      else
        assert t[0] == d[0];
        Some(DigitsValue(d))
  }

  lemma {:induction false} DigitPrefixOfDigits(s: string)
    requires AllDigits(s)
    ensures DigitPrefix(s) == s
  {
    if s != [] {
      DigitPrefixOfDigits(s[1..]);
    }
  }

  /** `parseInt` reads back what `toString` wrote, digits followed by anything else. */
  lemma ParseIntOfRendering(n: nat, rest: string)
    requires rest == [] || !IsDigit(rest[0])
    ensures ParseIntPrefix(NatToString(n) + rest) == Some(n)
  {
    ParseIntOfDigits(NatToString(n), rest);
    NatToStringRoundTrip(n);
  }

  /** A run of digits followed by a non-digit reads as the run's value. */
  lemma ParseIntOfDigits(s: string, rest: string)
    requires AllDigits(s) && s != []
    requires rest == [] || !IsDigit(rest[0])
    ensures ParseIntPrefix(s + rest) == Some(DigitsValue(s))
  {
    var t := s + rest;
    assert t[0] == s[0];
    assert IsDigit(t[0]) && t[0] != '-' && t[0] != '+';
    NoLeadingSpace(t);
    DigitPrefixRest(s, rest);
  }

  /** White space before the number does not change what `parseInt` reads. */
  lemma ParseIntSkipsSpace(w: string, s: string)
    requires forall i :: 0 <= i < |w| ==> IsSpace(w[i])
    ensures ParseIntPrefix(w + s) == ParseIntPrefix(s)
  {
    SkipSpacePrefix(w, s);
  }

  lemma {:induction false} SkipSpacePrefix(w: string, s: string)
    requires forall i :: 0 <= i < |w| ==> IsSpace(w[i])
    ensures SkipSpace(w + s) == SkipSpace(s)
  {
    if w != [] {
      assert (w + s)[0] == w[0];
      assert (w + s)[1..] == w[1..] + s;
      SkipSpacePrefix(w[1..], s);
    } else {
      assert w + s == s;
    }
  }

  lemma NoLeadingSpace(t: string)
    requires t != [] && !IsSpace(t[0])
    ensures SkipSpace(t) == t
  {
  }

  lemma {:induction false} DigitPrefixRest(s: string, rest: string)
    requires AllDigits(s)
    requires rest == [] || !IsDigit(rest[0])
    ensures DigitPrefix(s + rest) == s
  {
    if s != [] {
      assert (s + rest)[1..] == s[1..] + rest;
      DigitPrefixRest(s[1..], rest);
    } else {
      assert s + rest == rest;
    }
  }

  /** A cell value as `Math.max` sees it: a number, or something whose numeric
      conversion is NaN. */
  datatype Cell = Num(x: real) | NotNumber

  /** A JavaScript number that may also be NaN or an infinity. */
  datatype JsNum = Fin(v: real) | NaN | PosInf | NegInf

  /** `Math.max(...xs)`: -Infinity for no arguments, NaN as soon as one is NaN. */
  function MathMax(xs: seq<Cell>): (r: JsNum)
    ensures r == NegInf <==> |xs| == 0
    ensures r == NaN <==> NotNumber in xs
    ensures r != PosInf
    ensures r.Fin? ==> forall i :: 0 <= i < |xs| ==> xs[i].Num? && xs[i].x <= r.v
    ensures r.Fin? ==> exists i :: 0 <= i < |xs| && xs[i] == Num(r.v)
  {
    if xs == [] then NegInf
    else
      var rest := MathMax(xs[1..]);
      match xs[0]
      case NotNumber => NaN
      case Num(x) =>
        match rest
        case NaN => NaN
        case NegInf => Fin(x)
        case Fin(v) => Fin(if x >= v then x else v)
        case PosInf => PosInf
  }

  /** `Math.min(...xs)`: +Infinity for no arguments, NaN as soon as one is NaN. */
  function MathMin(xs: seq<Cell>): (r: JsNum)
    ensures r == PosInf <==> |xs| == 0
    ensures r == NaN <==> NotNumber in xs
    ensures r != NegInf
    ensures r.Fin? ==> forall i :: 0 <= i < |xs| ==> xs[i].Num? && r.v <= xs[i].x
    ensures r.Fin? ==> exists i :: 0 <= i < |xs| && xs[i] == Num(r.v)
  {
    if xs == [] then PosInf
    else
      var rest := MathMin(xs[1..]);
      match xs[0]
      case NotNumber => NaN
      case Num(x) =>
        match rest
        case NaN => NaN
        case PosInf => Fin(x)
        case Fin(v) => Fin(if x <= v then x else v)
        case NegInf => NegInf
  }
}
