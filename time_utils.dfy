/** The time helpers of utils.ts: milliseconds since midnight (UTC), the
    `HH:MM:SS.mmm` rendering, its `DD.MM.YYYYT...` variant and the `time` branch of
    the text parser. Time values follow section 21.4.1 of ECMA-262: an integer
    count of milliseconds whose magnitude is at most 8.64e15; UTC fields are taken
    with floored division, so they are never negative. */
module TimeUtils {
  import opened Wrappers
  import opened Text
  import opened JsNumber

  const MsPerSecond: int := 1000
  const MsPerMinute: int := 60000
  const MsPerHour: int := 3600000
  const MsPerDay: int := 86400000
  const MaxTimeValue: int := 8_640_000_000_000_000

  /** Whether `new Date(t)` is a valid date (otherwise every field reads NaN). */
  predicate ValidTime(t: int) { -MaxTimeValue <= t <= MaxTimeValue }

  function UtcHours(t: int): int { (t / MsPerHour) % 24 }
  function UtcMinutes(t: int): int { (t / MsPerMinute) % 60 }
  function UtcSeconds(t: int): int { (t / MsPerSecond) % 60 }
  function UtcMilliseconds(t: int): int { t % MsPerSecond }

  /** The four UTC fields recombine into the time within the day. */
  lemma {:induction false} FieldsRecombine(t: int)
    ensures UtcHours(t) * MsPerHour + UtcMinutes(t) * MsPerMinute
            + UtcSeconds(t) * MsPerSecond + UtcMilliseconds(t) == t % MsPerDay
    ensures 0 <= UtcHours(t) < 24 && 0 <= UtcMinutes(t) < 60
    ensures 0 <= UtcSeconds(t) < 60 && 0 <= UtcMilliseconds(t) < 1000
  {
    var q1, ms := t / 1000, t % 1000;
    assert t == 1000 * q1 + ms;
    var q2, s := q1 / 60, q1 % 60;
    assert q1 == 60 * q2 + s;
    assert t / MsPerMinute == q2;
    var q3, m := q2 / 60, q2 % 60;
    assert q2 == 60 * q3 + m;
    assert t / MsPerHour == q3;
    var q4, h := q3 / 24, q3 % 24;
    assert q3 == 24 * q4 + h;
    assert t == MsPerDay * q4 + (h * MsPerHour + m * MsPerMinute + s * MsPerSecond + ms);
  }

  /** `extractTimeInMilliseconds(timestamp)`: the UTC hours, minutes, seconds and
      milliseconds of the date recombined; NaN (None) for an invalid date. */
  function ExtractTimeInMilliseconds(t: int): (r: Option<int>)
    ensures r.Some? <==> ValidTime(t)
    ensures r.Some? ==> 0 <= r.value < MsPerDay && r.value == t % MsPerDay
  {
    if !ValidTime(t) then None
    else
      FieldsRecombine(t);
      Some(UtcHours(t) * MsPerHour + UtcMinutes(t) * MsPerMinute
           + UtcSeconds(t) * MsPerSecond + UtcMilliseconds(t))
  }

  /** Extracting the time of day twice changes nothing. */
  lemma ExtractTimeIdempotent(t: int)
    requires ValidTime(t)
    ensures ValidTime(ExtractTimeInMilliseconds(t).value)
    ensures ExtractTimeInMilliseconds(ExtractTimeInMilliseconds(t).value)
            == ExtractTimeInMilliseconds(t)
  {
    var r := ExtractTimeInMilliseconds(t).value;
    assert 0 <= r < MsPerDay;
    assert r % MsPerDay == r;
  }

  function Pad2(n: int): string { PadStart(IntToString(n), 2, '0') }
  function Pad3(n: int): string { PadStart(IntToString(n), 3, '0') }

  /** `displayTimeString(time)`: UTC `HH:MM:SS` and the JavaScript remainder
      `time % 1000`, padded to 2, 2, 2 and 3 characters. */
  function DisplayTimeString(t: int): (r: string)
    ensures |r| >= 12
    ensures ValidTime(t) ==> r[2] == ':' && r[5] == ':' && r[8] == '.'
    ensures ValidTime(t) ==> AllDigits(r[..2]) && AllDigits(r[3..5]) && AllDigits(r[6..8])
    ensures !ValidTime(t) ==> r[..12] == "NaN:NaN:NaN."
  {
    var nsRem := JsRem(t, 1000);
    if !ValidTime(t) then "NaN:NaN:NaN." + Pad3(nsRem)
    else Clock(UtcHours(t), UtcMinutes(t), UtcSeconds(t), nsRem)
  }

  /** The `HH:MM:SS.mmm` join of the padded fields. */
  function Clock(h: int, m: int, s: int, ms: int): (r: string)
    requires 0 <= h < 100 && 0 <= m < 100 && 0 <= s < 100
    ensures |r| >= 12 && r[2] == ':' && r[5] == ':' && r[8] == '.'
    ensures AllDigits(r[..2]) && AllDigits(r[3..5]) && AllDigits(r[6..8])
  {
    ClockShape(h, m, s, ms);
    Pad2(h) + ":" + Pad2(m) + ":" + Pad2(s) + "." + Pad3(ms)
  }

  /** `displayDateTimeString(time)`: the date prefix (UTC day and month and the
      host's local year, supplied as `datePart`), a `T`, then the time of day. */
  function DisplayDateTimeString(t: int, datePart: string): (r: string)
    ensures |r| >= |datePart| + 13 && |r| == |datePart| + 1 + |DisplayTimeString(t)|
    ensures r[..|datePart|] == datePart && r[|datePart|] == 'T'
    ensures r[|datePart| + 1..] == DisplayTimeString(t)
  {
    var nsRem := JsRem(t, 1000);
    DateTimeTextOf(t, datePart);
    SplitAtT(datePart, DisplayTimeString(t));
    if !ValidTime(t) then
      datePart + "T" + "NaN:NaN:NaN." + Pad3(nsRem)
    else
      datePart + "T" + Pad2(UtcHours(t)) + ":" + Pad2(UtcMinutes(t)) + ":"
      + Pad2(UtcSeconds(t)) + "." + Pad3(nsRem)
  }

  /** Both spellings of the date-time text are the date part, a `T` and the time text. */
  lemma DateTimeTextOf(t: int, datePart: string)
    ensures !ValidTime(t) ==>
      datePart + "T" + "NaN:NaN:NaN." + Pad3(JsRem(t, 1000)) == datePart + "T" + DisplayTimeString(t)
    ensures ValidTime(t) ==>
      datePart + "T" + Pad2(UtcHours(t)) + ":" + Pad2(UtcMinutes(t)) + ":"
      + Pad2(UtcSeconds(t)) + "." + Pad3(JsRem(t, 1000)) == datePart + "T" + DisplayTimeString(t)
  {
    var time := DisplayTimeString(t);
    TimeTextOf(t);
    Associate(datePart, "T", time);
    if ValidTime(t) {
      JoinAtT(datePart, Pad2(UtcHours(t)), Pad2(UtcMinutes(t)), Pad2(UtcSeconds(t)), Pad3(JsRem(t, 1000)));
    } else {
      Associate(datePart + "T", "NaN:NaN:NaN.", Pad3(JsRem(t, 1000)));
    }
  }

  lemma Associate(a: string, b: string, c: string)
    ensures a + b + c == a + (b + c)
  {
  }

  lemma Regroup(a: string, b: string, c: string, d: string, e: string)
    ensures a + b + c + d + e == a + b + (c + d + e)
  {
    Associate(a + b + c, d, e);
    Associate(a + b, c, d + e);
    Associate(c, d, e);
  }

  /** The time text spelled out, valid or not. */
  lemma TimeTextOf(t: int)
    ensures !ValidTime(t) ==> DisplayTimeString(t) == "NaN:NaN:NaN." + Pad3(JsRem(t, 1000))
    ensures ValidTime(t) ==>
      DisplayTimeString(t) == Pad2(UtcHours(t)) + ":" + Pad2(UtcMinutes(t))
            + ":" + Pad2(UtcSeconds(t)) + "." + Pad3(JsRem(t, 1000))
  {
  }

  lemma ClockShape(h: int, m: int, s: int, ms: int)
    requires 0 <= h < 100 && 0 <= m < 100 && 0 <= s < 100
    ensures var r := Pad2(h) + ":" + Pad2(m) + ":" + Pad2(s) + "." + Pad3(ms);
      && |r| >= 12 && r[2] == ':' && r[5] == ':' && r[8] == '.'
      && AllDigits(r[..2]) && AllDigits(r[3..5]) && AllDigits(r[6..8])
  {
    Pad2Digits(h);
    Pad2Digits(m);
    Pad2Digits(s);
    JoinSeparators(Pad2(h), Pad2(m), Pad2(s), Pad3(ms));
  }

  lemma Pad2Digits(n: int)
    requires 0 <= n < 100
    ensures |Pad2(n)| == 2 && AllDigits(Pad2(n))
  {
    Pad2Field(n);
  }

  /** `x + "T" + y` holds `x`, then a `T`, then `y`. */
  lemma SplitAtT(x: string, y: string)
    ensures var r := x + "T" + y;
      && |r| == |x| + 1 + |y| && r[..|x|] == x && r[|x|] == 'T' && r[|x| + 1..] == y
  {
    var r := x + "T" + y;
    assert r[..|x|] == x;
    assert r[|x| + 1..] == y;
  }

  /** A string with `x`, then a `T`, then `y` is `x + ("T" + y)`. */
  lemma JoinAround(r: string, x: string, y: string)
    requires |r| == |x| + 1 + |y| && r[..|x|] == x && r[|x|] == 'T' && r[|x| + 1..] == y
    ensures r == x + ("T" + y)
  {
    assert forall i :: 0 <= i < |r| ==> r[i] == (x + ("T" + y))[i] by {
      forall i | 0 <= i < |r|
        ensures r[i] == (x + ("T" + y))[i]
      {
        if i < |x| {
          assert r[i] == r[..|x|][i];
        } else if i > |x| {
          assert r[i] == r[|x| + 1..][i - |x| - 1];
        }
      }
    }
  }

  /** Two-digit fields joined by `:`, `:` and `.` put the separators at 2, 5 and 8. */
  lemma JoinSeparators(h: string, m: string, s: string, ms: string)
    requires |h| == 2 && |m| == 2 && |s| == 2 && |ms| >= 3
    ensures var r := h + ":" + m + ":" + s + "." + ms;
      && |r| >= 12 && r[2] == ':' && r[5] == ':' && r[8] == '.'
      && r[..2] == h && r[3..5] == m && r[6..8] == s
  {
    var r := h + ":" + m + ":" + s + "." + ms;
    assert r[..2] == h && r[3..5] == m && r[6..8] == s;
  }

  /** `s` is exactly `width` decimal digits spelling `n`. */
  predicate DigitField(s: string, width: nat, n: int)
  {
    |s| == width && AllDigits(s) && DigitsValue(s) == n
  }

  /** A padded field of a small non-negative number is exactly `width` digits. */
  lemma PaddedField(n: nat, width: nat)
    requires 1 <= width && n < Pow10(width)
    ensures DigitField(PadStart(IntToString(n), width, '0'), width, n)
  {
    NatToStringLength(n, width);
    PaddedRoundTrip(n, width);
  }

  lemma Pad2Field(n: int)
    requires 0 <= n < 100
    ensures DigitField(Pad2(n), 2, n)
  {
    PaddedField(n, 2);
  }

  lemma Pad3Field(n: int)
    requires 0 <= n < 1000
    ensures DigitField(Pad3(n), 3, n)
  {
    PaddedField(n, 3);
  }

  /** For a valid non-negative time the rendering joins the UTC hours, minutes,
      seconds and milliseconds (the remainder agrees with the UTC field). */
  lemma RenderedText(t: int)
    requires 0 <= t <= MaxTimeValue
    ensures DisplayTimeString(t)
            == Pad2(UtcHours(t)) + ":" + Pad2(UtcMinutes(t)) + ":" + Pad2(UtcSeconds(t))
               + "." + Pad3(UtcMilliseconds(t))
  {
    assert JsRem(t, 1000) == UtcMilliseconds(t);
  }

  /** `HH:MM:SS.mmm`: twelve characters, separators at 2, 5 and 8, digits elsewhere. */
  predicate TimeShaped(r: string)
  {
    && |r| == 12 && r[2] == ':' && r[5] == ':' && r[8] == '.'
    && AllDigits(r[0..2]) && AllDigits(r[3..5]) && AllDigits(r[6..8]) && AllDigits(r[9..12])
  }

  lemma JoinShape(h: string, m: string, s: string, ms: string)
    requires |h| == 2 && |m| == 2 && |s| == 2 && |ms| == 3
    requires AllDigits(h) && AllDigits(m) && AllDigits(s) && AllDigits(ms)
    ensures TimeShaped(h + ":" + m + ":" + s + "." + ms)
  {
    var r := h + ":" + m + ":" + s + "." + ms;
    assert r[0..2] == h && r[3..5] == m && r[6..8] == s && r[9..12] == ms;
  }

  /** For a valid non-negative time the rendering is `HH:MM:SS.mmm`. */
  lemma DisplayTimeShape(t: int)
    requires 0 <= t <= MaxTimeValue
    ensures TimeShaped(DisplayTimeString(t))
  {
    RenderedText(t);
    FieldsRecombine(t);
    Pad2Field(UtcHours(t));
    Pad2Field(UtcMinutes(t));
    Pad2Field(UtcSeconds(t));
    Pad3Field(UtcMilliseconds(t));
    JoinShape(Pad2(UtcHours(t)), Pad2(UtcMinutes(t)), Pad2(UtcSeconds(t)), Pad3(UtcMilliseconds(t)));
  }

  /** Regrouping the date-time concatenation around its `T`. */
  lemma JoinAtT(x: string, a: string, b: string, c: string, d: string)
    ensures x + "T" + a + ":" + b + ":" + c + "." + d
            == x + ("T" + (a + ":" + b + ":" + c + "." + d))
  {
  }

  /** `displayDateTimeString` is the date part, a `T`, and `displayTimeString`. */
  lemma DateTimeSplit(t: int, datePart: string)
    ensures DisplayDateTimeString(t, datePart) == datePart + ("T" + DisplayTimeString(t))
  {
    JoinAround(DisplayDateTimeString(t, datePart), datePart, DisplayTimeString(t));
  }

  /** The part after the `T` of `displayDateTimeString` is `displayTimeString`. */
  lemma DateTimeEndsWithTime(t: int, datePart: string)
    requires 'T' !in datePart
    ensures var r := DisplayDateTimeString(t, datePart);
      && IndexOf(r, 'T') == |datePart|
      && r[|datePart| + 1..] == DisplayTimeString(t)
  {
    DateTimeSplit(t, datePart);
    AfterMarker(datePart, DisplayTimeString(t));
  }

  /** In `x + ("T" + y)` with no `T` in `x`, the first `T` ends `x` and `y` follows it. */
  lemma AfterMarker(x: string, y: string)
    requires 'T' !in x
    ensures IndexOf(x + ("T" + y), 'T') == |x|
    ensures (x + ("T" + y))[|x| + 1..] == y
  {
    IndexOfPast(x, 'T', "T" + y);
  }

  /** The formatter names the widgets dispatch on. */
  datatype Formatter = DateTimeFmt | DateFmt | TimeFmt | OtherFmt

  /** What `parseDateTimeValue` hands back: a number, NaN, null, or a TypeError
      thrown while taking the text apart. */
  datatype Parsed = Value(ms: int) | Invalid | Null | Thrown

  /** JavaScript truthiness of the parse result, as `if (value)` tests it. */
  predicate Truthy(p: Parsed) { p.Value? && p.ms != 0 }

  /** The `time` branch: `HH:MM:SS.mmm` read through `Date.UTC(1970, 0, 1, ...)`,
      then reduced to milliseconds since midnight. Fewer than three `:`-separated
      parts leaves `seconds` undefined and `seconds.split` throws. */
  function ParseTime(s: string): (r: Parsed)
    ensures r == Thrown <==> |Split(s, ':')| < 3
    ensures r.Value? ==> 0 <= r.ms < MsPerDay
    ensures r != Null
  {
    var parts := Split(s, ':');
    if |parts| < 3 then Thrown
    else
      var secParts := Split(parts[2], '.');
      var ms := if |secParts| >= 2 then ParseDecimal(secParts[1]) else None;
      UtcTimeOfDay(ParseDecimal(parts[0]), ParseDecimal(parts[1]), ParseDecimal(secParts[0]), ms)
  }

  /** `Date.UTC(1970, 0, 1, h, m, s, ms)` followed by `extractTimeInMilliseconds`:
      each field is truncated toward zero, a NaN field makes the whole value NaN. */
  function UtcTimeOfDay(h: Option<real>, m: Option<real>, sec: Option<real>, ms: Option<real>): (r: Parsed)
    ensures r.Value? ==> 0 <= r.ms < MsPerDay
    ensures (h.None? || m.None? || sec.None? || ms.None?) ==> r == Invalid
    ensures r != Null && r != Thrown
  {
    if h.None? || m.None? || sec.None? || ms.None? then Invalid
    else
      TimeOfDay(Trunc(h.value) * MsPerHour + Trunc(m.value) * MsPerMinute
                + Trunc(sec.value) * MsPerSecond + Trunc(ms.value))
  }

  /** `extractTimeInMilliseconds(new Date(Date.UTC(1970, 0, 1, ...)))` as a parse result. */
  function TimeOfDay(total: int): (r: Parsed)
    ensures r.Value? <==> ValidTime(total)
    ensures r.Value? ==> r.ms == total % MsPerDay
    ensures !r.Value? ==> r == Invalid
  {
    match ExtractTimeInMilliseconds(total)
    case None => Invalid
    case Some(v) => Value(v)
  }

  /** `parseDateTimeValue(text, formatter)`. The `date` and `datetime` branches build
      a Date in the host's local time zone; `localParse` stands for them. */
  function ParseDateTimeValue(s: string, f: Formatter, localParse: (Formatter, string) -> Parsed): (r: Parsed)
    ensures f == OtherFmt ==> r == Null
    ensures f == TimeFmt ==> r != Null && (r.Value? ==> 0 <= r.ms < MsPerDay)
  {
    match f
    case DateTimeFmt => localParse(f, s)
    case DateFmt => localParse(f, s)
    case TimeFmt => ParseTime(s)
    case OtherFmt => Null
  }

  /** Whole-number fields give the time of day of their weighted sum. */
  lemma UtcTimeOfDayOfInts(hv: int, mv: int, sv: int, msv: int)
    ensures UtcTimeOfDay(Some(hv as real), Some(mv as real), Some(sv as real), Some(msv as real))
            == TimeOfDay(hv * MsPerHour + mv * MsPerMinute + sv * MsPerSecond + msv)
  {
    TruncOfInt(hv);
    TruncOfInt(mv);
    TruncOfInt(sv);
    TruncOfInt(msv);
  }

  /** The `time` parser reads the three `:`-pieces, the last split once more at `.`. */
  lemma ParseTimeParts(text: string, h: string, m: string, sm: string, s: string, ms: string)
    requires Split(text, ':') == [h, m, sm] && Split(sm, '.') == [s, ms]
    ensures ParseTime(text) == UtcTimeOfDay(ParseDecimal(h), ParseDecimal(m), ParseDecimal(s), ParseDecimal(ms))
  {
  }

  /** Splitting three separator-free pieces joined by `:`. */
  lemma SplitThree(h: string, m: string, rest: string, sep: char)
    requires sep !in h && sep !in m && sep !in rest
    ensures Split(h + [sep] + m + [sep] + rest, sep) == [h, m, rest]
  {
    SplitTwo(m, rest, sep);
    Regroup(h, [sep], m, [sep], rest);
    SplitCons(h, sep, m + [sep] + rest);
  }

  /** Splitting two separator-free pieces joined by `sep`. */
  lemma SplitTwo(s: string, ms: string, sep: char)
    requires sep !in s && sep !in ms
    ensures Split(s + [sep] + ms, sep) == [s, ms]
  {
    SplitCons(s, sep, ms);
    SplitNone(ms, sep);
  }

  /** Splitting `H:M:S.ms` at `:` and then the last piece at `.`. */
  lemma SplitTimeText(h: string, m: string, s: string, ms: string)
    requires AllDigits(h) && AllDigits(m) && AllDigits(s) && AllDigits(ms)
    ensures Split(h + ":" + m + ":" + s + "." + ms, ':') == [h, m, s + "." + ms]
    ensures Split(s + "." + ms, '.') == [s, ms]
  {
    DigitsHaveNo(s, ':');
    DigitsHaveNo(ms, ':');
    assert ':' !in s + "." + ms;
    DigitsHaveNo(h, ':');
    DigitsHaveNo(m, ':');
    assert h + ":" + m + ":" + s + "." + ms == h + [':'] + m + [':'] + (s + "." + ms);
    SplitThree(h, m, s + "." + ms, ':');
    DigitsHaveNo(s, '.');
    DigitsHaveNo(ms, '.');
    SplitTwo(s, ms, '.');
  }

  /** The `time` parser takes a joined `H:M:S.ms` of digit strings apart again. */
  lemma ParseJoin(h: string, m: string, s: string, ms: string)
    requires AllDigits(h) && AllDigits(m) && AllDigits(s) && AllDigits(ms)
    requires h != "" && m != "" && s != "" && ms != ""
    ensures ParseTime(h + ":" + m + ":" + s + "." + ms)
            == UtcTimeOfDay(Some(DigitsValue(h) as real), Some(DigitsValue(m) as real),
                            Some(DigitsValue(s) as real), Some(DigitsValue(ms) as real))
  {
    SplitTimeText(h, m, s, ms);
    ParseTimeParts(h + ":" + m + ":" + s + "." + ms, h, m, s + "." + ms, s, ms);
    ParseDigits(h);
    ParseDigits(m);
    ParseDigits(s);
    ParseDigits(ms);
  }

  lemma ModOfSmall(t: int)
    requires 0 <= t < MsPerDay
    ensures t % MsPerDay == t
  {
  }

  /** Four digit fields joined as `H:M:S.ms` parse to the time of day they spell. */
  lemma ParseDigitFields(h: string, m: string, s: string, ms: string, hh: int, mm: int, ss: int, milli: int)
    requires 0 <= hh < 24 && 0 <= mm < 60 && 0 <= ss < 60 && 0 <= milli < 1000
    requires DigitField(h, 2, hh) && DigitField(m, 2, mm) && DigitField(s, 2, ss) && DigitField(ms, 3, milli)
    ensures ParseTime(h + ":" + m + ":" + s + "." + ms)
            == Value(hh * MsPerHour + mm * MsPerMinute + ss * MsPerSecond + milli)
  {
    ParseJoin(h, m, s, ms);
    UtcTimeOfDayOfInts(hh, mm, ss, milli);
    ModOfSmall(hh * MsPerHour + mm * MsPerMinute + ss * MsPerSecond + milli);
  }

  /** Reading back a rendered time gives the time of day it was rendered from. */
  lemma ParseDisplayedTime(t: int, localParse: (Formatter, string) -> Parsed)
    requires 0 <= t <= MaxTimeValue
    ensures ParseDateTimeValue(DisplayTimeString(t), TimeFmt, localParse) == Value(t % MsPerDay)
  {
    RenderedText(t);
    ParseUtcFields(t);
  }

  /** The UTC fields of `t`, rendered and parsed, give its time within the day. */
  lemma ParseUtcFields(t: int)
    ensures ParseTime(Pad2(UtcHours(t)) + ":" + Pad2(UtcMinutes(t)) + ":" + Pad2(UtcSeconds(t))
                      + "." + Pad3(UtcMilliseconds(t)))
            == Value(t % MsPerDay)
  {
    FieldsRecombine(t);
    ParseFieldsOfDay(UtcHours(t), UtcMinutes(t), UtcSeconds(t), UtcMilliseconds(t), t % MsPerDay);
  }

  /** Rendering the four fields and parsing them back gives the time they sum to. */
  lemma ParseRenderedFields(hh: int, mm: int, ss: int, milli: int)
    requires 0 <= hh < 24 && 0 <= mm < 60 && 0 <= ss < 60 && 0 <= milli < 1000
    ensures ParseTime(Pad2(hh) + ":" + Pad2(mm) + ":" + Pad2(ss) + "." + Pad3(milli))
            == Value(hh * MsPerHour + mm * MsPerMinute + ss * MsPerSecond + milli)
  {
    Pad2Field(hh);
    Pad2Field(mm);
    Pad2Field(ss);
    Pad3Field(milli);
    ParseDigitFields(Pad2(hh), Pad2(mm), Pad2(ss), Pad3(milli), hh, mm, ss, milli);
  }

  /** The same, with the weighted sum given as the time within the day. */
  lemma ParseFieldsOfDay(hh: int, mm: int, ss: int, milli: int, day: int)
    requires 0 <= hh < 24 && 0 <= mm < 60 && 0 <= ss < 60 && 0 <= milli < 1000
    requires hh * MsPerHour + mm * MsPerMinute + ss * MsPerSecond + milli == day
    ensures ParseTime(Pad2(hh) + ":" + Pad2(mm) + ":" + Pad2(ss) + "." + Pad3(milli)) == Value(day)
  {
    ParseRenderedFields(hh, mm, ss, milli);
  }

  /** Every time of day survives the render/parse round trip unchanged. */
  lemma TimeOfDayRoundTrip(t: int, localParse: (Formatter, string) -> Parsed)
    requires 0 <= t < MsPerDay
    ensures ParseDateTimeValue(DisplayTimeString(t), TimeFmt, localParse) == Value(t)
  {
    ModOfSmall(t);
    ParseDisplayedTime(t, localParse);
  }
}
