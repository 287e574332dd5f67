/** How the two date sliders turn a slider value into the text of their input boxes
    (`dateFormatter` / `formatValue`), and how the tool-panel date filter maps a
    cell to its time of day before scanning. The parts that depend on the host's
    time zone and on `Number#toString` of fractions are supplied by a `Host`. */
module DateFormat {
  import opened Wrappers
  import opened Text
  import opened JsNumber
  import opened TimeUtils
  import opened FilterModel

  /** The host-dependent pieces: the `DD.MM.YYYY` date text of a time value (UTC day
      and month, local year), the rendering of a non-integral slider value, and the
      local-time parse of the `date` and `datetime` formats. */
  datatype Host = Host(
    datePart: int -> string,
    nonIntegral: (Formatter, real) -> string,
    localParse: (Formatter, string) -> Parsed)

  predicate Integral(v: real) { v == v.Floor as real }

  /** `Number#toString`: whole numbers in decimal, fractions as the host writes them. */
  function NumberText(x: real, fraction: real -> string): (r: string)
    ensures Integral(x) ==> r == IntToString(x.Floor)
  {
    if Integral(x) then IntToString(x.Floor) else fraction(x)
  }

  /** A whole number's text reads back as the number. */
  lemma NumberTextRoundTrip(x: real, fraction: real -> string)
    requires Integral(x)
    ensures ParseDecimal(NumberText(x, fraction)) == Some(x)
  {
    ParseIntToString(x.Floor);
  }

  /** The text shown for slider value `v` under formatter `f`: `datetime`, `date` and
      `time` render the time value, any other formatter shows the number itself. */
  function FormatValue(f: Formatter, host: Host, v: real): (r: string)
    ensures f == OtherFmt ==> r == NumberText(v, x => host.nonIntegral(f, x))
  {
    if f == OtherFmt then NumberText(v, x => host.nonIntegral(f, x))
    else if !Integral(v) then host.nonIntegral(f, v)
    else
      match f
      case DateTimeFmt => DisplayDateTimeString(v.Floor, host.datePart(v.Floor))
      case DateFmt => host.datePart(v.Floor)
      case TimeFmt => DisplayTimeString(v.Floor)
  }

  /** A whole time of day written by the `time` formatter parses back to itself, so
      the text a handle writes into the box is accepted unchanged when edited. */
  lemma FormatTimeRoundTrip(host: Host, v: real)
    requires Integral(v) && 0.0 <= v < MsPerDay as real
    ensures ParseDateTimeValue(FormatValue(TimeFmt, host, v), TimeFmt, host.localParse) == Value(v.Floor)
  {
    TimeOfDayRoundTrip(v.Floor, host.localParse);
  }

  /** Under the `datetime` formatter the text is the `date` formatter's text, a `T`,
      and the `time` formatter's text. */
  lemma FormatDateTimeJoins(host: Host, v: real)
    requires Integral(v) && 'T' !in host.datePart(v.Floor)
    ensures var r := FormatValue(DateTimeFmt, host, v);
      && r[..|FormatValue(DateFmt, host, v)|] == FormatValue(DateFmt, host, v)
      && IndexOf(r, 'T') == |FormatValue(DateFmt, host, v)|
      && r[|FormatValue(DateFmt, host, v)| + 1..] == FormatValue(TimeFmt, host, v)
  {
    var t := v.Floor;
    var d := host.datePart(t);
    assert FormatValue(DateFmt, host, v) == d;
    assert FormatValue(TimeFmt, host, v) == DisplayTimeString(t);
    assert FormatValue(DateTimeFmt, host, v) == DisplayDateTimeString(t, d);
    DateTimeEndsWithTime(t, d);
    DateTimeSplit(t, d);
  }

  /** The other formatter's text reads back as the value for whole numbers. */
  lemma FormatOtherRoundTrip(host: Host, v: real)
    requires Integral(v)
    ensures ParseDecimal(FormatValue(OtherFmt, host, v)) == Some(v)
  {
    NumberTextRoundTrip(v, x => host.nonIntegral(OtherFmt, x));
  }

  /** `new Date(x)` on a number: the time value truncated toward zero, or an invalid
      date beyond 8.64e15 ms. */
  function TimeClip(x: real): (r: Option<int>)
    ensures r.Some? <==> -(MaxTimeValue as real) <= x <= MaxTimeValue as real
    ensures r.Some? ==> ValidTime(r.value)
  {
    if -(MaxTimeValue as real) <= x <= MaxTimeValue as real then Some(Trunc(x)) else None
  }

  /** `extractTimeInMilliseconds(value)` as the tool-panel date filter applies it to a
      cell under the `time` formatter. */
  function TimeOfCell(c: Cell): (r: Cell)
    ensures r.Num? ==> 0.0 <= r.x < MsPerDay as real && Integral(r.x)
  {
    match c
    case NotNumber => NotNumber
    case Num(x) =>
      match TimeClip(x)
      case None => NotNumber
      case Some(t) => Num(ExtractTimeInMilliseconds(t).value as real)
  }

  /** A whole time of day is its own time of day. */
  lemma TimeOfDayCell(n: int)
    requires 0 <= n < MsPerDay
    ensures TimeOfCell(Num(n as real)) == Num(n as real)
  {
    assert TimeClip(n as real) == Some(n) by {
      TruncOfInt(n);
    }
    assert ExtractTimeInMilliseconds(n) == Some(n) by {
      assert n % MsPerDay == n;
    }
  }

  /** A cell that already holds a time of day is left as it is. */
  lemma TimeOfCellFixes(c: Cell)
    ensures TimeOfCell(TimeOfCell(c)) == TimeOfCell(c)
  {
    var r := TimeOfCell(c);
    if r.Num? {
      var n := r.x.Floor;
      assert r == Num(n as real);
      TimeOfDayCell(n);
    }
  }

  /** The rows as the scan reads them: under the `time` formatter each value is
      reduced to its time of day. */
  function ScanRows(rows: seq<Row<Cell>>, f: Formatter): (r: seq<Row<Cell>>)
    ensures |r| == |rows|
    ensures forall i :: 0 <= i < |rows| ==> r[i].displayed == rows[i].displayed
    ensures forall i :: 0 <= i < |rows| ==> r[i].value == if f == TimeFmt then TimeOfCell(rows[i].value) else rows[i].value
  {
    if rows == [] then []
    else
      [Row(if f == TimeFmt then TimeOfCell(rows[0].value) else rows[0].value, rows[0].displayed)]
      + ScanRows(rows[1..], f)
  }

  /** What editing a box does: a thrown parse leaves everything as it was, a truthy
      value is taken, anything else (NaN, null, zero) puts the old text back. */
  datatype Outcome = Ignored | Accepted(value: real) | Reverted

  function ChangeOutcome(text: string, f: Formatter, host: Host): (o: Outcome)
    ensures o == Ignored <==> ParseDateTimeValue(text, f, host.localParse) == Thrown
    ensures o.Accepted? <==> Truthy(ParseDateTimeValue(text, f, host.localParse))
    ensures o.Accepted? ==> o.value != 0.0 && o.value == ParseDateTimeValue(text, f, host.localParse).ms as real
  {
    var p := ParseDateTimeValue(text, f, host.localParse);
    if p == Thrown then Ignored
    else if Truthy(p) then Accepted(p.ms as real)
    else Reverted
  }

  /** Under the `time` formatter, the text a handle writes for a whole time of day
      after midnight is accepted back as that time. */
  lemma ShownTimeAccepted(host: Host, v: real)
    requires Integral(v) && 0.0 < v < MsPerDay as real
    ensures ChangeOutcome(FormatValue(TimeFmt, host, v), TimeFmt, host) == Accepted(v)
  {
    FormatTimeRoundTrip(host, v);
  }

  /** Midnight parses to 0, which is falsy: its text is rejected and put back. */
  lemma MidnightReverted(host: Host)
    ensures ChangeOutcome(FormatValue(TimeFmt, host, 0.0), TimeFmt, host) == Reverted
  {
    FormatTimeRoundTrip(host, 0.0);
  }

  /** Without a date formatter the parse is null, so no edit is ever taken. */
  lemma OtherFormatNeverAccepts(text: string, host: Host)
    ensures ChangeOutcome(text, OtherFmt, host) == Reverted
  {
  }


  predicate InDay(c: Cell) { c.Num? ==> 0.0 <= c.x < MsPerDay as real }

  /** Every value the `time` scan reads is a time of day. */
  lemma TimeValuesInDay(rows: seq<Row<Cell>>)
    ensures forall c :: c in Values(ScanRows(rows, TimeFmt)) ==> InDay(c)
  {
    var sr := ScanRows(rows, TimeFmt);
    var values := Values(sr);
    forall c | c in values
      ensures InDay(c)
    {
      var i :| 0 <= i < |values| && values[i] == c;
      assert sr[i].value == TimeOfCell(rows[i].value);
    }
  }

  /** The extremes of times of day are times of day. */
  lemma ExtremesInDay(values: seq<Cell>)
    requires forall c :: c in values ==> InDay(c)
    ensures MathMin(values).Fin? ==> InDay(Num(MathMin(values).v))
    ensures MathMax(values).Fin? ==> InDay(Num(MathMax(values).v))
  {
  }

}
