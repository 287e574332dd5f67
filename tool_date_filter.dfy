/** The tool-panel date filter: a two-handle slider over the column's time values
    with two text boxes in the column's date format. It commits the filter
    `minValue <= x <= maxValue` when a handle is released, when a box is edited,
    and at the end of a track drag. */
module DateFilterPanel {
  import opened Wrappers
  import opened JsNumber
  import opened TimeUtils
  import opened FilterModel
  import opened RangeSlider
  import opened DateFormat

  /** The slider's domain and the window to start from (absent: the slider stays at 0..0). */
  datatype Domain = Domain(max: real, min: real, seed: Option<Window>)

  /** What the mount-time scan computes: it stops at NaN (domain 0..0, no seed), or it
      seeds the window from the extremes of the displayed values and returns the
      extremes of all values, infinite where a list is empty. */
  datatype Scanned = Stopped | Seeded(max: JsNum, min: JsNum, lo: JsNum, hi: JsNum)

  /** The mount-time scan: `Math.max` / `Math.min` over all values and over the
      displayed ones; a NaN extreme of all values stops it before it seeds. */
  function Scan(rows: seq<Row<Cell>>): (s: Scanned)
    ensures s.Stopped? <==> NotNumber in Values(rows)
    ensures s.Seeded? ==> (s.max == NegInf <==> |rows| == 0) && (s.min == PosInf <==> |rows| == 0)
    ensures s.Seeded? && |rows| > 0 ==> s.max.Fin? && s.min.Fin?
    ensures s.Seeded? ==> (s.lo == PosInf <==> |DisplayedValues(rows)| == 0)
                          && (s.hi == NegInf <==> |DisplayedValues(rows)| == 0)
    ensures s.Seeded? && |DisplayedValues(rows)| > 0 ==> s.lo.Fin? && s.hi.Fin?
  {
    var values := Values(rows);
    var displayed := DisplayedValues(rows);
    var maxVal, minVal := MathMax(values), MathMin(values);
    if maxVal == NaN || minVal == NaN then Stopped
    else
      DisplayedAreValues(rows);
      Seeded(maxVal, minVal, MathMin(displayed), MathMax(displayed))
  }

  /** Whether the scan's window bounds are finite: a NaN value stops the scan before
      it seeds, otherwise a displayed row is needed. */
  predicate FiniteScan(rows: seq<Row<Cell>>)
  {
    NotNumber in Values(rows) || |DisplayedValues(rows)| > 0
  }

  /** A scan that stops, or seeds from at least one displayed row, in real numbers. */
  function ScanDomain(rows: seq<Row<Cell>>): (d: Domain)
    requires FiniteScan(rows)
    ensures d.seed.Some? <==> NotNumber !in Values(rows)
    ensures d.seed.None? ==> d == Domain(0.0, 0.0, None)
    ensures d.seed.Some? ==>
      Scan(rows) == Seeded(Fin(d.max), Fin(d.min), Fin(d.seed.value.lo), Fin(d.seed.value.hi))
  {
    match Scan(rows)
    case Stopped => Domain(0.0, 0.0, None)
    case Seeded(maxVal, minVal, lo, hi) =>
      DisplayedAreValues(rows);
      Domain(maxVal.v, minVal.v, Some(Window(lo.v, hi.v)))
  }

  /** A seeded window lies inside the domain. */
  lemma ScanWithin(rows: seq<Row<Cell>>)
    requires FiniteScan(rows) && ScanDomain(rows).seed.Some?
    ensures Within(ScanDomain(rows).min, ScanDomain(rows).seed.value, ScanDomain(rows).max)
  {
    DisplayedAreValues(rows);
    var displayed := DisplayedValues(rows);
    assert Num(MathMin(displayed).v) in Values(rows);
    assert Num(MathMax(displayed).v) in Values(rows);
  }

  /** Under the `time` formatter a seeded domain lies within one day. */
  lemma TimeScanWithinDay(rows: seq<Row<Cell>>)
    requires FiniteScan(ScanRows(rows, TimeFmt)) && ScanDomain(ScanRows(rows, TimeFmt)).seed.Some?
    ensures 0.0 <= ScanDomain(ScanRows(rows, TimeFmt)).min && ScanDomain(ScanRows(rows, TimeFmt)).max < MsPerDay as real
  {
    var sr := ScanRows(rows, TimeFmt);
    TimeValuesInDay(rows);
    ExtremesInDay(Values(sr));
  }

  class DateFilter {
    const formatter: Formatter
    const host: Host
    const domain: Domain

    var inputMin: string
    var inputMax: string
    var minValue: real
    var maxValue: real
    /** The filter models sent to the grid, oldest first. */
    var commits: seq<Model>

    function Format(v: real): string
      reads this
    {
      FormatValue(formatter, host, v)
    }

    /** Mount: scan the rows (under `formatter`) and seed the window and the texts. */
    constructor (rows: seq<Row<Cell>>, formatter: Formatter, host: Host)
      requires FiniteScan(ScanRows(rows, formatter))
      ensures this.formatter == formatter && this.host == host
      ensures domain == ScanDomain(ScanRows(rows, formatter))
      ensures domain.seed.Some? ==> minValue == domain.seed.value.lo && maxValue == domain.seed.value.hi
                                    && inputMin == Format(minValue) && inputMax == Format(maxValue)
      ensures domain.seed.None? ==> minValue == 0.0 && maxValue == 0.0 && inputMin == "0" && inputMax == "0"
      ensures commits == []
    {
      var d := ScanDomain(ScanRows(rows, formatter));
      this.formatter := formatter;
      this.host := host;
      domain := d;
      commits := [];
      if d.seed.Some? {
        inputMin := FormatValue(formatter, host, d.seed.value.lo);
        inputMax := FormatValue(formatter, host, d.seed.value.hi);
        minValue := d.seed.value.lo;
        maxValue := d.seed.value.hi;
      } else {
        inputMin, inputMax := "0", "0";
        minValue, maxValue := 0.0, 0.0;
      }
    }

    /** `hanldeSlide`: a handle moved to `v`, held back at the other handle, and its
        box shows the new bound. The upper handle is held at the lower one from below
        (see `ClampMaxAsWritten` for the wiring as written). */
    method Slide(v: real, isMin: bool)
      modifies this
      ensures isMin ==> minValue == ClampBelow(v, old(maxValue)) && inputMin == Format(minValue)
                        && maxValue == old(maxValue) && inputMax == old(inputMax)
      ensures !isMin ==> maxValue == ClampAbove(v, old(minValue)) && inputMax == Format(maxValue)
                         && minValue == old(minValue) && inputMin == old(inputMin)
      ensures commits == old(commits)
      ensures old(minValue) <= old(maxValue) ==> minValue <= maxValue
    {
      if isMin {
        var bound := if v >= maxValue then maxValue else v;
        minValue := bound;
        inputMin := Format(bound);
      } else {
        var bound := if v <= minValue then minValue else v;
        maxValue := bound;
        inputMax := Format(bound);
      }
    }

    /** Releasing a handle commits the current window. */
    method HandleMouseUp()
      modifies this
      ensures commits == old(commits) + [RangeAnd(minValue, maxValue)]
      ensures minValue == old(minValue) && maxValue == old(maxValue)
      ensures inputMin == old(inputMin) && inputMax == old(inputMax)
    {
      commits := commits + [RangeAnd(minValue, maxValue)];
    }

    /** `handleChange`: an accepted value becomes the bound and is committed with the
        other bound; a rejected one restores the box's text and commits the window
        unchanged; a thrown parse does nothing. */
    method Change(text: string, isMin: bool)
      modifies this
      ensures var o := ChangeOutcome(text, formatter, host);
        match o
        case Ignored =>
          minValue == old(minValue) && maxValue == old(maxValue) && inputMin == old(inputMin)
          && inputMax == old(inputMax) && commits == old(commits)
        case Accepted(v) =>
          (isMin ==> minValue == v && inputMin == text && maxValue == old(maxValue) && inputMax == old(inputMax))
          && (!isMin ==> maxValue == v && inputMax == text && minValue == old(minValue) && inputMin == old(inputMin))
          && commits == old(commits) + [RangeAnd(minValue, maxValue)]
        case Reverted =>
          minValue == old(minValue) && maxValue == old(maxValue)
          && (isMin ==> inputMin == Format(minValue) && inputMax == old(inputMax))
          && (!isMin ==> inputMax == Format(maxValue) && inputMin == old(inputMin))
          && commits == old(commits) + [RangeAnd(minValue, maxValue)]
    {
      var value := ParseDateTimeValue(text, formatter, host.localParse);
      if value == Thrown {
        return;
      }
      if Truthy(value) {
        var v := value.ms as real;
        if isMin {
          minValue := v;
          inputMin := text;
          commits := commits + [RangeAnd(v, maxValue)];
        } else {
          maxValue := v;
          inputMax := text;
          commits := commits + [RangeAnd(minValue, v)];
        }
      } else {
        if isMin {
          inputMin := Format(minValue);
        } else {
          inputMax := Format(maxValue);
        }
        commits := commits + [RangeAnd(minValue, maxValue)];
      }
    }

    /** `clickTrack`: a press on the track at `x0`, pointer moves to `xs`, release.
        The window follows the moves (the boxes keep their text) and mouse-up commits
        where it ended. */
    method TrackDrag(clientWidth: real, x0: real, xs: seq<real>)
      requires clientWidth > 0.0
      modifies this
      ensures var w := Drag(domain.min, domain.max, Window(old(minValue), old(maxValue)),
                            Offsets((domain.max - domain.min) / clientWidth, x0, xs), true);
        && minValue == w.lo && maxValue == w.hi
        && commits == old(commits) + [RangeAnd(w.lo, w.hi)]
      ensures inputMin == old(inputMin) && inputMax == old(inputMax)
    {
      var dt := (domain.max - domain.min) / clientWidth;
      var w := EdgeDrag(domain.min, domain.max, dt, x0, Window(minValue, maxValue), xs);
      minValue, maxValue := w.lo, w.hi;
      commits := commits + [RangeAnd(w.lo, w.hi)];
    }
  }

  /** A drag that starts inside the domain commits a window inside it, of the width
      it started with. */
  lemma DragCommitWithin(min: real, max: real, w: Window, ss: seq<real>)
    requires Within(min, w, max)
    ensures var r := Drag(min, max, w, ss, true);
      Within(min, r, max) && r.hi - r.lo == w.hi - w.lo
  {
    DragStaysWithin(min, max, w, ss, true);
    DragKeepsWidth(min, max, w, ss, true);
  }
}
