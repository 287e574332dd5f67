/** The date filter the grid hosts in a column menu: the same two-handle slider and
    text boxes as the tool-panel date filter, but instead of committing a model it
    answers the grid's filter interface (`getModel`, `doesFilterPass`,
    `isFilterActive`) from its window and tells the grid to re-filter. */
module DateGridFilter {
  import opened Wrappers
  import opened JsNumber
  import opened TimeUtils
  import opened FilterModel
  import opened RangeSlider
  import opened DateFormat

  /** The slider's domain and starting window (absent: the slider stays at 0..0). */
  datatype Domain = Domain(max: real, min: real, seed: Option<Window>)

  /** The mount-time scan: a NaN value gives the domain 0..0 and no seed; otherwise
      the domain spans all values and the window the displayed ones, or is 0..0 when
      no row is displayed. */
  function Scan(rows: seq<Row<Cell>>): (d: Domain)
    requires |rows| > 0
    ensures d.seed.Some? <==> NotNumber !in Values(rows)
    ensures d.seed.None? ==> d == Domain(0.0, 0.0, None)
    ensures d.seed.Some? && |DisplayedValues(rows)| == 0 ==> d.seed.value == Window(0.0, 0.0)
  {
    var values := Values(rows);
    var displayed := DisplayedValues(rows);
    var maxVal, minVal := MathMax(values), MathMin(values);
    if minVal == NaN then Domain(0.0, 0.0, None)
    else
      DisplayedAreValues(rows);
      var maxDisplayed := if |displayed| > 0 then MathMax(displayed).v else 0.0;
      var minDisplayed := if |displayed| > 0 then MathMin(displayed).v else 0.0;
      Domain(maxVal.v, minVal.v, Some(Window(minDisplayed, maxDisplayed)))
  }

  /** With some row displayed, the seeded window lies inside the domain and holds
      every displayed value. */
  lemma ScanWithin(rows: seq<Row<Cell>>)
    requires |rows| > 0 && Scan(rows).seed.Some? && |DisplayedValues(rows)| > 0
    ensures Within(Scan(rows).min, Scan(rows).seed.value, Scan(rows).max)
    ensures forall c :: c in DisplayedValues(rows) ==>
              c.Num? && Scan(rows).seed.value.lo <= c.x <= Scan(rows).seed.value.hi
  {
    DisplayedAreValues(rows);
    var displayed := DisplayedValues(rows);
    assert Num(MathMin(displayed).v) in Values(rows);
    assert Num(MathMax(displayed).v) in Values(rows);
  }

  /** With some row displayed, both ends of the seeded window are displayed values. */
  lemma ScanEndsDisplayed(rows: seq<Row<Cell>>)
    requires |rows| > 0 && Scan(rows).seed.Some? && |DisplayedValues(rows)| > 0
    ensures Num(Scan(rows).seed.value.lo) in DisplayedValues(rows)
    ensures Num(Scan(rows).seed.value.hi) in DisplayedValues(rows)
  {
    DisplayedAreValues(rows);
    var displayed := DisplayedValues(rows);
    assert Num(MathMin(displayed).v) in displayed;
    assert Num(MathMax(displayed).v) in displayed;
  }

  /** `doesFilterPass` on a cell: NaN compares false, a number passes inside the window. */
  predicate Passes(w: Window, c: Cell)
  {
    c.Num? && c.x >= w.lo && c.x <= w.hi
  }

  /** The grid-side test agrees with the `RangeAnd` model the tool-panel sliders send. */
  lemma PassesIsRangeModel(w: Window, x: real)
    ensures Passes(w, Num(x)) <==> RangeAdmits(RangeAnd(w.lo, w.hi), x)
    ensures !Passes(w, NotNumber)
  {
  }

  /** An inactive filter (window equal to the domain) passes every value of the
      domain, and a window inside the domain passes nothing outside it. */
  lemma InactivePassesDomain(min: real, max: real, w: Window, x: real)
    requires Within(min, w, max)
    ensures w == Window(min, max) && min <= x <= max ==> Passes(w, Num(x))
    ensures x < min || x > max ==> !Passes(w, Num(x))
  {
  }

  /** The test as intended: the cell read the way the scan reads it, so under the
      `time` formatter its time of day is compared with the window. */
  function PassesScanned(w: Window, f: Formatter, c: Cell): (r: bool)
    ensures f != TimeFmt ==> (r <==> Passes(w, c))
    ensures f == TimeFmt ==> (r <==> TimeOfCell(c).Num? && w.lo <= TimeOfCell(c).x <= w.hi)
  {
    Passes(w, if f == TimeFmt then TimeOfCell(c) else c)
  }

  /** With the intended test, a window equal to the scanned domain passes every row
      that was scanned, under any formatter. */
  lemma ScannedPassesDomain(rows: seq<Row<Cell>>, f: Formatter, i: int)
    requires |rows| > 0 && 0 <= i < |rows|
    requires Scan(ScanRows(rows, f)).seed.Some?
    ensures var d := Scan(ScanRows(rows, f));
      PassesScanned(Window(d.min, d.max), f, rows[i].value)
  {
    var sr := ScanRows(rows, f);
    var values := Values(sr);
    assert values[i] == sr[i].value;
    assert values[i] in values;
  }

  /** Two rows 25 and 26 hours after the epoch, under the `time` formatter: their
      times of day are 1 h and 2 h, so the scanned domain is [1 h, 2 h]. Narrowed to
      [1 h, 1.5 h], the window admits the first row's time of day, but the test as
      written compares the raw value 25 h with it and rejects the row. */
  lemma TimeWindowRejectsRawValue()
    ensures TimeOfCell(Num(90000000.0)) == Num(3600000.0)
    ensures TimeOfCell(Num(93600000.0)) == Num(7200000.0)
    ensures PassesScanned(Window(3600000.0, 5400000.0), TimeFmt, Num(90000000.0))
    ensures !Passes(Window(3600000.0, 5400000.0), Num(90000000.0))
  {
    TruncOfInt(90000000);
    TruncOfInt(93600000);
    assert TimeClip(90000000.0) == Some(90000000);
    assert TimeClip(93600000.0) == Some(93600000);
  }

  class DateFilter {
    const formatter: Formatter
    const host: Host
    const domain: Domain

    var inputMin: string
    var inputMax: string
    var minValue: real
    var maxValue: real
    /** A handle is pressed; the next document mouse-up re-filters. */
    var isSlide: bool
    /** How many times the grid was told to re-filter (`api.onFilterChanged`). */
    var notifications: nat

    function Format(v: real): string
      reads this
    {
      FormatValue(formatter, host, v)
    }

    /** `getModel`. */
    function GetModel(): (w: Window)
      reads this
      ensures w.lo == minValue && w.hi == maxValue
    {
      Window(minValue, maxValue)
    }

    /** `doesFilterPass` on the row's raw cell value. */
    function DoesFilterPass(c: Cell): (r: bool)
      reads this
      ensures r <==> c.Num? && RangeAdmits(RangeAnd(minValue, maxValue), c.x)
    {
      Passes(GetModel(), c)
    }

    /** `isFilterActive`: the window differs from the domain. */
    function IsFilterActive(): (r: bool)
      reads this
      ensures !r <==> GetModel() == Window(domain.min, domain.max)
    {
      minValue != domain.min || maxValue != domain.max
    }

    /** Mount: scan the rows (under `formatter`) and seed the window and the texts. */
    constructor (rows: seq<Row<Cell>>, formatter: Formatter, host: Host)
      requires |rows| > 0
      ensures this.formatter == formatter && this.host == host
      ensures domain == Scan(ScanRows(rows, formatter))
      ensures domain.seed.Some? ==> minValue == domain.seed.value.lo && maxValue == domain.seed.value.hi
                                    && inputMin == Format(minValue) && inputMax == Format(maxValue)
      ensures domain.seed.None? ==> minValue == 0.0 && maxValue == 0.0 && inputMin == "0" && inputMax == "0"
      ensures !isSlide && notifications == 0
    {
      var d := Scan(ScanRows(rows, formatter));
      this.formatter := formatter;
      this.host := host;
      domain := d;
      isSlide := false;
      notifications := 0;
      if d.seed.Some? {
        inputMin := FormatValue(formatter, host, d.seed.value.lo);
        inputMax := FormatValue(formatter, host, d.seed.value.hi);
        minValue := d.seed.value.lo;
        maxValue := d.seed.value.hi;
      } else {
        inputMin, inputMax := "0", "0";
        minValue, maxValue := 0.0, 0.0;
      }
    }

    /** `handleSlide`: `Math.min(value, maxValue)` for the lower handle,
        `Math.max(value, minValue)` for the upper one. */
    method Slide(v: real, isMin: bool)
      modifies this
      ensures isMin ==> minValue == ClampBelow(v, old(maxValue)) && inputMin == Format(minValue)
                        && maxValue == old(maxValue) && inputMax == old(inputMax)
      ensures !isMin ==> maxValue == ClampAbove(v, old(minValue)) && inputMax == Format(maxValue)
                         && minValue == old(minValue) && inputMin == old(inputMin)
      ensures isSlide == old(isSlide) && notifications == old(notifications)
    {
      if isMin {
        var newValue := if v < maxValue then v else maxValue;
        minValue := newValue;
        inputMin := Format(newValue);
      } else {
        var newValue := if v > minValue then v else minValue;
        maxValue := newValue;
        inputMax := Format(newValue);
      }
    }

    /** Pressing either handle. */
    method HandleMouseDown()
      modifies this
      ensures isSlide
      ensures minValue == old(minValue) && maxValue == old(maxValue)
      ensures inputMin == old(inputMin) && inputMax == old(inputMax) && notifications == old(notifications)
    {
      isSlide := true;
    }

    /** The document's mouse-up listener: after a handle press, re-filter once. */
    method DocumentMouseUp()
      modifies this
      ensures !isSlide
      ensures notifications == old(notifications) + (if old(isSlide) then 1 else 0)
      ensures minValue == old(minValue) && maxValue == old(maxValue)
      ensures inputMin == old(inputMin) && inputMax == old(inputMax)
    {
      if isSlide {
        notifications := notifications + 1;
        isSlide := false;
      }
    }

    /** `handleChange`: an accepted value becomes the bound with the typed text; a
        rejected one restores the box's text; a thrown parse does nothing. The grid
        is not told. */
    method Change(text: string, isMin: bool)
      modifies this
      ensures var o := ChangeOutcome(text, formatter, host);
        match o
        case Ignored =>
          minValue == old(minValue) && maxValue == old(maxValue)
          && inputMin == old(inputMin) && inputMax == old(inputMax)
        case Accepted(v) =>
          (isMin ==> minValue == v && inputMin == text && maxValue == old(maxValue) && inputMax == old(inputMax))
          && (!isMin ==> maxValue == v && inputMax == text && minValue == old(minValue) && inputMin == old(inputMin))
        case Reverted =>
          minValue == old(minValue) && maxValue == old(maxValue)
          && (isMin ==> inputMin == Format(minValue) && inputMax == old(inputMax))
          && (!isMin ==> inputMax == Format(maxValue) && inputMin == old(inputMin))
      ensures isSlide == old(isSlide) && notifications == old(notifications)
    {
      var value := ParseDateTimeValue(text, formatter, host.localParse);
      if value == Thrown {
        return;
      }
      if TimeUtils.Truthy(value) {
        if isMin {
          minValue := value.ms as real;
          inputMin := text;
        } else {
          maxValue := value.ms as real;
          inputMax := text;
        }
      } else {
        if isMin {
          inputMin := Format(minValue);
        } else {
          inputMax := Format(maxValue);
        }
      }
    }

    /** `clickTrack`: a press on the track at `x0`, pointer moves to `xs`, release.
        Each move shifts the window and rewrites both boxes; the release re-filters
        (and so does the document listener if a handle press is pending). */
    method TrackDrag(clientWidth: real, x0: real, xs: seq<real>)
      requires clientWidth > 0.0
      modifies this
      ensures var w := Drag(domain.min, domain.max, Window(old(minValue), old(maxValue)),
                            Offsets((domain.max - domain.min) / clientWidth, x0, xs), false);
        && minValue == w.lo && maxValue == w.hi
        && (xs != [] ==> inputMin == Format(w.lo) && inputMax == Format(w.hi))
        && (xs == [] ==> inputMin == old(inputMin) && inputMax == old(inputMax))
      ensures notifications == old(notifications) + 1 + (if old(isSlide) then 1 else 0)
      ensures !isSlide
    {
      var dt := (domain.max - domain.min) / clientWidth;
      var w, _ := ShiftDrag(domain.min, domain.max, dt, x0, Window(minValue, maxValue), xs);
      minValue, maxValue := w.lo, w.hi;
      if xs != [] {
        inputMin := Format(w.lo);
        inputMax := Format(w.hi);
      }
      notifications := notifications + 1;
      DocumentMouseUp();
    }
  }
}
