/** The tool-panel number filter: a two-handle slider over the column's values with
    two editable text boxes. Every change of the window commits the filter
    `minValue <= x <= maxValue` to the grid (a React effect on the two values). */
module NumberFilterPanel {
  import opened Wrappers
  import opened JsNumber
  import opened FilterModel
  import opened RangeSlider
  import opened DateFormat

  /** What the mount-time scan of the rows yields: the slider's domain and step, and
      the window to start from (absent when the slider stays at 0..0). */
  datatype Domain = Domain(max: real, min: real, step: real, seed: Option<Window>)

  /** The mount-time scan: the domain spans all rows, the window spans the displayed
      rows; a NaN value among the rows or no displayed row gives the domain 0..0 with
      step 1 and no seed. */
  function Scan(rows: seq<Row<Cell>>): (d: Domain)
    ensures d.seed.Some? <==> NotNumber !in Values(rows) && |DisplayedValues(rows)| > 0
    ensures d.seed.None? ==> d == Domain(0.0, 0.0, 1.0, None)
  {
    var values := Values(rows);
    var displayed := DisplayedValues(rows);
    var maxVal, minVal := MathMax(values), MathMin(values);
    if minVal == NaN || |displayed| == 0 then Domain(0.0, 0.0, 1.0, None)
    else
      DisplayedAreValues(rows);
      Domain(maxVal.v, minVal.v, CalculateStep(minVal.v, maxVal.v),
             Some(Window(MathMin(displayed).v, MathMax(displayed).v)))
  }

  /** A seeded domain holds every row's value, the seed window lies inside it, and
      the step is a hundredth of it. */
  lemma ScanBounds(rows: seq<Row<Cell>>)
    requires Scan(rows).seed.Some?
    ensures var d := Scan(rows);
      && Within(d.min, d.seed.value, d.max)
      && d.step == CalculateStep(d.min, d.max)
      && forall i :: 0 <= i < |rows| ==> rows[i].value.Num? && d.min <= rows[i].value.x <= d.max
  {
    var values, displayed := Values(rows), DisplayedValues(rows);
    DisplayedAreValues(rows);
    var lo := MathMin(displayed).v;
    var hi := MathMax(displayed).v;
    assert Num(lo) in values;
    assert Num(hi) in values;
  }

  /** The seed window is the tightest window around the displayed rows: every
      displayed value lies in it and both its ends are displayed values. */
  lemma ScanSeedsDisplayed(rows: seq<Row<Cell>>)
    requires Scan(rows).seed.Some?
    ensures var w := Scan(rows).seed.value;
      && (forall c :: c in DisplayedValues(rows) ==> c.Num? && w.lo <= c.x <= w.hi)
      && Num(w.lo) in DisplayedValues(rows) && Num(w.hi) in DisplayedValues(rows)
  {
  }

  /** The lower bound after typing `text` into the lower box: taken only when the
      text is a number not above the upper bound. */
  function TypedMin(text: string, lo: real, hi: real): (r: real)
    ensures lo <= hi ==> r <= hi
    ensures r == lo || ParseDecimal(text) == Some(r)
  {
    match ParseDecimal(text)
    case Some(n) => if n <= hi then n else lo
    case None => lo
  }

  /** The upper bound after typing `text` into the upper box: taken only when the
      text is a number not below the lower bound. */
  function TypedMax(text: string, lo: real, hi: real): (r: real)
    ensures lo <= hi ==> lo <= r
    ensures r == hi || ParseDecimal(text) == Some(r)
  {
    match ParseDecimal(text)
    case Some(n) => if n >= lo then n else hi
    case None => hi
  }

  /** A typed number inside the window is taken as it is; one beyond the other
      bound, or no number, leaves the bound where it was. */
  lemma TypedBoundsIff(text: string, lo: real, hi: real, n: real)
    requires ParseDecimal(text) == Some(n)
    ensures TypedMin(text, lo, hi) == (if n <= hi then n else lo)
    ensures TypedMax(text, lo, hi) == (if n >= lo then n else hi)
  {
  }

  /** Focusing a box loads the bound's own text, and leaving that text as it is
      keeps the bound (for whole-number bounds). */
  lemma FocusTextKeepsBound(lo: real, hi: real, fraction: real -> string)
    requires Integral(lo) && Integral(hi) && lo <= hi
    ensures TypedMin(NumberText(lo, fraction), lo, hi) == lo
    ensures TypedMax(NumberText(hi, fraction), lo, hi) == hi
  {
    NumberTextRoundTrip(lo, fraction);
    NumberTextRoundTrip(hi, fraction);
  }

  class NumberFilter {
    const domain: Domain
    /** Whether a `formatter` prop was given, and the `Intl.NumberFormat` it configures. */
    const hasFormatter: bool
    const format: real -> string
    /** `Number#toString` of a non-integral value. */
    const fraction: real -> string

    var minValue: real
    var maxValue: real
    var isMinEditing: bool
    var isMaxEditing: bool
    var minInput: string
    var maxInput: string
    /** The filter models sent to the grid, oldest first. */
    var commits: seq<Model>

    /** The window is never inverted. */
    predicate Valid()
      reads this
    {
      minValue <= maxValue
    }

    /** `valueFormatter`: zero, or any value without a formatter, is shown as the number. */
    function ValueFormatter(x: real): string
      reads this
    {
      if x == 0.0 || !hasFormatter then NumberText(x, fraction) else format(x)
    }

    /** The text the lower box shows: the edit text while focused, the formatted bound otherwise. */
    function ShownMin(): string
      reads this
    {
      if isMinEditing then minInput else ValueFormatter(minValue)
    }

    function ShownMax(): string
      reads this
    {
      if isMaxEditing then maxInput else ValueFormatter(maxValue)
    }

    /** Mount: scan the rows, seed the window, then the commit effect's first run.
        The lower edit text is re-seeded from its own initial "0". */
    constructor (rows: seq<Row<Cell>>, hasFormatter: bool, format: real -> string, fraction: real -> string)
      ensures domain == Scan(rows)
      ensures this.hasFormatter == hasFormatter && this.format == format && this.fraction == fraction
      ensures domain.seed.Some? ==> minValue == domain.seed.value.lo && maxValue == domain.seed.value.hi
                                    && maxInput == NumberText(maxValue, fraction)
      ensures domain.seed.None? ==> minValue == 0.0 && maxValue == 0.0 && maxInput == "0"
      ensures minInput == "0" && !isMinEditing && !isMaxEditing
      ensures commits == [RangeAnd(minValue, maxValue)]
      ensures Valid()
    {
      domain := Scan(rows);
      this.hasFormatter := hasFormatter;
      this.format := format;
      this.fraction := fraction;
      isMinEditing, isMaxEditing := false, false;
      minInput, maxInput := "0", "0";
      minValue, maxValue := 0.0, 0.0;
      new;
      if domain.seed.Some? {
        ScanBounds(rows);
        maxValue := domain.seed.value.hi;
        minValue := domain.seed.value.lo;
        maxInput := NumberText(maxValue, fraction);
        minInput := minInput;
      }
      commits := [RangeAnd(minValue, maxValue)];
    }

    /** `handleSlide`: a handle moved to `v`, held back at the other handle. */
    method Slide(v: real, isMin: bool)
      requires Valid()
      modifies this
      ensures Valid()
      ensures isMin ==> minValue == ClampBelow(v, old(maxValue)) && maxValue == old(maxValue)
                        && minInput == NumberText(minValue, fraction) && maxInput == old(maxInput)
      ensures !isMin ==> maxValue == ClampAbove(v, old(minValue)) && minValue == old(minValue)
                         && maxInput == NumberText(maxValue, fraction) && minInput == old(minInput)
      ensures isMinEditing == old(isMinEditing) && isMaxEditing == old(isMaxEditing)
      ensures commits == old(commits) + Changed(Window(old(minValue), old(maxValue)), Window(minValue, maxValue))
    {
      var lo0, hi0 := minValue, maxValue;
      if isMin {
        var newValue := if v >= maxValue then maxValue else v;
        minValue := newValue;
        minInput := NumberText(newValue, fraction);
      } else {
        var newValue := if v <= minValue then minValue else v;
        maxValue := newValue;
        maxInput := NumberText(newValue, fraction);
      }
      commits := commits + Changed(Window(lo0, hi0), Window(minValue, maxValue));
    }

    /** `handleInputChange`: the box keeps what was typed; the bound follows only a
        number that does not cross the other bound. */
    method InputChange(text: string, isMin: bool)
      requires Valid()
      modifies this
      ensures Valid()
      ensures isMin ==> minInput == text && maxInput == old(maxInput)
                        && minValue == TypedMin(text, old(minValue), old(maxValue)) && maxValue == old(maxValue)
      ensures !isMin ==> maxInput == text && minInput == old(minInput)
                         && maxValue == TypedMax(text, old(minValue), old(maxValue)) && minValue == old(minValue)
      ensures isMinEditing == old(isMinEditing) && isMaxEditing == old(isMaxEditing)
      ensures commits == old(commits) + Changed(Window(old(minValue), old(maxValue)), Window(minValue, maxValue))
    {
      var lo0, hi0 := minValue, maxValue;
      var number := ParseDecimal(text);
      if isMin {
        minInput := text;
        if number.Some? && number.value <= maxValue {
          minValue := number.value;
        }
      } else {
        maxInput := text;
        if number.Some? && number.value >= minValue {
          maxValue := number.value;
        }
      }
      commits := commits + Changed(Window(lo0, hi0), Window(minValue, maxValue));
    }

    /** `handleFocus`: editing starts from the bound's plain text. */
    method Focus(isMin: bool)
      modifies this
      ensures isMin ==> isMinEditing && minInput == NumberText(minValue, fraction)
                        && isMaxEditing == old(isMaxEditing) && maxInput == old(maxInput)
      ensures !isMin ==> isMaxEditing && maxInput == NumberText(maxValue, fraction)
                         && isMinEditing == old(isMinEditing) && minInput == old(minInput)
      ensures minValue == old(minValue) && maxValue == old(maxValue) && commits == old(commits)
    {
      if isMin {
        isMinEditing := true;
        minInput := NumberText(minValue, fraction);
      } else {
        isMaxEditing := true;
        maxInput := NumberText(maxValue, fraction);
      }
    }

    /** `handleBlur`: editing ends and the box shows the formatted bound. */
    method Blur(isMin: bool)
      modifies this
      ensures isMin ==> !isMinEditing && minInput == ValueFormatter(minValue)
                        && isMaxEditing == old(isMaxEditing) && maxInput == old(maxInput)
      ensures !isMin ==> !isMaxEditing && maxInput == ValueFormatter(maxValue)
                         && isMinEditing == old(isMinEditing) && minInput == old(minInput)
      ensures minValue == old(minValue) && maxValue == old(maxValue) && commits == old(commits)
      ensures isMin ==> ShownMin() == ValueFormatter(minValue)
      ensures !isMin ==> ShownMax() == ValueFormatter(maxValue)
    {
      if isMin {
        isMinEditing := false;
        minInput := ValueFormatter(minValue);
      } else {
        isMaxEditing := false;
        maxInput := ValueFormatter(maxValue);
      }
    }

    /** `handleTrackClick`: a press on the track at `x0`, pointer moves to `xs`, then
        release. Each move shifts the window (stopping at the domain's edges) and the
        commit effect sends each changed window. */
    method TrackDrag(clientWidth: real, x0: real, xs: seq<real>)
      requires Valid() && clientWidth > 0.0
      modifies this
      ensures Valid()
      ensures var ss := Offsets((domain.max - domain.min) / clientWidth, x0, xs);
        && Window(minValue, maxValue) == Drag(domain.min, domain.max, Window(old(minValue), old(maxValue)), ss, false)
        && commits == old(commits) + DragCommits(domain.min, domain.max, Window(old(minValue), old(maxValue)), ss)
      ensures minInput == old(minInput) && maxInput == old(maxInput)
      ensures isMinEditing == old(isMinEditing) && isMaxEditing == old(isMaxEditing)
    {
      var dt := (domain.max - domain.min) / clientWidth;
      var w, cs := ShiftDrag(domain.min, domain.max, dt, x0, Window(minValue, maxValue), xs);
      DragKeepsWidth(domain.min, domain.max, Window(minValue, maxValue), Offsets(dt, x0, xs), false);
      minValue, maxValue := w.lo, w.hi;
      commits := commits + cs;
    }
  }
}
