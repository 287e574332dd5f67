/** The grid set-up in aggrid.jsx: turning the table's column descriptions into
    ag-Grid column definitions and the filter panel's lists, the colour of a cell,
    the width of the side panel, and the set filters applied when the data is first
    shown. */
module AgGrid {
  import opened Wrappers
  import opened Text
  import opened JsNumber
  import opened TimeUtils
  import opened FilterModel
  import opened Checklist
  import opened DateFormat

  datatype Threshold = Threshold(value: real, colorUp: string, colorDown: string)

  /** A column as the table describes it (the fields the set-up reads). `width` 0
      stands for a missing width; `formatter` is the date formatter's name. */
  datatype ColumnSpec = ColumnSpec(
    fieldName: string,
    headerName: string,
    visible: bool,
    filter: string,
    formatterType: string,
    formatter: string,
    width: real,
    defaultSort: string,
    color: string,
    cellBackground: string,
    textAlign: string,
    threshold: Option<Threshold>,
    colorMap: seq<(string, string)>,
    filterInclude: Option<seq<string>>,
    filterExclude: Option<seq<string>>)

  /** The column definition's own `filter` property: the set filter, the number
      filter, or none set, in which case the grid's `defaultColDef` (`filter: true`)
      gives the column ag-Grid's default filter. */
  datatype Kind = SetFilter | NumberFilter | DefaultFilter

  datatype Sizing = Width(w: real) | Flex

  /** The ag-Grid column definition built for a column. `timeOfDay` says that the
      grid filters the column on `extractTimeInMilliseconds` of the value. */
  datatype GridDef = GridDef(
    field: string,
    headerName: string,
    initialHide: bool,
    filter: Kind,
    timeOfDay: bool,
    sizing: Sizing,
    initialSort: string)

  /** An entry of the filter panel's lists. Only a date entry's `formatter` (the
      tag "date", "datetime" or "time") is read as a string. A text entry carries no
      formatter in the grid, so its `formatter` here is never read. A number entry's
      formatter is an options object there; the number filter sees it only as
      `NumberFilter.hasFormatter` and `format`. */
  datatype PanelEntry = PanelEntry(name: string, header: string, formatter: string)

  datatype Filters = Filters(text: seq<PanelEntry>, number: seq<PanelEntry>, date: seq<PanelEntry>, cols: bool)

  predicate IsFilterKind(f: string) { f == "text" || f == "number" || f == "date" }

  function KindOf(f: string): (k: Kind)
    ensures k == SetFilter <==> f == "text"
    ensures k == NumberFilter <==> f == "number" || f == "date"
    ensures k == DefaultFilter <==> !IsFilterKind(f)
  {
    if f == "text" then SetFilter
    else if f == "number" || f == "date" then NumberFilter
    else DefaultFilter
  }

  /** The definition of one column. */
  function GridDefOf(c: ColumnSpec): (d: GridDef)
    ensures d.field == c.fieldName && d.headerName == c.headerName && d.initialHide == !c.visible
    ensures d.filter == KindOf(c.filter)
    ensures d.timeOfDay <==> c.formatterType == "date" && c.formatter == "time"
    ensures d.sizing == if c.width != 0.0 then Width(c.width) else Flex
    ensures d.initialSort == c.defaultSort
  {
    GridDef(c.fieldName, c.headerName, !c.visible, KindOf(c.filter),
      c.formatterType == "date" && c.formatter == "time",
      if c.width != 0.0 then Width(c.width) else Flex,
      c.defaultSort)
  }

  /** The panel entries of the columns with filter kind `kind`, in table order. */
  function Entries(cols: seq<ColumnSpec>, kind: string): (r: seq<PanelEntry>)
    ensures |r| <= |cols|
  {
    if cols == [] then []
    else
      var c := cols[|cols| - 1];
      Entries(cols[..|cols| - 1], kind)
        + (if c.filter == kind then [PanelEntry(c.fieldName, c.headerName, c.formatter)] else [])
  }

  /** A column's entry in the panel's lists. */
  function EntryOf(c: ColumnSpec): PanelEntry
  {
    PanelEntry(c.fieldName, c.headerName, c.formatter)
  }

  /** An entry is listed for `kind` exactly when some column of that kind has it. */
  lemma {:induction false} EntriesIff(cols: seq<ColumnSpec>, kind: string, e: PanelEntry)
    ensures e in Entries(cols, kind) <==> exists i :: 0 <= i < |cols| && cols[i].filter == kind && EntryOf(cols[i]) == e
  {
    if cols != [] {
      var init := cols[..|cols| - 1];
      var last := cols[|cols| - 1];
      EntriesIff(init, kind, e);
      assert Entries(cols, kind) == Entries(init, kind) + (if last.filter == kind then [EntryOf(last)] else []);
      assert forall i :: 0 <= i < |init| ==> cols[i] == init[i];
      if e in Entries(cols, kind) && e !in Entries(init, kind) {
        assert cols[|cols| - 1].filter == kind && EntryOf(cols[|cols| - 1]) == e;
      }
    }
  }

  /** One more column extends each list by its entry when the kind is its own. */
  lemma EntriesSnoc(cols: seq<ColumnSpec>, i: int)
    requires 0 <= i < |cols|
    ensures var e := [PanelEntry(cols[i].fieldName, cols[i].headerName, cols[i].formatter)];
      && Entries(cols[..i + 1], "text") == Entries(cols[..i], "text") + (if cols[i].filter == "text" then e else [])
      && Entries(cols[..i + 1], "number") == Entries(cols[..i], "number") + (if cols[i].filter == "number" then e else [])
      && Entries(cols[..i + 1], "date") == Entries(cols[..i], "date") + (if cols[i].filter == "date" then e else [])
  {
    assert cols[..i + 1][..i] == cols[..i];
  }

  /** The `switch` on a column's filter kind: its panel entry goes to the list of
      its kind, and `found` says whether it had one. */
  method ClassifyColumn(c: ColumnSpec, text: seq<PanelEntry>, number: seq<PanelEntry>, date: seq<PanelEntry>)
    returns (text': seq<PanelEntry>, number': seq<PanelEntry>, date': seq<PanelEntry>, found: bool)
    ensures var e := [PanelEntry(c.fieldName, c.headerName, c.formatter)];
      && text' == text + (if c.filter == "text" then e else [])
      && number' == number + (if c.filter == "number" then e else [])
      && date' == date + (if c.filter == "date" then e else [])
    ensures found == IsFilterKind(c.filter)
  {
    var entry := PanelEntry(c.fieldName, c.headerName, c.formatter);
    text', number', date', found := text, number, date, false;
    if c.filter == "text" {
      text' := text + [entry];
      found := true;
    } else if c.filter == "number" {
      number' := number + [entry];
      found := true;
    } else if c.filter == "date" {
      date' := date + [entry];
      found := true;
    }
  }

  /** The definitions of the columns, in table order. */
  function GridDefs(cols: seq<ColumnSpec>): (r: seq<GridDef>)
    ensures |r| == |cols|
  {
    if cols == [] then [] else GridDefs(cols[..|cols| - 1]) + [GridDefOf(cols[|cols| - 1])]
  }

  /** One definition per column, each built from its own column. */
  lemma {:induction false} GridDefsAt(cols: seq<ColumnSpec>, i: int)
    requires 0 <= i < |cols|
    ensures GridDefs(cols)[i] == GridDefOf(cols[i])
  {
    if i < |cols| - 1 {
      GridDefsAt(cols[..|cols| - 1], i);
    }
  }

  /** Some column has a filter kind. */
  predicate AnyFilter(cols: seq<ColumnSpec>)
  {
    cols != [] && (AnyFilter(cols[..|cols| - 1]) || IsFilterKind(cols[|cols| - 1].filter))
  }

  lemma {:induction false} AnyFilterIff(cols: seq<ColumnSpec>)
    ensures AnyFilter(cols) <==> exists i :: 0 <= i < |cols| && IsFilterKind(cols[i].filter)
  {
    if cols != [] {
      var init := cols[..|cols| - 1];
      AnyFilterIff(init);
      if exists i :: 0 <= i < |init| && IsFilterKind(init[i].filter) {
        var i :| 0 <= i < |init| && IsFilterKind(init[i].filter);
        assert cols[i] == init[i];
      }
      if exists i :: 0 <= i < |cols| && IsFilterKind(cols[i].filter) {
        var i :| 0 <= i < |cols| && IsFilterKind(cols[i].filter);
        if i < |init| {
          assert init[i] == cols[i];
        }
      }
    }
  }

  /** The loop's variables after the columns `cols` have been classified. */
  predicate Classified(cols: seq<ColumnSpec>, columnFilter: bool, defs: seq<GridDef>,
                       text: seq<PanelEntry>, number: seq<PanelEntry>, date: seq<PanelEntry>,
                       colsFlag: bool, isFilters: bool, handed: bool)
  {
    && defs == GridDefs(cols)
    && text == Entries(cols, "text") && number == Entries(cols, "number") && date == Entries(cols, "date")
    && isFilters == AnyFilter(cols)
    && colsFlag == (cols != [] && columnFilter)
    && handed == (cols != [] && (columnFilter || isFilters))
  }

  /** One column more: what the loop body does to its variables classifies the
      longer prefix. */
  lemma ClassifyStep(cols: seq<ColumnSpec>, i: int, columnFilter: bool, defs: seq<GridDef>,
                     text: seq<PanelEntry>, number: seq<PanelEntry>, date: seq<PanelEntry>, isFilters: bool)
    requires 0 <= i < |cols|
    requires defs == GridDefs(cols[..i]) && isFilters == AnyFilter(cols[..i])
    requires text == Entries(cols[..i], "text") && number == Entries(cols[..i], "number") && date == Entries(cols[..i], "date")
    ensures var c := cols[i];
      var e := [PanelEntry(c.fieldName, c.headerName, c.formatter)];
      var isFilters' := isFilters || IsFilterKind(c.filter);
      Classified(cols[..i + 1], columnFilter, defs + [GridDefOf(c)],
        text + (if c.filter == "text" then e else []),
        number + (if c.filter == "number" then e else []),
        date + (if c.filter == "date" then e else []),
        columnFilter, isFilters', columnFilter || isFilters')
  {
    EntriesSnoc(cols, i);
    assert cols[..i + 1][..i] == cols[..i];
  }

  /** What the panel is given: the three lists and the column-filter flag. */
  function PanelFilters(cols: seq<ColumnSpec>, columnFilter: bool): Filters
  {
    Filters(Entries(cols, "text"), Entries(cols, "number"), Entries(cols, "date"), columnFilter)
  }

  /** The classification loop of the `columnDefs` memo: one definition per column,
      and the panel's lists, handed over only once a column has been seen while the
      table has a column filter or some column so far has a filter kind. */
  method BuildColumnDefs(cols: seq<ColumnSpec>, columnFilter: bool) returns (defs: seq<GridDef>, filters: Option<Filters>)
    ensures defs == GridDefs(cols)
    ensures filters.Some? <==> |cols| > 0 && (columnFilter || AnyFilter(cols))
    ensures filters.Some? ==> filters.value == PanelFilters(cols, columnFilter)
  {
    defs := [];
    var text: seq<PanelEntry> := [];
    var number: seq<PanelEntry> := [];
    var date: seq<PanelEntry> := [];
    var colsFlag := false;
    var isFilters := false;
    var handed := false;
    var i := 0;
    while i < |cols|
      invariant 0 <= i <= |cols|
      invariant Classified(cols[..i], columnFilter, defs, text, number, date, colsFlag, isFilters, handed)
    {
      var c := cols[i];
      ghost var defs0, text0, number0, date0, isFilters0 := defs, text, number, date, isFilters;
      var found;
      text, number, date, found := ClassifyColumn(c, text, number, date);
      if found {
        isFilters := true;
      }
      if columnFilter {
        colsFlag := true;
      }
      if columnFilter || isFilters {
        handed := true;
      }
      defs := defs + [GridDefOf(c)];
      ClassifyStep(cols, i, columnFilter, defs0, text0, number0, date0, isFilters0);
      i := i + 1;
    }
    assert cols[..i] == cols;
    // The panel holds the same object the loop went on filling, so it sees the final lists.
    filters := if handed then Some(Filters(text, number, date, colsFlag)) else None;
  }

  /** The value the grid's number filter tests for a column: under the `time` date
      formatter the time of day of the value, otherwise the value itself. */
  function FilterValue(d: GridDef, c: Cell): (r: Cell)
    ensures !d.timeOfDay ==> r == c
  {
    if d.timeOfDay then TimeOfCell(c) else c
  }

  /** For a `time` date column the grid filters the very values the tool-panel date
      filter scans, so its window is drawn from the values it is tested against. */
  lemma FilterValuesMatchScan(col: ColumnSpec, rows: seq<Row<Cell>>, i: int)
    requires col.formatterType == "date" && col.formatter == "time"
    requires 0 <= i < |rows|
    ensures ScanRows(rows, TimeFmt)[i].value == FilterValue(GridDefOf(col), rows[i].value)
    ensures FilterValue(GridDefOf(col), rows[i].value).Num? ==> InDay(FilterValue(GridDefOf(col), rows[i].value))
  {
  }

  /** A cell value as `cellStyle` sees it. */
  datatype Val = NumVal(x: real) | StrVal(s: string) | NullVal | Undefined

  /** `value >= t` for a number `t`: strings are read as numbers, null as 0. */
  predicate AtLeast(v: Val, t: real)
  {
    match v
    case NumVal(x) => x >= t
    case StrVal(s) => ParseDecimal(s).Some? && ParseDecimal(s).value >= t
    case NullVal => 0.0 >= t
    case Undefined => false
  }

  /** `value == key` for a colour-map key (a string): numbers compare with the key
      read as a number, strings by equality, null and undefined never. */
  predicate Matches(v: Val, key: string)
  {
    match v
    case NumVal(x) => ParseDecimal(key) == Some(x)
    case StrVal(s) => s == key
    case NullVal => false
    case Undefined => false
  }

  datatype Style = Style(color: string, background: string, justifyContent: string)

  /** The colour before the colour map: the threshold's colour when there is one. */
  function BaseColor(c: ColumnSpec, v: Val): (r: string)
    ensures c.threshold.None? ==> r == c.color
    ensures c.threshold.Some? ==> r == if AtLeast(v, c.threshold.value.value) then c.threshold.value.colorUp else c.threshold.value.colorDown
  {
    match c.threshold
    case None => c.color
    case Some(t) => if AtLeast(v, t.value) then t.colorUp else t.colorDown
  }

  /** The colour after walking the colour map in order. */
  function Overridden(base: string, entries: seq<(string, string)>, v: Val): (r: string)
    ensures (forall i :: 0 <= i < |entries| ==> !Matches(v, entries[i].0)) ==> r == base
    ensures r == base || exists i :: 0 <= i < |entries| && Matches(v, entries[i].0) && r == entries[i].1
  {
    if entries == [] then base
    else
      var last := entries[|entries| - 1];
      var init := entries[..|entries| - 1];
      if Matches(v, last.0) then last.1
      else
        var r := Overridden(base, init, v);
        assert r != base ==> exists i :: 0 <= i < |init| && Matches(v, init[i].0) && r == init[i].1;
        assert forall i :: 0 <= i < |init| ==> init[i] == entries[i];
        r
  }

  /** The last matching colour-map entry wins. */
  lemma {:induction false} LastMatchWins(base: string, entries: seq<(string, string)>, v: Val, i: int)
    requires 0 <= i < |entries| && Matches(v, entries[i].0)
    requires forall j :: i < j < |entries| ==> !Matches(v, entries[j].0)
    ensures Overridden(base, entries, v) == entries[i].1
  {
    var init := entries[..|entries| - 1];
    if i < |entries| - 1 {
      LastMatchWins(base, init, v, i);
    }
  }

  /** With no matching entry the base colour stays. */
  lemma {:induction false} NoMatchKeepsBase(base: string, entries: seq<(string, string)>, v: Val)
    requires forall j :: 0 <= j < |entries| ==> !Matches(v, entries[j].0)
    ensures Overridden(base, entries, v) == base
  {
    if entries != [] {
      NoMatchKeepsBase(base, entries[..|entries| - 1], v);
    }
  }

  /** `cellStyle`: the column's colours, the threshold, then the colour map. */
  method CellStyle(c: ColumnSpec, v: Val) returns (style: Style)
    ensures style == Style(Overridden(BaseColor(c, v), c.colorMap, v), c.cellBackground, c.textAlign)
  {
    style := Style(c.color, c.cellBackground, c.textAlign);
    if c.threshold.Some? {
      style := style.(color := if AtLeast(v, c.threshold.value.value) then c.threshold.value.colorUp else c.threshold.value.colorDown);
    }
    var i := 0;
    while i < |c.colorMap|
      invariant 0 <= i <= |c.colorMap|
      invariant style == Style(Overridden(BaseColor(c, v), c.colorMap[..i], v), c.cellBackground, c.textAlign)
    {
      assert c.colorMap[..i + 1][..i] == c.colorMap[..i];
      if Matches(v, c.colorMap[i].0) {
        style := style.(color := c.colorMap[i].1);
      }
      i := i + 1;
    }
    assert c.colorMap[..i] == c.colorMap;
  }

  /** The side panel's width: the stored width read with `parseInt`, or 223 when
      nothing is stored, it does not parse, or it is 0. */
  function PanelWidth(stored: Option<string>): (w: int)
    ensures w != 0
  {
    match stored
    case None => 223
    case Some(s) =>
      match ParseIntPrefix(s)
      case None => 223
      case Some(n) => if n == 0 then 223 else n
  }

  /** A positive width the panel stored is read back unchanged; zero falls back. */
  lemma PanelWidthRoundTrip(n: nat)
    ensures PanelWidth(Some(NatToString(n))) == if n == 0 then 223 else n
  {
    ParseIntOfRendering(n, []);
    assert NatToString(n) + [] == NatToString(n);
  }

  /** The values of one column as the row scan sees them: a missing field is keyed
      as "undefined". */
  function ColumnRows(rows: seq<Row<map<string, string>>>, field: string): (r: seq<Row<string>>)
    ensures |r| == |rows|
    ensures forall i :: 0 <= i < |rows| ==>
      r[i] == Row(if field in rows[i].value then rows[i].value[field] else "undefined", rows[i].displayed)
  {
    if rows == [] then []
    else
      var d := rows[0].value;
      [Row(if field in d then d[field] else "undefined", rows[0].displayed)] + ColumnRows(rows[1..], field)
  }

  /** `filterInclude` without the excluded values, in order. */
  function IncludeValues(wanted: seq<string>, exclude: seq<string>): (r: seq<string>)
    ensures |r| <= |wanted|
  {
    if wanted == [] then []
    else if wanted[0] !in exclude then [wanted[0]] + IncludeValues(wanted[1..], exclude)
    else IncludeValues(wanted[1..], exclude)
  }

  lemma {:induction false} IncludeValuesIff(wanted: seq<string>, exclude: seq<string>, v: string)
    ensures v in IncludeValues(wanted, exclude) <==> v in wanted && v !in exclude
  {
    if wanted != [] {
      IncludeValuesIff(wanted[1..], exclude, v);
      assert v in wanted <==> v == wanted[0] || v in wanted[1..];
    }
  }

  /** One more row: its value joins the values, and the displayed values when shown. */
  lemma ScanSnoc<T>(rows: seq<Row<T>>, i: int)
    requires 0 <= i < |rows|
    ensures Values(rows[..i + 1]) == Values(rows[..i]) + [rows[i].value]
    ensures DisplayedValues(rows[..i + 1]) ==
      if rows[i].displayed then DisplayedValues(rows[..i]) + [rows[i].value] else DisplayedValues(rows[..i])
  {
    var prefix := rows[..i];
    var next := rows[..i + 1];
    assert next[..i] == prefix;
    var a := Values(next);
    var b := Values(prefix) + [rows[i].value];
    assert forall j :: 0 <= j < |a| ==> a[j] == b[j];
  }

  /** One step of the dictionary walk keeps its keys and flags in line with the rows. */
  lemma ScanStep(vals: seq<string>, dv: seq<string>, keys: seq<string>, shown: map<string, bool>,
                 v: string, d: bool, keys2: seq<string>, shown2: map<string, bool>)
    requires keys == Dedup(vals) && forall k :: k in dv ==> k in vals
    requires forall k :: k in shown <==> k in keys
    requires forall k :: k in shown ==> (shown[k] <==> k in dv)
    requires keys2 == if v in shown then keys else keys + [v]
    requires shown2 == if v !in shown then shown[v := d] else if d then shown[v := true] else shown
    ensures keys2 == Dedup(vals + [v])
    ensures forall k :: k in shown2 <==> k in keys2
    ensures forall k :: k in shown2 ==> (shown2[k] <==> k in (if d then dv + [v] else dv))
  {
    DedupSnoc(vals, v);
    DedupIff(vals, v);
  }

  /** The dictionary the exclude branch fills while walking the rows: its keys in the
      order first seen, and for each key whether some row carrying it is displayed. */
  method ScanKeys(rows: seq<Row<string>>) returns (keys: seq<string>, shown: map<string, bool>)
    ensures keys == Dedup(Values(rows))
    ensures forall k :: k in shown <==> k in keys
    ensures forall k :: k in shown ==> (shown[k] <==> k in DisplayedValues(rows))
  {
    keys := [];
    shown := map[];
    ghost var vals: seq<string> := [];
    ghost var dv: seq<string> := [];
    var i := 0;
    while i < |rows|
      invariant 0 <= i <= |rows|
      invariant vals == Values(rows[..i]) && dv == DisplayedValues(rows[..i])
      invariant keys == Dedup(vals)
      invariant forall k :: k in shown <==> k in keys
      invariant forall k :: k in shown ==> (shown[k] <==> k in dv)
    {
      var v := rows[i].value;
      var d := rows[i].displayed;
      ScanSnoc(rows, i);
      DisplayedAreValues(rows[..i]);
      ghost var keys0, shown0 := keys, shown;
      if v !in shown {
        shown := shown[v := d];
        keys := keys + [v];
      } else if d {
        shown := shown[v := true];
      }
      ScanStep(vals, dv, keys0, shown0, v, d, keys, shown);
      vals := vals + [v];
      if d {
        dv := dv + [v];
      }
      i := i + 1;
    }
    assert rows[..i] == rows;
  }

  /** The exclude branch as written: every key maps to itself when shown and to
      `undefined` (here `None`) otherwise, and only the defined excluded values are
      then dropped. */
  function ExcludeValuesAsWritten(keys: seq<string>, shown: map<string, bool>, exclude: seq<string>): (r: seq<Option<string>>)
    requires forall k :: k in keys ==> k in shown
    ensures |r| <= |keys|
    ensures forall v :: Some(v) in r ==> v in keys && shown[v] && v !in exclude
  {
    if keys == [] then []
    else
      var entry := if shown[keys[0]] then Some(keys[0]) else None;
      var rest := ExcludeValuesAsWritten(keys[1..], shown, exclude);
      if entry.Some? && entry.value in exclude then rest else [entry] + rest
  }

  /** The exclude branch as intended: the shown keys that are not excluded. */
  function ExcludeValues(keys: seq<string>, shown: map<string, bool>, exclude: seq<string>): (r: seq<string>)
    requires forall k :: k in keys ==> k in shown
    ensures |r| <= |keys|
    ensures forall v :: v in r ==> v in keys && shown[v] && v !in exclude
  {
    if keys == [] then []
    else if shown[keys[0]] && keys[0] !in exclude then [keys[0]] + ExcludeValues(keys[1..], shown, exclude)
    else ExcludeValues(keys[1..], shown, exclude)
  }

  lemma {:induction false} ExcludeValuesIff(keys: seq<string>, shown: map<string, bool>, exclude: seq<string>, v: string)
    requires forall k :: k in keys ==> k in shown
    ensures v in ExcludeValues(keys, shown, exclude) <==> v in keys && shown[v] && v !in exclude
  {
    if keys != [] {
      ExcludeValuesIff(keys[1..], shown, exclude, v);
      assert v in keys <==> v == keys[0] || v in keys[1..];
    }
  }

  /** A value whose rows are all hidden leaves an `undefined` entry in the as-written
      list, which the intended list does not have. */
  lemma {:induction false} HiddenValueLeavesUndefined(keys: seq<string>, shown: map<string, bool>, exclude: seq<string>, v: string)
    requires forall k :: k in keys ==> k in shown
    requires v in keys && !shown[v]
    ensures None in ExcludeValuesAsWritten(keys, shown, exclude)
  {
    if keys[0] != v {
      HiddenValueLeavesUndefined(keys[1..], shown, exclude, v);
    }
  }

  /** One displayed value "a" (excluded) and one hidden value "b": as written the
      model holds a single `undefined`, as intended it is empty. */
  lemma ExcludeExample()
    ensures ExcludeValuesAsWritten(["a", "b"], map["a" := true, "b" := false], ["a"]) == [None]
    ensures ExcludeValues(["a", "b"], map["a" := true, "b" := false], ["a"]) == []
  {
  }

  /** What the first render does for one column. */
  datatype Initial = Skip | Commit(values: seq<string>) | Throw

  /** The intended set values of the exclude branch for one column. */
  function ExcludeFor(rows: seq<Row<string>>, exclude: seq<string>): (r: seq<string>)
    ensures |r| <= |rows|
    ensures forall v :: v in r ==> v !in exclude
  {
    DedupMembers(Values(rows));
    ExcludeValues(Dedup(Values(rows)), map k | k in Values(rows) :: k in DisplayedValues(rows), exclude)
  }

  /** The intended exclude branch admits exactly the displayed, non-excluded values. */
  lemma ExcludeForIff(rows: seq<Row<string>>, exclude: seq<string>, v: string)
    ensures v in ExcludeFor(rows, exclude) <==>
      (exists i :: 0 <= i < |rows| && rows[i].displayed && rows[i].value == v) && v !in exclude
  {
    var keys := Dedup(Values(rows));
    var shown := map k | k in Values(rows) :: k in DisplayedValues(rows);
    DedupMembers(Values(rows));
    ExcludeValuesIff(keys, shown, exclude, v);
    DedupIff(Values(rows), v);
    DisplayedValuesIff(rows, v);
    DisplayedAreValues(rows);
    assert v in ExcludeFor(rows, exclude) <==> v in keys && shown[v] && v !in exclude;
  }

  function ColumnInitial(c: ColumnSpec, rows: seq<Row<map<string, string>>>): (r: Initial)
    ensures r == Throw <==> c.filterInclude.Some? && |c.filterInclude.value| > 0 && c.filterExclude.None?
  {
    if c.filterInclude.Some? && |c.filterInclude.value| > 0 then
      if c.filterExclude.None? then Throw
      else Commit(IncludeValues(c.filterInclude.value, c.filterExclude.value))
    else if c.filterExclude.Some? && |c.filterExclude.value| > 0 then
      DedupMembers(Values(ColumnRows(rows, c.fieldName)));
      Commit(ExcludeFor(ColumnRows(rows, c.fieldName), c.filterExclude.value))
    else Skip
  }

  lemma DedupMembers(s: seq<string>)
    ensures forall k :: k in Dedup(s) ==> k in s
  {
    forall k | k in Dedup(s)
      ensures k in s
    {
      DedupIff(s, k);
    }
  }

  /** The models set on the first render, column by column, up to the first column
      that throws (the rest are not reached). */
  function Initials(cols: seq<ColumnSpec>, rows: seq<Row<map<string, string>>>): (r: (seq<(string, Model)>, bool))
    ensures |r.0| <= |cols|
    ensures r.1 <==> exists i :: 0 <= i < |cols| && ColumnInitial(cols[i], rows) == Throw
    ensures forall p :: p in r.0 ==> exists i :: 0 <= i < |cols| && cols[i].fieldName == p.0
  {
    if cols == [] then ([], false)
    else
      var prev := Initials(cols[..|cols| - 1], rows);
      var c := cols[|cols| - 1];
      assert forall i :: 0 <= i < |cols| - 1 ==> cols[..|cols| - 1][i] == cols[i];
      if prev.1 then prev
      else
        match ColumnInitial(c, rows)
        case Skip => prev
        case Throw => (prev.0, true)
        case Commit(vs) => (prev.0 + [(c.fieldName, SetValues(vs))], false)
  }

  /** Once a column throws, no later column gets a model. */
  lemma {:induction false} InitialsStopAtThrow(cols: seq<ColumnSpec>, rows: seq<Row<map<string, string>>>, i: int)
    requires 0 < i <= |cols| && Initials(cols[..i], rows).1
    ensures Initials(cols, rows) == Initials(cols[..i], rows)
  {
    if i < |cols| {
      assert cols[..|cols| - 1][..i] == cols[..i];
      InitialsStopAtThrow(cols[..|cols| - 1], rows, i);
    } else {
      assert cols[..i] == cols;
    }
  }

  /** The dictionary the scan fills is the one the specification reads. */
  lemma ShownIsSpec(rows: seq<Row<string>>, keys: seq<string>, shown: map<string, bool>)
    requires keys == Dedup(Values(rows))
    requires forall k :: k in shown <==> k in keys
    requires forall k :: k in shown ==> (shown[k] <==> k in DisplayedValues(rows))
    ensures shown == map k | k in Values(rows) :: k in DisplayedValues(rows)
  {
    var spec := map k | k in Values(rows) :: k in DisplayedValues(rows);
    forall k
      ensures k in shown <==> k in spec
    {
      DedupIff(Values(rows), k);
    }
  }

  /** The body of the column loop for one column; the exclude branch walks the rows. */
  method ColumnStep(c: ColumnSpec, rows: seq<Row<map<string, string>>>) returns (r: Initial)
    ensures r == ColumnInitial(c, rows)
  {
    if c.filterInclude.Some? && |c.filterInclude.value| > 0 {
      if c.filterExclude.None? {
        r := Throw;
      } else {
        r := Commit(IncludeValues(c.filterInclude.value, c.filterExclude.value));
      }
    } else if c.filterExclude.Some? && |c.filterExclude.value| > 0 {
      var column := ColumnRows(rows, c.fieldName);
      var keys, shown := ScanKeys(column);
      ShownIsSpec(column, keys, shown);
      r := Commit(ExcludeValues(keys, shown, c.filterExclude.value));
    } else {
      r := Skip;
    }
  }

  /** `onFirstDataRendered`: nothing when a saved grid state exists; otherwise the
      column loop, which ends at the first column that throws. */
  method FirstDataRendered(cols: seq<ColumnSpec>, rows: seq<Row<map<string, string>>>, savedState: bool)
    returns (models: seq<(string, Model)>, threw: bool)
    ensures savedState ==> models == [] && !threw
    ensures !savedState ==> (models, threw) == Initials(cols, rows)
  {
    models := [];
    threw := false;
    if savedState {
      return;
    }
    var i := 0;
    while i < |cols| && !threw
      invariant 0 <= i <= |cols|
      invariant (models, threw) == Initials(cols[..i], rows)
    {
      var c := cols[i];
      assert cols[..i + 1][..i] == cols[..i];
      var r := ColumnStep(c, rows);
      match r {
        case Skip =>
        case Throw => threw := true;
        case Commit(vs) => models := models + [(c.fieldName, SetValues(vs))];
      }
      i := i + 1;
    }
    if threw {
      InitialsStopAtThrow(cols, rows, i);
    } else {
      assert cols[..i] == cols;
    }
  }
}
