/** What the widgets hand to the grid and to each other: the column filter models
    passed to `setColumnFilterModel`, the rows seen through `forEachNode`, and the
    panel-wide `refresh` signal that tells the set filters to rescan. */
module FilterModel {

  /** A column filter model. */
  datatype Model =
    | RangeAnd(lo: real, hi: real)     // AND[greaterThanOrEqual lo, lessThanOrEqual hi]
    | SetValues(values: seq<string>)   // a set filter admitting exactly these values
    | NoFilter                         // null: the column filter is removed

  /** A row as `forEachNode` shows it: the column's value and whether the row is
      currently displayed (passes the other filters). */
  datatype Row<T> = Row(value: T, displayed: bool)

  /** The number condition pair `lo <= x && x <= hi`. */
  predicate RangeAdmits(m: Model, x: real)
    requires m.RangeAnd?
  {
    m.lo <= x && x <= m.hi
  }

  /** The values a row scan sees: every row's value, in row order. */
  function Values<T>(rows: seq<Row<T>>): (r: seq<T>)
    ensures |r| == |rows|
    ensures forall i :: 0 <= i < |rows| ==> r[i] == rows[i].value
  {
    if rows == [] then [] else [rows[0].value] + Values(rows[1..])
  }

  /** The values of the displayed rows only, in row order. */
  function DisplayedValues<T>(rows: seq<Row<T>>): (r: seq<T>)
    ensures |r| <= |rows|
    decreases |rows|
  {
    if rows == [] then []
    else if rows[|rows| - 1].displayed then DisplayedValues(rows[..|rows| - 1]) + [rows[|rows| - 1].value]
    else DisplayedValues(rows[..|rows| - 1])
  }

  /** A value is among the displayed values exactly when some displayed row carries it. */
  lemma {:induction false} DisplayedValuesIff<T>(rows: seq<Row<T>>, v: T)
    ensures v in DisplayedValues(rows) <==> exists i :: 0 <= i < |rows| && rows[i].displayed && rows[i].value == v
  {
    if rows != [] {
      var init := rows[..|rows| - 1];
      DisplayedValuesIff(init, v);
      if exists i :: 0 <= i < |init| && init[i].displayed && init[i].value == v {
        var i :| 0 <= i < |init| && init[i].displayed && init[i].value == v;
        assert rows[i] == init[i];
      }
      if exists i :: 0 <= i < |rows| && rows[i].displayed && rows[i].value == v {
        var i :| 0 <= i < |rows| && rows[i].displayed && rows[i].value == v;
        if i < |init| {
          assert init[i] == rows[i];
        }
      }
    }
  }

  /** Every displayed value is also a value of some row. */
  lemma {:induction false} DisplayedAreValues<T>(rows: seq<Row<T>>)
    ensures forall v :: v in DisplayedValues(rows) ==> v in Values(rows)
    ensures |DisplayedValues(rows)| > 0 ==> |Values(rows)| > 0
  {
    forall v | v in DisplayedValues(rows)
      ensures v in Values(rows)
    {
      DisplayedValuesIff(rows, v);
      var i :| 0 <= i < |rows| && rows[i].displayed && rows[i].value == v;
      assert Values(rows)[i] == v;
    }
  }

  /** The refresh signal of the filter panel. It starts as `false`; the number filter
      negates it, the tool-panel date filter sets the string "filter", and the set
      filter sets an object naming the column it last applied (or ""). */
  datatype Refresh = Flag(on: bool) | Label(text: string) | Tagged(filter: string)

  /** JavaScript truthiness of the signal. */
  predicate Raised(r: Refresh)
  {
    match r
    case Flag(b) => b
    case Label(s) => s != ""
    case Tagged(_) => true
  }

  /** `setRefresh(prev => !prev)`. */
  function Toggled(r: Refresh): (n: Refresh)
    ensures n.Flag? && n.on == !Raised(r)
  {
    Flag(!Raised(r))
  }

  /** `filter == refresh.filter` is false unless the signal is an object naming this
      column; only then does a set filter skip its rescan. */
  function ShouldRescan(r: Refresh, column: string): (b: bool)
    ensures !r.Tagged? ==> b
    ensures r.Tagged? ==> (b <==> r.filter != column)
  {
    !(r.Tagged? && r.filter == column)
  }

  /** Whether React re-runs an effect that depends on the signal when it goes from
      `prev` to `next`: the dependency is compared with `Object.is`, so a freshly
      built object always differs, while a boolean or string differs only when its
      value does. */
  function Fires(prev: Refresh, next: Refresh): (b: bool)
    ensures next.Tagged? ==> b
    ensures !next.Tagged? ==> (b <==> next != prev)
  {
    next.Tagged? || next != prev
  }

  /** The set filter's rescan effect runs and then rebuilds its list. */
  predicate Rescans(prev: Refresh, next: Refresh, column: string)
  {
    Fires(prev, next) && ShouldRescan(next, column)
  }

  /** After a set filter applies, every set filter rescans except the one that
      applied; after a reset or a number filter's commit, every set filter rescans;
      a date filter's commit rescans only when the signal was not already the
      string "filter". */
  lemma RescanAfterApply(applied: string, column: string, prev: Refresh)
    ensures Rescans(prev, Tagged(applied), column) <==> column != applied
    ensures Rescans(prev, Tagged(""), column) <==> column != ""
    ensures Rescans(prev, Toggled(prev), column)
    ensures Rescans(prev, Label("filter"), column) <==> prev != Label("filter")
  {
  }

  /** A second date-filter commit in a row leaves the signal at the same string, so
      no set filter rescans the rows that commit has filtered. */
  lemma RepeatedDateCommitStale(column: string)
    ensures !Rescans(Label("filter"), Label("filter"), column)
  {
  }
}
