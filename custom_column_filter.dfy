/** The column-visibility filter mounted as a grid column filter
    (custom_filters/column_filter.jsx): a checklist of the grid's columns other than
    the `columnFilter` column itself, which Apply turns into `hide` flags on the column
    definitions. As a grid filter it admits every row. */
module ColumnGridFilter {
  import opened Text
  import opened FilterModel
  import opened Checklist

  /** The column this filter is attached to; it is never listed. */
  const FilterColumn := "columnFilter"

  /** The columns the mount effect lists. */
  function ListedColumns(cols: seq<GridColumn>): (r: seq<GridColumn>)
    ensures |r| <= |cols|
  {
    if cols == [] then []
    else if cols[0].colId != FilterColumn then [cols[0]] + ListedColumns(cols[1..])
    else ListedColumns(cols[1..])
  }

  /** Every grid column except the filter's own is listed, in grid order. */
  lemma {:induction false} ListedColumnsIff(cols: seq<GridColumn>, c: GridColumn)
    ensures c in ListedColumns(cols) <==> c in cols && c.colId != FilterColumn
  {
    if cols != [] {
      ListedColumnsIff(cols[1..], c);
      assert c in cols <==> c == cols[0] || c in cols[1..];
    }
  }

  /** Reset: only the filter's own column stays hidden. */
  function OnlyFilterColumnHidden(defs: seq<ColDef>): (r: seq<ColDef>)
    ensures |r| == |defs|
    ensures forall i :: 0 <= i < |defs| ==>
      r[i].field == defs[i].field && r[i].colId == defs[i].colId && (r[i].hide <==> defs[i].colId == FilterColumn)
  {
    if defs == [] then [] else [defs[0].(hide := defs[0].colId == FilterColumn)] + OnlyFilterColumnHidden(defs[1..])
  }

  /** Resetting twice is resetting once. */
  lemma {:induction false} OnlyFilterColumnHiddenIdempotent(defs: seq<ColDef>)
    ensures OnlyFilterColumnHidden(OnlyFilterColumnHidden(defs)) == OnlyFilterColumnHidden(defs)
  {
    var once := OnlyFilterColumnHidden(defs);
    var twice := OnlyFilterColumnHidden(once);
    assert forall i :: 0 <= i < |defs| ==> twice[i] == once[i];
  }

  /** The grid-filter interface: an empty model, every row passes, never active. */
  function DoesFilterPass<T>(node: T): (r: bool)
    ensures r
  {
    true
  }

  function IsFilterActive(): (r: bool)
    ensures !r
  {
    false
  }

  class ColumnFilter {
    /** The host's `toLowerCase`, which the search applies to both sides. */
    const fold: CaseMap
    var search: string
    var nodes: seq<Item>
    var filtered: seq<Item>
    var all: bool

    predicate Valid()
      reads this
    {
      && (forall it :: it in filtered ==> it in nodes)
      && (nodes != [] ==> all == AllChecked(nodes))
    }

    /** The mount effect: the listed columns, checked when visible. */
    constructor (cols: seq<GridColumn>, fold: CaseMap)
      ensures Valid() && this.fold == fold
      ensures search == "" && nodes == ColumnItems(ListedColumns(cols)) && filtered == nodes
      ensures all == AllChecked(nodes)
    {
      var items := ColumnItems(ListedColumns(cols));
      this.fold := fold;
      search := "";
      nodes := items;
      filtered := items;
      all := AllChecked(items);
    }

    /** `handleCheck`: flips the columns with the clicked header and shows the whole
        list. With a search term present the handler then calls an undefined function
        and throws (`threw`), so the visible list is not narrowed again. */
    method Check(header: string) returns (threw: bool)
      requires Valid()
      modifies this
      ensures Valid()
      ensures nodes == Toggle(old(nodes), header) && all == AllChecked(nodes) && filtered == nodes
      ensures search == old(search) && threw == (search != "")
    {
      var updated := Toggle(nodes, header);
      all := AllChecked(updated);
      nodes := updated;
      filtered := updated;
      threw := search != "";
    }

    /** `handleCheckAll`. */
    method CheckAll(on: bool)
      requires Valid()
      modifies this
      ensures Valid()
      ensures nodes == SetAll(old(nodes), on) && all == on && filtered == nodes
      ensures search == old(search)
    {
      var updated := SetAll(nodes, on);
      SetAllAgrees(nodes, on);
      all := on;
      filtered := updated;
      nodes := updated;
    }

    /** `filterNodes`: the term is stored; an empty term leaves the visible list as it
        was, any other shows the columns whose id matches. */
    method FilterNodes(term: string)
      requires Valid()
      modifies this
      ensures Valid()
      ensures search == term && nodes == old(nodes) && all == old(all)
      ensures term == "" ==> filtered == old(filtered)
      ensures term != "" ==> filtered == Search(nodes, term, fold)
    {
      search := term;
      if term != "" {
        filtered := Search(nodes, term, fold);
        forall it | it in filtered
          ensures it in nodes
        {
          SearchIff(nodes, term, fold, it);
        }
      }
    }

    /** `updateFilter`: new definitions hiding every column whose field is not a
        checked column id, and a cleared search. */
    method Apply(defs: seq<ColDef>) returns (updated: seq<ColDef>)
      requires Valid()
      modifies this
      ensures Valid()
      ensures updated == HideUnchecked(defs, CheckedKeys(nodes))
      ensures search == "" && nodes == old(nodes) && filtered == old(filtered) && all == old(all)
    {
      updated := HideUnchecked(defs, CheckedKeys(nodes));
      search := "";
    }

    /** `resetFilter`: only the filter column hidden, every item checked, the whole
        list visible; the search text stays. */
    method Reset(defs: seq<ColDef>) returns (updated: seq<ColDef>)
      requires Valid()
      modifies this
      ensures Valid()
      ensures updated == OnlyFilterColumnHidden(defs)
      ensures nodes == SetAll(old(nodes), true) && all && filtered == nodes && search == old(search)
    {
      updated := OnlyFilterColumnHidden(defs);
      var items := SetAll(nodes, true);
      SetAllAgrees(nodes, true);
      all := true;
      nodes := items;
      filtered := items;
    }
  }
}
