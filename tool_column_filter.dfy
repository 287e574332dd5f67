/** The column-visibility filter of the tool panel (tool_panel/column_filter.jsx):
    a checklist of every grid column. Apply and Reset rewrite the `hide` flag of the
    column definitions in place before handing them back to the grid. */
module ColumnFilterPanel {
  import opened Text
  import opened FilterModel
  import opened Checklist

  /** Apply's `forEach`: each definition's `hide` becomes "field not checked". */
  method HideUncheckedInPlace(defs: array<ColDef>, visible: seq<string>)
    modifies defs
    ensures defs[..] == HideUnchecked(old(defs[..]), visible)
  {
    ghost var before := defs[..];
    var i := 0;
    while i < defs.Length
      invariant 0 <= i <= defs.Length
      invariant forall j :: 0 <= j < i ==> defs[j] == before[j].(hide := before[j].field !in visible)
      invariant forall j :: i <= j < defs.Length ==> defs[j] == before[j]
    {
      defs[i] := defs[i].(hide := defs[i].field !in visible);
      i := i + 1;
    }
  }

  /** Reset's `forEach`: every definition is shown. */
  method ShowAllInPlace(defs: array<ColDef>)
    modifies defs
    ensures forall j :: 0 <= j < defs.Length ==> defs[j] == old(defs[j]).(hide := false)
  {
    var i := 0;
    while i < defs.Length
      invariant 0 <= i <= defs.Length
      invariant forall j :: 0 <= j < i ==> defs[j] == old(defs[j]).(hide := false)
      invariant forall j :: i <= j < defs.Length ==> defs[j] == old(defs[j])
    {
      defs[i] := defs[i].(hide := false);
      i := i + 1;
    }
  }

  class ColumnFilter {
    /** The host's `toLowerCase`, which the search applies to both sides. */
    const fold: CaseMap
    var search: string
    var nodes: seq<Item>
    var filtered: seq<Item>
    var all: bool

    predicate Valid()
      reads this
    {
      && (forall it :: it in filtered ==> it in nodes)
      && (nodes != [] ==> all == AllChecked(nodes))
    }

    /** The mount effect: every grid column, checked when visible. */
    constructor (cols: seq<GridColumn>, fold: CaseMap)
      ensures Valid() && this.fold == fold
      ensures search == "" && nodes == ColumnItems(cols) && filtered == nodes
      ensures all == AllChecked(nodes)
    {
      var items := ColumnItems(cols);
      this.fold := fold;
      search := "";
      nodes := items;
      filtered := items;
      all := AllChecked(items);
    }

    /** `handleCheck` as written: its callback reads an undeclared variable, so with any
        column listed it throws before changing anything; with none it maps to an empty
        list and then throws when a search term is present. */
    method Check(header: string) returns (threw: bool)
      requires Valid()
      modifies this
      ensures Valid()
      ensures old(nodes) != [] ==> threw && unchanged(this)
      ensures old(nodes) == [] ==>
        nodes == [] && filtered == [] && all && search == old(search) && threw == (search != "")
    {
      if nodes != [] {
        threw := true;
      } else {
        all := true;
        nodes := [];
        filtered := [];
        threw := search != "";
      }
    }

    /** `handleCheckAll`. */
    method CheckAll(on: bool)
      requires Valid()
      modifies this
      ensures Valid()
      ensures nodes == SetAll(old(nodes), on) && all == on && filtered == nodes
      ensures search == old(search)
    {
      var updated := SetAll(nodes, on);
      SetAllAgrees(nodes, on);
      all := on;
      filtered := updated;
      nodes := updated;
    }

    /** `filterNodes`: the term is stored and the visible list is the columns whose id
        matches it; the empty term matches every column. */
    method FilterNodes(term: string)
      requires Valid()
      modifies this
      ensures Valid()
      ensures search == term && filtered == Search(nodes, term, fold)
      ensures nodes == old(nodes) && all == old(all)
    {
      search := term;
      filtered := Search(nodes, term, fold);
      forall it | it in filtered
        ensures it in nodes
      {
        SearchIff(nodes, term, fold, it);
      }
    }

    /** `updateFilter`: the grid's definitions are rewritten in place so that a column
        is hidden exactly when its field is not a checked column id; the search clears. */
    method Apply(defs: array<ColDef>)
      requires Valid()
      modifies this, defs
      ensures Valid()
      ensures defs[..] == HideUnchecked(old(defs[..]), CheckedKeys(nodes))
      ensures search == "" && nodes == old(nodes) && filtered == old(filtered) && all == old(all)
    {
      HideUncheckedInPlace(defs, CheckedKeys(nodes));
      search := "";
    }

    /** `resetFilter`: every definition shown, every item checked, the whole list
        visible; the search text stays. */
    method Reset(defs: array<ColDef>)
      requires Valid()
      modifies this, defs
      ensures Valid()
      ensures forall j :: 0 <= j < defs.Length ==> defs[j] == old(defs[j]).(hide := false)
      ensures nodes == SetAll(old(nodes), true) && all && filtered == nodes && search == old(search)
    {
      ShowAllInPlace(defs);
      var items := SetAll(nodes, true);
      SetAllAgrees(nodes, true);
      all := true;
      nodes := items;
      filtered := items;
    }
  }

  /** Showing every column and then applying with everything checked shows exactly the
      columns whose field is some column's id. */
  lemma ApplyAfterReset(defs: seq<ColDef>, items: seq<Item>, i: int)
    requires 0 <= i < |defs|
    ensures var r := HideUnchecked(defs, CheckedKeys(SetAll(items, true)));
      !r[i].hide <==> defs[i].field in Keys(items)
  {
    CheckedKeysOfSetAll(items);
  }
}
