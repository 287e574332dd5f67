/** The set filter of the tool panel (`TextFilter`): a checklist of the distinct values
    of the displayed rows, a search box narrowing the visible part of the list, and the
    Apply / Reset buttons that hand a set model (or none) to the grid and raise the
    panel's refresh signal so the other set filters rescan. */
module TextFilterPanel {
  import opened Text
  import opened FilterModel
  import opened Checklist

  /** The list a rescan builds: the distinct displayed values, sorted, all checked. */
  function Fresh(rows: seq<Row<string>>, leq: (string, string) -> bool): (r: seq<Item>)
    ensures |r| <= |rows|
  {
    Checked(Sort(leq, Dedup(DisplayedValues(rows))))
  }

  /** The rescan effect's body: collect, sort, check everything. */
  method Rescan(rows: seq<Row<string>>, leq: (string, string) -> bool) returns (items: seq<Item>)
    ensures items == Fresh(rows, leq)
  {
    var values := DistinctDisplayed(rows);
    items := Checked(Sort(leq, values));
  }

  /** A distinct list stays distinct under any permutation. */
  lemma {:induction false} DistinctCount(s: seq<string>, x: string)
    requires Distinct(s)
    ensures multiset(s)[x] <= 1
  {
    if s != [] {
      assert s == [s[0]] + s[1..];
      DistinctCount(s[1..], x);
      if x == s[0] {
        assert x !in s[1..];
      }
    }
  }

  lemma PermutationDistinct(s: seq<string>, t: seq<string>)
    requires Distinct(s) && multiset(t) == multiset(s)
    ensures Distinct(t)
  {
    forall i, j | 0 <= i < j < |t|
      ensures t[i] != t[j]
    {
      if t[i] == t[j] {
        var x := t[i];
        assert t == t[..i] + [x] + t[i + 1..j] + [x] + t[j + 1..];
        assert multiset(t)[x] >= 2;
        DistinctCount(s, x);
      }
    }
  }

  /** A rescan lists every displayed value exactly once, in the comparator's order,
      and nothing else. */
  lemma FreshSpec(rows: seq<Row<string>>, leq: (string, string) -> bool, v: string)
    requires Total(leq)
    ensures AllChecked(Fresh(rows, leq))
    ensures Sorted(leq, Keys(Fresh(rows, leq)))
    ensures Distinct(Keys(Fresh(rows, leq)))
    ensures v in Keys(Fresh(rows, leq)) <==> exists i :: 0 <= i < |rows| && rows[i].displayed && rows[i].value == v
  {
    var d := Dedup(DisplayedValues(rows));
    var sorted := Sort(leq, d);
    CheckedSubmitsValues(sorted);
    SortSpec(leq, d);
    DedupDistinct(DisplayedValues(rows));
    PermutationDistinct(d, sorted);
    assert v in sorted <==> v in multiset(sorted);
    assert v in d <==> v in multiset(d);
    DedupIff(DisplayedValues(rows), v);
    DisplayedValuesIff(rows, v);
  }

  /** Applying straight after a rescan submits every displayed value. */
  lemma FreshSubmitsAll(rows: seq<Row<string>>, leq: (string, string) -> bool)
    ensures CheckedKeys(Fresh(rows, leq)) == Sort(leq, Dedup(DisplayedValues(rows)))
  {
    CheckedSubmitsValues(Sort(leq, Dedup(DisplayedValues(rows))));
  }

  /** `handleCheck`'s walk over the list, flipping the matching items in place. */
  method ToggleMatching(items: seq<Item>, name: string) returns (updated: seq<Item>)
    ensures updated == Toggle(items, name)
  {
    ghost var spec := Toggle(items, name);
    updated := [];
    var i := 0;
    while i < |items|
      invariant 0 <= i <= |items|
      invariant updated == spec[..i]
    {
      var item := items[i];
      if item.name == name {
        item := item.(checked := !item.checked);
      }
      assert spec[..i + 1] == spec[..i] + [item];
      updated := updated + [item];
      i := i + 1;
    }
    assert spec[..i] == spec;
  }

  class TextFilter {
    /** The column (`filter`) whose values are listed. */
    const column: string
    /** The comparator the list is sorted with (`localeCompare(a, b) <= 0`). */
    const leq: (string, string) -> bool
    /** The host's `toLowerCase`, which the search applies to both sides. */
    const fold: CaseMap
    /** The panel's refresh signal as this filter last saw it (the effect's
        dependency). */
    var signal: Refresh
    var search: string
    var nodes: seq<Item>
    var filtered: seq<Item>
    var all: bool

    /** The visible list is drawn from the full list, and the "(All)" box agrees with a
        non-empty list. */
    predicate Valid()
      reads this
    {
      && (forall it :: it in filtered ==> it in nodes)
      && (nodes != [] ==> all == AllChecked(nodes))
    }

    /** Mounting runs the rescan effect once with the panel's current signal. */
    constructor (column: string, leq: (string, string) -> bool, fold: CaseMap, rows: seq<Row<string>>, refresh: Refresh)
      ensures Valid()
      ensures this.column == column && this.leq == leq && this.fold == fold && search == ""
      ensures signal == refresh
      ensures ShouldRescan(refresh, column) ==> nodes == Fresh(rows, leq) && filtered == nodes && all
      ensures !ShouldRescan(refresh, column) ==> nodes == [] && filtered == [] && all
    {
      var items: seq<Item> := [];
      if ShouldRescan(refresh, column) {
        items := Rescan(rows, leq);
        CheckedSubmitsValues(Sort(leq, Dedup(DisplayedValues(rows))));
      }
      this.column := column;
      this.leq := leq;
      this.fold := fold;
      signal := refresh;
      search := "";
      nodes := items;
      filtered := items;
      all := true;
    }

    /** The panel sets its signal to `refresh`: React re-runs the rescan effect only
        when the new signal differs from the last one, and the effect then skips
        when the signal names this column; otherwise the list is rebuilt and the
        search text kept. */
    method Refreshed(refresh: Refresh, rows: seq<Row<string>>)
      requires Valid()
      modifies this
      ensures Valid()
      ensures signal == refresh && search == old(search)
      ensures !Rescans(old(signal), refresh, column) ==>
        nodes == old(nodes) && filtered == old(filtered) && all == old(all)
      ensures Rescans(old(signal), refresh, column) ==>
        nodes == Fresh(rows, leq) && filtered == nodes && all
    {
      var runs := Rescans(signal, refresh, column);
      signal := refresh;
      if runs {
        var items := Rescan(rows, leq);
        CheckedSubmitsValues(Sort(leq, Dedup(DisplayedValues(rows))));
        nodes := items;
        filtered := items;
        all := true;
      }
    }

    /** `handleCheck`: flips the items whose value is the clicked one, recomputes
        "(All)", and re-applies an active search to the updated list. */
    method Check(value: string)
      requires Valid()
      modifies this
      ensures Valid()
      ensures nodes == Toggle(old(nodes), value)
      ensures all == AllChecked(nodes)
      ensures filtered == if search != "" then Search(nodes, search, fold) else nodes
      ensures search == old(search)
    {
      var updated := ToggleMatching(nodes, value);
      nodes := updated;
      all := AllChecked(updated);
      if search != "" {
        filtered := Search(updated, search, fold);
        forall it | it in filtered
          ensures it in nodes
        {
          SearchIff(updated, search, fold, it);
        }
      } else {
        filtered := updated;
      }
    }

    /** `handleCheckAll`: every item takes the box's state, whatever the search shows,
        and the whole list becomes visible. */
    method CheckAll(on: bool)
      requires Valid()
      modifies this
      ensures Valid()
      ensures nodes == SetAll(old(nodes), on) && all == on && filtered == nodes
      ensures search == old(search)
    {
      var updated := SetAll(nodes, on);
      SetAllAgrees(nodes, on);
      all := on;
      filtered := updated;
      nodes := updated;
    }

    /** `filterNodes` from the search box: the term is stored and the visible list is
        the full list narrowed to the matching values (the empty term matches all). */
    method FilterNodes(term: string)
      requires Valid()
      modifies this
      ensures Valid()
      ensures search == term && filtered == Search(nodes, term, fold)
      ensures nodes == old(nodes) && all == old(all)
    {
      search := term;
      filtered := Search(nodes, term, fold);
      forall it | it in filtered
        ensures it in nodes
      {
        SearchIff(nodes, term, fold, it);
      }
    }

    /** `updateFilter`: the set model of the checked values in list order, the new
        signal naming this column, and a cleared search box. The panel's signal is
        only set by the caller, so the one this filter last saw is unchanged until
        `Refreshed`. */
    method Apply() returns (m: Model, next: Refresh)
      requires Valid()
      modifies this
      ensures Valid()
      ensures m == SetValues(CheckedKeys(nodes)) && next == Tagged(column)
      ensures search == "" && nodes == old(nodes) && filtered == old(filtered) && all == old(all)
      ensures signal == old(signal)
    {
      m := SetValues(CheckedKeys(nodes));
      next := Tagged(column);
      search := "";
    }

    /** `resetFilter`: no model, a new signal naming no column, and a cleared search
        box; the signal this filter last saw is unchanged until `Refreshed`. */
    method Reset() returns (m: Model, next: Refresh)
      requires Valid()
      modifies this
      ensures Valid()
      ensures m == NoFilter && next == Tagged("")
      ensures search == "" && nodes == old(nodes) && filtered == old(filtered) && all == old(all)
      ensures signal == old(signal)
    {
      m := NoFilter;
      next := Tagged("");
      search := "";
    }
  }

  /** After a search, checking an item keeps the same search applied to the new list,
      and the search shows the same items as before apart from their checks. */
  lemma CheckKeepsSearch(items: seq<Item>, value: string, term: string, fold: CaseMap)
    ensures Keys(Search(Toggle(items, value), term, fold)) == Keys(Search(items, term, fold))
  {
    var t := Toggle(items, value);
    if items != [] {
      assert t[1..] == Toggle(items[1..], value);
      CheckKeepsSearch(items[1..], value, term, fold);
      var head := if MatchesSearch(t[0].key, term, fold) then [t[0]] else [];
      var head' := if MatchesSearch(items[0].key, term, fold) then [items[0]] else [];
      assert Search(t, term, fold) == head + Search(t[1..], term, fold);
      assert Search(items, term, fold) == head' + Search(items[1..], term, fold);
      KeysAppend(head, Search(t[1..], term, fold));
      KeysAppend(head', Search(items[1..], term, fold));
    }
  }

  lemma KeysAppend(a: seq<Item>, b: seq<Item>)
    ensures Keys(a + b) == Keys(a) + Keys(b)
  {
    var l := Keys(a + b);
    var r := Keys(a) + Keys(b);
    assert forall i :: 0 <= i < |l| ==> l[i] == r[i];
  }
}
