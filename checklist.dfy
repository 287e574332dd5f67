/** The checkbox lists behind the set filter and the two column-visibility filters:
    items with a key (the value or column id the search looks at), a name (the text
    the checkbox reports when clicked) and a checked flag. The widgets rebuild these
    lists with `map`, `filter` and `every`; the functions here are those transforms. */
module Checklist {
  import opened Text
  import opened FilterModel

  datatype Item = Item(key: string, name: string, checked: bool)

  /** `items.every(item => item.checked)`. */
  predicate AllChecked(items: seq<Item>)
  {
    forall i :: 0 <= i < |items| ==> items[i].checked
  }

  /** The keys of the list, in order. */
  function Keys(items: seq<Item>): (r: seq<string>)
    ensures |r| == |items|
    ensures forall i :: 0 <= i < |items| ==> r[i] == items[i].key
  {
    if items == [] then [] else [items[0].key] + Keys(items[1..])
  }

  /** Clicking the checkbox labelled `name`: every item with that name flips. */
  function Toggle(items: seq<Item>, name: string): (r: seq<Item>)
    ensures |r| == |items|
    ensures forall i :: 0 <= i < |items| && items[i].name != name ==> r[i] == items[i]
    ensures forall i :: 0 <= i < |items| && items[i].name == name ==>
      r[i] == items[i].(checked := !items[i].checked)
  {
    if items == [] then []
    else
      var head := if items[0].name == name then items[0].(checked := !items[0].checked) else items[0];
      [head] + Toggle(items[1..], name)
  }

  /** Clicking the same checkbox twice restores the list. */
  lemma ToggleTwice(items: seq<Item>, name: string)
    ensures Toggle(Toggle(items, name), name) == items
  {
    var r := Toggle(Toggle(items, name), name);
    assert forall i :: 0 <= i < |items| ==> r[i] == items[i];
  }

  /** Toggling keeps the keys and labels, so the checked set changes only at `name`. */
  lemma ToggleKeepsKeys(items: seq<Item>, name: string)
    ensures Keys(Toggle(items, name)) == Keys(items)
  {
    var a := Keys(Toggle(items, name));
    var b := Keys(items);
    assert |a| == |b|;
    assert forall i :: 0 <= i < |a| ==> a[i] == b[i];
  }

  /** The "(All)" checkbox: every item takes the box's state. */
  function SetAll(items: seq<Item>, on: bool): (r: seq<Item>)
    ensures |r| == |items|
    ensures forall i :: 0 <= i < |items| ==> r[i] == items[i].(checked := on)
  {
    if items == [] then [] else [items[0].(checked := on)] + SetAll(items[1..], on)
  }

  /** After "(All)" the flag the box shows agrees with the list whenever it is non-empty. */
  lemma SetAllAgrees(items: seq<Item>, on: bool)
    ensures AllChecked(SetAll(items, on)) <==> on || items == []
    ensures Keys(SetAll(items, on)) == Keys(items)
  {
    var r := SetAll(items, on);
    if !on && items != [] {
      assert !r[0].checked;
    }
    var a := Keys(r);
    var b := Keys(items);
    assert forall i :: 0 <= i < |a| ==> a[i] == b[i];
  }

  /** The keys of the checked items, in list order. */
  function CheckedKeys(items: seq<Item>): (r: seq<string>)
    ensures |r| <= |items|
  {
    if items == [] then []
    else if items[0].checked then [items[0].key] + CheckedKeys(items[1..])
    else CheckedKeys(items[1..])
  }

  /** A key is submitted exactly when some checked item carries it. */
  lemma {:induction false} CheckedKeysIff(items: seq<Item>, k: string)
    ensures k in CheckedKeys(items) <==> exists i :: 0 <= i < |items| && items[i].checked && items[i].key == k
  {
    if items != [] {
      var tail := items[1..];
      CheckedKeysIff(tail, k);
      if exists i :: 0 <= i < |tail| && tail[i].checked && tail[i].key == k {
        var i :| 0 <= i < |tail| && tail[i].checked && tail[i].key == k;
        assert items[i + 1] == tail[i];
      }
      if exists i :: 0 <= i < |items| && items[i].checked && items[i].key == k {
        var i :| 0 <= i < |items| && items[i].checked && items[i].key == k;
        if i > 0 {
          assert tail[i - 1] == items[i];
        }
      }
    }
  }

  /** Checking everything submits every key; unchecking everything submits none. */
  lemma {:induction false} CheckedKeysOfSetAll(items: seq<Item>)
    ensures CheckedKeys(SetAll(items, true)) == Keys(items)
    ensures CheckedKeys(SetAll(items, false)) == []
  {
    if items != [] {
      CheckedKeysOfSetAll(items[1..]);
      assert SetAll(items, true)[1..] == SetAll(items[1..], true);
      assert SetAll(items, false)[1..] == SetAll(items[1..], false);
    }
  }

  /** The items whose key matches the search term (substring of the case-folded key). */
  function Search(items: seq<Item>, term: string, fold: CaseMap): (r: seq<Item>)
    ensures |r| <= |items|
  {
    if items == [] then []
    else if MatchesSearch(items[0].key, term, fold) then [items[0]] + Search(items[1..], term, fold)
    else Search(items[1..], term, fold)
  }

  /** An item is shown exactly when it is in the list and its folded key contains
      the folded term. */
  lemma {:induction false} SearchIff(items: seq<Item>, term: string, fold: CaseMap, it: Item)
    ensures it in Search(items, term, fold) <==>
      it in items && exists k: nat :: OccursAt(fold(it.key), fold(term), k)
  {
    if items != [] {
      SearchIff(items[1..], term, fold, it);
      assert it in items <==> it == items[0] || it in items[1..];
    }
  }

  /** The search keeps list order: searching a concatenation searches each part. */
  lemma {:induction false} SearchAppend(a: seq<Item>, b: seq<Item>, term: string, fold: CaseMap)
    ensures Search(a + b, term, fold) == Search(a, term, fold) + Search(b, term, fold)
  {
    if a != [] {
      assert (a + b)[1..] == a[1..] + b;
      SearchAppend(a[1..], b, term, fold);
    } else {
      assert a + b == b;
    }
  }

  /** The empty term folds to the empty string, matches every key, and so shows the
      whole list. */
  lemma {:induction false} SearchEmpty(items: seq<Item>, fold: CaseMap)
    requires fold("") == ""
    ensures Search(items, "", fold) == items
  {
    if items != [] {
      SearchEmpty(items[1..], fold);
    }
  }

  /** Keeping the first occurrence of each element, in order (what `new Set` followed
      by `Array.from` yields for strings). */
  function Dedup(s: seq<string>): (r: seq<string>)
    ensures |r| <= |s|
  {
    if s == [] then []
    else
      var d := Dedup(s[..|s| - 1]);
      if s[|s| - 1] in d then d else d + [s[|s| - 1]]
  }

  predicate Distinct(s: seq<string>)
  {
    forall i, j :: 0 <= i < j < |s| ==> s[i] != s[j]
  }

  /** Deduplication drops repeats and nothing else. */
  lemma {:induction false} DedupIff(s: seq<string>, x: string)
    ensures x in Dedup(s) <==> x in s
  {
    if s != [] {
      var init := s[..|s| - 1];
      DedupIff(init, x);
      assert s == init + [s[|s| - 1]];
    }
  }

  lemma {:induction false} DedupDistinct(s: seq<string>)
    ensures Distinct(Dedup(s))
  {
    if s != [] {
      DedupDistinct(s[..|s| - 1]);
    }
  }

  /** One more element: it is appended exactly when it is new. */
  lemma DedupSnoc(s: seq<string>, x: string)
    ensures Dedup(s + [x]) == if x in Dedup(s) then Dedup(s) else Dedup(s) + [x]
  {
    assert (s + [x])[..|s|] == s;
  }

  /** The distinct values of the displayed rows in first-seen order, collected the way
      the rescan fills its `Set` while walking the rows. */
  method DistinctDisplayed(rows: seq<Row<string>>) returns (vs: seq<string>)
    ensures vs == Dedup(DisplayedValues(rows))
  {
    vs := [];
    var i := 0;
    while i < |rows|
      invariant 0 <= i <= |rows|
      invariant vs == Dedup(DisplayedValues(rows[..i]))
    {
      assert rows[..i + 1][..i] == rows[..i];
      if rows[i].displayed {
        DedupSnoc(DisplayedValues(rows[..i]), rows[i].value);
        if rows[i].value !in vs {
          vs := vs + [rows[i].value];
        }
      }
      i := i + 1;
    }
    assert rows[..i] == rows;
  }

  /** A total order on strings, standing for the host's `localeCompare`. */
  ghost predicate Total(leq: (string, string) -> bool)
  {
    forall a, b :: leq(a, b) || leq(b, a)
  }

  predicate Sorted(leq: (string, string) -> bool, s: seq<string>)
  {
    forall i :: 0 < i < |s| ==> leq(s[i - 1], s[i])
  }

  function Insert(leq: (string, string) -> bool, x: string, s: seq<string>): (r: seq<string>)
    ensures |r| == |s| + 1
    ensures r[0] == x || (s != [] && r[0] == s[0])
  {
    if s == [] || leq(x, s[0]) then [x] + s else [s[0]] + Insert(leq, x, s[1..])
  }

  /** `Array#sort` with the comparator, as an insertion sort. */
  function Sort(leq: (string, string) -> bool, s: seq<string>): (r: seq<string>)
    ensures |r| == |s|
  {
    if s == [] then [] else Insert(leq, s[0], Sort(leq, s[1..]))
  }

  lemma {:induction false} InsertSorted(leq: (string, string) -> bool, x: string, s: seq<string>)
    requires Total(leq) && Sorted(leq, s)
    ensures Sorted(leq, Insert(leq, x, s))
  {
    if s != [] && !leq(x, s[0]) {
      InsertSorted(leq, x, s[1..]);
      assert leq(s[0], x);
    }
  }

  lemma {:induction false} InsertPermutes(leq: (string, string) -> bool, x: string, s: seq<string>)
    ensures multiset(Insert(leq, x, s)) == multiset(s) + multiset{x}
  {
    if s != [] && !leq(x, s[0]) {
      InsertPermutes(leq, x, s[1..]);
      assert s == [s[0]] + s[1..];
    }
  }

  /** Sorting orders the values and is a permutation of them. */
  lemma {:induction false} SortSpec(leq: (string, string) -> bool, s: seq<string>)
    requires Total(leq)
    ensures Sorted(leq, Sort(leq, s))
    ensures multiset(Sort(leq, s)) == multiset(s)
  {
    if s != [] {
      SortSpec(leq, s[1..]);
      InsertSorted(leq, s[0], Sort(leq, s[1..]));
      InsertPermutes(leq, s[0], Sort(leq, s[1..]));
      assert s == [s[0]] + s[1..];
    }
  }

  /** Fresh checklist entries for values: each its own key and name, all checked. */
  function Checked(values: seq<string>): (r: seq<Item>)
    ensures |r| == |values|
    ensures forall i :: 0 <= i < |values| ==> r[i] == Item(values[i], values[i], true)
  {
    if values == [] then [] else [Item(values[0], values[0], true)] + Checked(values[1..])
  }

  /** Fresh entries are all checked and submit their values unchanged. */
  lemma {:induction false} CheckedSubmitsValues(values: seq<string>)
    ensures AllChecked(Checked(values))
    ensures CheckedKeys(Checked(values)) == values
    ensures Keys(Checked(values)) == values
  {
    if values != [] {
      CheckedSubmitsValues(values[1..]);
      assert Checked(values)[1..] == Checked(values[1..]);
    }
  }

  /** A grid column as `getAllGridColumns` reports it. */
  datatype GridColumn = GridColumn(colId: string, header: string, visible: bool)

  /** The part of a column definition the visibility filters read and write. */
  datatype ColDef = ColDef(field: string, colId: string, hide: bool)

  /** The checklist of columns: keyed by column id, named by header, checked when visible. */
  function ColumnItems(cols: seq<GridColumn>): (r: seq<Item>)
    ensures |r| == |cols|
    ensures forall i :: 0 <= i < |cols| ==> r[i] == Item(cols[i].colId, cols[i].header, cols[i].visible)
  {
    if cols == [] then [] else [Item(cols[0].colId, cols[0].header, cols[0].visible)] + ColumnItems(cols[1..])
  }

  /** Apply: a definition is hidden exactly when its field is not a checked column id. */
  function HideUnchecked(defs: seq<ColDef>, visible: seq<string>): (r: seq<ColDef>)
    ensures |r| == |defs|
    ensures forall i :: 0 <= i < |defs| ==> r[i] == defs[i].(hide := defs[i].field !in visible)
  {
    if defs == [] then [] else [defs[0].(hide := defs[0].field !in visible)] + HideUnchecked(defs[1..], visible)
  }

  /** After Apply, a column is shown exactly when some checked item names its field;
      the definitions are otherwise untouched. */
  lemma HideUncheckedIff(defs: seq<ColDef>, items: seq<Item>, i: int)
    requires 0 <= i < |defs|
    ensures var r := HideUnchecked(defs, CheckedKeys(items));
      && (!r[i].hide <==> exists j :: 0 <= j < |items| && items[j].checked && items[j].key == defs[i].field)
      && r[i].field == defs[i].field && r[i].colId == defs[i].colId
  {
    CheckedKeysIff(items, defs[i].field);
  }
}
