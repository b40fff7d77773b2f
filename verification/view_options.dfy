/** The column menu of frontend/src/components/data-table/data-table-view-options.tsx: which
    columns it lists and in what order, what selecting one does to the visibility state,
    and what a drag reorder stores as the column order. */
module ViewOptions {

  /** A table column: its id, whether it has an accessor and whether it can be hidden. */
  datatype Column = Column(id: string, hasAccessor: bool, canHide: bool)

  /** `Array.prototype.indexOf`: the first position of `id`, or -1. */
  function IndexOf(order: seq<string>, id: string): (r: int)
    ensures -1 <= r < |order|
    ensures r == -1 <==> id !in order
    ensures r >= 0 ==> order[r] == id && id !in order[..r]
  {
    if |order| == 0 then -1
    else if order[0] == id then 0
    else
      var r := IndexOf(order[1..], id);
      assert order == [order[0]] + order[1..];
      if r == -1 then -1
      else
        assert order[..r + 1] == [order[0]] + order[1..][..r];
        r + 1
  }

  /** The sort key the comparator subtracts. */
  function Key(order: seq<string>, c: Column): int {
    IndexOf(order, c.id)
  }

  /** The columns with an accessor, in table order. */
  function Listed(cols: seq<Column>): seq<Column> {
    if |cols| == 0 then []
    else (if cols[0].hasAccessor then [cols[0]] else []) + Listed(cols[1..])
  }

  /** Places `x` after every element of `s` whose key is not greater than its own, the
      way a stable sort treats a later element. */
  function Insert(s: seq<Column>, x: Column, order: seq<string>): seq<Column> {
    if |s| == 0 then [x]
    else if Key(order, s[|s| - 1]) <= Key(order, x) then s + [x]
    else Insert(s[..|s| - 1], x, order) + [s[|s| - 1]]
  }

  /** Stable sort by key (`Array.prototype.sort` is stable), as insertion in input order. */
  function SortByOrder(cols: seq<Column>, order: seq<string>): seq<Column> {
    if |cols| == 0 then [] else Insert(SortByOrder(cols[..|cols| - 1], order), cols[|cols| - 1], order)
  }

  /** The `columns` memo. */
  function MenuColumns(all: seq<Column>, order: seq<string>): seq<Column> {
    SortByOrder(Listed(all), order)
  }

  predicate SortedBy(s: seq<Column>, order: seq<string>) {
    forall i, j :: 0 <= i < j < |s| ==> Key(order, s[i]) <= Key(order, s[j])
  }

  /** The elements of `s` with key `k`, in order. */
  function WithKey(s: seq<Column>, k: int, order: seq<string>): seq<Column> {
    if |s| == 0 then []
    else WithKey(s[..|s| - 1], k, order) + (if Key(order, s[|s| - 1]) == k then [s[|s| - 1]] else [])
  }

  /* ---------------- listing ---------------- */

  /** Exactly the columns with an accessor are listed, each as often as in the table. */
  lemma {:induction false} ListedIsFilter(cols: seq<Column>)
    ensures forall c :: multiset(Listed(cols))[c] == if c.hasAccessor then multiset(cols)[c] else 0
  {
    if |cols| > 0 {
      ListedIsFilter(cols[1..]);
      assert cols == [cols[0]] + cols[1..];
      assert multiset(cols) == multiset([cols[0]]) + multiset(cols[1..]);
    }
  }

  /* ---------------- insertion ---------------- */

  lemma {:induction false} InsertPermutes(s: seq<Column>, x: Column, order: seq<string>)
    ensures multiset(Insert(s, x, order)) == multiset(s) + multiset{x}
  {
    if |s| > 0 && Key(order, s[|s| - 1]) > Key(order, x) {
      var init := s[..|s| - 1];
      InsertPermutes(init, x, order);
      assert s == init + [s[|s| - 1]];
    }
  }

  /** Every element of `s` has key at most `b`. */
  predicate KeysAtMost(s: seq<Column>, b: int, order: seq<string>) {
    forall i :: 0 <= i < |s| ==> Key(order, s[i]) <= b
  }

  lemma {:induction false} InsertKeysAtMost(s: seq<Column>, x: Column, b: int, order: seq<string>)
    requires KeysAtMost(s, b, order) && Key(order, x) <= b
    ensures KeysAtMost(Insert(s, x, order), b, order)
  {
    if |s| > 0 && Key(order, s[|s| - 1]) > Key(order, x) {
      var init := s[..|s| - 1];
      assert KeysAtMost(init, b, order) by {
        forall i | 0 <= i < |init| ensures Key(order, init[i]) <= b { assert init[i] == s[i]; }
      }
      InsertKeysAtMost(init, x, b, order);
    }
  }

  lemma SortedAppend(r: seq<Column>, last: Column, order: seq<string>)
    requires SortedBy(r, order) && KeysAtMost(r, Key(order, last), order)
    ensures SortedBy(r + [last], order)
  {
    var t := r + [last];
    forall i, j | 0 <= i < j < |t| ensures Key(order, t[i]) <= Key(order, t[j]) {
      assert t[i] == r[i];
      if j < |r| { assert t[j] == r[j]; }
    }
  }

  lemma {:induction false} InsertSorted(s: seq<Column>, x: Column, order: seq<string>)
    requires SortedBy(s, order)
    ensures SortedBy(Insert(s, x, order), order)
  {
    if |s| == 0 {
    } else if Key(order, s[|s| - 1]) <= Key(order, x) {
      SortedAppend(s, x, order);
    } else {
      var init := s[..|s| - 1];
      var last := s[|s| - 1];
      assert SortedBy(init, order);
      assert KeysAtMost(init, Key(order, last), order);
      InsertSorted(init, x, order);
      InsertKeysAtMost(init, x, Key(order, last), order);
      SortedAppend(Insert(init, x, order), last, order);
    }
  }

  lemma WithKeyAppendOne(s: seq<Column>, x: Column, k: int, order: seq<string>)
    ensures WithKey(s + [x], k, order) == WithKey(s, k, order) + (if Key(order, x) == k then [x] else [])
  {
    assert (s + [x])[..|s|] == s;
  }

  lemma {:induction false} InsertStable(s: seq<Column>, x: Column, k: int, order: seq<string>)
    ensures WithKey(Insert(s, x, order), k, order) == WithKey(s, k, order) + (if Key(order, x) == k then [x] else [])
  {
    if |s| == 0 {
      WithKeyAppendOne([], x, k, order);
      assert [] + [x] == [x];
    } else if Key(order, s[|s| - 1]) <= Key(order, x) {
      WithKeyAppendOne(s, x, k, order);
    } else {
      var init := s[..|s| - 1];
      var last := s[|s| - 1];
      InsertStable(init, x, k, order);
      WithKeyAppendOne(Insert(init, x, order), last, k, order);
      var w := WithKey(init, k, order);
      assert WithKey(s, k, order) == w + (if Key(order, last) == k then [last] else []);
      // `last` sorts after `x`, so at most one of the two has key `k`.
      if Key(order, last) == k {
        assert WithKey(Insert(s[..|s| - 1], x, order), k, order) == w;
      } else {
        assert WithKey(s, k, order) == w;
      }
    }
  }

  /* ---------------- the sort ---------------- */

  /** The menu order is a permutation of its input. */
  lemma {:induction false} SortPermutes(cols: seq<Column>, order: seq<string>)
    ensures multiset(SortByOrder(cols, order)) == multiset(cols)
  {
    if |cols| > 0 {
      var init := cols[..|cols| - 1];
      SortPermutes(init, order);
      InsertPermutes(SortByOrder(init, order), cols[|cols| - 1], order);
      assert cols == init + [cols[|cols| - 1]];
    }
  }

  /** The menu is ordered ascending by position in `columnOrder`. */
  lemma {:induction false} SortIsSorted(cols: seq<Column>, order: seq<string>)
    ensures SortedBy(SortByOrder(cols, order), order)
  {
    if |cols| > 0 {
      SortIsSorted(cols[..|cols| - 1], order);
      InsertSorted(SortByOrder(cols[..|cols| - 1], order), cols[|cols| - 1], order);
    }
  }

  /** The sort is stable: columns with the same key keep their table order. */
  lemma {:induction false} SortIsStable(cols: seq<Column>, k: int, order: seq<string>)
    ensures WithKey(SortByOrder(cols, order), k, order) == WithKey(cols, k, order)
  {
    if |cols| > 0 {
      var init := cols[..|cols| - 1];
      SortIsStable(init, k, order);
      InsertStable(SortByOrder(init, order), cols[|cols| - 1], k, order);
    }
  }

  /** The menu lists exactly the accessor columns, in the column order, with the columns
      missing from `columnOrder` (index -1) before all the others. */
  lemma MenuColumnsMeaning(all: seq<Column>, order: seq<string>)
    ensures var m := MenuColumns(all, order);
      && (forall c :: multiset(m)[c] == if c.hasAccessor then multiset(all)[c] else 0)
      && SortedBy(m, order)
      && (forall i, j :: 0 <= i < j < |m| && m[j].id !in order ==> m[i].id !in order)
  {
    ListedIsFilter(all);
    SortPermutes(Listed(all), order);
    SortIsSorted(Listed(all), order);
  }

  /* ---------------- visibility and reordering ---------------- */

  /** Column visibility state; a column missing from the map is visible. */
  type Visibility = map<string, bool>

  predicate IsVisible(vis: Visibility, id: string) {
    id !in vis || vis[id]
  }

  /** `onSelect`: a hideable column's visibility is toggled, nothing else changes. */
  function OnSelect(c: Column, vis: Visibility): Visibility {
    if c.canHide then vis[c.id := !IsVisible(vis, c.id)] else vis
  }

  /** Selecting a hideable column flips its visibility and leaves every other column's;
      a column that cannot be hidden changes nothing. */
  lemma OnSelectFlips(c: Column, vis: Visibility, other: string)
    requires other != c.id
    ensures IsVisible(OnSelect(c, vis), c.id) == (if c.canHide then !IsVisible(vis, c.id) else IsVisible(vis, c.id))
    ensures IsVisible(OnSelect(c, vis), other) == IsVisible(vis, other)
    ensures !c.canHide ==> OnSelect(c, vis) == vis
  {
  }

  /** `items.map((c) => c.id)`, the column order a drag stores. */
  function IdsOf(items: seq<Column>): (ids: seq<string>)
    ensures |ids| == |items| && forall i :: 0 <= i < |items| ==> ids[i] == items[i].id
  {
    if |items| == 0 then [] else [items[0].id] + IdsOf(items[1..])
  }

  /** After a reorder, each dragged column's key is its new position, so the menu lists the
      columns in the dragged order. */
  lemma ReorderPositions(items: seq<Column>, i: int)
    requires 0 <= i < |items|
    requires forall a, b :: 0 <= a < b < |items| ==> items[a].id != items[b].id
    ensures Key(IdsOf(items), items[i]) == i
  {
  }
}
