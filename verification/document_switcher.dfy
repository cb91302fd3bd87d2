/**
 * DocumentList, the grid of the document switcher (Ctrl+Tab): categories of
 * items (open documents, pads), each category shown in up to two columns of
 * twenty items starting at its first visible item, and one active item that
 * the arrow keys move.
 *
 * The navigation is specified on values (a Switcher: the categories as seen at
 * one moment plus the active item) and the class methods are proved to change
 * the objects exactly as those functions say.
 */
module DocumentSwitching {
  import opened Wrappers

  /** Items per column. */
  const MaxItems: int := 20
  /** Columns per category. */
  const MaxRows: int := 2
  /** The initial and smallest label width, in characters. */
  const MinLabel: int := 15
  /** The largest label width. */
  const MaxLabel: int := 30

  class Item {
    const title: string
    const listTitle: Option<string>

    constructor (title: string, listTitle: Option<string>)
      ensures this.title == title && this.listTitle == listTitle
    {
      this.title := title;
      this.listTitle := listTitle;
    }
  }

  class Category {
    const title: string
    var items: seq<Item>
    var firstVisibleItem: int

    constructor (title: string)
      ensures this.title == title && items == [] && firstVisibleItem == 0
    {
      this.title := title;
      items := [];
      firstVisibleItem := 0;
    }

    method AddItem(item: Item)
      modifies this`items
      ensures items == old(items) + [item]
    {
      items := items + [item];
    }
  }

  /** One category as seen at one moment: the object, its items and its first visible item. */
  datatype CategoryView = CategoryView(ref: Category, items: seq<Item>, first: int)

  /** The navigation state: the categories in display order and the active item (possibly null). */
  datatype Switcher = Switcher(cats: seq<CategoryView>, active: Item?)

  /** The views of the given categories, in the current heap. */
  function Views(cats: seq<Category>): (r: seq<CategoryView>)
    reads cats
    ensures |r| == |cats|
  {
    seq(|cats|, k reads cats requires 0 <= k < |cats| => CategoryView(cats[k], cats[k].items, cats[k].firstVisibleItem))
  }

  /** The view of one category. */
  lemma ViewAt(cats: seq<Category>, k: nat)
    requires k < |cats|
    ensures Views(cats)[k] == CategoryView(cats[k], cats[k].items, cats[k].firstVisibleItem)
  {
  }

  // ---------------------------------------------------------------------
  // List primitives

  /** List<Item>.IndexOf with reference equality: the first position of x, or -1. */
  function IndexOf(items: seq<Item>, x: Item?): (r: int)
    ensures -1 <= r < |items|
    ensures r >= 0 ==> items[r] == x && forall k :: 0 <= k < r ==> items[k] != x
    ensures r < 0 <==> forall k :: 0 <= k < |items| ==> items[k] != x
  {
    if items == [] then -1
    else if items[0] == x then 0
    else
      var r := IndexOf(items[1..], x);
      if r < 0 then -1 else r + 1
  }

  /** Integer division as C# does it, truncating toward zero. */
  function TruncDiv(a: int, b: int): (q: int)
    requires b > 0
    ensures a >= 0 ==> q == a / b
    ensures -b < a < b ==> q == 0
  {
    if a >= 0 then a / b else -((-a) / b)
  }

  function Min(a: int, b: int): int
  {
    if a <= b then a else b
  }

  function Max(a: int, b: int): int
  {
    if a >= b then a else b
  }

  // ---------------------------------------------------------------------
  // Finding the category of the active item, and the next non-empty one

  /** The first category whose items contain x, or |cats| when none does. */
  function Holder(cats: seq<CategoryView>, x: Item?): (k: nat)
    ensures k <= |cats|
    ensures forall m :: 0 <= m < k ==> IndexOf(cats[m].items, x) < 0
    ensures k < |cats| ==> IndexOf(cats[k].items, x) >= 0
  {
    HolderFrom(cats, x, 0)
  }

  function HolderFrom(cats: seq<CategoryView>, x: Item?, i: nat): (k: nat)
    requires i <= |cats|
    requires forall m :: 0 <= m < i ==> IndexOf(cats[m].items, x) < 0
    ensures i <= k <= |cats|
    ensures forall m :: 0 <= m < k ==> IndexOf(cats[m].items, x) < 0
    ensures k < |cats| ==> IndexOf(cats[k].items, x) >= 0
    decreases |cats| - i
  {
    if i == |cats| || IndexOf(cats[i].items, x) >= 0 then i else HolderFrom(cats, x, i + 1)
  }

  predicate SomeNonEmpty(cats: seq<CategoryView>)
  {
    exists k :: 0 <= k < |cats| && |cats[k].items| > 0
  }

  /** The category d places after i, cyclically, among n. */
  function Ahead(n: int, i: int, d: int): (r: int)
    requires 0 <= i < n && 0 <= d <= n
    ensures 0 <= r < n
  {
    if i + d < n then i + d else i + d - n
  }

  /** The category d places before i, cyclically, among n. */
  function Behind(n: int, i: int, d: int): (r: int)
    requires 0 <= i < n && 0 <= d <= n
    ensures 0 <= r < n
  {
    if i - d >= 0 then i - d else i - d + n
  }

  /** The first non-empty category after i is d places after it. */
  predicate NextCatAt(cats: seq<CategoryView>, i: int, d: int)
    requires 0 <= i < |cats|
  {
    1 <= d <= |cats| && |cats[Ahead(|cats|, i, d)].items| > 0 &&
    forall e :: 1 <= e < d ==> |cats[Ahead(|cats|, i, e)].items| == 0
  }

  /** The first non-empty category before i is d places before it. */
  predicate PrevCatAt(cats: seq<CategoryView>, i: int, d: int)
    requires 0 <= i < |cats|
  {
    1 <= d <= |cats| && |cats[Behind(|cats|, i, d)].items| > 0 &&
    forall e :: 1 <= e < d ==> |cats[Behind(|cats|, i, e)].items| == 0
  }

  /** Some category within 1..n places after i is not empty. */
  lemma AheadReaches(cats: seq<CategoryView>, i: nat)
    requires i < |cats| && SomeNonEmpty(cats)
    ensures exists e :: 1 <= e <= |cats| && |cats[Ahead(|cats|, i, e)].items| > 0
  {
    var n := |cats|;
    var k :| 0 <= k < n && |cats[k].items| > 0;
    var e := if k > i then k - i else k - i + n;
    assert Ahead(n, i, e) == k;
  }

  /** Some category within 1..n places before i is not empty. */
  lemma BehindReaches(cats: seq<CategoryView>, i: nat)
    requires i < |cats| && SomeNonEmpty(cats)
    ensures exists e :: 1 <= e <= |cats| && |cats[Behind(|cats|, i, e)].items| > 0
  {
    var n := |cats|;
    var k :| 0 <= k < n && |cats[k].items| > 0;
    var e := if k < i then i - k else i - k + n;
    assert Behind(n, i, e) == k;
  }

  /** GetNextCat, as a value: the index of the next non-empty category after i, cyclically. */
  function NextCat(cats: seq<CategoryView>, i: nat): (r: nat)
    requires i < |cats| && SomeNonEmpty(cats)
    ensures r < |cats| && |cats[r].items| > 0
    ensures exists d :: NextCatAt(cats, i, d) && r == Ahead(|cats|, i, d)
  {
    AheadReaches(cats, i);
    NextCatFrom(cats, i, 1)
  }

  function NextCatFrom(cats: seq<CategoryView>, i: nat, d: nat): (r: nat)
    requires i < |cats| && 1 <= d <= |cats|
    requires forall e :: 1 <= e < d ==> |cats[Ahead(|cats|, i, e)].items| == 0
    requires exists e :: d <= e <= |cats| && |cats[Ahead(|cats|, i, e)].items| > 0
    ensures r < |cats| && |cats[r].items| > 0
    ensures exists d' :: NextCatAt(cats, i, d') && r == Ahead(|cats|, i, d')
    decreases |cats| - d
  {
    if |cats[Ahead(|cats|, i, d)].items| > 0 then
      assert NextCatAt(cats, i, d);
      Ahead(|cats|, i, d)
    else
      NextCatFrom(cats, i, d + 1)
  }

  /** GetPrevCat, as a value: the index of the previous non-empty category before i, cyclically. */
  function PrevCat(cats: seq<CategoryView>, i: nat): (r: nat)
    requires i < |cats| && SomeNonEmpty(cats)
    ensures r < |cats| && |cats[r].items| > 0
    ensures exists d :: PrevCatAt(cats, i, d) && r == Behind(|cats|, i, d)
  {
    BehindReaches(cats, i);
    PrevCatFrom(cats, i, 1)
  }

  function PrevCatFrom(cats: seq<CategoryView>, i: nat, d: nat): (r: nat)
    requires i < |cats| && 1 <= d <= |cats|
    requires forall e :: 1 <= e < d ==> |cats[Behind(|cats|, i, e)].items| == 0
    requires exists e :: d <= e <= |cats| && |cats[Behind(|cats|, i, e)].items| > 0
    ensures r < |cats| && |cats[r].items| > 0
    ensures exists d' :: PrevCatAt(cats, i, d') && r == Behind(|cats|, i, d')
    decreases |cats| - d
  {
    if |cats[Behind(|cats|, i, d)].items| > 0 then
      assert PrevCatAt(cats, i, d);
      Behind(|cats|, i, d)
    else
      PrevCatFrom(cats, i, d + 1)
  }

  /** From a non-empty category, going to the next non-empty one and back returns to it. */
  lemma NextThenPrevCat(cats: seq<CategoryView>, i: nat)
    requires i < |cats| && |cats[i].items| > 0
    ensures SomeNonEmpty(cats) && PrevCat(cats, NextCat(cats, i)) == i
  {
    var n := |cats|;
    var j := NextCat(cats, i);
    var d :| NextCatAt(cats, i, d) && j == Ahead(n, i, d);
    assert Behind(n, j, d) == i;
    forall e | 1 <= e < d
      ensures Behind(n, j, e) == Ahead(n, i, d - e)
    {
    }
    assert PrevCatAt(cats, j, d);
    var p := PrevCat(cats, j);
    var d' :| PrevCatAt(cats, j, d') && p == Behind(n, j, d');
    if d' < d {
      assert false;
    } else if d < d' {
      assert false;
    }
  }

  // ---------------------------------------------------------------------
  // NextItem and PrevItem

  /** The categories with the first visible item of the category object c set to f. */
  function SetFirst(cats: seq<CategoryView>, c: Category, f: int): (r: seq<CategoryView>)
    ensures |r| == |cats|
  {
    seq(|cats|, p requires 0 <= p < |cats| => if cats[p].ref == c then cats[p].(first := f) else cats[p])
  }

  /** Some category holds x. */
  predicate Listed(cats: seq<CategoryView>, x: Item?)
  {
    exists k :: 0 <= k < |cats| && x in cats[k].items
  }

  /** The category at i holds the active item. */
  predicate HoldsActive(s: Switcher, i: int)
  {
    0 <= i < |s.cats| && IndexOf(s.cats[i].items, s.active) >= 0
  }

  /**
   * NextItem: the item after the active one in its category, scrolling that
   * category by one when the new item passes the last visible slots; from the
   * last item, the first item of the same category (stayInCategory) or of the
   * next non-empty one, which is scrolled to the top. Nothing happens when no
   * category holds the active item.
   */
  function Next(s: Switcher, stayInCategory: bool): (r: Switcher)
    ensures Holder(s.cats, s.active) == |s.cats| ==> r == s
    ensures Holder(s.cats, s.active) < |s.cats| ==> Listed(r.cats, r.active)
  {
    var i := Holder(s.cats, s.active);
    if i == |s.cats| then s else NextAt(s, i, stayInCategory)
  }

  /** NextItem once the loop has found the active item in the category at i. */
  function NextAt(s: Switcher, i: int, stayInCategory: bool): (r: Switcher)
    requires HoldsActive(s, i)
    ensures |r.cats| == |s.cats| && Listed(r.cats, r.active)
  {
    var cat := s.cats[i];
    var idx := IndexOf(cat.items, s.active);
    if idx + 1 < |cat.items| then
      var cats := if idx + 1 > cat.first + MaxItems * MaxRows - 3 then SetFirst(s.cats, cat.ref, cat.first + 1) else s.cats;
      assert IndexOf(cats[i].items, cat.items[idx + 1]) >= 0;
      Switcher(cats, cat.items[idx + 1])
    else
      assert SomeNonEmpty(s.cats) by { assert |s.cats[i].items| > 0; }
      var k := if stayInCategory then i else NextCat(s.cats, i);
      var target := s.cats[k];
      var cats := SetFirst(s.cats, target.ref, 0);
      assert IndexOf(cats[k].items, target.items[0]) >= 0;
      Switcher(cats, target.items[0])
  }

  /**
   * PrevItem: the item before the active one, scrolling up when it was above
   * the first visible item; from the first item, the last item of the same
   * category or of the previous non-empty one, scrolled so that the last item
   * is near the end of the visible slots.
   */
  function Prev(s: Switcher, stayInCategory: bool): (r: Switcher)
    ensures Holder(s.cats, s.active) == |s.cats| ==> r == s
    ensures Holder(s.cats, s.active) < |s.cats| ==> Listed(r.cats, r.active)
  {
    var i := Holder(s.cats, s.active);
    if i == |s.cats| then s else PrevAt(s, i, stayInCategory)
  }

  /** PrevItem once the loop has found the active item in the category at i. */
  function PrevAt(s: Switcher, i: int, stayInCategory: bool): (r: Switcher)
    requires HoldsActive(s, i)
    ensures |r.cats| == |s.cats| && Listed(r.cats, r.active)
  {
    var cat := s.cats[i];
    var idx := IndexOf(cat.items, s.active);
    if idx - 1 >= 0 then
      var cats := if idx - 1 < cat.first then SetFirst(s.cats, cat.ref, cat.first - 1) else s.cats;
      assert IndexOf(cats[i].items, cat.items[idx - 1]) >= 0;
      Switcher(cats, cat.items[idx - 1])
    else
      assert SomeNonEmpty(s.cats) by { assert |s.cats[i].items| > 0; }
      var k := if stayInCategory then i else PrevCat(s.cats, i);
      var target := s.cats[k];
      var cats :=
        if |target.items| - 1 > target.first + MaxItems * MaxRows
        then SetFirst(s.cats, target.ref, |target.items| - MaxItems * MaxRows + 1)
        else s.cats;
      assert IndexOf(cats[k].items, target.items[|target.items| - 1]) >= 0;
      Switcher(cats, target.items[|target.items| - 1])
  }

  /** NextAt from an item that is not the last of its category, case by case. */
  lemma NextAtWithin(s: Switcher, i: int, stayInCategory: bool)
    requires HoldsActive(s, i) && IndexOf(s.cats[i].items, s.active) + 1 < |s.cats[i].items|
    ensures var c := s.cats[i];
      var idx := IndexOf(c.items, s.active);
      NextAt(s, i, stayInCategory) ==
        if idx + 1 > c.first + MaxItems * MaxRows - 3
        then Switcher(SetFirst(s.cats, c.ref, c.first + 1), c.items[idx + 1])
        else s.(active := c.items[idx + 1])
  {
  }

  /** PrevAt from an item that is not the first of its category, case by case. */
  lemma PrevAtWithin(s: Switcher, i: int, stayInCategory: bool)
    requires HoldsActive(s, i) && IndexOf(s.cats[i].items, s.active) > 0
    ensures var c := s.cats[i];
      var idx := IndexOf(c.items, s.active);
      PrevAt(s, i, stayInCategory) ==
        if idx - 1 < c.first
        then Switcher(SetFirst(s.cats, c.ref, c.first - 1), c.items[idx - 1])
        else s.(active := c.items[idx - 1])
  {
  }

  /** PrevAt from the first item of the category at i, case by case. */
  lemma PrevAtWraps(s: Switcher, i: int, stayInCategory: bool)
    requires HoldsActive(s, i) && IndexOf(s.cats[i].items, s.active) == 0
    ensures SomeNonEmpty(s.cats)
    ensures var k := if stayInCategory then i else PrevCat(s.cats, i);
      var t := s.cats[k];
      PrevAt(s, i, stayInCategory) ==
        if |t.items| - 1 > t.first + MaxItems * MaxRows
        then Switcher(SetFirst(s.cats, t.ref, |t.items| - MaxItems * MaxRows + 1), t.items[|t.items| - 1])
        else s.(active := t.items[|t.items| - 1])
  {
    assert |s.cats[i].items| > 0;
  }

  /** A category's first visible item lies within its items (0 for an empty category). */
  predicate Scrolled(c: CategoryView)
  {
    0 <= c.first && (c.first < |c.items| || c.first == 0)
  }

  predicate AllScrolled(cats: seq<CategoryView>)
  {
    forall k :: 0 <= k < |cats| ==> Scrolled(cats[k])
  }

  lemma SetFirstScrolled(cats: seq<CategoryView>, c: Category, f: int, k: nat)
    requires AllScrolled(cats) && k < |cats| && cats[k].ref == c
    requires forall p :: 0 <= p < |cats| && cats[p].ref == c ==> cats[p].items == cats[k].items
    requires 0 <= f && (f < |cats[k].items| || f == 0)
    ensures AllScrolled(SetFirst(cats, c, f))
  {
  }

  /** Every category keeps its items whatever Next or Prev does. */
  predicate SameItems(a: seq<CategoryView>, b: seq<CategoryView>)
  {
    |a| == |b| && forall k :: 0 <= k < |a| ==> a[k].ref == b[k].ref && a[k].items == b[k].items
  }

  /** Scrolling a category changes no category's items. */
  lemma SetFirstSameItems(cats: seq<CategoryView>, c: Category, f: int)
    ensures SameItems(cats, SetFirst(cats, c, f))
  {
  }

  /** NextItem changes first visible items only. */
  lemma NextSameItems(s: Switcher, stayInCategory: bool)
    ensures SameItems(s.cats, Next(s, stayInCategory).cats)
  {
    var i := Holder(s.cats, s.active);
    if i < |s.cats| {
      var t := NextAt(s, i, stayInCategory);
      var cat := s.cats[i];
      if IndexOf(cat.items, s.active) + 1 < |cat.items| {
        SetFirstSameItems(s.cats, cat.ref, cat.first + 1);
      } else {
        assert SomeNonEmpty(s.cats) by { assert |s.cats[i].items| > 0; }
        var target := if stayInCategory then cat else s.cats[NextCat(s.cats, i)];
        SetFirstSameItems(s.cats, target.ref, 0);
      }
    }
  }

  /** PrevItem changes first visible items only. */
  lemma PrevSameItems(s: Switcher, stayInCategory: bool)
    ensures SameItems(s.cats, Prev(s, stayInCategory).cats)
  {
    var i := Holder(s.cats, s.active);
    if i < |s.cats| {
      var cat := s.cats[i];
      if IndexOf(cat.items, s.active) - 1 >= 0 {
        SetFirstSameItems(s.cats, cat.ref, cat.first - 1);
      } else {
        assert SomeNonEmpty(s.cats) by { assert |s.cats[i].items| > 0; }
        var target := if stayInCategory then cat else s.cats[PrevCat(s.cats, i)];
        SetFirstSameItems(s.cats, target.ref, |target.items| - MaxItems * MaxRows + 1);
      }
    }
  }

  /** Each category object appears with one list of items (true of any heap). */
  predicate Coherent(cats: seq<CategoryView>)
  {
    forall p, q :: 0 <= p < |cats| && 0 <= q < |cats| && cats[p].ref == cats[q].ref ==>
      cats[p].items == cats[q].items && cats[p].first == cats[q].first
  }

  lemma ViewsCoherent(cats: seq<Category>)
    ensures Coherent(Views(cats))
  {
  }

  /**
   * NextItem keeps every first visible item within its category: it only
   * scrolls forward while the new active item is below the top.
   */
  lemma NextScrolled(s: Switcher, stayInCategory: bool)
    requires AllScrolled(s.cats) && Coherent(s.cats)
    ensures AllScrolled(Next(s, stayInCategory).cats)
  {
    var i := Holder(s.cats, s.active);
    if i < |s.cats| {
      var cat := s.cats[i];
      var idx := IndexOf(cat.items, s.active);
      if idx + 1 < |cat.items| {
        if idx + 1 > cat.first + MaxItems * MaxRows - 3 {
          SetFirstScrolled(s.cats, cat.ref, cat.first + 1, i);
        }
      } else {
        var k := if stayInCategory then i else NextCat(s.cats, i);
        SetFirstScrolled(s.cats, s.cats[k].ref, 0, k);
      }
    }
  }

  /** PrevItem keeps every first visible item within its category. */
  lemma PrevScrolled(s: Switcher, stayInCategory: bool)
    requires AllScrolled(s.cats) && Coherent(s.cats)
    ensures AllScrolled(Prev(s, stayInCategory).cats)
  {
    var i := Holder(s.cats, s.active);
    if i < |s.cats| {
      var cat := s.cats[i];
      var idx := IndexOf(cat.items, s.active);
      if idx - 1 >= 0 {
        if idx - 1 < cat.first {
          SetFirstScrolled(s.cats, cat.ref, cat.first - 1, i);
        }
      } else {
        var k := if stayInCategory then i else PrevCat(s.cats, i);
        var t := s.cats[k];
        if |t.items| - 1 > t.first + MaxItems * MaxRows {
          SetFirstScrolled(s.cats, t.ref, |t.items| - MaxItems * MaxRows + 1, k);
        }
      }
    }
  }

  /** No item occurs twice, in one category or across categories. */
  predicate DistinctItems(cats: seq<CategoryView>)
  {
    (forall k, a, b :: 0 <= k < |cats| && 0 <= a < b < |cats[k].items| ==> cats[k].items[a] != cats[k].items[b]) &&
    (forall k, l, a, b :: 0 <= k < l < |cats| && 0 <= a < |cats[k].items| && 0 <= b < |cats[l].items| ==>
      cats[k].items[a] != cats[l].items[b])
  }

  lemma IndexOfDistinct(items: seq<Item>, a: nat)
    requires a < |items|
    requires forall p, q :: 0 <= p < q < |items| ==> items[p] != items[q]
    ensures IndexOf(items, items[a]) == a
  {
  }

  lemma HolderOf(cats: seq<CategoryView>, k: nat, a: nat)
    requires DistinctItems(cats) && k < |cats| && a < |cats[k].items|
    ensures Holder(cats, cats[k].items[a]) == k && IndexOf(cats[k].items, cats[k].items[a]) == a
  {
    IndexOfDistinct(cats[k].items, a);
    var h := Holder(cats, cats[k].items[a]);
    if h < k {
      assert false;
    }
  }

  /** Keeping every category's items keeps them distinct. */
  lemma SameItemsDistinct(a: seq<CategoryView>, b: seq<CategoryView>)
    requires SameItems(a, b) && DistinctItems(a)
    ensures DistinctItems(b)
  {
  }

  /** With distinct items, PrevItem from the item at a > 0 of the category at i activates the item at a - 1. */
  lemma PrevOfItem(t: Switcher, stayInCategory: bool, i: nat, a: nat)
    requires DistinctItems(t.cats) && i < |t.cats| && 0 < a < |t.cats[i].items| && t.active == t.cats[i].items[a]
    ensures Prev(t, stayInCategory).active == t.cats[i].items[a - 1]
  {
    HolderOf(t.cats, i, a);
    PrevWithinCategory(t, stayInCategory);
  }

  /** With distinct items, NextItem from the item at a, not the last, of the category at i activates the item at a + 1. */
  lemma NextOfItem(t: Switcher, stayInCategory: bool, i: nat, a: nat)
    requires DistinctItems(t.cats) && i < |t.cats| && 0 <= a && a + 1 < |t.cats[i].items| && t.active == t.cats[i].items[a]
    ensures Next(t, stayInCategory).active == t.cats[i].items[a + 1]
  {
    HolderOf(t.cats, i, a);
    NextWithinCategory(t, stayInCategory);
  }

  /**
   * Within a category, NextItem undoes PrevItem and PrevItem undoes NextItem,
   * as long as no item appears twice.
   */
  lemma NextPrevInverse(s: Switcher, stayInCategory: bool)
    requires DistinctItems(s.cats)
    requires Holder(s.cats, s.active) < |s.cats|
    requires IndexOf(s.cats[Holder(s.cats, s.active)].items, s.active) + 1 <
      |s.cats[Holder(s.cats, s.active)].items|
    ensures Prev(Next(s, stayInCategory), stayInCategory).active == s.active
  {
    var i := Holder(s.cats, s.active);
    var idx := IndexOf(s.cats[i].items, s.active);
    var t := Next(s, stayInCategory);
    assert DistinctItems(t.cats) && t.active == s.cats[i].items[idx + 1] &&
      |t.cats| == |s.cats| && t.cats[i].items == s.cats[i].items by {
      NextWithinCategory(s, stayInCategory);
      NextSameItems(s, stayInCategory);
      SameItemsDistinct(s.cats, t.cats);
    }
    assert t.cats[i].items[idx] == s.active;
    PrevOfItem(t, stayInCategory, i, idx + 1);
  }

  lemma PrevNextInverse(s: Switcher, stayInCategory: bool)
    requires DistinctItems(s.cats)
    requires Holder(s.cats, s.active) < |s.cats|
    requires IndexOf(s.cats[Holder(s.cats, s.active)].items, s.active) > 0
    ensures Next(Prev(s, stayInCategory), stayInCategory).active == s.active
  {
    var i := Holder(s.cats, s.active);
    var idx := IndexOf(s.cats[i].items, s.active);
    var t := Prev(s, stayInCategory);
    assert DistinctItems(t.cats) && t.active == s.cats[i].items[idx - 1] &&
      |t.cats| == |s.cats| && t.cats[i].items == s.cats[i].items by {
      PrevWithinCategory(s, stayInCategory);
      PrevSameItems(s, stayInCategory);
      SameItemsDistinct(s.cats, t.cats);
    }
    assert t.cats[i].items[idx] == s.active;
    NextOfItem(t, stayInCategory, i, idx - 1);
  }

  /**
   * NextItem from an item that is not the last of its category: the next item
   * becomes active, the category scrolls by exactly one exactly when the new
   * item passes the first visible item plus 37, and no other category changes.
   */
  lemma NextWithinCategory(s: Switcher, stayInCategory: bool)
    requires Holder(s.cats, s.active) < |s.cats|
    requires IndexOf(s.cats[Holder(s.cats, s.active)].items, s.active) + 1 <
      |s.cats[Holder(s.cats, s.active)].items|
    ensures var cat := s.cats[Holder(s.cats, s.active)];
      var idx := IndexOf(cat.items, s.active);
      var t := Next(s, stayInCategory);
      && t.active == cat.items[idx + 1]
      && (forall p :: 0 <= p < |s.cats| && s.cats[p].ref != cat.ref ==> t.cats[p] == s.cats[p])
      && t.cats[Holder(s.cats, s.active)].first ==
           cat.first + (if idx + 1 > cat.first + MaxItems * MaxRows - 3 then 1 else 0)
  {
  }

  /**
   * PrevItem from an item that is not the first of its category: the item
   * before it becomes active, the category scrolls up by one exactly when that
   * item is above the first visible item, and no other category changes.
   */
  lemma PrevWithinCategory(s: Switcher, stayInCategory: bool)
    requires Holder(s.cats, s.active) < |s.cats|
    requires IndexOf(s.cats[Holder(s.cats, s.active)].items, s.active) > 0
    ensures var cat := s.cats[Holder(s.cats, s.active)];
      var idx := IndexOf(cat.items, s.active);
      var t := Prev(s, stayInCategory);
      && t.active == cat.items[idx - 1]
      && (forall p :: 0 <= p < |s.cats| && s.cats[p].ref != cat.ref ==> t.cats[p] == s.cats[p])
      && t.cats[Holder(s.cats, s.active)].first == cat.first - (if idx - 1 < cat.first then 1 else 0)
  {
  }

  /**
   * NextItem from the last item of its category: the first item of the same
   * category, or of the next non-empty one, becomes active and that category
   * scrolls to the top.
   */
  lemma NextWraps(s: Switcher, stayInCategory: bool)
    requires Holder(s.cats, s.active) < |s.cats|
    requires IndexOf(s.cats[Holder(s.cats, s.active)].items, s.active) + 1 ==
      |s.cats[Holder(s.cats, s.active)].items|
    ensures var i := Holder(s.cats, s.active);
      var k := if stayInCategory then i else NextCat(s.cats, i);
      var t := Next(s, stayInCategory);
      && t.active == s.cats[k].items[0]
      && t.cats[k].first == 0
      && (forall p :: 0 <= p < |s.cats| && s.cats[p].ref != s.cats[k].ref ==> t.cats[p] == s.cats[p])
  {
  }

  // ---------------------------------------------------------------------
  // LeftItem and RightItem

  /** One step of LeftItem as written, on the category at i holding the active item at idx. */
  function LeftScan(s: Switcher, i: nat): (r: Option<Switcher>)
    requires i <= |s.cats|
    ensures r.Some? ==> r.value.cats == s.cats
    ensures r.Some? ==> r.value.active == s.active || Listed(s.cats, r.value.active)
    decreases |s.cats| - i
  {
    if i == |s.cats| then Some(s)
    else
      var cat := s.cats[i];
      var idx := IndexOf(cat.items, s.active);
      if idx < 0 then LeftScan(s, i + 1)
      else
        var relIndex := idx - cat.first;
        if TruncDiv(relIndex, MaxItems) == 0 then
          var prevCat := s.cats[PrevCat(s.cats, i)];
          if prevCat.ref == cat.ref then Some(s)
          else
            var newIndex := Min(|prevCat.items| - 1, prevCat.first + relIndex);
            if newIndex < 0 then None
            else LeftScan(s.(active := prevCat.items[newIndex]), i + 1)
        else if relIndex - MaxItems < 0 || relIndex - MaxItems >= |cat.items| then None
        else LeftScan(s.(active := cat.items[relIndex - MaxItems]), i + 1)
  }

  /**
   * LeftItem as written: the scan goes on after moving, so the new active
   * item is moved again when a later category holds it, and an item of the
   * same category is addressed by its position relative to the first visible
   * item. None stands for the ArgumentOutOfRangeException of a negative index.
   */
  function LeftAsWritten(s: Switcher): (r: Option<Switcher>)
    ensures r.Some? ==> r.value.cats == s.cats
    ensures r.Some? ==> r.value.active == s.active || Listed(s.cats, r.value.active)
  {
    LeftScan(s, 0)
  }

  /** One step of RightItem as written. */
  function RightScan(s: Switcher, i: nat): (r: Option<Switcher>)
    requires i <= |s.cats|
    ensures r.Some? ==> r.value.cats == s.cats
    ensures r.Some? ==> r.value.active == s.active || Listed(s.cats, r.value.active)
    decreases |s.cats| - i
  {
    if i == |s.cats| then Some(s)
    else
      var cat := s.cats[i];
      var idx := IndexOf(cat.items, s.active);
      if idx < 0 then RightScan(s, i + 1)
      else
        var relIndex := idx - cat.first;
        if TruncDiv(relIndex, MaxItems) == MaxRows - 1 || relIndex + MaxItems >= |cat.items| then
          var nextCat := s.cats[NextCat(s.cats, i)];
          if nextCat.ref == cat.ref then Some(s)
          else if i + 1 < |s.cats| then
            var newIndex := Min(|nextCat.items| - 1, nextCat.first + relIndex);
            if newIndex < 0 then None
            else RightScan(s.(active := nextCat.items[newIndex]), i + 1)
          else RightScan(s, i + 1)
        else if relIndex + MaxItems < 0 then None
        else RightScan(s.(active := cat.items[relIndex + MaxItems]), i + 1)
  }

  /** RightItem as written; None stands for an exception. */
  function RightAsWritten(s: Switcher): (r: Option<Switcher>)
    ensures r.Some? ==> r.value.cats == s.cats
    ensures r.Some? ==> r.value.active == s.active || Listed(s.cats, r.value.active)
  {
    RightScan(s, 0)
  }

  /**
   * LeftItem, corrected: act on the first category holding the active item
   * and stop, and move within that category by one column of absolute
   * positions. From the leftmost column the item on the same row of the
   * previous non-empty category becomes active.
   */
  function Left(s: Switcher): (r: Option<Switcher>)
    ensures Holder(s.cats, s.active) == |s.cats| ==> r == Some(s)
    ensures r.Some? ==> r.value.cats == s.cats
    ensures r.Some? && Holder(s.cats, s.active) < |s.cats| ==> Listed(s.cats, r.value.active)
  {
    var i := Holder(s.cats, s.active);
    if i == |s.cats| then Some(s) else LeftAt(s, i)
  }

  /** The corrected LeftItem once the loop has found the active item in the category at i. */
  function LeftAt(s: Switcher, i: int): (r: Option<Switcher>)
    requires HoldsActive(s, i)
    ensures r.Some? ==> r.value.cats == s.cats
    ensures r.Some? ==> Listed(s.cats, r.value.active)
  {
    var cat := s.cats[i];
    var idx := IndexOf(cat.items, s.active);
    var relIndex := idx - cat.first;
    if TruncDiv(relIndex, MaxItems) == 0 then
      assert SomeNonEmpty(s.cats) by { assert |s.cats[i].items| > 0; }
      var prevCat := s.cats[PrevCat(s.cats, i)];
      if prevCat.ref == cat.ref then Some(s)
      else
        var newIndex := Min(|prevCat.items| - 1, prevCat.first + relIndex);
        if newIndex < 0 then None else Some(s.(active := prevCat.items[newIndex]))
    else if idx - MaxItems < 0 then None
    else Some(s.(active := cat.items[idx - MaxItems]))
  }

  /** RightItem, corrected in the same way; from the last category it does not wrap. */
  function Right(s: Switcher): (r: Option<Switcher>)
    ensures Holder(s.cats, s.active) == |s.cats| ==> r == Some(s)
    ensures r.Some? ==> r.value.cats == s.cats
    ensures r.Some? && Holder(s.cats, s.active) < |s.cats| ==> Listed(s.cats, r.value.active)
  {
    var i := Holder(s.cats, s.active);
    if i == |s.cats| then Some(s) else RightAt(s, i)
  }

  /** The corrected RightItem once the loop has found the active item in the category at i. */
  function RightAt(s: Switcher, i: int): (r: Option<Switcher>)
    requires HoldsActive(s, i)
    ensures r.Some? ==> r.value.cats == s.cats
    ensures r.Some? ==> Listed(s.cats, r.value.active)
  {
    var cat := s.cats[i];
    var idx := IndexOf(cat.items, s.active);
    var relIndex := idx - cat.first;
    if TruncDiv(relIndex, MaxItems) == MaxRows - 1 || idx + MaxItems >= |cat.items| then
      assert SomeNonEmpty(s.cats) by { assert |s.cats[i].items| > 0; }
      var nextCat := s.cats[NextCat(s.cats, i)];
      if nextCat.ref == cat.ref || i + 1 >= |s.cats| then Some(s)
      else
        var newIndex := Min(|nextCat.items| - 1, nextCat.first + relIndex);
        if newIndex < 0 then None else Some(s.(active := nextCat.items[newIndex]))
    else Some(s.(active := cat.items[idx + MaxItems]))
  }

  /** The active item is not above its category's first visible item. */
  predicate ActiveShown(s: Switcher)
  {
    var i := Holder(s.cats, s.active);
    i < |s.cats| ==> s.cats[i].first <= IndexOf(s.cats[i].items, s.active)
  }

  /**
   * The corrected LeftItem never indexes outside a list while every category
   * is scrolled within its items and the active item is shown, and it moves
   * one column: within the category by exactly MaxItems positions, or to the
   * previous non-empty category.
   */
  lemma LeftSafe(s: Switcher)
    requires AllScrolled(s.cats) && ActiveShown(s)
    ensures Left(s).Some?
    ensures Left(s).value.cats == s.cats
    ensures var i := Holder(s.cats, s.active);
      i < |s.cats| && Left(s).value.active != s.active ==>
        (Left(s).value.active in s.cats[PrevCat(s.cats, i)].items ||
         Left(s).value.active == s.cats[i].items[IndexOf(s.cats[i].items, s.active) - MaxItems])
  {
  }

  /** The corrected RightItem never fails in the same states, and moves one column. */
  lemma RightSafe(s: Switcher)
    requires AllScrolled(s.cats) && ActiveShown(s)
    ensures Right(s).Some?
    ensures Right(s).value.cats == s.cats
    ensures var i := Holder(s.cats, s.active);
      i < |s.cats| && Right(s).value.active != s.active ==>
        (Right(s).value.active in s.cats[NextCat(s.cats, i)].items ||
         Right(s).value.active == s.cats[i].items[IndexOf(s.cats[i].items, s.active) + MaxItems])
  {
  }

  /**
   * LeftItem as written, from the first of two one-item categories: it moves
   * to the second category, keeps scanning, finds the new active item there
   * and moves back, so nothing changes; the corrected LeftItem moves to the
   * second category.
   */
  lemma LeftRescans(c0: Category, c1: Category, a: Item, b: Item)
    requires c0 != c1 && a != b
    ensures var s := Switcher([CategoryView(c0, [a], 0), CategoryView(c1, [b], 0)], a);
      LeftAsWritten(s) == Some(s) && Left(s) == Some(s.(active := b))
  {
    var s := Switcher([CategoryView(c0, [a], 0), CategoryView(c1, [b], 0)], a);
    assert PrevCatAt(s.cats, 0, 1);
    assert PrevCatAt(s.cats, 1, 1);
    PrevCatIs(s.cats, 0, 1);
    PrevCatIs(s.cats, 1, 1);
    var t := s.(active := b);
    assert LeftScan(t, 1) == LeftScan(s, 2);
  }

  /**
   * RightItem as written, from the first of three one-item categories, skips
   * the second: after moving there the scan reaches it and moves on to the
   * third. The corrected RightItem stops at the second.
   */
  lemma RightRescans(c0: Category, c1: Category, c2: Category, a: Item, b: Item, c: Item)
    requires c0 != c1 && c1 != c2 && c0 != c2 && a != b && b != c && a != c
    ensures var s := Switcher([CategoryView(c0, [a], 0), CategoryView(c1, [b], 0), CategoryView(c2, [c], 0)], a);
      RightAsWritten(s) == Some(s.(active := c)) && Right(s) == Some(s.(active := b))
  {
    var s := Switcher([CategoryView(c0, [a], 0), CategoryView(c1, [b], 0), CategoryView(c2, [c], 0)], a);
    assert NextCatAt(s.cats, 0, 1);
    assert NextCatAt(s.cats, 1, 1);
    assert NextCatAt(s.cats, 2, 1);
    NextCatIs(s.cats, 0, 1);
    NextCatIs(s.cats, 1, 1);
    NextCatIs(s.cats, 2, 1);
    var t := s.(active := b);
    var u := s.(active := c);
    assert RightScan(s, 0) == RightScan(t, 1);
    assert RightScan(t, 1) == RightScan(u, 2);
    assert RightScan(u, 2) == RightScan(u, 3) == Some(u);
    assert Holder(s.cats, a) == 0;
  }

  /**
   * LeftItem as written on a category scrolled by one, from position 21
   * (second column, first row): it activates position 0, one place above the
   * item beside it; the corrected LeftItem activates position 1.
   */
  lemma LeftRelativeIndex(c: Category, items: seq<Item>)
    requires |items| == 22
    requires forall p, q :: 0 <= p < q < |items| ==> items[p] != items[q]
    ensures var s := Switcher([CategoryView(c, items, 1)], items[21]);
      LeftAsWritten(s) == Some(s.(active := items[0])) && Left(s) == Some(s.(active := items[1]))
  {
    var s := Switcher([CategoryView(c, items, 1)], items[21]);
    IndexOfDistinct(items, 21);
    IndexOfDistinct(items, 0);
    var t := s.(active := items[0]);
    assert LeftScan(t, 1) == Some(t);
  }

  /**
   * RightItem as written on a category of 45 items scrolled by five, from
   * position 5 (first column, first row): it activates position 20, the
   * position relative to the first visible item taken as absolute; the
   * corrected RightItem activates position 25, the item beside it.
   */
  lemma RightRelativeIndex(c: Category, items: seq<Item>)
    requires |items| == 45
    requires forall p, q :: 0 <= p < q < |items| ==> items[p] != items[q]
    ensures var s := Switcher([CategoryView(c, items, 5)], items[5]);
      RightAsWritten(s) == Some(s.(active := items[20])) && Right(s) == Some(s.(active := items[25]))
  {
    var s := Switcher([CategoryView(c, items, 5)], items[5]);
    IndexOfDistinct(items, 5);
    var t := s.(active := items[20]);
    assert RightScan(t, 1) == Some(t);
  }

  /**
   * PrevItem from the first item of its category: the last item of the same
   * category, or of the previous non-empty one, becomes active; that category
   * scrolls so that its last item is visible when it lay more than 40
   * positions past the first visible item, and no other category changes.
   */
  lemma PrevWraps(s: Switcher, stayInCategory: bool)
    requires Holder(s.cats, s.active) < |s.cats|
    requires IndexOf(s.cats[Holder(s.cats, s.active)].items, s.active) == 0
    ensures var i := Holder(s.cats, s.active);
      var k := if stayInCategory then i else PrevCat(s.cats, i);
      var cat := s.cats[k];
      var t := Prev(s, stayInCategory);
      && t.active == cat.items[|cat.items| - 1]
      && t.cats[k].first ==
           (if |cat.items| - 1 > cat.first + MaxItems * MaxRows then |cat.items| - MaxItems * MaxRows + 1 else cat.first)
      && (forall p :: 0 <= p < |s.cats| && s.cats[p].ref != cat.ref ==> t.cats[p] == s.cats[p])
  {
  }

  lemma NextCatIs(cats: seq<CategoryView>, i: nat, d: nat)
    requires i < |cats| && SomeNonEmpty(cats) && NextCatAt(cats, i, d)
    ensures NextCat(cats, i) == Ahead(|cats|, i, d)
  {
    var d' :| NextCatAt(cats, i, d') && NextCat(cats, i) == Ahead(|cats|, i, d');
    assert NextCatAt(cats, i, d') && NextCatAt(cats, i, d);
    if d' < d {
      assert false;
    } else if d < d' {
      assert false;
    }
  }

  lemma PrevCatIs(cats: seq<CategoryView>, i: nat, d: nat)
    requires i < |cats| && SomeNonEmpty(cats) && PrevCatAt(cats, i, d)
    ensures PrevCat(cats, i) == Behind(|cats|, i, d)
  {
    var d' :| PrevCatAt(cats, i, d') && PrevCat(cats, i) == Behind(|cats|, i, d');
    assert PrevCatAt(cats, i, d') && PrevCatAt(cats, i, d);
    if d' < d {
      assert false;
    } else if d < d' {
      assert false;
    }
  }

  // ---------------------------------------------------------------------
  // Labels

  /**
   * Ellipsize: a string longer than maxLength is cut to maxLength - 3
   * characters followed by "..."; null and short strings come back unchanged.
   */
  function Ellipsize(str: Option<string>, maxLength: int): (r: Option<string>)
    requires str.Some? && |str.value| > maxLength ==> maxLength >= 3
    ensures str.None? <==> r.None?
    ensures r.Some? ==> |r.value| <= maxLength || r == str
    ensures str.Some? && |str.value| <= maxLength ==> r == str
    ensures str.Some? && |str.value| > maxLength ==>
      |r.value| == maxLength && r.value[..maxLength - 3] == str.value[..maxLength - 3] &&
      r.value[maxLength - 3..] == "..."
  {
    if str.Some? && |str.value| > maxLength then Some(str.value[..maxLength - 3] + "...") else str
  }

  lemma EllipsizeIdempotent(str: Option<string>, maxLength: int)
    requires str.Some? && |str.value| > maxLength ==> maxLength >= 3
    ensures Ellipsize(Ellipsize(str, maxLength), maxLength) == Ellipsize(str, maxLength)
  {
  }

  /** The title shown in the list: ListTitle, or Title when it has none. */
  function DisplayTitle(item: Item): string
  {
    if item.listTitle.Some? then item.listTitle.value else item.title
  }

  /** The length of the longest display title among items, or 0. */
  function Longest(items: seq<Item>): (r: nat)
    ensures forall k :: 0 <= k < |items| ==> |DisplayTitle(items[k])| <= r
  {
    if items == [] then 0
    else Max(Longest(items[..|items| - 1]), |DisplayTitle(items[|items| - 1])|)
  }

  /** The length of the longest display title in any category, or 0. */
  function LongestIn(cats: seq<CategoryView>): (r: nat)
    ensures forall k, j :: 0 <= k < |cats| && 0 <= j < |cats[k].items| ==> |DisplayTitle(cats[k].items[j])| <= r
  {
    if cats == [] then 0
    else Max(LongestIn(cats[..|cats| - 1]), Longest(cats[|cats| - 1].items))
  }

  /**
   * The label width of OnSizeRequested: the longest display title, but at
   * least 15 and at most 30 characters.
   */
  function LabelWidth(cats: seq<CategoryView>): (r: int)
    ensures MinLabel <= r <= MaxLabel
    ensures forall k, j :: 0 <= k < |cats| && 0 <= j < |cats[k].items| ==>
      |DisplayTitle(cats[k].items[j])| <= r || r == MaxLabel
    ensures r == MinLabel || r == MaxLabel || r == LongestIn(cats)
  {
    Min(MaxLabel, Max(MinLabel, LongestIn(cats)))
  }

  /** A display title no longer than the label width is drawn whole. */
  lemma ShortTitlesWhole(cats: seq<CategoryView>, k: nat, j: nat)
    requires k < |cats| && j < |cats[k].items|
    ensures |DisplayTitle(cats[k].items[j])| <= MaxLabel ==>
      Ellipsize(Some(DisplayTitle(cats[k].items[j])), LabelWidth(cats)) == Some(DisplayTitle(cats[k].items[j]))
  {
  }

  // ---------------------------------------------------------------------
  // The widget

  class DocumentList {
    var categories: seq<Category>
    var maxLength: int
    var activeItem: Item?

    constructor ()
      ensures categories == [] && maxLength == MinLabel && activeItem == null
    {
      categories := [];
      maxLength := MinLabel;
      activeItem := null;
    }

    /** The navigation state this list shows. */
    function State(): Switcher
      reads this, categories
    {
      Switcher(Views(categories), activeItem)
    }

    method AddCategory(category: Category)
      modifies this`categories
      ensures categories == old(categories) + [category]
    {
      categories := categories + [category];
    }

    method GetNextCat(i: nat) returns (cat: Category)
      requires i < |categories| && SomeNonEmpty(Views(categories))
      ensures cat == categories[NextCat(Views(categories), i)]
    {
      var n := |categories|;
      ghost var cats := Views(categories);
      ghost var r := NextCat(cats, i);
      ghost var goal :| NextCatAt(cats, i, goal) && r == Ahead(|cats|, i, goal);
      AheadStep(n, i, 0);
      var j := (i + 1) % n;
      ghost var d := 1;
      cat := categories[j];
      while |cat.items| == 0
        invariant 1 <= d <= goal && j == Ahead(n, i, d) && cat == categories[j]
        decreases goal - d
      {
        AheadStep(n, i, d);
        j := (j + 1) % n;
        d := d + 1;
        cat := categories[j];
      }
      assert d == goal by {
        assert NextCatAt(cats, i, goal);
        assert |cats[Ahead(n, i, d)].items| > 0;
      }
    }

    method GetPrevCat(i: nat) returns (cat: Category)
      requires i < |categories| && SomeNonEmpty(Views(categories))
      ensures cat == categories[PrevCat(Views(categories), i)]
    {
      var n := |categories|;
      ghost var cats := Views(categories);
      ghost var r := PrevCat(cats, i);
      ghost var goal :| PrevCatAt(cats, i, goal) && r == Behind(|cats|, i, goal);
      BehindStep(n, i, 0);
      var j := (n + i - 1) % n;
      ghost var d := 1;
      cat := categories[j];
      while |cat.items| == 0
        invariant 1 <= d <= goal && j == Behind(n, i, d) && cat == categories[j]
        decreases goal - d
      {
        BehindStep(n, i, d);
        j := (n + j - 1) % n;
        d := d + 1;
        cat := categories[j];
      }
      assert d == goal by {
        assert PrevCatAt(cats, i, goal);
        assert |cats[Behind(n, i, d)].items| > 0;
      }
    }

    /** The ActiveItem property's setter; the change event and the redraw it raises are not modelled. */
    method SetActiveItem(item: Item?)
      modifies this`activeItem
      ensures State() == old(State()).(active := item)
    {
      activeItem := item;
    }

    /** Category.FirstVisibleItem's setter, seen from the list. */
    method Scroll(cat: Category, f: int)
      modifies cat`firstVisibleItem
      ensures Views(categories) == SetFirst(old(Views(categories)), cat, f)
    {
      cat.firstVisibleItem := f;
    }

    method NextItem(stayInCategory: bool)
      modifies this`activeItem, categories`firstVisibleItem
      ensures categories == old(categories)
      ensures State() == Next(old(State()), stayInCategory)
    {
      ghost var s := State();
      for i := 0 to |categories|
        invariant State() == s
        invariant forall m :: 0 <= m < i ==> IndexOf(s.cats[m].items, s.active) < 0
      {
        var idx := IndexOf(categories[i].items, activeItem);
        ViewAt(categories, i);
        if idx < 0 {
          continue;
        }
        assert Holder(s.cats, s.active) == i;
        NextFrom(i, stayInCategory);
        return;
      }
    }

    /** The body of NextItem's loop for the category at i, which holds the active item. */
    method NextFrom(i: nat, stayInCategory: bool)
      requires HoldsActive(State(), i)
      modifies this`activeItem, categories`firstVisibleItem
      ensures categories == old(categories)
      ensures State() == NextAt(old(State()), i, stayInCategory)
    {
      ghost var s := State();
      var cat := categories[i];
      var idx := IndexOf(cat.items, activeItem);
      ViewAt(categories, i);
      if idx + 1 < |cat.items| {
        NextAtWithin(s, i, stayInCategory);
        if idx + 1 > cat.firstVisibleItem + MaxItems * MaxRows - 3 {
          Scroll(cat, cat.firstVisibleItem + 1);
        }
        SetActiveItem(cat.items[idx + 1]);
      } else {
        NextWrap(i, stayInCategory);
      }
    }

    /** NextItem from the last item of the category at i. */
    method NextWrap(i: nat, stayInCategory: bool)
      requires HoldsActive(State(), i)
      requires IndexOf(categories[i].items, activeItem) + 1 >= |categories[i].items|
      modifies this`activeItem, categories`firstVisibleItem
      ensures categories == old(categories)
      ensures State() == NextAt(old(State()), i, stayInCategory)
    {
      ghost var s := State();
      var cat := categories[i];
      ViewAt(categories, i);
      assert SomeNonEmpty(s.cats) by { assert |s.cats[i].items| > 0; }
      ghost var k := if stayInCategory then i else NextCat(s.cats, i);
      if !stayInCategory {
        cat := GetNextCat(i);
      }
      ViewAt(categories, k);
      assert NextAt(s, i, stayInCategory) == Switcher(SetFirst(s.cats, cat, 0), cat.items[0]);
      Scroll(cat, 0);
      SetActiveItem(cat.items[0]);
    }

    method PrevItem(stayInCategory: bool)
      modifies this`activeItem, categories`firstVisibleItem
      ensures categories == old(categories)
      ensures State() == Prev(old(State()), stayInCategory)
    {
      ghost var s := State();
      for i := 0 to |categories|
        invariant State() == s
        invariant forall m :: 0 <= m < i ==> IndexOf(s.cats[m].items, s.active) < 0
      {
        var idx := IndexOf(categories[i].items, activeItem);
        ViewAt(categories, i);
        if idx < 0 {
          continue;
        }
        assert Holder(s.cats, s.active) == i;
        PrevFrom(i, stayInCategory);
        return;
      }
    }

    /** The body of PrevItem's loop for the category at i, which holds the active item. */
    method PrevFrom(i: nat, stayInCategory: bool)
      requires HoldsActive(State(), i)
      modifies this`activeItem, categories`firstVisibleItem
      ensures categories == old(categories)
      ensures State() == PrevAt(old(State()), i, stayInCategory)
    {
      ghost var s := State();
      var cat := categories[i];
      var idx := IndexOf(cat.items, activeItem);
      ViewAt(categories, i);
      if idx - 1 >= 0 {
        PrevAtWithin(s, i, stayInCategory);
        if idx - 1 < cat.firstVisibleItem {
          Scroll(cat, cat.firstVisibleItem - 1);
        }
        SetActiveItem(cat.items[idx - 1]);
      } else {
        PrevWrap(i, stayInCategory);
      }
    }

    /** PrevItem from the first item of the category at i. */
    method PrevWrap(i: nat, stayInCategory: bool)
      requires HoldsActive(State(), i)
      requires IndexOf(categories[i].items, activeItem) - 1 < 0
      modifies this`activeItem, categories`firstVisibleItem
      ensures categories == old(categories)
      ensures State() == PrevAt(old(State()), i, stayInCategory)
    {
      ghost var s := State();
      ViewAt(categories, i);
      PrevAtWraps(s, i, stayInCategory);
      var cat, k := PrevTarget(i, stayInCategory);
      ActivateLast(cat, k);
    }

    /** The category PrevItem wraps to from the category at i, and its index. */
    method PrevTarget(i: nat, stayInCategory: bool) returns (cat: Category, ghost k: nat)
      requires i < |categories| && SomeNonEmpty(Views(categories))
      ensures k == if stayInCategory then i else PrevCat(Views(categories), i)
      ensures k < |categories| && cat == categories[k]
    {
      k := if stayInCategory then i else PrevCat(Views(categories), i);
      cat := categories[i];
      if !stayInCategory {
        cat := GetPrevCat(i);
      }
    }

    /** The last item of cat, the category at k, becomes active; cat scrolls as PrevItem scrolls it. */
    method ActivateLast(cat: Category, ghost k: nat)
      requires k < |categories| && categories[k] == cat && |cat.items| > 0
      modifies this`activeItem, cat`firstVisibleItem
      ensures categories == old(categories)
      ensures var s := old(State());
        var t := s.cats[k];
        State() ==
          if |t.items| - 1 > t.first + MaxItems * MaxRows
          then Switcher(SetFirst(s.cats, t.ref, |t.items| - MaxItems * MaxRows + 1), t.items[|t.items| - 1])
          else s.(active := t.items[|t.items| - 1])
    {
      ViewAt(categories, k);
      var last := cat.items[|cat.items| - 1];
      if |cat.items| - 1 > cat.firstVisibleItem + MaxItems * MaxRows {
        Scroll(cat, |cat.items| - MaxItems * MaxRows + 1);
      }
      SetActiveItem(last);
    }

    /** LeftItem, corrected; ok is false where an index would be out of range. */
    method LeftItem() returns (ok: bool)
      modifies this`activeItem
      ensures ok == Left(old(State())).Some?
      ensures ok ==> State() == Left(old(State())).value
      ensures !ok ==> State() == old(State())
    {
      ghost var s := State();
      ok := true;
      for i := 0 to |categories|
        invariant State() == s
        invariant forall m :: 0 <= m < i ==> IndexOf(s.cats[m].items, s.active) < 0
      {
        var idx := IndexOf(categories[i].items, activeItem);
        ViewAt(categories, i);
        if idx < 0 {
          continue;
        }
        assert Holder(s.cats, s.active) == i;
        ok := LeftFrom(i);
        assert Views(categories) == s.cats;
        return;
      }
    }

    /** The body of LeftItem's loop for the category at i, which holds the active item. */
    method LeftFrom(i: nat) returns (ok: bool)
      requires HoldsActive(State(), i)
      modifies this`activeItem
      ensures ok == LeftAt(old(State()), i).Some?
      ensures ok ==> activeItem == LeftAt(old(State()), i).value.active
      ensures !ok ==> activeItem == old(activeItem)
    {
      ghost var s := State();
      var cat := categories[i];
      var idx := IndexOf(cat.items, activeItem);
      assert s.cats[i] == CategoryView(cat, cat.items, cat.firstVisibleItem);
      var relIndex := idx - cat.firstVisibleItem;
      if TruncDiv(relIndex, MaxItems) == 0 {
        assert SomeNonEmpty(s.cats) by { assert |s.cats[i].items| > 0; }
        var prevCat := GetPrevCat(i);
        assert s.cats[PrevCat(s.cats, i)] == CategoryView(prevCat, prevCat.items, prevCat.firstVisibleItem);
        if prevCat == cat {
          assert LeftAt(s, i) == Some(s);
          return true;
        }
        var newIndex := Min(|prevCat.items| - 1, prevCat.firstVisibleItem + relIndex);
        if newIndex < 0 {
          assert LeftAt(s, i).None?;
          return false;
        }
        assert LeftAt(s, i) == Some(s.(active := prevCat.items[newIndex]));
        SetActiveItem(prevCat.items[newIndex]);
      } else {
        if idx - MaxItems < 0 {
          assert LeftAt(s, i).None?;
          return false;
        }
        assert LeftAt(s, i) == Some(s.(active := cat.items[idx - MaxItems]));
        SetActiveItem(cat.items[idx - MaxItems]);
      }
      return true;
    }

    /** RightItem, corrected; ok is false where an index would be out of range. */
    method RightItem() returns (ok: bool)
      modifies this`activeItem
      ensures ok == Right(old(State())).Some?
      ensures ok ==> State() == Right(old(State())).value
      ensures !ok ==> State() == old(State())
    {
      ghost var s := State();
      ok := true;
      for i := 0 to |categories|
        invariant State() == s
        invariant forall m :: 0 <= m < i ==> IndexOf(s.cats[m].items, s.active) < 0
      {
        var idx := IndexOf(categories[i].items, activeItem);
        ViewAt(categories, i);
        if idx < 0 {
          continue;
        }
        assert Holder(s.cats, s.active) == i;
        ok := RightFrom(i);
        assert Views(categories) == s.cats;
        return;
      }
    }

    /** The body of RightItem's loop for the category at i, which holds the active item. */
    method RightFrom(i: nat) returns (ok: bool)
      requires HoldsActive(State(), i)
      modifies this`activeItem
      ensures ok == RightAt(old(State()), i).Some?
      ensures ok ==> activeItem == RightAt(old(State()), i).value.active
      ensures !ok ==> activeItem == old(activeItem)
    {
      ghost var s := State();
      var cat := categories[i];
      var idx := IndexOf(cat.items, activeItem);
      assert s.cats[i] == CategoryView(cat, cat.items, cat.firstVisibleItem);
      var relIndex := idx - cat.firstVisibleItem;
      if TruncDiv(relIndex, MaxItems) == MaxRows - 1 || idx + MaxItems >= |cat.items| {
        assert SomeNonEmpty(s.cats) by { assert |s.cats[i].items| > 0; }
        var nextCat := GetNextCat(i);
        assert s.cats[NextCat(s.cats, i)] == CategoryView(nextCat, nextCat.items, nextCat.firstVisibleItem);
        if nextCat == cat {
          assert RightAt(s, i) == Some(s);
          return true;
        }
        if i + 1 < |categories| {
          var newIndex := Min(|nextCat.items| - 1, nextCat.firstVisibleItem + relIndex);
          if newIndex < 0 {
            assert RightAt(s, i).None?;
            return false;
          }
          assert RightAt(s, i) == Some(s.(active := nextCat.items[newIndex]));
          SetActiveItem(nextCat.items[newIndex]);
        } else {
          assert RightAt(s, i) == Some(s);
        }
      } else {
        assert RightAt(s, i) == Some(s.(active := cat.items[idx + MaxItems]));
        SetActiveItem(cat.items[idx + MaxItems]);
      }
      return true;
    }

    /** The label width computed at the start of OnSizeRequested. */
    method UpdateMaxLength()
      modifies this`maxLength
      ensures maxLength == LabelWidth(Views(categories))
    {
      ghost var cats := Views(categories);
      maxLength := MinLabel;
      for c := 0 to |categories|
        invariant maxLength == Min(MaxLabel, Max(MinLabel, LongestIn(cats[..c])))
      {
        var cat := categories[c];
        ViewAt(categories, c);
        LongestInSnoc(cats, c);
        for j := 0 to |cat.items|
          invariant maxLength == Min(MaxLabel, Max(MinLabel, Max(LongestIn(cats[..c]), Longest(cat.items[..j]))))
        {
          var item := cat.items[j];
          LongestSnoc(cat.items, j);
          maxLength := Min(MaxLabel, Max(maxLength, |DisplayTitle(item)|));
        }
        assert cat.items[..|cat.items|] == cat.items;
      }
      assert cats[..|categories|] == cats;
    }
  }

  lemma LongestSnoc(items: seq<Item>, j: nat)
    requires j < |items|
    ensures Longest(items[..j + 1]) == Max(Longest(items[..j]), |DisplayTitle(items[j])|)
  {
    assert items[..j + 1][..j] == items[..j];
  }

  lemma LongestInSnoc(cats: seq<CategoryView>, c: nat)
    requires c < |cats|
    ensures LongestIn(cats[..c + 1]) == Max(LongestIn(cats[..c]), Longest(cats[c].items))
  {
    assert cats[..c + 1][..c] == cats[..c];
  }

  /** The index step of GetNextCat's loop moves one category further. */
  lemma AheadStep(n: int, i: int, d: int)
    requires 0 <= i < n && 0 <= d < n
    ensures (Ahead(n, i, d) + 1) % n == Ahead(n, i, d + 1)
  {
    var j := Ahead(n, i, d);
    if j + 1 == n {
      ModAddModulus(0, n);
    } else {
      ModSmall(j + 1, n);
    }
  }

  lemma ModSmall(a: int, n: int)
    requires 0 <= a < n
    ensures a % n == a
  {
  }

  /** The index step of GetPrevCat's loop moves one category further back. */
  lemma BehindStep(n: int, i: int, d: int)
    requires 0 <= i < n && 0 <= d < n
    ensures (n + Behind(n, i, d) - 1) % n == Behind(n, i, d + 1)
  {
    var j := Behind(n, i, d);
    if j == 0 {
      assert (n + j - 1) % n == n - 1;
    } else {
      assert (n + j - 1) % n == j - 1 by {
        assert n + j - 1 == n + (j - 1);
        ModAddModulus(j - 1, n);
      }
    }
  }

  lemma ModAddModulus(a: int, n: int)
    requires 0 <= a < n
    ensures (n + a) % n == a
  {
  }
}
