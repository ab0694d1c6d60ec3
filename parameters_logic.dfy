/**
 * The category bookkeeping behind the severity button panels
 * (parameters_logic.py): normalising the category list, the initial
 * `activeItems`, the per-panel dicts from item name to button group that
 * `create_layout` fills, the in-place edits of `activeItems` when a category
 * is expanded into its subcategories or collapsed again, and the collection of
 * the selected severities.
 *
 * A Qt button group is abstracted as the choice it currently reports through
 * `checkedButton()`: `None`, or the text and value of the checked button.
 */
module ParametersLogic {
  import opened Wrappers
  import opened Seqs
  import Text

  // ----- categories -----

  /** An element of a category list: a bare name, or a `(name, subcategories)` pair. */
  datatype CategoryItem = Plain(name: string) | Nested(name: string, subs: seq<string>)

  /** The `categoryList` argument: a single string, or a list of items. */
  datatype CategoryList = Single(name: string) | Many(items: seq<CategoryItem>)

  /** A normalised `(categoryName, subcategories)` pair. */
  datatype Category = Category(name: string, subs: seq<string>)

  /**
   * The normalisation at the top of `cat_layout`: a bare string becomes one
   * category without subcategories, a string item gets an empty subcategory
   * list, and a pair is kept as it is.
   */
  function Normalise(list: CategoryList): (cats: seq<Category>)
    ensures list.Single? ==> cats == [Category(list.name, [])]
    ensures list.Many? ==> |cats| == |list.items|
    ensures list.Many? ==> forall i :: 0 <= i < |cats| ==>
      cats[i].name == list.items[i].name
      && cats[i].subs == (if list.items[i].Nested? then list.items[i].subs else [])
  {
    match list
    case Single(s) => [Category(s, [])]
    case Many(items) =>
      seq(|items|, i requires 0 <= i < |items| =>
        match items[i]
        case Plain(s) => Category(s, [])
        case Nested(s, subs) => Category(s, subs))
  }

  /** The list of pairs a normalised list would have been written as. */
  function AsPairs(cats: seq<Category>): (items: seq<CategoryItem>)
    ensures |items| == |cats| && forall i :: 0 <= i < |items| ==> items[i] == Nested(cats[i].name, cats[i].subs)
  {
    seq(|cats|, i requires 0 <= i < |cats| => Nested(cats[i].name, cats[i].subs))
  }

  /** Normalising a list of pairs changes nothing, so normalising twice is normalising once. */
  lemma NormalisePairsUnchanged(cats: seq<Category>)
    ensures Normalise(Many(AsPairs(cats))) == cats
  {
  }

  /** A bare string item and a pair with no subcategories are the same category. */
  lemma PlainIsNestedWithoutSubs(items: seq<CategoryItem>, i: nat)
    requires i < |items| && items[i].Plain?
    ensures Normalise(Many(items[i := Nested(items[i].name, [])])) == Normalise(Many(items))
  {
  }

  /** The `any(subcategories for _, subcategories in categoryList)` test. */
  predicate HasSubcategories(cats: seq<Category>)
  {
    exists i :: 0 <= i < |cats| && cats[i].subs != []
  }

  function Names(cats: seq<Category>): (r: seq<string>)
    ensures |r| == |cats| && forall i :: 0 <= i < |r| ==> r[i] == cats[i].name
  {
    seq(|cats|, i requires 0 <= i < |cats| => cats[i].name)
  }

  /**
   * The `activeItems` that `cat_layout` returns: `None` when no category has
   * subcategories, otherwise every main category name in order.
   */
  function InitialActiveItems(cats: seq<Category>): (a: Option<seq<string>>)
    ensures a.None? <==> forall i :: 0 <= i < |cats| ==> cats[i].subs == []
    ensures a.Some? ==> |a.value| == |cats| && forall i :: 0 <= i < |cats| ==> a.value[i] == cats[i].name
  {
    if HasSubcategories(cats) then Some(Names(cats)) else None
  }

  // ----- the item names of the panel -----

  /** `f"{categoryName} - {sub}"`. */
  function SubItem(categoryName: string, sub: string): string
  {
    categoryName + " - " + sub
  }

  lemma SubItemDiffers(categoryName: string, sub: string)
    ensures SubItem(categoryName, sub) != categoryName
  {
    assert |SubItem(categoryName, sub)| > |categoryName|;
  }

  function SubItems(categoryName: string, subs: seq<string>): (r: seq<string>)
    ensures |r| == |subs| && forall j :: 0 <= j < |r| ==> r[j] == SubItem(categoryName, subs[j])
  {
    seq(|subs|, j requires 0 <= j < |subs| => SubItem(categoryName, subs[j]))
  }

  /** A category's own item followed by one item per subcategory. */
  function CategoryItems(c: Category): seq<string>
  {
    [c.name] + SubItems(c.name, c.subs)
  }

  /** Every item name of the panel in `categoryList` order. */
  function Flatten(cats: seq<Category>): seq<string>
  {
    if cats == [] then [] else Flatten(cats[..|cats| - 1]) + CategoryItems(cats[|cats| - 1])
  }

  lemma FlattenSnoc(cats: seq<Category>, c: Category)
    ensures Flatten(cats + [c]) == Flatten(cats) + CategoryItems(c)
  {
    assert (cats + [c])[..|cats + [c]| - 1] == cats;
  }

  /** The items of every listed category occur in the flattened list. */
  lemma {:induction false} FlattenContains(cats: seq<Category>, k: nat)
    requires k < |cats|
    ensures forall x :: x in CategoryItems(cats[k]) ==> x in Flatten(cats)
  {
    var init := cats[..|cats| - 1];
    assert cats == init + [cats[|cats| - 1]];
    if k < |cats| - 1 {
      FlattenContains(init, k);
      assert cats[k] == init[k];
    }
  }

  // ----- reorder_active_items -----

  /** The elements of `s` that occur in `items`, in the order of `s`. */
  function KeepIn(s: seq<string>, items: seq<string>): seq<string>
  {
    if s == [] then []
    else KeepIn(s[..|s| - 1], items) + (if s[|s| - 1] in items then [s[|s| - 1]] else [])
  }

  lemma KeepInSnoc(s: seq<string>, x: string, items: seq<string>)
    ensures KeepIn(s + [x], items) == KeepIn(s, items) + (if x in items then [x] else [])
  {
    assert (s + [x])[..|s + [x]| - 1] == s;
  }

  lemma {:induction false} KeepInAppend(a: seq<string>, b: seq<string>, items: seq<string>)
    ensures KeepIn(a + b, items) == KeepIn(a, items) + KeepIn(b, items)
    decreases |b|
  {
    if b == [] {
      assert a + b == a;
    } else {
      var b', x := b[..|b| - 1], b[|b| - 1];
      KeepInAppend(a, b', items);
      assert a + b == (a + b') + [x];
      assert b == b' + [x];
      KeepInSnoc(a + b', x, items);
      KeepInSnoc(b', x, items);
    }
  }

  lemma {:induction false} KeepInMembers(s: seq<string>, items: seq<string>)
    ensures forall x :: x in KeepIn(s, items) <==> x in s && x in items
  {
    if s != [] {
      var init := s[..|s| - 1];
      KeepInMembers(init, items);
      assert s == init + [s[|s| - 1]];
    }
  }

  lemma {:induction false} KeepInDistinct(s: seq<string>, items: seq<string>)
    requires Distinct(s)
    ensures Distinct(KeepIn(s, items))
  {
    if s != [] {
      var init, x := s[..|s| - 1], s[|s| - 1];
      assert Distinct(init);
      KeepInDistinct(init, items);
      KeepInMembers(init, items);
      assert x !in init;
    }
  }

  /** What `reorder_active_items` leaves in `activeItems`. */
  function Reordered(items: seq<string>, cats: seq<Category>): seq<string>
  {
    KeepIn(Flatten(cats), items)
  }

  /**
   * The reordered list holds exactly the names that are both active and part of
   * the panel, and repeats none of them when the panel's names are distinct.
   */
  lemma ReorderedContents(items: seq<string>, cats: seq<Category>)
    ensures forall x :: x in Reordered(items, cats) <==> x in items && x in Flatten(cats)
    ensures Distinct(Flatten(cats)) ==> Distinct(Reordered(items, cats))
  {
    KeepInMembers(Flatten(cats), items);
    if Distinct(Flatten(cats)) {
      KeepInDistinct(Flatten(cats), items);
    }
  }

  /**
   * The reordered list follows `categoryList`: the active items of the earlier
   * categories, then the last category's own name if it is active, then its
   * active subcategory items in subcategory order.
   */
  lemma ReorderedByCategory(items: seq<string>, cats: seq<Category>, c: Category)
    ensures Reordered(items, cats + [c])
         == Reordered(items, cats) + (if c.name in items then [c.name] else []) + KeepIn(SubItems(c.name, c.subs), items)
  {
    FlattenSnoc(cats, c);
    KeepInAppend(Flatten(cats), CategoryItems(c), items);
    KeepInAppend([c.name], SubItems(c.name, c.subs), items);
    KeepInSnoc([], c.name, items);
    assert [] + [c.name] == [c.name];
  }

  /** Reordering an already reordered list changes nothing. */
  lemma ReorderIdempotent(items: seq<string>, cats: seq<Category>)
    ensures Reordered(Reordered(items, cats), cats) == Reordered(items, cats)
  {
    ReorderedContents(items, cats);
    KeepInSame(Flatten(cats), items, Reordered(items, cats));
  }

  /** Filtering by two lists that agree on the filtered elements gives the same result. */
  lemma {:induction false} KeepInSame(s: seq<string>, a: seq<string>, b: seq<string>)
    requires forall i :: 0 <= i < |s| ==> (s[i] in a <==> s[i] in b)
    ensures KeepIn(s, a) == KeepIn(s, b)
  {
    if s != [] {
      KeepInSame(s[..|s| - 1], a, b);
    }
  }

  // ----- toggle_subcat -----

  /** The index of the first occurrence of `x` in `s`. */
  function FirstIndex(s: seq<string>, x: string): (k: Option<nat>)
    ensures k.Some? ==> k.value < |s| && s[k.value] == x && x !in s[..k.value]
    ensures k.None? <==> x !in s
  {
    if s == [] then None
    else if s[0] == x then Some(0)
    else match FirstIndex(s[1..], x)
      case Some(j) => assert s[..j + 1] == [s[0]] + s[1..][..j]; Some(j + 1)
      case None => None
  }

  /** Python's `list.remove(x)` when `x` is present; the list unchanged otherwise. */
  function RemoveFirst(s: seq<string>, x: string): (r: seq<string>)
    ensures forall y :: Count(r, y) == Count(s, y) - (if y == x && x in s then 1 else 0)
  {
    match FirstIndex(s, x)
    case None => s
    case Some(k) =>
      forall y ensures Count(s[..k] + s[k + 1..], y) == Count(s, y) - (if y == x then 1 else 0) {
        CountRemoveAt(s, k, y);
      }
      s[..k] + s[k + 1..]
  }

  /** `s.extend(x for x in add if x not in s)`: the generator sees the list as it grows. */
  function ExtendMissing(s: seq<string>, add: seq<string>): (r: seq<string>)
    ensures forall x :: x in r <==> x in s || x in add
    ensures forall x :: x !in add ==> Count(r, x) == Count(s, x)
    ensures forall x :: x in add ==> Count(r, x) == (if x in s then Count(s, x) else 1)
  {
    if add == [] then s
    else
      var r := ExtendMissing(s, add[..|add| - 1]);
      var x := add[|add| - 1];
      assert add == add[..|add| - 1] + [x];
      forall y ensures Count(r + [x], y) == Count(r, y) + (if x == y then 1 else 0) {
        CountSnoc(r, x, y);
      }
      if x in r then r else r + [x]
  }

  /** The removal loop of a collapse: each subcategory item loses its first occurrence. */
  function RemoveEach(s: seq<string>, rm: seq<string>): (r: seq<string>)
    ensures forall x :: x !in rm ==> Count(r, x) == Count(s, x)
    ensures forall x :: x in rm && Count(s, x) <= 1 ==> Count(r, x) == 0
    ensures forall x :: Count(r, x) <= Count(s, x)
  {
    if rm == [] then s
    else
      var init := RemoveEach(s, rm[..|rm| - 1]);
      assert rm == rm[..|rm| - 1] + [rm[|rm| - 1]];
      var x := rm[|rm| - 1];
      if x in init then RemoveFirst(init, x) else init
  }

  /** `activeItems` after expanding category `categoryName`, before reordering. */
  function Expanded(items: seq<string>, categoryName: string, subs: seq<string>): seq<string>
  {
    var rest := if categoryName in items then RemoveFirst(items, categoryName) else items;
    ExtendMissing(rest, SubItems(categoryName, subs))
  }

  /** `activeItems` after collapsing category `categoryName`, before reordering. */
  function Collapsed(items: seq<string>, categoryName: string, subs: seq<string>): seq<string>
  {
    RemoveEach(items + [categoryName], SubItems(categoryName, subs))
  }

  /** `activeItems` after `toggle_subcat` on category `k` of the panel. */
  function Toggled(items: seq<string>, cats: seq<Category>, k: nat, checked: bool): seq<string>
    requires k < |cats|
  {
    var c := cats[k];
    Reordered(if checked then Expanded(items, c.name, c.subs) else Collapsed(items, c.name, c.subs), cats)
  }

  lemma NotASubItem(categoryName: string, subs: seq<string>)
    ensures categoryName !in SubItems(categoryName, subs)
  {
    forall j | 0 <= j < |subs| {
      SubItemDiffers(categoryName, subs[j]);
    }
  }

  /**
   * Expanding a category whose name is active at most once: afterwards its name
   * is gone and every one of its subcategory items is active.
   */
  lemma ExpandRemovesCategory(items: seq<string>, cats: seq<Category>, k: nat)
    requires k < |cats| && Count(items, cats[k].name) <= 1
    ensures cats[k].name !in Toggled(items, cats, k, true)
    ensures forall j :: 0 <= j < |cats[k].subs| ==> SubItem(cats[k].name, cats[k].subs[j]) in Toggled(items, cats, k, true)
  {
    var c := cats[k];
    var e := Expanded(items, c.name, c.subs);
    NotASubItem(c.name, c.subs);
    assert Count(e, c.name) == 0;
    ReorderedContents(e, cats);
    FlattenContains(cats, k);
    forall j | 0 <= j < |c.subs|
      ensures SubItem(c.name, c.subs[j]) in Toggled(items, cats, k, true)
    {
      assert SubItems(c.name, c.subs)[j] == SubItem(c.name, c.subs[j]);
      assert SubItem(c.name, c.subs[j]) in CategoryItems(c);
    }
  }

  /**
   * Collapsing a category when each of its subcategory items is active at most
   * once: afterwards its name is active and none of its subcategory items is.
   */
  lemma CollapseRestoresCategory(items: seq<string>, cats: seq<Category>, k: nat)
    requires k < |cats|
    requires forall j :: 0 <= j < |cats[k].subs| ==> Count(items, SubItem(cats[k].name, cats[k].subs[j])) <= 1
    ensures cats[k].name in Toggled(items, cats, k, false)
    ensures forall j :: 0 <= j < |cats[k].subs| ==> SubItem(cats[k].name, cats[k].subs[j]) !in Toggled(items, cats, k, false)
  {
    var c := cats[k];
    var s := items + [c.name];
    var d := Collapsed(items, c.name, c.subs);
    NotASubItem(c.name, c.subs);
    CountSnoc(items, c.name, c.name);
    assert Count(d, c.name) == Count(s, c.name);
    ReorderedContents(d, cats);
    FlattenContains(cats, k);
    forall j | 0 <= j < |c.subs|
      ensures SubItem(c.name, c.subs[j]) !in d
    {
      var x := SubItem(c.name, c.subs[j]);
      assert SubItems(c.name, c.subs)[j] == x;
      SubItemDiffers(c.name, c.subs[j]);
      CountSnoc(items, c.name, x);
    }
  }

  /**
   * An item that is neither the toggled category nor one of its subcategory
   * items keeps its active status: it is active afterwards exactly when it was
   * active before and belongs to the panel.
   */
  lemma ToggleKeepsOthers(items: seq<string>, cats: seq<Category>, k: nat, checked: bool, x: string)
    requires k < |cats|
    requires x != cats[k].name && x !in SubItems(cats[k].name, cats[k].subs)
    ensures x in Toggled(items, cats, k, checked) <==> x in items && x in Flatten(cats)
  {
    var c := cats[k];
    var t := if checked then Expanded(items, c.name, c.subs) else Collapsed(items, c.name, c.subs);
    if checked {
      var rest := if c.name in items then RemoveFirst(items, c.name) else items;
      assert Count(rest, x) == Count(items, x);
    } else {
      CountSnoc(items, c.name, x);
    }
    assert Count(t, x) == Count(items, x);
    ReorderedContents(t, cats);
  }

  /** On a panel whose item names are all different, every toggle keeps the active list free of repeats. */
  lemma ToggledDistinct(items: seq<string>, cats: seq<Category>, k: nat, checked: bool)
    requires k < |cats| && Distinct(Flatten(cats))
    ensures Distinct(Toggled(items, cats, k, checked))
  {
    var c := cats[k];
    ReorderedContents(if checked then Expanded(items, c.name, c.subs) else Collapsed(items, c.name, c.subs), cats);
  }

  /** Different item names on the panel mean different main category names. */
  lemma {:induction false} FlattenDistinctNames(cats: seq<Category>)
    requires Distinct(Flatten(cats))
    ensures Distinct(Names(cats))
  {
    if cats != [] {
      var init, c := cats[..|cats| - 1], cats[|cats| - 1];
      DistinctAppend(Flatten(init), CategoryItems(c));
      FlattenDistinctNames(init);
      var n := Names(cats);
      forall i, j | 0 <= i < j < |n| ensures n[i] != n[j] {
        if j < |init| {
          assert n[i] == Names(init)[i] && n[j] == Names(init)[j];
        } else {
          FlattenContains(init, i);
          assert n[i] == init[i].name && init[i].name in CategoryItems(init[i]);
          assert n[j] == c.name && c.name in CategoryItems(c);
        }
      }
    }
  }

  /** The starting active list repeats nothing on such a panel. */
  lemma InitialActiveItemsDistinct(cats: seq<Category>)
    requires Distinct(Flatten(cats))
    ensures InitialActiveItems(cats).Some? ==> Distinct(InitialActiveItems(cats).value)
  {
    FlattenDistinctNames(cats);
  }

  /**
   * On an active list without repeats, which is every list the panel reaches
   * when its item names are distinct, expanding removes the category's name and
   * activates its subcategory items, and collapsing does the reverse.
   */
  lemma ToggleOnDistinctItems(items: seq<string>, cats: seq<Category>, k: nat)
    requires k < |cats| && Distinct(items)
    ensures cats[k].name !in Toggled(items, cats, k, true)
    ensures forall j :: 0 <= j < |cats[k].subs| ==> SubItem(cats[k].name, cats[k].subs[j]) in Toggled(items, cats, k, true)
    ensures cats[k].name in Toggled(items, cats, k, false)
    ensures forall j :: 0 <= j < |cats[k].subs| ==> SubItem(cats[k].name, cats[k].subs[j]) !in Toggled(items, cats, k, false)
  {
    DistinctCountAtMostOne(items, cats[k].name);
    ExpandRemovesCategory(items, cats, k);
    forall j | 0 <= j < |cats[k].subs| ensures Count(items, SubItem(cats[k].name, cats[k].subs[j])) <= 1 {
      DistinctCountAtMostOne(items, SubItem(cats[k].name, cats[k].subs[j]));
    }
    CollapseRestoresCategory(items, cats, k);
  }

  lemma {:induction false} ExtendMissingPrefix(s: seq<string>, add: seq<string>, j: nat)
    requires j < |add|
    ensures var r := ExtendMissing(s, add[..j]);
      ExtendMissing(s, add[..j + 1]) == if add[j] in r then r else r + [add[j]]
  {
    assert add[..j + 1][..j] == add[..j];
  }

  lemma {:induction false} RemoveEachPrefix(s: seq<string>, rm: seq<string>, j: nat)
    requires j < |rm|
    ensures var r := RemoveEach(s, rm[..j]);
      RemoveEach(s, rm[..j + 1]) == if rm[j] in r then RemoveFirst(r, rm[j]) else r
  {
    assert rm[..j + 1][..j] == rm[..j];
  }

  lemma {:induction false} ReorderedPrefix(items: seq<string>, cats: seq<Category>, i: nat)
    requires i < |cats|
    ensures Reordered(items, cats[..i + 1])
         == Reordered(items, cats[..i]) + (if cats[i].name in items then [cats[i].name] else [])
            + KeepIn(SubItems(cats[i].name, cats[i].subs), items)
  {
    PrefixSnoc(cats, i);
    ReorderedByCategory(items, cats[..i], cats[i]);
  }

  lemma {:induction false} KeepInPrefix(s: seq<string>, j: nat, items: seq<string>)
    requires j < |s|
    ensures KeepIn(s[..j + 1], items) == KeepIn(s[..j], items) + (if s[j] in items then [s[j]] else [])
  {
    PrefixSnoc(s, j);
    KeepInSnoc(s[..j], s[j], items);
  }

  /** The module-level `activeItems` list, which the button callbacks edit in place. */
  class ActiveItems {
    var items: seq<string>

    constructor (initial: seq<string>)
      ensures items == initial
    {
      items := initial;
    }

    /** `reorder_active_items(activeItems, categoryList)`, ending in `activeItems[:] = ...`. */
    method ReorderActiveItems(categoryList: seq<Category>)
      modifies this
      ensures items == Reordered(old(items), categoryList)
    {
      var active := items;
      var orderedActiveItems: seq<string> := [];
      for i := 0 to |categoryList|
        invariant orderedActiveItems == Reordered(active, categoryList[..i])
      {
        var c := categoryList[i];
        ReorderedPrefix(active, categoryList, i);
        if c.name in active {
          orderedActiveItems := orderedActiveItems + [c.name];
        }
        ghost var before := orderedActiveItems;
        ghost var subItems := SubItems(c.name, c.subs);
        for j := 0 to |c.subs|
          invariant orderedActiveItems == before + KeepIn(subItems[..j], active)
        {
          var subItem := SubItem(c.name, c.subs[j]);
          KeepInPrefix(subItems, j, active);
          assert subItems[j] == subItem;
          if subItem in active {
            orderedActiveItems := orderedActiveItems + [subItem];
            assert orderedActiveItems == before + (KeepIn(subItems[..j], active) + [subItem]);
          }
        }
        assert subItems[..|c.subs|] == subItems;
      }
      assert categoryList[..|categoryList|] == categoryList;
      items := orderedActiveItems;
    }

    /**
     * `toggle_subcat` for category `k` of `categoryList`: expanding drops the
     * category's own name and adds its missing subcategory items; collapsing
     * appends the name and removes each subcategory item once; both end by
     * reordering.
     */
    method ToggleSubcat(checked: bool, k: nat, categoryList: seq<Category>)
      requires k < |categoryList|
      modifies this
      ensures items == Toggled(old(items), categoryList, k, checked)
    {
      var categoryName, subcategories := categoryList[k].name, categoryList[k].subs;
      var active := items;
      var add := SubItems(categoryName, subcategories);
      if checked {
        if categoryName in active {
          active := RemoveFirst(active, categoryName);
        }
        ghost var rest := active;
        for j := 0 to |subcategories|
          invariant active == ExtendMissing(rest, add[..j])
        {
          var subItem := SubItem(categoryName, subcategories[j]);
          ExtendMissingPrefix(rest, add, j);
          if subItem !in active {
            active := active + [subItem];
          }
        }
        assert add[..|subcategories|] == add;
      } else {
        active := active + [categoryName];
        ghost var start := active;
        for j := 0 to |subcategories|
          invariant active == RemoveEach(start, add[..j])
        {
          var subItem := SubItem(categoryName, subcategories[j]);
          RemoveEachPrefix(start, add, j);
          if subItem in active {
            active := RemoveFirst(active, subItem);
          }
        }
        assert add[..|subcategories|] == add;
      }
      items := active;
      ReorderActiveItems(categoryList);
    }
  }

  // ----- the panels' dicts (create_layout, cat_layout) -----

  /** What a button group reports: the checked button's text and severity value. */
  datatype Choice = Choice(text: string, value: real)

  /** One entry of the severity list: text, value and colour of a button. */
  datatype Severity = Severity(text: string, value: real, colour: string)

  /**
   * A dict from item name to button group: its keys in insertion order and the
   * choice each group reports.
   */
  datatype GroupDict = GroupDict(keys: seq<string>, sel: map<string, Option<Choice>>)

  ghost predicate WellFormed(d: GroupDict)
  {
    Distinct(d.keys) && forall k :: k in d.sel <==> k in d.keys
  }

  const EmptyGroup := GroupDict([], map[])

  /** `d[k] = v`: a new key goes to the end, an existing key keeps its place. */
  function Put(d: GroupDict, k: string, v: Option<Choice>): (r: GroupDict)
    requires WellFormed(d)
    ensures WellFormed(r) && r.sel == d.sel[k := v]
    ensures k in d.sel ==> r.keys == d.keys
    ensures k !in d.sel ==> r.keys == d.keys + [k]
  {
    if k in d.sel then GroupDict(d.keys, d.sel[k := v]) else GroupDict(d.keys + [k], d.sel[k := v])
  }

  function PutAll(d: GroupDict, ks: seq<string>, v: Option<Choice>): (r: GroupDict)
    requires WellFormed(d)
    ensures WellFormed(r)
  {
    if ks == [] then d else Put(PutAll(d, ks[..|ks| - 1], v), ks[|ks| - 1], v)
  }

  lemma PutAllSnoc(d: GroupDict, ks: seq<string>, k: string, v: Option<Choice>)
    requires WellFormed(d)
    ensures PutAll(d, ks + [k], v) == Put(PutAll(d, ks, v), k, v)
  {
    assert (ks + [k])[..|ks + [k]| - 1] == ks;
  }

  /**
   * Filling an empty dict with one group per key: the dict's keys are the keys
   * in first-seen order, and every group reports the same choice.
   */
  lemma {:induction false} PutAllFromEmpty(ks: seq<string>, v: Option<Choice>)
    ensures PutAll(EmptyGroup, ks, v).keys == Dedup(ks)
    ensures forall k :: k in PutAll(EmptyGroup, ks, v).sel ==> PutAll(EmptyGroup, ks, v).sel[k] == v
  {
    if ks != [] {
      var init, k := ks[..|ks| - 1], ks[|ks| - 1];
      PutAllFromEmpty(init, v);
      assert ks == init + [k];
      DedupSnoc(init, k);
    }
  }

  /**
   * The keys `cat_layout` inserts for one category: the stripped name, then
   * `"<stripped name> - <sub>"` for each subcategory.
   */
  function CategoryKeys(c: Category): (r: seq<string>)
    ensures |r| == |c.subs| + 1 && r[0] == Text.Strip(c.name)
    ensures forall j :: 0 <= j < |c.subs| ==> r[j + 1] == SubItem(Text.Strip(c.name), c.subs[j])
  {
    [Text.Strip(c.name)] + SubItems(Text.Strip(c.name), c.subs)
  }

  function LayoutKeys(cats: seq<Category>): seq<string>
  {
    if cats == [] then [] else LayoutKeys(cats[..|cats| - 1]) + CategoryKeys(cats[|cats| - 1])
  }

  /** The choice a fresh button group reports: its first button is checked. */
  function DefaultChoice(severityList: seq<Severity>): (v: Option<Choice>)
    ensures v.None? <==> severityList == []
  {
    if severityList == [] then None else Some(Choice(severityList[0].text, severityList[0].value))
  }

  /** One panel's dict once `cat_layout` is done. */
  function LayoutGroup(cats: seq<Category>, severityList: seq<Severity>): GroupDict
  {
    PutAll(EmptyGroup, LayoutKeys(cats), DefaultChoice(severityList))
  }

  /**
   * Every panel's dict holds one group per distinct key, in first-seen order,
   * and each reports the first severity as checked.
   */
  lemma LayoutGroupShape(cats: seq<Category>, severityList: seq<Severity>)
    ensures LayoutGroup(cats, severityList).keys == Dedup(LayoutKeys(cats))
    ensures forall k :: k in LayoutGroup(cats, severityList).sel ==>
      LayoutGroup(cats, severityList).sel[k] == DefaultChoice(severityList)
  {
    PutAllFromEmpty(LayoutKeys(cats), DefaultChoice(severityList));
  }

  /** `buttonGroups[key] = buttonGroup` for each panel in turn. */
  method PutEach(groups: seq<GroupDict>, key: string, v: Option<Choice>) returns (r: seq<GroupDict>)
    requires forall g :: 0 <= g < |groups| ==> WellFormed(groups[g])
    ensures |r| == |groups| && forall g :: 0 <= g < |r| ==> r[g] == Put(groups[g], key, v)
  {
    r := [];
    for g := 0 to |groups|
      invariant |r| == g && forall i :: 0 <= i < g ==> r[i] == Put(groups[i], key, v)
    {
      r := r + [Put(groups[g], key, v)];
    }
  }

  lemma {:induction false} PutAllAppend(d: GroupDict, a: seq<string>, b: seq<string>, v: Option<Choice>)
    requires WellFormed(d)
    ensures PutAll(d, a + b, v) == PutAll(PutAll(d, a, v), b, v)
    decreases |b|
  {
    if b == [] {
      assert a + b == a;
    } else {
      var b', k := b[..|b| - 1], b[|b| - 1];
      var e := PutAll(d, a, v);
      assert a + b == (a + b') + [k];
      assert b == b' + [k];
      calc {
        PutAll(d, a + b, v);
        { PutAllSnoc(d, a + b', k, v); }
        Put(PutAll(d, a + b', v), k, v);
        { PutAllAppend(d, a, b', v); }
        Put(PutAll(e, b', v), k, v);
        { PutAllSnoc(e, b', k, v); }
        PutAll(e, b, v);
      }
    }
  }

  /**
   * The groups of one category in every panel: its own (the label text gets a
   * leading blank when it has no subcategories, the key is stripped), then one
   * per subcategory, keyed under the stripped parent name.
   */
  method LayoutCategory(groups: seq<GroupDict>, c: Category, v: Option<Choice>) returns (r: seq<GroupDict>)
    requires forall g :: 0 <= g < |groups| ==> WellFormed(groups[g])
    ensures |r| == |groups| && forall g :: 0 <= g < |r| ==> r[g] == PutAll(groups[g], CategoryKeys(c), v)
  {
    var categoryName := c.name;
    if c.subs == [] {
      categoryName := " " + categoryName;
      Text.StripLeadingSpace(c.name);
    }
    var key := Text.Strip(categoryName);
    var ks := CategoryKeys(c);
    forall g | 0 <= g < |groups|
      ensures Put(groups[g], key, v) == PutAll(groups[g], ks[..1], v)
    {
      assert ks[..1] == [] + [key];
      PutAllSnoc(groups[g], [], key, v);
    }
    r := PutEach(groups, key, v);
    for j := 0 to |c.subs|
      invariant |r| == |groups|
      invariant forall g :: 0 <= g < |r| ==> r[g] == PutAll(groups[g], ks[..j + 1], v)
    {
      var subKey := SubItem(key, c.subs[j]);
      PrefixSnoc(ks, j + 1);
      forall g | 0 <= g < |r|
        ensures Put(r[g], subKey, v) == PutAll(groups[g], ks[..j + 2], v)
      {
        PutAllSnoc(groups[g], ks[..j + 1], subKey, v);
      }
      r := PutEach(r, subKey, v);
    }
    assert ks[..|c.subs| + 1] == ks;
  }

  /**
   * The loop of `cat_layout` over the normalised categories: record every main
   * category as active when `activeItems` is kept, and insert the groups of each
   * category and of its subcategories into every panel's dict.
   */
  method LayoutCategories(buttonGroupsList: seq<GroupDict>, cats: seq<Category>, v: Option<Choice>, keepActive: bool)
    returns (groups: seq<GroupDict>, activeItems: Option<seq<string>>)
    requires forall g :: 0 <= g < |buttonGroupsList| ==> WellFormed(buttonGroupsList[g])
    ensures |groups| == |buttonGroupsList|
    ensures forall g :: 0 <= g < |groups| ==> groups[g] == PutAll(buttonGroupsList[g], LayoutKeys(cats), v)
    ensures activeItems == if keepActive then Some(Names(cats)) else None
  {
    activeItems := if keepActive then Some([]) else None;
    groups := buttonGroupsList;
    for i := 0 to |cats|
      invariant |groups| == |buttonGroupsList|
      invariant forall g :: 0 <= g < |groups| ==> groups[g] == PutAll(buttonGroupsList[g], LayoutKeys(cats[..i]), v)
      invariant activeItems == if keepActive then Some(Names(cats[..i])) else None
    {
      var c := cats[i];
      PrefixSnoc(cats, i);
      assert cats[..i + 1][..i] == cats[..i];
      assert Names(cats[..i + 1]) == Names(cats[..i]) + [c.name];
      if activeItems.Some? {
        activeItems := Some(activeItems.value + [c.name]);
      }
      ghost var before := groups;
      forall g | 0 <= g < |groups|
        ensures PutAll(before[g], CategoryKeys(c), v) == PutAll(buttonGroupsList[g], LayoutKeys(cats[..i + 1]), v)
      {
        PutAllAppend(buttonGroupsList[g], LayoutKeys(cats[..i]), CategoryKeys(c), v);
      }
      groups := LayoutCategory(groups, c, v);
    }
    assert cats[..|cats|] == cats;
  }

  /**
   * `cat_layout` without its widgets: normalise the category list, keep
   * `activeItems` only when some category has subcategories, and fill the dicts.
   */
  method CatLayout(buttonGroupsList: seq<GroupDict>, categoryList: CategoryList, severityList: seq<Severity>)
    returns (groups: seq<GroupDict>, activeItems: Option<seq<string>>)
    requires forall g :: 0 <= g < |buttonGroupsList| ==> WellFormed(buttonGroupsList[g])
    ensures |groups| == |buttonGroupsList|
    ensures forall g :: 0 <= g < |groups| ==>
      groups[g] == PutAll(buttonGroupsList[g], LayoutKeys(Normalise(categoryList)), DefaultChoice(severityList))
    ensures activeItems == InitialActiveItems(Normalise(categoryList))
  {
    var cats := Normalise(categoryList);
    groups, activeItems := LayoutCategories(buttonGroupsList, cats, DefaultChoice(severityList), HasSubcategories(cats));
  }

  /**
   * `create_layout`: `numButtonGroups` empty dicts, filled by `cat_layout`; every
   * panel ends up with the same dict.
   */
  method CreateLayout(severityList: seq<Severity>, categoryList: CategoryList, numButtonGroups: nat)
    returns (buttonGroupsList: seq<GroupDict>, activeItems: Option<seq<string>>)
    ensures |buttonGroupsList| == numButtonGroups
    ensures forall g :: 0 <= g < numButtonGroups ==>
      buttonGroupsList[g] == LayoutGroup(Normalise(categoryList), severityList)
    ensures activeItems == InitialActiveItems(Normalise(categoryList))
  {
    var empty := seq(numButtonGroups, _ => EmptyGroup);
    buttonGroupsList, activeItems := CatLayout(empty, categoryList, severityList);
  }

  // ----- display_results -----

  /** `[idx + 1, item, severityLabel, severityValue]`. */
  datatype Selection = Selection(group: nat, item: string, severityText: string, severityValue: real)

  /** `activeItems or buttonGroups.keys()`. */
  function ItemsToRead(d: GroupDict, activeItems: Option<seq<string>>): seq<string>
  {
    if activeItems.Some? && activeItems.value != [] then activeItems.value else d.keys
  }

  /** The rows one panel contributes, for the given items in order. */
  function PanelRows(group: nat, d: GroupDict, items: seq<string>): (r: seq<Selection>)
    ensures forall i :: 0 <= i < |r| ==>
      r[i].group == group && r[i].item in items
      && r[i].item in d.sel && d.sel[r[i].item] == Some(Choice(r[i].severityText, r[i].severityValue))
  {
    if items == [] then []
    else
      var rest := PanelRows(group, d, items[..|items| - 1]);
      var item := items[|items| - 1];
      if item in d.sel && d.sel[item].Some? then rest + [Selection(group, item, d.sel[item].value.text, d.sel[item].value.value)]
      else rest
  }

  /** Everything `display_results` returns, panel by panel (groups numbered from 1). */
  function Results(buttonGroupsList: seq<GroupDict>, activeItems: Option<seq<string>>): (r: seq<Selection>)
    ensures forall i :: 0 <= i < |r| ==> 1 <= r[i].group <= |buttonGroupsList|
  {
    if buttonGroupsList == [] then []
    else
      var n := |buttonGroupsList|;
      Results(buttonGroupsList[..n - 1], activeItems)
      + PanelRows(n, buttonGroupsList[n - 1], ItemsToRead(buttonGroupsList[n - 1], activeItems))
  }

  lemma PanelRowsSnoc(group: nat, d: GroupDict, items: seq<string>, item: string)
    ensures PanelRows(group, d, items + [item])
         == PanelRows(group, d, items)
            + (if item in d.sel && d.sel[item].Some?
               then [Selection(group, item, d.sel[item].value.text, d.sel[item].value.value)] else [])
  {
    assert (items + [item])[..|items + [item]| - 1] == items;
  }

  /** Every item to be read that has a checked button produces a row. */
  lemma {:induction false} PanelRowsComplete(group: nat, d: GroupDict, items: seq<string>, item: string)
    requires item in items && item in d.sel && d.sel[item].Some?
    ensures Selection(group, item, d.sel[item].value.text, d.sel[item].value.value) in PanelRows(group, d, items)
  {
    var init, last := items[..|items| - 1], items[|items| - 1];
    assert items == init + [last];
    PanelRowsSnoc(group, d, init, last);
    if last != item {
      PanelRowsComplete(group, d, init, item);
    }
  }

  /**
   * Each row names a panel, an item that was read and is in that panel's dict,
   * and the text and value its group reports; and every read item with a
   * checked button in panel `g` yields the row `[g + 1, item, text, value]`.
   */
  lemma {:induction false} ResultsRows(buttonGroupsList: seq<GroupDict>, activeItems: Option<seq<string>>, g: nat, item: string)
    requires g < |buttonGroupsList|
    requires item in ItemsToRead(buttonGroupsList[g], activeItems)
    requires item in buttonGroupsList[g].sel && buttonGroupsList[g].sel[item].Some?
    ensures var c := buttonGroupsList[g].sel[item].value;
      Selection(g + 1, item, c.text, c.value) in Results(buttonGroupsList, activeItems)
  {
    var n := |buttonGroupsList|;
    var init := buttonGroupsList[..n - 1];
    var c := buttonGroupsList[g].sel[item].value;
    var row := Selection(g + 1, item, c.text, c.value);
    var earlier := Results(init, activeItems);
    var last := PanelRows(n, buttonGroupsList[n - 1], ItemsToRead(buttonGroupsList[n - 1], activeItems));
    assert Results(buttonGroupsList, activeItems) == earlier + last;
    if g == n - 1 {
      PanelRowsComplete(n, buttonGroupsList[g], ItemsToRead(buttonGroupsList[g], activeItems), item);
      assert row in last;
    } else {
      assert init[g] == buttonGroupsList[g];
      ResultsRows(init, activeItems, g, item);
      assert row in earlier;
    }
  }

  lemma ResultsPrefix(buttonGroupsList: seq<GroupDict>, activeItems: Option<seq<string>>, idx: nat)
    requires idx < |buttonGroupsList|
    ensures Results(buttonGroupsList[..idx + 1], activeItems)
         == Results(buttonGroupsList[..idx], activeItems)
            + PanelRows(idx + 1, buttonGroupsList[idx], ItemsToRead(buttonGroupsList[idx], activeItems))
  {
    assert buttonGroupsList[..idx + 1][..idx] == buttonGroupsList[..idx];
  }

  lemma PanelRowsPrefix(group: nat, d: GroupDict, items: seq<string>, i: nat)
    requires i < |items|
    ensures PanelRows(group, d, items[..i + 1])
         == PanelRows(group, d, items[..i])
            + (if items[i] in d.sel && d.sel[items[i]].Some?
               then [Selection(group, items[i], d.sel[items[i]].value.text, d.sel[items[i]].value.value)] else [])
  {
    PrefixSnoc(items, i);
    PanelRowsSnoc(group, d, items[..i], items[i]);
  }

  /** The inner loop of `display_results`: the checked items of one panel, in reading order. */
  method PanelSelections(group: nat, buttonGroups: GroupDict, items: seq<string>) returns (rows: seq<Selection>)
    ensures rows == PanelRows(group, buttonGroups, items)
  {
    rows := [];
    for i := 0 to |items|
      invariant rows == PanelRows(group, buttonGroups, items[..i])
    {
      var item := items[i];
      PanelRowsPrefix(group, buttonGroups, items, i);
      if item in buttonGroups.sel {
        var selectedButton := buttonGroups.sel[item];
        if selectedButton.Some? {
          rows := rows + [Selection(group, item, selectedButton.value.text, selectedButton.value.value)];
        }
      }
    }
    assert items[..|items|] == items;
  }

  /** `display_results(buttonGroupsList, activeItems)`. */
  method DisplayResults(buttonGroupsList: seq<GroupDict>, activeItems: Option<seq<string>>) returns (returnValue: seq<Selection>)
    ensures returnValue == Results(buttonGroupsList, activeItems)
  {
    returnValue := [];
    for idx := 0 to |buttonGroupsList|
      invariant returnValue == Results(buttonGroupsList[..idx], activeItems)
    {
      var buttonGroups := buttonGroupsList[idx];
      var items := ItemsToRead(buttonGroups, activeItems);
      ResultsPrefix(buttonGroupsList, activeItems, idx);
      var rows := PanelSelections(idx + 1, buttonGroups, items);
      returnValue := returnValue + rows;
    }
    assert buttonGroupsList[..|buttonGroupsList|] == buttonGroupsList;
  }
}
