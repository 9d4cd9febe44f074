/** Which labels a CPI stack can show at all, and whether one of them gets lost. */
module StackLabels {
  import opened BuildStack

  /** What is measured is not negative. */
  ghost predicate NonNegative(values: Values)
  {
    forall k <- values :: values[k] >= 0.0
  }

  predicate HasFresh(keys: seq<string>, taken: set<string>)
  {
    exists k :: k in keys && k !in taken
  }

  /** The titles of leaves that have a key which no leaf before them takes, and of the groups around such leaves. */
  function Live(prefix: string, items: seq<Item>, taken: set<string>): (r: seq<string>)
    decreases items
  {
    if items == [] then [] else LiveOf(prefix, items[0], taken) + Live(prefix, items[1..], taken + KeysOfItem(items[0]))
  }

  function LiveOf(prefix: string, item: Item, taken: set<string>): (r: seq<string>)
    decreases item
  {
    match item.what
    case Keys(keys) => if HasFresh(keys, taken) then [prefix + item.name] else []
    case Sub(items) =>
      var inner := Live(prefix + item.name + "-", items, taken);
      if inner == [] then [] else [prefix + item.name] + inner
  }

  // ---------------------------------------------------------------- only live titles are shown

  lemma {:induction false} SumNonNegative(values: Values)
    requires NonNegative(values)
    ensures Sum(values) >= 0.0
    decreases |values|
  {
    if values != map[] {
      var k :| k in values && Sum(values) == values[k] + Sum(values - {k});
      SumNonNegative(values - {k});
    }
  }

  lemma {:induction false} TakesNothing(keys: seq<string>, values: Values)
    requires forall k <- keys :: k !in values
    ensures TakeKeys(keys, values) == Taken(0.0, values)
  {
    if keys != [] {
      assert keys[0] in keys && forall k <- keys[1..] :: k in keys;
      TakesNothing(keys[1..], values);
    }
  }

  lemma ZeroIsSmall(scale: real, threshold: real)
    requires scale > 0.0 && threshold >= 0.0
    ensures Small(0.0, scale, threshold, false)
  {
  }

  lemma {:induction false} ShownIsLive(prefix: string, items: seq<Item>, values: Values, scale: real, taken: set<string>)
    requires scale > 0.0 && AtLeast(items, 0.0) && values.Keys !! taken
    ensures var s, live := GetItems(prefix, items, values, scale, false), Live(prefix, items, taken);
            Among(Titles(s.res), live) && (live == [] ==> s.total == 0.0)
    decreases items
  {
    hide Visit, LiveOf, Titles;
    if items == [] {
      NoTitles();
    } else {
      ItemShownIsLive(prefix, items[0], values, scale, taken);
      var first := Visit(prefix, items[0], values, scale, false);
      VisitLeaves(prefix, items[0], values, scale, false);
      ShownIsLive(prefix, items[1..], first.left, scale, taken + KeysOfItem(items[0]));
      TitlesConcat(first.res, GetItems(prefix, items[1..], first.left, scale, false).res);
    }
  }

  lemma NoTitles()
    ensures Titles([]) == []
  {
  }

  lemma {:induction false} ItemShownIsLive(prefix: string, item: Item, values: Values, scale: real, taken: set<string>)
    requires scale > 0.0 && item.threshold >= 0.0 && (item.what.Sub? ==> AtLeast(item.what.items, 0.0)) && values.Keys !! taken
    ensures var s, live := Visit(prefix, item, values, scale, false), LiveOf(prefix, item, taken);
            Among(Titles(s.res), live) && (live == [] ==> s.total == 0.0)
    decreases item
  {
    hide GetItems, TakeKeys, Live, Small;
    ZeroIsSmall(scale, item.threshold);
    var title := prefix + item.name;
    match item.what
    case Sub(items) => ShownIsLive(title + "-", items, values, scale, taken);
    case Keys(keys) =>
      if !HasFresh(keys, taken) {
        TakesNothing(keys, values);
      }
  }

  // ---------------------------------------------------------------- every live title can be shown

  function Unit(k: string): (m: Values)
  {
    map[k := 1.0]
  }

  lemma UnitSum(k: string)
    ensures Sum(NONE) == 0.0 && Sum(Unit(k)) == 1.0
  {
    SumAt(Unit(k), k);
    assert Unit(k) - {k} == NONE;
  }

  /** The one value that is measured goes to whoever has its key. */
  lemma UnitTaken(prefix: string, item: Item, k: string)
    ensures var s := Visit(prefix, item, Unit(k), 1.0, false);
            if k in KeysOfItem(item) then s.total == 1.0 && s.left == NONE else s.total == 0.0 && s.left == Unit(k)
  {
    hide Visit, Sum;
    UnitSum(k);
    VisitConserves(prefix, item, Unit(k), 1.0, false);
    VisitLeaves(prefix, item, Unit(k), 1.0, false);
    assert Unit(k) - KeysOfItem(item) == if k in KeysOfItem(item) then NONE else Unit(k);
  }

  lemma UnitTotal(prefix: string, items: seq<Item>, k: string)
    requires k in KeysOf(items)
    ensures GetItems(prefix, items, Unit(k), 1.0, false).total == 1.0
  {
    hide GetItems, Sum;
    UnitSum(k);
    GetItemsConserves(prefix, items, Unit(k), 1.0, false);
    GetItemsLeaves(prefix, items, Unit(k), 1.0, false);
    assert Unit(k) - KeysOf(items) == NONE;
  }

  lemma {:induction false} ThresholdAtLeast(items: seq<Item>, th: real)
    requires th >= 0.0
    ensures AtLeast(WithThreshold(items, th), 0.0)
    decreases items
  {
    if items != [] {
      ItemAtLeast(items[0], th);
      ThresholdAtLeast(items[1..], th);
      AtLeastCons(ItemWithThreshold(items[0], th), WithThreshold(items[1..], th));
    }
  }

  lemma {:induction false} ItemAtLeast(item: Item, th: real)
    requires th >= 0.0
    ensures var it := ItemWithThreshold(item, th); it.threshold >= 0.0 && (it.what.Sub? ==> AtLeast(it.what.items, 0.0))
    decreases item
  {
    if item.what.Sub? {
      ThresholdAtLeast(item.what.items, th);
    }
  }

  lemma AtLeastCons(item: Item, items: seq<Item>)
    requires item.threshold >= 0.0 && (item.what.Sub? ==> AtLeast(item.what.items, 0.0)) && AtLeast(items, 0.0)
    ensures AtLeast([item] + items, 0.0)
  {
  }

  /** With thresholds at 1, one measured value of 1 is too small everywhere. */
  lemma {:induction false} HighHides(prefix: string, items: seq<Item>, k: string)
    ensures GetItems(prefix, WithThreshold(items, 1.0), Unit(k), 1.0, false).res == []
    ensures GetItems(prefix, WithThreshold(items, 1.0), NONE, 1.0, false).res == []
    decreases items
  {
    hide Visit, ItemWithThreshold;
    if items != [] {
      var it := ItemWithThreshold(items[0], 1.0);
      UnitTaken(prefix, it, k);
      NothingTaken(prefix, it, false);
      HighHidesItem(prefix, items[0], k);
      HighHides(prefix, items[1..], k);
      assert WithThreshold(items, 1.0)[1..] == WithThreshold(items[1..], 1.0);
    }
  }

  lemma HighHidesItem(prefix: string, item: Item, k: string)
    ensures var it := ItemWithThreshold(item, 1.0);
            Visit(prefix, it, Unit(k), 1.0, false).res == [] && Visit(prefix, it, NONE, 1.0, false).res == []
  {
    var it := ItemWithThreshold(item, 1.0);
    UnitTaken(prefix, it, k);
    NothingTaken(prefix, it, false);
    SmallIsHidden(prefix, it, Unit(k));
    SmallIsHidden(prefix, it, NONE);
  }

  lemma SmallIsHidden(prefix: string, item: Item, values: Values)
    requires Visit(prefix, item, values, 1.0, false).total <= item.threshold
    ensures Visit(prefix, item, values, 1.0, false).res == []
  {
    hide GetItems, TakeKeys;
  }

  lemma {:induction false} SameKeysOf(items: seq<Item>, other: seq<Item>)
    requires SameShape(items, other)
    ensures KeysOf(items) == KeysOf(other)
    decreases items
  {
    if items != [] {
      assert SameItem(items[0], other[0]);
      SameKeysOfItem(items[0], other[0]);
      SameKeysOf(items[1..], other[1..]);
    }
  }

  lemma {:induction false} SameKeysOfItem(item: Item, other: Item)
    requires SameItem(item, other)
    ensures KeysOfItem(item) == KeysOfItem(other)
    decreases item
  {
    if item.what.Sub? {
      SameKeysOf(item.what.items, other.what.items);
    }
  }

  /** Non-negative thresholds and one measured value with which a given live title is shown. */
  lemma {:induction false} LiveShown(prefix: string, items: seq<Item>, taken: set<string>, l: string)
    returns (other: seq<Item>, k: string)
    requires l in Live(prefix, items, taken)
    ensures SameShape(items, other) && AtLeast(other, 0.0) && k in KeysOf(items) && k !in taken
    ensures l in Titles(GetItems(prefix, other, Unit(k), 1.0, false).res)
    decreases items
  {
    hide Visit, Titles, LiveOf, SameItem, AtLeast, WithThreshold, ItemWithThreshold, KeysOfItem;
    var it, rest;
    if l in LiveOf(prefix, items[0], taken) {
      it, k := LiveShownItem(prefix, items[0], taken, l);
      rest := WithThreshold(items[1..], 0.0);
      ThresholdAtLeast(items[1..], 0.0);
      ThresholdShape(items[1..], 0.0);
    } else {
      it := ItemWithThreshold(items[0], 0.0);
      ItemAtLeast(items[0], 0.0);
      ItemThresholdShape(items[0], 0.0);
      rest, k := LiveShown(prefix, items[1..], taken + KeysOfItem(items[0]), l);
    }
    other := [it] + rest;
    ShapeCons(items[0], it, items[1..], rest);
    AtLeastCons(it, rest);
    assert items == [items[0]] + items[1..];
    SameKeysOfItem(items[0], it);
    UnitTaken(prefix, it, k);
    ShownIn(prefix, it, rest, k, l);
  }

  lemma ShownIn(prefix: string, it: Item, rest: seq<Item>, k: string, l: string)
    requires k in KeysOfItem(it) ==> l in Titles(Visit(prefix, it, Unit(k), 1.0, false).res)
    requires k !in KeysOfItem(it) ==> l in Titles(GetItems(prefix, rest, Unit(k), 1.0, false).res)
    ensures l in Titles(GetItems(prefix, [it] + rest, Unit(k), 1.0, false).res)
  {
    hide Visit, Titles, KeysOfItem;
    UnitTaken(prefix, it, k);
    var first := Visit(prefix, it, Unit(k), 1.0, false);
    assert ([it] + rest)[0] == it && ([it] + rest)[1..] == rest;
    TitlesConcat(first.res, GetItems(prefix, rest, first.left, 1.0, false).res);
  }

  lemma {:induction false} LiveShownItem(prefix: string, item: Item, taken: set<string>, l: string)
    returns (other: Item, k: string)
    requires l in LiveOf(prefix, item, taken)
    ensures SameItem(item, other) && other.threshold >= 0.0 && (other.what.Sub? ==> AtLeast(other.what.items, 0.0))
    ensures k in KeysOfItem(item) && k !in taken
    ensures l in Titles(Visit(prefix, other, Unit(k), 1.0, false).res)
    decreases item
  {
    hide GetItems, TakeKeys, Live, SameShape, KeysOf, AtLeast;
    match item.what
    case Keys(keys) =>
      k :| k in keys && k !in taken;
      other := Item(item.name, 0.0, item.what);
      UnitTaken(prefix, other, k);
      assert Titles([Entry(l, 1.0)])[0] == l;
    case Sub(items) =>
      var inner, subs := prefix + item.name + "-", [];
      var live := Live(inner, items, taken);
      if l == prefix + item.name {
        subs, k := LiveShown(inner, items, taken, live[0]);
        subs := WithThreshold(items, 1.0);
        ThresholdAtLeast(items, 1.0);
        ThresholdShape(items, 1.0);
        HighHides(inner, items, k);
        assert Titles([Entry(l, 1.0)])[0] == l;
      } else {
        subs, k := LiveShown(inner, items, taken, l);
      }
      other := Item(item.name, 0.0, Sub(subs));
      SameKeysOf(items, subs);
      UnitTotal(inner, subs, k);
  }

  /** With collapsing, whatever is measured and wherever the thresholds are, as long as nothing is negative: no label
      is lost if and only if the full titles of all live leaves and groups are among the names. */
  lemma SensibleExact(items: seq<Item>)
    ensures (forall other, values :: SameShape(items, other) && AtLeast(other, 0.0) && NonNegative(values) ==> LosesNothing(other, values))
            <==> Among(Live("", items, {}), AllNames(items))
  {
    hide GetItems, Sum, GetNames, Merged, Live, SameShape, AtLeast;
    if Among(Live("", items, {}), AllNames(items)) {
      forall other, values | SameShape(items, other) && AtLeast(other, 0.0) && NonNegative(values)
        ensures LosesNothing(other, values)
      {
        SameNames(items, other, "");
        SameLive(items, other, "", {});
        SumNonNegative(values);
        ShownIsLive("", other, values, Scale(Sum(values)), {});
        MergedStarts(other, values, false);
      }
    }
    if forall other, values :: SameShape(items, other) && AtLeast(other, 0.0) && NonNegative(values) ==> LosesNothing(other, values) {
      forall l <- Live("", items, {})
        ensures l in AllNames(items)
      {
        var other, k := LiveShown("", items, {}, l);
        assert LosesNothing(other, Unit(k));
        SameNames(items, other, "");
        UnitSum(k);
        MergedStarts(other, Unit(k), false);
      }
    }
  }

  lemma {:induction false} SameLive(items: seq<Item>, other: seq<Item>, prefix: string, taken: set<string>)
    requires SameShape(items, other)
    ensures Live(prefix, items, taken) == Live(prefix, other, taken)
    decreases items
  {
    hide LiveOf, SameItem, KeysOfItem;
    if items != [] {
      assert SameItem(items[0], other[0]);
      SameKeysOfItem(items[0], other[0]);
      SameLiveOf(items[0], other[0], prefix, taken);
      SameLive(items[1..], other[1..], prefix, taken + KeysOfItem(items[0]));
    }
  }

  lemma {:induction false} SameLiveOf(item: Item, other: Item, prefix: string, taken: set<string>)
    requires SameItem(item, other)
    ensures LiveOf(prefix, item, taken) == LiveOf(prefix, other, taken)
    decreases item
  {
    if item.what.Sub? {
      SameLive(item.what.items, other.what.items, prefix + item.name + "-", taken);
    }
  }
}
