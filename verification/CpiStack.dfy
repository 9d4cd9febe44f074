/** Building CPI stacks step by step: dictionaries that shrink, lists that grow. */
module CpiStack {
  import opened BuildStack
  import opened Wrappers

  type Core = nat

  lemma JoinAssoc(a: Stack, b: Stack, c: Stack)
    ensures Join(Join(a, b), c) == Join(a, Join(b, c))
  {
    assert a.res + b.res + c.res == a.res + (b.res + c.res);
  }

  lemma GetItemsStep(prefix: string, items: seq<Item>, i: nat, values: Values, scale: real, noCollapse: bool)
    requires scale != 0.0 && i < |items|
    ensures var first := Visit(prefix, items[i], values, scale, noCollapse);
            GetItems(prefix, items[i..], values, scale, noCollapse) ==
            Join(first, GetItems(prefix, items[i + 1..], first.left, scale, noCollapse))
  {
    assert items[i..][1..] == items[i + 1..];
  }

  method TakeAll(keys: seq<string>, values: Values) returns (value: real, left: Values)
    ensures Taken(value, left) == TakeKeys(keys, values)
  {
    value, left := 0.0, values;
    for i := 0 to |keys|
      invariant var rest := TakeKeys(keys[i..], left); Taken(value + rest.value, rest.left) == TakeKeys(keys, values)
    {
      assert keys[i..][0] == keys[i] && keys[i..][1..] == keys[i + 1..];
      if keys[i] in left {
        value := value + left[keys[i]];
        left := left - {keys[i]};
      }
    }
  }

  /** get_items; the dictionary of values is passed in and handed back. */
  method MergeItems(prefix: string, items: seq<Item>, values: Values, scale: real, noCollapse: bool)
    returns (res: seq<Entry>, total: real, other: real, left: Values)
    requires scale != 0.0
    ensures Stack(res, total, other, left) == GetItems(prefix, items, values, scale, noCollapse)
    decreases items
  {
    hide GetItems, Visit;
    res, total, other, left := [], 0.0, 0.0, values;
    assert items[0..] == items;
    NothingYet(GetItems(prefix, items, values, scale, noCollapse), values);
    for i := 0 to |items|
      invariant Join(Stack(res, total, other, left), GetItems(prefix, items[i..], left, scale, noCollapse))
                == GetItems(prefix, items, values, scale, noCollapse)
    {
      ghost var was := Stack(res, total, other, left);
      ghost var first := Visit(prefix, items[i], left, scale, noCollapse);
      GetItemsStep(prefix, items, i, left, scale, noCollapse);
      JoinAssoc(was, first, GetItems(prefix, items[i + 1..], first.left, scale, noCollapse));
      var res', total', other' := MergeItem(prefix, items[i], left, scale, noCollapse);
      left := total'.left;
      res, total, other := res + res', total + total'.value, other + other';
    }
    assert items[|items|..] == [];
    NothingLeft(prefix, left, scale, noCollapse);
  }

  lemma NothingYet(s: Stack, values: Values)
    ensures Join(Stack([], 0.0, 0.0, values), s) == s
  {
    assert [] + s.res == s.res;
  }

  lemma NothingLeft(prefix: string, values: Values, scale: real, noCollapse: bool)
    requires scale != 0.0
    ensures GetItems(prefix, [], values, scale, noCollapse) == Stack([], 0.0, 0.0, values)
  {
  }

  /** One round of the loop in get_items. */
  method MergeItem(prefix: string, item: Item, values: Values, scale: real, noCollapse: bool)
    returns (res: seq<Entry>, total: Taken, other: real)
    requires scale != 0.0
    ensures Stack(res, total.value, other, total.left) == Visit(prefix, item, values, scale, noCollapse)
    decreases item
  {
    hide GetItems, TakeKeys;
    match item.what
    case Sub(items) =>
      var res', total', other', left := MergeItems(prefix + item.name + "-", items, values, scale, noCollapse);
      total := Taken(total', left);
      if total' / scale <= item.threshold && !noCollapse {
        res, other := [], total';
      } else if res' == [] && !noCollapse {
        res, other := [Entry(prefix + item.name, total')], 0.0;
      } else {
        res, other := res', other';
      }
    case Keys(keys) =>
      var value, left := TakeAll(keys, values);
      total := Taken(value, left);
      if value / scale <= item.threshold && !noCollapse {
        res, other := [], value;
      } else {
        res, other := [Entry(prefix + item.name, value)], 0.0;
      }
  }

  method SumValues(values: Values) returns (sum: real)
    ensures sum == Sum(values)
  {
    sum := 0.0;
    var left := values;
    while left != map[]
      invariant sum + Sum(left) == Sum(values)
      decreases |left|
    {
      var k :| k in left;
      SumAt(left, k);
      sum := sum + left[k];
      left := left - {k};
    }
  }

  /** merge_items for one core */
  method MergeCore(items: seq<Item>, values: Values, noCollapse: bool) returns (s: Stack)
    ensures s == Merged(items, values, noCollapse)
    ensures Shown(s.res) == Sum(values)
  {
    hide GetItems, Sum;
    MergedConserves(items, values, noCollapse);
    var sum := SumValues(values);
    var res, total, other, left := MergeItems("", items, values, Scale(sum), noCollapse);
    var unknown := SumValues(left);
    other := other + unknown;
    if other != 0.0 {
      res := res + [Entry("other", other)];
    }
    s := Stack(res, total, other, left);
  }

  method CollectNames(items: seq<Item>, prefix: string, addPrefixes: bool, keys: set<string>) returns (names: seq<string>)
    ensures names == GetNames(items, prefix, addPrefixes, keys)
    decreases items
  {
    hide NamesOf, GetNames;
    names := [];
    assert items[0..] == items;
    assert [] + GetNames(items, prefix, addPrefixes, keys) == GetNames(items, prefix, addPrefixes, keys);
    for i := 0 to |items|
      invariant names + GetNames(items[i..], prefix, addPrefixes, keys) == GetNames(items, prefix, addPrefixes, keys)
    {
      NamesStep(items, i, prefix, addPrefixes, keys, names);
      if keys == {} || items[i].name in keys {
        var more := CollectItem(items[i], prefix, addPrefixes);
        names := names + more;
      }
    }
    NoNames(items, prefix, addPrefixes, keys);
    assert names + [] == names;
  }

  lemma NamesStep(items: seq<Item>, i: nat, prefix: string, addPrefixes: bool, keys: set<string>, names: seq<string>)
    requires i < |items|
    ensures names + GetNames(items[i..], prefix, addPrefixes, keys) ==
            (if keys == {} || items[i].name in keys then names + NamesOf(items[i], prefix, addPrefixes) else names)
            + GetNames(items[i + 1..], prefix, addPrefixes, keys)
  {
    hide NamesOf;
    assert items[i..][0] == items[i] && items[i..][1..] == items[i + 1..];
    var own, rest := NamesOf(items[i], prefix, addPrefixes), GetNames(items[i + 1..], prefix, addPrefixes, keys);
    assert names + (own + rest) == (names + own) + rest;
    assert [] + rest == rest;
  }

  lemma NoNames(items: seq<Item>, prefix: string, addPrefixes: bool, keys: set<string>)
    ensures GetNames(items[|items|..], prefix, addPrefixes, keys) == []
  {
  }

  method CollectItem(item: Item, prefix: string, addPrefixes: bool) returns (names: seq<string>)
    ensures names == NamesOf(item, prefix, addPrefixes)
    decreases item
  {
    hide GetNames;
    match item.what
    case Sub(items) =>
      names := if addPrefixes then [item.name] else [];
      var more := CollectNames(items, item.name, addPrefixes, {});
      names := names + more;
    case Keys(_) =>
      names := [if prefix != "" then prefix + "-" + item.name else item.name];
  }

  /** merge_items over all cores */
  method MergeAll(data: map<Core, Values>, items: seq<Item>, noCollapse: bool) returns (results: map<Core, Stack>)
    ensures results.Keys == data.Keys
    ensures forall c <- data :: results[c] == Merged(items, data[c], noCollapse)
  {
    hide Merged;
    results := map[];
    var left := data.Keys;
    while left != {}
      invariant left <= data.Keys && results.Keys == data.Keys - left
      invariant forall c <- results :: results[c] == Merged(items, data[c], noCollapse)
      decreases |left|
    {
      var c :| c in left;
      var s := MergeCore(items, data[c], noCollapse);
      results := results[c := s];
      left := left - {c};
    }
  }

  /** The titles that some of the cores have emitted. */
  function UsedBy(results: map<Core, Stack>, cores: set<Core>): (r: set<string>)
  {
    set c, l | c in cores && c in results && l in Titles(results[c].res) :: l
  }

  method UsedLabels(results: map<Core, Stack>) returns (used: set<string>)
    ensures used == UsedBy(results, results.Keys)
  {
    hide Titles;
    used := {};
    var left := results.Keys;
    while left != {}
      invariant left <= results.Keys
      invariant used == UsedBy(results, results.Keys - left)
      decreases |left|
    {
      var c :| c in left;
      var titles := set l | l in Titles(results[c].res);
      UsedByOneMore(results, results.Keys - left, c);
      assert results.Keys - (left - {c}) == results.Keys - left + {c};
      used := used + titles;
      left := left - {c};
    }
  }

  lemma UsedByOneMore(results: map<Core, Stack>, cores: set<Core>, c: Core)
    requires c in results
    ensures UsedBy(results, cores + {c}) == UsedBy(results, cores) + set l | l in Titles(results[c].res)
  {
    hide Titles;
  }

  class CpiItems {
    var items: seq<Item>
    var names: seq<string>

    constructor (items: seq<Item>)
      ensures this.items == items && names == AllNames(items)
    {
      this.items := items;
      this.names := [];
      new;
      names := CollectNames(items, "", true, {});
      AddOther();
    }

    method AddOther()
      modifies `names
      ensures names == old(names) + ["other"]
    {
      names := names + ["other"];
    }
  }

  class CpiResults {
    var results: map<Core, Stack>
    var labels: seq<string>

    constructor (data: map<Core, Values>, items: CpiItems, noCollapse: bool)
      requires items.names == AllNames(items.items)
      ensures results.Keys == data.Keys
      ensures forall c <- data :: results[c] == Merged(items.items, data[c], noCollapse)
      ensures labels == Labels(items.items, UsedBy(results, data.Keys))
    {
      hide Merged, UsedBy, AllNames, Filter;
      var merged := MergeAll(data, items.items, noCollapse);
      var used := UsedLabels(merged);
      results := merged;
      labels := Filter(items.names, (l: string) => l in used);
    }

    method GetData(factor: Core -> real) returns (data: map<Core, Values>)
      ensures data.Keys == results.Keys
      ensures forall c <- results :: data[c] == DataOf(results[c].res, factor(c), labels)
    {
      data := map[];
      var left := results.Keys;
      while left != {}
        invariant left <= results.Keys && data.Keys == results.Keys - left
        invariant forall c <- data :: data[c] == DataOf(results[c].res, factor(c), labels)
        decreases |left|
      {
        var c :| c in left;
        var one := FillCore(results[c].res, factor(c));
        data := data[c := WithDefaults(one, labels)];
        left := left - {c};
      }
    }

    method FillCore(res: seq<Entry>, factor: real) returns (m: Values)
      ensures m == Fill(Scaled(res, factor))
    {
      m := map[];
      ghost var scaled := Scaled(res, factor);
      for i := 0 to |res|
        invariant m == Fill(scaled[..i])
      {
        ScaledAt(res, factor, i);
        m := m[res[i].title := res[i].value * factor];
        assert scaled[..i + 1][..i] == scaled[..i];
      }
      assert scaled[..|res|] == scaled;
    }
  }

  /** The results, unless no cycles were accounted during the interval. */
  method BuildResults(data: map<Core, Values>, items: CpiItems, noCollapse: bool, maxCycles: real) returns (r: CpiResults?)
    requires items.names == AllNames(items.items)
    ensures r == null <==> maxCycles == 0.0
    ensures r != null ==>
              && r.results.Keys == data.Keys && (forall c <- data :: r.results[c] == Merged(items.items, data[c], noCollapse))
              && r.labels == Labels(items.items, UsedBy(r.results, data.Keys))
  {
    if maxCycles == 0.0 {
      return null;
    }
    r := new CpiResults(data, items, noCollapse);
  }

  lemma {:induction false} ScaledAt(res: seq<Entry>, factor: real, i: nat)
    requires i < |res|
    ensures Scaled(res, factor)[i] == Entry(res[i].title, res[i].value * factor)
  {
    if i > 0 {
      ScaledAt(res[1..], factor, i - 1);
    }
  }

  /** What the objects above display for a core sums to the core's values. */
  lemma CoreDisplaySums(r: CpiResults, data: map<Core, Values>, items: seq<Item>, noCollapse: bool, c: Core, factor: real)
    requires Shallow(items) && Distinct(AllNames(items)) && c in data && r.results.Keys == data.Keys
    requires r.results[c] == Merged(items, data[c], noCollapse) && r.labels == Labels(items, UsedBy(r.results, data.Keys))
    ensures forall l <- Titles(r.results[c].res) :: l in r.labels
    ensures Displayed(r.labels, DataOf(r.results[c].res, factor, r.labels)) == Sum(data[c]) * factor
  {
    hide Merged, Sum, AllNames, Titles, Displayed, DataOf, Distinct, Shallow;
    DisplaySums(items, data[c], noCollapse, UsedBy(r.results, data.Keys), factor);
  }
}
