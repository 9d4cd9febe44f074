/** CPI stacks: merging measured values into a labelled stack that loses nothing. */
module BuildStack {
  import opened Wrappers

  type Values = map<string, real>

  datatype Item = Item(name: string, threshold: real, what: What)

  /** A list of keys (one key, or several that are summed), or a list of sub-items. */
  datatype What = Keys(keys: seq<string>) | Sub(items: seq<Item>)

  datatype Entry = Entry(title: string, value: real)

  /** Entries, total, the part too small to show, and the values not used yet. */
  datatype Stack = Stack(res: seq<Entry>, total: real, other: real, left: Values)

  // ---------------------------------------------------------------- sums

  ghost function Sum(m: Values): (r: real)
    decreases |m|
  {
    if m == map[] then 0.0 else var k :| k in m; m[k] + Sum(m - {k})
  }

  lemma {:induction false} SumAt(m: Values, k: string)
    requires k in m
    ensures Sum(m) == m[k] + Sum(m - {k})
    decreases |m|
  {
    var j :| j in m && Sum(m) == m[j] + Sum(m - {j});
    if j != k {
      SumAt(m - {j}, k);
      SumAt(m - {k}, j);
      assert m - {j} - {k} == m - {k} - {j};
    }
  }

  function Shown(res: seq<Entry>): (r: real)
  {
    if res == [] then 0.0 else res[0].value + Shown(res[1..])
  }

  lemma {:induction false} ShownConcat(a: seq<Entry>, b: seq<Entry>)
    ensures Shown(a + b) == Shown(a) + Shown(b)
  {
    if a == [] {
      assert a + b == b;
    } else {
      ShownConcat(a[1..], b);
      assert (a + b)[1..] == a[1..] + b;
    }
  }

  lemma ShownOne(e: Entry)
    ensures Shown([e]) == e.value
  {
    assert Shown([e][1..]) == 0.0;
  }

  // ---------------------------------------------------------------- merging

  datatype Taken = Taken(value: real, left: Values)

  /** The sum of the keys that are there, which are then gone. */
  function TakeKeys(keys: seq<string>, values: Values): (r: Taken)
  {
    if keys == [] then Taken(0.0, values)
    else if keys[0] in values then
      var rest := TakeKeys(keys[1..], values - {keys[0]});
      Taken(values[keys[0]] + rest.value, rest.left)
    else TakeKeys(keys[1..], values)
  }

  function Join(a: Stack, b: Stack): (r: Stack)
  {
    Stack(a.res + b.res, a.total + b.total, a.other + b.other, b.left)
  }

  predicate Small(value: real, scale: real, threshold: real, noCollapse: bool)
    requires scale != 0.0
  {
    value / scale <= threshold && !noCollapse
  }

  /** What one item adds. */
  function Visit(prefix: string, item: Item, values: Values, scale: real, noCollapse: bool): (r: Stack)
    requires scale != 0.0
    decreases item
  {
    match item.what
    case Sub(items) =>
      var sub := GetItems(prefix + item.name + "-", items, values, scale, noCollapse);
      if Small(sub.total, scale, item.threshold, noCollapse) then Stack([], sub.total, sub.total, sub.left)
      else if sub.res == [] && !noCollapse then Stack([Entry(prefix + item.name, sub.total)], sub.total, 0.0, sub.left)
      else sub
    case Keys(keys) =>
      var t := TakeKeys(keys, values);
      if Small(t.value, scale, item.threshold, noCollapse) then Stack([], t.value, t.value, t.left)
      else Stack([Entry(prefix + item.name, t.value)], t.value, 0.0, t.left)
  }

  function GetItems(prefix: string, items: seq<Item>, values: Values, scale: real, noCollapse: bool): (r: Stack)
    requires scale != 0.0
    decreases items
  {
    if items == [] then Stack([], 0.0, 0.0, values)
    else
      var first := Visit(prefix, items[0], values, scale, noCollapse);
      Join(first, GetItems(prefix, items[1..], first.left, scale, noCollapse))
  }

  /** The factor for thresholds. */
  function Scale(sum: real): (r: real)
    ensures r != 0.0
  {
    if sum == 0.0 then 1.0 else sum
  }

  /** The stack of one core: what is left over, and what was too small, becomes `other`. */
  ghost function Merged(items: seq<Item>, values: Values, noCollapse: bool): (r: Stack)
  {
    var s := GetItems("", items, values, Scale(Sum(values)), noCollapse);
    var other := s.other + Sum(s.left);
    Stack(if other != 0.0 then s.res + [Entry("other", other)] else s.res, s.total, other, s.left)
  }

  // ---------------------------------------------------------------- conservation

  /** Shown entries and the small rest make up the total, and the total left the values. */
  ghost predicate Conserves(values: Values, s: Stack)
  {
    && Shown(s.res) + s.other == s.total
    && s.total + Sum(s.left) == Sum(values)
  }

  lemma {:induction false} TakeKeysConserves(keys: seq<string>, values: Values)
    ensures var t := TakeKeys(keys, values); t.value + Sum(t.left) == Sum(values)
    decreases keys
  {
    if keys != [] {
      if keys[0] in values {
        SumAt(values, keys[0]);
        TakeKeysConserves(keys[1..], values - {keys[0]});
      } else {
        TakeKeysConserves(keys[1..], values);
      }
    }
  }

  lemma {:induction false} VisitConserves(prefix: string, item: Item, values: Values, scale: real, noCollapse: bool)
    requires scale != 0.0
    ensures Conserves(values, Visit(prefix, item, values, scale, noCollapse))
    decreases item
  {
    hide Small, TakeKeys, GetItems, Sum;
    match item.what
    case Sub(items) =>
      GetItemsConserves(prefix + item.name + "-", items, values, scale, noCollapse);
      var sub := GetItems(prefix + item.name + "-", items, values, scale, noCollapse);
      ShownOne(Entry(prefix + item.name, sub.total));
    case Keys(keys) =>
      TakeKeysConserves(keys, values);
      ShownOne(Entry(prefix + item.name, TakeKeys(keys, values).value));
  }

  lemma {:induction false} GetItemsConserves(prefix: string, items: seq<Item>, values: Values, scale: real, noCollapse: bool)
    requires scale != 0.0
    ensures Conserves(values, GetItems(prefix, items, values, scale, noCollapse))
    decreases items
  {
    hide Visit;
    if items != [] {
      VisitConserves(prefix, items[0], values, scale, noCollapse);
      var first := Visit(prefix, items[0], values, scale, noCollapse);
      GetItemsConserves(prefix, items[1..], first.left, scale, noCollapse);
      ShownConcat(first.res, GetItems(prefix, items[1..], first.left, scale, noCollapse).res);
    }
  }

  /** The entries of a stack, `other` included, sum to all of the values. */
  lemma MergedConserves(items: seq<Item>, values: Values, noCollapse: bool)
    ensures var s := Merged(items, values, noCollapse);
            Shown(s.res) == Sum(values) && s.left == values - KeysOf(items) && s.total + Sum(s.left) == Sum(values)
  {
    hide GetItems, Sum;
    var s := GetItems("", items, values, Scale(Sum(values)), noCollapse);
    GetItemsConserves("", items, values, Scale(Sum(values)), noCollapse);
    GetItemsLeaves("", items, values, Scale(Sum(values)), noCollapse);
    var other := s.other + Sum(s.left);
    ShownConcat(s.res, [Entry("other", other)]);
    ShownOne(Entry("other", other));
  }

  // ---------------------------------------------------------------- each key once

  function KeysOf(items: seq<Item>): (r: set<string>)
    decreases items
  {
    if items == [] then {} else KeysOfItem(items[0]) + KeysOf(items[1..])
  }

  function KeysOfItem(item: Item): (r: set<string>)
    decreases item
  {
    match item.what
    case Sub(items) => KeysOf(items)
    case Keys(keys) => set k | k in keys
  }

  lemma {:induction false} TakeKeysLeaves(keys: seq<string>, values: Values)
    ensures TakeKeys(keys, values).left == values - set k | k in keys
    decreases keys
  {
    if keys == [] {
      assert values - {} == values;
    } else {
      var rest := set k | k in keys[1..];
      assert (set k | k in keys) == {keys[0]} + rest;
      if keys[0] in values {
        TakeKeysLeaves(keys[1..], values - {keys[0]});
        assert values - {keys[0]} - rest == values - ({keys[0]} + rest);
      } else {
        TakeKeysLeaves(keys[1..], values);
        assert values - rest == values - ({keys[0]} + rest);
      }
    }
  }

  lemma {:induction false} GetItemsLeaves(prefix: string, items: seq<Item>, values: Values, scale: real, noCollapse: bool)
    requires scale != 0.0
    ensures GetItems(prefix, items, values, scale, noCollapse).left == values - KeysOf(items)
    decreases items
  {
    if items == [] {
      assert values - {} == values;
    } else {
      var first := Visit(prefix, items[0], values, scale, noCollapse);
      VisitLeaves(prefix, items[0], values, scale, noCollapse);
      GetItemsLeaves(prefix, items[1..], first.left, scale, noCollapse);
      assert values - KeysOfItem(items[0]) - KeysOf(items[1..]) == values - KeysOf(items);
    }
  }

  lemma {:induction false} VisitLeaves(prefix: string, item: Item, values: Values, scale: real, noCollapse: bool)
    requires scale != 0.0
    ensures Visit(prefix, item, values, scale, noCollapse).left == values - KeysOfItem(item)
    decreases item
  {
    match item.what
    case Sub(items) => GetItemsLeaves(prefix + item.name + "-", items, values, scale, noCollapse);
    case Keys(keys) => TakeKeysLeaves(keys, values);
  }

  // ---------------------------------------------------------------- what is shown

  ghost predicate AtLeast(items: seq<Item>, th: real)
    decreases items
  {
    forall i :: 0 <= i < |items| ==> items[i].threshold >= th && (items[i].what.Sub? ==> AtLeast(items[i].what.items, th))
  }

  ghost predicate AllAbove(res: seq<Entry>, scale: real, th: real)
    requires scale != 0.0
  {
    forall i :: 0 <= i < |res| ==> res[i].value / scale > th
  }

  /** When small parts are collapsed, nothing is shown that is not above the thresholds. */
  lemma {:induction false} ShownAbove(prefix: string, items: seq<Item>, values: Values, scale: real, th: real)
    requires scale != 0.0 && AtLeast(items, th)
    ensures AllAbove(GetItems(prefix, items, values, scale, false).res, scale, th)
    decreases items
  {
    hide Visit;
    if items != [] {
      ItemAbove(prefix, items[0], values, scale, th);
      var first := Visit(prefix, items[0], values, scale, false);
      ShownAbove(prefix, items[1..], first.left, scale, th);
    }
  }

  lemma {:induction false} ItemAbove(prefix: string, item: Item, values: Values, scale: real, th: real)
    requires scale != 0.0 && item.threshold >= th && (item.what.Sub? ==> AtLeast(item.what.items, th))
    ensures AllAbove(Visit(prefix, item, values, scale, false).res, scale, th)
    decreases item
  {
    hide GetItems, TakeKeys, AtLeast;
    if item.what.Sub? {
      ShownAbove(prefix + item.name + "-", item.what.items, values, scale, th);
    }
  }

  /** And everything above its threshold is shown, with what its keys hold once the items before it are served. */
  lemma {:induction false} LargeShown(prefix: string, items: seq<Item>, values: Values, scale: real, noCollapse: bool, i: nat)
    requires scale != 0.0 && i < |items| && items[i].what.Keys?
    requires TakeKeys(items[i].what.keys, values - KeysOf(items[..i])).value / scale > items[i].threshold
    ensures Entry(prefix + items[i].name, TakeKeys(items[i].what.keys, values - KeysOf(items[..i])).value)
            in GetItems(prefix, items, values, scale, noCollapse).res
    decreases items
  {
    hide TakeKeys;
    var first := Visit(prefix, items[0], values, scale, noCollapse);
    if i == 0 {
      assert items[..0] == [] && values - {} == values;
      assert first.res[0] in first.res;
    } else {
      VisitLeaves(prefix, items[0], values, scale, noCollapse);
      hide Visit, KeysOfItem;
      assert items[..i][1..] == items[1..][..i - 1];
      assert values - KeysOf(items[..i]) == first.left - KeysOf(items[1..][..i - 1]);
      LargeShown(prefix, items[1..], first.left, scale, noCollapse, i - 1);
    }
  }

  /** What a core's values are measured against: their sum, or 1 if there is none. */
  ghost function WholeOf(values: Values): (r: real)
    ensures r != 0.0
  {
    if Sum(values) == 0.0 then 1.0 else Sum(values)
  }

  /** In a core's stack everything but the last entry is above the thresholds as a share of the core's sum, and so is
      the last one unless it is the rest. */
  lemma MergedAbove(items: seq<Item>, values: Values, th: real)
    requires AtLeast(items, th)
    ensures var r := Merged(items, values, false).res;
            && (forall i :: 0 <= i < |r| - 1 ==> r[i].value / WholeOf(values) > th)
            && (r != [] ==> r[|r| - 1].value / WholeOf(values) > th || r[|r| - 1].title == "other")
  {
    hide GetItems, Sum, AtLeast;
    ShownAbove("", items, values, Scale(Sum(values)), th);
    var res := GetItems("", items, values, Scale(Sum(values)), false).res;
    assert AllAbove(res, WholeOf(values), th);
  }

  /** A top-level value whose share of the core's sum is above its threshold is in the core's stack. */
  lemma MergedLarge(items: seq<Item>, values: Values, noCollapse: bool, i: nat)
    requires i < |items| && items[i].what.Keys?
    requires TakeKeys(items[i].what.keys, values - KeysOf(items[..i])).value / WholeOf(values) > items[i].threshold
    ensures Entry(items[i].name, TakeKeys(items[i].what.keys, values - KeysOf(items[..i])).value) in Merged(items, values, noCollapse).res
  {
    hide GetItems, Sum, TakeKeys, KeysOf;
    LargeShown("", items, values, Scale(Sum(values)), noCollapse, i);
    assert "" + items[i].name == items[i].name;
  }

  /** The titles of all leaves. */
  function Leaves(prefix: string, items: seq<Item>): (r: seq<string>)
    decreases items
  {
    if items == [] then [] else LeavesOf(prefix, items[0]) + Leaves(prefix, items[1..])
  }

  function LeavesOf(prefix: string, item: Item): (r: seq<string>)
    decreases item
  {
    match item.what
    case Sub(items) => Leaves(prefix + item.name + "-", items)
    case Keys(_) => [prefix + item.name]
  }

  /** Without collapsing, every leaf is shown and nothing goes to the rest. */
  lemma {:induction false} AllShown(prefix: string, items: seq<Item>, values: Values, scale: real)
    requires scale != 0.0
    ensures var s := GetItems(prefix, items, values, scale, true); Titles(s.res) == Leaves(prefix, items) && s.other == 0.0
    decreases items
  {
    hide Visit, LeavesOf;
    if items != [] {
      ItemShown(prefix, items[0], values, scale);
      var first := Visit(prefix, items[0], values, scale, true);
      var rest := GetItems(prefix, items[1..], first.left, scale, true);
      AllShown(prefix, items[1..], first.left, scale);
      TitlesConcat(first.res, rest.res);
    }
  }

  lemma {:induction false} ItemShown(prefix: string, item: Item, values: Values, scale: real)
    requires scale != 0.0
    ensures var s := Visit(prefix, item, values, scale, true); Titles(s.res) == LeavesOf(prefix, item) && s.other == 0.0
    decreases item
  {
    hide GetItems, TakeKeys, Leaves;
    if item.what.Sub? {
      AllShown(prefix + item.name + "-", item.what.items, values, scale);
    }
  }

  // ---------------------------------------------------------------- labels

  function NamesOf(item: Item, prefix: string, addPrefixes: bool): (r: seq<string>)
    decreases item
  {
    match item.what
    case Sub(items) => (if addPrefixes then [item.name] else []) + GetNames(items, item.name, addPrefixes, {})
    case Keys(_) => [if prefix != "" then prefix + "-" + item.name else item.name]
  }

  /** An empty set of keys asks for all names. */
  function GetNames(items: seq<Item>, prefix: string, addPrefixes: bool, keys: set<string>): (r: seq<string>)
    decreases items
  {
    if items == [] then []
    else (if keys == {} || items[0].name in keys then NamesOf(items[0], prefix, addPrefixes) else [])
         + GetNames(items[1..], prefix, addPrefixes, keys)
  }

  function Named(items: seq<Item>, keys: set<string>): (r: seq<Item>)
  {
    if items == [] then [] else (if items[0].name in keys then [items[0]] else []) + Named(items[1..], keys)
  }

  /** Asking for some top-level names is asking for all names of those items. */
  lemma {:induction false} KeyedNames(items: seq<Item>, prefix: string, addPrefixes: bool, keys: set<string>)
    requires keys != {}
    ensures GetNames(items, prefix, addPrefixes, keys) == GetNames(Named(items, keys), prefix, addPrefixes, {})
    decreases items
  {
    hide NamesOf;
    if items != [] {
      KeyedNames(items[1..], prefix, addPrefixes, keys);
      var rest := Named(items[1..], keys);
      if items[0].name in keys {
        assert ([items[0]] + rest)[1..] == rest;
      } else {
        assert [] + rest == rest;
      }
    }
  }

  /** Leaving out the prefixes leaves out exactly the names of the groups. */
  lemma {:induction false} PrefixesAreGroups(items: seq<Item>, prefix: string, p: string)
    ensures Within(GetNames(items, prefix, false, {}), GetNames(items, prefix, true, {}))
    ensures |GetNames(items, prefix, true, {})| == |GetNames(items, prefix, false, {})| + |Groups(p, items)|
    decreases items
  {
    hide Within;
    if items == [] {
      WithinNothing();
    } else {
      var it := items[0];
      PrefixesAreGroups(items[1..], prefix, p);
      if it.what.Sub? {
        PrefixesAreGroups(it.what.items, it.name, p + it.name + "-");
        WithinPrefixed(GetNames(it.what.items, it.name, false, {}), [it.name], GetNames(it.what.items, it.name, true, {}));
        assert [] + GetNames(it.what.items, it.name, false, {}) == GetNames(it.what.items, it.name, false, {});
      } else {
        WithinSame(NamesOf(it, prefix, true)[0], []);
        assert NamesOf(it, prefix, true) + [] == NamesOf(it, prefix, true) == NamesOf(it, prefix, false);
      }
      WithinConcat(NamesOf(it, prefix, false), NamesOf(it, prefix, true), GetNames(items[1..], prefix, false, {}), GetNames(items[1..], prefix, true, {}));
    }
  }

  lemma WithinNothing()
    ensures Within([], [])
  {
  }

  /** The names that labels are looked for in. */
  function AllNames(items: seq<Item>): (r: seq<string>)
  {
    GetNames(items, "", true, {}) + ["other"]
  }

  function Titles(res: seq<Entry>): (r: seq<string>)
    ensures |r| == |res| && forall i :: 0 <= i < |r| ==> r[i] == res[i].title
  {
    if res == [] then [] else [res[0].title] + Titles(res[1..])
  }

  lemma {:induction false} TitlesConcat(a: seq<Entry>, b: seq<Entry>)
    ensures Titles(a + b) == Titles(a) + Titles(b)
  {
  }

  ghost predicate Within(a: seq<string>, b: seq<string>)
  {
    if a == [] then true
    else b != [] && ((a[0] == b[0] && Within(a[1..], b[1..])) || Within(a, b[1..]))
  }

  lemma {:induction false} WithinPrefixed(a: seq<string>, pre: seq<string>, b: seq<string>)
    requires Within(a, b)
    ensures Within(a, pre + b)
    decreases pre
  {
    if pre == [] {
      assert pre + b == b;
    } else {
      WithinPrefixed(a, pre[1..], b);
      assert (pre + b)[1..] == pre[1..] + b;
    }
  }

  lemma {:induction false} WithinConcat(a: seq<string>, b: seq<string>, c: seq<string>, d: seq<string>)
    requires Within(a, b) && Within(c, d)
    ensures Within(a + c, b + d)
    decreases b
  {
    if a == [] {
      assert a + c == c;
      WithinPrefixed(c, b, d);
    } else {
      assert (b + d)[1..] == b[1..] + d;
      if a[0] == b[0] && Within(a[1..], b[1..]) {
        WithinConcat(a[1..], b[1..], c, d);
        assert (a + c)[1..] == a[1..] + c;
      } else {
        WithinConcat(a, b[1..], c, d);
      }
    }
  }

  lemma WithinSame(a: string, b: seq<string>)
    ensures Within([a], [a] + b)
  {
    assert [a][1..] == [];
  }

  lemma {:induction false} WithinIn(a: seq<string>, b: seq<string>)
    requires Within(a, b)
    ensures forall x <- a :: x in b
    decreases b
  {
    if a != [] {
      if a[0] == b[0] && Within(a[1..], b[1..]) {
        WithinIn(a[1..], b[1..]);
        assert a == [a[0]] + a[1..];
      } else {
        WithinIn(a, b[1..]);
      }
    }
  }

  lemma {:induction false} WithinFilter(a: seq<string>, b: seq<string>, keep: set<string>)
    requires Within(a, b) && forall x <- a :: x in keep
    ensures Within(a, Filter(b, (x: string) => x in keep))
    decreases b
  {
    var kept := (x: string) => x in keep;
    if a != [] {
      FilterCons(b[0], b[1..], kept);
      assert b == [b[0]] + b[1..];
      if a[0] == b[0] && Within(a[1..], b[1..]) {
        WithinFilter(a[1..], b[1..], keep);
        assert Filter(b, kept)[1..] == Filter(b[1..], kept);
      } else {
        WithinFilter(a, b[1..], keep);
        WithinPrefixed(a, if b[0] in keep then [b[0]] else [], Filter(b[1..], kept));
      }
    }
  }

  /** At most two levels, and a name for every group. */
  ghost predicate Shallow(items: seq<Item>)
  {
    forall i :: 0 <= i < |items| && items[i].what.Sub? ==> items[i].name != "" && Flat(items[i].what.items)
  }

  ghost predicate Flat(items: seq<Item>)
  {
    forall i :: 0 <= i < |items| ==> items[i].what.Keys?
  }

  /** The titles of a group are among its names. */
  lemma {:induction false} FlatTitles(name: string, items: seq<Item>, values: Values, scale: real, noCollapse: bool)
    requires name != "" && Flat(items) && scale != 0.0
    ensures Within(Titles(GetItems(name + "-", items, values, scale, noCollapse).res), GetNames(items, name, true, {}))
    decreases items
  {
    if items != [] {
      var first := Visit(name + "-", items[0], values, scale, noCollapse);
      var rest := GetItems(name + "-", items[1..], first.left, scale, noCollapse);
      FlatTitles(name, items[1..], first.left, scale, noCollapse);
      var n := NamesOf(items[0], name, true);
      assert n == [name + "-" + items[0].name];
      assert Within(Titles(first.res), n) by {
        if first.res != [] {
          assert Titles(first.res) == n;
          WithinSame(n[0], []);
          assert n == [n[0]] + [];
        }
      }
      WithinConcat(Titles(first.res), n, Titles(rest.res), GetNames(items[1..], name, true, {}));
      TitlesConcat(first.res, rest.res);
    }
  }

  lemma VisitTitles(item: Item, values: Values, scale: real, noCollapse: bool)
    requires Shallow([item]) && scale != 0.0
    ensures Within(Titles(Visit("", item, values, scale, noCollapse).res), NamesOf(item, "", true))
  {
    hide GetItems, TakeKeys, GetNames;
    var r := Visit("", item, values, scale, noCollapse);
    assert "" + item.name == item.name;
    if item.what.Sub? {
      assert [item][0].what.Sub?;
      var names := GetNames(item.what.items, item.name, true, {});
      FlatTitles(item.name, item.what.items, values, scale, noCollapse);
      var sub := GetItems(item.name + "-", item.what.items, values, scale, noCollapse);
      WithinPrefixed(Titles(sub.res), [item.name], names);
      WithinSame(item.name, names);
      if r.res != sub.res && r.res != [] {
        assert Titles(r.res) == [item.name];
      }
    } else if r.res != [] {
      assert Titles(r.res) == [item.name];
      WithinSame(item.name, []);
      assert [item.name] == [item.name] + [];
    }
  }

  /** For items of at most two levels, what is emitted is among the names, in their order. */
  lemma {:induction false} EmittedTitles(items: seq<Item>, values: Values, scale: real, noCollapse: bool)
    requires Shallow(items) && scale != 0.0
    ensures Within(Titles(GetItems("", items, values, scale, noCollapse).res), GetNames(items, "", true, {}))
    decreases items
  {
    hide Visit, NamesOf;
    if items != [] {
      var first := Visit("", items[0], values, scale, noCollapse);
      var rest := GetItems("", items[1..], first.left, scale, noCollapse);
      assert Shallow([items[0]]) && Shallow(items[1..]) by { ShallowParts(items); }
      VisitTitles(items[0], values, scale, noCollapse);
      EmittedTitles(items[1..], first.left, scale, noCollapse);
      WithinConcat(Titles(first.res), NamesOf(items[0], "", true), Titles(rest.res), GetNames(items[1..], "", true, {}));
      TitlesConcat(first.res, rest.res);
    }
  }

  lemma ShallowParts(items: seq<Item>)
    requires Shallow(items) && items != []
    ensures Shallow([items[0]]) && Shallow(items[1..])
  {
  }

  lemma MergedTitles(items: seq<Item>, values: Values, noCollapse: bool)
    requires Shallow(items)
    ensures Within(Titles(Merged(items, values, noCollapse).res), AllNames(items))
  {
    hide GetItems, GetNames, Sum;
    var scale := Scale(Sum(values));
    EmittedTitles(items, values, scale, noCollapse);
    var res := GetItems("", items, values, scale, noCollapse).res;
    var names := GetNames(items, "", true, {});
    var r := Merged(items, values, noCollapse).res;
    if r == res {
      assert Within([], ["other"]);
      WithinConcat(Titles(res), names, [], ["other"]);
      assert Titles(res) + [] == Titles(res);
    } else {
      assert Within(["other"], ["other"]) by { WithinSame("other", []); assert ["other"] + [] == ["other"]; }
      WithinConcat(Titles(res), names, ["other"], ["other"]);
      TitlesConcat(res, r[|res|..]);
      assert Titles(r) == Titles(res) + ["other"];
    }
  }

  // ---------------------------------------------------------------- which descriptors lose labels

  ghost predicate Among(a: seq<string>, names: seq<string>)
  {
    forall l <- a :: l in names
  }

  lemma MergedStarts(items: seq<Item>, values: Values, noCollapse: bool)
    ensures var t := Titles(GetItems("", items, values, Scale(Sum(values)), noCollapse).res);
            var r := Titles(Merged(items, values, noCollapse).res);
            r == t || r == t + ["other"]
  {
    hide GetItems, Sum;
    var s := GetItems("", items, values, Scale(Sum(values)), noCollapse);
    var other := s.other + Sum(s.left);
    TitlesConcat(s.res, [Entry("other", other)]);
  }

  /** Without collapsing, whatever is measured, no label is lost if and only if every leaf's title, with all of
      its prefixes, is among the names. */
  lemma LeavesExact(items: seq<Item>)
    ensures (forall values :: Among(Titles(Merged(items, values, true).res), AllNames(items)))
            <==> Among(Leaves("", items), AllNames(items))
  {
    hide GetItems, Sum, GetNames, Merged, Leaves;
    forall values
      ensures Among(Titles(Merged(items, values, true).res), AllNames(items)) <==> Among(Leaves("", items), AllNames(items))
    {
      AllShown("", items, values, Scale(Sum(values)));
      MergedStarts(items, values, true);
    }
    var none: Values := map[];
    assert Among(Titles(Merged(items, none, true).res), AllNames(items)) <==> Among(Leaves("", items), AllNames(items));
  }

  /** The titles of all groups. */
  function Groups(prefix: string, items: seq<Item>): (r: seq<string>)
    decreases items
  {
    if items == [] then [] else GroupsOf(prefix, items[0]) + Groups(prefix, items[1..])
  }

  function GroupsOf(prefix: string, item: Item): (r: seq<string>)
    decreases item
  {
    match item.what
    case Sub(items) => [prefix + item.name] + Groups(prefix + item.name + "-", items)
    case Keys(_) => []
  }

  /** In either setting, at any depth, only titles of leaves and groups are emitted. */
  lemma {:induction false} EmittedAmong(prefix: string, items: seq<Item>, values: Values, scale: real, noCollapse: bool)
    requires scale != 0.0
    ensures Among(Titles(GetItems(prefix, items, values, scale, noCollapse).res), Leaves(prefix, items) + Groups(prefix, items))
    decreases items
  {
    hide Visit, LeavesOf, GroupsOf;
    if items != [] {
      var first := Visit(prefix, items[0], values, scale, noCollapse);
      var rest := GetItems(prefix, items[1..], first.left, scale, noCollapse);
      ItemAmong(prefix, items[0], values, scale, noCollapse);
      EmittedAmong(prefix, items[1..], first.left, scale, noCollapse);
      TitlesConcat(first.res, rest.res);
    }
  }

  lemma {:induction false} ItemAmong(prefix: string, item: Item, values: Values, scale: real, noCollapse: bool)
    requires scale != 0.0
    ensures Among(Titles(Visit(prefix, item, values, scale, noCollapse).res), LeavesOf(prefix, item) + GroupsOf(prefix, item))
    decreases item
  {
    hide GetItems, TakeKeys, Leaves, Groups;
    var r := Visit(prefix, item, values, scale, noCollapse);
    if item.what.Sub? {
      EmittedAmong(prefix + item.name + "-", item.what.items, values, scale, noCollapse);
    }
  }

  /** The same names and keys, with thresholds of their own. */
  ghost predicate SameShape(items: seq<Item>, other: seq<Item>)
    decreases items
  {
    |items| == |other| && forall i :: 0 <= i < |items| ==> SameItem(items[i], other[i])
  }

  ghost predicate SameItem(item: Item, other: Item)
    decreases item
  {
    && item.name == other.name
    && match item.what
       case Keys(keys) => other.what == Keys(keys)
       case Sub(items) => other.what.Sub? && SameShape(items, other.what.items)
  }

  const NONE: Values := map[]

  /** Without values there is nothing but zeros. */
  lemma NothingMeasured(prefix: string, items: seq<Item>, noCollapse: bool)
    ensures var s := GetItems(prefix, items, NONE, 1.0, noCollapse); s.total == 0.0 && s.left == NONE
  {
    hide GetItems;
    GetItemsConserves(prefix, items, NONE, 1.0, noCollapse);
    GetItemsLeaves(prefix, items, NONE, 1.0, noCollapse);
    assert NONE - KeysOf(items) == NONE;
  }

  lemma NothingTaken(prefix: string, item: Item, noCollapse: bool)
    ensures var s := Visit(prefix, item, NONE, 1.0, noCollapse); s.total == 0.0 && s.left == NONE
  {
    hide Visit;
    VisitConserves(prefix, item, NONE, 1.0, noCollapse);
    VisitLeaves(prefix, item, NONE, 1.0, noCollapse);
    assert NONE - KeysOfItem(item) == NONE;
  }

  /** All thresholds set to th. */
  function WithThreshold(items: seq<Item>, th: real): (r: seq<Item>)
    decreases items
  {
    if items == [] then [] else [ItemWithThreshold(items[0], th)] + WithThreshold(items[1..], th)
  }

  function ItemWithThreshold(item: Item, th: real): (r: Item)
    decreases item
  {
    match item.what
    case Keys(keys) => Item(item.name, th, item.what)
    case Sub(items) => Item(item.name, th, Sub(WithThreshold(items, th)))
  }

  lemma {:induction false} ThresholdShape(items: seq<Item>, th: real)
    ensures SameShape(items, WithThreshold(items, th))
    decreases items
  {
    if items != [] {
      ItemThresholdShape(items[0], th);
      ThresholdShape(items[1..], th);
      ShapeCons(items[0], ItemWithThreshold(items[0], th), items[1..], WithThreshold(items[1..], th));
      assert items == [items[0]] + items[1..];
    }
  }

  lemma {:induction false} ItemThresholdShape(item: Item, th: real)
    ensures SameItem(item, ItemWithThreshold(item, th))
    decreases item
  {
    if item.what.Sub? {
      ThresholdShape(item.what.items, th);
    }
  }

  lemma ShapeCons(a: Item, b: Item, c: seq<Item>, d: seq<Item>)
    requires SameItem(a, b) && SameShape(c, d)
    ensures SameShape([a] + c, [b] + d)
  {
    hide SameItem;
  }

  lemma {:induction false} ShapeSelf(items: seq<Item>)
    ensures SameShape(items, items)
    decreases items
  {
    if items != [] {
      if items[0].what.Sub? {
        ShapeSelf(items[0].what.items);
      }
      ShapeSelf(items[1..]);
      ShapeCons(items[0], items[0], items[1..], items[1..]);
      assert items == [items[0]] + items[1..];
    }
  }

  /** With thresholds at 0 nothing is shown; below 0 every leaf is. */
  lemma {:induction false} ZeroHides(prefix: string, items: seq<Item>)
    ensures GetItems(prefix, WithThreshold(items, 0.0), NONE, 1.0, false).res == []
    decreases items
  {
    hide Visit;
    if items != [] {
      var it := ItemWithThreshold(items[0], 0.0);
      NothingTaken(prefix, it, false);
      assert Visit(prefix, it, NONE, 1.0, false).res == [] by { ZeroHidesItem(prefix, items[0]); }
      ZeroHides(prefix, items[1..]);
      assert WithThreshold(items, 0.0)[1..] == WithThreshold(items[1..], 0.0);
    }
  }

  lemma ZeroHidesItem(prefix: string, item: Item)
    ensures Visit(prefix, ItemWithThreshold(item, 0.0), NONE, 1.0, false).res == []
  {
    hide GetItems;
    var it := ItemWithThreshold(item, 0.0);
    if item.what.Sub? {
      NothingMeasured(prefix + it.name + "-", it.what.items, false);
    } else {
      TakeNothing(item.what.keys);
    }
  }

  lemma {:induction false} TakeNothing(keys: seq<string>)
    ensures TakeKeys(keys, NONE).value == 0.0
  {
    TakeKeysConserves(keys, NONE);
    TakeKeysLeaves(keys, NONE);
    assert TakeKeys(keys, NONE).left == NONE;
  }

  lemma {:induction false} LowShows(prefix: string, items: seq<Item>)
    ensures Among(Leaves(prefix, items), Titles(GetItems(prefix, WithThreshold(items, -1.0), NONE, 1.0, false).res))
    decreases items
  {
    hide Visit, LeavesOf, Titles;
    if items != [] {
      var low := WithThreshold(items, -1.0);
      var it := ItemWithThreshold(items[0], -1.0);
      var first := Visit(prefix, it, NONE, 1.0, false);
      NothingTaken(prefix, it, false);
      LowShowsItem(prefix, items[0]);
      LowShows(prefix, items[1..]);
      assert low[0] == it && low[1..] == WithThreshold(items[1..], -1.0);
      TitlesConcat(first.res, GetItems(prefix, low[1..], NONE, 1.0, false).res);
    }
  }

  lemma {:induction false} LowShowsItem(prefix: string, item: Item)
    ensures Among(LeavesOf(prefix, item), Titles(Visit(prefix, ItemWithThreshold(item, -1.0), NONE, 1.0, false).res))
    decreases item
  {
    hide GetItems, TakeKeys, Leaves;
    var it := ItemWithThreshold(item, -1.0);
    if item.what.Sub? {
      LowShows(prefix + item.name + "-", item.what.items);
      NothingMeasured(prefix + item.name + "-", it.what.items, false);
    } else {
      TakeNothing(item.what.keys);
    }
  }

  /** Thresholds with which a given group is shown as a whole. */
  lemma {:induction false} GroupShown(prefix: string, items: seq<Item>, l: string) returns (other: seq<Item>)
    requires l in Groups(prefix, items)
    ensures SameShape(items, other) && l in Titles(GetItems(prefix, other, NONE, 1.0, false).res)
    decreases items
  {
    hide Visit, Titles, GroupsOf, SameItem;
    var it, rest := items[0], items[1..];
    if l in GroupsOf(prefix, items[0]) {
      it := GroupShownItem(prefix, items[0], l);
      ShapeSelf(rest);
    } else {
      rest := GroupShown(prefix, items[1..], l);
      ShapeSelf([items[0]]);
    }
    other := [it] + rest;
    assert SameItem(items[0], it) by { assert [items[0]][0] == items[0]; }
    ShapeCons(items[0], it, items[1..], rest);
    assert items == [items[0]] + items[1..];
    NothingTaken(prefix, it, false);
    var first := Visit(prefix, it, NONE, 1.0, false);
    assert other[0] == it && other[1..] == rest;
    TitlesConcat(first.res, GetItems(prefix, rest, NONE, 1.0, false).res);
  }

  lemma {:induction false} GroupShownItem(prefix: string, item: Item, l: string) returns (other: Item)
    requires l in GroupsOf(prefix, item)
    ensures SameItem(item, other) && l in Titles(Visit(prefix, other, NONE, 1.0, false).res)
    decreases item
  {
    hide GetItems, Groups, SameShape;
    var inner := prefix + item.name + "-";
    if l == prefix + item.name {
      var subs := WithThreshold(item.what.items, 0.0);
      other := Item(item.name, -1.0, Sub(subs));
      ThresholdShape(item.what.items, 0.0);
      ZeroHides(inner, item.what.items);
      NothingMeasured(inner, subs, false);
      assert Titles([Entry(l, 0.0)])[0] == l;
    } else {
      var subs := GroupShown(inner, item.what.items, l);
      other := Item(item.name, -1.0, Sub(subs));
      NothingMeasured(inner, subs, false);
    }
  }

  lemma {:induction false} SameNames(items: seq<Item>, other: seq<Item>, prefix: string)
    requires SameShape(items, other)
    ensures GetNames(items, prefix, true, {}) == GetNames(other, prefix, true, {})
    decreases items
  {
    if items != [] {
      assert SameItem(items[0], other[0]);
      if items[0].what.Sub? {
        SameNames(items[0].what.items, other[0].what.items, items[0].name);
      }
      SameNames(items[1..], other[1..], prefix);
    }
  }

  lemma {:induction false} SameTitles(items: seq<Item>, other: seq<Item>, prefix: string)
    requires SameShape(items, other)
    ensures Leaves(prefix, items) == Leaves(prefix, other) && Groups(prefix, items) == Groups(prefix, other)
    decreases items
  {
    if items != [] {
      assert SameItem(items[0], other[0]);
      if items[0].what.Sub? {
        SameTitles(items[0].what.items, other[0].what.items, prefix + items[0].name + "-");
      }
      SameTitles(items[1..], other[1..], prefix);
    }
  }

  ghost predicate LosesNothing(items: seq<Item>, values: Values)
  {
    Among(Titles(Merged(items, values, false).res), AllNames(items))
  }

  /** With collapsing, whatever is measured and wherever the thresholds are, no label is lost if and only if the
      titles of all leaves and of all groups, with all of their prefixes, are among the names. */
  lemma CollapseExact(items: seq<Item>)
    ensures (forall other, values :: SameShape(items, other) ==> LosesNothing(other, values))
            <==> Among(Leaves("", items) + Groups("", items), AllNames(items))
  {
    hide GetItems, Sum, GetNames, Merged, Leaves, Groups, SameShape, WithThreshold;
    if Among(Leaves("", items) + Groups("", items), AllNames(items)) {
      forall other, values | SameShape(items, other)
        ensures LosesNothing(other, values)
      {
        SameNames(items, other, "");
        SameTitles(items, other, "");
        EmittedAmong("", other, values, Scale(Sum(values)), false);
        MergedStarts(other, values, false);
      }
    }
    if forall other, values :: SameShape(items, other) ==> LosesNothing(other, values) {
      var low := WithThreshold(items, -1.0);
      ThresholdShape(items, -1.0);
      LowShows("", items);
      EmptyMerge(low);
      assert LosesNothing(low, NONE);
      SameNames(items, low, "");
      forall l <- Groups("", items)
        ensures l in AllNames(items)
      {
        var other := GroupShown("", items, l);
        EmptyMerge(other);
        assert LosesNothing(other, NONE);
        SameNames(items, other, "");
      }
    }
  }

  lemma EmptyMerge(items: seq<Item>)
    ensures forall l <- Titles(GetItems("", items, NONE, 1.0, false).res) :: l in Titles(Merged(items, NONE, false).res)
  {
    hide GetItems;
    assert Scale(Sum(NONE)) == 1.0;
    MergedStarts(items, NONE, false);
  }

  /** With collapsing it suffices that the titles of all leaves and groups are among the names: then every
      emitted label survives the filter. */
  lemma LabelsSurvive(items: seq<Item>, values: Values, noCollapse: bool, used: set<string>)
    requires Among(Leaves("", items) + Groups("", items), AllNames(items))
    requires forall l <- Titles(Merged(items, values, noCollapse).res) :: l in used
    ensures Among(Titles(Merged(items, values, noCollapse).res), Labels(items, used))
  {
    hide GetItems, Sum, GetNames, Merged, Leaves, Groups;
    EmittedAmong("", items, values, Scale(Sum(values)), noCollapse);
    MergedStarts(items, values, noCollapse);
  }

  lemma OneItem(prefix: string, item: Item, values: Values, noCollapse: bool)
    ensures GetItems(prefix, [item], values, 1.0, noCollapse) == Visit(prefix, item, values, 1.0, noCollapse)
  {
    hide Visit;
    var r := Visit(prefix, item, values, 1.0, noCollapse);
    assert [item][1..] == [];
    assert GetItems(prefix, [item][1..], r.left, 1.0, noCollapse) == Stack([], 0.0, 0.0, r.left);
    assert r.res + [] == r.res;
  }

  lemma OneName(item: Item, prefix: string)
    ensures GetNames([item], prefix, true, {}) == NamesOf(item, prefix, true)
  {
    hide NamesOf;
    assert [item][1..] == [];
    assert NamesOf(item, prefix, true) + [] == NamesOf(item, prefix, true);
  }

  const LEAF := Item("c", 0.0, Keys(["k"]))
  const INNER := Item("b", 0.0, Sub([LEAF]))
  const OUTER := Item("a", 0.0, Sub([INNER]))
  const SAMPLE: Values := map["k" := 1.0]

  lemma LeafVisit()
    ensures Visit("a-b-", LEAF, SAMPLE, 1.0, false) == Stack([Entry("a-b-c", 1.0)], 1.0, 0.0, map[])
  {
    assert SAMPLE - {"k"} == map[];
    assert ["k"][1..] == [];
    assert TakeKeys(["k"][1..], map[]) == Taken(0.0, map[]);
    assert TakeKeys(["k"], SAMPLE) == Taken(1.0, map[]);
    assert "a-b-" + "c" == "a-b-c";
  }

  lemma GroupVisit(prefix: string, item: Item, values: Values)
    requires item.what.Sub? && |item.what.items| == 1
    requires var sub := Visit(prefix + item.name + "-", item.what.items[0], values, 1.0, false); sub.res != [] && sub.total > item.threshold
    ensures Visit(prefix, item, values, 1.0, false) == Visit(prefix + item.name + "-", item.what.items[0], values, 1.0, false)
  {
    hide GetItems;
    OneItem(prefix + item.name + "-", item.what.items[0], values, false);
    assert item.what.items == [item.what.items[0]];
  }

  /** Three levels do not work: the title has all of the prefixes, the name only the last one. */
  lemma DeepTitleIsLost()
    ensures Merged([OUTER], SAMPLE, false).res == [Entry("a-b-c", 1.0)]
    ensures AllNames([OUTER]) == ["a", "b", "b-c", "other"]
  {
    hide Visit, GetItems, NamesOf, GetNames;
    LeafVisit();
    assert "a-" + "b" + "-" == "a-b-" && "" + "a" + "-" == "a-";
    GroupVisit("a-", INNER, SAMPLE);
    GroupVisit("", OUTER, SAMPLE);
    OneItem("", OUTER, SAMPLE, false);
    SampleSum();
    SampleNames();
  }

  lemma SampleSum()
    ensures Sum(SAMPLE) == 1.0 && Sum(map[]) == 0.0
  {
    SumAt(SAMPLE, "k");
    assert SAMPLE - {"k"} == map[];
  }

  lemma SampleNames()
    ensures GetNames([OUTER], "", true, {}) == ["a", "b", "b-c"]
  {
    hide GetNames;
    OneName(LEAF, "b");
    OneName(INNER, "a");
    OneName(OUTER, "");
    assert "b" + "-" + "c" == "b-c";
  }

  // ---------------------------------------------------------------- what is displayed

  function Scaled(res: seq<Entry>, factor: real): (r: seq<Entry>)
    ensures |r| == |res| && forall i :: 0 <= i < |r| ==> r[i].title == res[i].title
  {
    if res == [] then [] else [Entry(res[0].title, res[0].value * factor)] + Scaled(res[1..], factor)
  }

  lemma {:induction false} ScaledShown(res: seq<Entry>, factor: real)
    ensures Shown(Scaled(res, factor)) == Shown(res) * factor && Titles(Scaled(res, factor)) == Titles(res)
  {
    if res != [] {
      ScaledShown(res[1..], factor);
      assert Scaled(res, factor)[1..] == Scaled(res[1..], factor);
      Distribute(res[0].value, Shown(res[1..]), factor);
    }
  }

  lemma Distribute(a: real, b: real, f: real)
    ensures a * f + b * f == (a + b) * f
  {
  }

  /** `data[core]`, filled entry by entry; a later entry replaces an earlier one with its title. */
  function Fill(res: seq<Entry>): (r: Values)
  {
    if res == [] then map[] else Fill(res[..|res| - 1])[res[|res| - 1].title := res[|res| - 1].value]
  }

  /** `setdefault` for every label */
  function WithDefaults(m: Values, labels: seq<string>): (r: Values)
    ensures forall l <- labels :: l in r && r[l] == if l in m then m[l] else 0.0
    ensures forall l <- m :: l in r && r[l] == m[l]
  {
    m + map l | l in labels && l !in m :: 0.0
  }

  function Displayed(labels: seq<string>, m: Values): (r: real)
    requires forall l <- labels :: l in m
  {
    if labels == [] then 0.0 else m[labels[0]] + Displayed(labels[1..], m)
  }

  ghost predicate Carries(m: Values, res: seq<Entry>)
  {
    forall i :: 0 <= i < |res| ==> res[i].title in m && m[res[i].title] == res[i].value
  }

  lemma {:induction false} FillTitles(res: seq<Entry>)
    ensures forall l <- Fill(res) :: l in Titles(res)
  {
    if res != [] {
      var n := |res| - 1;
      FillTitles(res[..n]);
      assert res == res[..n] + [res[n]];
      TitlesConcat(res[..n], [res[n]]);
    }
  }

  lemma {:induction false} FillCarries(res: seq<Entry>)
    requires Distinct(Titles(res))
    ensures Carries(Fill(res), res)
  {
    hide Titles;
    if res != [] {
      var n := |res| - 1;
      var before := res[..n];
      assert Distinct(Titles(before)) by {
        assert forall i :: 0 <= i < n ==> Titles(before)[i] == Titles(res)[i];
      }
      FillCarries(before);
      hide Fill;
      forall i | 0 <= i < n
        ensures res[i].title in Fill(before) && Fill(before)[res[i].title] == res[i].value && res[i].title != res[n].title
      {
        assert before[i] == res[i];
        assert Titles(res)[i] != Titles(res)[n];
      }
      FillLast(res);
    }
  }

  lemma FillLast(res: seq<Entry>)
    requires res != []
    ensures var n := |res| - 1; Fill(res) == Fill(res[..n])[res[n].title := res[n].value]
  {
  }

  /** Over labels that contain the titles, the displayed values are the shown ones. */
  lemma {:induction false} DisplayedIs(labels: seq<string>, res: seq<Entry>, m: Values)
    requires Distinct(labels) && Within(Titles(res), labels) && (forall l <- labels :: l in m)
    requires Carries(m, res) && forall l <- labels :: l !in Titles(res) ==> m[l] == 0.0
    ensures Displayed(labels, m) == Shown(res)
    decreases labels
  {
    hide Titles;
    var titles := Titles(res);
    if labels != [] {
      var rest := labels[1..];
      HeadApart(labels);
      if titles != [] && titles[0] == labels[0] && Within(titles[1..], rest) {
        assert titles[1..] == Titles(res[1..]) by { TailTitles(res); }
        assert titles == [titles[0]] + titles[1..];
        CarriesTail(m, res);
        DisplayedIs(rest, res[1..], m);
      } else {
        WithinIn(titles, rest);
        DisplayedIs(rest, res, m);
      }
    }
  }

  lemma HeadApart(labels: seq<string>)
    requires Distinct(labels) && labels != []
    ensures labels[0] !in labels[1..] && Distinct(labels[1..]) && labels == [labels[0]] + labels[1..]
  {
  }

  lemma TailTitles(res: seq<Entry>)
    requires res != []
    ensures Titles(res)[1..] == Titles(res[1..]) && Titles(res)[0] == res[0].title
  {
  }

  lemma CarriesTail(m: Values, res: seq<Entry>)
    requires Carries(m, res) && res != []
    ensures Carries(m, res[1..]) && res[0].title in m && m[res[0].title] == res[0].value
  {
  }

  lemma {:induction false} WithinDistinct(a: seq<string>, b: seq<string>)
    requires Within(a, b) && Distinct(b)
    ensures Distinct(a)
    decreases b
  {
    if a != [] {
      HeadApart(b);
      if a[0] == b[0] && Within(a[1..], b[1..]) {
        WithinDistinct(a[1..], b[1..]);
        WithinIn(a[1..], b[1..]);
        assert a[0] !in a[1..];
      } else {
        WithinDistinct(a, b[1..]);
      }
    }
  }

  /** The labels in use: names that some core has emitted. */
  function Labels(items: seq<Item>, used: set<string>): (r: seq<string>)
  {
    Filter(AllNames(items), (l: string) => l in used)
  }

  /** One core's part of `get_data`. */
  function DataOf(res: seq<Entry>, factor: real, labels: seq<string>): (r: Values)
    ensures forall l <- labels :: l in r
  {
    WithDefaults(Fill(Scaled(res, factor)), labels)
  }

  lemma DataSums(res: seq<Entry>, factor: real, labels: seq<string>)
    requires Distinct(labels) && Within(Titles(res), labels)
    ensures Displayed(labels, DataOf(res, factor, labels)) == Shown(res) * factor
  {
    hide Fill, Titles, Within;
    var scaled := Scaled(res, factor);
    ScaledShown(res, factor);
    WithinDistinct(Titles(res), labels);
    FillTitles(scaled);
    FillCarries(scaled);
    DisplayedIs(labels, scaled, DataOf(res, factor, labels));
  }

  /** Every emitted label is displayed, and a core's displayed stack sums to its values. */
  lemma DisplaySums(items: seq<Item>, values: Values, noCollapse: bool, used: set<string>, factor: real)
    requires Shallow(items) && Distinct(AllNames(items))
    requires forall l <- Titles(Merged(items, values, noCollapse).res) :: l in used
    ensures var res := Merged(items, values, noCollapse).res;
            var labels := Labels(items, used);
            && (forall l <- Titles(res) :: l in labels)
            && Displayed(labels, DataOf(res, factor, labels)) == Sum(values) * factor
  {
    hide Merged, AllNames, Sum, Titles, Distinct, Within, Filter, Shown, Displayed, DataOf, Shallow, KeysOf;
    var res := Merged(items, values, noCollapse).res;
    var labels := Labels(items, used);
    MergedTitles(items, values, noCollapse);
    WithinFilter(Titles(res), AllNames(items), used);
    WithinIn(Titles(res), labels);
    FilterDistinct(AllNames(items), (l: string) => l in used);
    DataSums(res, factor, labels);
    MergedConserves(items, values, noCollapse);
  }
}
