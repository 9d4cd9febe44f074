/** Where space and comments may stand in a JSON text. */
module JsonLayout {
  import opened Json

  // ---------------------------------------------------------------- gaps

  /** What the reader skips between two tokens, whatever comes next. */
  ghost predicate Gap(g: string)
  {
    forall s: string :: ParseSpace(g + s) == ParseSpace(s)
  }

  /** Too short to close a comment. */
  lemma ShortTexts(h: string)
    ensures |h| <= 1 ==> SkipBlock(h + "]").Fail?
    ensures h == [] ==> SkipLine(h + "]") == []
    ensures |h| == 1 && h[0] == '/' ==> ParseComment(h + "]").Fail?
  {
    assert SkipBlock("]").Fail? by { assert "]"[1..] == []; }
    if |h| == 0 {
      assert h + "]" == "]";
      assert "]"[1..] == [];
    } else if |h| == 1 {
      assert (h + "]")[1..] == "]";
    }
  }

  /** Skipping a block comment that is closed inside `h` does not look at what follows `h`. */
  lemma {:induction false} BlockLocal(h: string, s: string) returns (left: string)
    requires SkipBlock(h + "]").Ok?
    ensures |left| < |h| && SkipBlock(h + "]").rest == left + "]"
    ensures SkipBlock(h + s) == Ok((), left + s)
  {
    ShortTexts(h);
    var t, u := h + "]", h + s;
    assert t[1..] == h[1..] + "]" && u[1..] == h[1..] + s;
    assert t[1] == u[1] == h[1];
    if h[0] == '*' && h[1] == '/' {
      left := h[2..];
      assert t[2..] == left + "]" && u[2..] == left + s;
    } else {
      left := BlockLocal(h[1..], s);
    }
  }

  lemma {:induction false} LineLocal(h: string, s: string) returns (left: string)
    requires SkipLine(h + "]") != []
    ensures |left| < |h| && SkipLine(h + "]") == left + "]" && SkipLine(h + s) == left + s
  {
    ShortTexts(h);
    assert (h + "]")[1..] == h[1..] + "]" && (h + s)[1..] == h[1..] + s;
    if h[0] == '\r' || h[0] == '\n' {
      left := h[1..];
    } else {
      left := LineLocal(h[1..], s);
    }
  }

  lemma CommentLocal(g: string, s: string) returns (left: string)
    requires Starts(g, '/') && ParseComment(g + "]").Ok? && ParseComment(g + "]").rest != []
    ensures |left| < |g| && ParseComment(g + "]").rest == left + "]" && ParseComment(g + s) == Ok((), left + s)
  {
    hide SkipLine, SkipBlock;
    var t, u := g + "]", g + s;
    ShortTexts(g);
    assert t[1] == u[1] == g[1] && t[2..] == g[2..] + "]" && u[2..] == g[2..] + s;
    if g[1] == '/' {
      left := LineLocal(g[2..], s);
    } else {
      left := BlockLocal(g[2..], s);
    }
  }

  lemma {:induction false} SkippedBefore(g: string, s: string)
    requires ParseSpace(g + "]") == Ok((), "]")
    ensures ParseSpace(g + s) == ParseSpace(s)
    decreases |g|
  {
    hide ParseComment;
    if g == [] {
      assert g + s == s;
    } else if IsSpace(g[0]) {
      assert (g + "]")[1..] == g[1..] + "]" && (g + s)[1..] == g[1..] + s;
      SkippedBefore(g[1..], s);
    } else {
      assert g[0] == '/' by {
        assert g[0] != '/' ==> ParseSpace(g + "]") == Ok((), g + "]");
        assert |g + "]"| > |"]"|;
      }
      var left := CommentLocal(g, s);
      SkippedBefore(left, s);
    }
  }

  /** A gap is a text that the reader skips in front of a bracket: whole comments and space. */
  lemma GapExact(g: string)
    ensures Gap(g) <==> ParseSpace(g + "]") == Ok((), "]")
  {
    assert ParseSpace("]") == Ok((), "]");
    if ParseSpace(g + "]") == Ok((), "]") {
      forall s: string
        ensures ParseSpace(g + s) == ParseSpace(s)
      {
        SkippedBefore(g, s);
      }
    }
  }

  lemma GapStarts(g: string, s: string)
    requires Gap(g) && g != []
    ensures IsSpace((g + s)[0]) || (g + s)[0] == '/'
  {
    GapExact(g);
    assert (g + s)[0] == (g + "]")[0] == g[0];
    assert |g + "]"| > |"]"|;
  }

  lemma GapSkipped(g: string, s: string)
    requires Gap(g)
    ensures ParseSpace(g + s) == ParseSpace(s) && ParseValue(g + s) == ParseValue(s)
    ensures ParseEnd(g + s, ']') == ParseEnd(s, ']') && ParseEnd(g + s, '}') == ParseEnd(s, '}')
  {
    hide ParseSpace, ParseArray, ParseObject, ParseString, ParseNumber, ParseWord;
  }

  lemma GapEnds(g: string, s: string)
    requires Gap(g) && Ends(s)
    ensures Ends(g + s)
  {
    hide Gap;
    if g == [] {
      assert g + s == s;
    } else {
      GapStarts(g, s);
    }
  }

  // ---------------------------------------------------------------- laid-out values

  /** A value with the gaps around its tokens; `inner` stands between the brackets if there is nothing else. */
  datatype Doc =
    | Atom(value: Value)
    | Items(items: seq<Item>, inner: string)
    | Entries(entries: seq<Entry>, inner: string)

  datatype Item = Item(before: string, doc: Doc, after: string)

  datatype Entry = Entry(before: string, key: string, afterKey: string, beforeValue: string, doc: Doc, after: string)

  function Meaning(d: Doc): (v: Value)
  {
    match d
    case Atom(value) => value
    case Items(items, _) => List(Meanings(items))
    case Entries(entries, _) => Dict(PutAll([], entries))
  }

  function Meanings(items: seq<Item>): (vs: seq<Value>)
  {
    if items == [] then [] else [Meaning(items[0].doc)] + Meanings(items[1..])
  }

  /** A repeated key replaces the value. */
  function PutAll(acc: seq<Member>, entries: seq<Entry>): (ms: seq<Member>)
    decreases entries
  {
    if entries == [] then acc else PutAll(Put(acc, entries[0].key, Meaning(entries[0].doc)), entries[1..])
  }

  function Show(d: Doc, slash: bool): (s: string)
    decreases d
  {
    match d
    case Atom(value) => Text(value, slash)
    case Items(items, inner) => "[" + (if items == [] then inner else ShowItems(items, slash)) + "]"
    case Entries(entries, inner) => "{" + (if entries == [] then inner else ShowEntries(entries, slash)) + "}"
  }

  function ShowItems(items: seq<Item>, slash: bool): (s: string)
    requires items != []
    decreases items
  {
    var it := items[0];
    it.before + Show(it.doc, slash) + it.after + if |items| == 1 then [] else "," + ShowItems(items[1..], slash)
  }

  function ShowEntry(e: Entry, slash: bool): (s: string)
    decreases e
  {
    e.before + StringText(e.key, slash) + e.afterKey + ":" + e.beforeValue + Show(e.doc, slash)
  }

  function ShowEntries(entries: seq<Entry>, slash: bool): (s: string)
    requires entries != []
    decreases entries
  {
    var e := entries[0];
    ShowEntry(e, slash) + e.after + if |entries| == 1 then [] else "," + ShowEntries(entries[1..], slash)
  }

  /** Gaps wherever two tokens meet, and nothing but single values as atoms. */
  ghost predicate WellSpaced(d: Doc)
  {
    match d
    case Atom(value) => !value.List? && !value.Dict?
    case Items(items, inner) => Gap(inner) && forall i :: 0 <= i < |items| ==> SpacedItem(items[i])
    case Entries(entries, inner) => Gap(inner) && forall i :: 0 <= i < |entries| ==> SpacedEntry(entries[i])
  }

  ghost predicate SpacedItem(it: Item)
  {
    Gap(it.before) && Gap(it.after) && WellSpaced(it.doc)
  }

  ghost predicate SpacedEntry(e: Entry)
  {
    Gap(e.before) && Gap(e.afterKey) && Gap(e.beforeValue) && Gap(e.after) && WellSpaced(e.doc)
  }

  /** Nothing between the brackets of an empty list or dictionary, anywhere inside. */
  predicate Tight(d: Doc)
  {
    match d
    case Atom(_) => true
    case Items(items, inner) => (items == [] ==> inner == []) && forall i :: 0 <= i < |items| ==> Tight(items[i].doc)
    case Entries(entries, inner) => (entries == [] ==> inner == []) && forall i :: 0 <= i < |entries| ==> Tight(entries[i].doc)
  }

  predicate TightItems(items: seq<Item>) { forall i :: 0 <= i < |items| ==> Tight(items[i].doc) }

  predicate TightEntries(entries: seq<Entry>) { forall i :: 0 <= i < |entries| ==> Tight(entries[i].doc) }

  /** What reading is to give: the value, or an error if something is not tight. */
  function Expected(tight: bool, v: Value, rest: string): (r: Parsed<Value>)
  {
    if tight then Ok(v, rest) else Fail(ReadException)
  }

  // ---------------------------------------------------------------- reading laid-out text

  lemma ShowStarts(d: Doc, slash: bool, rest: string)
    requires WellSpaced(d)
    ensures Show(d, slash) != [] && Token((Show(d, slash) + rest)[0])
  {
    if d.Atom? {
      TextStarts(d.value, slash, rest);
    }
  }

  /** The first character after an opening bracket is not a closing one. */
  lemma BeforeValue(g: string, s: string)
    requires Gap(g) && s != [] && Token(s[0])
    ensures (g + s)[0] != ']' && (g + s)[0] != '}'
  {
    hide Gap;
    if g == [] {
      assert g + s == s;
    } else {
      GapStarts(g, s);
    }
  }

  /** Space between the brackets of an empty list or dictionary is an error. */
  lemma InnerFails(g: string, rest: string)
    requires Gap(g) && g != []
    ensures ParseValue("[" + g + "]" + rest) == Fail(ReadException)
    ensures ParseValue("{" + g + "}" + rest) == Fail(ReadException)
  {
    hide Gap, ParseSpace;
    var a, b := g + ("]" + rest), g + ("}" + rest);
    assert "[" + g + "]" + rest == "[" + a && "{" + g + "}" + rest == "{" + b;
    GapStarts(g, "]" + rest);
    GapStarts(g, "}" + rest);
    OpenNonempty(a);
    OpenNonempty(b);
    GapSkipped(g, "]" + rest);
    GapSkipped(g, "}" + rest);
    NoSpace("]" + rest);
    NoSpace("}" + rest);
    assert ParseValue(a) == Fail(ReadException) && ParseValue(b) == Fail(ReadException);
  }

  lemma OpenNonempty(body: string)
    requires body != [] && body[0] != ']' && body[0] != '}'
    ensures ParseValue("[" + body) == ParseItems(body, [])
    ensures ParseValue("{" + body) == ParseMembers(body, [])
  {
    hide ParseSpace, ParseItems, ParseMembers;
    NoSpace("[" + body);
    NoSpace("{" + body);
    assert ("[" + body)[1..] == body && ("{" + body)[1..] == body;
  }

  /** A laid-out value is read back, whatever space and comments stand between its tokens, if and only if there is
      nothing between the brackets of an empty list or dictionary; otherwise reading fails. */
  lemma {:induction false} LayoutExact(d: Doc, slash: bool, rest: string)
    requires WellSpaced(d) && Ends(rest)
    ensures ParseValue(Show(d, slash) + rest) == Expected(Tight(d), Meaning(d), rest)
    decreases d, 1
  {
    match d
    case Atom(value) => ValueBack(value, slash, rest);
    case Items(items, inner) =>
      if items == [] { EmptyLaid(d, slash, rest); } else { ListLaid(items, inner, slash, rest); }
    case Entries(entries, inner) =>
      if entries == [] { EmptyLaid(d, slash, rest); } else { DictLaid(entries, inner, slash, rest); }
  }

  lemma EmptyLaid(d: Doc, slash: bool, rest: string)
    requires WellSpaced(d) && ((d.Items? && d.items == []) || (d.Entries? && d.entries == []))
    ensures ParseValue(Show(d, slash) + rest) == Expected(Tight(d), Meaning(d), rest)
  {
    hide ParseValue, Gap;
    if d.inner == [] {
      EmptyBack(rest);
      assert "[" + [] + "]" == "[]" && "{" + [] + "}" == "{}";
    } else {
      InnerFails(d.inner, rest);
    }
  }

  lemma ListLaid(items: seq<Item>, inner: string, slash: bool, rest: string)
    requires WellSpaced(Items(items, inner)) && items != [] && Ends(rest)
    ensures ParseValue(Show(Items(items, inner), slash) + rest) == Expected(TightItems(items), List(Meanings(items)), rest)
    decreases items, 2
  {
    hide ParseValue, ParseItems, Gap, Show, ShowItems, Meanings, TightItems;
    var body := ShowItems(items, slash) + "]" + rest;
    assert Show(Items(items, inner), slash) + rest == "[" + body by { ShowList(items, inner, slash); }
    assert SpacedItem(items[0]);
    ItemsHead(items, slash, "]" + rest);
    assert body == ShowItems(items, slash) + ("]" + rest);
    ShowStarts(items[0].doc, slash, ItemsTail(items, slash, "]" + rest));
    BeforeValue(items[0].before, Show(items[0].doc, slash) + ItemsTail(items, slash, "]" + rest));
    OpenNonempty(body);
    ItemsLaid(items, slash, [], rest);
    assert [] + Meanings(items) == Meanings(items);
  }

  lemma ShowList(items: seq<Item>, inner: string, slash: bool)
    requires items != []
    ensures Show(Items(items, inner), slash) == "[" + ShowItems(items, slash) + "]"
  {
  }

  /** What follows the first value. */
  function ItemsTail(items: seq<Item>, slash: bool, rest: string): (s: string)
    requires items != []
  {
    items[0].after + if |items| == 1 then rest else "," + (ShowItems(items[1..], slash) + rest)
  }

  lemma ItemsHead(items: seq<Item>, slash: bool, rest: string)
    requires items != []
    ensures ShowItems(items, slash) + rest == items[0].before + (Show(items[0].doc, slash) + ItemsTail(items, slash, rest))
  {
    hide Show;
  }

  /** What follows the first value and its gap: the end, or the other items. */
  function ItemsNext(items: seq<Item>, slash: bool, rest: string): (s: string)
    requires items != []
  {
    if |items| == 1 then "]" + rest else "," + (ShowItems(items[1..], slash) + "]" + rest)
  }

  lemma ItemLaid(items: seq<Item>, slash: bool, rest: string)
    requires items != [] && SpacedItem(items[0])
    ensures var after := items[0].after + ItemsNext(items, slash, rest);
            && ParseValue(ShowItems(items, slash) + "]" + rest) == Expected(Tight(items[0].doc), Meaning(items[0].doc), after)
            && ParseEnd(after, ']') == ParseEnd(ItemsNext(items, slash, rest), ']')
    decreases items, 0
  {
    hide ParseValue, ParseEnd, Gap, Show, ShowItems, Tight, WellSpaced;
    var it, next := items[0], ItemsNext(items, slash, rest);
    assert ShowItems(items, slash) + "]" + rest == ShowItems(items, slash) + ("]" + rest);
    ItemsHead(items, slash, "]" + rest);
    assert ItemsTail(items, slash, "]" + rest) == it.after + next by {
      if |items| > 1 {
        assert ShowItems(items[1..], slash) + ("]" + rest) == ShowItems(items[1..], slash) + "]" + rest;
      }
    }
    GapSkipped(it.before, Show(it.doc, slash) + (it.after + next));
    GapEnds(it.after, next);
    LayoutExact(it.doc, slash, it.after + next);
    GapSkipped(it.after, next);
  }

  lemma {:induction false} ItemsLaid(items: seq<Item>, slash: bool, acc: seq<Value>, rest: string)
    requires items != [] && (forall i :: 0 <= i < |items| ==> SpacedItem(items[i])) && Ends(rest)
    ensures ParseItems(ShowItems(items, slash) + "]" + rest, acc) ==
            Expected(TightItems(items), List(acc + Meanings(items)), rest)
    decreases items, 1
  {
    hide ParseValue, ParseEnd, SpacedItem, Show, ShowItems, Tight;
    ItemLaid(items, slash, rest);
    TightFirst(items);
    var v := Meaning(items[0].doc);
    assert Meanings(items) == [v] + Meanings(items[1..]);
    if |items| == 1 {
      EndBack(']', rest);
      assert items[1..] == [];
      assert [v] + [] == [v];
    } else {
      EndBack(']', ShowItems(items[1..], slash) + "]" + rest);
      ItemsLaid(items[1..], slash, acc + [v], rest);
      assert acc + [v] + Meanings(items[1..]) == acc + Meanings(items);
    }
  }

  lemma TightFirst(items: seq<Item>)
    requires items != []
    ensures TightItems(items) <==> Tight(items[0].doc) && TightItems(items[1..])
  {
    hide Tight;
    assert forall i :: 1 <= i < |items| ==> items[i] == items[1..][i - 1];
  }

  lemma DictLaid(entries: seq<Entry>, inner: string, slash: bool, rest: string)
    requires WellSpaced(Entries(entries, inner)) && entries != [] && Ends(rest)
    ensures ParseValue(Show(Entries(entries, inner), slash) + rest) ==
            Expected(TightEntries(entries), Dict(PutAll([], entries)), rest)
    decreases entries, 3
  {
    hide ParseValue, ParseMembers, Gap, Show, ShowEntries, ShowEntry, PutAll, TightEntries;
    var body := ShowEntries(entries, slash) + "}" + rest;
    assert Show(Entries(entries, inner), slash) + rest == "{" + body by { ShowDict(entries, inner, slash); }
    assert SpacedEntry(entries[0]);
    EntriesHead(entries, slash, "}" + rest);
    assert body == ShowEntries(entries, slash) + ("}" + rest);
    var tail := EntriesTail(entries, slash, "}" + rest);
    EntryHead(entries[0], slash, tail);
    KeyStarts(entries[0], slash, tail);
    BeforeValue(entries[0].before, StringText(entries[0].key, slash) + AfterKey(entries[0], slash, tail));
    OpenNonempty(body);
    EntriesLaid(entries, slash, [], rest);
  }

  lemma ShowDict(entries: seq<Entry>, inner: string, slash: bool)
    requires entries != []
    ensures Show(Entries(entries, inner), slash) == "{" + ShowEntries(entries, slash) + "}"
  {
  }

  function EntriesTail(entries: seq<Entry>, slash: bool, rest: string): (s: string)
    requires entries != []
  {
    entries[0].after + if |entries| == 1 then rest else "," + (ShowEntries(entries[1..], slash) + rest)
  }

  lemma EntriesHead(entries: seq<Entry>, slash: bool, rest: string)
    requires entries != []
    ensures ShowEntries(entries, slash) + rest == ShowEntry(entries[0], slash) + EntriesTail(entries, slash, rest)
  {
    hide ShowEntry;
  }

  /** The colon, the value and the rest. */
  function AfterKey(e: Entry, slash: bool, rest: string): (s: string)
  {
    e.afterKey + (":" + (e.beforeValue + (Show(e.doc, slash) + rest)))
  }

  lemma EntryHead(e: Entry, slash: bool, rest: string)
    ensures ShowEntry(e, slash) + rest == e.before + (StringText(e.key, slash) + AfterKey(e, slash, rest))
  {
    hide Show, StringText;
  }

  lemma KeyStarts(e: Entry, slash: bool, rest: string)
    ensures Token((StringText(e.key, slash) + AfterKey(e, slash, rest))[0])
  {
  }

  lemma ColonLaid(e: Entry, slash: bool, rest: string)
    requires SpacedEntry(e)
    ensures ParseColon(AfterKey(e, slash, rest)) == Ok((), Show(e.doc, slash) + rest)
  {
    hide Gap, ParseSpace, Show, WellSpaced;
    var value := Show(e.doc, slash) + rest;
    GapSkipped(e.afterKey, ":" + (e.beforeValue + value));
    NoSpace(":" + (e.beforeValue + value));
    assert (":" + (e.beforeValue + value))[1..] == e.beforeValue + value;
    GapSkipped(e.beforeValue, value);
    ShowStarts(e.doc, slash, rest);
    NoSpace(value);
  }

  lemma EntryLaid(e: Entry, slash: bool, rest: string)
    requires SpacedEntry(e) && Ends(rest)
    ensures ParseMember(ShowEntry(e, slash) + rest) ==
            if Tight(e.doc) then Ok(Member(e.key, Meaning(e.doc)), rest) else Fail(ReadException)
    decreases e, 2
  {
    hide ParseValue, ParseColon, Gap, Show, WellSpaced, Tight;
    EntryHead(e, slash, rest);
    GapSkipped(e.before, StringText(e.key, slash) + AfterKey(e, slash, rest));
    StringBack(e.key, slash, AfterKey(e, slash, rest));
    ColonLaid(e, slash, rest);
    LayoutExact(e.doc, slash, rest);
  }

  function EntriesNext(entries: seq<Entry>, slash: bool, rest: string): (s: string)
    requires entries != []
  {
    if |entries| == 1 then "}" + rest else "," + (ShowEntries(entries[1..], slash) + "}" + rest)
  }

  lemma FirstEntryLaid(entries: seq<Entry>, slash: bool, rest: string)
    requires entries != [] && SpacedEntry(entries[0])
    ensures var e, after := entries[0], entries[0].after + EntriesNext(entries, slash, rest);
            && ParseMember(ShowEntries(entries, slash) + "}" + rest) ==
               (if Tight(e.doc) then Ok(Member(e.key, Meaning(e.doc)), after) else Fail(ReadException))
            && ParseEnd(after, '}') == ParseEnd(EntriesNext(entries, slash, rest), '}')
    decreases entries, 0
  {
    hide ParseMember, ParseEnd, Gap, ShowEntry, ShowEntries, Tight, WellSpaced;
    var e, next := entries[0], EntriesNext(entries, slash, rest);
    assert ShowEntries(entries, slash) + "}" + rest == ShowEntries(entries, slash) + ("}" + rest);
    EntriesHead(entries, slash, "}" + rest);
    assert EntriesTail(entries, slash, "}" + rest) == e.after + next by {
      if |entries| > 1 {
        assert ShowEntries(entries[1..], slash) + ("}" + rest) == ShowEntries(entries[1..], slash) + "}" + rest;
      }
    }
    GapEnds(e.after, next);
    EntryLaid(e, slash, e.after + next);
    GapSkipped(e.after, next);
  }

  lemma {:induction false} EntriesLaid(entries: seq<Entry>, slash: bool, acc: seq<Member>, rest: string)
    requires entries != [] && (forall i :: 0 <= i < |entries| ==> SpacedEntry(entries[i])) && Ends(rest)
    ensures ParseMembers(ShowEntries(entries, slash) + "}" + rest, acc) ==
            Expected(TightEntries(entries), Dict(PutAll(acc, entries)), rest)
    decreases entries, 1
  {
    hide ParseMember, ParseEnd, SpacedEntry, ShowEntries, Tight, Put;
    FirstEntryLaid(entries, slash, rest);
    TightFirstEntry(entries);
    var e := entries[0];
    if |entries| == 1 {
      EndBack('}', rest);
      assert entries[1..] == [];
    } else {
      EndBack('}', ShowEntries(entries[1..], slash) + "}" + rest);
      EntriesLaid(entries[1..], slash, Put(acc, e.key, Meaning(e.doc)), rest);
    }
  }

  lemma TightFirstEntry(entries: seq<Entry>)
    requires entries != []
    ensures TightEntries(entries) <==> Tight(entries[0].doc) && TightEntries(entries[1..])
  {
    hide Tight;
    assert forall i :: 1 <= i < |entries| ==> entries[i] == entries[1..][i - 1];
  }
}
