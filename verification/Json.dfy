/** The JSON writer and reader: what is written is read back. */
module Json {

  /** A dictionary is the list of its items, in the order in which it lists them. */
  datatype Value =
    | Null
    | Bool(b: bool)
    | Int(n: int)
    | Str(s: string)
    | List(items: seq<Value>)
    | Dict(members: seq<Member>)

  datatype Member = Member(key: string, value: Value)

  ghost predicate DistinctKeys(ms: seq<Member>)
  {
    forall i, j :: 0 <= i < j < |ms| ==> ms[i].key != ms[j].key
  }

  /** Every dictionary inside has each key once, as dictionaries do. */
  ghost predicate Proper(v: Value)
  {
    match v
    case List(items) => forall i :: 0 <= i < |items| ==> Proper(items[i])
    case Dict(members) => DistinctKeys(members) && forall i :: 0 <= i < |members| ==> Proper(members[i].value)
    case _ => true
  }

  // ---------------------------------------------------------------- writing

  const BS := '\U{0008}'
  const FF := '\U{000C}'
  const QUOTE := '\"'

  /** `str.replace` for a one-character pattern */
  function Replace(s: string, c: char, repl: string): (r: string)
  {
    if s == [] then [] else (if s[0] == c then repl else [s[0]]) + Replace(s[1..], c, repl)
  }

  function EscapeChar(c: char, slash: bool): (r: string)
  {
    if c == '\\' then "\\\\"
    else if c == '/' && slash then "\\/"
    else if c == QUOTE then "\\\""
    else if c == BS then "\\b"
    else if c == FF then "\\f"
    else if c == '\n' then "\\n"
    else if c == '\r' then "\\r"
    else if c == '\t' then "\\t"
    else [c]
  }

  function Escape(s: string, slash: bool): (r: string)
  {
    if s == [] then [] else EscapeChar(s[0], slash) + Escape(s[1..], slash)
  }

  function Digit(d: nat): (c: char)
    requires d < 10
    ensures '0' <= c <= '9'
  {
    '0' + d as char
  }

  function Decimal(n: nat): (r: string)
    ensures r != [] && AllDigits(r)
  {
    if n < 10 then [Digit(n)] else Decimal(n / 10) + [Digit(n % 10)]
  }

  /** `str` of an integer */
  function IntText(n: int): (r: string)
  {
    if n < 0 then "-" + Decimal(-n) else Decimal(n)
  }

  function Text(v: Value, slash: bool): (r: string)
    decreases v
  {
    match v
    case Null => "null"
    case Bool(b) => if b then "true" else "false"
    case Int(n) => IntText(n)
    case Str(s) => StringText(s, slash)
    case List(items) => "[" + ItemsText(items, slash) + "]"
    case Dict(members) => "{" + MembersText(members, slash) + "}"
  }

  function StringText(s: string, slash: bool): (r: string)
  {
    "\"" + Escape(s, slash) + "\""
  }

  function ItemsText(items: seq<Value>, slash: bool): (r: string)
    decreases items
  {
    if items == [] then []
    else Text(items[0], slash) + (if |items| > 1 then "," else "") + ItemsText(items[1..], slash)
  }

  function MemberText(m: Member, slash: bool): (r: string)
    decreases m
  {
    StringText(m.key, slash) + ":" + Text(m.value, slash)
  }

  function MembersText(members: seq<Member>, slash: bool): (r: string)
    decreases members
  {
    if members == [] then []
    else MemberText(members[0], slash) + (if |members| > 1 then "," else "") + MembersText(members[1..], slash)
  }

  // ---------------------------------------------------------------- reading

  /** `Unmodelled`: numbers with a fraction or an exponent. */
  datatype Error = ReadException | StopIteration | UnicodeError | Unmodelled

  datatype Parsed<T> = Ok(value: T, rest: string) | Fail(error: Error)

  predicate IsDigit(c: char) { '0' <= c <= '9' }

  predicate AllDigits(s: string) { forall i :: 0 <= i < |s| ==> IsDigit(s[i]) }

  predicate IsSpace(c: char) { c == ' ' || c == '\t' || c == '\n' || c == '\r' || c == '\U{000B}' || c == FF }

  predicate Starts(s: string, c: char) { s != [] && s[0] == c }

  function HexDigit(c: char): (d: Parsed<nat>)
    ensures d.Ok? ==> d.value < 16
  {
    if 'A' <= c <= 'F' then Ok((c - 'A') as nat + 10, [])
    else if 'a' <= c <= 'f' then Ok((c - 'a') as nat + 10, [])
    else if IsDigit(c) then Ok((c - '0') as nat, [])
    else Fail(ReadException)
  }

  /** What follows a backslash: one character, and the text after it. */
  function Unescape(s: string): (r: Parsed<char>)
    ensures r.Ok? ==> |r.rest| < |s|
  {
    if s == [] then Fail(ReadException)
    else if s[0] == 'b' then Ok(BS, s[1..])
    else if s[0] == 'r' then Ok('\r', s[1..])
    else if s[0] == 'n' then Ok('\n', s[1..])
    else if s[0] == 'f' then Ok(FF, s[1..])
    else if s[0] == 't' then Ok('\t', s[1..])
    else if s[0] == 'u' then Unicode(s[1..])
    else if s[0] == QUOTE || s[0] == '/' || s[0] == '\\' then Ok(s[0], s[1..])
    else Fail(ReadException)
  }

  /** Only ASCII characters can be written to the byte buffer. */
  function Unicode(s: string): (r: Parsed<char>)
    ensures r.Ok? ==> |r.rest| + 4 == |s|
  {
    if |s| < 4 then Fail(ReadException)
    else
      var a, b, c, d := HexDigit(s[0]), HexDigit(s[1]), HexDigit(s[2]), HexDigit(s[3]);
      if a.Fail? || b.Fail? || c.Fail? || d.Fail? then Fail(ReadException)
      else
        var n := 4096 * a.value + 256 * b.value + 16 * c.value + d.value;
        if n < 128 then Ok(n as char, s[4..]) else Fail(UnicodeError)
  }

  /** The text after the opening quote; `acc` is what has been collected. */
  function ParseString(s: string, acc: string): (r: Parsed<string>)
    ensures r.Ok? ==> |r.rest| < |s|
    decreases |s|
  {
    if s == [] then Fail(ReadException)
    else if s[0] == QUOTE then Ok(acc, s[1..])
    else if s[0] == '\\' then
      var r := Unescape(s[1..]);
      if r.Fail? then Fail(r.error) else ParseString(r.rest, acc + [r.value])
    else ParseString(s[1..], acc + [s[0]])
  }

  function LeadingDigits(s: string): (n: nat)
    ensures n <= |s| && AllDigits(s[..n])
    ensures n < |s| ==> !IsDigit(s[n])
  {
    if s != [] && IsDigit(s[0]) then
      var k := LeadingDigits(s[1..]);
      assert s[..k + 1] == [s[0]] + s[1..][..k];
      k + 1
    else 0
  }

  function Number(s: string): (n: int)
    requires AllDigits(s)
  {
    if s == [] then 0 else 10 * Number(s[..|s| - 1]) + (s[|s| - 1] - '0') as int
  }

  predicate Numeral(s: string)
  {
    s != [] && (s[0] == '-' || IsDigit(s[0])) && AllDigits(s[1..])
  }

  /** The numeral that was collected, and the text after it. */
  function Convert(numeral: string, rest: string): (r: Parsed<int>)
    requires Numeral(numeral)
    ensures r.Ok? ==> r.rest == rest
  {
    if Starts(rest, '.') || Starts(rest, 'e') then Fail(Unmodelled)
    else if numeral[0] != '-' then
      assert numeral == [numeral[0]] + numeral[1..];
      Ok(Number(numeral), rest)
    else if |numeral| == 1 then Fail(ReadException)
    else Ok(-Number(numeral[1..]), rest)
  }

  function ParseNumber(s: string): (r: Parsed<int>)
    requires s != [] && (s[0] == '-' || IsDigit(s[0]))
    ensures r.Ok? ==> |r.rest| < |s|
  {
    var n := 1 + LeadingDigits(s[1..]);
    assert s[..n][1..] == s[1..][..n - 1];
    Convert(s[..n], s[n..])
  }

  function ParseWord(s: string, word: string, v: Value): (r: Parsed<Value>)
    requires word != []
    ensures r.Ok? ==> |r.rest| < |s|
    decreases |word|
  {
    if s == [] then Fail(StopIteration)
    else if s[0] != word[0] then Fail(ReadException)
    else if |word| == 1 then Ok(v, s[1..])
    else ParseWord(s[1..], word[1..], v)
  }

  /** The text after `//`: up to the end of the line, or of the text. */
  function SkipLine(s: string): (r: string)
    ensures |r| <= |s|
  {
    if s == [] then [] else if s[0] == '\r' || s[0] == '\n' then s[1..] else SkipLine(s[1..])
  }

  /** The text after the opening of a C-style comment, which may not contain another opening. */
  function SkipBlock(s: string): (r: Parsed<()>)
    ensures r.Ok? ==> |r.rest| < |s|
  {
    if s == [] then Fail(ReadException)
    else if s[0] == '*' && Starts(s[1..], '/') then Ok((), s[2..])
    else if s[0] == '/' && Starts(s[1..], '*') then Fail(ReadException)
    else SkipBlock(s[1..])
  }

  function ParseComment(s: string): (r: Parsed<()>)
    requires Starts(s, '/')
    ensures r.Ok? ==> |r.rest| < |s|
  {
    if |s| == 1 then Fail(StopIteration)
    else if s[1] == '/' then Ok((), SkipLine(s[2..]))
    else if s[1] == '*' then SkipBlock(s[2..])
    else Fail(ReadException)
  }

  /** The space and the comments before the next token. */
  function ParseSpace(s: string): (r: Parsed<()>)
    ensures r.Ok? ==> |r.rest| <= |s|
    decreases |s|
  {
    if s == [] then Ok((), s)
    else if IsSpace(s[0]) then ParseSpace(s[1..])
    else if s[0] == '/' then
      var r := ParseComment(s);
      if r.Fail? then r else ParseSpace(r.rest)
    else Ok((), s)
  }

  function ParseValue(s: string): (r: Parsed<Value>)
    ensures r.Ok? ==> |r.rest| < |s|
    decreases |s|, 0
  {
    var space := ParseSpace(s);
    if space.Fail? then Fail(space.error)
    else if space.rest == [] then Fail(ReadException)
    else
      var s1 := space.rest;
      var c := s1[0];
      if c == '{' then ParseObject(s1[1..])
      else if c == '[' then ParseArray(s1[1..])
      else if c == QUOTE then
        var r := ParseString(s1[1..], []);
        if r.Fail? then Fail(r.error) else Ok(Str(r.value), r.rest)
      else if c == '-' || IsDigit(c) then
        var r := ParseNumber(s1);
        if r.Fail? then Fail(r.error) else Ok(Int(r.value), r.rest)
      else if c == 't' then ParseWord(s1, "true", Bool(true))
      else if c == 'f' then ParseWord(s1, "false", Bool(false))
      else if c == 'n' then ParseWord(s1, "null", Null)
      else Fail(ReadException)
  }

  /** The text after the opening bracket. */
  function ParseArray(s: string): (r: Parsed<Value>)
    ensures r.Ok? ==> |r.rest| < |s|
    decreases |s|, 3
  {
    if Starts(s, ']') then Ok(List([]), s[1..]) else ParseItems(s, [])
  }

  function ParseObject(s: string): (r: Parsed<Value>)
    ensures r.Ok? ==> |r.rest| < |s|
    decreases |s|, 3
  {
    if Starts(s, '}') then Ok(Dict([]), s[1..]) else ParseMembers(s, [])
  }

  /** Space, then either the end of the list or a comma. */
  function ParseEnd(s: string, close: char): (r: Parsed<bool>)
    ensures r.Ok? ==> |r.rest| < |s|
  {
    var space := ParseSpace(s);
    if space.Fail? then Fail(space.error)
    else if space.rest == [] then Fail(StopIteration)
    else if space.rest[0] == close then Ok(true, space.rest[1..])
    else if space.rest[0] == ',' then Ok(false, space.rest[1..])
    else Fail(ReadException)
  }

  function ParseItems(s: string, acc: seq<Value>): (r: Parsed<Value>)
    ensures r.Ok? ==> |r.rest| < |s|
    decreases |s|, 1
  {
    var item := ParseValue(s);
    if item.Fail? then Fail(item.error)
    else
      var end := ParseEnd(item.rest, ']');
      if end.Fail? then Fail(end.error)
      else if end.value then Ok(List(acc + [item.value]), end.rest)
      else ParseItems(end.rest, acc + [item.value])
  }

  /** `result[key] = val` */
  function Put(ms: seq<Member>, key: string, value: Value): (r: seq<Member>)
  {
    if ms == [] then [Member(key, value)]
    else if ms[0].key == key then [Member(key, value)] + ms[1..]
    else [ms[0]] + Put(ms[1..], key, value)
  }

  /** The colon between key and value, with space around it. */
  function ParseColon(s: string): (r: Parsed<()>)
    ensures r.Ok? ==> |r.rest| < |s|
  {
    var space := ParseSpace(s);
    if space.Fail? then Fail(space.error)
    else if space.rest == [] then Fail(StopIteration)
    else if space.rest[0] != ':' then Fail(ReadException)
    else ParseSpace(space.rest[1..])
  }

  function ParseMember(s: string): (r: Parsed<Member>)
    ensures r.Ok? ==> |r.rest| < |s|
    decreases |s|, 1
  {
    var key := ParseValue(s);
    if key.Fail? then Fail(key.error)
    else if !key.value.Str? then Fail(ReadException)
    else
      var colon := ParseColon(key.rest);
      if colon.Fail? then Fail(colon.error)
      else
        var val := ParseValue(colon.rest);
        if val.Fail? then Fail(val.error) else Ok(Member(key.value.s, val.value), val.rest)
  }

  function ParseMembers(s: string, acc: seq<Member>): (r: Parsed<Value>)
    ensures r.Ok? ==> |r.rest| < |s|
    decreases |s|, 2
  {
    var m := ParseMember(s);
    if m.Fail? then Fail(m.error)
    else
      var end := ParseEnd(m.rest, '}');
      if end.Fail? then Fail(end.error)
      else if end.value then Ok(Dict(Put(acc, m.value.key, m.value.value)), end.rest)
      else ParseMembers(end.rest, Put(acc, m.value.key, m.value.value))
  }

  // ---------------------------------------------------------------- the chain of replacements

  lemma {:induction false} ReplaceConcat(a: string, b: string, c: char, repl: string)
    ensures Replace(a + b, c, repl) == Replace(a, c, repl) + Replace(b, c, repl)
  {
    if a == [] {
      assert a + b == b;
    } else {
      var one := if a[0] == c then repl else [a[0]];
      ReplaceConcat(a[1..], b, c, repl);
      assert (a + b)[1..] == a[1..] + b;
      assert Replace(a + b, c, repl) == one + (Replace(a[1..], c, repl) + Replace(b, c, repl));
    }
  }

  lemma ReplaceOne(x: char, c: char, repl: string)
    ensures Replace([x], c, repl) == if x == c then repl else [x]
  {
    assert Replace([x][1..], c, repl) == [];
  }

  lemma {:induction false} ReplaceAbsent(s: string, c: char, repl: string)
    requires c !in s
    ensures Replace(s, c, repl) == s
  {
    if s != [] {
      ReplaceAbsent(s[1..], c, repl);
      assert s == [s[0]] + s[1..];
    }
  }

  datatype Rule = Rule(pattern: char, repl: string)

  /** Global replacements, one after the other. */
  function Chain(s: string, rules: seq<Rule>): (r: string)
    decreases rules
  {
    if rules == [] then s else Chain(Replace(s, rules[0].pattern, rules[0].repl), rules[1..])
  }

  /** The first rule for a character. */
  function Apply(c: char, rules: seq<Rule>): (r: string)
  {
    if rules == [] then [c] else if rules[0].pattern == c then rules[0].repl else Apply(c, rules[1..])
  }

  function ApplyAll(s: string, rules: seq<Rule>): (r: string)
  {
    if s == [] then [] else Apply(s[0], rules) + ApplyAll(s[1..], rules)
  }

  /** No rule rewrites what an earlier one has produced. */
  ghost predicate Settled(rules: seq<Rule>)
  {
    forall i, j :: 0 <= i < j < |rules| ==> rules[j].pattern !in rules[i].repl
  }

  lemma {:induction false} ChainConcat(a: string, b: string, rules: seq<Rule>)
    ensures Chain(a + b, rules) == Chain(a, rules) + Chain(b, rules)
    decreases rules
  {
    if rules != [] {
      var x := rules[0];
      ReplaceConcat(a, b, x.pattern, x.repl);
      ChainConcat(Replace(a, x.pattern, x.repl), Replace(b, x.pattern, x.repl), rules[1..]);
    }
  }

  lemma {:induction false} ChainAbsent(s: string, rules: seq<Rule>)
    requires forall i :: 0 <= i < |rules| ==> rules[i].pattern !in s
    ensures Chain(s, rules) == s
    decreases rules
  {
    if rules != [] {
      ReplaceAbsent(s, rules[0].pattern, rules[0].repl);
      ChainAbsent(s, rules[1..]);
    }
  }

  lemma {:induction false} ChainOne(c: char, rules: seq<Rule>)
    requires Settled(rules)
    ensures Chain([c], rules) == Apply(c, rules)
    decreases rules
  {
    if rules != [] {
      ReplaceOne(c, rules[0].pattern, rules[0].repl);
      if rules[0].pattern == c {
        ChainAbsent(rules[0].repl, rules[1..]);
      } else {
        ChainOne(c, rules[1..]);
      }
    }
  }

  /** A settled chain of global replacements is one pass that replaces each character. */
  lemma {:induction false} ChainIsOnePass(s: string, rules: seq<Rule>)
    requires Settled(rules)
    ensures Chain(s, rules) == ApplyAll(s, rules)
    decreases s
  {
    if s == [] {
      ChainAbsent(s, rules);
    } else {
      ChainIsOnePass(s[1..], rules);
      ChainOne(s[0], rules);
      ChainConcat([s[0]], s[1..], rules);
      assert s == [s[0]] + s[1..];
    }
  }

  const SLASH_RULE := [Rule('/', "\\/")]
  const LATER_RULES := [Rule(QUOTE, "\\\""), Rule(BS, "\\b"), Rule(FF, "\\f"), Rule('\n', "\\n"), Rule('\r', "\\r"), Rule('\t', "\\t")]

  /** The writer's replacements, in its order. */
  function Rules(slash: bool): (r: seq<Rule>)
  {
    [Rule('\\', "\\\\")] + (if slash then SLASH_RULE else []) + LATER_RULES
  }

  lemma RulesSettled(slash: bool)
    ensures Settled(Rules(slash))
  {
    var rules := Rules(slash);
    forall i, j | 0 <= i < j < |rules|
      ensures rules[j].pattern !in rules[i].repl
    {
      assert rules[j].pattern != '\\';
      assert |rules[i].repl| == 2 && rules[i].repl[0] == '\\';
    }
  }

  lemma ApplyCons(c: char, x: Rule, rest: seq<Rule>)
    ensures Apply(c, [x] + rest) == if x.pattern == c then x.repl else Apply(c, rest)
  {
    assert ([x] + rest)[1..] == rest;
  }

  lemma ApplyIsEscape(c: char, slash: bool)
    ensures Apply(c, Rules(slash)) == EscapeChar(c, slash)
  {
    hide Apply;
    var later := LATER_RULES;
    assert later == [later[0]] + ([later[1]] + ([later[2]] + ([later[3]] + ([later[4]] + ([later[5]] + [])))));
    ApplyCons(c, later[5], []);
    ApplyCons(c, later[4], [later[5]] + []);
    ApplyCons(c, later[3], [later[4]] + ([later[5]] + []));
    ApplyCons(c, later[2], [later[3]] + ([later[4]] + ([later[5]] + [])));
    ApplyCons(c, later[1], [later[2]] + ([later[3]] + ([later[4]] + ([later[5]] + []))));
    ApplyCons(c, later[0], [later[1]] + ([later[2]] + ([later[3]] + ([later[4]] + ([later[5]] + [])))));
    assert Apply(c, []) == [c] by { ApplyNone(c); }
    var tail := if slash then SLASH_RULE + later else later;
    ApplyCons(c, Rule('/', "\\/"), later);
    ApplyCons(c, Rule('\\', "\\\\"), tail);
    assert Rules(slash) == [Rule('\\', "\\\\")] + tail;
  }

  lemma ApplyNone(c: char)
    ensures Apply(c, []) == [c]
  {
  }

  lemma {:induction false} ApplyAllIsEscape(s: string, slash: bool)
    ensures ApplyAll(s, Rules(slash)) == Escape(s, slash)
  {
    if s != [] {
      ApplyIsEscape(s[0], slash);
      ApplyAllIsEscape(s[1..], slash);
    }
  }

  /** The writer's chain of replacements escapes each character once. */
  lemma ChainIsEscape(s: string, slash: bool)
    ensures Chain(s, Rules(slash)) == Escape(s, slash)
  {
    RulesSettled(slash);
    ChainIsOnePass(s, Rules(slash));
    ApplyAllIsEscape(s, slash);
  }

  // ---------------------------------------------------------------- strings and numbers are read back

  lemma UnescapeBack(c: char, slash: bool, rest: string)
    requires EscapeChar(c, slash) != [c]
    ensures |EscapeChar(c, slash)| == 2 && EscapeChar(c, slash)[0] == '\\'
    ensures Unescape(EscapeChar(c, slash)[1..] + rest) == Ok(c, rest)
  {
    var e := EscapeChar(c, slash);
    assert (e[1..] + rest)[1..] == rest;
  }

  /** One character of an escaped string. */
  lemma CharBack(c: char, slash: bool, rest: string, acc: string)
    ensures ParseString(EscapeChar(c, slash) + rest, acc) == ParseString(rest, acc + [c])
  {
    var e := EscapeChar(c, slash);
    var s := e + rest;
    if e == [c] {
      assert c != '\\' && c != QUOTE;
      assert s[0] == c && s[1..] == rest;
    } else {
      UnescapeBack(c, slash, rest);
      hide EscapeChar, Unescape;
      assert s[0] == '\\' && s[1..] == e[1..] + rest;
    }
  }

  lemma QuoteBack(rest: string, acc: string)
    ensures ParseString("\"" + rest, acc) == Ok(acc, rest)
  {
    assert ("\"" + rest)[1..] == rest;
  }

  lemma {:induction false} EscapedBack(s: string, slash: bool, rest: string, acc: string)
    ensures ParseString(Escape(s, slash) + "\"" + rest, acc) == Ok(acc + s, rest)
    decreases s
  {
    hide EscapeChar, Unescape, ParseString;
    if s == [] {
      assert Escape(s, slash) + "\"" + rest == "\"" + rest;
      QuoteBack(rest, acc);
      assert acc + s == acc;
    } else {
      var after := Escape(s[1..], slash) + "\"" + rest;
      assert Escape(s, slash) + "\"" + rest == EscapeChar(s[0], slash) + after;
      CharBack(s[0], slash, after, acc);
      EscapedBack(s[1..], slash, rest, acc + [s[0]]);
      assert acc + [s[0]] + s[1..] == acc + s;
    }
  }

  lemma NumberSnoc(s: string, c: char)
    requires AllDigits(s) && IsDigit(c)
    ensures AllDigits(s + [c]) && Number(s + [c]) == 10 * Number(s) + (c - '0') as int
  {
    assert (s + [c])[..|s|] == s;
  }

  lemma {:induction false} DecimalBack(n: nat)
    ensures Number(Decimal(n)) == n
  {
    if n < 10 {
      NumberSnoc([], Digit(n));
      assert [] + [Digit(n)] == [Digit(n)];
    } else {
      DecimalBack(n / 10);
      NumberSnoc(Decimal(n / 10), Digit(n % 10));
    }
  }

  lemma {:induction false} LeadingDigitsBack(d: string, rest: string)
    requires AllDigits(d) && (rest != [] ==> !IsDigit(rest[0]))
    ensures LeadingDigits(d + rest) == |d|
  {
    if d == [] {
      assert d + rest == rest;
    } else {
      assert (d + rest)[1..] == d[1..] + rest;
      LeadingDigitsBack(d[1..], rest);
    }
  }

  /** What may follow a value: anything that does not go on with a number. */
  predicate Ends(s: string)
  {
    s != [] ==> !IsDigit(s[0]) && s[0] != '.' && s[0] != 'e'
  }

  /** A number ends where the digits end. */
  lemma NumberIs(numeral: string, rest: string)
    requires Numeral(numeral) && (rest != [] ==> !IsDigit(rest[0]))
    ensures ParseNumber(numeral + rest) == Convert(numeral, rest)
  {
    hide Convert, LeadingDigits;
    var s := numeral + rest;
    assert s[1..] == numeral[1..] + rest;
    LeadingDigitsBack(numeral[1..], rest);
    assert s[..|numeral|] == numeral && s[|numeral|..] == rest;
  }

  lemma IntBack(n: int, rest: string)
    requires Ends(rest)
    ensures var t := IntText(n) + rest; (t[0] == '-' || IsDigit(t[0])) && ParseNumber(t) == Ok(n, rest)
  {
    hide Decimal, Number, ParseNumber;
    var d := Decimal(if n < 0 then -n else n);
    DecimalBack(if n < 0 then -n else n);
    if n < 0 {
      assert IntText(n)[1..] == d;
    }
    NumberIs(IntText(n), rest);
  }

  // ---------------------------------------------------------------- values are read back

  predicate Token(c: char)
  {
    c == '{' || c == '[' || c == QUOTE || c == '-' || IsDigit(c) || c == 't' || c == 'f' || c == 'n'
  }

  lemma TextStarts(v: Value, slash: bool, rest: string)
    ensures Text(v, slash) != [] && Token((Text(v, slash) + rest)[0])
  {
    if v.Int? {
      assert Decimal(if v.n < 0 then -v.n else v.n) != [];
    }
  }

  lemma NoSpace(s: string)
    requires s != [] && !IsSpace(s[0]) && s[0] != '/'
    ensures ParseSpace(s) == Ok((), s)
  {
  }

  lemma EndBack(close: char, rest: string)
    requires close == ']' || close == '}'
    ensures ParseEnd([close] + rest, close) == Ok(true, rest)
    ensures ParseEnd("," + rest, close) == Ok(false, rest)
  {
    NoSpace([close] + rest);
    NoSpace("," + rest);
    assert ([close] + rest)[1..] == rest && ("," + rest)[1..] == rest;
  }

  lemma ColonBack(rest: string)
    requires rest != [] && Token(rest[0])
    ensures ParseColon(":" + rest) == Ok((), rest)
  {
    NoSpace(":" + rest);
    NoSpace(rest);
    assert (":" + rest)[1..] == rest;
  }

  lemma WordBack(word: string, v: Value, rest: string)
    requires word != []
    ensures ParseWord(word + rest, word, v) == Ok(v, rest)
    decreases |word|
  {
    assert (word + rest)[1..] == word[1..] + rest;
    if |word| == 1 {
      assert word[1..] + rest == rest;
    } else {
      WordBack(word[1..], v, rest);
    }
  }

  lemma StringBack(s: string, slash: bool, rest: string)
    ensures ParseValue(StringText(s, slash) + rest) == Ok(Str(s), rest)
  {
    hide ParseString, Escape, ParseSpace;
    var t := StringText(s, slash) + rest;
    NoSpace(t);
    assert t[1..] == Escape(s, slash) + "\"" + rest;
    EscapedBack(s, slash, rest, []);
    assert [] + s == s;
  }

  lemma AtomBack(v: Value, slash: bool, rest: string)
    requires v.Null? || v.Bool? || v.Int?
    requires Ends(rest)
    ensures ParseValue(Text(v, slash) + rest) == Ok(v, rest)
  {
    hide ParseNumber, ParseSpace, ParseWord, IntText;
    var t := Text(v, slash) + rest;
    TextStarts(v, slash, rest);
    NoSpace(t);
    if v.Int? {
      IntBack(v.n, rest);
    } else {
      WordBack(Text(v, slash), v, rest);
    }
  }

  lemma {:induction false} ValueBack(v: Value, slash: bool, rest: string)
    requires Proper(v) && Ends(rest)
    ensures ParseValue(Text(v, slash) + rest) == Ok(v, rest)
    decreases v, 1
  {
    match v
    case Str(s) => StringBack(s, slash, rest);
    case List(items) => ListBack(items, slash, rest);
    case Dict(members) => DictBack(members, slash, rest);
    case _ => AtomBack(v, slash, rest);
  }

  lemma ListBack(items: seq<Value>, slash: bool, rest: string)
    requires (forall i :: 0 <= i < |items| ==> Proper(items[i])) && Ends(rest)
    ensures ParseValue(Text(List(items), slash) + rest) == Ok(List(items), rest)
    decreases items, 2
  {
    hide ParseValue, ParseItems, Proper;
    var t := Text(List(items), slash) + rest;
    if items == [] {
      assert t == "[]" + rest;
      EmptyBack(rest);
    } else {
      var body := ItemsText(items, slash) + "]" + rest;
      assert t == "[" + body;
      assert body == Text(items[0], slash) + body[|Text(items[0], slash)|..];
      TextStarts(items[0], slash, body[|Text(items[0], slash)|..]);
      OpenBack(body);
      ItemsBack(items, slash, [], rest);
      assert [] + items == items;
    }
  }

  lemma EmptyBack(rest: string)
    ensures ParseValue("[]" + rest) == Ok(List([]), rest)
    ensures ParseValue("{}" + rest) == Ok(Dict([]), rest)
  {
    hide ParseSpace, ParseItems, ParseMembers;
    NoSpace("[]" + rest);
    NoSpace("{}" + rest);
    assert ("[]" + rest)[1..] == "]" + rest && ("{}" + rest)[1..] == "}" + rest;
    assert ("]" + rest)[1..] == rest && ("}" + rest)[1..] == rest;
  }

  lemma OpenBack(body: string)
    requires body != [] && Token(body[0])
    ensures ParseValue("[" + body) == ParseItems(body, [])
    ensures ParseValue("{" + body) == ParseMembers(body, [])
  {
    hide ParseSpace, ParseItems, ParseMembers;
    NoSpace("[" + body);
    NoSpace("{" + body);
    assert ("[" + body)[1..] == body && ("{" + body)[1..] == body;
  }

  lemma {:induction false} ItemsBack(items: seq<Value>, slash: bool, acc: seq<Value>, rest: string)
    requires items != [] && (forall i :: 0 <= i < |items| ==> Proper(items[i])) && Ends(rest)
    ensures ParseItems(ItemsText(items, slash) + "]" + rest, acc) == Ok(List(acc + items), rest)
    decreases items, 1
  {
    hide ParseValue, ParseEnd, Text, Proper;
    var t := ItemsText(items, slash) + "]" + rest;
    if |items| == 1 {
      var after := "]" + rest;
      assert t == Text(items[0], slash) + after;
      ValueBack(items[0], slash, after);
      EndBack(']', rest);
      assert acc + [items[0]] == acc + items;
    } else {
      var next := ItemsText(items[1..], slash) + "]" + rest;
      var after := "," + next;
      assert t == Text(items[0], slash) + after;
      ValueBack(items[0], slash, after);
      EndBack(']', next);
      ItemsBack(items[1..], slash, acc + [items[0]], rest);
      assert acc + [items[0]] + items[1..] == acc + items;
    }
  }

  lemma MemberBack(m: Member, slash: bool, rest: string)
    requires Proper(m.value) && Ends(rest)
    ensures ParseMember(MemberText(m, slash) + rest) == Ok(m, rest)
    decreases m, 1
  {
    hide ParseValue, ParseColon, Text, StringText;
    var after := Text(m.value, slash) + rest;
    assert MemberText(m, slash) + rest == StringText(m.key, slash) + (":" + after);
    StringBack(m.key, slash, ":" + after);
    TextStarts(m.value, slash, rest);
    ColonBack(after);
    ValueBack(m.value, slash, rest);
  }

  lemma DictBack(members: seq<Member>, slash: bool, rest: string)
    requires DistinctKeys(members) && (forall i :: 0 <= i < |members| ==> Proper(members[i].value)) && Ends(rest)
    ensures ParseValue(Text(Dict(members), slash) + rest) == Ok(Dict(members), rest)
    decreases members, 2
  {
    hide ParseValue, ParseMembers, Proper;
    var t := Text(Dict(members), slash) + rest;
    if members == [] {
      assert t == "{}" + rest;
      EmptyBack(rest);
    } else {
      var body := MembersText(members, slash) + "}" + rest;
      assert t == "{" + body;
      var m := MemberText(members[0], slash);
      assert m[0] == StringText(members[0].key, slash)[0] == QUOTE;
      assert body[0] == m[0];
      OpenBack(body);
      assert [] + members == members;
      MembersBack(members, slash, [], rest);
    }
  }

  lemma {:induction false} PutNew(ms: seq<Member>, key: string, value: Value)
    requires forall i :: 0 <= i < |ms| ==> ms[i].key != key
    ensures Put(ms, key, value) == ms + [Member(key, value)]
  {
    if ms != [] {
      PutNew(ms[1..], key, value);
    }
  }

  lemma MembersHead(members: seq<Member>, slash: bool, rest: string)
    requires members != []
    ensures MembersText(members, slash) + rest ==
            MemberText(members[0], slash) + if |members| == 1 then rest else "," + (MembersText(members[1..], slash) + rest)
  {
    hide MemberText;
    if |members| == 1 {
      assert MembersText(members[1..], slash) == [];
    }
  }

  lemma {:induction false} MembersBack(members: seq<Member>, slash: bool, acc: seq<Member>, rest: string)
    requires members != [] && (forall i :: 0 <= i < |members| ==> Proper(members[i].value)) && Ends(rest)
    requires DistinctKeys(acc + members)
    ensures ParseMembers(MembersText(members, slash) + "}" + rest, acc) == Ok(Dict(acc + members), rest)
    decreases members, 1
  {
    hide ParseMember, ParseEnd, MemberText, MembersText, Put, Proper;
    var t := MembersText(members, slash) + "}" + rest;
    var m := members[0];
    MembersHead(members, slash, "}" + rest);
    assert t == MembersText(members, slash) + ("}" + rest);
    assert Put(acc, m.key, m.value) == acc + [m] by { HeadIsNew(acc, members); PutNew(acc, m.key, m.value); }
    if |members| == 1 {
      var after := "}" + rest;
      MemberBack(m, slash, after);
      EndBack('}', rest);
      assert acc + [m] == acc + members;
    } else {
      var next := MembersText(members[1..], slash) + "}" + rest;
      var after := "," + next;
      assert next == MembersText(members[1..], slash) + ("}" + rest);
      MemberBack(m, slash, after);
      EndBack('}', next);
      assert acc + [m] + members[1..] == acc + members;
      MembersBack(members[1..], slash, acc + [m], rest);
    }
  }

  lemma HeadIsNew(acc: seq<Member>, members: seq<Member>)
    requires members != [] && DistinctKeys(acc + members)
    ensures forall i :: 0 <= i < |acc| ==> acc[i].key != members[0].key
  {
    forall i | 0 <= i < |acc|
      ensures acc[i].key != members[0].key
    {
      assert (acc + members)[i] == acc[i] && (acc + members)[|acc|] == members[0];
    }
  }

  /** Reading what was written gives the value back and consumes all of the text. */
  lemma RoundTrip(v: Value, slash: bool)
    requires Proper(v)
    ensures ParseValue(Text(v, slash)) == Ok(v, [])
  {
    ValueBack(v, slash, []);
    assert Text(v, slash) + [] == Text(v, slash);
  }

  /** Different values have different texts, whatever the setting for slashes. */
  lemma TextsDiffer(v: Value, w: Value, slash: bool, slash': bool)
    requires Proper(v) && Proper(w) && v != w
    ensures Text(v, slash) != Text(w, slash')
  {
    RoundTrip(v, slash);
    RoundTrip(w, slash');
  }

  // ---------------------------------------------------------------- what the reader returns

  lemma {:induction false} PutProper(ms: seq<Member>, key: string, value: Value)
    requires DistinctKeys(ms) && Proper(value) && forall i :: 0 <= i < |ms| ==> Proper(ms[i].value)
    ensures var r := Put(ms, key, value);
            && DistinctKeys(r) && (forall i :: 0 <= i < |r| ==> Proper(r[i].value))
            && (forall k :: HasKey(r, k) <==> HasKey(ms, k) || k == key)
    decreases ms
  {
    hide Proper;
    if ms == [] {
      assert Put(ms, key, value)[0].key == key;
    } else if ms[0].key == key {
      assert forall k :: HasKey(ms, k) <==> HasKey(Put(ms, key, value), k) by { SameKeys(ms, key, value); }
    } else {
      PutProper(ms[1..], key, value);
      var rest := Put(ms[1..], key, value);
      assert !HasKey(ms[1..], ms[0].key);
      assert !HasKey(rest, ms[0].key);
      KeysOfCons(ms[0], rest);
      KeysOfCons(ms[0], ms[1..]);
      assert ms == [ms[0]] + ms[1..];
    }
  }

  predicate HasKey(ms: seq<Member>, k: string)
  {
    exists i :: 0 <= i < |ms| && ms[i].key == k
  }

  lemma KeysOfCons(m: Member, ms: seq<Member>)
    ensures forall k :: HasKey([m] + ms, k) <==> HasKey(ms, k) || k == m.key
  {
    forall k
      ensures HasKey([m] + ms, k) <==> HasKey(ms, k) || k == m.key
    {
      if HasKey(ms, k) {
        var i :| 0 <= i < |ms| && ms[i].key == k;
        assert ([m] + ms)[i + 1].key == k;
      }
      if k == m.key {
        assert ([m] + ms)[0].key == k;
      }
    }
  }

  lemma SameKeys(ms: seq<Member>, key: string, value: Value)
    requires ms != [] && ms[0].key == key
    ensures forall k :: HasKey(ms, k) <==> HasKey(Put(ms, key, value), k)
  {
    KeysOfCons(ms[0], ms[1..]);
    KeysOfCons(Member(key, value), ms[1..]);
    assert ms == [ms[0]] + ms[1..];
  }

  /** Whatever the text, a value that is read is proper. */
  lemma {:induction false} ReadsProper(s: string)
    ensures ParseValue(s).Ok? ==> Proper(ParseValue(s).value)
    decreases |s|, 0
  {
    hide ParseSpace, ParseItems, ParseMembers, ParseString, ParseNumber, ParseWord;
    var space := ParseSpace(s);
    if space.Ok? && space.rest != [] {
      var body := space.rest[1..];
      if space.rest[0] == '[' {
        ItemsProper(body, []);
      } else if space.rest[0] == '{' {
        MembersProper(body, []);
      } else {
        WordIs(space.rest, "true", Bool(true));
        WordIs(space.rest, "false", Bool(false));
        WordIs(space.rest, "null", Null);
      }
    }
  }

  lemma WordIs(s: string, word: string, v: Value)
    requires word != []
    ensures ParseWord(s, word, v).Ok? ==> ParseWord(s, word, v).value == v
    decreases |word|
  {
  }

  lemma {:induction false} ItemsProper(s: string, acc: seq<Value>)
    requires forall i :: 0 <= i < |acc| ==> Proper(acc[i])
    ensures ParseItems(s, acc).Ok? ==> Proper(ParseItems(s, acc).value)
    decreases |s|, 1
  {
    hide ParseValue, ParseEnd;
    ReadsProper(s);
    var item := ParseValue(s);
    if item.Ok? {
      var end := ParseEnd(item.rest, ']');
      if end.Ok? && !end.value {
        ItemsProper(end.rest, acc + [item.value]);
      }
    }
  }

  lemma {:induction false} MembersProper(s: string, acc: seq<Member>)
    requires DistinctKeys(acc) && forall i :: 0 <= i < |acc| ==> Proper(acc[i].value)
    ensures ParseMembers(s, acc).Ok? ==> Proper(ParseMembers(s, acc).value)
    decreases |s|, 1
  {
    hide ParseValue, ParseEnd, ParseColon, Put;
    ReadsProper(s);
    var m := ParseMember(s);
    if m.Ok? {
      assert Proper(m.value.value) by {
        var colon := ParseColon(ParseValue(s).rest);
        ReadsProper(colon.rest);
      }
      var end := ParseEnd(m.rest, '}');
      PutProper(acc, m.value.key, m.value.value);
      if end.Ok? && !end.value {
        MembersProper(end.rest, Put(acc, m.value.key, m.value.value));
      }
    }
  }

  /** Writing what was read and reading it again changes nothing, whatever the text was. */
  lemma RewriteKeeps(s: string, slash: bool)
    requires ParseValue(s).Ok?
    ensures ParseValue(Text(ParseValue(s).value, slash)) == Ok(ParseValue(s).value, [])
  {
    ReadsProper(s);
    RoundTrip(ParseValue(s).value, slash);
  }

  // ---------------------------------------------------------------- comments do not matter

  ghost predicate OneLine(body: string)
  {
    forall i :: 0 <= i < |body| ==> body[i] != '\r' && body[i] != '\n'
  }

  lemma {:induction false} LineSkipped(body: string, s: string)
    ensures SkipLine(body + "\n" + s) == s <==> OneLine(body)
  {
    var t := body + "\n" + s;
    if body == [] {
      assert t == "\n" + s;
      assert t[1..] == s;
    } else {
      assert t[0] == body[0] && t[1..] == body[1..] + "\n" + s;
      LineSkipped(body[1..], s);
      assert OneLine(body) <==> body[0] != '\r' && body[0] != '\n' && OneLine(body[1..]) by {
        assert forall i :: 1 <= i < |body| ==> body[i] == body[1..][i - 1];
      }
      assert |t[1..]| > |s|;
    }
  }

  /** The pair of characters closes or opens a block comment. */
  predicate Mark(a: char, b: char)
  {
    (a == '*' && b == '/') || (a == '/' && b == '*')
  }

  /** No closing and no opening inside, also not with the star that follows. */
  ghost predicate PlainBlock(body: string)
  {
    var b := body + "*";
    forall i :: 0 <= i < |body| ==> !Mark(b[i], b[i + 1])
  }

  lemma PlainStep(body: string)
    requires body != []
    ensures PlainBlock(body) <==> !Mark(body[0], (body[1..] + "*")[0]) && PlainBlock(body[1..])
  {
    var b, c := body + "*", body[1..] + "*";
    assert b == [body[0]] + c;
    assert forall i :: 0 < i < |body| ==> b[i] == c[i - 1] && b[i + 1] == c[i];
    if !Mark(body[0], c[0]) && PlainBlock(body[1..]) {
      forall i | 0 <= i < |body|
        ensures !Mark(b[i], b[i + 1])
      {
        assert i > 0 ==> !Mark(c[i - 1], c[i]);
      }
    }
    if PlainBlock(body) {
      forall i | 0 <= i < |body[1..]|
        ensures !Mark(c[i], c[i + 1])
      {
        assert !Mark(b[i + 1], b[i + 2]);
      }
      assert !Mark(b[0], b[1]);
    }
  }

  /** Exactly the bodies without a mark are skipped as a whole. */
  lemma {:induction false} BlockSkipped(body: string, s: string)
    ensures SkipBlock(body + "*/" + s) == Ok((), s) <==> PlainBlock(body)
  {
    hide PlainBlock;
    var t := body + "*/" + s;
    if body == [] {
      assert t == "*/" + s;
      assert t[2..] == s && t[1..][0] == '/';
      assert PlainBlock([]) by { NothingIsPlain(); }
    } else {
      assert t[0] == body[0] && t[1..] == body[1..] + "*/" + s;
      assert t[1..][0] == (body[1..] + "*")[0];
      PlainStep(body);
      BlockSkipped(body[1..], s);
      assert |t[2..]| > |s|;
    }
  }

  lemma NothingIsPlain()
    ensures PlainBlock([])
  {
  }

  /** Exactly what makes a comment: the body of a line comment is one line, that of a block comment has no mark. */
  lemma CommentExact(body: string, s: string)
    ensures ParseComment("//" + body + "\n" + s) == Ok((), s) <==> OneLine(body)
    ensures ParseComment("/*" + body + "*/" + s) == Ok((), s) <==> PlainBlock(body)
  {
    hide SkipLine, SkipBlock, PlainBlock, OneLine;
    var line, block := "//" + body + "\n" + s, "/*" + body + "*/" + s;
    LineSkipped(body, s);
    assert line[2..] == body + "\n" + s;
    BlockSkipped(body, s);
    assert block[2..] == body + "*/" + s;
  }

  /** A comment in front of a text changes nothing. */
  lemma CommentsIgnored(body: string, s: string)
    ensures OneLine(body) ==> ParseValue("//" + body + "\n" + s) == ParseValue(s)
    ensures PlainBlock(body) ==> ParseValue("/*" + body + "*/" + s) == ParseValue(s)
  {
    hide ParseComment, PlainBlock, OneLine, ParseArray, ParseObject, ParseString, ParseNumber, ParseWord;
    CommentExact(body, s);
  }
}
