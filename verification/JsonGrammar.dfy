/** The JSON reader's grammar in its own words: escapes, numbers, words, repeated keys, and which error is reported. */
module JsonGrammar {
  import opened Json
  import opened JsonLayout
  import opened Wrappers

  // ---------------------------------------------------------------- escapes

  const LOWER := "0123456789abcdef"
  const UPPER := "0123456789ABCDEF"

  /** A hexadecimal digit in either case. */
  function HexChar(d: nat, upper: bool): (c: char)
    requires d < 16
  {
    if upper then UPPER[d] else LOWER[d]
  }

  lemma HexBack(d: nat, upper: bool)
    requires d < 16
    ensures HexDigit(HexChar(d, upper)) == Ok(d, [])
  {
    assert LOWER == ['0', '1', '2', '3', '4', '5', '6', '7', '8', '9', 'a', 'b', 'c', 'd', 'e', 'f'];
    assert UPPER == ['0', '1', '2', '3', '4', '5', '6', '7', '8', '9', 'A', 'B', 'C', 'D', 'E', 'F'];
  }

  lemma HexOnly(c: char)
    ensures HexDigit(c).Fail? <==> c !in LOWER && c !in UPPER
    ensures HexDigit(c).Fail? ==> HexDigit(c).error == ReadException
  {
    assert LOWER == ['0', '1', '2', '3', '4', '5', '6', '7', '8', '9', 'a', 'b', 'c', 'd', 'e', 'f'];
    assert UPPER == ['0', '1', '2', '3', '4', '5', '6', '7', '8', '9', 'A', 'B', 'C', 'D', 'E', 'F'];
    if HexDigit(c).Ok? {
      var d := HexDigit(c).value;
      assert LOWER[d] == c || UPPER[d] == c;
    }
  }

  /** A backslash, `u` and the four digits of n, most significant first, stand for the one character n, which has to
      be an ASCII character. */
  lemma UnicodeExact(n: nat, a: bool, b: bool, c: bool, d: bool, rest: string, acc: string)
    requires n < 0x1_0000
    ensures var digits := [HexChar(n / 4096, a), HexChar(n / 256 % 16, b), HexChar(n / 16 % 16, c), HexChar(n % 16, d)];
            ParseString("\\u" + digits + rest, acc) == if n < 128 then ParseString(rest, acc + [n as char]) else Fail(UnicodeError)
  {
    hide HexDigit, HexChar;
    var digits := [HexChar(n / 4096, a), HexChar(n / 256 % 16, b), HexChar(n / 16 % 16, c), HexChar(n % 16, d)];
    HexBack(n / 4096, a);
    HexBack(n / 256 % 16, b);
    HexBack(n / 16 % 16, c);
    HexBack(n % 16, d);
    FourDigits(n);
    var t := "\\u" + digits + rest;
    assert t[0] == '\\' && t[1..] == "u" + digits + rest;
    assert t[1..][1..] == digits + rest;
    assert (digits + rest)[4..] == rest;
  }

  lemma FourDigits(n: nat)
    ensures n == 4096 * (n / 4096) + 256 * (n / 256 % 16) + 16 * (n / 16 % 16) + n % 16
  {
    Split(n);
    Split(n / 16);
    Split(n / 256);
    assert n / 16 / 16 == n / 256;
    assert n / 256 / 16 == n / 4096;
  }

  lemma Split(n: nat)
    ensures n == 16 * (n / 16) + n % 16
  {
  }

  /** With the closing quote. */
  lemma OneUnicodeCharacter(n: nat, a: bool, b: bool, c: bool, d: bool, rest: string)
    requires n < 0x1_0000
    ensures var digits := [HexChar(n / 4096, a), HexChar(n / 256 % 16, b), HexChar(n / 16 % 16, c), HexChar(n % 16, d)];
            ParseString("\\u" + digits + "\"" + rest, []) == if n < 128 then Ok([n as char], rest) else Fail(UnicodeError)
  {
    hide HexChar;
    UnicodeExact(n, a, b, c, d, "\"" + rest, []);
    var digits := [HexChar(n / 4096, a), HexChar(n / 256 % 16, b), HexChar(n / 16 % 16, c), HexChar(n % 16, d)];
    assert "\\u" + digits + ("\"" + rest) == "\\u" + digits + "\"" + rest;
    assert ("\"" + rest)[1..] == rest;
    if n < 128 {
      assert [] + [n as char] == [n as char];
    }
  }

  /** Fewer than four characters, or one that is no hexadecimal digit, is an error. */
  lemma UnicodeFails(s: string, acc: string)
    requires |s| < 4 || exists i :: 0 <= i < 4 && s[i] !in LOWER && s[i] !in UPPER
    ensures ParseString("\\u" + s, acc) == Fail(ReadException)
  {
    hide HexDigit;
    var t := "\\u" + s;
    assert t[0] == '\\' && t[1..] == "u" + s && t[1..][1..] == s;
    if |s| >= 4 {
      HexOnly(s[0]);
      HexOnly(s[1]);
      HexOnly(s[2]);
      HexOnly(s[3]);
    }
  }

  const ESCAPES := ['b', 'r', 'n', 'f', 't', '\"', '/', '\\']
  const MEANINGS := ['\U{0008}', '\r', '\n', '\U{000C}', '\t', '\"', '/', '\\']

  /** The other escapes: eight characters have a meaning, every other one is an error. */
  lemma EscapeExact(c: char, rest: string, acc: string)
    requires c != 'u'
    ensures c !in ESCAPES ==> ParseString("\\" + [c] + rest, acc) == Fail(ReadException)
    ensures forall i :: 0 <= i < 8 && c == ESCAPES[i] ==> ParseString("\\" + [c] + rest, acc) == ParseString(rest, acc + [MEANINGS[i]])
    ensures ParseString("\\", acc) == Fail(ReadException)
  {
    var t := "\\" + [c] + rest;
    assert t[0] == '\\' && t[1..] == [c] + rest && t[1..][1..] == rest;
    assert "\\"[1..] == [];
    if c !in ESCAPES {
      assert c != ESCAPES[0] && c != ESCAPES[1] && c != ESCAPES[2] && c != ESCAPES[3];
      assert c != ESCAPES[4] && c != ESCAPES[5] && c != ESCAPES[6] && c != ESCAPES[7];
    }
  }

  /** All other characters stand for themselves, up to the closing quote, which must be there. */
  lemma {:induction false} PlainExact(s: string, rest: string, acc: string)
    requires '\"' !in s && '\\' !in s
    ensures ParseString(s + "\"" + rest, acc) == Ok(acc + s, rest)
    ensures ParseString(s, acc) == Fail(ReadException)
  {
    var t := s + "\"" + rest;
    if s == [] {
      assert t == "\"" + rest && t[1..] == rest;
      assert acc + s == acc;
    } else {
      assert t[0] == s[0] && t[1..] == s[1..] + "\"" + rest;
      PlainExact(s[1..], rest, acc + [s[0]]);
      assert acc + [s[0]] + s[1..] == acc + s;
    }
  }

  // ---------------------------------------------------------------- words and numbers

  /** A word is read if and only if it is there; a text that ends inside of it is told apart from a wrong letter. */
  lemma {:induction false} WordExact(s: string, word: string, v: Value)
    requires word != []
    ensures ParseWord(s, word, v) ==
            if word <= s then Ok(v, s[|word|..]) else if s < word then Fail(StopIteration) else Fail(ReadException)
    decreases |word|
  {
    if s != [] && s[0] == word[0] && |word| > 1 {
      WordExact(s[1..], word[1..], v);
      PrefixTail(word, s);
      PrefixTail(s, word);
      assert word <= s ==> s[1..][|word[1..]|..] == s[|word|..];
    }
  }

  lemma PrefixTail(a: string, b: string)
    requires a != [] && b != [] && a[0] == b[0]
    ensures a <= b <==> a[1..] <= b[1..]
  {
    if a[1..] <= b[1..] {
      forall i | 0 <= i < |a|
        ensures a[i] == b[i]
      {
        assert i > 0 ==> a[1..][i - 1] == b[1..][i - 1];
      }
    }
    if a <= b {
      assert forall i :: 0 <= i < |a| - 1 ==> a[1..][i] == a[i + 1];
    }
  }

  /** A sign without digits is an error, zeros in front do not matter, and a sign negates. */
  lemma NumbersExact(d: string, rest: string)
    requires AllDigits(d) && (rest != [] ==> !IsDigit(rest[0]))
    requires Ends(rest)
    ensures ParseNumber("-" + rest) == Fail(ReadException)
    ensures d != [] ==> ParseNumber(d + rest) == Ok(Number(d), rest) && ParseNumber("-" + d + rest) == Ok(-Number(d), rest)
    ensures d != [] ==> ParseNumber("0" + d + rest) == ParseNumber(d + rest)
  {
    hide ParseNumber, Number;
    NumberIs("-", rest);
    if d != [] {
      NumberIs(d, rest);
      NumberIs("-" + d, rest);
      assert ("-" + d)[1..] == d;
      NumberIs("0" + d, rest);
      assert ("0" + d)[1..] == d;
      LeadingZero(d);
    }
  }

  lemma {:induction false} LeadingZero(d: string)
    requires AllDigits(d)
    ensures AllDigits("0" + d) && Number("0" + d) == Number(d)
  {
    var t := "0" + d;
    if d == [] {
      assert t == "0";
      assert Number(t[..0]) == 0;
    } else {
      assert t[..|t| - 1] == "0" + d[..|d| - 1];
      LeadingZero(d[..|d| - 1]);
    }
  }

  /** A fraction or an exponent makes a float, which is not modelled. */
  lemma FloatsMarked(d: string, c: char, rest: string)
    requires AllDigits(d) && d != [] && (c == '.' || c == 'e')
    ensures ParseNumber(d + ([c] + rest)) == Fail(Unmodelled) && ParseNumber("-" + d + ([c] + rest)) == Fail(Unmodelled)
  {
    hide ParseNumber, Number;
    NumberIs(d, [c] + rest);
    NumberIs("-" + d, [c] + rest);
    assert ("-" + d)[1..] == d;
  }

  /** Every further digit is worth a tenth of the one before it. */
  lemma DigitsCount(d: string, k: nat)
    requires AllDigits(d) && k < 10
    ensures AllDigits(d + ["0123456789"[k]]) && Number(d + ["0123456789"[k]]) == 10 * Number(d) + k
  {
    assert "0123456789" == ['0', '1', '2', '3', '4', '5', '6', '7', '8', '9'];
    var t := d + ["0123456789"[k]];
    assert t[..|t| - 1] == d;
  }

  /** The three words, as written and as read. */
  lemma WordsAre(slash: bool, rest: string)
    ensures Text(Null, slash) == "null" && Text(Bool(true), slash) == "true" && Text(Bool(false), slash) == "false"
    ensures ParseValue("null" + rest) == Ok(Null, rest)
    ensures ParseValue("true" + rest) == Ok(Bool(true), rest)
    ensures ParseValue("false" + rest) == Ok(Bool(false), rest)
  {
    hide ParseSpace, ParseWord;
    NoSpace("null" + rest);
    NoSpace("true" + rest);
    NoSpace("false" + rest);
    WordBack("null", Null, rest);
    WordBack("true", Bool(true), rest);
    WordBack("false", Bool(false), rest);
  }

  // ---------------------------------------------------------------- what is wrong with a text

  const SPACES := [' ', '\t', '\n', '\r', '\U{000B}', '\U{000C}']

  /** Six characters are space. */
  lemma SpacesExact(c: char)
    ensures Gap([c]) <==> c in SPACES
  {
    hide Gap;
    GapExact([c]);
    var t := [c] + "]";
    assert t[1..] == "]";
    NoSpace("]");
    assert IsSpace(c) <==> c in SPACES by {
      assert SPACES[0] == ' ' && SPACES[1] == '\t' && SPACES[2] == '\n' && SPACES[3] == '\r' && SPACES[4] == '\U{000B}' && SPACES[5] == '\U{000C}';
    }
    if c == '/' {
      ShortTexts([c]);
    } else if !IsSpace(c) {
      NoSpace(t);
      assert |t| == 2;
    }
  }

  lemma {:induction false} NeverClosed(body: string)
    requires forall i :: 0 <= i < |body| - 1 ==> !Mark(body[i], body[i + 1])
    ensures SkipBlock(body) == Fail(ReadException)
  {
    if body != [] {
      assert forall i :: 0 <= i < |body[1..]| ==> body[1..][i] == body[i + 1];
      NeverClosed(body[1..]);
    }
  }

  lemma {:induction false} LineToTheEnd(body: string)
    requires OneLine(body)
    ensures SkipLine(body) == []
  {
    if body != [] {
      assert forall i :: 0 <= i < |body[1..]| ==> body[1..][i] == body[i + 1];
      LineToTheEnd(body[1..]);
    }
  }

  /** What is wrong with a comment: it ends too early, it is no comment, it is not closed, or nothing follows it. */
  lemma CommentErrors(c: char, body: string, rest: string)
    ensures ParseValue("/") == Fail(StopIteration)
    ensures c != '/' && c != '*' ==> ParseValue("/" + [c] + rest) == Fail(ReadException)
    ensures (forall i :: 0 <= i < |body| - 1 ==> !Mark(body[i], body[i + 1])) ==> ParseValue("/*" + body) == Fail(ReadException)
    ensures OneLine(body) ==> ParseValue("//" + body) == Fail(ReadException)
  {
    hide OneLine, SkipLine, SkipBlock, ParseArray, ParseObject, ParseString, ParseNumber, ParseWord;
    assert ("/" + [c] + rest)[1] == c;
    if forall i :: 0 <= i < |body| - 1 ==> !Mark(body[i], body[i + 1]) {
      NeverClosed(body);
      assert ("/*" + body)[2..] == body;
      assert ParseComment("/*" + body) == Fail(ReadException);
    }
    if OneLine(body) {
      LineToTheEnd(body);
      assert ("//" + body)[2..] == body;
      assert ParseComment("//" + body) == Ok((), []);
      NothingToSkip();
    }
  }

  /** Nothing to read, or nothing that a value can begin with. */
  lemma NoValue(s: string)
    requires s == [] || (!Token(s[0]) && !IsSpace(s[0]) && s[0] != '/')
    ensures ParseValue(s) == Fail(ReadException)
  {
    if s != [] {
      NoSpace(s);
    }
  }

  /** After an item the list has to end or to go on. */
  lemma ListErrors(d: Doc, slash: bool, c: char, rest: string)
    requires WellSpaced(d) && Tight(d) && c != ',' && c != ']' && !IsSpace(c) && c != '/' && Ends([c])
    ensures ParseValue("[" + Show(d, slash)) == Fail(StopIteration)
    ensures ParseValue("[" + (Show(d, slash) + ([c] + rest))) == Fail(ReadException)
  {
    hide ParseValue, ParseSpace, Show, Meaning;
    var t := Show(d, slash);
    assert t + [] == t;
    ShowStarts(d, slash, []);
    OpenNonempty(t);
    LayoutExact(d, slash, []);
    assert ParseSpace([]) == Ok((), []) by { NothingToSkip(); }
    var u := t + ([c] + rest);
    ShowStarts(d, slash, [c] + rest);
    OpenNonempty(u);
    LayoutExact(d, slash, [c] + rest);
    NoSpace([c] + rest);
  }

  lemma NothingToSkip()
    ensures ParseSpace([]) == Ok((), [])
  {
  }

  /** A key has to be a string, and a colon has to follow. */
  lemma KeyErrors(d: Doc, slash: bool, c: char, rest: string)
    requires WellSpaced(d) && Tight(d) && !IsSpace(c) && c != '/' && Ends([c])
    ensures !Meaning(d).Str? ==> ParseValue("{" + (Show(d, slash) + ([c] + rest))) == Fail(ReadException)
    ensures Meaning(d).Str? && c != ':' ==> ParseValue("{" + (Show(d, slash) + ([c] + rest))) == Fail(ReadException)
    ensures Meaning(d).Str? ==> ParseValue("{" + Show(d, slash)) == Fail(StopIteration)
  {
    hide ParseValue, ParseSpace, Show, Meaning;
    var t := Show(d, slash);
    assert t + [] == t;
    ShowStarts(d, slash, []);
    OpenNonempty(t);
    LayoutExact(d, slash, []);
    NothingToSkip();
    ShowStarts(d, slash, [c] + rest);
    OpenNonempty(t + ([c] + rest));
    LayoutExact(d, slash, [c] + rest);
    NoSpace([c] + rest);
  }

  // ---------------------------------------------------------------- repeated keys

  function Lookup(ms: seq<Member>, key: string): (v: Option<Value>)
  {
    if ms == [] then None else if ms[0].key == key then Some(ms[0].value) else Lookup(ms[1..], key)
  }

  /** The value that was written last for a key. */
  function LastValue(entries: seq<Entry>, key: string): (v: Option<Value>)
  {
    if entries == [] then None
    else
      var e := entries[|entries| - 1];
      if e.key == key then Some(Meaning(e.doc)) else LastValue(entries[..|entries| - 1], key)
  }

  lemma {:induction false} LookupPut(ms: seq<Member>, key: string, value: Value, k: string)
    ensures Lookup(Put(ms, key, value), k) == if k == key then Some(value) else Lookup(ms, k)
  {
    if ms != [] {
      var r := Put(ms, key, value);
      if ms[0].key == key {
        assert r[1..] == ms[1..];
      } else {
        assert r[1..] == Put(ms[1..], key, value);
        LookupPut(ms[1..], key, value, k);
      }
    } else {
      assert [Member(key, value)][1..] == [];
    }
  }

  lemma {:induction false} PutAllSnoc(acc: seq<Member>, entries: seq<Entry>, e: Entry)
    ensures PutAll(acc, entries + [e]) == Put(PutAll(acc, entries), e.key, Meaning(e.doc))
    decreases |entries|
  {
    hide Put, Meaning;
    var all := entries + [e];
    if entries == [] {
      assert all[1..] == [];
    } else {
      assert all[0] == entries[0] && all[1..] == entries[1..] + [e];
      PutAllSnoc(Put(acc, entries[0].key, Meaning(entries[0].doc)), entries[1..], e);
    }
  }

  /** Looking up a key in what is read gives the value that was written last for it. */
  lemma {:induction false} LastWins(entries: seq<Entry>, key: string)
    ensures Lookup(PutAll([], entries), key) == LastValue(entries, key)
    decreases |entries|
  {
    hide Meaning;
    if entries != [] {
      var n := |entries| - 1;
      assert entries == entries[..n] + [entries[n]];
      PutAllSnoc([], entries[..n], entries[n]);
      LookupPut(PutAll([], entries[..n]), entries[n].key, Meaning(entries[n].doc), key);
      LastWins(entries[..n], key);
    }
  }

  /** The same for a text: reading a laid-out dictionary and looking up a key. */
  lemma ReadLastWins(entries: seq<Entry>, inner: string, slash: bool, rest: string, key: string)
    requires WellSpaced(Entries(entries, inner)) && Tight(Entries(entries, inner)) && Ends(rest)
    ensures var r := ParseValue(Show(Entries(entries, inner), slash) + rest);
            r.Ok? && r.rest == rest && r.value.Dict? && Lookup(r.value.members, key) == LastValue(entries, key)
  {
    hide ParseValue, Show, PutAll, Lookup, LastValue, WellSpaced, Tight;
    LayoutExact(Entries(entries, inner), slash, rest);
    LastWins(entries, key);
  }
}
