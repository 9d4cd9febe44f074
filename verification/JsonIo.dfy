/** The JSON writer and reader as objects: a growing buffer, and an index that moves over a text. */
module JsonIo {
  import opened Json

  class JsonWriter {
    var results: string
    var escapedForwardSlash: bool

    constructor ()
    {
      results, escapedForwardSlash := [], false;
    }

    method Append(s: string)
      modifies `results
      ensures results == old(results) + s
    {
      results := results + s;
    }

    method WriteString(s: string)
      modifies `results
      ensures results == old(results) + StringText(s, escapedForwardSlash)
    {
      hide Replace, Escape, Rules;
      Append("\"");
      var obj := Replace(s, '\\', "\\\\");
      if escapedForwardSlash {
        obj := Replace(obj, '/', "\\/");
      }
      obj := Replace(obj, QUOTE, "\\\"");
      obj := Replace(obj, BS, "\\b");
      obj := Replace(obj, FF, "\\f");
      obj := Replace(obj, '\n', "\\n");
      obj := Replace(obj, '\r', "\\r");
      obj := Replace(obj, '\t', "\\t");
      assert obj == Escape(s, escapedForwardSlash) by {
        ChainSteps(s, escapedForwardSlash);
        ChainIsEscape(s, escapedForwardSlash);
      }
      Append(obj);
      Append("\"");
    }

    method WriteList(items: seq<Value>)
      modifies `results
      ensures results == old(results) + ItemsText(items, escapedForwardSlash)
      decreases items
    {
      hide Text;
      var n := |items|;
      for i := 0 to |items|
        invariant n == |items| - i
        invariant results + ItemsText(items[i..], escapedForwardSlash) == old(results) + ItemsText(items, escapedForwardSlash)
      {
        assert items[i..][1..] == items[i + 1..] && items[i..][0] == items[i];
        WriteValue(items[i]);
        n := n - 1;
        if n > 0 {
          Append(",");
        }
      }
    }

    method WriteMember(m: Member)
      modifies `results
      ensures results == old(results) + MemberText(m, escapedForwardSlash)
      decreases m
    {
      hide Text, StringText;
      WriteString(m.key);
      Append(":");
      WriteValue(m.value);
    }

    method WriteDict(members: seq<Member>)
      modifies `results
      ensures results == old(results) + MembersText(members, escapedForwardSlash)
      decreases members
    {
      hide MemberText;
      var n := |members|;
      for i := 0 to |members|
        invariant n == |members| - i
        invariant results + MembersText(members[i..], escapedForwardSlash) == old(results) + MembersText(members, escapedForwardSlash)
      {
        assert members[i..][1..] == members[i + 1..] && members[i..][0] == members[i];
        WriteMember(members[i]);
        n := n - 1;
        if n > 0 {
          Append(",");
        }
      }
    }

    method WriteValue(v: Value)
      modifies `results
      ensures results == old(results) + Text(v, escapedForwardSlash)
      decreases v
    {
      hide StringText, ItemsText, MembersText, IntText;
      match v
      case Dict(members) =>
        Append("{");
        WriteDict(members);
        Append("}");
      case List(items) =>
        Append("[");
        WriteList(items);
        Append("]");
      case Str(s) => WriteString(s);
      case Int(n) => Append(IntText(n));
      case Bool(b) => Append(if b then "true" else "false");
      case Null => Append("null");
    }

    /** The text, which reads back as the value. */
    method Write(v: Value, slash: bool) returns (text: string)
      modifies this
      ensures text == Text(v, slash)
      ensures Proper(v) ==> ParseValue(text) == Ok(v, [])
    {
      escapedForwardSlash := slash;
      results := [];
      WriteValue(v);
      text := results;
      if Proper(v) {
        RoundTrip(v, slash);
      }
    }
  }

  datatype Answer<T> = Got(value: T) | Raised(error: Error)

  function NextOf(s: string): (r: Parsed<char>)
  {
    if s == [] then Fail(StopIteration) else Ok(s[0], s[1..])
  }

  class JsonReader {
    const text: string
    var index: int

    ghost predicate Valid()
      reads this
    {
      -1 <= index < |text|
    }

    /** What has not been read. */
    ghost function Rest(): (s: string)
      requires Valid()
      reads this
    {
      text[index + 1..]
    }

    /** An answer and the new position are what the grammar says. */
    ghost predicate Agrees<T(!new)>(a: Answer<T>, p: Parsed<T>)
      reads this
    {
      if p.Ok? then a == Got(p.value) && Valid() && Rest() == p.rest else a == Raised(p.error)
    }

    constructor (text: string)
      ensures this.text == text && Valid() && Rest() == text
    {
      this.text := text;
      index := -1;
    }

    method Peek() returns (c: string)
      requires Valid()
      ensures c == if Rest() == [] then [] else [Rest()[0]]
    {
      var i := index + 1;
      if i < |text| {
        return [text[i]];
      } else {
        return [];
      }
    }

    method Next() returns (a: Answer<char>)
      requires Valid()
      modifies `index
      ensures Agrees(a, NextOf(old(Rest())))
      ensures a.Got? ==> index == old(index) + 1
    {
      index := index + 1;
      if index < |text| {
        return Got(text[index]);
      } else {
        return Raised(StopIteration);
      }
    }

    method PutBack()
      requires Valid() && index >= 0
      modifies `index
      ensures Valid() && index == old(index) - 1
      ensures Rest() == [text[old(index)]] + old(Rest())
    {
      index := index - 1;
    }

    method ReadComment() returns (a: Answer<()>)
      requires Valid() && Starts(Rest(), '/')
      modifies `index
      ensures Agrees(a, ParseComment(old(Rest())))
    {
      hide SkipLine, SkipBlock;
      var ch := Next();
      var second := Next();
      if second.Raised? {
        return Raised(second.error);
      }
      if second.value == '/' {
        SkipLineComment();
        return Got(());
      } else if second.value == '*' {
        a := SkipBlockComment();
      } else {
        return Raised(ReadException);
      }
    }

    /** _readDoubleSolidusComment; the end of the text ends the comment, too. */
    method SkipLineComment()
      requires Valid()
      modifies `index
      ensures Valid() && Rest() == SkipLine(old(Rest()))
    {
      var p := Peek();
      while p != []
        invariant Valid() && p == if Rest() == [] then [] else [Rest()[0]]
        invariant SkipLine(Rest()) == SkipLine(old(Rest()))
        decreases |Rest()|
      {
        var ch := Next();
        if ch.value == '\r' || ch.value == '\n' {
          return;
        }
        p := Peek();
      }
    }

    /** _readCStyleComment */
    method SkipBlockComment() returns (a: Answer<()>)
      requires Valid()
      modifies `index
      ensures Agrees(a, SkipBlock(old(Rest())))
    {
      ghost var s := Rest();
      var done := false;
      while !done
        invariant Valid()
        invariant !done ==> SkipBlock(Rest()) == SkipBlock(s)
        invariant done ==> Starts(Rest(), '/') && SkipBlock(s) == Ok((), Rest()[1..])
        decreases !done, |Rest()|
      {
        var ch := Next();
        if ch.Raised? {
          return Raised(ReadException);
        }
        var p := Peek();
        done := ch.value == '*' && p == "/";
        if !done && ch.value == '/' && p == "*" {
          return Raised(ReadException);
        }
      }
      var ch := Next();
      return Got(());
    }

    method EatWhitespace() returns (a: Answer<()>)
      requires Valid()
      modifies `index
      ensures Agrees(a, ParseSpace(old(Rest())))
    {
      hide IsSpace, ParseComment;
      ghost var s := Rest();
      var p := Peek();
      while p != [] && (IsSpace(p[0]) || p[0] == '/')
        invariant Valid() && p == if Rest() == [] then [] else [Rest()[0]]
        invariant ParseSpace(s) == ParseSpace(Rest())
        decreases |Rest()|
      {
        SlashIsNoSpace();
        if p[0] == '/' {
          var c := ReadComment();
          if c.Raised? {
            return Raised(c.error);
          }
        } else {
          var c := Next();
        }
        p := Peek();
      }
      return Got(());
    }

    method ReadWord(word: string, v: Value) returns (a: Answer<Value>)
      requires Valid() && word != []
      modifies `index
      ensures Agrees(a, ParseWord(old(Rest()), word, v))
    {
      ghost var s := Rest();
      var i := 0;
      while i < |word|
        invariant 0 <= i <= |word| && Valid()
        invariant i < |word| ==> ParseWord(s, word, v) == ParseWord(Rest(), word[i..], v)
        invariant i == |word| ==> ParseWord(s, word, v) == Ok(v, Rest())
      {
        assert word[i..][0] == word[i] && word[i..][1..] == word[i + 1..];
        var c := Next();
        if c.Raised? {
          return Raised(c.error);
        }
        if c.value != word[i] {
          return Raised(ReadException);
        }
        i := i + 1;
      }
      return Got(v);
    }

    method CollectNumber() returns (result: string, isFloat: bool)
      requires Valid() && Rest() != [] && (Rest()[0] == '-' || IsDigit(Rest()[0]))
      modifies `index
      ensures Valid() && Numeral(result) && old(Rest()) == result + Rest()
      ensures Rest() != [] ==> !IsDigit(Rest()[0])
      ensures isFloat <==> Starts(Rest(), '.') || Starts(Rest(), 'e')
    {
      hide Numeral;
      ghost var s := Rest();
      var c := Next();
      result := [c.value];
      NumeralOne(result);
      isFloat := false;
      var p := Peek();
      while p != [] && (IsDigit(p[0]) || p[0] == '.' || p[0] == 'e')
        invariant Valid() && p == if Rest() == [] then [] else [Rest()[0]]
        invariant Numeral(result) && s == result + Rest()
        decreases |Rest()|
      {
        if p[0] == '.' || p[0] == 'e' {
          isFloat := true;
          return;
        }
        c := Next();
        NumeralSnoc(result, c.value);
        result := result + [c.value];
        p := Peek();
      }
    }

    method ReadNumber() returns (a: Answer<int>)
      requires Valid() && Rest() != [] && (Rest()[0] == '-' || IsDigit(Rest()[0]))
      modifies `index
      ensures Agrees(a, ParseNumber(old(Rest())))
    {
      hide Number, ParseNumber;
      var result, isFloat := CollectNumber();
      NumberIs(result, Rest());
      if isFloat {
        return Raised(Unmodelled);
      } else if result[0] != '-' {
        assert result == [result[0]] + result[1..];
        return Got(Number(result));
      } else if |result| == 1 {
        return Raised(ReadException);
      } else {
        return Got(-Number(result[1..]));
      }
    }

    /** The character after a backslash. */
    method ReadEscape() returns (a: Answer<char>)
      requires Valid()
      modifies `index
      ensures Agrees(a, Unescape(old(Rest())))
    {
      hide HexDigit;
      var ch := Next();
      if ch.Raised? {
        return Raised(ReadException);
      }
      match ch.value
      case 'b' => return Got(BS);
      case 'r' => return Got('\r');
      case 'n' => return Got('\n');
      case 'f' => return Got(FF);
      case 't' => return Got('\t');
      case 'u' => a := ReadUnicode();
      case _ =>
        if ch.value == QUOTE || ch.value == '/' || ch.value == '\\' {
          return Got(ch.value);
        } else {
          return Raised(ReadException);
        }
    }

    method ReadUnicode() returns (a: Answer<char>)
      requires Valid()
      modifies `index
      ensures Agrees(a, Unicode(old(Rest())))
    {
      hide HexDigit;
      var ch4096 := Next();
      if ch4096.Raised? { return Raised(ReadException); }
      var ch256 := Next();
      if ch256.Raised? { return Raised(ReadException); }
      var ch16 := Next();
      if ch16.Raised? { return Raised(ReadException); }
      var ch1 := Next();
      if ch1.Raised? { return Raised(ReadException); }
      var d4096, d256, d16, d1 := HexDigit(ch4096.value), HexDigit(ch256.value), HexDigit(ch16.value), HexDigit(ch1.value);
      if d4096.Fail? || d256.Fail? || d16.Fail? || d1.Fail? {
        return Raised(ReadException);
      }
      var n := 4096 * d4096.value;
      n := n + 256 * d256.value;
      n := n + 16 * d16.value;
      n := n + d1.value;
      if n < 128 {
        return Got(n as char);
      } else {
        return Raised(UnicodeError);
      }
    }

    method ReadString() returns (a: Answer<string>)
      requires Valid() && Starts(Rest(), QUOTE)
      modifies `index
      ensures Agrees(a, ParseString(old(Rest())[1..], []))
    {
      hide Unescape;
      ghost var s := Rest()[1..];
      var result := [];
      var ch := Next();
      while true
        invariant Valid() && ParseString(s, []) == ParseString(Rest(), result)
        decreases |Rest()|
      {
        ch := Next();
        if ch.Raised? {
          return Raised(ReadException);
        }
        if ch.value == QUOTE {
          PutBack();
          break;
        }
        if ch.value == '\\' {
          ch := ReadEscape();
          if ch.Raised? {
            return Raised(ch.error);
          }
        }
        result := result + [ch.value];
      }
      ch := Next();
      return Got(result);
    }

    method ReadArray() returns (a: Answer<Value>)
      requires Valid() && Starts(Rest(), '[')
      modifies `index
      ensures Agrees(a, ParseArray(old(Rest())[1..]))
      decreases |Rest()|, 0
    {
      hide ParseValue;
      ghost var s := Rest()[1..];
      var result := [];
      var ch := Next();
      var p := Peek();
      var done := p == "]";
      while !done
        invariant Valid() && |Rest()| < old(|Rest()|)
        invariant done ==> Starts(Rest(), ']') && ParseArray(s) == Ok(List(result), Rest()[1..])
        invariant !done ==> ParseArray(s) == ParseItems(Rest(), result)
        decreases |Rest()|, !done
      {
        var item := Read();
        if item.Raised? {
          return Raised(item.error);
        }
        result := result + [item.value];
        var space := EatWhitespace();
        if space.Raised? {
          return Raised(space.error);
        }
        p := Peek();
        done := p == "]";
        if !done {
          ch := Next();
          if ch.Raised? {
            return Raised(ch.error);
          }
          if ch.value != ',' {
            return Raised(ReadException);
          }
        }
      }
      ch := Next();
      return Got(List(result));
    }

    method ReadObject() returns (a: Answer<Value>)
      requires Valid() && Starts(Rest(), '{')
      modifies `index
      ensures Agrees(a, ParseObject(old(Rest())[1..]))
      decreases |Rest()|, 0
    {
      hide ParseMember, Put;
      ghost var s := Rest()[1..];
      var result := [];
      var ch := Next();
      var p := Peek();
      var done := p == "}";
      while !done
        invariant Valid() && |Rest()| < old(|Rest()|)
        invariant done ==> Starts(Rest(), '}') && ParseObject(s) == Ok(Dict(result), Rest()[1..])
        invariant !done ==> ParseObject(s) == ParseMembers(Rest(), result)
        decreases |Rest()|, !done
      {
        var m := ReadMember();
        if m.Raised? {
          return Raised(m.error);
        }
        result := Put(result, m.value.key, m.value.value);
        var space := EatWhitespace();
        if space.Raised? {
          return Raised(space.error);
        }
        p := Peek();
        done := p == "}";
        if !done {
          ch := Next();
          if ch.Raised? {
            return Raised(ch.error);
          }
          if ch.value != ',' {
            return Raised(ReadException);
          }
        }
      }
      ch := Next();
      return Got(Dict(result));
    }

    method ReadMember() returns (a: Answer<Member>)
      requires Valid()
      modifies `index
      ensures Agrees(a, ParseMember(old(Rest())))
      decreases |Rest()|, 2
    {
      hide ParseValue, ParseSpace;
      var key := Read();
      if key.Raised? {
        return Raised(key.error);
      }
      if !key.value.Str? {
        return Raised(ReadException);
      }
      var space := EatWhitespace();
      if space.Raised? {
        return Raised(space.error);
      }
      var ch := Next();
      if ch.Raised? {
        return Raised(ch.error);
      }
      if ch.value != ':' {
        return Raised(ReadException);
      }
      space := EatWhitespace();
      if space.Raised? {
        return Raised(space.error);
      }
      var val := Read();
      if val.Raised? {
        return Raised(val.error);
      }
      return Got(Member(key.value.s, val.value));
    }

    method Read() returns (a: Answer<Value>)
      requires Valid()
      modifies `index
      ensures Agrees(a, ParseValue(old(Rest())))
      decreases |Rest()|, 1
    {
      hide ParseSpace, ParseArray, ParseObject, ParseString, ParseNumber, ParseWord;
      var space := EatWhitespace();
      if space.Raised? {
        return Raised(space.error);
      }
      var peek := Peek();
      if peek == [] {
        return Raised(ReadException);
      }
      var c := peek[0];
      if c == '{' {
        a := ReadObject();
      } else if c == '[' {
        a := ReadArray();
      } else if c == QUOTE {
        var r := ReadString();
        a := if r.Raised? then Raised(r.error) else Got(Str(r.value));
      } else if c == '-' || IsDigit(c) {
        var r := ReadNumber();
        a := if r.Raised? then Raised(r.error) else Got(Int(r.value));
      } else if c == 't' {
        a := ReadWord("true", Bool(true));
      } else if c == 'f' {
        a := ReadWord("false", Bool(false));
      } else if c == 'n' {
        a := ReadWord("null", Null);
      } else {
        a := Raised(ReadException);
      }
    }
  }

  lemma NumeralOne(s: string)
    requires |s| == 1 && (s[0] == '-' || IsDigit(s[0]))
    ensures Numeral(s)
  {
  }

  lemma NumeralSnoc(s: string, c: char)
    requires Numeral(s) && IsDigit(c)
    ensures Numeral(s + [c])
  {
    assert (s + [c])[1..] == s[1..] + [c];
  }

  lemma SlashIsNoSpace()
    ensures !IsSpace('/')
  {
  }

  /** The rules one by one. */
  lemma ChainSteps(s: string, slash: bool)
    ensures var s0 := Replace(s, '\\', "\\\\");
            var s1 := if slash then Replace(s0, '/', "\\/") else s0;
            var s2 := Replace(Replace(s1, QUOTE, "\\\""), BS, "\\b");
            Chain(s, Rules(slash)) == Replace(Replace(Replace(Replace(s2, FF, "\\f"), '\n', "\\n"), '\r', "\\r"), '\t', "\\t")
  {
    hide Replace, Chain;
    var later := LATER_RULES;
    var s0 := Replace(s, '\\', "\\\\");
    var s1 := if slash then Replace(s0, '/', "\\/") else s0;
    var tail := if slash then SLASH_RULE + later else later;
    assert Rules(slash) == [Rule('\\', "\\\\")] + tail;
    ChainCons(s, Rule('\\', "\\\\"), tail);
    if slash {
      ChainCons(s0, Rule('/', "\\/"), later);
    }
    LaterSteps(s1);
  }

  lemma ChainCons(s: string, x: Rule, rest: seq<Rule>)
    ensures Chain(s, [x] + rest) == Chain(Replace(s, x.pattern, x.repl), rest)
  {
    assert ([x] + rest)[1..] == rest;
  }

  lemma LaterSteps(s: string)
    ensures var s2 := Replace(Replace(s, QUOTE, "\\\""), BS, "\\b");
            Chain(s, LATER_RULES) == Replace(Replace(Replace(Replace(s2, FF, "\\f"), '\n', "\\n"), '\r', "\\r"), '\t', "\\t")
  {
    hide Replace, Chain;
    var l := LATER_RULES;
    var l5 := [l[5]] + [];
    var l4 := [l[4]] + l5;
    var l3 := [l[3]] + l4;
    var l2 := [l[2]] + l3;
    var l1 := [l[1]] + l2;
    assert l == [l[0]] + l1;
    var a := Replace(s, QUOTE, "\\\"");
    var b := Replace(a, BS, "\\b");
    var c := Replace(b, FF, "\\f");
    var d := Replace(c, '\n', "\\n");
    var e := Replace(d, '\r', "\\r");
    var f := Replace(e, '\t', "\\t");
    ChainCons(s, l[0], l1);
    ChainCons(a, l[1], l2);
    ChainCons(b, l[2], l3);
    ChainCons(c, l[3], l4);
    ChainCons(d, l[4], l5);
    ChainCons(e, l[5], []);
    assert Chain(f, []) == f by { ChainAbsent(f, []); }
  }
}
