/** The HUJSON parser as an object that walks the text and counts lines and columns (crabscale-policy/src/hujson.rs). */
module HujsonParser {
  import opened Ordered
  import opened Digits
  import opened HujsonLex
  import opened Hujson

  datatype Outcome<+T> = Done(value: T) | Fail(line: nat, col: nat)

  // ---------------------------------------------------------------------
  // Positions.

  ghost function Newlines(text: string): nat {
    if text == [] then 0 else Newlines(text[..|text| - 1]) + if text[|text| - 1] == '\n' then 1 else 0
  }

  /** Where the last line of a text starts. */
  ghost function LineStart(text: string): (i: nat)
    ensures i <= |text| && (i == 0 || text[i - 1] == '\n')
    ensures forall j :: i <= j < |text| ==> text[j] != '\n'
  {
    if text == [] || text[|text| - 1] == '\n' then |text| else
      var init := text[..|text| - 1];
      assert forall j :: 0 <= j < |init| ==> init[j] == text[j];
      LineStart(init)
  }

  ghost function LineAt(chars: string, pos: nat): nat
    requires pos <= |chars|
  {
    1 + Newlines(chars[..pos])
  }

  ghost function ColAt(chars: string, pos: nat): nat
    requires pos <= |chars|
  {
    1 + pos - LineStart(chars[..pos])
  }

  lemma NextPosition(chars: string, pos: nat)
    requires pos < |chars|
    ensures chars[pos] == '\n' ==> LineAt(chars, pos + 1) == LineAt(chars, pos) + 1 && ColAt(chars, pos + 1) == 1
    ensures chars[pos] != '\n' ==> LineAt(chars, pos + 1) == LineAt(chars, pos) && ColAt(chars, pos + 1) == ColAt(chars, pos) + 1
  {
    assert chars[..pos + 1][..pos] == chars[..pos];
  }

  /** The position where the given number of characters is unread. */
  ghost function FailAt<T>(chars: string, left: nat): Outcome<T> {
    var pos := if left <= |chars| then |chars| - left else 0;
    Fail(LineAt(chars, pos), ColAt(chars, pos))
  }

  // ---------------------------------------------------------------------
  // The loops of the parser, one round at a time.

  /** Whether a list ends here; a comma before the end is allowed. */
  ghost function ParseMark(s: string, close: char): (r: Res<bool>)
    ensures r.Ok? ==> |r.rest| <= |s|
  {
    var w := SkipWs(s);
    if w.Err? then Err(w.left)
    else if Starts(w.rest, close) then Ok(true, w.rest[1..])
    else if Starts(w.rest, ',') then
      var x := SkipWs(w.rest[1..]);
      if x.Err? then Err(x.left) else if Starts(x.rest, close) then Ok(true, x.rest[1..]) else Ok(false, x.rest)
    else Err(|w.rest|)
  }

  lemma ElemsByMark(s: string, depth: nat)
    ensures var v := ParseValue(s, depth);
            ParseElems(s, depth) ==
              if v.Err? then Err(v.left) else
                var k := ParseMark(v.rest, ']');
                if k.Err? then Err(k.left)
                else Prefixed([v.value], if k.value then Ok([], k.rest) else ParseElems(k.rest, depth))
  {
    var v := ParseValue(s, depth);
    if v.Ok? {
      assert [v.value] + [] == [v.value];
    }
  }

  lemma MembersByMark(s: string, depth: nat, acc: map<string, Value>)
    ensures var m := ParseMember(s, depth, acc.Keys);
            ParseMembers(s, depth, acc) ==
              if m.Err? then Err(m.left) else
                var k := ParseMark(m.rest, '}');
                var acc' := acc[m.value.0 := m.value.1];
                if k.Err? then Err(k.left) else if k.value then Ok(acc', k.rest) else ParseMembers(k.rest, depth, acc')
  {
  }

  ghost function ParseKey(s: string): (r: Res<string>)
    ensures r.Ok? ==> |r.rest| < |s|
  {
    var w := SkipWs(s);
    if w.Err? then Err(w.left) else if !Starts(w.rest, '"') then Err(|w.rest|) else ParseString(w.rest)
  }

  ghost function ParseColon(s: string): (r: Res<()>)
    ensures r.Ok? ==> |r.rest| < |s|
  {
    var x := SkipWs(s);
    if x.Err? then Err(x.left)
    else if x.rest == [] then Err(0)
    else if x.rest[0] != ':' then Err(|x.rest| - 1)
    else SkipWs(x.rest[1..])
  }

  lemma MemberByParts(s: string, depth: nat, used: set<string>)
    ensures var key := ParseKey(s);
            ParseMember(s, depth, used) ==
              if key.Err? then Err(key.left) else if key.value in used then Err(|s|) else
                var colon := ParseColon(key.rest);
                if colon.Err? then Err(colon.left) else
                  var v := ParseValue(colon.rest, depth);
                  if v.Err? then Err(v.left) else Ok((key.value, v.value), v.rest)
  {
  }

  class Parser {
    const chars: string
    var pos: nat
    var line: nat
    var col: nat
    var depth: nat

    ghost predicate Valid()
      reads this
    {
      pos <= |chars| && line == LineAt(chars, pos) && col == ColAt(chars, pos)
    }

    ghost function Unread(): string
      requires pos <= |chars|
      reads this
    {
      chars[pos..]
    }

    /** The method did what the parse function says, and reports errors at the position it says. */
    ghost predicate Follows<T>(spec: Res<T>, r: Outcome<T>)
      requires pos <= |chars|
      reads this
    {
      if spec.Ok? then r == Done(spec.value) && Unread() == spec.rest else r == FailAt(chars, spec.left)
    }

    constructor (text: string)
      ensures Valid() && chars == text && pos == 0 && depth == 0
    {
      chars, pos, line, col, depth := text, 0, 1, 1, 0;
      new;
      assert text[..0] == [];
    }

    method Bump() returns (c: Option<char>)
      requires Valid()
      modifies this
      ensures Valid() && depth == old(depth)
      ensures old(Unread()) == [] ==> c == None && pos == old(pos)
      ensures old(Unread()) != [] ==> c == Some(old(Unread())[0]) && Unread() == old(Unread())[1..] && pos == old(pos) + 1
    {
      if pos >= |chars| {
        return None;
      }
      NextPosition(chars, pos);
      c := Some(chars[pos]);
      pos := pos + 1;
      if c.value == '\n' {
        line, col := line + 1, 1;
      } else {
        col := col + 1;
      }
    }

    function Peek(): (c: Option<char>)
      requires pos <= |chars|
      reads this
      ensures c.Some? <==> Unread() != []
      ensures c.Some? ==> c.value == Unread()[0]
    {
      if pos < |chars| then Some(chars[pos]) else None
    }

    function PeekNext(): (c: Option<char>)
      requires pos <= |chars|
      reads this
      ensures c.Some? <==> |Unread()| >= 2
      ensures c.Some? ==> c.value == Unread()[1]
    {
      if pos + 1 < |chars| then Some(chars[pos + 1]) else None
    }

    lemma FailsHere<T>(left: nat)
      requires Valid() && left == |Unread()|
      ensures FailAt<T>(chars, left) == Fail(line, col)
    {
    }

    // -------------------------------------------------------------------
    // Trivia.

    method SkipLine()
      requires Valid()
      modifies this
      ensures Valid() && Unread() == DropLine(old(Unread())) && depth == old(depth)
    {
      while Peek().Some? && Peek().value != '\n'
        invariant Valid() && depth == old(depth) && DropLine(Unread()) == DropLine(old(Unread()))
        decreases |Unread()|
      {
        var _ := Bump();
      }
    }

    method SkipBlock() returns (ok: bool)
      requires Valid()
      modifies this
      ensures Valid() && depth == old(depth) && (ok <==> DropBlock(old(Unread())).Some?)
      ensures ok ==> Unread() == DropBlock(old(Unread())).value
    {
      while true
        invariant Valid() && depth == old(depth) && DropBlock(Unread()) == DropBlock(old(Unread()))
        decreases |Unread()|
      {
        if Peek().None? {
          return false;
        }
        if Peek().value == '*' && PeekNext() == Some('/') {
          assert Unread()[1..][1..] == Unread()[2..];
          var _ := Bump();
          var _ := Bump();
          return true;
        }
        var _ := Bump();
      }
    }

    method SkipTrivia() returns (r: Outcome<()>)
      requires Valid()
      modifies this
      ensures Valid() && depth == old(depth) && Follows(SkipWs(old(Unread())), r)
    {
      while true
        invariant Valid() && depth == old(depth) && SkipWs(Unread()) == SkipWs(old(Unread()))
        decreases |Unread()|
      {
        if Peek().Some? && IsSpace(Peek().value) {
          var _ := Bump();
        } else if Peek() == Some('/') && PeekNext() == Some('/') {
          assert Unread()[1..][1..] == Unread()[2..];
          var _ := Bump();
          var _ := Bump();
          SkipLine();
        } else if Peek() == Some('/') && PeekNext() == Some('*') {
          var startLine, startCol := line, col;
          FailsHere<()>(|Unread()|);
          assert Unread()[1..][1..] == Unread()[2..];
          var _ := Bump();
          var _ := Bump();
          var ok := SkipBlock();
          if !ok {
            return Fail(startLine, startCol);
          }
        } else {
          return Done(());
        }
      }
    }

    // -------------------------------------------------------------------
    // Strings.

    method ReadHexQuad() returns (r: Outcome<nat>)
      requires Valid()
      modifies this
      ensures Valid() && depth == old(depth) && Follows(HexFrom(old(Unread()), 4, 0), r)
    {
      var value: nat, n: nat := 0, 4;
      while n > 0
        invariant Valid() && depth == old(depth) && n <= 4 && value < Cap(n)
        invariant HexFrom(Unread(), n, value) == HexFrom(old(Unread()), 4, 0)
      {
        var c := Bump();
        if c.None? {
          FailsHere<nat>(0);
          return Fail(line, col);
        }
        var digit := HexDigit(c.value);
        if digit.None? {
          FailsHere<nat>(|Unread()|);
          return Fail(line, col);
        }
        value := value * 16 + digit.value;
        n := n - 1;
      }
      r := Done(value);
    }

    method ReadUnicode() returns (r: Outcome<string>)
      requires Valid()
      modifies this
      ensures Valid() && depth == old(depth) && Follows(ParseUnicode(old(Unread())), r)
    {
      var first := ReadHexQuad();
      if first.Fail? {
        return Fail(first.line, first.col);
      }
      if IsHigh(first.value) {
        if Peek() == Some('\\') && PeekNext() == Some('u') {
          assert Unread()[1..][1..] == Unread()[2..];
          var _ := Bump();
          var _ := Bump();
          var second := ReadHexQuad();
          if second.Fail? {
            return Fail(second.line, second.col);
          }
          if IsLow(second.value) {
            return Done([Pair(first.value, second.value)]);
          }
          if IsHigh(second.value) {
            return Done([REPLACEMENT]);
          }
          return Done([REPLACEMENT, Scalar(second.value)]);
        }
        return Done([REPLACEMENT]);
      }
      if IsLow(first.value) {
        return Done([REPLACEMENT]);
      }
      r := Done([Scalar(first.value)]);
    }

    method ReadEscape() returns (r: Outcome<string>)
      requires Valid()
      modifies this
      ensures Valid() && depth == old(depth) && Follows(ParseEscape(old(Unread())), r)
    {
      var c := Bump();
      if c.None? {
        FailsHere<string>(0);
        return Fail(line, col);
      }
      if EscapeChar(c.value).Some? {
        return Done([EscapeChar(c.value).value]);
      }
      if c.value == 'u' {
        r := ReadUnicode();
        return;
      }
      FailsHere<string>(|Unread()|);
      r := Fail(line, col);
    }

    method ReadString() returns (r: Outcome<string>)
      requires Valid() && Starts(Unread(), '"')
      modifies this
      ensures Valid() && depth == old(depth) && Follows(ParseString(old(Unread())), r)
    {
      var _ := Bump();
      var out := "";
      ghost var inside := Unread();
      PrefixedEmpty(ParseChars(inside));
      while true
        invariant Valid() && depth == old(depth)
        invariant ParseChars(inside) == Prefixed(out, ParseChars(Unread()))
        decreases |Unread()|
      {
        if Peek().None? {
          FailsHere<string>(0);
          return Fail(line, col);
        }
        var c := Peek().value;
        if c == '"' {
          assert out + "" == out;
          var _ := Bump();
          return Done(out);
        }
        if c == '\\' {
          var _ := Bump();
          var e := ReadEscape();
          if e.Fail? {
            return Fail(e.line, e.col);
          }
          PrefixedTwice(out, e.value, ParseChars(Unread()));
          out := out + e.value;
        } else if IsControl(c) {
          FailsHere<string>(|Unread()|);
          return Fail(line, col);
        } else {
          var _ := Bump();
          PrefixedTwice(out, [c], ParseChars(Unread()));
          out := out + [c];
        }
      }
    }

    // -------------------------------------------------------------------
    // Literals and numbers.

    method ReadLiteral(word: string) returns (r: Outcome<()>)
      requires Valid()
      modifies this
      ensures Valid() && depth == old(depth) && Follows(ParseLiteral(old(Unread()), word), r)
    {
      var startLine, startCol := line, col;
      ghost var s := Unread();
      FailsHere<()>(|s|);
      for i := 0 to |word|
        invariant Valid() && depth == old(depth) && i <= |s| && s[..i] == word[..i] && Unread() == s[i..]
      {
        var c := Bump();
        if c != Some(word[i]) {
          return Fail(startLine, startCol);
        }
        assert s[i..][1..] == s[i + 1..];
      }
      assert word[..|word|] == word;
      if Peek().Some? && (IsAlnum(Peek().value) || Peek().value == '_') {
        return Fail(startLine, startCol);
      }
      r := Done(());
    }

    method ReadDigits() returns (r: Outcome<string>)
      requires Valid()
      modifies this
      ensures Valid() && depth == old(depth) && Follows(ScanDigits(old(Unread())), r)
    {
      ghost var s := Unread();
      var start := pos;
      FailsHere<string>(|s|);
      while Peek().Some? && IsDigit(Peek().value)
        invariant Valid() && depth == old(depth) && start == old(pos) <= pos && AllDigits(chars[start..pos])
        decreases |Unread()|
      {
        assert chars[start..pos + 1] == chars[start..pos] + [chars[pos]];
        var _ := Bump();
      }
      var digits := chars[start..pos];
      assert s == digits + Unread();
      CountUnique(digits, Unread());
      assert s[..|digits|] == digits && s[|digits|..] == Unread();
      if digits == [] {
        return Fail(line, col);
      }
      r := Done(digits);
    }

    method ReadWhole() returns (r: Outcome<string>)
      requires Valid()
      modifies this
      ensures Valid() && depth == old(depth) && Follows(ScanWhole(old(Unread())), r)
    {
      if Peek() == Some('0') {
        var _ := Bump();
        return Done("0");
      }
      r := ReadDigits();
    }

    method ReadFrac() returns (r: Outcome<Option<string>>)
      requires Valid()
      modifies this
      ensures Valid() && depth == old(depth) && Follows(ScanFrac(old(Unread())), r)
    {
      if Peek() != Some('.') {
        return Done(None);
      }
      var _ := Bump();
      var digits := ReadDigits();
      r := if digits.Fail? then Fail(digits.line, digits.col) else Done(Some(digits.value));
    }

    method ReadExponent() returns (r: Outcome<Option<Exponent>>)
      requires Valid()
      modifies this
      ensures Valid() && depth == old(depth) && Follows(ScanExp(old(Unread())), r)
    {
      ghost var s := Unread();
      if Peek() != Some('e') && Peek() != Some('E') {
        return Done(None);
      }
      var letter := Bump();
      var sign: Option<char> := None;
      if Peek() == Some('+') || Peek() == Some('-') {
        sign := Bump();
        assert s[1..][1..] == s[2..];
      }
      var digits := ReadDigits();
      r := if digits.Fail? then Fail(digits.line, digits.col) else Done(Some(Exponent(letter.value, sign, digits.value)));
    }

    method ReadToken() returns (r: Outcome<NumTok>)
      requires Valid()
      modifies this
      ensures Valid() && depth == old(depth) && Follows(ScanToken(old(Unread())), r)
    {
      var neg := Peek() == Some('-');
      if neg {
        var _ := Bump();
      }
      var whole := ReadWhole();
      if whole.Fail? {
        return Fail(whole.line, whole.col);
      }
      var frac := ReadFrac();
      if frac.Fail? {
        return Fail(frac.line, frac.col);
      }
      var exp := ReadExponent();
      if exp.Fail? {
        return Fail(exp.line, exp.col);
      }
      r := Done(NumTok(neg, whole.value, frac.value, exp.value));
    }

    method ReadNumber() returns (r: Outcome<Numeral>)
      requires Valid()
      modifies this
      ensures Valid() && depth == old(depth) && Follows(ParseNumber(old(Unread())), r)
    {
      var startLine, startCol := line, col;
      FailsHere<Numeral>(|Unread()|);
      var tok := ReadToken();
      if tok.Fail? {
        return Fail(tok.line, tok.col);
      }
      if Peek().Some? && (IsAlnum(Peek().value) || Peek().value == '.') {
        var _ := Bump();
        return Fail(startLine, startCol);
      }
      var value := NumValue(tok.value);
      if value.None? {
        return Fail(startLine, startCol);
      }
      r := Done(value.value);
    }

    // -------------------------------------------------------------------
    // Values.

    method ReadValue() returns (r: Outcome<Value>)
      requires Valid()
      modifies this
      ensures Valid() && Follows(ParseValue(old(Unread()), old(depth)), r) && (r.Done? ==> depth == old(depth))
      decreases |Unread()|, 3
    {
      var w := SkipTrivia();
      if w.Fail? {
        return Fail(w.line, w.col);
      }
      r := ReadNode();
    }

    method ReadNode() returns (r: Outcome<Value>)
      requires Valid()
      modifies this
      ensures Valid() && Follows(ParseNode(old(Unread()), old(depth)), r) && (r.Done? ==> depth == old(depth))
      decreases |Unread()|, 2
    {
      FailsHere<Value>(|Unread()|);
      if Peek().None? {
        return Fail(line, col);
      }
      var c := Peek().value;
      if c == '{' {
        r := ReadObject();
      } else if c == '[' {
        r := ReadArray();
      } else if c == '"' {
        var text := ReadString();
        r := if text.Fail? then Fail(text.line, text.col) else Done(StringValue(text.value));
      } else if c == 't' {
        r := ReadWord("true", BoolValue(true));
      } else if c == 'f' {
        r := ReadWord("false", BoolValue(false));
      } else if c == 'n' {
        r := ReadWord("null", NullValue);
      } else if c == '-' || IsDigit(c) {
        var number := ReadNumber();
        r := if number.Fail? then Fail(number.line, number.col) else Done(NumberValue(number.value));
      } else {
        r := Fail(line, col);
      }
    }

    method ReadWord(word: string, v: Value) returns (r: Outcome<Value>)
      requires Valid() && word != []
      modifies this
      ensures Valid() && depth == old(depth) && Follows(ParseWord(old(Unread()), word, v), r)
    {
      var w := ReadLiteral(word);
      r := if w.Fail? then Fail(w.line, w.col) else Done(v);
    }

    method ReadArray() returns (r: Outcome<Value>)
      requires Valid() && Starts(Unread(), '[')
      modifies this
      ensures Valid() && Follows(ParseArray(old(Unread()), old(depth)), r) && (r.Done? ==> depth == old(depth))
      decreases |Unread()|, 1
    {
      FailsHere<Value>(|Unread()|);
      depth := depth + 1;
      if depth > MAX_DEPTH {
        return Fail(line, col);
      }
      var _ := Bump();
      var w := SkipTrivia();
      if w.Fail? {
        return Fail(w.line, w.col);
      }
      if Peek() == Some(']') {
        var _ := Bump();
        depth := depth - 1;
        return Done(ArrayValue([]));
      }
      var values := ReadElems();
      if values.Fail? {
        return Fail(values.line, values.col);
      }
      depth := depth - 1;
      r := Done(ArrayValue(values.value));
    }

    /** What follows an element or a member: the end, with or without a comma before it, or a comma and more. */
    method ReadMark(close: char) returns (r: Outcome<bool>)
      requires Valid() && close != ','
      modifies this
      ensures Valid() && depth == old(depth) && Follows(ParseMark(old(Unread()), close), r)
    {
      var w := SkipTrivia();
      if w.Fail? {
        return Fail(w.line, w.col);
      }
      if Peek() == Some(close) {
        var _ := Bump();
        return Done(true);
      }
      if Peek() != Some(',') {
        FailsHere<bool>(|Unread()|);
        return Fail(line, col);
      }
      var _ := Bump();
      var x := SkipTrivia();
      if x.Fail? {
        return Fail(x.line, x.col);
      }
      if Peek() == Some(close) {
        var _ := Bump();
        return Done(true);
      }
      r := Done(false);
    }

    /** One element with what follows it, and whether the array ended there. */
    method ReadElem() returns (r: Outcome<(Value, bool)>)
      requires Valid()
      modifies this
      ensures Valid() && (r.Done? ==> depth == old(depth) && |Unread()| < |old(Unread())|)
      ensures var spec := ParseElems(old(Unread()), old(depth));
              if r.Fail? then spec.Err? && r == FailAt(chars, spec.left)
              else spec == Prefixed([r.value.0], if r.value.1 then Ok([], Unread()) else ParseElems(Unread(), depth))
      decreases |Unread()|, 4
    {
      ElemsByMark(Unread(), depth);
      var v := ReadValue();
      if v.Fail? {
        return Fail(v.line, v.col);
      }
      var closed := ReadMark(']');
      r := if closed.Fail? then Fail(closed.line, closed.col) else Done((v.value, closed.value));
    }

    method ReadElems() returns (r: Outcome<seq<Value>>)
      requires Valid()
      modifies this
      ensures Valid() && Follows(ParseElems(old(Unread()), old(depth)), r) && (r.Done? ==> depth == old(depth))
      decreases |Unread()|, 5
    {
      var values := [];
      PrefixedEmpty(ParseElems(Unread(), depth));
      while true
        invariant Valid() && depth == old(depth) && |Unread()| <= |old(Unread())|
        invariant ParseElems(old(Unread()), old(depth)) == Prefixed(values, ParseElems(Unread(), depth))
        decreases |Unread()|
      {
        var e := ReadElem();
        if e.Fail? {
          return Fail(e.line, e.col);
        }
        PrefixedTwice(values, [e.value.0], if e.value.1 then Ok([], Unread()) else ParseElems(Unread(), depth));
        values := values + [e.value.0];
        if e.value.1 {
          assert values + [] == values;
          return Done(values);
        }
      }
    }

    method ReadObject() returns (r: Outcome<Value>)
      requires Valid() && Starts(Unread(), '{')
      modifies this
      ensures Valid() && Follows(ParseObject(old(Unread()), old(depth)), r) && (r.Done? ==> depth == old(depth))
      decreases |Unread()|, 1
    {
      FailsHere<Value>(|Unread()|);
      depth := depth + 1;
      if depth > MAX_DEPTH {
        return Fail(line, col);
      }
      var _ := Bump();
      var w := SkipTrivia();
      if w.Fail? {
        return Fail(w.line, w.col);
      }
      if Peek() == Some('}') {
        var _ := Bump();
        depth := depth - 1;
        return Done(ObjectValue(map[]));
      }
      var members := ReadMembers();
      if members.Fail? {
        return Fail(members.line, members.col);
      }
      depth := depth - 1;
      r := Done(ObjectValue(members.value));
    }

    method ReadKey() returns (r: Outcome<string>)
      requires Valid()
      modifies this
      ensures Valid() && depth == old(depth) && Follows(ParseKey(old(Unread())), r)
    {
      var w := SkipTrivia();
      if w.Fail? {
        return Fail(w.line, w.col);
      }
      if Peek() != Some('"') {
        FailsHere<string>(|Unread()|);
        return Fail(line, col);
      }
      r := ReadString();
    }

    method ReadColon() returns (r: Outcome<()>)
      requires Valid()
      modifies this
      ensures Valid() && depth == old(depth) && Follows(ParseColon(old(Unread())), r)
    {
      var x := SkipTrivia();
      if x.Fail? {
        return Fail(x.line, x.col);
      }
      var c := Bump();
      FailsHere<()>(|Unread()|);
      if c != Some(':') {
        return Fail(line, col);
      }
      r := SkipTrivia();
    }

    method ReadMember(used: set<string>) returns (r: Outcome<(string, Value)>)
      requires Valid()
      modifies this
      ensures Valid() && Follows(ParseMember(old(Unread()), old(depth), used), r) && (r.Done? ==> depth == old(depth))
      decreases |Unread()|, 5
    {
      MemberByParts(Unread(), depth, used);
      var keyLine, keyCol := line, col;
      FailsHere<(string, Value)>(|Unread()|);
      var key := ReadKey();
      if key.Fail? {
        return Fail(key.line, key.col);
      }
      if key.value in used {
        return Fail(keyLine, keyCol);
      }
      var colon := ReadColon();
      if colon.Fail? {
        return Fail(colon.line, colon.col);
      }
      var v := ReadValue();
      r := if v.Fail? then Fail(v.line, v.col) else Done((key.value, v.value));
    }

    /** One member with what follows it, and whether the object ended there. */
    method ReadMemberAndMark(members: map<string, Value>) returns (r: Outcome<(map<string, Value>, bool)>)
      requires Valid()
      modifies this
      ensures Valid() && (r.Done? ==> depth == old(depth) && |Unread()| < |old(Unread())|)
      ensures var spec := ParseMembers(old(Unread()), old(depth), members);
              if r.Fail? then spec.Err? && r == FailAt(chars, spec.left)
              else spec == if r.value.1 then Ok(r.value.0, Unread()) else ParseMembers(Unread(), depth, r.value.0)
      decreases |Unread()|, 6
    {
      MembersByMark(Unread(), depth, members);
      var m := ReadMember(members.Keys);
      if m.Fail? {
        return Fail(m.line, m.col);
      }
      var closed := ReadMark('}');
      r := if closed.Fail? then Fail(closed.line, closed.col) else Done((members[m.value.0 := m.value.1], closed.value));
    }

    method ReadMembers() returns (r: Outcome<map<string, Value>>)
      requires Valid()
      modifies this
      ensures Valid() && Follows(ParseMembers(old(Unread()), old(depth), map[]), r) && (r.Done? ==> depth == old(depth))
      decreases |Unread()|, 7
    {
      var members: map<string, Value> := map[];
      while true
        invariant Valid() && depth == old(depth) && |Unread()| <= |old(Unread())|
        invariant ParseMembers(old(Unread()), old(depth), map[]) == ParseMembers(Unread(), depth, members)
        decreases |Unread()|
      {
        var m := ReadMemberAndMark(members);
        if m.Fail? {
          return Fail(m.line, m.col);
        }
        members := m.value.0;
        if m.value.1 {
          return Done(members);
        }
      }
    }
  }

  ghost function Prefixed<T>(head: seq<T>, r: Res<seq<T>>): Res<seq<T>> {
    if r.Ok? then Ok(head + r.value, r.rest) else r
  }

  lemma PrefixedEmpty<T>(r: Res<seq<T>>)
    ensures Prefixed([], r) == r
  {
    if r.Ok? {
      assert [] + r.value == r.value;
    }
  }

  lemma PrefixedTwice<T>(a: seq<T>, b: seq<T>, r: Res<seq<T>>)
    ensures Prefixed(a, Prefixed(b, r)) == Prefixed(a + b, r)
  {
    if r.Ok? {
      assert a + (b + r.value) == a + b + r.value;
    }
  }

  /** A document is read exactly when its text spells a value, and then as that value. */
  method ParseDocument(text: string) returns (r: Outcome<Value>)
    ensures r.Done? ==> Spells(text, r.value)
    ensures r.Fail? ==> forall v :: !Spells(text, v)
    ensures r.Fail? ==> Parse(text).Err? && r == FailAt(text, Parse(text).left)
  {
    forall v
      ensures Parse(text) == Ok(v, []) <==> Spells(text, v)
    {
      ParseIff(text, v);
    }
    var parser := new Parser(text);
    assert parser.Unread() == text;
    r := parser.ReadValue();
    if r.Fail? {
      return;
    }
    var w := parser.SkipTrivia();
    if w.Fail? {
      return Fail(w.line, w.col);
    }
    if parser.Peek().Some? {
      parser.FailsHere<Value>(|parser.Unread()|);
      return Fail(parser.line, parser.col);
    }
  }
}
