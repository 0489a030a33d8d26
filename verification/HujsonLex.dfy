/** The lexical grammar of HUJSON: trivia, strings, literals and numbers (crabscale-policy/src/hujson.rs). */
module HujsonLex {
  import opened Ordered
  import opened Digits

  /** A parse step on the text still unread; an error is reported where `left` characters are unread. */
  datatype Res<+T> = Ok(value: T, rest: string) | Err(left: nat)

  predicate Starts(s: string, c: char) {
    s != [] && s[0] == c
  }

  lemma Assoc(a: string, b: string, c: string)
    ensures a + b + c == a + (b + c)
  {
  }

  // ---------------------------------------------------------------------
  // White space and comments.

  predicate IsSpace(c: char) {
    c == ' ' || c == '\t' || c == '\n' || c == '\r'
  }

  /** Everything up to the end of the line is dropped; the line break is not. */
  function DropLine(s: string): (r: string)
    ensures |r| <= |s|
  {
    if s == [] || s[0] == '\n' then s else DropLine(s[1..])
  }

  /** Everything up to and with the end of a block comment is dropped. */
  function DropBlock(s: string): (r: Option<string>)
    ensures r.Some? ==> |r.value| < |s|
  {
    if s == [] then None
    else if |s| >= 2 && s[0] == '*' && s[1] == '/' then Some(s[2..])
    else DropBlock(s[1..])
  }

  predicate StartsLine(s: string) {
    |s| >= 2 && s[0] == '/' && s[1] == '/'
  }

  predicate StartsBlock(s: string) {
    |s| >= 2 && s[0] == '/' && s[1] == '*'
  }

  function SkipWs(s: string): (r: Res<()>)
    ensures r.Ok? ==> |r.rest| <= |s|
    decreases |s|
  {
    if s != [] && IsSpace(s[0]) then
      SkipWs(s[1..])
    else if StartsLine(s) then
      SkipWs(DropLine(s[2..]))
    else if StartsBlock(s) then
      var r := DropBlock(s[2..]);
      if r.None? then Err(|s|) else SkipWs(r.value)
    else
      Ok((), s)
  }

  datatype Blank =
    | Space(c: char)
    | LineComment(text: string)
    | BlockComment(text: string)

  type Trivia = seq<Blank>

  ghost predicate NoBreak(text: string) {
    forall i :: 0 <= i < |text| ==> text[i] != '\n'
  }

  ghost predicate NoEnd(text: string) {
    forall i :: 0 <= i < |text| - 1 ==> !(text[i] == '*' && text[i + 1] == '/')
  }

  ghost predicate BlankOk(b: Blank) {
    match b
    case Space(c) => IsSpace(c)
    case LineComment(text) => NoBreak(text)
    case BlockComment(text) => NoEnd(text)
  }

  ghost predicate TriviaOk(t: Trivia) {
    forall i :: 0 <= i < |t| ==> BlankOk(t[i])
  }

  ghost function BlankText(b: Blank): string {
    match b
    case Space(c) => [c]
    case LineComment(text) => "//" + text + "\n"
    case BlockComment(text) => "/*" + text + "*/"
  }

  ghost function TriviaText(t: Trivia): string {
    if t == [] then [] else BlankText(t[0]) + TriviaText(t[1..])
  }

  /** The text does not go on with white space or a comment. */
  ghost predicate Stops(s: string) {
    s == [] || (!IsSpace(s[0]) && !StartsLine(s) && !StartsBlock(s))
  }

  lemma {:induction false} DropLineText(text: string, rest: string)
    requires NoBreak(text) && (rest == [] || rest[0] == '\n')
    ensures DropLine(text + rest) == rest
  {
    if text == [] {
      assert text + rest == rest;
    } else {
      assert (text + rest)[1..] == text[1..] + rest;
      DropLineText(text[1..], rest);
    }
  }

  lemma {:induction false} DropBlockText(text: string, rest: string)
    requires NoEnd(text)
    ensures DropBlock(text + "*/" + rest) == Some(rest)
  {
    var s := text + "*/" + rest;
    if text == [] {
      assert s == "*/" + rest;
      assert s[2..] == rest;
    } else {
      assert s[1..] == text[1..] + "*/" + rest;
      assert forall i :: 0 <= i < |text[1..]| ==> text[1..][i] == text[i + 1];
      DropBlockText(text[1..], rest);
      assert s[0] == text[0] && s[1] == if |text| > 1 then text[1] else '*';
    }
  }

  lemma LineSkips(text: string, rest: string)
    requires NoBreak(text)
    ensures SkipWs("//" + text + "\n" + rest) == SkipWs(rest)
  {
    var s, end := "//" + text + "\n" + rest, "\n" + rest;
    assert s[2..] == text + end;
    DropLineText(text, end);
    assert end[1..] == rest;
    assert SkipWs(end) == SkipWs(rest);
  }

  lemma BlockSkips(text: string, rest: string)
    requires NoEnd(text)
    ensures SkipWs("/*" + text + "*/" + rest) == SkipWs(rest)
  {
    var s := "/*" + text + "*/" + rest;
    assert s[2..] == text + "*/" + rest;
    DropBlockText(text, rest);
  }

  lemma BlankSkips(b: Blank, rest: string)
    requires BlankOk(b)
    ensures SkipWs(BlankText(b) + rest) == SkipWs(rest)
  {
    match b
    case Space(c) => assert ([c] + rest)[1..] == rest;
    case LineComment(text) => LineSkips(text, rest);
    case BlockComment(text) => BlockSkips(text, rest);
  }

  /** Trivia are skipped to the last character, whatever follows them. */
  lemma {:induction false} TriviaSkips(t: Trivia, rest: string)
    requires TriviaOk(t)
    ensures SkipWs(TriviaText(t) + rest) == SkipWs(rest)
  {
    if t == [] {
      assert TriviaText(t) + rest == rest;
    } else {
      assert TriviaText(t) + rest == BlankText(t[0]) + (TriviaText(t[1..]) + rest);
      BlankSkips(t[0], TriviaText(t[1..]) + rest);
      TriviaSkips(t[1..], rest);
    }
  }

  lemma {:induction false} DropLineSound(s: string) returns (text: string)
    ensures NoBreak(text) && s == text + DropLine(s) && (DropLine(s) == [] || DropLine(s)[0] == '\n')
  {
    if s == [] || s[0] == '\n' {
      text := "";
    } else {
      var t := DropLineSound(s[1..]);
      text := [s[0]] + t;
      assert forall i :: 0 < i < |text| ==> text[i] == t[i - 1];
      assert s == [s[0]] + s[1..];
      Assoc([s[0]], t, DropLine(s));
    }
  }

  lemma {:induction false} DropBlockSound(s: string) returns (text: string)
    requires DropBlock(s).Some?
    ensures NoEnd(text) && s == text + "*/" + DropBlock(s).value
  {
    if |s| >= 2 && s[0] == '*' && s[1] == '/' {
      text := "";
    } else {
      var t := DropBlockSound(s[1..]);
      text := [s[0]] + t;
      assert s == [s[0]] + s[1..];
      assert |t| > 0 ==> s[1] == t[0];
    }
  }

  /** A line comment that the end of the text cuts off. */
  ghost function OpenText(open: Option<string>): string {
    if open.Some? then "//" + open.value else []
  }

  ghost predicate OpenOk(open: Option<string>) {
    open.Some? ==> NoBreak(open.value)
  }

  lemma LineGlue(text: string, tail: string)
    ensures "//" + (text + ("\n" + tail)) == BlankText(LineComment(text)) + tail
  {
    Assoc(text, "\n", tail);
    Assoc("//", text, "\n");
    Assoc("//", text + "\n", tail);
  }

  lemma LineWhole(s: string, text: string)
    requires StartsLine(s) && s[2..] == text + DropLine(s[2..])
    ensures DropLine(s[2..]) == [] ==> s == "//" + text
    ensures DropLine(s[2..]) != [] && DropLine(s[2..])[0] == '\n' ==> s == BlankText(LineComment(text)) + DropLine(s[2..])[1..]
  {
    var after := DropLine(s[2..]);
    assert s == "//" + (text + after);
    if after != [] && after[0] == '\n' {
      LineGlue(text, after[1..]);
      assert after == "\n" + after[1..];
    } else if after == [] {
      assert text + after == text;
    }
  }

  lemma LineStep(s: string) returns (text: string)
    requires StartsLine(s)
    ensures NoBreak(text)
    ensures DropLine(s[2..]) == [] ==> s == "//" + text
    ensures DropLine(s[2..]) != [] ==>
              s == BlankText(LineComment(text)) + DropLine(s[2..])[1..] && SkipWs(s) == SkipWs(DropLine(s[2..])[1..])
  {
    text := DropLineSound(s[2..]);
    LineWhole(s, text);
    if DropLine(s[2..]) != [] {
      BlankSkips(LineComment(text), DropLine(s[2..])[1..]);
    }
  }

  lemma BlockStep(s: string) returns (text: string)
    requires StartsBlock(s) && DropBlock(s[2..]).Some?
    ensures NoEnd(text) && s == BlankText(BlockComment(text)) + DropBlock(s[2..]).value
  {
    text := DropBlockSound(s[2..]);
    assert s == "/*" + s[2..];
    assert s == "/*" + text + "*/" + DropBlock(s[2..]).value;
  }

  /** What was skipped is trivia, but for a line comment at the very end of the text. */
  lemma {:induction false} SkipSound(s: string) returns (t: Trivia, open: Option<string>)
    requires SkipWs(s).Ok?
    ensures TriviaOk(t) && OpenOk(open) && s == TriviaText(t) + OpenText(open) + SkipWs(s).rest
    ensures Stops(SkipWs(s).rest) && (open.Some? ==> SkipWs(s).rest == [])
    decreases |s|
  {
    if s != [] && IsSpace(s[0]) {
      t, open := SkipSound(s[1..]);
      assert s == BlankText(Space(s[0])) + s[1..];
      t := Prepend(Space(s[0]), t, open, s, s[1..]);
    } else if StartsLine(s) {
      var text := LineStep(s);
      var after := DropLine(s[2..]);
      if after == [] {
        t, open := [], Some(text);
      } else {
        t, open := SkipSound(after[1..]);
        t := Prepend(LineComment(text), t, open, s, after[1..]);
      }
    } else if StartsBlock(s) {
      var text := BlockStep(s);
      var after := DropBlock(s[2..]).value;
      t, open := SkipSound(after);
      t := Prepend(BlockComment(text), t, open, s, after);
    } else {
      t, open := [], None;
    }
  }

  lemma Prepend(b: Blank, later: Trivia, open: Option<string>, s: string, after: string) returns (t: Trivia)
    requires BlankOk(b) && TriviaOk(later) && s == BlankText(b) + after && SkipWs(after).Ok?
    requires after == TriviaText(later) + OpenText(open) + SkipWs(after).rest
    ensures TriviaOk(t) && s == TriviaText(t) + OpenText(open) + SkipWs(after).rest
  {
    t := [b] + later;
    assert t[1..] == later;
    Assoc(TriviaText(later), OpenText(open), SkipWs(after).rest);
    Assoc(BlankText(b), TriviaText(later), OpenText(open) + SkipWs(after).rest);
    Assoc(TriviaText(t), OpenText(open), SkipWs(after).rest);
  }

  lemma StopsStays(s: string)
    requires Stops(s)
    ensures SkipWs(s) == Ok((), s)
  {
  }

  /** Skipping twice is skipping once. */
  lemma SkipTwice(s: string)
    requires SkipWs(s).Ok?
    ensures Stops(SkipWs(s).rest) && SkipWs(SkipWs(s).rest) == Ok((), SkipWs(s).rest)
  {
    var t, open := SkipSound(s);
  }

  // ---------------------------------------------------------------------
  // Strings.

  /** The control characters of Unicode, which a string may not hold unescaped. */
  predicate IsControl(c: char) {
    c as int < 0x20 || 0x7F <= c as int <= 0x9F
  }

  function HexDigit(c: char): (r: Option<nat>)
    ensures r.Some? ==> r.value < 16
  {
    if '0' <= c <= '9' then Some(c as int - '0' as int)
    else if 'a' <= c <= 'f' then Some(c as int - 'a' as int + 10)
    else if 'A' <= c <= 'F' then Some(c as int - 'A' as int + 10)
    else None
  }

  predicate IsHigh(u: nat) {
    0xD800 <= u <= 0xDBFF
  }

  predicate IsLow(u: nat) {
    0xDC00 <= u <= 0xDFFF
  }

  const REPLACEMENT: char := 0xFFFD as char

  function Scalar(u: nat): char
    requires u < 0x10000 && !IsHigh(u) && !IsLow(u)
  {
    u as char
  }

  function Pair(high: nat, low: nat): char
    requires IsHigh(high) && IsLow(low)
  {
    (0x10000 + (high - 0xD800) * 0x400 + (low - 0xDC00)) as char
  }

  /** The character a simple escape stands for. */
  function EscapeChar(c: char): Option<char> {
    match c
    case '"' => Some('"')
    case '\\' => Some('\\')
    case '/' => Some('/')
    case 'b' => Some(0x08 as char)
    case 'f' => Some(0x0C as char)
    case 'n' => Some('\n')
    case 'r' => Some('\r')
    case 't' => Some('\t')
    case _ => None
  }

  /** Exceeds every value read before the last `n` of four hexadecimal digits. */
  function Cap(n: nat): nat {
    if n == 4 then 1 else if n == 3 then 0x10 else if n == 2 then 0x100 else if n == 1 then 0x1000 else 0x10000
  }

  /** The last `n` of four hexadecimal digits, read one by one. */
  function HexFrom(s: string, n: nat, acc: nat): (r: Res<nat>)
    requires n <= 4 && acc < Cap(n)
    ensures r.Ok? ==> |r.rest| == |s| - n && r.value < 0x10000
  {
    if n == 0 then Ok(acc, s)
    else if s == [] then Err(0)
    else if HexDigit(s[0]).None? then Err(|s| - 1)
    else HexFrom(s[1..], n - 1, acc * 16 + HexDigit(s[0]).value)
  }

  /** The characters a `\u` escape adds; a high surrogate takes the escape behind it along. */
  function ParseUnicode(s: string): (r: Res<string>)
    ensures r.Ok? ==> |r.rest| < |s|
  {
    var first := HexFrom(s, 4, 0);
    if first.Err? then
      Err(first.left)
    else if IsHigh(first.value) then
      if |first.rest| >= 2 && first.rest[0] == '\\' && first.rest[1] == 'u' then
        var second := HexFrom(first.rest[2..], 4, 0);
        if second.Err? then Err(second.left)
        else if IsLow(second.value) then Ok([Pair(first.value, second.value)], second.rest)
        else if IsHigh(second.value) then Ok([REPLACEMENT], second.rest)
        else Ok([REPLACEMENT, Scalar(second.value)], second.rest)
      else
        Ok([REPLACEMENT], first.rest)
    else if IsLow(first.value) then
      Ok([REPLACEMENT], first.rest)
    else
      Ok([Scalar(first.value)], first.rest)
  }

  /** What follows a backslash. */
  function ParseEscape(s: string): (r: Res<string>)
    ensures r.Ok? ==> |r.rest| < |s|
  {
    if s == [] then Err(0)
    else if EscapeChar(s[0]).Some? then Ok([EscapeChar(s[0]).value], s[1..])
    else if s[0] == 'u' then ParseUnicode(s[1..])
    else Err(|s| - 1)
  }

  /** The inside of a string and its closing quote. */
  function ParseChars(s: string): (r: Res<string>)
    ensures r.Ok? ==> |r.rest| < |s|
    decreases |s|
  {
    if s == [] then
      Err(0)
    else if s[0] == '"' then
      Ok("", s[1..])
    else if s[0] == '\\' then
      var e := ParseEscape(s[1..]);
      if e.Err? then e else
        var later := ParseChars(e.rest);
        if later.Err? then later else Ok(e.value + later.value, later.rest)
    else if IsControl(s[0]) then
      Err(|s|)
    else
      var later := ParseChars(s[1..]);
      if later.Err? then later else Ok([s[0]] + later.value, later.rest)
  }

  function ParseString(s: string): (r: Res<string>)
    requires Starts(s, '"')
    ensures r.Ok? ==> |r.rest| < |s|
  {
    ParseChars(s[1..])
  }

  datatype StrItem =
    | Plain(c: char)
    | Escape(c: char)
    | Unicode(hex: string)

  ghost predicate IsHex(hex: string) {
    |hex| == 4 && forall i :: 0 <= i < 4 ==> HexDigit(hex[i]).Some?
  }

  ghost function HexValue(hex: string): (r: nat)
    requires IsHex(hex)
    ensures r < 0x10000
  {
    HexDigit(hex[0]).value * 0x1000 + HexDigit(hex[1]).value * 0x100 + HexDigit(hex[2]).value * 0x10 + HexDigit(hex[3]).value
  }

  /** A character or escape as section 7 of RFC 8259 allows it in a string. */
  ghost predicate RfcItemOk(i: StrItem) {
    match i
    case Plain(c) => c as int >= 0x20 && c != '"' && c != '\\'
    case Escape(c) => EscapeChar(c).Some?
    case Unicode(hex) => IsHex(hex)
  }

  ghost predicate RfcItemsOk(items: seq<StrItem>) {
    forall i :: 0 <= i < |items| ==> RfcItemOk(items[i])
  }

  /** What the parser accepts of it: not the characters from U+007F to U+009F. */
  ghost predicate ItemOk(i: StrItem) {
    RfcItemOk(i) && !(i.Plain? && IsControl(i.c))
  }

  ghost predicate ItemsOk(items: seq<StrItem>) {
    forall i :: 0 <= i < |items| ==> ItemOk(items[i])
  }

  ghost function ItemText(i: StrItem): string {
    match i
    case Plain(c) => [c]
    case Escape(c) => ['\\', c]
    case Unicode(hex) => ['\\', 'u'] + hex
  }

  ghost function ItemsText(items: seq<StrItem>): string {
    if items == [] then [] else ItemText(items[0]) + ItemsText(items[1..])
  }

  /**
   * The string the items stand for. A high surrogate joins the low one right behind it; any other surrogate becomes
   * the replacement character, and a high one also swallows an escaped high surrogate right behind it.
   */
  ghost function Decoded(items: seq<StrItem>): string
    requires RfcItemsOk(items)
  {
    if items == [] then
      []
    else
      match items[0]
      case Plain(c) => [c] + Decoded(items[1..])
      case Escape(c) => [EscapeChar(c).value] + Decoded(items[1..])
      case Unicode(hex) =>
        var u := HexValue(hex);
        if IsHigh(u) && |items| > 1 && items[1].Unicode? then
          var v := HexValue(items[1].hex);
          (if IsLow(v) then [Pair(u, v)] else if IsHigh(v) then [REPLACEMENT] else [REPLACEMENT, Scalar(v)]) + Decoded(items[2..])
        else
          [if IsHigh(u) || IsLow(u) then REPLACEMENT else Scalar(u)] + Decoded(items[1..])
  }

  lemma HexReads(hex: string, rest: string)
    requires IsHex(hex)
    ensures HexFrom(hex + rest, 4, 0) == Ok(HexValue(hex), rest)
  {
    var s := hex + rest;
    var a, b, c, d := HexDigit(hex[0]).value, HexDigit(hex[1]).value, HexDigit(hex[2]).value, HexDigit(hex[3]).value;
    assert HexFrom(s, 4, 0) == HexFrom(s[1..], 3, a);
    assert HexFrom(s[1..], 3, a) == HexFrom(s[2..], 2, a * 16 + b) by { assert s[1..][1..] == s[2..]; }
    assert HexFrom(s[2..], 2, a * 16 + b) == HexFrom(s[3..], 1, (a * 16 + b) * 16 + c) by { assert s[2..][1..] == s[3..]; }
    assert s[3..][1..] == rest;
    assert HexFrom(s[3..], 1, (a * 16 + b) * 16 + c) == HexFrom(rest, 0, ((a * 16 + b) * 16 + c) * 16 + d);
  }

  lemma HexSound(s: string) returns (hex: string)
    requires HexFrom(s, 4, 0).Ok?
    ensures IsHex(hex) && s == hex + HexFrom(s, 4, 0).rest && HexFrom(s, 4, 0).value == HexValue(hex)
  {
    assert s[1..][1..] == s[2..] && s[2..][1..] == s[3..] && s[3..][1..] == s[4..];
    var a := HexDigit(s[0]).value;
    assert HexFrom(s, 4, 0) == HexFrom(s[1..], 3, a);
    var b := HexDigit(s[1..][0]).value;
    assert HexFrom(s[1..], 3, a) == HexFrom(s[2..], 2, a * 16 + b);
    var c := HexDigit(s[2..][0]).value;
    assert HexFrom(s[2..], 2, a * 16 + b) == HexFrom(s[3..], 1, (a * 16 + b) * 16 + c);
    hex := s[..4];
    assert s == hex + s[4..];
    HexReads(hex, s[4..]);
  }

  /** A `\u` escape that does not reach for the one behind it. */
  lemma LoneUnicode(hex: string, after: string)
    requires IsHex(hex) && (IsHigh(HexValue(hex)) ==> !(|after| >= 2 && after[0] == '\\' && after[1] == 'u'))
    ensures var u := HexValue(hex);
            ParseEscape("u" + hex + after) == Ok([if IsHigh(u) || IsLow(u) then REPLACEMENT else Scalar(u)], after)
  {
    assert ("u" + hex + after)[1..] == hex + after;
    HexReads(hex, after);
  }

  /** A high surrogate and the `\u` escape behind it. */
  lemma PairedUnicode(hex: string, next: string, after: string)
    requires IsHex(hex) && IsHex(next) && IsHigh(HexValue(hex))
    ensures var u, v := HexValue(hex), HexValue(next);
            ParseEscape("u" + hex + ("\\u" + next + after)) ==
              Ok(if IsLow(v) then [Pair(u, v)] else if IsHigh(v) then [REPLACEMENT] else [REPLACEMENT, Scalar(v)], after)
  {
    var behind := "\\u" + next + after;
    assert ("u" + hex + behind)[1..] == hex + behind;
    HexReads(hex, behind);
    assert behind[2..] == next + after;
    HexReads(next, after);
  }

  ghost function Closed(items: seq<StrItem>, rest: string): string {
    ItemsText(items) + ("\"" + rest)
  }

  lemma ClosedCons(items: seq<StrItem>, rest: string)
    requires items != []
    ensures Closed(items, rest) == ItemText(items[0]) + Closed(items[1..], rest)
  {
  }

  /** Only a `\u` escape is written with a backslash and a `u`. */
  lemma BehindItem(items: seq<StrItem>, rest: string)
    requires ItemsOk(items) && (items == [] || !items[0].Unicode?)
    ensures var s := Closed(items, rest); !(|s| >= 2 && s[0] == '\\' && s[1] == 'u')
  {
    if items != [] {
      ClosedCons(items, rest);
    }
  }

  /** A well-formed string reads as what its items stand for. */
  lemma {:induction false} CharsComplete(items: seq<StrItem>, rest: string)
    requires ItemsOk(items)
    ensures ParseChars(Closed(items, rest)) == Ok(Decoded(items), rest)
    decreases |items|
  {
    var s := Closed(items, rest);
    if items == [] {
      assert s == "\"" + rest;
    } else {
      ClosedCons(items, rest);
      var later := Closed(items[1..], rest);
      match items[0]
      case Plain(c) =>
        assert s[1..] == later;
        CharsComplete(items[1..], rest);
      case Escape(c) =>
        assert s[1..] == [c] + later && ([c] + later)[1..] == later;
        CharsComplete(items[1..], rest);
      case Unicode(hex) =>
        UnicodeComplete(items, rest);
    }
  }

  lemma {:induction false} UnicodeComplete(items: seq<StrItem>, rest: string)
    requires ItemsOk(items) && items != [] && items[0].Unicode?
    ensures ParseChars(Closed(items, rest)) == Ok(Decoded(items), rest)
    decreases |items|, 0
  {
    ClosedCons(items, rest);
    var s, hex, later := Closed(items, rest), items[0].hex, Closed(items[1..], rest);
    assert s[1..] == "u" + hex + later;
    if IsHigh(HexValue(hex)) && |items| > 1 && items[1].Unicode? {
      ClosedCons(items[1..], rest);
      assert items[1..][1..] == items[2..];
      assert later == "\\u" + items[1].hex + Closed(items[2..], rest);
      PairedUnicode(hex, items[1].hex, Closed(items[2..], rest));
      CharsComplete(items[2..], rest);
    } else {
      if IsHigh(HexValue(hex)) {
        BehindItem(items[1..], rest);
      }
      LoneUnicode(hex, later);
      CharsComplete(items[1..], rest);
    }
  }

  /** Whatever was read as a string is well formed and stands for the result. */
  lemma {:induction false} CharsSound(s: string) returns (items: seq<StrItem>)
    requires ParseChars(s).Ok?
    ensures ItemsOk(items) && s == Closed(items, ParseChars(s).rest) && Decoded(items) == ParseChars(s).value
    decreases |s|
  {
    if s[0] == '"' {
      items := [];
      assert s == "\"" + s[1..];
    } else if s[0] == '\\' {
      items := EscapeSound(s);
    } else {
      var later := CharsSound(s[1..]);
      items := [Plain(s[0])] + later;
      assert items[1..] == later;
      ClosedCons(items, ParseChars(s).rest);
      assert s == [s[0]] + s[1..];
    }
  }

  lemma {:induction false} EscapeSound(s: string) returns (items: seq<StrItem>)
    requires ParseChars(s).Ok? && s[0] == '\\'
    ensures ItemsOk(items) && s == Closed(items, ParseChars(s).rest) && Decoded(items) == ParseChars(s).value
    decreases |s|, 0
  {
    var e := ParseEscape(s[1..]);
    var later := CharsSound(e.rest);
    var rest := ParseChars(s).rest;
    assert s == [s[0], s[1]] + s[2..];
    if EscapeChar(s[1]).Some? {
      items := [Escape(s[1])] + later;
      assert items[1..] == later && s[1..][1..] == s[2..];
      ClosedCons(items, rest);
    } else {
      items := UnicodeSound(s, later);
    }
  }

  lemma UnicodeSound(s: string, later: seq<StrItem>) returns (items: seq<StrItem>)
    requires |s| >= 2 && s[0] == '\\' && s[1] == 'u' && ParseUnicode(s[2..]).Ok? && ParseChars(s).Ok?
    requires ItemsOk(later) && ParseUnicode(s[2..]).rest == Closed(later, ParseChars(s).rest)
    requires ParseChars(s).value == ParseUnicode(s[2..]).value + Decoded(later)
    ensures ItemsOk(items) && s == Closed(items, ParseChars(s).rest) && Decoded(items) == ParseChars(s).value
  {
    var rest := ParseChars(s).rest;
    var hex := HexSound(s[2..]);
    var first := HexFrom(s[2..], 4, 0);
    assert s == "\\u" + s[2..];
    Assoc("\\u", hex, first.rest);
    if IsHigh(first.value) && |first.rest| >= 2 && first.rest[0] == '\\' && first.rest[1] == 'u' {
      var next := HexSound(first.rest[2..]);
      assert first.rest == "\\u" + first.rest[2..];
      Assoc("\\u", next, Closed(later, rest));
      items := PairItems(hex, next, later, rest);
    } else {
      items := LoneItem(hex, later, rest);
    }
  }

  lemma PairItems(hex: string, next: string, later: seq<StrItem>, rest: string) returns (items: seq<StrItem>)
    requires IsHex(hex) && IsHex(next) && IsHigh(HexValue(hex)) && ItemsOk(later)
    ensures ItemsOk(items) && Closed(items, rest) == ("\\u" + hex) + (("\\u" + next) + Closed(later, rest))
    ensures var u, v := HexValue(hex), HexValue(next);
            Decoded(items) ==
              (if IsLow(v) then [Pair(u, v)] else if IsHigh(v) then [REPLACEMENT] else [REPLACEMENT, Scalar(v)]) + Decoded(later)
  {
    items := [Unicode(hex), Unicode(next)] + later;
    assert items[1..] == [Unicode(next)] + later && items[1..][1..] == later && items[2..] == later;
    ClosedCons(items, rest);
    ClosedCons(items[1..], rest);
  }

  lemma LoneItem(hex: string, later: seq<StrItem>, rest: string) returns (items: seq<StrItem>)
    requires IsHex(hex) && ItemsOk(later)
    requires var s := Closed(later, rest); IsHigh(HexValue(hex)) ==> !(|s| >= 2 && s[0] == '\\' && s[1] == 'u')
    ensures ItemsOk(items) && Closed(items, rest) == ("\\u" + hex) + Closed(later, rest)
    ensures var u := HexValue(hex);
            Decoded(items) == [if IsHigh(u) || IsLow(u) then REPLACEMENT else Scalar(u)] + Decoded(later)
  {
    items := [Unicode(hex)] + later;
    assert items[1..] == later;
    ClosedCons(items, rest);
    if later != [] {
      ClosedCons(later, rest);
    }
  }

  // ---------------------------------------------------------------------
  // Literals.

  predicate IsAlnum(c: char) {
    ('0' <= c <= '9') || ('a' <= c <= 'z') || ('A' <= c <= 'Z')
  }

  /** A word that is not glued to a letter, a digit or an underscore. */
  function ParseLiteral(s: string, word: string): (r: Res<()>)
    ensures r.Ok? ==> |r.rest| == |s| - |word| && s == word + r.rest
  {
    if |s| >= |word| && s[..|word|] == word && !(|s| > |word| && (IsAlnum(s[|word|]) || s[|word|] == '_'))
    then Ok((), s[|word|..]) else Err(|s|)
  }

  /** What may follow a value. */
  ghost predicate Follow(s: string) {
    s == [] || IsSpace(s[0]) || s[0] == '/' || s[0] == ',' || s[0] == ']' || s[0] == '}'
  }

  lemma LiteralComplete(word: string, rest: string)
    requires Follow(rest)
    ensures ParseLiteral(word + rest, word) == Ok((), rest)
  {
    assert (word + rest)[|word|..] == rest;
  }

  // ---------------------------------------------------------------------
  // Numbers.

  datatype Exponent = Exponent(letter: char, sign: Option<char>, digits: string)

  datatype NumTok = NumTok(neg: bool, whole: string, frac: Option<string>, exp: Option<Exponent>)

  /** An integer, or the exact value of a token with a fraction or an exponent. */
  datatype Numeral = Int(i: int) | Dec(r: real)

  ghost predicate Digitful(text: string) {
    text != [] && AllDigits(text)
  }

  predicate TokDigits(t: NumTok) {
    AllDigits(t.whole) && (t.frac.Some? ==> AllDigits(t.frac.value)) && (t.exp.Some? ==> AllDigits(t.exp.value.digits))
  }

  ghost predicate TokOk(t: NumTok) {
    && Digitful(t.whole) && (t.whole[0] == '0' ==> t.whole == "0")
    && (t.frac.Some? ==> Digitful(t.frac.value))
    && (t.exp.Some? ==>
          && Digitful(t.exp.value.digits)
          && (t.exp.value.letter == 'e' || t.exp.value.letter == 'E')
          && (t.exp.value.sign.Some? ==> t.exp.value.sign.value == '+' || t.exp.value.sign.value == '-'))
  }

  ghost function FracText(f: Option<string>): string {
    if f.Some? then "." + f.value else []
  }

  ghost function ExpText(e: Option<Exponent>): string {
    if e.Some? then [e.value.letter] + (if e.value.sign.Some? then [e.value.sign.value] else []) + e.value.digits else []
  }

  ghost function TokText(t: NumTok): string {
    (if t.neg then "-" else "") + (t.whole + (FracText(t.frac) + ExpText(t.exp)))
  }

  function RealPow(b: real, n: nat): (r: real)
    requires b > 0.0
    ensures r > 0.0
  {
    if n == 0 then 1.0 else b * RealPow(b, n - 1)
  }

  function PowerOfTen(e: int): real {
    if e >= 0 then RealPow(10.0, e) else 1.0 / RealPow(10.0, -e)
  }

  /** The exact decimal value of a token. */
  function DecimalValue(t: NumTok): real
    requires TokDigits(t)
  {
    var frac := if t.frac.Some? then t.frac.value else "";
    var exp: int := if t.exp.None? then 0 else
      (if t.exp.value.sign == Some('-') then 0 - Number(t.exp.value.digits) else Number(t.exp.value.digits));
    var magnitude := Number(t.whole + frac) as real * PowerOfTen(exp - |frac|);
    if t.neg then -magnitude else magnitude
  }

  /** The least magnitude that rounds to infinity in double precision: 2^1024 - 2^970. */
  function DoubleLimit(): real {
    RealPow(2.0, 1024) - RealPow(2.0, 970)
  }

  /** An integer must fit a signed or an unsigned 64-bit number, any other number a finite double. */
  function NumValue(t: NumTok): Option<Numeral>
    requires TokDigits(t)
  {
    if t.frac.None? && t.exp.None? then
      var i: int := if t.neg then 0 - Number(t.whole) else Number(t.whole);
      if -0x8000_0000_0000_0000 <= i < 0x1_0000_0000_0000_0000 then Some(Int(i)) else None
    else
      var r := DecimalValue(t);
      if -DoubleLimit() < r < DoubleLimit() then Some(Dec(r)) else None
  }

  /** How many digits a text starts with. */
  function DigitCount(s: string): (n: nat)
    ensures n <= |s| && AllDigits(s[..n]) && (n < |s| ==> !IsDigit(s[n]))
  {
    if s == [] || !IsDigit(s[0]) then
      0
    else
      var n := 1 + DigitCount(s[1..]);
      assert forall i :: 0 < i < n ==> s[i] == s[1..][..n - 1][i - 1];
      n
  }

  lemma {:induction false} CountUnique(digits: string, rest: string)
    requires AllDigits(digits) && (rest == [] || !IsDigit(rest[0]))
    ensures DigitCount(digits + rest) == |digits|
  {
    if digits == [] {
      assert digits + rest == rest;
    } else {
      assert (digits + rest)[1..] == digits[1..] + rest;
      CountUnique(digits[1..], rest);
    }
  }

  /** At least one digit. */
  function ScanDigits(s: string): (r: Res<string>)
    ensures r.Ok? ==> r.value != [] && AllDigits(r.value)
  {
    var n := DigitCount(s);
    if n > 0 then Ok(s[..n], s[n..]) else Err(|s|)
  }

  function ScanWhole(s: string): (r: Res<string>)
    ensures r.Ok? ==> r.value != [] && AllDigits(r.value) && (r.value[0] == '0' ==> r.value == "0")
  {
    if Starts(s, '0') then Ok("0", s[1..]) else ScanDigits(s)
  }

  function ScanFrac(s: string): Res<Option<string>> {
    if Starts(s, '.') then
      var d := ScanDigits(s[1..]);
      if d.Err? then Err(d.left) else Ok(Some(d.value), d.rest)
    else
      Ok(None, s)
  }

  function ScanExp(s: string): Res<Option<Exponent>> {
    if Starts(s, 'e') || Starts(s, 'E') then
      var sign := if Starts(s[1..], '+') || Starts(s[1..], '-') then Some(s[1]) else None;
      var d := ScanDigits(if sign.Some? then s[2..] else s[1..]);
      if d.Err? then Err(d.left) else Ok(Some(Exponent(s[0], sign, d.value)), d.rest)
    else
      Ok(None, s)
  }

  function ScanToken(s: string): (r: Res<NumTok>)
    ensures r.Ok? ==> TokDigits(r.value)
  {
    var neg := Starts(s, '-');
    var whole := ScanWhole(if neg then s[1..] else s);
    if whole.Err? then Err(whole.left) else
      var frac := ScanFrac(whole.rest);
      if frac.Err? then Err(frac.left) else
        var exp := ScanExp(frac.rest);
        if exp.Err? then Err(exp.left) else Ok(NumTok(neg, whole.value, frac.value, exp.value), exp.rest)
  }

  /** A number that is not glued to a letter, a digit or a point, and is in range. */
  function ParseNumber(s: string): (r: Res<Numeral>) {
    var t := ScanToken(s);
    if t.Err? then Err(t.left)
    else if t.rest != [] && (IsAlnum(t.rest[0]) || t.rest[0] == '.') then Err(|s|)
    else if NumValue(t.value).None? then Err(|s|)
    else Ok(NumValue(t.value).value, t.rest)
  }

  lemma Cut(s: string, n: nat)
    requires n <= |s|
    ensures s == s[..n] + s[n..]
  {
  }

  lemma DigitsSound(s: string)
    requires ScanDigits(s).Ok?
    ensures s == ScanDigits(s).value + ScanDigits(s).rest
  {
    Cut(s, DigitCount(s));
  }

  lemma FracSound(s: string)
    requires ScanFrac(s).Ok?
    ensures s == FracText(ScanFrac(s).value) + ScanFrac(s).rest && (ScanFrac(s).value.Some? ==> Digitful(ScanFrac(s).value.value))
  {
    if Starts(s, '.') {
      DigitsSound(s[1..]);
      assert s == "." + s[1..];
      Assoc(".", ScanFrac(s).value.value, ScanFrac(s).rest);
    }
  }

  lemma ExpSound(s: string)
    requires ScanExp(s).Ok?
    ensures s == ExpText(ScanExp(s).value) + ScanExp(s).rest && TokOk(NumTok(false, "0", None, ScanExp(s).value))
  {
    if Starts(s, 'e') || Starts(s, 'E') {
      var e := ScanExp(s).value.value;
      var k := if e.sign.Some? then 2 else 1;
      Cut(s, k);
      DigitsSound(s[k..]);
      assert s[..k] == [e.letter] + (if e.sign.Some? then [e.sign.value] else []);
      Assoc(s[..k], e.digits, ScanExp(s).rest);
    }
  }

  lemma WholeSound(s: string)
    requires ScanWhole(s).Ok?
    ensures s == ScanWhole(s).value + ScanWhole(s).rest
  {
    if Starts(s, '0') {
      Cut(s, 1);
    } else {
      DigitsSound(s);
    }
  }

  lemma SignSplits(s: string)
    ensures s == (if Starts(s, '-') then "-" else "") + (if Starts(s, '-') then s[1..] else s)
  {
    if Starts(s, '-') {
      Cut(s, 1);
    }
  }

  lemma TokenSound(s: string)
    requires ScanToken(s).Ok?
    ensures TokOk(ScanToken(s).value) && s == TokText(ScanToken(s).value) + ScanToken(s).rest
  {
    var t := ScanToken(s).value;
    var from := if t.neg then s[1..] else s;
    WholeSound(from);
    var whole := ScanWhole(from);
    FracSound(whole.rest);
    var frac := ScanFrac(whole.rest);
    ExpSound(frac.rest);
    TokenSplit(t, ScanToken(s).rest);
    SignSplits(s);
  }

  /** Whatever was read as a number is a well-formed token and its value. */
  lemma NumberSound(s: string) returns (t: NumTok)
    requires ParseNumber(s).Ok?
    ensures TokOk(t) && NumValue(t) == Some(ParseNumber(s).value) && s == TokText(t) + ParseNumber(s).rest
  {
    t := ScanToken(s).value;
    TokenSound(s);
  }

  lemma DigitsComplete(digits: string, rest: string)
    requires Digitful(digits) && (rest == [] || !IsDigit(rest[0]))
    ensures ScanDigits(digits + rest) == Ok(digits, rest)
  {
    CountUnique(digits, rest);
    assert (digits + rest)[..|digits|] == digits && (digits + rest)[|digits|..] == rest;
  }

  lemma ExpComplete(e: Option<Exponent>, rest: string)
    requires TokOk(NumTok(false, "0", None, e)) && Follow(rest)
    ensures ScanExp(ExpText(e) + rest) == Ok(e, rest)
  {
    if e.Some? {
      var digits, sign := e.value.digits, e.value.sign;
      DigitsComplete(digits, rest);
      var head := [e.value.letter] + (if sign.Some? then [sign.value] else []);
      Assoc(head, digits, rest);
      var s := head + (digits + rest);
      assert s[|head|..] == digits + rest;
      assert sign.None? ==> IsDigit(s[1]);
    } else {
      assert ExpText(e) + rest == rest;
    }
  }

  lemma FracComplete(f: Option<string>, rest: string)
    requires f.Some? ==> Digitful(f.value)
    requires rest == [] || (!IsDigit(rest[0]) && rest[0] != '.')
    ensures ScanFrac(FracText(f) + rest) == Ok(f, rest)
  {
    var s := FracText(f) + rest;
    if f.Some? {
      assert s == "." + (f.value + rest);
      assert s[1..] == f.value + rest;
      DigitsComplete(f.value, rest);
    }
  }

  lemma WholeComplete(whole: string, rest: string)
    requires Digitful(whole) && (whole[0] == '0' ==> whole == "0") && (rest == [] || !IsDigit(rest[0]))
    ensures ScanWhole(whole + rest) == Ok(whole, rest)
  {
    if whole[0] == '0' {
      assert (whole + rest)[1..] == rest;
    } else {
      DigitsComplete(whole, rest);
    }
  }

  lemma TokenSplit(t: NumTok, rest: string)
    ensures TokText(t) + rest == (if t.neg then "-" else "") + (t.whole + (FracText(t.frac) + (ExpText(t.exp) + rest)))
  {
    Assoc(if t.neg then "-" else "", t.whole + (FracText(t.frac) + ExpText(t.exp)), rest);
    Assoc(t.whole, FracText(t.frac) + ExpText(t.exp), rest);
    Assoc(FracText(t.frac), ExpText(t.exp), rest);
  }

  lemma SignReads(neg: bool, unsigned: string)
    requires unsigned != [] && IsDigit(unsigned[0])
    ensures var s := (if neg then "-" else "") + unsigned;
            Starts(s, '-') == neg && (if neg then s[1..] else s) == unsigned
  {
    assert neg ==> ("-" + unsigned)[1..] == unsigned;
    assert !neg ==> "" + unsigned == unsigned;
  }

  /** What follows the whole part, and what follows the fraction, starts neither with a digit nor with a second point. */
  lemma PartsEnd(t: NumTok, rest: string)
    requires TokOk(t) && Follow(rest)
    ensures var s := ExpText(t.exp) + rest; s == [] || (!IsDigit(s[0]) && s[0] != '.')
    ensures var s := FracText(t.frac) + (ExpText(t.exp) + rest); s == [] || !IsDigit(s[0])
  {
  }

  lemma ScanSteps(s: string, t: NumTok, afterWhole: string, afterFrac: string, rest: string)
    requires Starts(s, '-') == t.neg && ScanWhole(if t.neg then s[1..] else s) == Ok(t.whole, afterWhole)
    requires ScanFrac(afterWhole) == Ok(t.frac, afterFrac) && ScanExp(afterFrac) == Ok(t.exp, rest)
    ensures ScanToken(s) == Ok(t, rest)
  {
  }

  lemma TokenComplete(t: NumTok, rest: string)
    requires TokOk(t) && Follow(rest)
    ensures ScanToken(TokText(t) + rest) == Ok(t, rest)
  {
    var afterFrac := ExpText(t.exp) + rest;
    var afterWhole := FracText(t.frac) + afterFrac;
    TokenSplit(t, rest);
    PartsEnd(t, rest);
    SignReads(t.neg, t.whole + afterWhole);
    ExpComplete(t.exp, rest);
    FracComplete(t.frac, afterFrac);
    WholeComplete(t.whole, afterWhole);
    ScanSteps(TokText(t) + rest, t, afterWhole, afterFrac, rest);
  }

  /** A well-formed number in range reads as its value. */
  lemma NumberComplete(t: NumTok, rest: string)
    requires TokOk(t) && NumValue(t).Some? && Follow(rest)
    ensures ParseNumber(TokText(t) + rest) == Ok(NumValue(t).value, rest)
  {
    TokenComplete(t, rest);
  }
}
