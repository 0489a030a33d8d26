/** HUJSON documents: the grammar, the parser as a function of the text, and why they agree (crabscale-policy/src/hujson.rs). */
module Hujson {
  import opened Ordered
  import opened Digits
  import opened HujsonLex

  const MAX_DEPTH: nat := 128

  datatype Value =
    | NullValue
    | BoolValue(b: bool)
    | NumberValue(n: Numeral)
    | StringValue(s: string)
    | ArrayValue(elems: seq<Value>)
    | ObjectValue(members: map<string, Value>)

  // ---------------------------------------------------------------------
  // The parser.

  /** A value and the trivia before it. */
  function ParseValue(s: string, depth: nat): (r: Res<Value>)
    ensures r.Ok? ==> |r.rest| < |s|
    decreases |s|, 3
  {
    var w := SkipWs(s);
    if w.Err? then Err(w.left) else ParseNode(w.rest, depth)
  }

  function ParseNode(s: string, depth: nat): (r: Res<Value>)
    ensures r.Ok? ==> |r.rest| < |s|
    decreases |s|, 2
  {
    if s == [] then Err(0)
    else if s[0] == '{' then ParseObject(s, depth)
    else if s[0] == '[' then ParseArray(s, depth)
    else if s[0] == '"' then
      var r := ParseString(s);
      if r.Err? then Err(r.left) else Ok(StringValue(r.value), r.rest)
    else if s[0] == 't' then ParseWord(s, "true", BoolValue(true))
    else if s[0] == 'f' then ParseWord(s, "false", BoolValue(false))
    else if s[0] == 'n' then ParseWord(s, "null", NullValue)
    else if s[0] == '-' || IsDigit(s[0]) then ParseNumeral(s)
    else Err(|s|)
  }

  function ParseWord(s: string, word: string, v: Value): (r: Res<Value>)
    requires word != []
    ensures r.Ok? ==> |r.rest| < |s|
  {
    var r := ParseLiteral(s, word);
    if r.Err? then Err(r.left) else Ok(v, r.rest)
  }

  function ParseNumeral(s: string): (r: Res<Value>)
    ensures r.Ok? ==> |r.rest| < |s|
  {
    var r := ParseNumber(s);
    if r.Err? then
      Err(r.left)
    else
      assert |r.rest| < |s| by {
        TokenSound(s);
      }
      Ok(NumberValue(r.value), r.rest)
  }

  function ParseArray(s: string, depth: nat): (r: Res<Value>)
    requires Starts(s, '[')
    ensures r.Ok? ==> |r.rest| < |s|
    decreases |s|, 1
  {
    if depth + 1 > MAX_DEPTH then
      Err(|s|)
    else
      var w := SkipWs(s[1..]);
      if w.Err? then Err(w.left)
      else if Starts(w.rest, ']') then Ok(ArrayValue([]), w.rest[1..])
      else
        var es := ParseElems(w.rest, depth + 1);
        if es.Err? then Err(es.left) else Ok(ArrayValue(es.value), es.rest)
  }

  /** The elements of an array that is not empty, and its closing bracket. */
  function ParseElems(s: string, depth: nat): (r: Res<seq<Value>>)
    ensures r.Ok? ==> |r.rest| < |s|
    decreases |s|, 4
  {
    var v := ParseValue(s, depth);
    if v.Err? then Err(v.left) else
      var w := SkipWs(v.rest);
      if w.Err? then Err(w.left)
      else if Starts(w.rest, ']') then Ok([v.value], w.rest[1..])
      else if Starts(w.rest, ',') then
        var x := SkipWs(w.rest[1..]);
        if x.Err? then Err(x.left)
        else if Starts(x.rest, ']') then Ok([v.value], x.rest[1..])
        else
          var later := ParseElems(x.rest, depth);
          if later.Err? then Err(later.left) else Ok([v.value] + later.value, later.rest)
      else Err(|w.rest|)
  }

  function ParseObject(s: string, depth: nat): (r: Res<Value>)
    requires Starts(s, '{')
    ensures r.Ok? ==> |r.rest| < |s|
    decreases |s|, 1
  {
    if depth + 1 > MAX_DEPTH then
      Err(|s|)
    else
      var w := SkipWs(s[1..]);
      if w.Err? then Err(w.left)
      else if Starts(w.rest, '}') then Ok(ObjectValue(map[]), w.rest[1..])
      else
        var ms := ParseMembers(w.rest, depth + 1, map[]);
        if ms.Err? then Err(ms.left) else Ok(ObjectValue(ms.value), ms.rest)
  }

  /** A key not used before, its colon and its value. */
  function ParseMember(s: string, depth: nat, used: set<string>): (r: Res<(string, Value)>)
    ensures r.Ok? ==> |r.rest| < |s|
    decreases |s|, 4
  {
    var w := SkipWs(s);
    if w.Err? then Err(w.left)
    else if !Starts(w.rest, '"') then Err(|w.rest|)
    else
      var key := ParseString(w.rest);
      if key.Err? then Err(key.left)
      else if key.value in used then Err(|s|)
      else
        var x := SkipWs(key.rest);
        if x.Err? then Err(x.left)
        else if x.rest == [] then Err(0)
        else if x.rest[0] != ':' then Err(|x.rest| - 1)
        else
          var y := SkipWs(x.rest[1..]);
          if y.Err? then Err(y.left) else
            var v := ParseValue(y.rest, depth);
            if v.Err? then Err(v.left) else Ok((key.value, v.value), v.rest)
  }

  /** The members of an object that is not empty, and its closing brace. */
  function ParseMembers(s: string, depth: nat, acc: map<string, Value>): (r: Res<map<string, Value>>)
    ensures r.Ok? ==> |r.rest| < |s|
    decreases |s|, 5
  {
    var m := ParseMember(s, depth, acc.Keys);
    if m.Err? then Err(m.left) else
      var acc' := acc[m.value.0 := m.value.1];
      var w := SkipWs(m.rest);
      if w.Err? then Err(w.left)
      else if Starts(w.rest, '}') then Ok(acc', w.rest[1..])
      else if Starts(w.rest, ',') then
        var x := SkipWs(w.rest[1..]);
        if x.Err? then Err(x.left)
        else if Starts(x.rest, '}') then Ok(acc', x.rest[1..])
        else ParseMembers(x.rest, depth, acc')
      else Err(|w.rest|)
  }

  /** A whole document: one value with nothing but trivia around it. */
  function Parse(text: string): Res<Value> {
    var v := ParseValue(text, 0);
    if v.Err? then v else
      var w := SkipWs(v.rest);
      if w.Err? then Err(w.left) else if w.rest != [] then Err(|w.rest|) else Ok(v.value, [])
  }

  // ---------------------------------------------------------------------
  // The grammar: RFC 8259 values with comments and trailing commas; strings also exclude U+007F to U+009F.

  datatype Tree = Tree(lead: Trivia, node: Node)

  datatype Node =
    | Null
    | True
    | False
    | Num(tok: NumTok)
    | Str(items: seq<StrItem>)
    | EmptyArray(pad: Trivia)
    | Array(elems: Elems)
    | EmptyObject(pad: Trivia)
    | Object(members: Members)

  /** One or more elements; the last may have a comma and trivia behind it. */
  datatype Elems =
    | LastElem(tree: Tree, after: Trivia, comma: Option<Trivia>)
    | Elem(tree: Tree, after: Trivia, rest: Elems)

  datatype Member = Member(lead: Trivia, key: seq<StrItem>, colon: Trivia, value: Tree)

  datatype Members =
    | LastMember(member: Member, after: Trivia, comma: Option<Trivia>)
    | Members(member: Member, after: Trivia, rest: Members)

  /** A document; its last line may be a comment without a line break. */
  datatype Document = Document(tree: Tree, tail: Trivia, open: Option<string>)

  ghost predicate CommaOk(c: Option<Trivia>) {
    c.Some? ==> TriviaOk(c.value)
  }

  /** Well formed inside `depth` containers: numbers in range, keys unique and nesting within the limit. */
  ghost predicate TreeOk(t: Tree, depth: nat) {
    TriviaOk(t.lead) && NodeOk(t.node, depth)
  }

  ghost predicate NodeOk(n: Node, depth: nat) {
    match n
    case Null | True | False => true
    case Num(tok) => TokOk(tok) && NumValue(tok).Some?
    case Str(items) => ItemsOk(items)
    case EmptyArray(pad) => depth < MAX_DEPTH && TriviaOk(pad)
    case Array(elems) => depth < MAX_DEPTH && ElemsOk(elems, depth + 1)
    case EmptyObject(pad) => depth < MAX_DEPTH && TriviaOk(pad)
    case Object(members) => depth < MAX_DEPTH && MembersOk(members, depth + 1, {})
  }

  ghost predicate ElemsOk(es: Elems, depth: nat) {
    match es
    case LastElem(tree, after, comma) => TreeOk(tree, depth) && TriviaOk(after) && CommaOk(comma)
    case Elem(tree, after, rest) => TreeOk(tree, depth) && TriviaOk(after) && ElemsOk(rest, depth)
  }

  ghost predicate MemberOk(m: Member, depth: nat, used: set<string>) {
    && TriviaOk(m.lead) && ItemsOk(m.key) && TriviaOk(m.colon) && TreeOk(m.value, depth)
    && Decoded(m.key) !in used
  }

  ghost predicate MembersOk(ms: Members, depth: nat, used: set<string>) {
    match ms
    case LastMember(m, after, comma) => MemberOk(m, depth, used) && TriviaOk(after) && CommaOk(comma)
    case Members(m, after, rest) => MemberOk(m, depth, used) && TriviaOk(after) && MembersOk(rest, depth, used + {Decoded(m.key)})
  }

  ghost predicate DocumentOk(d: Document) {
    TreeOk(d.tree, 0) && TriviaOk(d.tail) && OpenOk(d.open)
  }

  ghost function Quoted(items: seq<StrItem>): string {
    "\"" + (ItemsText(items) + "\"")
  }

  ghost function CommaText(c: Option<Trivia>): string {
    if c.Some? then "," + TriviaText(c.value) else []
  }

  ghost function TreeText(t: Tree): string {
    TriviaText(t.lead) + NodeText(t.node)
  }

  ghost function NodeText(n: Node): string {
    match n
    case Null => "null"
    case True => "true"
    case False => "false"
    case Num(tok) => TokText(tok)
    case Str(items) => Quoted(items)
    case EmptyArray(pad) => "[" + (TriviaText(pad) + "]")
    case Array(elems) => "[" + ElemsText(elems)
    case EmptyObject(pad) => "{" + (TriviaText(pad) + "}")
    case Object(members) => "{" + MembersText(members)
  }

  ghost function ElemsText(es: Elems): string {
    match es
    case LastElem(tree, after, comma) => TreeText(tree) + (TriviaText(after) + (CommaText(comma) + "]"))
    case Elem(tree, after, rest) => TreeText(tree) + (TriviaText(after) + ("," + ElemsText(rest)))
  }

  ghost function MemberText(m: Member): string {
    TriviaText(m.lead) + (Quoted(m.key) + (TriviaText(m.colon) + (":" + TreeText(m.value))))
  }

  ghost function MembersText(ms: Members): string {
    match ms
    case LastMember(m, after, comma) => MemberText(m) + (TriviaText(after) + (CommaText(comma) + "}"))
    case Members(m, after, rest) => MemberText(m) + (TriviaText(after) + ("," + MembersText(rest)))
  }

  ghost function DocumentText(d: Document): string {
    TreeText(d.tree) + (TriviaText(d.tail) + OpenText(d.open))
  }

  /** What a well-formed tree means: neither trivia nor trailing commas have any part in it. */
  ghost function TreeValue(t: Tree, depth: nat): Value
    requires TreeOk(t, depth)
  {
    NodeValue(t.node, depth)
  }

  ghost function NodeValue(n: Node, depth: nat): Value
    requires NodeOk(n, depth)
  {
    match n
    case Null => NullValue
    case True => BoolValue(true)
    case False => BoolValue(false)
    case Num(tok) => NumberValue(NumValue(tok).value)
    case Str(items) => StringValue(Decoded(items))
    case EmptyArray(_) => ArrayValue([])
    case Array(elems) => ArrayValue(ElemValues(elems, depth + 1))
    case EmptyObject(_) => ObjectValue(map[])
    case Object(members) =>
      var none: map<string, Value> := map[];
      assert none.Keys == {};
      ObjectValue(MemberValues(members, depth + 1, none))
  }

  ghost function ElemValues(es: Elems, depth: nat): seq<Value>
    requires ElemsOk(es, depth)
  {
    match es
    case LastElem(tree, _, _) => [TreeValue(tree, depth)]
    case Elem(tree, _, rest) => [TreeValue(tree, depth)] + ElemValues(rest, depth)
  }

  ghost function MemberValues(ms: Members, depth: nat, acc: map<string, Value>): map<string, Value>
    requires MembersOk(ms, depth, acc.Keys)
  {
    match ms
    case LastMember(m, _, _) =>
      assert MemberOk(m, depth, acc.Keys);
      acc[Decoded(m.key) := TreeValue(m.value, depth)]
    case Members(m, _, rest) =>
      assert MemberOk(m, depth, acc.Keys);
      var acc' := acc[Decoded(m.key) := TreeValue(m.value, depth)];
      assert acc'.Keys == acc.Keys + {Decoded(m.key)};
      MemberValues(rest, depth, acc')
  }

  // ---------------------------------------------------------------------
  // Completeness: well-formed text parses to its meaning.

  ghost predicate IsNodeStart(c: char) {
    c == '{' || c == '[' || c == '"' || c == 't' || c == 'f' || c == 'n' || c == '-' || IsDigit(c)
  }

  /** A mark that ends trivia. */
  ghost predicate IsMark(c: char) {
    c == ',' || c == ']' || c == '}' || c == ':' || c == '"'
  }

  lemma NodeHead(n: Node, depth: nat, rest: string)
    requires NodeOk(n, depth)
    ensures NodeText(n) + rest != [] && IsNodeStart((NodeText(n) + rest)[0]) && Stops(NodeText(n) + rest)
  {
    if n.Num? {
      NumHead(n.tok);
    }
  }

  lemma NumHead(t: NumTok)
    requires TokOk(t)
    ensures TokText(t) != [] && (TokText(t)[0] == '-' || IsDigit(TokText(t)[0]))
  {
    assert t.neg || TokText(t)[0] == t.whole[0];
  }

  lemma TreeSkips(t: Tree, depth: nat, rest: string)
    requires TreeOk(t, depth)
    ensures SkipWs(TreeText(t) + rest) == Ok((), NodeText(t.node) + rest)
  {
    Assoc(TriviaText(t.lead), NodeText(t.node), rest);
    TriviaSkips(t.lead, NodeText(t.node) + rest);
    NodeHead(t.node, depth, rest);
    StopsStays(NodeText(t.node) + rest);
  }

  lemma MarkSkips(t: Trivia, c: char, rest: string)
    requires TriviaOk(t) && IsMark(c)
    ensures SkipWs(TriviaText(t) + ([c] + rest)) == Ok((), [c] + rest)
  {
    TriviaSkips(t, [c] + rest);
    StopsStays([c] + rest);
  }

  lemma TriviaFollow(t: Trivia, rest: string)
    requires TriviaOk(t) && Follow(rest)
    ensures Follow(TriviaText(t) + rest)
  {
    if t == [] {
      assert TriviaText(t) + rest == rest;
    } else {
      assert BlankOk(t[0]);
      assert (TriviaText(t) + rest)[0] == BlankText(t[0])[0];
    }
  }

  /** Leading trivia make no difference to a value, nor to the elements that start with it. */
  lemma ValueSkips(s: string, depth: nat)
    requires SkipWs(s).Ok?
    ensures ParseValue(SkipWs(s).rest, depth) == ParseValue(s, depth)
  {
    SkipTwice(s);
  }

  lemma ElemsSkips(s: string, depth: nat)
    requires SkipWs(s).Ok?
    ensures ParseElems(SkipWs(s).rest, depth) == ParseElems(s, depth)
  {
    ValueSkips(s, depth);
  }

  lemma MembersSkip(s: string, depth: nat, acc: map<string, Value>)
    requires SkipWs(s).Ok? && ParseMember(s, depth, acc.Keys).Ok?
    ensures ParseMembers(SkipWs(s).rest, depth, acc) == ParseMembers(s, depth, acc)
    ensures ParseMember(SkipWs(s).rest, depth, acc.Keys) == ParseMember(s, depth, acc.Keys)
  {
    SkipTwice(s);
  }

  lemma StringComplete(items: seq<StrItem>, rest: string)
    requires ItemsOk(items)
    ensures Starts(Quoted(items) + rest, '"') && ParseString(Quoted(items) + rest) == Ok(Decoded(items), rest)
  {
    assert (Quoted(items) + rest)[1..] == Closed(items, rest);
    CharsComplete(items, rest);
  }

  lemma {:induction false} ValueComplete(t: Tree, depth: nat, rest: string)
    requires TreeOk(t, depth) && Follow(rest)
    ensures ParseValue(TreeText(t) + rest, depth) == Ok(TreeValue(t, depth), rest)
    decreases t
  {
    TreeSkips(t, depth, rest);
    NodeComplete(t.node, depth, rest);
  }

  lemma WordComplete(n: Node, depth: nat, rest: string)
    requires Follow(rest) && (n.Null? || n.True? || n.False?)
    ensures ParseNode(NodeText(n) + rest, depth) == Ok(NodeValue(n, depth), rest)
  {
    var word := NodeText(n);
    LiteralComplete(word, rest);
    assert (word + rest)[0] == word[0];
  }

  lemma NumberDispatch(s: string, depth: nat)
    requires s != [] && (s[0] == '-' || IsDigit(s[0]))
    ensures ParseNode(s, depth) == ParseNumeral(s)
  {
  }

  lemma NumeralComplete(t: NumTok, depth: nat, rest: string)
    requires TokOk(t) && NumValue(t).Some? && Follow(rest)
    ensures ParseNode(TokText(t) + rest, depth) == Ok(NumberValue(NumValue(t).value), rest)
  {
    NumHead(t);
    assert (TokText(t) + rest)[0] == TokText(t)[0];
    NumberDispatch(TokText(t) + rest, depth);
    NumberComplete(t, rest);
  }

  lemma AtomComplete(n: Node, depth: nat, rest: string)
    requires NodeOk(n, depth) && Follow(rest) && !n.Array? && !n.Object? && !n.EmptyArray? && !n.EmptyObject?
    ensures ParseNode(NodeText(n) + rest, depth) == Ok(NodeValue(n, depth), rest)
  {
    if n.Num? {
      NumeralComplete(n.tok, depth, rest);
    } else if n.Str? {
      StringComplete(n.items, rest);
    } else {
      WordComplete(n, depth, rest);
    }
  }

  lemma EmptyNodeComplete(n: Node, depth: nat, rest: string)
    requires NodeOk(n, depth) && (n.EmptyArray? || n.EmptyObject?)
    ensures ParseNode(NodeText(n) + rest, depth) == Ok(NodeValue(n, depth), rest)
  {
    if n.EmptyArray? {
      EmptyComplete(n.pad, '[', ']', rest);
    } else {
      EmptyComplete(n.pad, '{', '}', rest);
    }
  }

  lemma {:induction false} NodeComplete(n: Node, depth: nat, rest: string)
    requires NodeOk(n, depth) && Follow(rest)
    ensures ParseNode(NodeText(n) + rest, depth) == Ok(NodeValue(n, depth), rest)
    decreases n
  {
    if n.Array? {
      ElemsComplete(n.elems, depth + 1, rest);
      ArrayOpens(n.elems, depth, rest);
    } else if n.Object? {
      var none: map<string, Value> := map[];
      assert none.Keys == {};
      ObjectOpens(n.members, depth, none, rest);
    } else if n.EmptyArray? || n.EmptyObject? {
      EmptyNodeComplete(n, depth, rest);
    } else {
      AtomComplete(n, depth, rest);
    }
  }

  lemma EmptyComplete(pad: Trivia, open: char, close: char, rest: string)
    requires TriviaOk(pad) && IsMark(close)
    ensures var s := [open] + (TriviaText(pad) + [close]) + rest;
            SkipWs(s[1..]) == Ok((), [close] + rest) && ([close] + rest)[1..] == rest
  {
    var s := [open] + (TriviaText(pad) + [close]) + rest;
    assert s[1..] == TriviaText(pad) + ([close] + rest);
    MarkSkips(pad, close, rest);
  }

  /** The text of one or more elements starts, after trivia, with a value. */
  lemma ElemsStart(es: Elems, depth: nat, rest: string)
    requires ElemsOk(es, depth)
    ensures var w := SkipWs(ElemsText(es) + rest); w.Ok? && w.rest != [] && IsNodeStart(w.rest[0])
  {
    var after := if es.LastElem? then TriviaText(es.after) + (CommaText(es.comma) + "]") else TriviaText(es.after) + ("," + ElemsText(es.rest));
    assert ElemsText(es) == TreeText(es.tree) + after;
    Assoc(TreeText(es.tree), after, rest);
    TreeSkips(es.tree, depth, after + rest);
    NodeHead(es.tree.node, depth, after + rest);
  }

  lemma ArrayOpens(es: Elems, depth: nat, rest: string)
    requires depth < MAX_DEPTH && ElemsOk(es, depth + 1)
    requires ParseElems(ElemsText(es) + rest, depth + 1) == Ok(ElemValues(es, depth + 1), rest)
    ensures ParseNode("[" + ElemsText(es) + rest, depth) == Ok(ArrayValue(ElemValues(es, depth + 1)), rest)
  {
    ElemsStart(es, depth + 1, rest);
    ArrayReads(ElemsText(es) + rest, depth, ElemValues(es, depth + 1), rest);
    Assoc("[", ElemsText(es), rest);
  }

  lemma ArrayReads(inside: string, depth: nat, vs: seq<Value>, rest: string)
    requires depth < MAX_DEPTH && SkipWs(inside).Ok? && !Starts(SkipWs(inside).rest, ']') && ParseElems(inside, depth + 1) == Ok(vs, rest)
    ensures ParseNode("[" + inside, depth) == Ok(ArrayValue(vs), rest)
  {
    assert ("[" + inside)[1..] == inside;
    ElemsSkips(inside, depth + 1);
  }

  // One round of the element loop, for each of its three ends.

  lemma ElemsClose(s: string, depth: nat, v: Value, after: string, rest: string)
    requires ParseValue(s, depth) == Ok(v, after) && SkipWs(after) == Ok((), "]" + rest)
    ensures ParseElems(s, depth) == Ok([v], rest)
  {
    assert ("]" + rest)[1..] == rest;
  }

  lemma ElemsEnd(s: string, depth: nat, v: Value, after: string, w: string, x: string)
    requires ParseValue(s, depth) == Ok(v, after) && SkipWs(after) == Ok((), w) && Starts(w, ',')
    requires SkipWs(w[1..]) == Ok((), x) && Starts(x, ']')
    ensures ParseElems(s, depth) == Ok([v], x[1..])
  {
  }

  lemma ElemsCloseBehindComma(s: string, depth: nat, v: Value, after: string, behind: string, rest: string)
    requires ParseValue(s, depth) == Ok(v, after) && SkipWs(after) == Ok((), "," + behind) && SkipWs(behind) == Ok((), "]" + rest)
    ensures ParseElems(s, depth) == Ok([v], rest)
  {
    assert ("," + behind)[1..] == behind && ("]" + rest)[1..] == rest;
    ElemsEnd(s, depth, v, after, "," + behind, "]" + rest);
  }

  lemma ElemsGoOn(s: string, depth: nat, v: Value, after: string, behind: string, vs: seq<Value>, rest: string)
    requires ParseValue(s, depth) == Ok(v, after) && SkipWs(after) == Ok((), "," + behind)
    requires SkipWs(behind).Ok? && !Starts(SkipWs(behind).rest, ']') && ParseElems(behind, depth) == Ok(vs, rest)
    ensures ParseElems(s, depth) == Ok([v] + vs, rest)
  {
    assert ("," + behind)[1..] == behind;
    ElemsSkips(behind, depth);
  }

  /** What stands behind the first element. */
  ghost function ElemsAfter(es: Elems, rest: string): string {
    if es.LastElem? then CommaText(es.comma) + ("]" + rest) else "," + (ElemsText(es.rest) + rest)
  }

  lemma ElemsSplit(es: Elems, rest: string)
    ensures ElemsText(es) + rest == TreeText(es.tree) + (TriviaText(es.after) + ElemsAfter(es, rest))
  {
  }

  lemma {:induction false} FirstElem(es: Elems, depth: nat, rest: string)
    requires ElemsOk(es, depth)
    ensures ParseValue(ElemsText(es) + rest, depth) == Ok(TreeValue(es.tree, depth), TriviaText(es.after) + ElemsAfter(es, rest))
    decreases es, 0
  {
    ElemsSplit(es, rest);
    TriviaFollow(es.after, ElemsAfter(es, rest));
    ValueComplete(es.tree, depth, TriviaText(es.after) + ElemsAfter(es, rest));
  }

  lemma PlainEnd(close: string, rest: string)
    ensures CommaText(None) + (close + rest) == close + rest
  {
  }

  lemma CommaEnd(t: Trivia, close: string, rest: string)
    ensures CommaText(Some(t)) + (close + rest) == "," + (TriviaText(t) + (close + rest))
  {
    Assoc(",", TriviaText(t), close + rest);
  }

  lemma LastElemPlain(s: string, depth: nat, v: Value, after: Trivia, rest: string)
    requires TriviaOk(after) && ParseValue(s, depth) == Ok(v, TriviaText(after) + ("]" + rest))
    ensures ParseElems(s, depth) == Ok([v], rest)
  {
    MarkSkips(after, ']', rest);
    ElemsClose(s, depth, v, TriviaText(after) + ("]" + rest), rest);
  }

  lemma LastElemComma(s: string, depth: nat, v: Value, after: Trivia, t: Trivia, rest: string)
    requires TriviaOk(after) && TriviaOk(t) && ParseValue(s, depth) == Ok(v, TriviaText(after) + ("," + (TriviaText(t) + ("]" + rest))))
    ensures ParseElems(s, depth) == Ok([v], rest)
  {
    var behind := TriviaText(t) + ("]" + rest);
    MarkSkips(after, ',', behind);
    MarkSkips(t, ']', rest);
    ElemsCloseBehindComma(s, depth, v, TriviaText(after) + ("," + behind), behind, rest);
  }

  lemma {:induction false} ElemsComplete(es: Elems, depth: nat, rest: string)
    requires ElemsOk(es, depth)
    ensures ParseElems(ElemsText(es) + rest, depth) == Ok(ElemValues(es, depth), rest)
    decreases es, 1
  {
    var s := ElemsText(es) + rest;
    FirstElem(es, depth, rest);
    if es.LastElem? {
      if es.comma.None? {
        PlainEnd("]", rest);
        LastElemPlain(s, depth, TreeValue(es.tree, depth), es.after, rest);
      } else {
        CommaEnd(es.comma.value, "]", rest);
        LastElemComma(s, depth, TreeValue(es.tree, depth), es.after, es.comma.value, rest);
      }
    } else {
      var behind := ElemsText(es.rest) + rest;
      ElemsComplete(es.rest, depth, rest);
      MarkSkips(es.after, ',', behind);
      ElemsStart(es.rest, depth, rest);
      ElemsGoOn(s, depth, TreeValue(es.tree, depth), TriviaText(es.after) + ("," + behind), behind, ElemValues(es.rest, depth), rest);
    }
  }

  lemma MemberReads(s: string, depth: nat, used: set<string>, key: string, inside: string, colon: string, value: string, v: Value, rest: string)
    requires SkipWs(s) == Ok((), "\"" + inside) && ParseChars(inside) == Ok(key, colon) && key !in used
    requires SkipWs(colon) == Ok((), ":" + value) && SkipWs(value).Ok? && ParseValue(value, depth) == Ok(v, rest)
    ensures ParseMember(s, depth, used) == Ok((key, v), rest)
  {
    assert ("\"" + inside)[1..] == inside && (":" + value)[1..] == value;
    ValueSkips(value, depth);
  }

  lemma MemberSplit(m: Member, rest: string)
    ensures MemberText(m) + rest == TriviaText(m.lead) + ("\"" + Closed(m.key, TriviaText(m.colon) + (":" + (TreeText(m.value) + rest))))
  {
    var value := TreeText(m.value);
    var colon := TriviaText(m.colon) + (":" + value);
    Assoc(":", value, rest);
    Assoc(TriviaText(m.colon), ":" + value, rest);
    Assoc(TriviaText(m.lead), Quoted(m.key) + colon, rest);
    Assoc(Quoted(m.key), colon, rest);
    Assoc("\"", ItemsText(m.key) + "\"", colon + rest);
    Assoc(ItemsText(m.key), "\"", colon + rest);
  }

  lemma {:induction false} MemberComplete(m: Member, depth: nat, used: set<string>, rest: string)
    requires MemberOk(m, depth, used) && Follow(rest)
    ensures ParseMember(MemberText(m) + rest, depth, used) == Ok((Decoded(m.key), TreeValue(m.value, depth)), rest)
    ensures SkipWs(MemberText(m) + rest).Ok? && Starts(SkipWs(MemberText(m) + rest).rest, '"')
    decreases m
  {
    var value := TreeText(m.value) + rest;
    var colon := TriviaText(m.colon) + (":" + value);
    var inside := Closed(m.key, colon);
    MemberSplit(m, rest);
    MarkSkips(m.lead, '"', inside);
    CharsComplete(m.key, colon);
    MarkSkips(m.colon, ':', value);
    TreeSkips(m.value, depth, rest);
    ValueComplete(m.value, depth, rest);
    MemberReads(MemberText(m) + rest, depth, used, Decoded(m.key), inside, colon, value, TreeValue(m.value, depth), rest);
  }

  lemma MembersStart(ms: Members, depth: nat, used: set<string>, rest: string)
    requires MembersOk(ms, depth, used)
    ensures SkipWs(MembersText(ms) + rest).Ok? && Starts(SkipWs(MembersText(ms) + rest).rest, '"')
    ensures ParseMember(MembersText(ms) + rest, depth, used).Ok?
    decreases ms, 0
  {
    var after := MembersAfter(ms, rest);
    MembersSplit(ms, rest);
    MembersAfterFollows(ms, depth, used, rest);
    MemberComplete(ms.member, depth, used, after);
  }

  /** What stands behind the first member. */
  ghost function MembersAfter(ms: Members, rest: string): string {
    TriviaText(ms.after) + (if ms.LastMember? then CommaText(ms.comma) + ("}" + rest) else "," + (MembersText(ms.rest) + rest))
  }

  lemma MembersSplit(ms: Members, rest: string)
    ensures MembersText(ms) + rest == MemberText(ms.member) + MembersAfter(ms, rest)
  {
  }

  lemma MembersAfterFollows(ms: Members, depth: nat, used: set<string>, rest: string)
    requires MembersOk(ms, depth, used)
    ensures Follow(MembersAfter(ms, rest)) && MemberOk(ms.member, depth, used)
  {
    TriviaFollow(ms.after, if ms.LastMember? then CommaText(ms.comma) + ("}" + rest) else "," + (MembersText(ms.rest) + rest));
  }

  lemma {:induction false} ObjectOpens(ms: Members, depth: nat, none: map<string, Value>, rest: string)
    requires depth < MAX_DEPTH && none == map[] && MembersOk(ms, depth + 1, none.Keys)
    ensures ParseNode("{" + MembersText(ms) + rest, depth) == Ok(ObjectValue(MemberValues(ms, depth + 1, none)), rest)
    decreases ms, 2
  {
    var inside := MembersText(ms) + rest;
    MembersComplete(ms, depth + 1, none, rest);
    MembersStart(ms, depth + 1, none.Keys, rest);
    ObjectReads(inside, depth, none, MemberValues(ms, depth + 1, none), rest);
    Assoc("{", MembersText(ms), rest);
  }

  lemma ObjectReads(inside: string, depth: nat, none: map<string, Value>, vs: map<string, Value>, rest: string)
    requires depth < MAX_DEPTH && none == map[] && SkipWs(inside).Ok? && Starts(SkipWs(inside).rest, '"')
    requires ParseMember(inside, depth + 1, none.Keys).Ok? && ParseMembers(inside, depth + 1, none) == Ok(vs, rest)
    ensures ParseNode("{" + inside, depth) == Ok(ObjectValue(vs), rest)
  {
    assert ("{" + inside)[1..] == inside;
    MembersSkip(inside, depth + 1, none);
  }

  // One round of the member loop, for each of its three ends.

  lemma MembersClose(s: string, depth: nat, acc: map<string, Value>, m: (string, Value), after: string, rest: string)
    requires ParseMember(s, depth, acc.Keys) == Ok(m, after) && SkipWs(after) == Ok((), "}" + rest)
    ensures ParseMembers(s, depth, acc) == Ok(acc[m.0 := m.1], rest)
  {
    assert ("}" + rest)[1..] == rest;
  }

  lemma MembersEnd(s: string, depth: nat, acc: map<string, Value>, m: (string, Value), after: string, w: string, x: string)
    requires ParseMember(s, depth, acc.Keys) == Ok(m, after) && SkipWs(after) == Ok((), w) && Starts(w, ',')
    requires SkipWs(w[1..]) == Ok((), x) && Starts(x, '}')
    ensures ParseMembers(s, depth, acc) == Ok(acc[m.0 := m.1], x[1..])
  {
  }

  lemma MembersCloseBehindComma(s: string, depth: nat, acc: map<string, Value>, m: (string, Value), after: string, behind: string, rest: string)
    requires ParseMember(s, depth, acc.Keys) == Ok(m, after) && SkipWs(after) == Ok((), "," + behind) && SkipWs(behind) == Ok((), "}" + rest)
    ensures ParseMembers(s, depth, acc) == Ok(acc[m.0 := m.1], rest)
  {
    assert ("," + behind)[1..] == behind && ("}" + rest)[1..] == rest;
    MembersEnd(s, depth, acc, m, after, "," + behind, "}" + rest);
  }

  lemma MembersGoOn(s: string, depth: nat, acc: map<string, Value>, m: (string, Value), after: string, behind: string,
                    vs: map<string, Value>, rest: string)
    requires ParseMember(s, depth, acc.Keys) == Ok(m, after) && SkipWs(after) == Ok((), "," + behind)
    requires SkipWs(behind).Ok? && !Starts(SkipWs(behind).rest, '}')
    requires ParseMember(behind, depth, acc[m.0 := m.1].Keys).Ok? && ParseMembers(behind, depth, acc[m.0 := m.1]) == Ok(vs, rest)
    ensures ParseMembers(s, depth, acc) == Ok(vs, rest)
  {
    assert ("," + behind)[1..] == behind;
    MembersSkip(behind, depth, acc[m.0 := m.1]);
  }

  lemma {:induction false} FirstMember(ms: Members, depth: nat, used: set<string>, rest: string)
    requires MembersOk(ms, depth, used) && MemberOk(ms.member, depth, used)
    ensures ParseMember(MembersText(ms) + rest, depth, used) ==
            Ok((Decoded(ms.member.key), TreeValue(ms.member.value, depth)), MembersAfter(ms, rest))
    decreases ms, 0
  {
    MembersSplit(ms, rest);
    MembersAfterFollows(ms, depth, used, rest);
    MemberComplete(ms.member, depth, used, MembersAfter(ms, rest));
  }

  lemma LastMemberPlain(s: string, depth: nat, acc: map<string, Value>, m: (string, Value), after: Trivia, rest: string)
    requires TriviaOk(after) && ParseMember(s, depth, acc.Keys) == Ok(m, TriviaText(after) + ("}" + rest))
    ensures ParseMembers(s, depth, acc) == Ok(acc[m.0 := m.1], rest)
  {
    MarkSkips(after, '}', rest);
    MembersClose(s, depth, acc, m, TriviaText(after) + ("}" + rest), rest);
  }

  lemma LastMemberComma(s: string, depth: nat, acc: map<string, Value>, m: (string, Value), after: Trivia, t: Trivia, rest: string)
    requires TriviaOk(after) && TriviaOk(t)
    requires ParseMember(s, depth, acc.Keys) == Ok(m, TriviaText(after) + ("," + (TriviaText(t) + ("}" + rest))))
    ensures ParseMembers(s, depth, acc) == Ok(acc[m.0 := m.1], rest)
  {
    var behind := TriviaText(t) + ("}" + rest);
    MarkSkips(after, ',', behind);
    MarkSkips(t, '}', rest);
    MembersCloseBehindComma(s, depth, acc, m, TriviaText(after) + ("," + behind), behind, rest);
  }

  lemma {:induction false} MembersComplete(ms: Members, depth: nat, acc: map<string, Value>, rest: string)
    requires MembersOk(ms, depth, acc.Keys)
    ensures ParseMembers(MembersText(ms) + rest, depth, acc) == Ok(MemberValues(ms, depth, acc), rest)
    decreases ms, 1
  {
    var s := MembersText(ms) + rest;
    assert MemberOk(ms.member, depth, acc.Keys);
    FirstMember(ms, depth, acc.Keys, rest);
    if ms.LastMember? {
      var m := (Decoded(ms.member.key), TreeValue(ms.member.value, depth));
      if ms.comma.None? {
        PlainEnd("}", rest);
        LastMemberPlain(s, depth, acc, m, ms.after, rest);
      } else {
        CommaEnd(ms.comma.value, "}", rest);
        LastMemberComma(s, depth, acc, m, ms.after, ms.comma.value, rest);
      }
    } else {
      var m := (Decoded(ms.member.key), TreeValue(ms.member.value, depth));
      var behind, acc' := MembersText(ms.rest) + rest, acc[m.0 := m.1];
      assert acc'.Keys == acc.Keys + {m.0};
      MembersComplete(ms.rest, depth, acc', rest);
      MarkSkips(ms.after, ',', behind);
      MembersStart(ms.rest, depth, acc'.Keys, rest);
      MembersGoOn(s, depth, acc, m, TriviaText(ms.after) + ("," + behind), behind, MemberValues(ms.rest, depth, acc'), rest);
    }
  }

  // ---------------------------------------------------------------------
  // Soundness: whatever parses is well formed and means the result.

  /** What was skipped before something that is there is trivia. */
  lemma SkippedTrivia(s: string) returns (t: Trivia)
    requires SkipWs(s).Ok? && SkipWs(s).rest != []
    ensures TriviaOk(t) && s == TriviaText(t) + SkipWs(s).rest
  {
    var open;
    t, open := SkipSound(s);
    assert TriviaText(t) + OpenText(open) == TriviaText(t);
  }

  lemma {:induction false} TriviaJoin(a: Trivia, b: Trivia)
    ensures TriviaText(a + b) == TriviaText(a) + TriviaText(b)
  {
    if a == [] {
      assert a + b == b;
    } else {
      assert (a + b)[1..] == a[1..] + b;
      TriviaJoin(a[1..], b);
    }
  }

  lemma UnderTrivia(t: Tree, depth: nat, u: Trivia) returns (r: Tree)
    requires TreeOk(t, depth) && TriviaOk(u)
    ensures TreeOk(r, depth) && TreeText(r) == TriviaText(u) + TreeText(t) && TreeValue(r, depth) == TreeValue(t, depth)
  {
    r := Tree(u + t.lead, t.node);
    TriviaJoin(u, t.lead);
    Assoc(TriviaText(u), TriviaText(t.lead), NodeText(t.node));
  }

  lemma {:induction false} ValueSound(s: string, depth: nat) returns (t: Tree)
    requires ParseValue(s, depth).Ok?
    ensures TreeOk(t, depth) && s == TreeText(t) + ParseValue(s, depth).rest && TreeValue(t, depth) == ParseValue(s, depth).value
    decreases |s|, 3
  {
    var w := SkipWs(s).rest;
    var lead := SkippedTrivia(s);
    var node := NodeSound(w, depth);
    t := Tree(lead, node);
    Assoc(TriviaText(lead), NodeText(node), ParseValue(s, depth).rest);
  }

  lemma WordSound(s: string, depth: nat) returns (n: Node)
    requires ParseNode(s, depth).Ok? && (s[0] == 't' || s[0] == 'f' || s[0] == 'n')
    ensures NodeOk(n, depth) && s == NodeText(n) + ParseNode(s, depth).rest && NodeValue(n, depth) == ParseNode(s, depth).value
  {
    n := if s[0] == 't' then True else if s[0] == 'f' then False else Null;
  }

  lemma NumeralSound(s: string, depth: nat) returns (n: Node)
    requires ParseNode(s, depth).Ok? && (s[0] == '-' || IsDigit(s[0]))
    ensures NodeOk(n, depth) && s == NodeText(n) + ParseNode(s, depth).rest && NodeValue(n, depth) == ParseNode(s, depth).value
  {
    NumberDispatch(s, depth);
    var tok := NumberSound(s);
    n := Num(tok);
  }

  lemma QuotedSound(s: string) returns (items: seq<StrItem>)
    requires Starts(s, '"') && ParseString(s).Ok?
    ensures ItemsOk(items) && s == Quoted(items) + ParseString(s).rest && Decoded(items) == ParseString(s).value
  {
    items := CharsSound(s[1..]);
    var rest := ParseString(s).rest;
    Cut(s, 1);
    Assoc("\"", ItemsText(items) + "\"", rest);
    Assoc(ItemsText(items), "\"", rest);
  }

  lemma StringSound(s: string, depth: nat) returns (n: Node)
    requires ParseNode(s, depth).Ok? && s[0] == '"'
    ensures NodeOk(n, depth) && s == NodeText(n) + ParseNode(s, depth).rest && NodeValue(n, depth) == ParseNode(s, depth).value
  {
    var items := QuotedSound(s);
    n := Str(items);
  }

  lemma {:induction false} NodeSound(s: string, depth: nat) returns (n: Node)
    requires ParseNode(s, depth).Ok?
    ensures NodeOk(n, depth) && s == NodeText(n) + ParseNode(s, depth).rest && NodeValue(n, depth) == ParseNode(s, depth).value
    decreases |s|, 2
  {
    if s[0] == '[' {
      n := ArraySound(s, depth);
    } else if s[0] == '{' {
      n := ObjectSound(s, depth);
    } else if s[0] == '"' {
      n := StringSound(s, depth);
    } else if s[0] == '-' || IsDigit(s[0]) {
      n := NumeralSound(s, depth);
    } else {
      n := WordSound(s, depth);
    }
  }

  lemma EmptySound(s: string, open: char, close: char) returns (pad: Trivia)
    requires Starts(s, open) && SkipWs(s[1..]).Ok? && Starts(SkipWs(s[1..]).rest, close)
    ensures TriviaOk(pad) && s == [open] + (TriviaText(pad) + [close]) + SkipWs(s[1..]).rest[1..]
  {
    var w := SkipWs(s[1..]).rest;
    pad := SkippedTrivia(s[1..]);
    Cut(s, 1);
    Cut(w, 1);
    Assoc(TriviaText(pad), [close], w[1..]);
    Assoc([open], TriviaText(pad) + [close], w[1..]);
  }

  lemma {:induction false} ArraySound(s: string, depth: nat) returns (n: Node)
    requires Starts(s, '[') && ParseArray(s, depth).Ok?
    ensures NodeOk(n, depth) && s == NodeText(n) + ParseArray(s, depth).rest && NodeValue(n, depth) == ParseArray(s, depth).value
    decreases |s|, 1
  {
    var w := SkipWs(s[1..]).rest;
    if Starts(w, ']') {
      n := EmptyArraySound(s, depth);
    } else {
      var inner := ElemsSound(w, depth + 1);
      n := ArrayBehindTrivia(s, inner, depth, ParseElems(w, depth + 1).rest);
    }
  }

  lemma EmptyArraySound(s: string, depth: nat) returns (n: Node)
    requires Starts(s, '[') && depth < MAX_DEPTH && SkipWs(s[1..]).Ok? && Starts(SkipWs(s[1..]).rest, ']')
    ensures NodeOk(n, depth) && s == NodeText(n) + SkipWs(s[1..]).rest[1..] && NodeValue(n, depth) == ArrayValue([])
  {
    var pad := EmptySound(s, '[', ']');
    n := EmptyArray(pad);
  }

  lemma ArrayBehindTrivia(s: string, inner: Elems, depth: nat, rest: string) returns (n: Node)
    requires Starts(s, '[') && depth < MAX_DEPTH && ElemsOk(inner, depth + 1)
    requires SkipWs(s[1..]).Ok? && SkipWs(s[1..]).rest == ElemsText(inner) + rest
    ensures NodeOk(n, depth) && NodeValue(n, depth) == ArrayValue(ElemValues(inner, depth + 1)) && s == NodeText(n) + rest
  {
    var u := SkippedTrivia(s[1..]);
    Cut(s, 1);
    n := BuildArray(inner, depth, u, rest);
  }

  lemma BuildArray(inner: Elems, depth: nat, u: Trivia, rest: string) returns (n: Node)
    requires depth < MAX_DEPTH && ElemsOk(inner, depth + 1) && TriviaOk(u)
    ensures NodeOk(n, depth) && NodeValue(n, depth) == ArrayValue(ElemValues(inner, depth + 1))
    ensures NodeText(n) + rest == "[" + (TriviaText(u) + (ElemsText(inner) + rest))
  {
    var es := ElemsUnderTrivia(inner, depth + 1, u);
    n := Array(es);
    Assoc(TriviaText(u), ElemsText(inner), rest);
    Assoc("[", ElemsText(es), rest);
  }

  lemma ElemsUnderTrivia(es: Elems, depth: nat, u: Trivia) returns (r: Elems)
    requires ElemsOk(es, depth) && TriviaOk(u)
    ensures ElemsOk(r, depth) && ElemsText(r) == TriviaText(u) + ElemsText(es) && ElemValues(r, depth) == ElemValues(es, depth)
  {
    var tree := UnderTrivia(es.tree, depth, u);
    r := es.(tree := tree);
    var after := if es.LastElem? then TriviaText(es.after) + (CommaText(es.comma) + "]") else TriviaText(es.after) + ("," + ElemsText(es.rest));
    Assoc(TriviaText(u), TreeText(es.tree), after);
  }

  /** What stands between a value and the mark behind it. */
  lemma BetweenSound(after: string, mark: string) returns (t: Trivia)
    requires SkipWs(after).Ok? && |mark| == 1 && Starts(SkipWs(after).rest, mark[0])
    ensures TriviaOk(t) && after == TriviaText(t) + (mark + SkipWs(after).rest[1..])
  {
    t := SkippedTrivia(after);
    Cut(SkipWs(after).rest, 1);
    assert SkipWs(after).rest[..1] == mark;
  }

  lemma BuildLastElem(tree: Tree, depth: nat, after: Trivia, comma: Option<Trivia>, rest: string) returns (es: Elems)
    requires TreeOk(tree, depth) && TriviaOk(after) && CommaOk(comma)
    ensures ElemsOk(es, depth) && ElemValues(es, depth) == [TreeValue(tree, depth)]
    ensures ElemsText(es) + rest == TreeText(tree) + (TriviaText(after) + (CommaText(comma) + ("]" + rest)))
  {
    es := LastElem(tree, after, comma);
    ElemsSplit(es, rest);
  }

  lemma BuildElem(tree: Tree, depth: nat, after: Trivia, t: Trivia, inner: Elems, rest: string) returns (es: Elems)
    requires TreeOk(tree, depth) && TriviaOk(after) && TriviaOk(t) && ElemsOk(inner, depth)
    ensures ElemsOk(es, depth) && ElemValues(es, depth) == [TreeValue(tree, depth)] + ElemValues(inner, depth)
    ensures ElemsText(es) + rest == TreeText(tree) + (TriviaText(after) + ("," + (TriviaText(t) + (ElemsText(inner) + rest))))
  {
    var more := ElemsUnderTrivia(inner, depth, t);
    Assoc(TriviaText(t), ElemsText(inner), rest);
    es := Elem(tree, after, more);
    ElemsSplit(es, rest);
  }

  /** How a successful pass over the elements went. */
  lemma ElemsRound(s: string, depth: nat)
    requires ParseElems(s, depth).Ok?
    ensures ParseValue(s, depth).Ok?
    ensures var v := ParseValue(s, depth); var w := SkipWs(v.rest);
            && w.Ok? && w.rest != []
            && (w.rest[0] == ']' ==> ParseElems(s, depth) == Ok([v.value], w.rest[1..]))
            && (w.rest[0] != ']' ==>
                  var x := SkipWs(w.rest[1..]);
                  && w.rest[0] == ',' && x.Ok? && x.rest != [] && |x.rest| < |s|
                  && (x.rest[0] == ']' ==> ParseElems(s, depth) == Ok([v.value], x.rest[1..]))
                  && (x.rest[0] != ']' ==>
                        var more := ParseElems(x.rest, depth);
                        more.Ok? && ParseElems(s, depth) == Ok([v.value] + more.value, more.rest)))
  {
  }

  lemma {:induction false} ElemsSound(s: string, depth: nat) returns (es: Elems)
    requires ParseElems(s, depth).Ok?
    ensures ElemsOk(es, depth) && s == ElemsText(es) + ParseElems(s, depth).rest && ElemValues(es, depth) == ParseElems(s, depth).value
    decreases |s|, 4
  {
    ElemsRound(s, depth);
    var after, rest := ParseValue(s, depth).rest, ParseElems(s, depth).rest;
    var tree := ValueSound(s, depth);
    var w := SkipWs(after).rest;
    if w[0] == ']' {
      var t := BetweenSound(after, "]");
      PlainEnd("]", rest);
      es := BuildLastElem(tree, depth, t, None, rest);
    } else {
      var t := BetweenSound(after, ",");
      var x := SkipWs(w[1..]).rest;
      if x[0] == ']' {
        var u := BetweenSound(w[1..], "]");
        CommaEnd(u, "]", rest);
        es := BuildLastElem(tree, depth, t, Some(u), rest);
      } else {
        var u := SkippedTrivia(w[1..]);
        var inner := ElemsSound(x, depth);
        es := BuildElem(tree, depth, t, u, inner, rest);
      }
    }
  }

  lemma {:induction false} ObjectSound(s: string, depth: nat) returns (n: Node)
    requires Starts(s, '{') && ParseObject(s, depth).Ok?
    ensures NodeOk(n, depth) && s == NodeText(n) + ParseObject(s, depth).rest && NodeValue(n, depth) == ParseObject(s, depth).value
    decreases |s|, 1
  {
    var w := SkipWs(s[1..]).rest;
    if Starts(w, '}') {
      var pad := EmptySound(s, '{', '}');
      n := EmptyObject(pad);
    } else {
      var none: map<string, Value> := map[];
      assert none.Keys == {};
      var inner := MembersSound(w, depth + 1, none);
      var u := SkippedTrivia(s[1..]);
      Cut(s, 1);
      n := BuildObject(inner, depth, none, u, ParseObject(s, depth).rest);
    }
  }

  lemma BuildObject(inner: Members, depth: nat, none: map<string, Value>, u: Trivia, rest: string) returns (n: Node)
    requires depth < MAX_DEPTH && none == map[] && MembersOk(inner, depth + 1, none.Keys) && TriviaOk(u)
    ensures NodeOk(n, depth) && NodeValue(n, depth) == ObjectValue(MemberValues(inner, depth + 1, none))
    ensures NodeText(n) + rest == "{" + (TriviaText(u) + (MembersText(inner) + rest))
  {
    assert none.Keys == {};
    var ms := MembersUnderTrivia(inner, depth + 1, none, u);
    n := Object(ms);
    Assoc(TriviaText(u), MembersText(inner), rest);
    Assoc("{", MembersText(ms), rest);
  }

  lemma MembersUnderTrivia(ms: Members, depth: nat, acc: map<string, Value>, u: Trivia) returns (r: Members)
    requires MembersOk(ms, depth, acc.Keys) && TriviaOk(u)
    ensures MembersOk(r, depth, acc.Keys) && MembersText(r) == TriviaText(u) + MembersText(ms)
    ensures MemberValues(r, depth, acc) == MemberValues(ms, depth, acc)
  {
    var m := ms.member;
    assert MemberOk(m, depth, acc.Keys);
    var m' := m.(lead := u + m.lead);
    assert MemberOk(m', depth, acc.Keys);
    r := ms.(member := m');
    TriviaJoin(u, m.lead);
    Assoc(TriviaText(u), TriviaText(m.lead), Quoted(m.key) + (TriviaText(m.colon) + (":" + TreeText(m.value))));
    var after := if ms.LastMember? then TriviaText(ms.after) + (CommaText(ms.comma) + "}") else TriviaText(ms.after) + ("," + MembersText(ms.rest));
    Assoc(TriviaText(u), MemberText(m), after);
  }

  lemma {:induction false} MemberSound(s: string, depth: nat, used: set<string>) returns (m: Member)
    requires ParseMember(s, depth, used).Ok?
    ensures MemberOk(m, depth, used) && s == MemberText(m) + ParseMember(s, depth, used).rest
    ensures ParseMember(s, depth, used).value == (Decoded(m.key), TreeValue(m.value, depth))
    decreases |s|, 4
  {
    var lead := SkippedTrivia(s);
    var w := SkipWs(s).rest;
    var key := QuotedSound(w);
    var after := ParseString(w).rest;
    var colon := BetweenSound(after, ":");
    var x := SkipWs(after).rest;
    var y := SkipWs(x[1..]).rest;
    var value := ValueSound(y, depth);
    var u := SkippedTrivia(x[1..]);
    var rest := ParseMember(s, depth, used).rest;
    Assoc(TriviaText(u), TreeText(value), rest);
    value := UnderTrivia(value, depth, u);
    m := Member(lead, key, colon, value);
    MemberJoin(m, rest);
  }

  lemma MemberJoin(m: Member, rest: string)
    ensures MemberText(m) + rest ==
            TriviaText(m.lead) + (Quoted(m.key) + (TriviaText(m.colon) + (":" + (TreeText(m.value) + rest))))
  {
    var value := TreeText(m.value);
    var colon := TriviaText(m.colon) + (":" + value);
    Assoc(":", value, rest);
    Assoc(TriviaText(m.colon), ":" + value, rest);
    Assoc(Quoted(m.key), colon, rest);
    Assoc(TriviaText(m.lead), Quoted(m.key) + colon, rest);
  }

  lemma BuildLastMember(m: Member, depth: nat, acc: map<string, Value>, after: Trivia, comma: Option<Trivia>, rest: string) returns (ms: Members)
    requires MemberOk(m, depth, acc.Keys) && TriviaOk(after) && CommaOk(comma)
    ensures MembersOk(ms, depth, acc.Keys) && MemberValues(ms, depth, acc) == acc[Decoded(m.key) := TreeValue(m.value, depth)]
    ensures MembersText(ms) + rest == MemberText(m) + (TriviaText(after) + (CommaText(comma) + ("}" + rest)))
  {
    ms := LastMember(m, after, comma);
    MembersSplit(ms, rest);
  }

  lemma BuildMember(m: Member, depth: nat, acc: map<string, Value>, after: Trivia, t: Trivia, inner: Members, acc': map<string, Value>, rest: string)
      returns (ms: Members)
    requires MemberOk(m, depth, acc.Keys) && acc' == acc[Decoded(m.key) := TreeValue(m.value, depth)]
    requires TriviaOk(after) && TriviaOk(t) && MembersOk(inner, depth, acc'.Keys)
    ensures MembersOk(ms, depth, acc.Keys) && MemberValues(ms, depth, acc) == MemberValues(inner, depth, acc')
    ensures MembersText(ms) + rest == MemberText(m) + (TriviaText(after) + ("," + (TriviaText(t) + (MembersText(inner) + rest))))
  {
    var more := MembersUnderTrivia(inner, depth, acc', t);
    Assoc(TriviaText(t), MembersText(inner), rest);
    assert acc'.Keys == acc.Keys + {Decoded(m.key)};
    ms := Members(m, after, more);
    MembersSplit(ms, rest);
  }

  /** How a successful pass over the members went. */
  lemma MembersRound(s: string, depth: nat, acc: map<string, Value>)
    requires ParseMembers(s, depth, acc).Ok?
    ensures ParseMember(s, depth, acc.Keys).Ok?
    ensures var m := ParseMember(s, depth, acc.Keys); var w := SkipWs(m.rest); var acc' := acc[m.value.0 := m.value.1];
            && w.Ok? && w.rest != []
            && (w.rest[0] == '}' ==> ParseMembers(s, depth, acc) == Ok(acc', w.rest[1..]))
            && (w.rest[0] != '}' ==>
                  var x := SkipWs(w.rest[1..]);
                  && w.rest[0] == ',' && x.Ok? && x.rest != [] && |x.rest| < |s|
                  && (x.rest[0] == '}' ==> ParseMembers(s, depth, acc) == Ok(acc', x.rest[1..]))
                  && (x.rest[0] != '}' ==> ParseMembers(s, depth, acc) == ParseMembers(x.rest, depth, acc')))
  {
  }

  lemma {:induction false} MembersSound(s: string, depth: nat, acc: map<string, Value>) returns (ms: Members)
    requires ParseMembers(s, depth, acc).Ok?
    ensures MembersOk(ms, depth, acc.Keys) && s == MembersText(ms) + ParseMembers(s, depth, acc).rest
    ensures MemberValues(ms, depth, acc) == ParseMembers(s, depth, acc).value
    decreases |s|, 5
  {
    MembersRound(s, depth, acc);
    var after, rest := ParseMember(s, depth, acc.Keys).rest, ParseMembers(s, depth, acc).rest;
    var m := MemberSound(s, depth, acc.Keys);
    var w := SkipWs(after).rest;
    if w[0] == '}' {
      var t := BetweenSound(after, "}");
      PlainEnd("}", rest);
      ms := BuildLastMember(m, depth, acc, t, None, rest);
    } else {
      var t := BetweenSound(after, ",");
      var x := SkipWs(w[1..]).rest;
      if x[0] == '}' {
        var u := BetweenSound(w[1..], "}");
        CommaEnd(u, "}", rest);
        ms := BuildLastMember(m, depth, acc, t, Some(u), rest);
      } else {
        var u := SkippedTrivia(w[1..]);
        var acc' := acc[Decoded(m.key) := TreeValue(m.value, depth)];
        var inner := MembersSound(x, depth, acc');
        ms := BuildMember(m, depth, acc, t, u, inner, acc', rest);
      }
    }
  }

  // ---------------------------------------------------------------------
  // Documents.

  lemma DocumentComplete(d: Document)
    requires DocumentOk(d)
    ensures Parse(DocumentText(d)) == Ok(TreeValue(d.tree, 0), [])
  {
    var tail := TriviaText(d.tail) + OpenText(d.open);
    TriviaFollow(d.tail, OpenText(d.open));
    ValueComplete(d.tree, 0, tail);
    TriviaSkips(d.tail, OpenText(d.open));
    OpenSkips(d.open);
  }

  lemma OpenSkips(open: Option<string>)
    requires OpenOk(open)
    ensures SkipWs(OpenText(open)) == Ok((), [])
  {
    if open.Some? {
      assert OpenText(open)[2..] == open.value + [];
      DropLineText(open.value, []);
    }
  }

  lemma DocumentSound(text: string) returns (d: Document)
    requires Parse(text).Ok?
    ensures DocumentOk(d) && DocumentText(d) == text && TreeValue(d.tree, 0) == Parse(text).value
  {
    var tree := ValueSound(text, 0);
    var tail, open := SkipSound(ParseValue(text, 0).rest);
    d := Document(tree, tail, open);
    assert TriviaText(tail) + OpenText(open) + [] == TriviaText(tail) + OpenText(open);
  }

  /** Some well-formed document is written as the text and means the value. */
  ghost predicate Spells(text: string, v: Value) {
    exists d :: DocumentOk(d) && DocumentText(d) == text && TreeValue(d.tree, 0) == v
  }

  /** The parser returns a value exactly on the texts that spell it. */
  lemma ParseIff(text: string, v: Value)
    ensures Parse(text) == Ok(v, []) <==> Spells(text, v)
  {
    if Spells(text, v) {
      var d :| DocumentOk(d) && DocumentText(d) == text && TreeValue(d.tree, 0) == v;
      DocumentComplete(d);
    }
    if Parse(text) == Ok(v, []) {
      var d := DocumentSound(text);
    }
  }

  /** No text spells two values. */
  lemma GrammarUnambiguous(text: string, v: Value, w: Value)
    requires Spells(text, v) && Spells(text, w)
    ensures v == w
  {
    ParseIff(text, v);
    ParseIff(text, w);
  }

  // ---------------------------------------------------------------------
  // Comments, white space and trailing commas.

  ghost function Bare(t: Tree): Tree {
    Tree([], BareNode(t.node))
  }

  ghost function BareNode(n: Node): Node {
    match n
    case EmptyArray(_) => EmptyArray([])
    case Array(elems) => Array(BareElems(elems))
    case EmptyObject(_) => EmptyObject([])
    case Object(members) => Object(BareMembers(members))
    case _ => n
  }

  ghost function BareElems(es: Elems): Elems {
    match es
    case LastElem(tree, _, _) => LastElem(Bare(tree), [], None)
    case Elem(tree, _, rest) => Elem(Bare(tree), [], BareElems(rest))
  }

  ghost function BareMember(m: Member): Member {
    Member([], m.key, [], Bare(m.value))
  }

  ghost function BareMembers(ms: Members): Members {
    match ms
    case LastMember(m, _, _) => LastMember(BareMember(m), [], None)
    case Members(m, _, rest) => Members(BareMember(m), [], BareMembers(rest))
  }

  /** Stripped of all trivia and trailing commas, a tree is well formed and means the same. */
  lemma {:induction false} BareTree(t: Tree, depth: nat)
    requires TreeOk(t, depth)
    ensures TreeOk(Bare(t), depth) && TreeValue(Bare(t), depth) == TreeValue(t, depth)
    decreases t
  {
    BareNodes(t.node, depth);
  }

  lemma {:induction false} BareNodes(n: Node, depth: nat)
    requires NodeOk(n, depth)
    ensures NodeOk(BareNode(n), depth) && NodeValue(BareNode(n), depth) == NodeValue(n, depth)
    decreases n
  {
    if n.Array? {
      BareElements(n.elems, depth + 1);
    } else if n.Object? {
      var none: map<string, Value> := map[];
      assert none.Keys == {};
      BareMemberList(n.members, depth + 1, none);
    }
  }

  lemma {:induction false} BareElements(es: Elems, depth: nat)
    requires ElemsOk(es, depth)
    ensures ElemsOk(BareElems(es), depth) && ElemValues(BareElems(es), depth) == ElemValues(es, depth)
    decreases es
  {
    BareTree(es.tree, depth);
    if es.Elem? {
      BareElements(es.rest, depth);
    }
  }

  lemma {:induction false} BareMemberList(ms: Members, depth: nat, acc: map<string, Value>)
    requires MembersOk(ms, depth, acc.Keys)
    ensures MembersOk(BareMembers(ms), depth, acc.Keys) && MemberValues(BareMembers(ms), depth, acc) == MemberValues(ms, depth, acc)
    decreases ms
  {
    var m := ms.member;
    assert MemberOk(m, depth, acc.Keys);
    BareTree(m.value, depth);
    assert MemberOk(BareMember(m), depth, acc.Keys);
    if ms.Members? {
      var acc' := acc[Decoded(m.key) := TreeValue(m.value, depth)];
      assert acc'.Keys == acc.Keys + {Decoded(m.key)};
      BareMemberList(ms.rest, depth, acc');
    }
  }

  /** Documents that differ only in comments, white space and trailing commas parse to the same value. */
  lemma TriviaNeverMatter(a: Document, b: Document)
    requires DocumentOk(a) && DocumentOk(b) && Bare(a.tree) == Bare(b.tree)
    ensures Parse(DocumentText(a)).Ok? && Parse(DocumentText(a)) == Parse(DocumentText(b))
  {
    DocumentComplete(a);
    DocumentComplete(b);
    BareTree(a.tree, 0);
    BareTree(b.tree, 0);
  }
}
