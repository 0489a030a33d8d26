/** Where the HUJSON parser departs from RFC 8259, and exactly when (crabscale-policy/src/hujson.rs). */
module HujsonRfc {
  import opened Ordered
  import opened Digits
  import opened HujsonLex
  import opened Hujson

  // ---------------------------------------------------------------------
  // Characters a string may hold unescaped.

  /** A character RFC 8259 lets a string hold as it is and the parser does not. */
  ghost predicate IsRefused(i: StrItem) {
    i.Plain? && 0x7F <= i.c as int <= 0x9F
  }

  ghost predicate ItemsClean(items: seq<StrItem>) {
    forall i :: 0 <= i < |items| ==> !IsRefused(items[i])
  }

  lemma CleanItemsOk(items: seq<StrItem>)
    requires RfcItemsOk(items)
    ensures ItemsOk(items) <==> ItemsClean(items)
  {
    forall i | 0 <= i < |items|
      ensures ItemOk(items[i]) <==> !IsRefused(items[i])
    {
      assert RfcItemOk(items[i]);
    }
  }

  lemma CleanTail(items: seq<StrItem>, k: nat)
    requires k <= |items| && RfcItemsOk(items) && forall i :: 0 <= i < k ==> !IsRefused(items[i])
    ensures RfcItemsOk(items[k..]) && (ItemsClean(items[k..]) <==> ItemsClean(items))
  {
    assert forall i :: k <= i < |items| ==> items[i] == items[k..][i - k];
  }

  lemma PlainPasses(c: char, later: string)
    requires RfcItemOk(Plain(c))
    ensures ParseChars([c] + later).Err? <==> IsRefused(Plain(c)) || ParseChars(later).Err?
  {
    assert ([c] + later)[1..] == later;
  }

  lemma EscapePasses(c: char, later: string)
    requires RfcItemOk(Escape(c))
    ensures ParseChars(['\\', c] + later).Err? <==> ParseChars(later).Err?
  {
    var s := ['\\', c] + later;
    assert s[1..] == [c] + later && ([c] + later)[1..] == later;
    assert ParseEscape(s[1..]) == Ok([EscapeChar(c).value], later);
  }

  /** A string that holds such a character is refused, whatever stands before it. */
  lemma {:induction false} CharsRefused(items: seq<StrItem>, rest: string)
    requires RfcItemsOk(items) && !ItemsClean(items)
    ensures ParseChars(Closed(items, rest)).Err?
    decreases |items|
  {
    ClosedCons(items, rest);
    var later := Closed(items[1..], rest);
    assert RfcItemOk(items[0]);
    if items[0].Unicode? {
      UnicodeRefused(items, rest);
    } else if items[0].Escape? {
      CleanTail(items, 1);
      CharsRefused(items[1..], rest);
      EscapePasses(items[0].c, later);
    } else {
      PlainPasses(items[0].c, later);
      if !IsRefused(items[0]) {
        CleanTail(items, 1);
        CharsRefused(items[1..], rest);
      }
    }
  }

  lemma {:induction false} UnicodeRefused(items: seq<StrItem>, rest: string)
    requires RfcItemsOk(items) && !ItemsClean(items) && items[0].Unicode?
    ensures ParseChars(Closed(items, rest)).Err?
    decreases |items|, 0
  {
    ClosedCons(items, rest);
    var s, hex, later := Closed(items, rest), items[0].hex, Closed(items[1..], rest);
    assert RfcItemOk(items[0]);
    assert s[1..] == "u" + hex + later;
    if IsHigh(HexValue(hex)) && |items| > 1 && items[1].Unicode? {
      assert RfcItemOk(items[1]);
      ClosedCons(items[1..], rest);
      assert items[1..][1..] == items[2..];
      assert later == "\\u" + items[1].hex + Closed(items[2..], rest);
      PairedUnicode(hex, items[1].hex, Closed(items[2..], rest));
      CleanTail(items, 2);
      CharsRefused(items[2..], rest);
    } else {
      CleanTail(items, 1);
      if IsHigh(HexValue(hex)) {
        NotUnicodeBehind(items[1..], rest);
      }
      LoneUnicode(hex, later);
      CharsRefused(items[1..], rest);
    }
  }

  lemma NotUnicodeBehind(items: seq<StrItem>, rest: string)
    requires RfcItemsOk(items) && (items == [] || !items[0].Unicode?)
    ensures var s := Closed(items, rest); !(|s| >= 2 && s[0] == '\\' && s[1] == 'u')
  {
    if items != [] {
      assert RfcItemOk(items[0]);
      ClosedCons(items, rest);
    }
  }

  /** A string of RFC 8259 is read exactly when it holds no character from U+007F to U+009F, and then as what it stands for. */
  lemma StringReadIff(items: seq<StrItem>, rest: string)
    requires RfcItemsOk(items)
    ensures ParseChars(Closed(items, rest)).Ok? <==> ItemsClean(items)
    ensures ItemsClean(items) ==> ParseChars(Closed(items, rest)) == Ok(Decoded(items), rest)
  {
    CleanItemsOk(items);
    if ItemsClean(items) {
      CharsComplete(items, rest);
    } else {
      CharsRefused(items, rest);
    }
  }

  // ---------------------------------------------------------------------
  // Escaped surrogates.

  /** The usual decoding: a high surrogate joins the low one right behind it, any other surrogate is replaced alone. */
  ghost function Standard(items: seq<StrItem>): string
    requires RfcItemsOk(items)
  {
    if items == [] then
      []
    else
      assert RfcItemOk(items[0]);
      match items[0]
      case Plain(c) => [c] + Standard(items[1..])
      case Escape(c) => [EscapeChar(c).value] + Standard(items[1..])
      case Unicode(hex) =>
        var u := HexValue(hex);
        if JoinsNext(items) then
          [Pair(u, HexValue(items[1].hex))] + Standard(items[2..])
        else
          [if IsHigh(u) || IsLow(u) then REPLACEMENT else Scalar(u)] + Standard(items[1..])
  }

  ghost predicate HighAt(items: seq<StrItem>, i: int)
    requires RfcItemsOk(items)
  {
    0 <= i < |items| && items[i].Unicode? && assert RfcItemOk(items[i]); IsHigh(HexValue(items[i].hex))
  }

  ghost predicate LowAt(items: seq<StrItem>, i: int)
    requires RfcItemsOk(items)
  {
    0 <= i < |items| && items[i].Unicode? && assert RfcItemOk(items[i]); IsLow(HexValue(items[i].hex))
  }

  ghost predicate JoinsNext(items: seq<StrItem>)
    requires RfcItemsOk(items)
  {
    HighAt(items, 0) && LowAt(items, 1)
  }

  /** Two escaped high surrogates stand side by side. */
  ghost predicate HighsAt(items: seq<StrItem>, i: int)
    requires RfcItemsOk(items)
  {
    HighAt(items, i) && HighAt(items, i + 1)
  }

  ghost predicate HasHighs(items: seq<StrItem>)
    requires RfcItemsOk(items)
  {
    exists i :: HighsAt(items, i)
  }

  lemma TailItems(items: seq<StrItem>, k: nat)
    requires RfcItemsOk(items) && k <= |items|
    ensures RfcItemsOk(items[k..])
    ensures forall i :: 0 <= i ==> HighAt(items[k..], i) == HighAt(items, k + i) && LowAt(items[k..], i) == LowAt(items, k + i)
  {
    assert forall i :: 0 <= i < |items| - k ==> items[k..][i] == items[k + i];
  }

  /** Side-by-side high surrogates behind the first items are those of the rest. */
  lemma HighsShift(items: seq<StrItem>, k: nat)
    requires RfcItemsOk(items) && k <= |items| && forall i :: 0 <= i < k ==> !HighsAt(items, i)
    ensures RfcItemsOk(items[k..]) && (HasHighs(items) <==> HasHighs(items[k..]))
  {
    TailItems(items, k);
    if HasHighs(items) {
      var i :| HighsAt(items, i);
      assert HighsAt(items[k..], i - k);
    }
    if HasHighs(items[k..]) {
      var i :| HighsAt(items[k..], i);
      assert HighsAt(items, k + i);
    }
  }

  /** What both decodings make of the first item or two, where no second high surrogate stands right behind a first. */
  lemma SameStep(items: seq<StrItem>) returns (head: string, k: nat)
    requires RfcItemsOk(items) && items != [] && !HighsAt(items, 0)
    ensures 0 < k <= |items| && k <= 2 && RfcItemsOk(items[k..]) && (k == 2 ==> !HighAt(items, 1))
    ensures Decoded(items) == head + Decoded(items[k..]) && Standard(items) == head + Standard(items[k..])
  {
    assert RfcItemOk(items[0]);
    TailItems(items, 1);
    if HighAt(items, 0) && |items| > 1 && items[1].Unicode? {
      assert RfcItemOk(items[1]);
      TailItems(items, 2);
      k := 2;
      var u, v := HexValue(items[0].hex), HexValue(items[1].hex);
      if IsLow(v) {
        head := [Pair(u, v)];
      } else {
        head := [REPLACEMENT, Scalar(v)];
        assert items[1..][1..] == items[2..] && items[1..][0] == items[1];
        assert Standard(items[1..]) == [Scalar(v)] + Standard(items[2..]);
        assert [REPLACEMENT] + ([Scalar(v)] + Standard(items[2..])) == head + Standard(items[2..]);
      }
    } else {
      k := 1;
      head := Decoded(items)[..1];
    }
  }

  /** The parser's decoding is never longer than the usual one. */
  lemma {:induction false} NeverLonger(items: seq<StrItem>)
    requires RfcItemsOk(items)
    ensures |Decoded(items)| <= |Standard(items)|
    decreases |items|
  {
    if items != [] {
      if HighsAt(items, 0) {
        HighsStep(items);
        TailItems(items, 2);
        NeverLonger(items[2..]);
      } else {
        var head, k := SameStep(items);
        NeverLonger(items[k..]);
      }
    }
  }

  /** A low surrogate in front is replaced alone by both decodings. */
  lemma LowStep(items: seq<StrItem>)
    requires RfcItemsOk(items) && LowAt(items, 0)
    ensures RfcItemsOk(items[1..]) && Decoded(items) == [REPLACEMENT] + Decoded(items[1..])
    ensures Standard(items) == [REPLACEMENT] + Standard(items[1..])
  {
    TailItems(items, 1);
    assert RfcItemOk(items[0]);
    assert !HighAt(items, 0);
  }

  /** A high surrogate in front, as usually decoded: joined to a low one behind it, or replaced alone. */
  lemma HighStep(items: seq<StrItem>)
    requires RfcItemsOk(items) && HighAt(items, 0)
    ensures RfcItemsOk(items[1..])
    ensures !LowAt(items, 1) ==> Standard(items) == [REPLACEMENT] + Standard(items[1..])
    ensures LowAt(items, 1) ==> |Standard(items)| == |Standard(items[1..])| && Standard(items)[0] != REPLACEMENT
  {
    TailItems(items, 1);
    assert RfcItemOk(items[0]);
    if LowAt(items, 1) {
      assert RfcItemOk(items[1]);
      TailItems(items, 2);
      LowStep(items[1..]);
      assert items[1..][1..] == items[2..];
    }
  }

  lemma HighsDecoded(items: seq<StrItem>)
    requires RfcItemsOk(items) && HighsAt(items, 0)
    ensures RfcItemsOk(items[2..]) && Decoded(items) == [REPLACEMENT] + Decoded(items[2..])
  {
    TailItems(items, 2);
    assert RfcItemOk(items[0]) && RfcItemOk(items[1]);
  }

  /** Two high surrogates in front: the parser writes one replacement for both, the usual decoding goes on with the second. */
  lemma HighsStep(items: seq<StrItem>)
    requires RfcItemsOk(items) && HighsAt(items, 0)
    ensures RfcItemsOk(items[1..]) && RfcItemsOk(items[2..])
    ensures Decoded(items) == [REPLACEMENT] + Decoded(items[2..])
    ensures Standard(items) == [REPLACEMENT] + Standard(items[1..])
    ensures if LowAt(items, 2) then
              && |Standard(items[1..])| == |Standard(items[2..])| > 0 && Standard(items[1..])[0] != REPLACEMENT
              && Decoded(items[2..]) != [] && Decoded(items[2..])[0] == REPLACEMENT
            else
              Standard(items[1..]) == [REPLACEMENT] + Standard(items[2..])
  {
    HighsDecoded(items);
    HighStep(items);
    TailItems(items, 1);
    TailItems(items, 2);
    assert items[1..][1..] == items[2..];
    HighStep(items[1..]);
    if LowAt(items, 2) {
      LowStep(items[2..]);
    }
  }

  /** The parser decodes a string as usual exactly when no two escaped high surrogates stand side by side. */
  lemma {:induction false} DecodesAsUsualIff(items: seq<StrItem>)
    requires RfcItemsOk(items)
    ensures Decoded(items) == Standard(items) <==> !HasHighs(items)
    decreases |items|
  {
    if items != [] {
      if HighsAt(items, 0) {
        HighsStep(items);
        NeverLonger(items[2..]);
        assert HasHighs(items);
        assert Decoded(items)[1..] == Decoded(items[2..]) && Standard(items)[1..] == Standard(items[1..]);
      } else {
        var head, k := SameStep(items);
        HighsShift(items, k);
        DecodesAsUsualIff(items[k..]);
        assert Decoded(items)[|head|..] == Decoded(items[k..]) && Standard(items)[|head|..] == Standard(items[k..]);
      }
    }
  }

  // ---------------------------------------------------------------------
  // Documents of RFC 8259, with comments and trailing commas.

  ghost predicate RfcTreeOk(t: Tree, depth: nat) {
    TriviaOk(t.lead) && RfcNodeOk(t.node, depth)
  }

  /** As well formed as the parser's own grammar asks, but for the characters a string may hold. */
  ghost predicate RfcNodeOk(n: Node, depth: nat) {
    match n
    case Str(items) => RfcItemsOk(items)
    case Array(elems) => depth < MAX_DEPTH && RfcElemsOk(elems, depth + 1)
    case Object(members) => depth < MAX_DEPTH && RfcMembersOk(members, depth + 1, {})
    case _ => NodeOk(n, depth)
  }

  ghost predicate RfcElemsOk(es: Elems, depth: nat) {
    match es
    case LastElem(tree, after, comma) => RfcTreeOk(tree, depth) && TriviaOk(after) && CommaOk(comma)
    case Elem(tree, after, rest) => RfcTreeOk(tree, depth) && TriviaOk(after) && RfcElemsOk(rest, depth)
  }

  ghost predicate RfcMemberOk(m: Member, depth: nat, used: set<string>) {
    && TriviaOk(m.lead) && RfcItemsOk(m.key) && TriviaOk(m.colon) && RfcTreeOk(m.value, depth)
    && Decoded(m.key) !in used
  }

  ghost predicate RfcMembersOk(ms: Members, depth: nat, used: set<string>) {
    match ms
    case LastMember(m, after, comma) => RfcMemberOk(m, depth, used) && TriviaOk(after) && CommaOk(comma)
    case Members(m, after, rest) =>
      RfcMemberOk(m, depth, used) && TriviaOk(after) && RfcMembersOk(rest, depth, used + {Decoded(m.key)})
  }

  /** No string in the tree, key or value, holds a refused character. */
  ghost predicate TreeClean(t: Tree) {
    NodeClean(t.node)
  }

  ghost predicate NodeClean(n: Node) {
    match n
    case Str(items) => ItemsClean(items)
    case Array(elems) => ElemsClean(elems)
    case Object(members) => MembersClean(members)
    case _ => true
  }

  ghost predicate ElemsClean(es: Elems) {
    TreeClean(es.tree) && (es.Elem? ==> ElemsClean(es.rest))
  }

  ghost predicate MemberClean(m: Member) {
    ItemsClean(m.key) && TreeClean(m.value)
  }

  ghost predicate MembersClean(ms: Members) {
    MemberClean(ms.member) && (ms.Members? ==> MembersClean(ms.rest))
  }

  // Clean trees are the trees of the parser's grammar.

  lemma {:induction false} CleanTree(t: Tree, depth: nat)
    requires RfcTreeOk(t, depth) && TreeClean(t)
    ensures TreeOk(t, depth)
    decreases t
  {
    CleanNode(t.node, depth);
  }

  lemma {:induction false} CleanNode(n: Node, depth: nat)
    requires RfcNodeOk(n, depth) && NodeClean(n)
    ensures NodeOk(n, depth)
    decreases n
  {
    if n.Str? {
      CleanItemsOk(n.items);
    } else if n.Array? {
      CleanElems(n.elems, depth + 1);
    } else if n.Object? {
      CleanMembers(n.members, depth + 1, {});
    }
  }

  lemma {:induction false} CleanElems(es: Elems, depth: nat)
    requires RfcElemsOk(es, depth) && ElemsClean(es)
    ensures ElemsOk(es, depth)
    decreases es
  {
    CleanTree(es.tree, depth);
    if es.Elem? {
      CleanElems(es.rest, depth);
    }
  }

  lemma {:induction false} CleanMember(m: Member, depth: nat, used: set<string>)
    requires RfcMemberOk(m, depth, used) && MemberClean(m)
    ensures MemberOk(m, depth, used)
    decreases m
  {
    CleanItemsOk(m.key);
    CleanTree(m.value, depth);
  }

  lemma {:induction false} CleanMembers(ms: Members, depth: nat, used: set<string>)
    requires RfcMembersOk(ms, depth, used) && MembersClean(ms)
    ensures MembersOk(ms, depth, used)
    decreases ms
  {
    CleanMember(ms.member, depth, used);
    if ms.Members? {
      CleanMembers(ms.rest, depth, used + {Decoded(ms.member.key)});
    }
  }

  // Any other tree is refused.

  lemma RfcNodeHead(n: Node, depth: nat, rest: string)
    requires RfcNodeOk(n, depth)
    ensures NodeText(n) + rest != [] && IsNodeStart((NodeText(n) + rest)[0]) && Stops(NodeText(n) + rest)
  {
    if n.Num? {
      NumHead(n.tok);
    }
  }

  lemma RfcTreeSkips(t: Tree, depth: nat, rest: string)
    requires RfcTreeOk(t, depth)
    ensures SkipWs(TreeText(t) + rest) == Ok((), NodeText(t.node) + rest)
  {
    Assoc(TriviaText(t.lead), NodeText(t.node), rest);
    TriviaSkips(t.lead, NodeText(t.node) + rest);
    RfcNodeHead(t.node, depth, rest);
    StopsStays(NodeText(t.node) + rest);
  }

  lemma {:induction false} ValueRefused(t: Tree, depth: nat, rest: string)
    requires RfcTreeOk(t, depth) && !TreeClean(t)
    ensures ParseValue(TreeText(t) + rest, depth).Err?
    decreases t
  {
    RfcTreeSkips(t, depth, rest);
    NodeRefused(t.node, depth, rest);
  }

  lemma {:induction false} NodeRefused(n: Node, depth: nat, rest: string)
    requires RfcNodeOk(n, depth) && !NodeClean(n)
    ensures ParseNode(NodeText(n) + rest, depth).Err?
    decreases n
  {
    if n.Str? {
      CharsRefused(n.items, rest);
      QuotedRefused(n.items, depth, rest);
    } else if n.Array? {
      ElemsRefused(n.elems, depth + 1, rest);
      RfcElemsStart(n.elems, depth + 1, rest);
      Assoc("[", ElemsText(n.elems), rest);
      ArrayRefused(ElemsText(n.elems) + rest, depth);
    } else {
      var none: map<string, Value> := map[];
      assert none.Keys == {};
      MembersRefused(n.members, depth + 1, none, rest);
      RfcMembersStart(n.members, depth + 1, none.Keys, rest);
      Assoc("{", MembersText(n.members), rest);
      ObjectRefused(MembersText(n.members) + rest, depth, none);
    }
  }

  lemma QuotedRefused(items: seq<StrItem>, depth: nat, rest: string)
    requires ParseChars(Closed(items, rest)).Err?
    ensures ParseNode(Quoted(items) + rest, depth).Err?
  {
    assert (Quoted(items) + rest)[1..] == Closed(items, rest);
  }

  lemma ArrayRefused(inside: string, depth: nat)
    requires SkipWs(inside).Ok? && !Starts(SkipWs(inside).rest, ']') && ParseElems(inside, depth + 1).Err?
    ensures ParseNode("[" + inside, depth).Err?
  {
    assert ("[" + inside)[1..] == inside;
    ElemsSkips(inside, depth + 1);
  }

  lemma RfcElemsStart(es: Elems, depth: nat, rest: string)
    requires RfcElemsOk(es, depth)
    ensures var w := SkipWs(ElemsText(es) + rest); w.Ok? && w.rest != [] && IsNodeStart(w.rest[0])
  {
    ElemsSplit(es, rest);
    var after := TriviaText(es.after) + ElemsAfter(es, rest);
    RfcTreeSkips(es.tree, depth, after);
    RfcNodeHead(es.tree.node, depth, after);
  }

  lemma ElemsStop(s: string, depth: nat, after: string, behind: string)
    requires ParseValue(s, depth).Ok? && ParseValue(s, depth).rest == after && SkipWs(after) == Ok((), "," + behind)
    requires SkipWs(behind).Ok? && !Starts(SkipWs(behind).rest, ']') && ParseElems(behind, depth).Err?
    ensures ParseElems(s, depth).Err?
  {
    assert ("," + behind)[1..] == behind;
    ElemsSkips(behind, depth);
  }

  lemma {:induction false} ElemsRefused(es: Elems, depth: nat, rest: string)
    requires RfcElemsOk(es, depth) && !ElemsClean(es)
    ensures ParseElems(ElemsText(es) + rest, depth).Err?
    decreases es
  {
    var s, after := ElemsText(es) + rest, TriviaText(es.after) + ElemsAfter(es, rest);
    ElemsSplit(es, rest);
    if TreeClean(es.tree) {
      CleanTree(es.tree, depth);
      TriviaFollow(es.after, ElemsAfter(es, rest));
      ValueComplete(es.tree, depth, after);
      var behind := ElemsText(es.rest) + rest;
      MarkSkips(es.after, ',', behind);
      RfcElemsStart(es.rest, depth, rest);
      ElemsRefused(es.rest, depth, rest);
      ElemsStop(s, depth, after, behind);
    } else {
      ValueRefused(es.tree, depth, after);
    }
  }

  lemma {:induction false} MemberRefused(m: Member, depth: nat, used: set<string>, rest: string)
    requires RfcMemberOk(m, depth, used) && !MemberClean(m)
    ensures ParseMember(MemberText(m) + rest, depth, used).Err?
    decreases m
  {
    var value := TreeText(m.value) + rest;
    var colon := TriviaText(m.colon) + (":" + value);
    var inside := Closed(m.key, colon);
    MemberSplit(m, rest);
    MarkSkips(m.lead, '"', inside);
    if ItemsClean(m.key) {
      CleanItemsOk(m.key);
      CharsComplete(m.key, colon);
      MarkSkips(m.colon, ':', value);
      RfcTreeSkips(m.value, depth, rest);
      ValueRefused(m.value, depth, rest);
      MemberStops(MemberText(m) + rest, depth, used, inside, colon, value);
    } else {
      CharsRefused(m.key, colon);
      assert ("\"" + inside)[1..] == inside;
    }
  }

  lemma MemberStops(s: string, depth: nat, used: set<string>, inside: string, colon: string, value: string)
    requires SkipWs(s) == Ok((), "\"" + inside) && ParseChars(inside).Ok? && ParseChars(inside).rest == colon
    requires SkipWs(colon) == Ok((), ":" + value) && SkipWs(value).Ok? && ParseValue(value, depth).Err?
    ensures ParseMember(s, depth, used).Err?
  {
    assert ("\"" + inside)[1..] == inside && (":" + value)[1..] == value;
    ValueSkips(value, depth);
  }

  lemma RfcMembersStart(ms: Members, depth: nat, used: set<string>, rest: string)
    requires RfcMembersOk(ms, depth, used)
    ensures SkipWs(MembersText(ms) + rest).Ok? && Starts(SkipWs(MembersText(ms) + rest).rest, '"')
  {
    assert RfcMemberOk(ms.member, depth, used);
    var m, after := ms.member, MembersAfter(ms, rest);
    MembersSplit(ms, rest);
    MemberSplit(m, after);
    MarkSkips(m.lead, '"', Closed(m.key, TriviaText(m.colon) + (":" + (TreeText(m.value) + after))));
  }

  /** Leading trivia do not decide whether members are refused. */
  lemma RefusedSkips(s: string, depth: nat, acc: map<string, Value>)
    requires SkipWs(s).Ok? && ParseMembers(s, depth, acc).Err?
    ensures ParseMembers(SkipWs(s).rest, depth, acc).Err?
  {
    SkipTwice(s);
    if ParseMember(s, depth, acc.Keys).Ok? {
      MembersSkip(s, depth, acc);
    }
  }

  lemma ObjectRefused(inside: string, depth: nat, none: map<string, Value>)
    requires none == map[] && SkipWs(inside).Ok? && Starts(SkipWs(inside).rest, '"') && ParseMembers(inside, depth + 1, none).Err?
    ensures ParseNode("{" + inside, depth).Err?
  {
    assert ("{" + inside)[1..] == inside;
    RefusedSkips(inside, depth + 1, none);
  }

  lemma MembersStop(s: string, depth: nat, acc: map<string, Value>, m: (string, Value), after: string, behind: string)
    requires ParseMember(s, depth, acc.Keys) == Ok(m, after) && SkipWs(after) == Ok((), "," + behind)
    requires SkipWs(behind).Ok? && !Starts(SkipWs(behind).rest, '}') && ParseMembers(behind, depth, acc[m.0 := m.1]).Err?
    ensures ParseMembers(s, depth, acc).Err?
  {
    assert ("," + behind)[1..] == behind;
    RefusedSkips(behind, depth, acc[m.0 := m.1]);
  }

  lemma {:induction false} MembersRefused(ms: Members, depth: nat, acc: map<string, Value>, rest: string)
    requires RfcMembersOk(ms, depth, acc.Keys) && !MembersClean(ms)
    ensures ParseMembers(MembersText(ms) + rest, depth, acc).Err?
    decreases ms
  {
    var s, after, m := MembersText(ms) + rest, MembersAfter(ms, rest), ms.member;
    assert RfcMemberOk(m, depth, acc.Keys);
    MembersSplit(ms, rest);
    if MemberClean(m) {
      CleanMember(m, depth, acc.Keys);
      var behind := MembersText(ms.rest) + rest;
      TriviaFollow(ms.after, "," + behind);
      MemberComplete(m, depth, acc.Keys, after);
      MarkSkips(ms.after, ',', behind);
      var read := (Decoded(m.key), TreeValue(m.value, depth));
      var acc' := acc[read.0 := read.1];
      assert acc'.Keys == acc.Keys + {read.0};
      RfcMembersStart(ms.rest, depth, acc'.Keys, rest);
      MembersRefused(ms.rest, depth, acc', rest);
      MembersStop(s, depth, acc, read, after, behind);
    } else {
      MemberRefused(m, depth, acc.Keys, after);
    }
  }

  ghost predicate RfcDocumentOk(d: Document) {
    RfcTreeOk(d.tree, 0) && TriviaOk(d.tail) && OpenOk(d.open)
  }

  /**
   * A document of RFC 8259 with comments and trailing commas, unique keys, nesting and numbers in range is parsed
   * exactly when no string in it, key or value, holds a character from U+007F to U+009F; and then to its meaning.
   */
  lemma DocumentReadIff(d: Document)
    requires RfcDocumentOk(d)
    ensures Parse(DocumentText(d)).Ok? <==> TreeClean(d.tree)
    ensures TreeClean(d.tree) ==> DocumentOk(d) && Parse(DocumentText(d)) == Ok(TreeValue(d.tree, 0), [])
  {
    if TreeClean(d.tree) {
      CleanTree(d.tree, 0);
      DocumentComplete(d);
    } else {
      ValueRefused(d.tree, 0, TriviaText(d.tail) + OpenText(d.open));
    }
  }

  /** The shortest such documents: a string of one of these characters. */
  lemma DeleteAndC1Refused(c: char)
    requires 0x7F <= c as int <= 0x9F
    ensures var d := Document(Tree([], Str([Plain(c)])), [], None);
            RfcDocumentOk(d) && DocumentText(d) == ['"', c, '"'] && Parse(['"', c, '"']).Err?
  {
    var d := Document(Tree([], Str([Plain(c)])), [], None);
    assert IsRefused([Plain(c)][0]);
    DocumentReadIff(d);
    assert [Plain(c)][1..] == [];
    assert ItemsText([Plain(c)]) == [c] + [];
    assert Quoted([Plain(c)]) == ['"', c, '"'];
    assert TreeText(d.tree) == [] + Quoted([Plain(c)]);
    assert DocumentText(d) == TreeText(d.tree) + ([] + []);
  }

  /** An escaped high surrogate swallows another one behind it, and with it the pair the latter begins. */
  lemma HighSurrogateSwallowsPair(a: string, b: string, c: string)
    requires IsHex(a) && IsHex(b) && IsHex(c) && IsHigh(HexValue(a)) && IsHigh(HexValue(b)) && IsLow(HexValue(c))
    ensures var items := [Unicode(a), Unicode(b), Unicode(c)];
            && Decoded(items) == [REPLACEMENT, REPLACEMENT]
            && Standard(items) == [REPLACEMENT, Pair(HexValue(b), HexValue(c))]
  {
    var items := [Unicode(a), Unicode(b), Unicode(c)];
    assert items[1..] == [Unicode(b), Unicode(c)] && items[2..] == [Unicode(c)] && items[2..][1..] == [];
    assert items[1..][2..] == [];
    assert Decoded(items[2..]) == [REPLACEMENT] + [];
    assert JoinsNext(items[1..]) && !JoinsNext(items);
    assert Standard(items[1..]) == [Pair(HexValue(b), HexValue(c))] + [];
  }
}
