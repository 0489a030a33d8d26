/** Compilation and evaluation of Tailscale SSH rules (crabscale-policy/src/ssh.rs). */
module SshPolicy {
  import opened Ordered
  import opened Digits
  import opened Groups
  import opened Compile

  const DEFAULT_CHECK_PERIOD: nat := 12 * 60 * 60

  datatype SshRule = SshRule(action: string, src: seq<Target>, dst: seq<Target>, users: seq<string>, checkPeriod: Option<string>)

  datatype Action = Accept | Check(period: nat)

  datatype CompiledRule = CompiledRule(srcNodes: set<int>, srcAll: bool, users: seq<string>, action: Action)

  // ---------------------------------------------------------------------
  // Durations.

  const U64: nat := 0x1_0000_0000_0000_0000

  /** The seconds of a unit letter; zero for any other character. */
  function UnitSeconds(c: char): nat {
    if c == 's' || c == 'S' then 1
    else if c == 'm' || c == 'M' then 60
    else if c == 'h' || c == 'H' then 3600
    else if c == 'd' || c == 'D' then 86400
    else 0
  }

  /** Checked 64-bit arithmetic. */
  function Checked(n: nat): Option<nat> {
    if n < U64 then Some(n) else None
  }

  /** A decimal 64-bit number; no digits is not a number. */
  function ParseNumber(digits: string): Option<nat>
    requires AllDigits(digits)
  {
    if digits == [] then None else Checked(Number(digits))
  }

  /** An amount of a unit: its digits and its unit letter. */
  datatype Amount = Amount(digits: string, unit: char)

  ghost predicate WellFormed(a: Amount) {
    a.digits != [] && AllDigits(a.digits) && UnitSeconds(a.unit) > 0
  }

  ghost predicate AllWellFormed(amounts: seq<Amount>) {
    forall i :: 0 <= i < |amounts| ==> WellFormed(amounts[i])
  }

  ghost function Spelled(amounts: seq<Amount>): string {
    if amounts == [] then [] else Spelled(amounts[..|amounts| - 1]) + amounts[|amounts| - 1].digits + [amounts[|amounts| - 1].unit]
  }

  ghost function Total(amounts: seq<Amount>): nat
    requires AllWellFormed(amounts)
  {
    if amounts == [] then 0
    else Total(amounts[..|amounts| - 1]) + Number(amounts[|amounts| - 1].digits) * UnitSeconds(amounts[|amounts| - 1].unit)
  }

  /** The text read so far is a list of amounts followed by unfinished digits. */
  ghost predicate Reads(text: string, amounts: seq<Amount>, number: string) {
    && AllWellFormed(amounts)
    && AllDigits(number)
    && text == Spelled(amounts) + number
  }

  lemma ReadsDigit(text: string, amounts: seq<Amount>, number: string, c: char)
    requires Reads(text, amounts, number) && IsDigit(c)
    ensures Reads(text + [c], amounts, number + [c])
  {
    assert text + [c] == Spelled(amounts) + (number + [c]);
  }

  lemma ReadsUnit(text: string, amounts: seq<Amount>, number: string, c: char)
    requires Reads(text, amounts, number) && number != [] && UnitSeconds(c) > 0
    ensures var more := amounts + [Amount(number, c)];
            && Reads(text + [c], more, "") && AllWellFormed(more)
            && Total(more) == Total(amounts) + Number(number) * UnitSeconds(c)
  {
    var more := amounts + [Amount(number, c)];
    assert more[..|more| - 1] == amounts;
    assert Spelled(more) == Spelled(amounts) + number + [c];
    assert text + [c] == Spelled(more) + "";
  }

  /** There is at most one way to read a text as amounts and unfinished digits. */
  lemma {:induction false} ReadingUnique(text: string, a: seq<Amount>, m: string, b: seq<Amount>, n: string)
    requires Reads(text, a, m) && Reads(text, b, n)
    ensures a == b && m == n
    decreases |text|
  {
    if text == [] {
      SpelledEmpty(a);
      SpelledEmpty(b);
    } else {
      var c, before := text[|text| - 1], text[..|text| - 1];
      if IsDigit(c) {
        DropDigit(text, a, m);
        DropDigit(text, b, n);
        ReadingUnique(before, a, m[..|m| - 1], b, n[..|n| - 1]);
        assert m == m[..|m| - 1] + [c] && n == n[..|n| - 1] + [c];
      } else {
        DropUnit(text, a, m);
        DropUnit(text, b, n);
        var la, lb := a[|a| - 1], b[|b| - 1];
        ReadingUnique(before, a[..|a| - 1], la.digits, b[..|b| - 1], lb.digits);
        assert a == a[..|a| - 1] + [la] && b == b[..|b| - 1] + [lb];
      }
    }
  }

  lemma SpelledEmpty(a: seq<Amount>)
    requires Spelled(a) == []
    ensures a == []
  {
  }

  lemma DropDigit(text: string, a: seq<Amount>, m: string)
    requires Reads(text, a, m) && text != [] && IsDigit(text[|text| - 1])
    ensures m != [] && m[|m| - 1] == text[|text| - 1] && Reads(text[..|text| - 1], a, m[..|m| - 1])
  {
    assert text[..|text| - 1] == Spelled(a) + m[..|m| - 1];
  }

  lemma DropUnit(text: string, a: seq<Amount>, m: string)
    requires Reads(text, a, m) && text != [] && !IsDigit(text[|text| - 1])
    ensures m == [] && a != [] && a[|a| - 1].unit == text[|text| - 1]
    ensures Reads(text[..|text| - 1], a[..|a| - 1], a[|a| - 1].digits)
  {
    var last := a[|a| - 1];
    assert text == Spelled(a[..|a| - 1]) + last.digits + [last.unit];
    assert text[..|text| - 1] == Spelled(a[..|a| - 1]) + last.digits;
    assert WellFormed(last);
  }

  /** The text is a list of one or more amounts that add up to the value, within 64 bits. */
  ghost predicate Means(text: string, value: nat) {
    exists amounts :: amounts != [] && Reads(text, amounts, "") && Total(amounts) == value < U64
  }

  /** A duration is read exactly when the text spells one that fits, and as its value. */
  method ParseDuration(input: string) returns (r: Option<nat>)
    ensures r.Some? ==> Means(input, r.value)
    ensures r.None? ==> forall value: nat :: !Means(input, value)
  {
    if input == [] {
      NothingMeansNothing();
      return None;
    }
    var total, number := 0, "";
    ghost var amounts: seq<Amount> := [];
    for k := 0 to |input|
      invariant Reads(input[..k], amounts, number)
      invariant Total(amounts) == total < U64
      invariant k > 0 ==> amounts != [] || number != []
    {
      var c := input[k];
      assert input[..k + 1] == input[..k] + [c];
      if IsDigit(c) {
        ReadsDigit(input[..k], amounts, number, c);
        number := number + [c];
      } else {
        var amount := ParseNumber(number);
        var seconds := if amount.None? || UnitSeconds(c) == 0 then None else Checked(amount.value * UnitSeconds(c));
        var sum := if seconds.None? then None else Checked(total + seconds.value);
        if sum.None? {
          CannotRead(input, k, amounts, number);
          return None;
        }
        ReadsUnit(input[..k], amounts, number, c);
        amounts := amounts + [Amount(number, c)];
        total, number := sum.value, "";
      }
    }
    assert input[..|input|] == input;
    if number != [] {
      Unfinished(input, amounts, number);
      return None;
    }
    r := Some(total);
  }

  lemma NothingMeansNothing()
    ensures forall value: nat :: !Means([], value)
  {
    forall amounts: seq<Amount> | amounts != [] && Reads([], amounts, "")
      ensures false
    {
      SpelledEmpty(amounts);
    }
  }

  lemma Unfinished(input: string, amounts: seq<Amount>, number: string)
    requires Reads(input, amounts, number) && number != []
    ensures forall value: nat :: !Means(input, value)
  {
    forall other | Reads(input, other, "")
      ensures false
    {
      ReadingUnique(input, amounts, number, other, "");
    }
  }

  /** Any reading of the whole text starts with the only reading of the part before a unit. */
  lemma {:induction false} ReadingPrefix(input: string, k: nat, all: seq<Amount>, rest: string, amounts: seq<Amount>, number: string)
    requires k <= |input| && Reads(input, all, rest) && Reads(input[..k], amounts, number)
    ensures amounts <= all && Total(amounts) <= Total(all)
    ensures k < |input| && !IsDigit(input[k]) ==>
              |amounts| < |all| && all[|amounts|] == Amount(number, input[k]) &&
              Total(amounts) + Number(number) * UnitSeconds(input[k]) <= Total(all)
    decreases |input| - k
  {
    if k == |input| {
      assert input[..k] == input;
      ReadingUnique(input, all, rest, amounts, number);
    } else {
      var c := input[k];
      assert input[..k + 1] == input[..k] + [c];
      if IsDigit(c) {
        ReadsDigit(input[..k], amounts, number, c);
        ReadingPrefix(input, k + 1, all, rest, amounts, number + [c]);
      } else {
        UnitBehind(input, k, all, rest, amounts, number);
        ReadsUnit(input[..k], amounts, number, c);
        var more := amounts + [Amount(number, c)];
        ReadingPrefix(input, k + 1, all, rest, more, "");
        assert all[|amounts|] == more[|amounts|];
      }
    }
  }

  /** A character that is not a digit ends an amount in any reading of the text. */
  lemma {:induction false} UnitBehind(input: string, k: nat, all: seq<Amount>, rest: string, amounts: seq<Amount>, number: string)
    requires k < |input| && Reads(input, all, rest) && Reads(input[..k], amounts, number) && !IsDigit(input[k])
    ensures number != [] && UnitSeconds(input[k]) > 0
    decreases |input|
  {
    var last := |input| - 1;
    if k == last {
      DropUnit(input, all, rest);
      assert input[..k] == input[..last];
      ReadingUnique(input[..k], all[..|all| - 1], all[|all| - 1].digits, amounts, number);
      assert WellFormed(all[|all| - 1]);
    } else {
      var shorter := input[..last];
      assert shorter[..k] == input[..k] && shorter[k] == input[k];
      if IsDigit(input[last]) {
        DropDigit(input, all, rest);
        UnitBehind(shorter, k, all, rest[..|rest| - 1], amounts, number);
      } else {
        DropUnit(input, all, rest);
        UnitBehind(shorter, k, all[..|all| - 1], all[|all| - 1].digits, amounts, number);
      }
    }
  }

  /** Where the reader gives up, the text spells no duration that fits. */
  lemma CannotRead(input: string, k: nat, amounts: seq<Amount>, number: string)
    requires k < |input| && Reads(input[..k], amounts, number) && !IsDigit(input[k])
    requires number == [] || UnitSeconds(input[k]) == 0 || Number(number) >= U64 ||
             Number(number) * UnitSeconds(input[k]) >= U64 ||
             Total(amounts) + Number(number) * UnitSeconds(input[k]) >= U64
    ensures forall value: nat :: !Means(input, value)
  {
    forall value: nat | Means(input, value)
      ensures false
    {
      var all :| all != [] && Reads(input, all, "") && Total(all) == value < U64;
      UnitBehind(input, k, all, "", amounts, number);
      ReadingPrefix(input, k, all, "", amounts, number);
      ScaledUp(Number(number), UnitSeconds(input[k]));
    }
  }

  lemma ScaledUp(a: nat, b: nat)
    requires b > 0
    ensures a * b >= a
  {
  }

  lemma MeansUnique(text: string, a: nat, b: nat)
    requires Means(text, a) && Means(text, b)
    ensures a == b
  {
    var x :| x != [] && Reads(text, x, "") && Total(x) == a < U64;
    var y :| y != [] && Reads(text, y, "") && Total(y) == b < U64;
    ReadingUnique(text, x, "", y, "");
  }

  // ---------------------------------------------------------------------
  // Rules.

  /** The check period a rule states, or the default when it states none that can be read. */
  ghost function PeriodOf(text: Option<string>): (p: nat)
    ensures p < U64
  {
    if text.Some? && exists value: nat :: Means(text.value, value) then
      var value: nat :| Means(text.value, value);
      value
    else
      DEFAULT_CHECK_PERIOD
  }

  ghost function ActionOf(rule: SshRule): Action {
    if rule.action == "accept" then Accept else Check(PeriodOf(rule.checkPeriod))
  }

  /** The compiled form of one rule for the nodes that exist now. */
  ghost function CompileRule(names: Names, nodes: seq<CompileNode>, rule: SshRule): CompiledRule {
    var src := ResolveAll(names, rule.src);
    CompiledRule(set n | n in nodes && MatchesNode(src, n) :: n.id, src.wildcard || src.selfMatch, rule.users, ActionOf(rule))
  }

  /** The compiled rules of one destination, in policy order. */
  ghost function RulesFor(names: Names, nodes: seq<CompileNode>, rules: seq<SshRule>, dst: CompileNode): seq<CompiledRule> {
    if rules == [] then
      []
    else
      var before, rule := RulesFor(names, nodes, rules[..|rules| - 1], dst), rules[|rules| - 1];
      if MatchesNode(ResolveAll(names, rule.dst), dst) then before + [CompileRule(names, nodes, rule)] else before
  }

  method CompileAction(rule: SshRule) returns (a: Action)
    ensures a == ActionOf(rule)
  {
    if rule.action == "accept" {
      return Accept;
    }
    if rule.checkPeriod.None? {
      return Check(DEFAULT_CHECK_PERIOD);
    }
    var period := ParseDuration(rule.checkPeriod.value);
    if period.None? {
      return Check(DEFAULT_CHECK_PERIOD);
    }
    MeansUnique(rule.checkPeriod.value, period.value, PeriodOf(rule.checkPeriod));
    a := Check(period.value);
  }

  method MatchingIds(nodes: seq<CompileNode>, src: Resolved) returns (ids: set<int>)
    ensures ids == set n | n in nodes && MatchesNode(src, n) :: n.id
  {
    ids := {};
    for i := 0 to |nodes|
      invariant forall id :: id in ids <==> exists j :: 0 <= j < i && MatchesNode(src, nodes[j]) && nodes[j].id == id
    {
      if MatchesNode(src, nodes[i]) {
        ids := ids + {nodes[i].id};
      }
    }
    ghost var want := set n | n in nodes && MatchesNode(src, n) :: n.id;
    forall id
      ensures id in ids <==> id in want
    {
      if id in want {
        var n :| n in nodes && MatchesNode(src, n) && n.id == id;
        var j :| 0 <= j < |nodes| && nodes[j] == n;
      }
    }
  }

  lemma RulesForSnoc(names: Names, nodes: seq<CompileNode>, rules: seq<SshRule>, k: nat, dst: CompileNode)
    requires k < |rules|
    ensures RulesFor(names, nodes, rules[..k + 1], dst) == RulesFor(names, nodes, rules[..k], dst) +
              if MatchesNode(ResolveAll(names, rules[k].dst), dst) then [CompileRule(names, nodes, rules[k])] else []
  {
    assert rules[..k + 1][..k] == rules[..k];
  }

  /** Every node has an entry; a rule is appended to the entry of each node its destination matches. */
  method CompileSsh(names: Names, rules: seq<SshRule>, nodes: seq<CompileNode>) returns (m: map<int, seq<CompiledRule>>)
    requires UniqueIds(nodes)
    ensures forall id :: id in m <==> exists i :: 0 <= i < |nodes| && nodes[i].id == id
    ensures forall i :: 0 <= i < |nodes| ==> m[nodes[i].id] == RulesFor(names, nodes, rules, nodes[i])
  {
    var ctx := new Ctx(names);
    m := map[];
    for i := 0 to |nodes|
      invariant forall id :: id in m <==> exists j :: 0 <= j < i && nodes[j].id == id
      invariant forall id :: id in m ==> m[id] == []
    {
      if nodes[i].id !in m {
        m := m[nodes[i].id := []];
      }
    }
    for k := 0 to |rules|
      invariant ctx.names == names && ctx.resolvingGroups == {}
      invariant forall id :: id in m <==> exists i :: 0 <= i < |nodes| && nodes[i].id == id
      invariant forall i :: 0 <= i < |nodes| ==> m[nodes[i].id] == RulesFor(names, nodes, rules[..k], nodes[i])
    {
      var rule := rules[k];
      var src := ctx.ResolveTargets(rule.src);
      var dst := ctx.ResolveTargets(rule.dst);
      var srcNodes := MatchingIds(nodes, src);
      var action := CompileAction(rule);
      var compiled := CompiledRule(srcNodes, src.wildcard || src.selfMatch, rule.users, action);
      m := AppendWhere(nodes, dst, compiled, m);
      forall i | 0 <= i < |nodes|
        ensures m[nodes[i].id] == RulesFor(names, nodes, rules[..k + 1], nodes[i])
      {
        RulesForSnoc(names, nodes, rules, k, nodes[i]);
      }
    }
    assert rules[..|rules|] == rules;
  }

  method AppendWhere(nodes: seq<CompileNode>, dst: Resolved, c: CompiledRule, m: map<int, seq<CompiledRule>>)
      returns (out: map<int, seq<CompiledRule>>)
    requires UniqueIds(nodes) && forall i :: 0 <= i < |nodes| ==> nodes[i].id in m
    ensures out.Keys == m.Keys
    ensures forall i :: 0 <= i < |nodes| ==> out[nodes[i].id] == m[nodes[i].id] + if MatchesNode(dst, nodes[i]) then [c] else []
  {
    out := m;
    for i := 0 to |nodes|
      invariant out.Keys == m.Keys
      invariant forall j :: 0 <= j < i ==> out[nodes[j].id] == m[nodes[j].id] + if MatchesNode(dst, nodes[j]) then [c] else []
      invariant forall j :: i <= j < |nodes| ==> out[nodes[j].id] == m[nodes[j].id]
    {
      if MatchesNode(dst, nodes[i]) {
        out := out[nodes[i].id := out[nodes[i].id] + [c]];
      }
    }
  }

  // ---------------------------------------------------------------------
  // Evaluation.

  predicate UserAllowed(users: seq<string>, user: string) {
    users == [] || exists i :: 0 <= i < |users| && (users[i] == user || users[i] == "*")
  }

  predicate Permits(c: CompiledRule, src: int, user: string) {
    (c.srcAll || src in c.srcNodes) && UserAllowed(c.users, user)
  }

  /** The first rule of a list that permits the connection. */
  ghost predicate IsFirst(rules: seq<CompiledRule>, src: int, user: string, r: Option<CompiledRule>) {
    match r
    case None => forall i :: 0 <= i < |rules| ==> !Permits(rules[i], src, user)
    case Some(c) => exists i :: 0 <= i < |rules| && rules[i] == c && Permits(c, src, user) &&
                                forall j :: 0 <= j < i ==> !Permits(rules[j], src, user)
  }

  method FirstMatching(m: map<int, seq<CompiledRule>>, src: int, dst: int, user: string) returns (r: Option<CompiledRule>)
    ensures dst in m ==> IsFirst(m[dst], src, user, r)
    ensures dst !in m ==> r == None
  {
    if dst !in m {
      return None;
    }
    var rules := m[dst];
    for i := 0 to |rules|
      invariant forall j :: 0 <= j < i ==> !Permits(rules[j], src, user)
    {
      if Permits(rules[i], src, user) {
        return Some(rules[i]);
      }
    }
    r := None;
  }

  /** The meaning of one rule for one connection, straight from the policy text. */
  ghost predicate Applies(names: Names, nodes: seq<CompileNode>, rule: SshRule, src: int, dst: CompileNode, user: string) {
    && MatchesNode(ResolveAll(names, rule.dst), dst)
    && UserAllowed(rule.users, user)
    && SourceApplies(ResolveAll(names, rule.src), nodes, src)
  }

  ghost predicate SourceApplies(r: Resolved, nodes: seq<CompileNode>, src: int) {
    r.wildcard || r.selfMatch || exists n :: n in nodes && n.id == src && MatchesNode(r, n)
  }

  /** The naive scan: the first rule of the whole policy, in order, that applies to the connection. */
  ghost predicate Decides(names: Names, nodes: seq<CompileNode>, rules: seq<SshRule>, src: int, dst: CompileNode, user: string, i: int) {
    && 0 <= i < |rules| && Applies(names, nodes, rules[i], src, dst, user)
    && forall j :: 0 <= j < i ==> !Applies(names, nodes, rules[j], src, dst, user)
  }

  lemma PermitsIsApplies(names: Names, nodes: seq<CompileNode>, rule: SshRule, src: int, dst: CompileNode, user: string)
    requires MatchesNode(ResolveAll(names, rule.dst), dst)
    ensures Permits(CompileRule(names, nodes, rule), src, user) <==> Applies(names, nodes, rule, src, dst, user)
  {
    var c := CompileRule(names, nodes, rule);
    assert src in c.srcNodes <==> exists n :: n in nodes && n.id == src && MatchesNode(ResolveAll(names, rule.src), n);
  }

  /** Some entry before the end of the list permits the connection. */
  ghost predicate AnyPermits(rules: seq<CompiledRule>, src: int, user: string) {
    exists i :: 0 <= i < |rules| && Permits(rules[i], src, user)
  }

  /** The per-destination list and the naive scan of the policy choose the same rule for every connection. */
  /** The answer of a scan of the policy in order: the first rule that applies, compiled, or none. */
  ghost predicate ScanAnswers(names: Names, nodes: seq<CompileNode>, rules: seq<SshRule>, src: int, dst: CompileNode, user: string,
                              r: Option<CompiledRule>)
  {
    && (r.None? ==> forall i :: 0 <= i < |rules| ==> !Applies(names, nodes, rules[i], src, dst, user))
    && (r.Some? ==> exists i :: Decides(names, nodes, rules, src, dst, user, i) && r.value == CompileRule(names, nodes, rules[i]))
  }

  lemma {:induction false} FirstMatchIsNaiveScan(names: Names, nodes: seq<CompileNode>, rules: seq<SshRule>, src: int, dst: CompileNode,
                                                 user: string, r: Option<CompiledRule>)
    requires IsFirst(RulesFor(names, nodes, rules, dst), src, user, r)
    ensures ScanAnswers(names, nodes, rules, src, dst, user, r)
    decreases |rules|
  {
    if rules != [] {
      var n := |rules| - 1;
      var before, last := rules[..n], rules[n];
      var list := RulesFor(names, nodes, before, dst);
      if MatchesNode(ResolveAll(names, last.dst), dst) {
        PermitsIsApplies(names, nodes, last, src, dst, user);
        var c := CompileRule(names, nodes, last);
        FirstAppended(list, c, src, user, r);
        if AnyPermits(list, src, user) || !Permits(c, src, user) {
          FirstMatchIsNaiveScan(names, nodes, before, src, dst, user, r);
          ScanExtends(names, nodes, rules, src, dst, user, r);
        } else {
          FirstMatchIsNaiveScan(names, nodes, before, src, dst, user, None);
          ScanDecides(names, nodes, rules, src, dst, user);
        }
      } else {
        FirstMatchIsNaiveScan(names, nodes, before, src, dst, user, r);
        ScanExtends(names, nodes, rules, src, dst, user, r);
      }
    }
  }

  lemma FirstAppended(list: seq<CompiledRule>, c: CompiledRule, src: int, user: string, r: Option<CompiledRule>)
    requires IsFirst(list + [c], src, user, r)
    ensures AnyPermits(list, src, user) || !Permits(c, src, user) ==> IsFirst(list, src, user, r)
    ensures !AnyPermits(list, src, user) ==> IsFirst(list, src, user, None)
    ensures !AnyPermits(list, src, user) && Permits(c, src, user) ==> r == Some(c)
  {
    var all := list + [c];
    assert all[|list|] == c;
    assert forall i :: 0 <= i < |list| ==> all[i] == list[i];
  }

  lemma ScanDecides(names: Names, nodes: seq<CompileNode>, rules: seq<SshRule>, src: int, dst: CompileNode, user: string)
    requires rules != [] && ScanAnswers(names, nodes, rules[..|rules| - 1], src, dst, user, None)
    requires Applies(names, nodes, rules[|rules| - 1], src, dst, user)
    ensures ScanAnswers(names, nodes, rules, src, dst, user, Some(CompileRule(names, nodes, rules[|rules| - 1])))
  {
    var n := |rules| - 1;
    assert forall i :: 0 <= i < n ==> rules[..n][i] == rules[i];
    assert Decides(names, nodes, rules, src, dst, user, n);
  }

  lemma ScanExtends(names: Names, nodes: seq<CompileNode>, rules: seq<SshRule>, src: int, dst: CompileNode, user: string, r: Option<CompiledRule>)
    requires rules != [] && ScanAnswers(names, nodes, rules[..|rules| - 1], src, dst, user, r)
    requires r.None? ==> !Applies(names, nodes, rules[|rules| - 1], src, dst, user)
    ensures ScanAnswers(names, nodes, rules, src, dst, user, r)
  {
    var before := rules[..|rules| - 1];
    assert rules == before + [rules[|rules| - 1]];
    if r.Some? {
      var i :| Decides(names, nodes, before, src, dst, user, i) && r.value == CompileRule(names, nodes, before[i]);
      assert Decides(names, nodes, rules, src, dst, user, i);
    }
  }
}
