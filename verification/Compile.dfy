/** The access-control compiler (crabscale-policy/src/compile.rs). */
module Compile {
  import opened Ordered
  import opened Net
  import opened Groups

  datatype CompileNode = CompileNode(id: int, login: Option<string>, addresses: seq<Cidr>, tags: seq<string>)

  datatype PortRange = PortRange(first: nat, last: nat)

  const ALL_PORTS := [PortRange(0, 65535)]

  /** One entry of a rule's source list: everything, or a prefix. */
  datatype SrcIp = AnySource | From(net: Cidr)

  datatype CapGrant = CapGrant(dsts: seq<Cidr>, capMap: map<string, seq<string>>)

  /** A packet filter rule; the sorted, duplicate-free source list is kept as a set. */
  datatype FilterRule = FilterRule(
    srcIps: set<SrcIp>,
    dstPorts: seq<PortRange>,
    ipProto: Option<seq<int>>,
    capGrant: seq<CapGrant>)

  /** A parsed destination: `*`, or a host part with its port ranges. */
  datatype Dst = Everywhere | At(host: Target, ports: seq<PortRange>)

  datatype Acl = Acl(src: seq<Target>, dst: seq<Dst>, proto: Option<seq<int>>)

  datatype Grant = Grant(src: seq<Target>, dst: seq<Dst>, app: map<string, seq<string>>)

  datatype Policy = Policy(names: Names, acls: seq<Acl>, grants: seq<Grant>)

  predicate HasIdentity(n: CompileNode, texts: set<string>) {
    (n.login.Some? && n.login.value in texts) || exists i :: 0 <= i < |n.tags| && n.tags[i] in texts
  }

  predicate AutoMatch(r: Resolved, n: CompileNode) {
    r.selfMatch || (r.memberMatch && n.tags == []) || (r.taggedMatch && n.tags != [])
  }

  predicate NetMatch(r: Resolved, n: CompileNode) {
    exists net, i :: net in r.nets && 0 <= i < |n.addresses| && AddrInCidr(n.addresses[i], net)
  }

  predicate MatchesNode(r: Resolved, n: CompileNode) {
    r.wildcard || AutoMatch(r, n) || HasIdentity(n, r.identities) || NetMatch(r, n)
  }

  predicate Contributes(r: Resolved, n: CompileNode) {
    AutoMatch(r, n) || HasIdentity(n, r.identities)
  }

  /** The source list emitted for a resolved source. */
  ghost function ToSrcIps(r: Resolved, nodes: seq<CompileNode>): set<SrcIp> {
    if r.wildcard then
      {AnySource}
    else
      (set net | net in r.nets :: From(net)) +
      (set n, a | n in nodes && Contributes(r, n) && a in n.addresses :: From(a))
  }

  datatype DstTarget = DstTarget(target: Resolved, ports: seq<PortRange>, wildcard: bool)

  function ParseDst(names: Names, d: Dst): DstTarget {
    match d
    case Everywhere => DstTarget(NOTHING, ALL_PORTS, true)
    case At(host, ports) => DstTarget(ResolveBare(names, host), ports, false)
  }

  predicate DstMatches(d: DstTarget, n: CompileNode) {
    d.wildcard || MatchesNode(d.target, n)
  }

  /** One compiled network rule with the source and destination it came from. */
  datatype Entry = Entry(filter: FilterRule, src: Resolved, dst: DstTarget)

  ghost function MakeEntry(p: Policy, nodes: seq<CompileNode>, acl: Acl, d: Dst): Entry {
    var src, dst := ResolveAll(p.names, acl.src), ParseDst(p.names, d);
    Entry(FilterRule(ToSrcIps(src, nodes), dst.ports, acl.proto, []), src, dst)
  }

  ghost function DstEntries(p: Policy, nodes: seq<CompileNode>, acl: Acl, ds: seq<Dst>): seq<Entry> {
    if ds == [] then [] else DstEntries(p, nodes, acl, ds[..|ds| - 1]) + [MakeEntry(p, nodes, acl, ds[|ds| - 1])]
  }

  /** A rule whose source list is empty compiles to nothing. */
  ghost function AclEntries(p: Policy, nodes: seq<CompileNode>, acl: Acl): seq<Entry> {
    if ToSrcIps(ResolveAll(p.names, acl.src), nodes) == {} then [] else DstEntries(p, nodes, acl, acl.dst)
  }

  ghost function Entries(p: Policy, nodes: seq<CompileNode>, acls: seq<Acl>): seq<Entry> {
    if acls == [] then [] else Entries(p, nodes, acls[..|acls| - 1]) + AclEntries(p, nodes, acls[|acls| - 1])
  }

  /** The rules of the entries whose destination is the node. */
  ghost function NetworkRules(es: seq<Entry>, n: CompileNode): seq<FilterRule> {
    if es == [] then
      []
    else
      NetworkRules(es[..|es| - 1], n) + (if DstMatches(es[|es| - 1].dst, n) then [es[|es| - 1].filter] else [])
  }

  predicate GrantReaches(names: Names, g: Grant, n: CompileNode) {
    exists i :: 0 <= i < |g.dst| && DstMatches(ParseDst(names, g.dst[i]), n)
  }

  ghost function GrantRule(p: Policy, nodes: seq<CompileNode>, g: Grant, n: CompileNode): FilterRule {
    FilterRule(ToSrcIps(ResolveAll(p.names, g.src), nodes), [], None, [CapGrant(n.addresses, g.app)])
  }

  ghost function GrantRules(p: Policy, nodes: seq<CompileNode>, gs: seq<Grant>, n: CompileNode): seq<FilterRule> {
    if gs == [] then
      []
    else
      var rest, g := GrantRules(p, nodes, gs[..|gs| - 1], n), gs[|gs| - 1];
      if ToSrcIps(ResolveAll(p.names, g.src), nodes) != {} && GrantReaches(p.names, g, n)
      then rest + [GrantRule(p, nodes, g, n)] else rest
  }

  ghost function NodeFilter(p: Policy, nodes: seq<CompileNode>, n: CompileNode): seq<FilterRule> {
    NetworkRules(Entries(p, nodes, p.acls), n) + GrantRules(p, nodes, p.grants, n)
  }

  // ---------------------------------------------------------------------
  // Packets, as filters decide them and as the policy text means them.

  /** A packet by source address, destination port and protocol. */
  datatype Packet = Packet(source: Cidr, port: nat, proto: int)

  ghost predicate Covers(ips: set<SrcIp>, a: Cidr) {
    AnySource in ips || exists net :: From(net) in ips && AddrInCidr(a, net)
  }

  ghost predicate PortIn(ports: seq<PortRange>, port: nat) {
    exists i :: 0 <= i < |ports| && ports[i].first <= port <= ports[i].last
  }

  /** No protocol list means TCP, UDP and ICMP. */
  predicate ProtoIn(protos: Option<seq<int>>, proto: int) {
    if protos.Some? then proto in protos.value else proto in {1, 6, 17, 58}
  }

  ghost predicate RuleAdmits(rule: FilterRule, pkt: Packet) {
    Covers(rule.srcIps, pkt.source) && PortIn(rule.dstPorts, pkt.port) && ProtoIn(rule.ipProto, pkt.proto)
  }

  ghost predicate FilterAdmits(rules: seq<FilterRule>, pkt: Packet) {
    exists i :: 0 <= i < |rules| && RuleAdmits(rules[i], pkt)
  }

  /** The autogroup marker of a target, as a property of nodes. */
  predicate AutoNode(t: Target, n: CompileNode) {
    t.AutoSelf? || (t.AutoMember? && n.tags == []) || (t.AutoTagged? && n.tags != [])
  }

  ghost predicate HasAddress(n: CompileNode, a: Cidr) {
    exists b :: b in n.addresses && AddrInCidr(a, b)
  }

  /** What a fact says about a source address. */
  ghost predicate FactCovers(nodes: seq<CompileNode>, f: Fact, a: Cidr) {
    match f
    case AnyNode => true
    case Within(net) => AddrInCidr(a, net)
    case Identity(text) => exists n :: n in nodes && HasIdentity(n, {text}) && HasAddress(n, a)
  }

  /** A source target means an address: some reachable fact, or some node of its autogroup, has it. */
  ghost predicate TargetCovers(names: Names, nodes: seq<CompileNode>, t: Target, a: Cidr) {
    (exists f :: Reaches(names, t, f) && FactCovers(nodes, f, a)) ||
    (exists n :: n in nodes && AutoNode(t, n) && HasAddress(n, a))
  }

  ghost predicate FactSelects(f: Fact, n: CompileNode) {
    match f
    case AnyNode => true
    case Within(net) => exists i :: 0 <= i < |n.addresses| && AddrInCidr(n.addresses[i], net)
    case Identity(text) => HasIdentity(n, {text})
  }

  ghost predicate TargetSelects(names: Names, t: Target, n: CompileNode) {
    AutoNode(t, n) || exists f :: Reaches(names, t, f) && FactSelects(f, n)
  }

  function Trimmed(t: Target): Target {
    if t.Group? then Group(TrimGroup(t.name)) else t
  }

  ghost predicate DstSelects(names: Names, d: Dst, n: CompileNode) {
    d.Everywhere? || TargetSelects(names, Trimmed(d.host), n)
  }

  function DstPorts(d: Dst): seq<PortRange> {
    if d.Everywhere? then ALL_PORTS else d.ports
  }

  /** One access rule with one of its destinations lets a packet through to a node. */
  ghost predicate AclAllows(p: Policy, nodes: seq<CompileNode>, acl: Acl, d: Dst, n: CompileNode, pkt: Packet) {
    && (exists t :: t in acl.src && TargetCovers(p.names, nodes, t, pkt.source))
    && DstSelects(p.names, d, n)
    && PortIn(DstPorts(d), pkt.port)
    && ProtoIn(acl.proto, pkt.proto)
  }

  ghost predicate PolicyAllows(p: Policy, nodes: seq<CompileNode>, n: CompileNode, pkt: Packet) {
    exists acl, d :: acl in p.acls && d in acl.dst && AclAllows(p, nodes, acl, d, n, pkt)
  }

  // ---------------------------------------------------------------------
  // Resolved targets mean what their facts mean.

  lemma {:induction false} AllSay(names: Names, ts: seq<Target>, f: Fact)
    ensures Says(ResolveAll(names, ts), f) <==> exists t :: t in ts && Reaches(names, t, f)
    decreases |ts|
  {
    if ts != [] {
      var front, last := ts[..|ts| - 1], ts[|ts| - 1];
      assert ts == front + [last];
      AllSay(names, front, f);
      ResolveIsReachability(names, last, f);
    }
  }

  lemma {:induction false} AllAuto(names: Names, ts: seq<Target>, n: CompileNode)
    ensures AutoMatch(ResolveAll(names, ts), n) <==> exists t :: t in ts && AutoNode(t, n)
    decreases |ts|
  {
    if ts != [] {
      var front, last := ts[..|ts| - 1], ts[|ts| - 1];
      assert ts == front + [last];
      AllAuto(names, front, n);
      ResolveAuto(names, last, n);
    }
  }

  lemma {:induction false} MembersDropAuto(names: Names, ms: seq<Target>, busy: set<string>)
    ensures var r := ResolveMembers(names, ms, busy);
            !r.selfMatch && !r.memberMatch && !r.taggedMatch
    decreases |ms|
  {
    if ms != [] {
      MembersDropAuto(names, ms[..|ms| - 1], busy);
    }
  }

  lemma ResolveAuto(names: Names, t: Target, n: CompileNode)
    ensures AutoMatch(Resolve(names, t, {}), n) <==> AutoNode(t, n)
  {
    if t.Group? && t.name in names.groups {
      MembersDropAuto(names, names.groups[t.name], {t.name});
      assert {} + {t.name} == {t.name};
    }
  }

  lemma BareAuto(names: Names, t: Target, n: CompileNode)
    ensures AutoMatch(ResolveBare(names, t), n) <==> AutoNode(t, n)
  {
    if t.Group? && TrimGroup(t.name) in names.groups {
      MembersDropAuto(names, names.groups[TrimGroup(t.name)], {});
    }
  }

  lemma IdentityBySingles(n: CompileNode, texts: set<string>)
    ensures HasIdentity(n, texts) <==> exists x :: x in texts && HasIdentity(n, {x})
  {
    if HasIdentity(n, texts) {
      if n.login.Some? && n.login.value in texts {
        assert HasIdentity(n, {n.login.value});
      } else {
        var i :| 0 <= i < |n.tags| && n.tags[i] in texts;
        assert HasIdentity(n, {n.tags[i]});
      }
    }
  }

  /** Matching a node by a resolved target is matching it by some fact or autogroup marker. */
  lemma MatchByFacts(r: Resolved, n: CompileNode)
    ensures MatchesNode(r, n) <==> AutoMatch(r, n) || exists f :: Says(r, f) && FactSelects(f, n)
  {
    IdentityBySingles(n, r.identities);
    if r.wildcard {
      assert Says(r, AnyNode) && FactSelects(AnyNode, n);
    } else if HasIdentity(n, r.identities) {
      var x :| x in r.identities && HasIdentity(n, {x});
      assert Says(r, Identity(x)) && FactSelects(Identity(x), n);
    } else if NetMatch(r, n) {
      var net, i :| net in r.nets && 0 <= i < |n.addresses| && AddrInCidr(n.addresses[i], net);
      assert Says(r, Within(net)) && FactSelects(Within(net), n);
    }
  }

  ghost predicate ContributorHas(r: Resolved, nodes: seq<CompileNode>, a: Cidr) {
    exists n :: n in nodes && Contributes(r, n) && HasAddress(n, a)
  }

  lemma CoversPlain(r: Resolved, nodes: seq<CompileNode>, a: Cidr)
    requires !r.wildcard
    ensures Covers(ToSrcIps(r, nodes), a) <==> (exists net :: net in r.nets && AddrInCidr(a, net)) || ContributorHas(r, nodes, a)
  {
    var ips := ToSrcIps(r, nodes);
    if Covers(ips, a) {
      var net :| From(net) in ips && AddrInCidr(a, net);
      if net !in r.nets {
        var n, b :| n in nodes && Contributes(r, n) && b in n.addresses && From(b) == From(net);
        assert HasAddress(n, a);
      }
    }
    if ContributorHas(r, nodes, a) {
      var n :| n in nodes && Contributes(r, n) && HasAddress(n, a);
      var b :| b in n.addresses && AddrInCidr(a, b);
      assert From(b) in ips;
    }
    if exists net :: net in r.nets && AddrInCidr(a, net) {
      var net :| net in r.nets && AddrInCidr(a, net);
      assert From(net) in ips;
    }
  }

  lemma ContributorByFacts(r: Resolved, nodes: seq<CompileNode>, a: Cidr)
    ensures ContributorHas(r, nodes, a) <==>
            (exists n :: n in nodes && AutoMatch(r, n) && HasAddress(n, a)) ||
            (exists x :: x in r.identities && FactCovers(nodes, Identity(x), a))
  {
    if ContributorHas(r, nodes, a) {
      var n :| n in nodes && Contributes(r, n) && HasAddress(n, a);
      if !AutoMatch(r, n) {
        IdentityBySingles(n, r.identities);
        var x :| x in r.identities && HasIdentity(n, {x});
        assert FactCovers(nodes, Identity(x), a);
      }
    }
    if exists x :: x in r.identities && FactCovers(nodes, Identity(x), a) {
      var x :| x in r.identities && FactCovers(nodes, Identity(x), a);
      var n :| n in nodes && HasIdentity(n, {x}) && HasAddress(n, a);
      IdentityBySingles(n, r.identities);
    }
  }

  /** A source list covers an address exactly when some fact or autogroup marker does. */
  lemma CoversByFacts(r: Resolved, nodes: seq<CompileNode>, a: Cidr)
    ensures Covers(ToSrcIps(r, nodes), a) <==>
            (exists n :: n in nodes && AutoMatch(r, n) && HasAddress(n, a)) ||
            (exists f :: Says(r, f) && FactCovers(nodes, f, a))
  {
    if r.wildcard {
      assert Says(r, AnyNode) && FactCovers(nodes, AnyNode, a);
    } else {
      CoversPlain(r, nodes, a);
      ContributorByFacts(r, nodes, a);
      if exists net :: net in r.nets && AddrInCidr(a, net) {
        var net :| net in r.nets && AddrInCidr(a, net);
        assert Says(r, Within(net)) && FactCovers(nodes, Within(net), a);
      }
      if exists x :: x in r.identities && FactCovers(nodes, Identity(x), a) {
        var x :| x in r.identities && FactCovers(nodes, Identity(x), a);
        assert Says(r, Identity(x));
      }
      if exists f :: Says(r, f) && FactCovers(nodes, f, a) {
        var f :| Says(r, f) && FactCovers(nodes, f, a);
        match f
        case AnyNode =>
        case Within(net) => assert net in r.nets && AddrInCidr(a, net);
        case Identity(x) => assert x in r.identities;
      }
    }
  }

  /** The emitted source list means exactly what the rule's source targets mean. */
  lemma SourceMeaning(names: Names, nodes: seq<CompileNode>, ts: seq<Target>, a: Cidr)
    ensures Covers(ToSrcIps(ResolveAll(names, ts), nodes), a) <==> exists t :: t in ts && TargetCovers(names, nodes, t, a)
  {
    var r := ResolveAll(names, ts);
    CoversByFacts(r, nodes, a);
    if exists n :: n in nodes && AutoMatch(r, n) && HasAddress(n, a) {
      var n :| n in nodes && AutoMatch(r, n) && HasAddress(n, a);
      AllAuto(names, ts, n);
      var t :| t in ts && AutoNode(t, n);
      assert TargetCovers(names, nodes, t, a);
    }
    if exists f :: Says(r, f) && FactCovers(nodes, f, a) {
      var f :| Says(r, f) && FactCovers(nodes, f, a);
      AllSay(names, ts, f);
      var t :| t in ts && Reaches(names, t, f);
      assert TargetCovers(names, nodes, t, a);
    }
    if exists t :: t in ts && TargetCovers(names, nodes, t, a) {
      var t :| t in ts && TargetCovers(names, nodes, t, a);
      if f :| Reaches(names, t, f) && FactCovers(nodes, f, a) {
        AllSay(names, ts, f);
      } else {
        var n :| n in nodes && AutoNode(t, n) && HasAddress(n, a);
        AllAuto(names, ts, n);
      }
    }
  }

  /** A compiled destination matches exactly the nodes its text selects. */
  lemma DestinationMeaning(names: Names, d: Dst, n: CompileNode)
    ensures DstMatches(ParseDst(names, d), n) <==> DstSelects(names, d, n)
  {
    if d.At? {
      var r := ResolveBare(names, d.host);
      MatchByFacts(r, n);
      BareAuto(names, d.host, n);
      forall f
        ensures Says(r, f) <==> Reaches(names, Trimmed(d.host), f)
      {
        BareIsReachability(names, d.host, f);
      }
    }
  }

  lemma {:induction false} DstEntriesAre(p: Policy, nodes: seq<CompileNode>, acl: Acl, ds: seq<Dst>, e: Entry)
    ensures e in DstEntries(p, nodes, acl, ds) <==> exists d :: d in ds && e == MakeEntry(p, nodes, acl, d)
    decreases |ds|
  {
    if ds != [] {
      assert ds == ds[..|ds| - 1] + [ds[|ds| - 1]];
      DstEntriesAre(p, nodes, acl, ds[..|ds| - 1], e);
    }
  }

  /** The compiled entries are one per rule and destination, except for rules with an empty source list. */
  ghost predicate Compiles(p: Policy, nodes: seq<CompileNode>, acl: Acl, d: Dst, e: Entry) {
    d in acl.dst && e == MakeEntry(p, nodes, acl, d) && e.filter.srcIps != {}
  }

  lemma {:induction false} EntriesAre(p: Policy, nodes: seq<CompileNode>, acls: seq<Acl>, e: Entry)
    ensures e in Entries(p, nodes, acls) <==> exists acl, d :: acl in acls && Compiles(p, nodes, acl, d, e)
    decreases |acls|
  {
    if acls != [] {
      var front, last := acls[..|acls| - 1], acls[|acls| - 1];
      assert acls == front + [last];
      EntriesAre(p, nodes, front, e);
      DstEntriesAre(p, nodes, last, last.dst, e);
      if e in AclEntries(p, nodes, last) {
        var d :| d in last.dst && e == MakeEntry(p, nodes, last, d);
        assert Compiles(p, nodes, last, d, e);
      }
    }
  }

  lemma {:induction false} NetworkRulesAre(es: seq<Entry>, n: CompileNode, rule: FilterRule)
    ensures rule in NetworkRules(es, n) <==> exists e :: e in es && DstMatches(e.dst, n) && e.filter == rule
    decreases |es|
  {
    if es != [] {
      assert es == es[..|es| - 1] + [es[|es| - 1]];
      NetworkRulesAre(es[..|es| - 1], n, rule);
    }
  }

  lemma {:induction false} GrantRulesCarryGrants(p: Policy, nodes: seq<CompileNode>, gs: seq<Grant>, n: CompileNode, rule: FilterRule)
    requires rule in GrantRules(p, nodes, gs, n)
    ensures rule.dstPorts == [] && rule.capGrant != []
    decreases |gs|
  {
    if rule in GrantRules(p, nodes, gs[..|gs| - 1], n) {
      GrantRulesCarryGrants(p, nodes, gs[..|gs| - 1], n, rule);
    }
  }

  lemma EntryAdmits(p: Policy, nodes: seq<CompileNode>, acl: Acl, d: Dst, n: CompileNode, pkt: Packet)
    ensures var e := MakeEntry(p, nodes, acl, d);
            RuleAdmits(e.filter, pkt) && DstMatches(e.dst, n) <==> AclAllows(p, nodes, acl, d, n, pkt)
  {
    SourceMeaning(p.names, nodes, acl.src, pkt.source);
    DestinationMeaning(p.names, d, n);
  }

  /**
   * Compilation preserves meaning: for every policy, node set, node and packet, the node's compiled
   * filter admits the packet exactly when some access rule with some destination allows it.
   */
  lemma CompilationPreservesMeaning(p: Policy, nodes: seq<CompileNode>, n: CompileNode, pkt: Packet)
    ensures FilterAdmits(NodeFilter(p, nodes, n), pkt) <==> PolicyAllows(p, nodes, n, pkt)
  {
    var rules, es := NodeFilter(p, nodes, n), Entries(p, nodes, p.acls);
    if FilterAdmits(rules, pkt) {
      var i :| 0 <= i < |rules| && RuleAdmits(rules[i], pkt);
      var rule := rules[i];
      assert rule in rules;
      if rule in GrantRules(p, nodes, p.grants, n) {
        GrantRulesCarryGrants(p, nodes, p.grants, n, rule);
      }
      assert rule in NetworkRules(es, n);
      NetworkRulesAre(es, n, rule);
      var e :| e in es && DstMatches(e.dst, n) && e.filter == rule;
      EntriesAre(p, nodes, p.acls, e);
      var acl, d :| acl in p.acls && Compiles(p, nodes, acl, d, e);
      EntryAdmits(p, nodes, acl, d, n, pkt);
    }
    if PolicyAllows(p, nodes, n, pkt) {
      var acl, d :| acl in p.acls && d in acl.dst && AclAllows(p, nodes, acl, d, n, pkt);
      var e := MakeEntry(p, nodes, acl, d);
      EntryAdmits(p, nodes, acl, d, n, pkt);
      assert e.filter.srcIps != {};
      assert Compiles(p, nodes, acl, d, e);
      EntriesAre(p, nodes, p.acls, e);
      NetworkRulesAre(es, n, e.filter);
      assert e.filter in rules;
      var i :| 0 <= i < |rules| && rules[i] == e.filter;
      assert RuleAdmits(rules[i], pkt);
    }
  }

  // ---------------------------------------------------------------------
  // Peer visibility.

  ghost predicate CanReach(es: seq<Entry>, s: CompileNode, d: CompileNode) {
    exists e :: e in es && MatchesNode(e.src, s) && DstMatches(e.dst, d)
  }

  /** Who a node sees: every other node it can reach or that can reach it. */
  ghost function VisibleTo(es: seq<Entry>, nodes: seq<CompileNode>, n: CompileNode): set<int> {
    set m | m in nodes && m.id != n.id && (CanReach(es, n, m) || CanReach(es, m, n)) :: m.id
  }

  ghost predicate UniqueIds(nodes: seq<CompileNode>) {
    forall i, j :: 0 <= i < j < |nodes| ==> nodes[i].id != nodes[j].id
  }

  /** Every node has an address, every address is a single host, and no two nodes share one. */
  ghost predicate HostAddresses(nodes: seq<CompileNode>) {
    && (forall n :: n in nodes ==> n.addresses != [])
    && (forall n, a :: n in nodes && a in n.addresses ==> a.bits == Width(a.v6))
    && (forall n, m, a, b :: n in nodes && m in nodes && a in n.addresses && b in m.addresses && a.v6 == b.v6 && a.addr == b.addr ==> n == m)
  }

  lemma HostMembership(a: Cidr, b: Cidr)
    requires b.bits == Width(b.v6)
    ensures AddrInCidr(a, b) <==> a.v6 == b.v6 && a.addr == b.addr
  {
    assert Pow2(0) == 1;
  }

  ghost predicate CoversNode(ips: set<SrcIp>, n: CompileNode) {
    exists a :: a in n.addresses && Covers(ips, a)
  }

  lemma CoveredOnlyByItself(r: Resolved, nodes: seq<CompileNode>, n: CompileNode, a: Cidr)
    requires HostAddresses(nodes) && n in nodes && a in n.addresses && ContributorHas(r, nodes, a)
    ensures Contributes(r, n)
  {
    var m :| m in nodes && Contributes(r, m) && HasAddress(m, a);
    var b :| b in m.addresses && AddrInCidr(a, b);
    HostMembership(a, b);
    assert n == m;
  }

  lemma MatchedIsCovered(r: Resolved, nodes: seq<CompileNode>, n: CompileNode)
    requires HostAddresses(nodes) && n in nodes && !r.wildcard && MatchesNode(r, n)
    ensures CoversNode(ToSrcIps(r, nodes), n)
  {
    var a := MatchedAddress(r, n);
    CoversPlain(r, nodes, a);
    if Contributes(r, n) {
      HostMembership(a, a);
      assert HasAddress(n, a);
    }
  }

  lemma CoveredIsMatched(r: Resolved, nodes: seq<CompileNode>, n: CompileNode, a: Cidr)
    requires HostAddresses(nodes) && n in nodes && !r.wildcard
    requires a in n.addresses && Covers(ToSrcIps(r, nodes), a)
    ensures MatchesNode(r, n)
  {
    CoversPlain(r, nodes, a);
    if ContributorHas(r, nodes, a) {
      CoveredOnlyByItself(r, nodes, n, a);
    } else {
      var i :| 0 <= i < |n.addresses| && n.addresses[i] == a;
    }
  }

  /** A source list covers an address of a node exactly when the source matches the node. */
  lemma SourceMatchIsCover(r: Resolved, nodes: seq<CompileNode>, n: CompileNode)
    requires HostAddresses(nodes) && n in nodes
    ensures CoversNode(ToSrcIps(r, nodes), n) <==> MatchesNode(r, n)
  {
    if r.wildcard {
      assert n.addresses[0] in n.addresses;
    } else {
      if MatchesNode(r, n) {
        MatchedIsCovered(r, nodes, n);
      }
      if CoversNode(ToSrcIps(r, nodes), n) {
        var a :| a in n.addresses && Covers(ToSrcIps(r, nodes), a);
        CoveredIsMatched(r, nodes, n, a);
      }
    }
  }

  ghost function MatchedAddress(r: Resolved, n: CompileNode): (a: Cidr)
    requires n.addresses != []
    ensures a in n.addresses
    ensures NetMatch(r, n) && !Contributes(r, n) ==> exists net :: net in r.nets && AddrInCidr(a, net)
  {
    if NetMatch(r, n) && !Contributes(r, n) then
      var net, i :| net in r.nets && 0 <= i < |n.addresses| && AddrInCidr(n.addresses[i], net);
      n.addresses[i]
    else
      n.addresses[0]
  }

  /** A network rule in the destination's filter covers the source. */
  ghost predicate FilterCovers(p: Policy, nodes: seq<CompileNode>, s: CompileNode, d: CompileNode) {
    exists rule :: rule in NodeFilter(p, nodes, d) && rule.capGrant == [] && CoversNode(rule.srcIps, s)
  }

  lemma ReachIsFilterCover(p: Policy, nodes: seq<CompileNode>, s: CompileNode, d: CompileNode)
    requires HostAddresses(nodes) && s in nodes
    ensures CanReach(Entries(p, nodes, p.acls), s, d) <==> FilterCovers(p, nodes, s, d)
  {
    var es := Entries(p, nodes, p.acls);
    if CanReach(es, s, d) {
      var e :| e in es && MatchesNode(e.src, s) && DstMatches(e.dst, d);
      EntriesAre(p, nodes, p.acls, e);
      SourceMatchIsCover(e.src, nodes, s);
      NetworkRulesAre(es, d, e.filter);
      assert e.filter in NodeFilter(p, nodes, d);
    }
    if FilterCovers(p, nodes, s, d) {
      var rule :| rule in NodeFilter(p, nodes, d) && rule.capGrant == [] && CoversNode(rule.srcIps, s);
      if rule in GrantRules(p, nodes, p.grants, d) {
        GrantRulesCarryGrants(p, nodes, p.grants, d, rule);
      }
      NetworkRulesAre(es, d, rule);
      var e :| e in es && DstMatches(e.dst, d) && e.filter == rule;
      EntriesAre(p, nodes, p.acls, e);
      SourceMatchIsCover(e.src, nodes, s);
    }
  }

  lemma SameId(nodes: seq<CompileNode>, n: CompileNode, m: CompileNode)
    requires UniqueIds(nodes) && n in nodes && m in nodes && n.id == m.id
    ensures n == m
  {
    var i :| 0 <= i < |nodes| && nodes[i] == n;
    var j :| 0 <= j < |nodes| && nodes[j] == m;
    assert i == j;
  }

  /**
   * Visibility agrees with the filters: a node sees another exactly when a network rule of one covers
   * an address of the other; it never sees itself and the relation is symmetric.
   */
  lemma VisibilityIsFilterCover(p: Policy, nodes: seq<CompileNode>, n: CompileNode, m: CompileNode)
    requires UniqueIds(nodes) && HostAddresses(nodes) && n in nodes && m in nodes
    ensures var es := Entries(p, nodes, p.acls);
            && (m.id in VisibleTo(es, nodes, n) <==> n.id != m.id && (FilterCovers(p, nodes, n, m) || FilterCovers(p, nodes, m, n)))
            && (m.id in VisibleTo(es, nodes, n) <==> n.id in VisibleTo(es, nodes, m))
            && n.id !in VisibleTo(es, nodes, n)
  {
    var es := Entries(p, nodes, p.acls);
    ReachIsFilterCover(p, nodes, n, m);
    ReachIsFilterCover(p, nodes, m, n);
    VisibleByNode(es, nodes, n, m);
    VisibleByNode(es, nodes, m, n);
    VisibleByNode(es, nodes, n, n);
  }

  lemma VisibleByNode(es: seq<Entry>, nodes: seq<CompileNode>, n: CompileNode, m: CompileNode)
    requires UniqueIds(nodes) && m in nodes
    ensures m.id in VisibleTo(es, nodes, n) <==> m.id != n.id && (CanReach(es, n, m) || CanReach(es, m, n))
  {
    if m.id in VisibleTo(es, nodes, n) {
      var x :| x in nodes && x.id != n.id && (CanReach(es, n, x) || CanReach(es, x, n)) && x.id == m.id;
      SameId(nodes, x, m);
    }
  }

  /** Skipping a rule with an empty source list loses no visibility: its source matches no node. */
  lemma SkippedSourceMatchesNothing(r: Resolved, nodes: seq<CompileNode>, n: CompileNode)
    requires HostAddresses(nodes) && n in nodes && ToSrcIps(r, nodes) == {}
    ensures !MatchesNode(r, n)
  {
    SourceMatchIsCover(r, nodes, n);
  }

  // ---------------------------------------------------------------------
  // The compiler as it runs.

  datatype Compiled = Compiled(
    globalFilter: seq<FilterRule>,
    nodeFilters: map<int, seq<FilterRule>>,
    grants: map<int, seq<FilterRule>>,
    visibility: map<int, set<int>>)

  function RulesAt(m: map<int, seq<FilterRule>>, id: int): seq<FilterRule> {
    if id in m then m[id] else []
  }

  function IdsAt(m: map<int, set<int>>, id: int): set<int> {
    if id in m then m[id] else {}
  }

  ghost predicate NoDuplicates(rules: seq<FilterRule>) {
    forall i, j :: 0 <= i < j < |rules| ==> rules[i] != rules[j]
  }

  /** The global filter so far: every compiled rule, once. */
  ghost predicate GlobalOf(es: seq<Entry>, global: seq<FilterRule>) {
    && NoDuplicates(global)
    && forall rule :: rule in global <==> exists e :: e in es && e.filter == rule
  }

  ghost predicate FiltersOf(nodes: seq<CompileNode>, es: seq<Entry>, filters: map<int, seq<FilterRule>>) {
    forall i :: 0 <= i < |nodes| ==> RulesAt(filters, nodes[i].id) == NetworkRules(es, nodes[i])
  }

  ghost predicate IsNodeId(nodes: seq<CompileNode>, id: int) {
    exists i :: 0 <= i < |nodes| && nodes[i].id == id
  }

  ghost predicate ReachOf(nodes: seq<CompileNode>, es: seq<Entry>, reach: map<int, set<int>>) {
    && (forall id :: id in reach ==> IsNodeId(nodes, id))
    && (forall id, to :: to in IdsAt(reach, id) ==> IsNodeId(nodes, to))
    && (forall i, j :: 0 <= i < |nodes| && 0 <= j < |nodes| ==>
          (nodes[j].id in IdsAt(reach, nodes[i].id) <==> CanReach(es, nodes[i], nodes[j])))
  }

  method CollectSrcIps(r: Resolved, nodes: seq<CompileNode>) returns (ips: set<SrcIp>)
    ensures ips == ToSrcIps(r, nodes)
  {
    if r.wildcard {
      return {AnySource};
    }
    var nets := set net | net in r.nets :: From(net);
    ips := nets;
    for i := 0 to |nodes|
      invariant ips == nets + set n, a | n in nodes[..i] && Contributes(r, n) && a in n.addresses :: From(a)
    {
      assert nodes[..i + 1] == nodes[..i] + [nodes[i]];
      if Contributes(r, nodes[i]) {
        ips := ips + set a | a in nodes[i].addresses :: From(a);
      }
    }
    assert nodes[..|nodes|] == nodes;
  }

  method PushDedup(rules: seq<FilterRule>, rule: FilterRule) returns (out: seq<FilterRule>)
    requires NoDuplicates(rules)
    ensures NoDuplicates(out) && forall x :: x in out <==> x in rules || x == rule
  {
    out := if rule in rules then rules else rules + [rule];
  }

  lemma GlobalSnoc(es: seq<Entry>, e: Entry, global: seq<FilterRule>, global': seq<FilterRule>)
    requires GlobalOf(es, global) && NoDuplicates(global')
    requires forall x :: x in global' <==> x in global || x == e.filter
    ensures GlobalOf(es + [e], global')
  {
    forall rule
      ensures rule in global' <==> exists x :: x in es + [e] && x.filter == rule
    {
      if rule in global {
        var x :| x in es && x.filter == rule;
        assert x in es + [e];
      }
      assert e in es + [e];
    }
  }

  /** Gives the rule to every node that its destination matches. */
  /** Appending a rule to one node's list leaves every other node's list as it was. */
  lemma RulesAtUpdate(nodes: seq<CompileNode>, filters: map<int, seq<FilterRule>>, i: nat, rules: seq<FilterRule>)
    requires UniqueIds(nodes) && i < |nodes|
    ensures forall j :: 0 <= j < |nodes| ==>
              RulesAt(filters[nodes[i].id := rules], nodes[j].id) == if j == i then rules else RulesAt(filters, nodes[j].id)
  {
  }

  lemma NetworkRulesSnoc(es: seq<Entry>, e: Entry, n: CompileNode)
    ensures NetworkRules(es + [e], n) == NetworkRules(es, n) + (if DstMatches(e.dst, n) then [e.filter] else [])
  {
    assert (es + [e])[..|es|] == es;
  }

  method PushToNodes(nodes: seq<CompileNode>, ghost es: seq<Entry>, e: Entry, filters: map<int, seq<FilterRule>>)
      returns (out: map<int, seq<FilterRule>>, dsts: set<int>)
    requires UniqueIds(nodes) && FiltersOf(nodes, es, filters)
    ensures FiltersOf(nodes, es + [e], out)
    ensures forall j :: 0 <= j < |nodes| ==> (nodes[j].id in dsts <==> DstMatches(e.dst, nodes[j]))
    ensures forall id :: id in dsts ==> IsNodeId(nodes, id)
  {
    out, dsts := filters, {};
    ghost var all := es + [e];
    for i := 0 to |nodes|
      invariant forall j :: 0 <= j < i ==> RulesAt(out, nodes[j].id) == NetworkRules(all, nodes[j])
      invariant forall j :: i <= j < |nodes| ==> RulesAt(out, nodes[j].id) == NetworkRules(es, nodes[j])
      invariant forall j :: 0 <= j < i ==> (nodes[j].id in dsts <==> DstMatches(e.dst, nodes[j]))
      invariant forall j :: i <= j < |nodes| ==> nodes[j].id !in dsts
      invariant forall id :: id in dsts ==> IsNodeId(nodes, id)
    {
      NetworkRulesSnoc(es, e, nodes[i]);
      if DstMatches(e.dst, nodes[i]) {
        dsts := dsts + {nodes[i].id};
        RulesAtUpdate(nodes, out, i, RulesAt(out, nodes[i].id) + [e.filter]);
        out := out[nodes[i].id := RulesAt(out, nodes[i].id) + [e.filter]];
      }
    }
  }

  lemma CanReachSnoc(es: seq<Entry>, e: Entry, s: CompileNode, d: CompileNode)
    ensures CanReach(es + [e], s, d) <==> CanReach(es, s, d) || (MatchesNode(e.src, s) && DstMatches(e.dst, d))
  {
    assert e in es + [e];
    if CanReach(es, s, d) {
      var x :| x in es && MatchesNode(x.src, s) && DstMatches(x.dst, d);
      assert x in es + [e];
    }
  }

  /** Records that every matching source may reach every matching destination. */
  method PushReach(nodes: seq<CompileNode>, ghost es: seq<Entry>, e: Entry, dsts: set<int>, reach: map<int, set<int>>)
      returns (out: map<int, set<int>>)
    requires UniqueIds(nodes) && ReachOf(nodes, es, reach)
    requires forall j :: 0 <= j < |nodes| ==> (nodes[j].id in dsts <==> DstMatches(e.dst, nodes[j]))
    requires forall id :: id in dsts ==> IsNodeId(nodes, id)
    ensures ReachOf(nodes, es + [e], out)
  {
    out := reach;
    for i := 0 to |nodes|
      invariant forall j :: 0 <= j < i ==>
        IdsAt(out, nodes[j].id) == IdsAt(reach, nodes[j].id) + if MatchesNode(e.src, nodes[j]) then dsts else {}
      invariant forall j :: i <= j < |nodes| ==> IdsAt(out, nodes[j].id) == IdsAt(reach, nodes[j].id)
      invariant forall id :: id in out ==> IsNodeId(nodes, id)
      invariant forall id, to :: to in IdsAt(out, id) ==> IsNodeId(nodes, to)
    {
      if MatchesNode(e.src, nodes[i]) {
        out := out[nodes[i].id := IdsAt(out, nodes[i].id) + dsts];
      }
    }
    forall i, j | 0 <= i < |nodes| && 0 <= j < |nodes|
      ensures nodes[j].id in IdsAt(out, nodes[i].id) <==> CanReach(es + [e], nodes[i], nodes[j])
    {
      CanReachSnoc(es, e, nodes[i], nodes[j]);
    }
  }

  /** Network rules of one access rule, added to everything compiled so far. */
  method CompileAcl(ctx: Ctx, p: Policy, nodes: seq<CompileNode>, acl: Acl, ghost es: seq<Entry>,
                    global: seq<FilterRule>, filters: map<int, seq<FilterRule>>, reach: map<int, set<int>>)
      returns (global': seq<FilterRule>, filters': map<int, seq<FilterRule>>, reach': map<int, set<int>>)
    requires UniqueIds(nodes) && ctx.names == p.names && ctx.resolvingGroups == {}
    requires GlobalOf(es, global) && FiltersOf(nodes, es, filters) && ReachOf(nodes, es, reach)
    modifies ctx
    ensures ctx.resolvingGroups == {}
    ensures var all := es + AclEntries(p, nodes, acl);
            GlobalOf(all, global') && FiltersOf(nodes, all, filters') && ReachOf(nodes, all, reach')
  {
    global', filters', reach' := global, filters, reach;
    var src := ctx.ResolveTargets(acl.src);
    var srcIps := CollectSrcIps(src, nodes);
    ghost var all := es;
    assert es + [] == es;
    if srcIps == {} {
      return;
    }
    for k := 0 to |acl.dst|
      invariant ctx.resolvingGroups == {}
      invariant all == es + DstEntries(p, nodes, acl, acl.dst[..k])
      invariant GlobalOf(all, global') && FiltersOf(nodes, all, filters') && ReachOf(nodes, all, reach')
    {
      var dst := CompileDst(ctx, acl.dst[k]);
      var e := Entry(FilterRule(srcIps, dst.ports, acl.proto, []), src, dst);
      ghost var before := global';
      global' := PushDedup(global', e.filter);
      GlobalSnoc(all, e, before, global');
      var dsts;
      filters', dsts := PushToNodes(nodes, all, e, filters');
      reach' := PushReach(nodes, all, e, dsts, reach');
      assert acl.dst[..k + 1][..k] == acl.dst[..k];
      assert all + [e] == es + DstEntries(p, nodes, acl, acl.dst[..k + 1]);
      all := all + [e];
    }
    assert acl.dst[..|acl.dst|] == acl.dst;
  }

  method CompileDst(ctx: Ctx, d: Dst) returns (t: DstTarget)
    requires ctx.resolvingGroups == {}
    modifies ctx
    ensures t == ParseDst(ctx.names, d) && ctx.resolvingGroups == {}
  {
    match d {
      case Everywhere => t := DstTarget(NOTHING, ALL_PORTS, true);
      case At(host, ports) =>
        var r := ctx.ResolveDestination(host);
        t := DstTarget(r, ports, false);
    }
  }

  ghost predicate GrantsOf(p: Policy, nodes: seq<CompileNode>, gs: seq<Grant>, base: map<int, seq<FilterRule>>, m: map<int, seq<FilterRule>>) {
    forall i :: 0 <= i < |nodes| ==>
      RulesAt(m, nodes[i].id) == RulesAt(base, nodes[i].id) + GrantRules(p, nodes, gs, nodes[i])
  }

  /** Appends a grant's rule to the rules of every node it reaches. */
  method DeliverGrant(p: Policy, nodes: seq<CompileNode>, ghost before: seq<Grant>, g: Grant, srcIps: set<SrcIp>,
                      ghost base: map<int, seq<FilterRule>>, table: map<int, seq<FilterRule>>)
      returns (out: map<int, seq<FilterRule>>)
    requires UniqueIds(nodes) && srcIps != {} && srcIps == ToSrcIps(ResolveAll(p.names, g.src), nodes)
    requires GrantsOf(p, nodes, before, base, table)
    ensures GrantsOf(p, nodes, before + [g], base, out)
  {
    out := AppendGranted(p.names, nodes, g, srcIps, table);
    forall j | 0 <= j < |nodes|
      ensures RulesAt(out, nodes[j].id) == RulesAt(base, nodes[j].id) + GrantRules(p, nodes, before + [g], nodes[j])
    {
      GrantRulesSnoc(p, nodes, before, g, nodes[j]);
    }
  }

  /** The node loop of one grant: its rule goes behind the rules of each node it reaches. */
  method AppendGranted(names: Names, nodes: seq<CompileNode>, g: Grant, srcIps: set<SrcIp>, table: map<int, seq<FilterRule>>)
      returns (out: map<int, seq<FilterRule>>)
    requires UniqueIds(nodes)
    ensures forall j :: 0 <= j < |nodes| ==>
              RulesAt(out, nodes[j].id) == RulesAt(table, nodes[j].id) + GrantedTo(names, g, srcIps, nodes[j])
  {
    out := table;
    for i := 0 to |nodes|
      invariant forall j :: 0 <= j < i ==>
        RulesAt(out, nodes[j].id) == RulesAt(table, nodes[j].id) + GrantedTo(names, g, srcIps, nodes[j])
      invariant forall j :: i <= j < |nodes| ==> RulesAt(out, nodes[j].id) == RulesAt(table, nodes[j].id)
    {
      var node := nodes[i];
      if GrantReaches(names, g, node) {
        out := out[node.id := RulesAt(out, node.id) + [FilterRule(srcIps, [], None, [CapGrant(node.addresses, g.app)])]];
      }
    }
  }

  function GrantedTo(names: Names, g: Grant, srcIps: set<SrcIp>, n: CompileNode): seq<FilterRule> {
    if GrantReaches(names, g, n) then [FilterRule(srcIps, [], None, [CapGrant(n.addresses, g.app)])] else []
  }

  lemma GrantRulesSnoc(p: Policy, nodes: seq<CompileNode>, before: seq<Grant>, g: Grant, n: CompileNode)
    requires ToSrcIps(ResolveAll(p.names, g.src), nodes) != {}
    ensures GrantRules(p, nodes, before + [g], n) ==
            GrantRules(p, nodes, before, n) + GrantedTo(p.names, g, ToSrcIps(ResolveAll(p.names, g.src), nodes), n)
  {
    assert (before + [g])[..|before|] == before;
  }

  /** One capability grant, delivered to every node one of its destinations matches. */
  method CompileGrant(ctx: Ctx, p: Policy, nodes: seq<CompileNode>, ghost before: seq<Grant>, g: Grant,
                      ghost base: map<int, seq<FilterRule>>, filters: map<int, seq<FilterRule>>, grants: map<int, seq<FilterRule>>)
      returns (filters': map<int, seq<FilterRule>>, grants': map<int, seq<FilterRule>>)
    requires UniqueIds(nodes) && ctx.names == p.names && ctx.resolvingGroups == {}
    requires GrantsOf(p, nodes, before, base, filters) && GrantsOf(p, nodes, before, map[], grants)
    modifies ctx
    ensures ctx.resolvingGroups == {}
    ensures GrantsOf(p, nodes, before + [g], base, filters') && GrantsOf(p, nodes, before + [g], map[], grants')
  {
    var src := ctx.ResolveTargets(g.src);
    var srcIps := CollectSrcIps(src, nodes);
    if srcIps == {} {
      filters', grants' := filters, grants;
      ghost var all := before + [g];
      assert all[..|all| - 1] == before;
      return;
    }
    filters' := DeliverGrant(p, nodes, before, g, srcIps, base, filters);
    grants' := DeliverGrant(p, nodes, before, g, srcIps, map[], grants);
  }

  /** Each node sees whom it reaches and who reaches it, but not itself. */
  method CloseVisibility(nodes: seq<CompileNode>, ghost es: seq<Entry>, reach: map<int, set<int>>)
      returns (visibility: map<int, set<int>>)
    requires UniqueIds(nodes) && ReachOf(nodes, es, reach)
    ensures forall i :: 0 <= i < |nodes| ==> nodes[i].id in visibility && visibility[nodes[i].id] == VisibleTo(es, nodes, nodes[i])
    ensures forall id :: id in visibility ==> IsNodeId(nodes, id)
  {
    visibility := map[];
    for i := 0 to |nodes|
      invariant forall j :: 0 <= j < i ==> nodes[j].id in visibility && visibility[nodes[j].id] == VisibleTo(es, nodes, nodes[j])
      invariant forall id :: id in visibility ==> IsNodeId(nodes, id)
    {
      var id := nodes[i].id;
      var seen := IdsAt(reach, id) + set from | from in reach && id in reach[from] && from != id;
      seen := seen - {id};
      VisibilityAt(nodes, es, reach, i, seen);
      visibility := visibility[id := seen];
    }
  }

  lemma VisibilityAt(nodes: seq<CompileNode>, es: seq<Entry>, reach: map<int, set<int>>, i: nat, seen: set<int>)
    requires UniqueIds(nodes) && ReachOf(nodes, es, reach) && i < |nodes|
    requires var id := nodes[i].id;
             forall x :: x in seen <==> x != id && (x in IdsAt(reach, id) || (x in reach && id in reach[x]))
    ensures seen == VisibleTo(es, nodes, nodes[i])
  {
    var n := nodes[i];
    forall x
      ensures x in seen <==> x in VisibleTo(es, nodes, n)
    {
      if IsNodeId(nodes, x) {
        var j :| 0 <= j < |nodes| && nodes[j].id == x;
        VisibleByNode(es, nodes, n, nodes[j]);
      }
    }
    SameIds(seen, VisibleTo(es, nodes, n));
  }

  lemma SameIds(a: set<int>, b: set<int>)
    requires forall x :: x in a <==> x in b
    ensures a == b
  {
    assert forall x :: x in a <==> x in b;
  }

  method CompileAcls(ctx: Ctx, p: Policy, nodes: seq<CompileNode>)
      returns (global: seq<FilterRule>, filters: map<int, seq<FilterRule>>, reach: map<int, set<int>>)
    requires UniqueIds(nodes) && ctx.names == p.names && ctx.resolvingGroups == {}
    modifies ctx
    ensures ctx.resolvingGroups == {}
    ensures var es := Entries(p, nodes, p.acls);
            GlobalOf(es, global) && FiltersOf(nodes, es, filters) && ReachOf(nodes, es, reach)
  {
    global, filters, reach := [], map[], map[];
    for k := 0 to |p.acls|
      invariant ctx.resolvingGroups == {}
      invariant GlobalOf(Entries(p, nodes, p.acls[..k]), global)
      invariant FiltersOf(nodes, Entries(p, nodes, p.acls[..k]), filters)
      invariant ReachOf(nodes, Entries(p, nodes, p.acls[..k]), reach)
    {
      global, filters, reach := CompileAcl(ctx, p, nodes, p.acls[k], Entries(p, nodes, p.acls[..k]), global, filters, reach);
      EntriesSnoc(p, nodes, k);
    }
    assert p.acls[..|p.acls|] == p.acls;
  }

  lemma EntriesSnoc(p: Policy, nodes: seq<CompileNode>, k: nat)
    requires k < |p.acls|
    ensures Entries(p, nodes, p.acls[..k + 1]) == Entries(p, nodes, p.acls[..k]) + AclEntries(p, nodes, p.acls[k])
  {
    assert p.acls[..k + 1][..k] == p.acls[..k];
  }

  method CompileGrants(ctx: Ctx, p: Policy, nodes: seq<CompileNode>, base: map<int, seq<FilterRule>>)
      returns (filters: map<int, seq<FilterRule>>, grants: map<int, seq<FilterRule>>)
    requires UniqueIds(nodes) && ctx.names == p.names && ctx.resolvingGroups == {}
    modifies ctx
    ensures GrantsOf(p, nodes, p.grants, base, filters) && GrantsOf(p, nodes, p.grants, map[], grants)
  {
    filters, grants := base, map[];
    for k := 0 to |p.grants|
      invariant ctx.resolvingGroups == {}
      invariant GrantsOf(p, nodes, p.grants[..k], base, filters) && GrantsOf(p, nodes, p.grants[..k], map[], grants)
    {
      filters, grants := CompileGrant(ctx, p, nodes, p.grants[..k], p.grants[k], base, filters, grants);
      assert p.grants[..k + 1] == p.grants[..k] + [p.grants[k]];
    }
    assert p.grants[..|p.grants|] == p.grants;
  }

  /** What a compilation returns, node by node. */
  ghost predicate CompiledFor(p: Policy, nodes: seq<CompileNode>, c: Compiled, n: CompileNode) {
    && n.id in c.nodeFilters && c.nodeFilters[n.id] == NodeFilter(p, nodes, n)
    && RulesAt(c.grants, n.id) == GrantRules(p, nodes, p.grants, n)
    && n.id in c.visibility && c.visibility[n.id] == VisibleTo(Entries(p, nodes, p.acls), nodes, n)
  }

  method CompilePolicy(p: Policy, nodes: seq<CompileNode>) returns (c: Compiled)
    requires UniqueIds(nodes)
    ensures GlobalOf(Entries(p, nodes, p.acls), c.globalFilter)
    ensures forall i :: 0 <= i < |nodes| ==> CompiledFor(p, nodes, c, nodes[i])
  {
    var ctx := new Ctx(p.names);
    var global, network, reach := CompileAcls(ctx, p, nodes);
    var filters, grants := CompileGrants(ctx, p, nodes, network);
    var complete := FillMissing(nodes, filters);
    var visibility := CloseVisibility(nodes, Entries(p, nodes, p.acls), reach);
    c := Compiled(global, complete, grants, visibility);
    forall i | 0 <= i < |nodes|
      ensures CompiledFor(p, nodes, c, nodes[i])
    {
      assert RulesAt(complete, nodes[i].id) == RulesAt(filters, nodes[i].id);
    }
  }

  /** Every network rule in any node's filter is in the global filter. */
  lemma FiltersInGlobal(p: Policy, nodes: seq<CompileNode>, global: seq<FilterRule>, n: CompileNode, rule: FilterRule)
    requires GlobalOf(Entries(p, nodes, p.acls), global) && rule in NodeFilter(p, nodes, n) && rule.capGrant == []
    ensures rule in global
  {
    if rule in GrantRules(p, nodes, p.grants, n) {
      GrantRulesCarryGrants(p, nodes, p.grants, n, rule);
    }
    NetworkRulesAre(Entries(p, nodes, p.acls), n, rule);
  }

  /** Every node gets a filter, possibly an empty one. */
  method FillMissing(nodes: seq<CompileNode>, filters: map<int, seq<FilterRule>>) returns (out: map<int, seq<FilterRule>>)
    ensures forall i :: 0 <= i < |nodes| ==> nodes[i].id in out
    ensures forall id :: RulesAt(out, id) == RulesAt(filters, id)
  {
    out := filters;
    for i := 0 to |nodes|
      invariant forall j :: 0 <= j < i ==> nodes[j].id in out
      invariant forall id :: RulesAt(out, id) == RulesAt(filters, id)
    {
      if nodes[i].id !in out {
        out := out[nodes[i].id := []];
      }
    }
  }
}
