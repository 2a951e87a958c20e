// The compiled rule index and the plain scan it must agree with: internal/rules/repo.go, Compile and collect.
module RuleIndex {
  import opened TreeLog
  import opened Text
  import opened Options
  import opened Rules
  import SuffixTrie
  import CidrTree
  import Wire

  type Octet = Wire.Octet
  type Octets4 = a: seq<Octet> | |a| == 4 witness [0, 0, 0, 0]
  type Octets16 = a: seq<Octet> | |a| == 16 witness [0, 0, 0, 0, 0, 0, 0, 0, 0, 0, 0, 0, 0, 0, 0, 0]
  type Ones4 = n: nat | n <= 32
  type Ones16 = n: nat | n <= 128
  type Port = p: nat | p < 0x1_0000

  datatype Addr = V4(a4: Octets4) | V6(a6: Octets16)
  datatype Network = Net4(net4: Octets4, ones4: Ones4) | Net6(net6: Octets16, ones6: Ones16)

  /** The library parsers of addresses, CIDR blocks and decimal numbers, taken as arbitrary functions. */
  datatype Parsers = Parsers(parseIP: string -> Option<Addr>, parseCIDR: string -> Option<Network>,
                             atoi: string -> Option<int>)

  datatype Attributes = Attributes(domain: string, sni: string, proto: string, dst: Option<Addr>,
                                   srcPort: Port, dstPort: Port, category: string)

  function Normalize(s: string): string {
    ToLower(TrimSpace(s))
  }

  function TrimStar(s: string): string {
    var p := Normalize(s);
    if HasPrefix(p, "*.") then p[2..] else if HasPrefix(p, "*") then p[1..] else p
  }

  /** The exact-address key: an IPv4 address fills the first four of sixteen octets. */
  function Key(d: Addr): Octets16 {
    match d
    case V4(a) => a + [0, 0, 0, 0, 0, 0, 0, 0, 0, 0, 0, 0]
    case V6(a) => a
  }

  // ---- The conjunctive matcher scan ----

  /** One matcher of a rule under the linear scan. */
  predicate MatcherHolds(p: Parsers, m: Matcher, a: Attributes) {
    match m.field
    case Domain => a.domain != "" && MatchesDomain(m, a.domain)
    case DomainSuffix => a.domain != "" && MatchesDomain(m, a.domain)
    case Wildcard => a.domain != "" && MatchesDomain(m, a.domain)
    case SNI => EqualFold(a.sni, m.value)
    case DNS => a.domain != "" && EqualFold(a.domain, m.value)
    case Protocol => EqualFold(a.proto, m.value)
    case Port =>
      (match p.atoi(m.value)
       case None => false
       case Some(n) => a.dstPort == n % 0x1_0000 || a.srcPort == n % 0x1_0000)
    case IP => a.dst.Some? && p.parseIP(m.value) == a.dst
    case Category => EqualFold(a.category, m.value)
    case _ => false
  }

  predicate IsCategoryRule(r: Rule) {
    r.kind == Block && r.category != ""
  }

  predicate RuleMatches(p: Parsers, r: Rule, a: Attributes) {
    && r.matchers != []
    && if IsCategoryRule(r) then EqualFold(a.category, r.category)
       else forall i :: 0 <= i < |r.matchers| ==> MatcherHolds(p, r.matchers[i], a)
  }

  /** ruleMatches: the early-exit loop over the matchers. */
  method ScanRule(p: Parsers, r: Rule, a: Attributes) returns (ok: bool)
    ensures ok == RuleMatches(p, r, a)
  {
    if |r.matchers| == 0 {
      return false;
    }
    if IsCategoryRule(r) {
      return EqualFold(a.category, r.category);
    }
    for i := 0 to |r.matchers|
      invariant forall j :: 0 <= j < i ==> MatcherHolds(p, r.matchers[j], a)
    {
      if !MatcherHolds(p, r.matchers[i], a) {
        return false;
      }
    }
    return true;
  }

  /** What the scan answers for a rule with a single matcher, field by field, in terms of the traffic. */
  lemma OneMatcher(p: Parsers, r: Rule, m: Matcher, a: Attributes)
    requires r.matchers == [m] && !(r.kind == Block && r.category != "")
    ensures m.field == Domain ==> (RuleMatches(p, r, a) <==> a.domain != "" && EqualFold(a.domain, m.value))
    ensures m.field == DomainSuffix || m.field == Wildcard ==>
              (RuleMatches(p, r, a) <==> a.domain != "" && MatchSuffix(m.value, a.domain))
    ensures m.field == SNI ==> (RuleMatches(p, r, a) <==> EqualFold(a.sni, m.value))
    ensures m.field == DNS ==> (RuleMatches(p, r, a) <==> a.domain != "" && EqualFold(a.domain, m.value))
    ensures m.field == Protocol ==> (RuleMatches(p, r, a) <==> EqualFold(a.proto, m.value))
    ensures m.field == Category ==> (RuleMatches(p, r, a) <==> EqualFold(a.category, m.value))
    ensures m.field == Field.Port ==>
              (RuleMatches(p, r, a) <==>
               exists n :: p.atoi(m.value) == Some(n) && ((n - a.srcPort) % 65536 == 0 || (n - a.dstPort) % 65536 == 0))
    ensures m.field == IP ==> (RuleMatches(p, r, a) <==> exists d :: a.dst == Some(d) && p.parseIP(m.value) == Some(d))
    ensures m.field == CIDR || m.field == ASN || m.field.OtherField? ==> !RuleMatches(p, r, a)
  {
    hide EqualFold, MatchSuffix;
    assert r.matchers[0] == m;
    assert RuleMatches(p, r, a) <==> MatcherHolds(p, m, a);
    if m.field == Field.Port && p.atoi(m.value).Some? {
      SamePort(p.atoi(m.value).value, a.srcPort);
      SamePort(p.atoi(m.value).value, a.dstPort);
    } else if m.field == Domain {
      FoldSymmetric(m.value, a.domain);
    }
  }

  lemma SamePort(n: int, port: Port)
    ensures port == n % 0x1_0000 <==> (n - port) % 65536 == 0
  {
  }

  lemma FoldSymmetric(s: string, t: string)
    ensures EqualFold(s, t) <==> EqualFold(t, s)
  {
  }

  /** A rule with several matchers matches exactly when every rule with one of them matches. */
  lemma SeveralMatchers(p: Parsers, r: Rule, ones: seq<Rule>, a: Attributes)
    requires !(r.kind == Block && r.category != "") && r.matchers != []
    requires |ones| == |r.matchers|
    requires forall i :: 0 <= i < |ones| ==>
               ones[i].matchers == [r.matchers[i]] && !(ones[i].kind == Block && ones[i].category != "")
    ensures RuleMatches(p, r, a) <==> forall i :: 0 <= i < |ones| ==> RuleMatches(p, ones[i], a)
  {
    hide MatcherHolds;
    forall i | 0 <= i < |ones|
      ensures RuleMatches(p, ones[i], a) <==> MatcherHolds(p, r.matchers[i], a)
    {
      assert ones[i].matchers[0] == r.matchers[i];
    }
  }

  /** A category rule looks at the category alone, and a rule without matchers matches nothing. */
  lemma CategoryMatches(p: Parsers, r: Rule, a: Attributes)
    ensures r.matchers == [] ==> !RuleMatches(p, r, a)
    ensures r.matchers != [] && r.kind == Block && r.category != "" ==>
              (RuleMatches(p, r, a) <==> EqualFold(a.category, r.category))
  {
    hide EqualFold;
  }

  // ---- The plain scan ----

  /** A suffix matcher of some indexed rule of `rs` whose pattern is exactly `s`. */
  ghost predicate SuffixPresent(rs: seq<Rule>, s: string) {
    exists r, m :: r in rs && Indexed(r) && m in r.matchers && IsSuffixMatcher(m) && TrimStar(m.value) == s
  }

  predicate IsSuffixMatcher(m: Matcher) {
    m.field == DomainSuffix || m.field == Wildcard
  }

  /** Enabled rules other than category rules have their matchers spread over the indexes. */
  predicate Indexed(r: Rule) {
    r.enabled && !IsCategoryRule(r)
  }

  /** `s` is the longest non-empty suffix pattern of the rule set that ends `domain`. */
  ghost predicate IsLongestSuffix(rs: seq<Rule>, domain: string, s: string) {
    && s != "" && HasSuffix(domain, s)
    && forall t :: SuffixPresent(rs, t) && HasSuffix(domain, t) ==> |t| <= |s|
  }

  ghost predicate InNetwork(n: Network, d: Addr) {
    match (n, d)
    case (Net4(net, ones), V4(ip)) => CidrTree.InBlock(net, ones, ip)
    case (Net6(net, ones), V6(ip)) => CidrTree.InBlock(net, ones, ip)
    case _ => false
  }

  /** A single matcher of an indexed rule fires: the matchers of a rule act as alternatives here. */
  ghost predicate MatcherFires(p: Parsers, rs: seq<Rule>, a: Attributes, r: Rule, m: Matcher) {
    var dom := Normalize(a.domain);
    match m.field
    case Domain => dom != "" && Normalize(m.value) == dom
    case DomainSuffix => IsLongestSuffix(rs, dom, TrimStar(m.value))
    case Wildcard => IsLongestSuffix(rs, dom, TrimStar(m.value))
    case IP => a.dst.Some? && p.parseIP(m.value).Some? && Key(p.parseIP(m.value).value) == Key(a.dst.value)
    case CIDR => a.dst.Some? && p.parseCIDR(m.value).Some? && InNetwork(p.parseCIDR(m.value).value, a.dst.value)
    case _ => RuleMatches(p, r, a)
  }

  /** The rule fires for the traffic, judged by reading the rule list alone. */
  ghost predicate Fires(p: Parsers, rs: seq<Rule>, a: Attributes, r: Rule) {
    && r in rs && r.enabled
    && if IsCategoryRule(r) then RuleMatches(p, r, a)
       else exists m :: m in r.matchers && MatcherFires(p, rs, a, r, m)
  }

  // ---- What Compile feeds to the indexes ----

  /** One unit of indexing work: a category rule as a whole, or one matcher of another rule. */
  datatype Item = Whole(r: Rule) | Cond(r: Rule, m: Matcher)

  ghost function Conds(r: Rule, n: nat): seq<Item>
    requires n <= |r.matchers|
  {
    if n == 0 then [] else Conds(r, n - 1) + [Cond(r, r.matchers[n - 1])]
  }

  ghost function ItemsOf(r: Rule): seq<Item> {
    if !r.enabled then []
    else if IsCategoryRule(r) then [Whole(r)]
    else Conds(r, |r.matchers|)
  }

  ghost function Items(rs: seq<Rule>): seq<Item> {
    if rs == [] then [] else Items(rs[..|rs| - 1]) + ItemsOf(rs[|rs| - 1])
  }

  /** The item came from the rule list: the only items there are. */
  ghost predicate IsItem(rs: seq<Rule>, it: Item) {
    && it.r in rs && it.r.enabled
    && match it
       case Whole(r) => IsCategoryRule(r)
       case Cond(r, m) => !IsCategoryRule(r) && m in r.matchers
  }

  lemma {:induction false} CondsMember(r: Rule, n: nat, it: Item)
    requires n <= |r.matchers|
    ensures it in Conds(r, n) <==> it.Cond? && it.r == r && it.m in r.matchers[..n]
  {
    if n > 0 {
      CondsMember(r, n - 1, it);
      assert r.matchers[..n] == r.matchers[..n - 1] + [r.matchers[n - 1]];
    }
  }

  lemma {:induction false} ItemsMember(rs: seq<Rule>, it: Item)
    ensures it in Items(rs) <==> IsItem(rs, it)
  {
    if rs != [] {
      var n := |rs| - 1;
      ItemsMember(rs[..n], it);
      assert rs == rs[..n] + [rs[n]];
      CondsMember(rs[n], |rs[n].matchers|, it);
      assert rs[n].matchers[..|rs[n].matchers|] == rs[n].matchers;
    }
  }

  /** Keep the entries that `f` yields, in order. */
  ghost function FilterMap<A, B>(f: A -> Option<B>, xs: seq<A>): seq<B> {
    if xs == [] then []
    else
      var n := |xs| - 1;
      FilterMap(f, xs[..n]) + (match f(xs[n]) case None => [] case Some(y) => [y])
  }

  ghost function Append<B>(log: seq<B>, e: Option<B>): seq<B> {
    match e
    case None => log
    case Some(y) => log + [y]
  }

  lemma FilterMapAppend<A, B>(f: A -> Option<B>, xs: seq<A>, x: A)
    ensures FilterMap(f, xs + [x]) == Append(FilterMap(f, xs), f(x))
  {
    assert (xs + [x])[..|xs|] == xs;
  }

  lemma {:induction false} FilterMapMember<A, B>(f: A -> Option<B>, xs: seq<A>, y: B)
    ensures y in FilterMap(f, xs) <==> exists x :: x in xs && f(x) == Some(y)
  {
    if xs != [] {
      var n := |xs| - 1;
      FilterMapMember(f, xs[..n], y);
      assert xs == xs[..n] + [xs[n]];
      if f(xs[n]) == Some(y) {
        assert xs[n] in xs;
      }
      if x :| x in xs[..n] && f(x) == Some(y) {
        assert x in xs;
      }
    }
  }

  function ExactEntry(it: Item): Option<(string, Rule)> {
    if it.Cond? && it.m.field == Domain then Some((Normalize(it.m.value), it.r)) else None
  }

  ghost function SuffixEntry(it: Item): Option<(Path<char>, Rule)> {
    if it.Cond? && IsSuffixMatcher(it.m) then Some((SuffixTrie.PathOf(TrimStar(it.m.value)), it.r)) else None
  }

  function IpEntry(p: Parsers, it: Item): Option<(Octets16, Rule)> {
    if it.Cond? && it.m.field == IP then
      match p.parseIP(it.m.value)
      case None => None
      case Some(d) => Some((Key(d), it.r))
    else None
  }

  ghost function Cidr4Entry(p: Parsers, it: Item): Option<(Path<bool>, Rule)> {
    if it.Cond? && it.m.field == CIDR then
      match p.parseCIDR(it.m.value)
      case Some(Net4(net, ones)) => Some((CidrTree.PathOf(net, ones), it.r))
      case _ => None
    else None
  }

  ghost function Cidr6Entry(p: Parsers, it: Item): Option<(Path<bool>, Rule)> {
    if it.Cond? && it.m.field == CIDR then
      match p.parseCIDR(it.m.value)
      case Some(Net6(net, ones)) => Some((CidrTree.PathOf(net, ones), it.r))
      case _ => None
    else None
  }

  predicate IsTreeField(f: Field) {
    f == Domain || f == DomainSuffix || f == Wildcard || f == IP || f == CIDR
  }

  function LinearEntry(it: Item): Option<Rule> {
    match it
    case Whole(r) => Some(r)
    case Cond(r, m) => if IsTreeField(m.field) then None else Some(r)
  }

  ghost function ExactLog(items: seq<Item>): seq<(string, Rule)> { FilterMap(ExactEntry, items) }

  ghost function SuffixLog(items: seq<Item>): seq<(Path<char>, Rule)> { FilterMap(SuffixEntry, items) }

  ghost function IpLog(p: Parsers, items: seq<Item>): seq<(Octets16, Rule)> {
    FilterMap((it: Item) => IpEntry(p, it), items)
  }

  ghost function Cidr4Log(p: Parsers, items: seq<Item>): seq<(Path<bool>, Rule)> {
    FilterMap((it: Item) => Cidr4Entry(p, it), items)
  }

  ghost function Cidr6Log(p: Parsers, items: seq<Item>): seq<(Path<bool>, Rule)> {
    FilterMap((it: Item) => Cidr6Entry(p, it), items)
  }

  ghost function LinearLog(items: seq<Item>): seq<Rule> { FilterMap(LinearEntry, items) }

  // ---- The candidates a walk over the indexes meets, in the order it meets them ----

  ghost function DomainCandidates(items: seq<Item>, dom: string): seq<Rule> {
    if dom == "" then []
    else RulesFor(ExactLog(items), dom) + SuffixTrie.Longest(SuffixLog(items), dom)
  }

  ghost function CidrCandidates(p: Parsers, items: seq<Item>, d: Addr): seq<Rule> {
    match d
    case V4(a) => CidrTree.Collected(Cidr4Log(p, items), CidrTree.PathOf(a, 32))
    case V6(a) => CidrTree.Collected(Cidr6Log(p, items), CidrTree.PathOf(a, 128))
  }

  ghost function AddressCandidates(p: Parsers, items: seq<Item>, dst: Option<Addr>): seq<Rule> {
    match dst
    case None => []
    case Some(d) => RulesFor(IpLog(p, items), Key(d)) + CidrCandidates(p, items, d)
  }

  ghost function Matching(p: Parsers, a: Attributes, rs: seq<Rule>): seq<Rule> {
    if rs == [] then []
    else
      var n := |rs| - 1;
      Matching(p, a, rs[..n]) + (if RuleMatches(p, rs[n], a) then [rs[n]] else [])
  }

  ghost function Candidates(p: Parsers, items: seq<Item>, a: Attributes): seq<Rule> {
    DomainCandidates(items, Normalize(a.domain)) + AddressCandidates(p, items, a.dst)
    + Matching(p, a, LinearLog(items))
  }

  lemma {:induction false} MatchingMember(p: Parsers, a: Attributes, rs: seq<Rule>, r: Rule)
    ensures r in Matching(p, a, rs) <==> r in rs && RuleMatches(p, r, a)
  {
    if rs != [] {
      var n := |rs| - 1;
      MatchingMember(p, a, rs[..n], r);
      assert rs == rs[..n] + [rs[n]];
    }
  }

  // ---- The walk meets exactly the rules that fire ----

  lemma {:induction false} CollectedMember(log: seq<(Path<bool>, Rule)>, ip: Path<bool>, r: Rule)
    ensures r in CidrTree.Collected(log, ip) <==> exists q :: CidrTree.Covers(q, ip) && (q, r) in log
  {
    RulesForMember(log, ip, r);
    if ip.Step? {
      CollectedMember(log, ip.up, r);
    }
    assert CidrTree.Covers(ip, ip);
  }

  lemma ExactMember(rs: seq<Rule>, dom: string, r: Rule)
    ensures r in RulesFor(ExactLog(Items(rs)), dom)
            <==> r in rs && Indexed(r) && exists m :: m in r.matchers && m.field == Domain && Normalize(m.value) == dom
  {
    var items := Items(rs);
    RulesForMember(ExactLog(items), dom, r);
    FilterMapMember(ExactEntry, items, (dom, r));
    forall it
      ensures it in items <==> IsItem(rs, it)
    {
      ItemsMember(rs, it);
    }
    if r in rs && Indexed(r) && exists m :: m in r.matchers && m.field == Domain && Normalize(m.value) == dom {
      var m :| m in r.matchers && m.field == Domain && Normalize(m.value) == dom;
      assert IsItem(rs, Cond(r, m)) && ExactEntry(Cond(r, m)) == Some((dom, r));
    }
  }

  lemma SuffixEntries(rs: seq<Rule>, s: string, r: Rule)
    ensures (SuffixTrie.PathOf(s), r) in SuffixLog(Items(rs))
            <==> r in rs && Indexed(r) && exists m :: m in r.matchers && IsSuffixMatcher(m) && TrimStar(m.value) == s
  {
    var items := Items(rs);
    FilterMapMember(SuffixEntry, items, (SuffixTrie.PathOf(s), r));
    forall it
      ensures it in items <==> IsItem(rs, it)
    {
      ItemsMember(rs, it);
    }
    if (SuffixTrie.PathOf(s), r) in SuffixLog(items) {
      var it :| it in items && SuffixEntry(it) == Some((SuffixTrie.PathOf(s), r));
      SuffixTrie.PathOfInjective(TrimStar(it.m.value), s);
    }
    if r in rs && Indexed(r) && exists m :: m in r.matchers && IsSuffixMatcher(m) && TrimStar(m.value) == s {
      var m :| m in r.matchers && IsSuffixMatcher(m) && TrimStar(m.value) == s;
      assert IsItem(rs, Cond(r, m)) && SuffixEntry(Cond(r, m)) == Some((SuffixTrie.PathOf(s), r));
    }
  }

  lemma SuffixStored(rs: seq<Rule>, s: string)
    ensures Stored(SuffixLog(Items(rs)), SuffixTrie.PathOf(s)) <==> SuffixPresent(rs, s)
  {
    var log := SuffixLog(Items(rs));
    if Stored(log, SuffixTrie.PathOf(s)) {
      var i :| 0 <= i < |log| && log[i].0 == SuffixTrie.PathOf(s);
      assert log[i] == (SuffixTrie.PathOf(s), log[i].1);
      SuffixEntries(rs, s, log[i].1);
    }
    if SuffixPresent(rs, s) {
      var r, m :| r in rs && Indexed(r) && m in r.matchers && IsSuffixMatcher(m) && TrimStar(m.value) == s;
      SuffixEntries(rs, s, r);
      var i :| 0 <= i < |log| && log[i] == (SuffixTrie.PathOf(s), r);
    }
  }

  /** What the trie answers with owns the longest suffix pattern of the rule list. */
  lemma SuffixSound(rs: seq<Rule>, dom: string, r: Rule)
    requires r in SuffixTrie.Longest(SuffixLog(Items(rs)), dom)
    ensures r in rs && Indexed(r)
    ensures exists m :: m in r.matchers && IsSuffixMatcher(m) && IsLongestSuffix(rs, dom, TrimStar(m.value))
  {
    hide SuffixTrie.Longest, RulesFor, Items, SuffixLog, SuffixTrie.PathOf;
    var log := SuffixLog(Items(rs));
    var j := SuffixTrie.LongestFound(log, dom);
    SuffixTrie.LongestIsLongest(log, dom, j);
    var s := dom[j..];
    RulesForMember(log, SuffixTrie.PathOf(s), r);
    SuffixEntries(rs, s, r);
    forall t | SuffixPresent(rs, t) && HasSuffix(dom, t)
      ensures |t| <= |s|
    {
      SuffixStored(rs, t);
      assert t == dom[|dom| - |t|..];
    }
    assert IsLongestSuffix(rs, dom, s);
  }

  /** Every owner of the longest suffix pattern of the rule list is in the trie's answer. */
  lemma SuffixComplete(rs: seq<Rule>, dom: string, r: Rule, m: Matcher)
    requires r in rs && Indexed(r)
    requires m in r.matchers && IsSuffixMatcher(m) && IsLongestSuffix(rs, dom, TrimStar(m.value))
    ensures r in SuffixTrie.Longest(SuffixLog(Items(rs)), dom)
  {
    hide SuffixTrie.Longest, RulesFor, Items, SuffixLog, SuffixTrie.PathOf, TrimStar;
    var log, s := SuffixLog(Items(rs)), TrimStar(m.value);
    var j := |dom| - |s|;
    SuffixEntries(rs, s, r);
    assert SuffixPresent(rs, s);
    SuffixStored(rs, s);
    forall i | 0 <= i < j
      ensures !Stored(log, SuffixTrie.PathOf(dom[i..]))
    {
      SuffixStored(rs, dom[i..]);
      assert HasSuffix(dom, dom[i..]);
    }
    SuffixTrie.LongestIsLongest(log, dom, j);
    RulesForMember(log, SuffixTrie.PathOf(s), r);
  }

  lemma IpMember(p: Parsers, rs: seq<Rule>, k: Octets16, r: Rule)
    ensures r in RulesFor(IpLog(p, Items(rs)), k)
            <==> r in rs && Indexed(r)
                 && exists m :: m in r.matchers && m.field == IP && p.parseIP(m.value).Some?
                                && Key(p.parseIP(m.value).value) == k
  {
    var items := Items(rs);
    RulesForMember(IpLog(p, items), k, r);
    var f := (it: Item) => IpEntry(p, it);
    assert IpLog(p, items) == FilterMap(f, items);
    FilterMapMember(f, items, (k, r));
    forall it
      ensures it in items <==> IsItem(rs, it)
    {
      ItemsMember(rs, it);
    }
    if r in rs && Indexed(r)
       && exists m :: m in r.matchers && m.field == IP && p.parseIP(m.value).Some? && Key(p.parseIP(m.value).value) == k {
      var m :| m in r.matchers && m.field == IP && p.parseIP(m.value).Some? && Key(p.parseIP(m.value).value) == k;
      assert IsItem(rs, Cond(r, m)) && f(Cond(r, m)) == Some((k, r));
    }
  }

  lemma Cidr4Member(p: Parsers, rs: seq<Rule>, d: Octets4, r: Rule)
    ensures r in CidrCandidates(p, Items(rs), V4(d))
            <==> r in rs && Indexed(r)
                 && exists m :: m in r.matchers && m.field == CIDR && p.parseCIDR(m.value).Some?
                                && InNetwork(p.parseCIDR(m.value).value, V4(d))
  {
    var items, path := Items(rs), CidrTree.PathOf(d, 32);
    var log := Cidr4Log(p, items);
    var f := (it: Item) => Cidr4Entry(p, it);
    assert log == FilterMap(f, items);
    CollectedMember(log, path, r);
    if r in CidrCandidates(p, items, V4(d)) {
      var q :| CidrTree.Covers(q, path) && (q, r) in log;
      FilterMapMember(f, items, (q, r));
      var it :| it in items && f(it) == Some((q, r));
      ItemsMember(rs, it);
      var net := p.parseCIDR(it.m.value).value;
      CidrTree.CoverIsBlock(net.net4, net.ones4, d);
    }
    if r in rs && Indexed(r)
       && exists m :: m in r.matchers && m.field == CIDR && p.parseCIDR(m.value).Some?
                      && InNetwork(p.parseCIDR(m.value).value, V4(d)) {
      var m :| m in r.matchers && m.field == CIDR && p.parseCIDR(m.value).Some?
               && InNetwork(p.parseCIDR(m.value).value, V4(d));
      var net := p.parseCIDR(m.value).value;
      CidrTree.CoverIsBlock(net.net4, net.ones4, d);
      var q := CidrTree.PathOf(net.net4, net.ones4);
      ItemsMember(rs, Cond(r, m));
      assert f(Cond(r, m)) == Some((q, r));
      FilterMapMember(f, items, (q, r));
    }
  }

  lemma Cidr6Member(p: Parsers, rs: seq<Rule>, d: Octets16, r: Rule)
    ensures r in CidrCandidates(p, Items(rs), V6(d))
            <==> r in rs && Indexed(r)
                 && exists m :: m in r.matchers && m.field == CIDR && p.parseCIDR(m.value).Some?
                                && InNetwork(p.parseCIDR(m.value).value, V6(d))
  {
    var items, path := Items(rs), CidrTree.PathOf(d, 128);
    var log := Cidr6Log(p, items);
    var f := (it: Item) => Cidr6Entry(p, it);
    assert log == FilterMap(f, items);
    CollectedMember(log, path, r);
    if r in CidrCandidates(p, items, V6(d)) {
      var q :| CidrTree.Covers(q, path) && (q, r) in log;
      FilterMapMember(f, items, (q, r));
      var it :| it in items && f(it) == Some((q, r));
      ItemsMember(rs, it);
      var net := p.parseCIDR(it.m.value).value;
      CidrTree.CoverIsBlock(net.net6, net.ones6, d);
    }
    if r in rs && Indexed(r)
       && exists m :: m in r.matchers && m.field == CIDR && p.parseCIDR(m.value).Some?
                      && InNetwork(p.parseCIDR(m.value).value, V6(d)) {
      var m :| m in r.matchers && m.field == CIDR && p.parseCIDR(m.value).Some?
               && InNetwork(p.parseCIDR(m.value).value, V6(d));
      var net := p.parseCIDR(m.value).value;
      CidrTree.CoverIsBlock(net.net6, net.ones6, d);
      var q := CidrTree.PathOf(net.net6, net.ones6);
      ItemsMember(rs, Cond(r, m));
      assert f(Cond(r, m)) == Some((q, r));
      FilterMapMember(f, items, (q, r));
    }
  }

  lemma LinearMember(p: Parsers, rs: seq<Rule>, a: Attributes, r: Rule)
    ensures r in Matching(p, a, LinearLog(Items(rs)))
            <==> RuleMatches(p, r, a) && r in rs && r.enabled
                 && (IsCategoryRule(r) || exists m :: m in r.matchers && !IsTreeField(m.field))
  {
    var items := Items(rs);
    MatchingMember(p, a, LinearLog(items), r);
    FilterMapMember(LinearEntry, items, r);
    forall it
      ensures it in items <==> IsItem(rs, it)
    {
      ItemsMember(rs, it);
    }
    if r in rs && r.enabled && IsCategoryRule(r) {
      assert IsItem(rs, Whole(r)) && LinearEntry(Whole(r)) == Some(r);
    } else if r in rs && r.enabled && exists m :: m in r.matchers && !IsTreeField(m.field) {
      var m :| m in r.matchers && !IsTreeField(m.field);
      assert IsItem(rs, Cond(r, m)) && LinearEntry(Cond(r, m)) == Some(r);
    }
  }

  lemma AddressMember(p: Parsers, rs: seq<Rule>, dst: Option<Addr>, r: Rule)
    ensures r in AddressCandidates(p, Items(rs), dst)
            <==> dst.Some? && r in rs && Indexed(r)
                 && exists m :: m in r.matchers
                      && ((m.field == IP && p.parseIP(m.value).Some?
                           && Key(p.parseIP(m.value).value) == Key(dst.value))
                          || (m.field == CIDR && p.parseCIDR(m.value).Some?
                              && InNetwork(p.parseCIDR(m.value).value, dst.value)))
  {
    if dst.Some? {
      IpMember(p, rs, Key(dst.value), r);
      match dst.value
      case V4(d) => Cidr4Member(p, rs, d, r);
      case V6(d) => Cidr6Member(p, rs, d, r);
    }
  }

  /** Every rule the walk meets fires. */
  lemma CandidateFires(p: Parsers, rs: seq<Rule>, a: Attributes, r: Rule)
    requires r in Candidates(p, Items(rs), a)
    ensures Fires(p, rs, a, r)
  {
    hide SuffixTrie.Longest, RulesFor, Items, ExactLog, SuffixLog, AddressCandidates, Matching, LinearLog;
    hide Normalize, TrimStar, RuleMatches, IsLongestSuffix, InNetwork;
    var dom := Normalize(a.domain);
    if dom != "" && r in RulesFor(ExactLog(Items(rs)), dom) {
      ExactMember(rs, dom, r);
      var m :| m in r.matchers && m.field == Domain && Normalize(m.value) == dom;
      assert MatcherFires(p, rs, a, r, m);
    } else if dom != "" && r in SuffixTrie.Longest(SuffixLog(Items(rs)), dom) {
      SuffixSound(rs, dom, r);
      var m :| m in r.matchers && IsSuffixMatcher(m) && IsLongestSuffix(rs, dom, TrimStar(m.value));
      assert MatcherFires(p, rs, a, r, m);
    } else if r in AddressCandidates(p, Items(rs), a.dst) {
      FiresByAddress(p, rs, a, r);
    } else {
      LinearMember(p, rs, a, r);
      if !IsCategoryRule(r) {
        var m :| m in r.matchers && !IsTreeField(m.field);
        assert MatcherFires(p, rs, a, r, m);
      }
    }
  }

  /** Every rule that fires is met by the walk. */
  lemma FiringIsCandidate(p: Parsers, rs: seq<Rule>, a: Attributes, r: Rule)
    requires Fires(p, rs, a, r)
    ensures r in Candidates(p, Items(rs), a)
  {
    hide SuffixTrie.Longest, RulesFor, Items, ExactLog, SuffixLog, AddressCandidates, Matching, LinearLog;
    hide Normalize, TrimStar, RuleMatches, InNetwork;
    var dom := Normalize(a.domain);
    LinearMember(p, rs, a, r);
    if !IsCategoryRule(r) {
      var m :| m in r.matchers && MatcherFires(p, rs, a, r, m);
      if m.field == Domain {
        ExactMember(rs, dom, r);
      } else if IsSuffixMatcher(m) {
        SuffixComplete(rs, dom, r, m);
      } else if m.field == IP || m.field == CIDR {
        AddressMember(p, rs, a.dst, r);
      }
    }
  }

  /** The index agrees with the plain scan: a walk meets a rule exactly when the rule fires. */
  lemma CandidatesFire(p: Parsers, rs: seq<Rule>, a: Attributes, r: Rule)
    ensures r in Candidates(p, Items(rs), a) <==> Fires(p, rs, a, r)
  {
    hide Candidates, Fires;
    if r in Candidates(p, Items(rs), a) {
      CandidateFires(p, rs, a, r);
    }
    if Fires(p, rs, a, r) {
      FiringIsCandidate(p, rs, a, r);
    }
  }

  lemma FiresByAddress(p: Parsers, rs: seq<Rule>, a: Attributes, r: Rule)
    requires r in AddressCandidates(p, Items(rs), a.dst)
    ensures Fires(p, rs, a, r)
  {
    AddressMember(p, rs, a.dst, r);
    var d := a.dst.value;
    var m :| m in r.matchers
             && ((m.field == IP && p.parseIP(m.value).Some? && Key(p.parseIP(m.value).value) == Key(d))
                 || (m.field == CIDR && p.parseCIDR(m.value).Some? && InNetwork(p.parseCIDR(m.value).value, d)));
    assert MatcherFires(p, rs, a, r, m);
  }

  // ---- What firing means ----

  /** Trimming and lower-casing: the text between the white space at both ends, without capitals. */
  lemma NormalizeExact(s: string) returns (from: nat, to: nat)
    ensures from <= to <= |s| && |Normalize(s)| == to - from
    ensures forall i :: 0 <= i < to - from ==>
              SameLetter(Normalize(s)[i], s[from + i]) && !('A' <= Normalize(s)[i] <= 'Z')
    ensures AllSpace(s[..from]) && AllSpace(s[to..])
    ensures from < to ==> !IsSpace(s[from]) && !IsSpace(s[to - 1])
  {
    hide TrimSpace, ToLower, IsSpace, AllSpace;
    from, to := TrimExact(s);
    CaseExact(TrimSpace(s));
  }

  /** A suffix pattern loses one leading star, and the dot behind it. */
  lemma TrimStarExact(s: string)
    ensures var n, t := Normalize(s), TrimStar(s);
            || n == "*." + t
            || (n == "*" + t && !HasPrefix(t, "."))
            || (n == t && !HasPrefix(t, "*"))
  {
    hide Normalize;
    var n := Normalize(s);
    if HasPrefix(n, "*") {
      assert n == "*" + n[1..];
      if HasPrefix(n[1..], ".") {
        assert n == "*." + n[2..];
      } else if |n| > 1 {
        assert n[1..][..1] == [n[1]];
      }
    }
  }

  /** Two addresses share an exact-address key when they are the same address, or one is an IPv6 address made of the other's
      four octets and twelve zeros. */
  lemma KeysCollide(x: Addr, y: Addr)
    ensures Key(x) == Key(y) <==>
            || x == y
            || (x.V4? && y.V6? && y.a6[..4] == x.a4 && forall i :: 4 <= i < 16 ==> y.a6[i] == 0)
            || (y.V4? && x.V6? && x.a6[..4] == y.a4 && forall i :: 4 <= i < 16 ==> x.a6[i] == 0)
  {
    match (x, y)
    case (V4(a), V4(b)) => assert Key(x)[..4] == a && Key(y)[..4] == b;
    case (V4(a), V6(b)) => assert Key(x)[..4] == a; assert b == b[..4] + b[4..];
    case (V6(a), V4(b)) => assert Key(y)[..4] == b; assert a == a[..4] + a[4..];
    case (V6(a), V6(b)) =>
  }

  /** When an enabled rule with a single matcher fires, field by field. */
  lemma OneFires(p: Parsers, rs: seq<Rule>, a: Attributes, r: Rule, m: Matcher)
    requires r in rs && r.enabled && r.matchers == [m] && !(r.kind == Block && r.category != "")
    ensures m.field == Domain ==>
              (Fires(p, rs, a, r) <==> Normalize(a.domain) != "" && Normalize(m.value) == Normalize(a.domain))
    ensures m.field == DomainSuffix || m.field == Wildcard ==>
              (Fires(p, rs, a, r) <==> IsLongestSuffix(rs, Normalize(a.domain), TrimStar(m.value)))
    ensures m.field == IP ==>
              (Fires(p, rs, a, r) <==>
               exists d, e :: a.dst == Some(d) && p.parseIP(m.value) == Some(e) && Key(d) == Key(e))
    ensures m.field == CIDR ==>
              (Fires(p, rs, a, r) <==>
               exists d, n :: a.dst == Some(d) && p.parseCIDR(m.value) == Some(n) && InNetwork(n, d))
    ensures m.field == SNI ==> (Fires(p, rs, a, r) <==> EqualFold(a.sni, m.value))
    ensures m.field == DNS ==> (Fires(p, rs, a, r) <==> a.domain != "" && EqualFold(a.domain, m.value))
    ensures m.field == Protocol ==> (Fires(p, rs, a, r) <==> EqualFold(a.proto, m.value))
    ensures m.field == Category ==> (Fires(p, rs, a, r) <==> EqualFold(a.category, m.value))
    ensures m.field == Field.Port ==>
              (Fires(p, rs, a, r) <==>
               exists n :: p.atoi(m.value) == Some(n) && ((n - a.srcPort) % 65536 == 0 || (n - a.dstPort) % 65536 == 0))
    ensures m.field == ASN || m.field.OtherField? ==> !Fires(p, rs, a, r)
  {
    hide RuleMatches, EqualFold, Normalize, TrimStar, IsLongestSuffix, InNetwork, Key;
    OneMatcher(p, r, m, a);
    assert m in r.matchers;
    assert Fires(p, rs, a, r) <==> MatcherFires(p, rs, a, r, m);
  }

  /** When an enabled rule with any matchers fires: one of its tree matchers fires alone, or it has another matcher and every
      rule with one of its matchers matches. */
  lemma SeveralFire(p: Parsers, rs: seq<Rule>, a: Attributes, r: Rule, ones: seq<Rule>)
    requires r in rs && r.enabled && !(r.kind == Block && r.category != "")
    requires |ones| == |r.matchers|
    requires forall i :: 0 <= i < |ones| ==>
               && ones[i].matchers == [r.matchers[i]] && !(ones[i].kind == Block && ones[i].category != "")
               && ones[i] in rs && ones[i].enabled
    ensures Fires(p, rs, a, r) <==>
            || (exists i :: 0 <= i < |ones| && IsTreeField(r.matchers[i].field) && Fires(p, rs, a, ones[i]))
            || ((exists i :: 0 <= i < |ones| && !IsTreeField(r.matchers[i].field))
                && forall i :: 0 <= i < |ones| ==> RuleMatches(p, ones[i], a))
  {
    hide RuleMatches, Normalize, TrimStar, IsLongestSuffix, InNetwork, Key;
    if r.matchers != [] {
      SeveralMatchers(p, r, ones, a);
    }
    forall i | 0 <= i < |ones| && IsTreeField(r.matchers[i].field)
      ensures Fires(p, rs, a, ones[i]) <==> MatcherFires(p, rs, a, r, r.matchers[i])
    {
      OneTreeFires(p, rs, a, r, ones[i], r.matchers[i]);
    }
    if Fires(p, rs, a, r) {
      var m :| m in r.matchers && MatcherFires(p, rs, a, r, m);
      var i :| 0 <= i < |r.matchers| && r.matchers[i] == m;
      assert IsTreeField(r.matchers[i].field) || !IsTreeField(r.matchers[i].field);
    }
    if i :| 0 <= i < |ones| && IsTreeField(r.matchers[i].field) && Fires(p, rs, a, ones[i]) {
      assert r.matchers[i] in r.matchers;
    }
    if i :| 0 <= i < |ones| && !IsTreeField(r.matchers[i].field) && RuleMatches(p, r, a) {
      assert MatcherFires(p, rs, a, r, r.matchers[i]);
    }
  }

  lemma OneTreeFires(p: Parsers, rs: seq<Rule>, a: Attributes, r: Rule, one: Rule, m: Matcher)
    requires one in rs && one.enabled && one.matchers == [m] && !(one.kind == Block && one.category != "")
    requires IsTreeField(m.field)
    ensures Fires(p, rs, a, one) <==> MatcherFires(p, rs, a, r, m)
  {
    hide RuleMatches, Normalize, TrimStar, IsLongestSuffix, InNetwork, Key;
    assert m in one.matchers;
    assert Fires(p, rs, a, one) <==> MatcherFires(p, rs, a, one, m);
  }

  /** A category rule fires for its category, whatever its matchers. */
  lemma CategoryFires(p: Parsers, rs: seq<Rule>, a: Attributes, r: Rule)
    requires r.kind == Block && r.category != ""
    ensures Fires(p, rs, a, r) <==> r in rs && r.enabled && r.matchers != [] && EqualFold(a.category, r.category)
  {
    hide EqualFold;
  }
}
