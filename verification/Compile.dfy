// Compile and the walk over the compiled indexes: internal/rules/repo.go, CompiledSet.
module Compile {
  import opened TreeLog
  import opened Options
  import opened Rules
  import opened RuleIndex
  import SuffixTrie
  import CidrTree

  /** What a map from key to rule list answers, a missing key being the empty list. */
  function Get<K>(m: map<K, seq<Rule>>, k: K): seq<Rule> {
    if k in m then m[k] else []
  }

  ghost function CountIndexed(rs: seq<Rule>): nat {
    if rs == [] then 0
    else CountIndexed(rs[..|rs| - 1]) + (if Indexed(rs[|rs| - 1]) then 1 else 0)
  }

  /** The enabled rule registered last under an identifier. */
  ghost function ByID(rs: seq<Rule>, id: string): Option<Rule> {
    if rs == [] then None
    else
      var n := |rs| - 1;
      if rs[n].enabled && rs[n].id == id then Some(rs[n]) else ByID(rs[..n], id)
  }

  /** The pre-indexed view of a rule set. The two trees are shared heap structures, written only by Compile. */
  datatype CompiledSet = CompiledSet(
    exact: map<string, seq<Rule>>,
    suffix: SuffixTrie.SuffixTrie<Rule>,
    cidr4: CidrTree.CidrTree<Rule>,
    cidr6: CidrTree.CidrTree<Rule>,
    ipExact: map<Octets16, seq<Rule>>,
    linear: seq<Rule>,
    byID: map<string, Rule>,
    ruleCount: nat)
  {
    ghost function Repr(): set<object>
      reads suffix, cidr4, cidr6
    {
      suffix.Repr + cidr4.Repr + cidr6.Repr
    }

    /** The maps and the list stand for the indexing work `items`. */
    ghost predicate Flat(p: Parsers, items: seq<Item>) {
      && (forall k :: Get(exact, k) == RulesFor(ExactLog(items), k))
      && (forall k :: Get(ipExact, k) == RulesFor(IpLog(p, items), k))
      && linear == LinearLog(items)
    }

    /** The three trees stand for the three insertion logs, without sharing a node. */
    ghost predicate Trees(sfx: seq<(Path<char>, Rule)>, net4: seq<(Path<bool>, Rule)>, net6: seq<(Path<bool>, Rule)>)
      reads suffix, cidr4, cidr6, suffix.Repr, cidr4.Repr, cidr6.Repr
    {
      && suffix.Repr !! cidr4.Repr && suffix.Repr !! cidr6.Repr && cidr4.Repr !! cidr6.Repr
      && suffix.Holds(sfx)
      && cidr4.octets == 4 && cidr4.Holds(net4)
      && cidr6.octets == 16 && cidr6.Holds(net6)
    }

    /** All indexes together stand for `items`. */
    ghost predicate Holds(p: Parsers, items: seq<Item>)
      reads suffix, cidr4, cidr6, suffix.Repr, cidr4.Repr, cidr6.Repr
    {
      Flat(p, items) && Trees(SuffixLog(items), Cidr4Log(p, items), Cidr6Log(p, items))
    }
  }

  /** The index that one more item extends; every other index log stays as it was. */
  lemma AppendLogs(p: Parsers, items: seq<Item>, it: Item)
    ensures ExactLog(items + [it]) == Append(ExactLog(items), ExactEntry(it))
    ensures SuffixLog(items + [it]) == Append(SuffixLog(items), SuffixEntry(it))
    ensures IpLog(p, items + [it]) == Append(IpLog(p, items), IpEntry(p, it))
    ensures Cidr4Log(p, items + [it]) == Append(Cidr4Log(p, items), Cidr4Entry(p, it))
    ensures Cidr6Log(p, items + [it]) == Append(Cidr6Log(p, items), Cidr6Entry(p, it))
    ensures LinearLog(items + [it]) == Append(LinearLog(items), LinearEntry(it))
  {
    FilterMapAppend(ExactEntry, items, it);
    FilterMapAppend(SuffixEntry, items, it);
    FilterMapAppend((x: Item) => IpEntry(p, x), items, it);
    FilterMapAppend((x: Item) => Cidr4Entry(p, x), items, it);
    FilterMapAppend((x: Item) => Cidr6Entry(p, x), items, it);
    FilterMapAppend(LinearEntry, items, it);
  }

  /** Extending one list of a key-to-rules map. */
  lemma GetAppend<K>(m: map<K, seq<Rule>>, log: seq<(K, Rule)>, k: K, r: Rule)
    requires forall x :: Get(m, x) == RulesFor(log, x)
    ensures forall x :: Get(m[k := Get(m, k) + [r]], x) == RulesFor(log + [(k, r)], x)
  {
    forall x
      ensures Get(m[k := Get(m, k) + [r]], x) == RulesFor(log + [(k, r)], x)
    {
      RulesForAppend(log, (k, r), x);
    }
  }

  method EmptySet(p: Parsers) returns (c: CompiledSet)
    ensures c.Holds(p, []) && fresh(c.Repr())
    ensures c.ruleCount == 0 && c.byID == map[]
  {
    hide FilterMap, RulesFor, SuffixTrie.SuffixTrie.Shape, CidrTree.CidrTree.Shape, Records;
    hide ExactLog, SuffixLog, IpLog, Cidr4Log, Cidr6Log, LinearLog, CompiledSet.Flat;
    var suffix := new SuffixTrie.SuffixTrie<Rule>();
    var cidr4 := new CidrTree.CidrTree<Rule>(4);
    var cidr6 := new CidrTree.CidrTree<Rule>(16);
    c := CompiledSet(map[], suffix, cidr4, cidr6, map[], [], map[], 0);
    EmptyFlat(p, c);
  }

  lemma EmptyFlat(p: Parsers, c: CompiledSet)
    requires c.exact == map[] && c.ipExact == map[] && c.linear == []
    ensures c.Flat(p, [])
    ensures SuffixLog([]) == [] && Cidr4Log(p, []) == [] && Cidr6Log(p, []) == []
  {
  }

  method InsertSuffix(c: CompiledSet, pattern: string, r: Rule, ghost sfx: seq<(Path<char>, Rule)>,
                      ghost net4: seq<(Path<bool>, Rule)>, ghost net6: seq<(Path<bool>, Rule)>)
    requires c.Trees(sfx, net4, net6)
    modifies c.suffix.Repr
    ensures c.Trees(sfx + [(SuffixTrie.PathOf(pattern), r)], net4, net6)
    ensures fresh(c.Repr() - old(c.Repr()))
  {
    hide SuffixTrie.SuffixTrie.Shape, CidrTree.CidrTree.Shape, Records;
    c.suffix.Insert(pattern, r, sfx);
  }

  method InsertNetwork(c: CompiledSet, net: Network, r: Rule, ghost sfx: seq<(Path<char>, Rule)>,
                       ghost net4: seq<(Path<bool>, Rule)>, ghost net6: seq<(Path<bool>, Rule)>)
    requires c.Trees(sfx, net4, net6)
    modifies c.cidr4.Repr, c.cidr6.Repr
    ensures net.Net4? ==> c.Trees(sfx, net4 + [(CidrTree.PathOf(net.net4, net.ones4), r)], net6)
    ensures net.Net6? ==> c.Trees(sfx, net4, net6 + [(CidrTree.PathOf(net.net6, net.ones6), r)])
    ensures fresh(c.Repr() - old(c.Repr()))
  {
    hide SuffixTrie.SuffixTrie.Shape, CidrTree.CidrTree.Shape, Records;
    match net {
      case Net4(a, ones) => c.cidr4.Insert(a, ones, r, net4);
      case Net6(a, ones) => c.cidr6.Insert(a, ones, r, net6);
    }
  }

  /** The part of the field switch that writes a map or the list. */
  function IndexFlat(p: Parsers, c: CompiledSet, r: Rule, m: Matcher): (c': CompiledSet)
    ensures c'.suffix == c.suffix && c'.cidr4 == c.cidr4 && c'.cidr6 == c.cidr6
    ensures c'.byID == c.byID && c'.ruleCount == c.ruleCount
  {
    match m.field
    case Domain =>
      var k := Normalize(m.value);
      c.(exact := c.exact[k := Get(c.exact, k) + [r]])
    case DomainSuffix => c
    case Wildcard => c
    case IP =>
      (match p.parseIP(m.value)
       case None => c
       case Some(d) => c.(ipExact := c.ipExact[Key(d) := Get(c.ipExact, Key(d)) + [r]]))
    case CIDR => c
    case _ => c.(linear := c.linear + [r])
  }

  lemma IndexFlatHolds(p: Parsers, c: CompiledSet, r: Rule, m: Matcher, items: seq<Item>)
    requires c.Flat(p, items)
    ensures IndexFlat(p, c, r, m).Flat(p, items + [Cond(r, m)])
  {
    hide FilterMap, RulesFor, ExactLog, SuffixLog, IpLog, Cidr4Log, Cidr6Log, LinearLog;
    AppendLogs(p, items, Cond(r, m));
    if m.field == Domain {
      GetAppend(c.exact, ExactLog(items), Normalize(m.value), r);
    } else if m.field == IP && p.parseIP(m.value).Some? {
      GetAppend(c.ipExact, IpLog(p, items), Key(p.parseIP(m.value).value), r);
    }
  }

  /** The switch over a matcher's field: exactly one index takes the rule, or none when the value does not parse. */
  method IndexMatcher(p: Parsers, c: CompiledSet, r: Rule, m: Matcher, ghost items: seq<Item>)
    returns (c': CompiledSet)
    requires c.Holds(p, items)
    modifies c.suffix.Repr, c.cidr4.Repr, c.cidr6.Repr
    ensures c'.Holds(p, items + [Cond(r, m)])
    ensures c'.suffix == c.suffix && c'.cidr4 == c.cidr4 && c'.cidr6 == c.cidr6
    ensures c'.byID == c.byID && c'.ruleCount == c.ruleCount
    ensures fresh(c'.Repr() - old(c.Repr()))
  {
    hide FilterMap, RulesFor, ExactLog, SuffixLog, IpLog, Cidr4Log, Cidr6Log, LinearLog, CompiledSet.Flat;
    hide SuffixTrie.SuffixTrie.Holds, CidrTree.CidrTree.Holds;
    AppendLogs(p, items, Cond(r, m));
    IndexFlatHolds(p, c, r, m, items);
    c' := IndexFlat(p, c, r, m);
    ghost var sfx, net4, net6 := SuffixLog(items), Cidr4Log(p, items), Cidr6Log(p, items);
    if IsSuffixMatcher(m) {
      InsertSuffix(c, TrimStar(m.value), r, sfx, net4, net6);
    } else if m.field == CIDR {
      var net := p.parseCIDR(m.value);
      if net.Some? {
        InsertNetwork(c, net.value, r, sfx, net4, net6);
      }
    }
  }

  /** All matchers of one indexed rule, in order. */
  method IndexRule(p: Parsers, c: CompiledSet, r: Rule, ghost items: seq<Item>) returns (c': CompiledSet)
    requires c.Holds(p, items)
    modifies c.suffix.Repr, c.cidr4.Repr, c.cidr6.Repr
    ensures c'.Holds(p, items + Conds(r, |r.matchers|))
    ensures c'.suffix == c.suffix && c'.cidr4 == c.cidr4 && c'.cidr6 == c.cidr6
    ensures c'.byID == c.byID && c'.ruleCount == c.ruleCount
    ensures fresh(c'.Repr() - old(c.Repr()))
  {
    hide CompiledSet.Flat, CompiledSet.Trees, ExactLog, SuffixLog, IpLog, Cidr4Log, Cidr6Log, LinearLog;
    c' := c;
    assert items + Conds(r, 0) == items;
    for i := 0 to |r.matchers|
      invariant c'.Holds(p, items + Conds(r, i))
      invariant c'.suffix == c.suffix && c'.cidr4 == c.cidr4 && c'.cidr6 == c.cidr6
      invariant c'.byID == c.byID && c'.ruleCount == c.ruleCount
      invariant fresh(c'.Repr() - old(c.Repr()))
    {
      assert items + Conds(r, i + 1) == items + Conds(r, i) + [Cond(r, r.matchers[i])];
      c' := IndexMatcher(p, c', r, r.matchers[i], items + Conds(r, i));
    }
  }

  /** Registering a rule by its identifier and counting it leaves the indexes alone. */
  lemma SameIndexes(p: Parsers, c: CompiledSet, d: CompiledSet, items: seq<Item>)
    requires c.Holds(p, items)
    requires d == c.(byID := d.byID, ruleCount := d.ruleCount)
    ensures d.Holds(p, items)
  {
    hide RulesFor, SuffixTrie.SuffixTrie.Holds, CidrTree.CidrTree.Holds;
  }

  /** Compile: every enabled rule goes to the indexes its matchers name, category rules to the list. */
  method Compile(p: Parsers, rs: seq<Rule>) returns (c: CompiledSet)
    ensures c.Holds(p, Items(rs)) && fresh(c.Repr())
    ensures c.ruleCount == CountIndexed(rs)
    ensures forall id :: (if id in c.byID then Some(c.byID[id]) else None) == ByID(rs, id)
  {
    hide CompiledSet.Flat, CompiledSet.Trees, ExactLog, SuffixLog, IpLog, Cidr4Log, Cidr6Log, LinearLog;
    c := EmptySet(p);
    assert rs[..0] == [];
    for i := 0 to |rs|
      invariant c.Holds(p, Items(rs[..i])) && fresh(c.Repr())
      invariant c.ruleCount == CountIndexed(rs[..i])
      invariant forall id :: (if id in c.byID then Some(c.byID[id]) else None) == ByID(rs[..i], id)
    {
      var r := rs[i];
      assert rs[..i + 1][..i] == rs[..i];
      assert Items(rs[..i]) + [] == Items(rs[..i]);
      if r.enabled {
        var n := if IsCategoryRule(r) then c.ruleCount else c.ruleCount + 1;
        var tagged := c.(byID := c.byID[r.id := r], ruleCount := n);
        SameIndexes(p, c, tagged, Items(rs[..i]));
        if IsCategoryRule(r) {
          c := AddLinear(p, tagged, r, Items(rs[..i]));
        } else {
          c := IndexRule(p, tagged, r, Items(rs[..i]));
        }
      }
    }
    assert rs[..|rs|] == rs;
  }

  method AddLinear(p: Parsers, c: CompiledSet, r: Rule, ghost items: seq<Item>) returns (c': CompiledSet)
    requires c.Holds(p, items)
    ensures c' == c.(linear := c.linear + [r])
    ensures c'.Holds(p, items + [Whole(r)])
  {
    hide FilterMap, RulesFor, ExactLog, SuffixLog, IpLog, Cidr4Log, Cidr6Log, LinearLog;
    hide SuffixTrie.SuffixTrie.Holds, CidrTree.CidrTree.Holds;
    AppendLogs(p, items, Whole(r));
    c' := c.(linear := c.linear + [r]);
  }
}
