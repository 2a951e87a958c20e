// The mutable rule store: internal/rules/repo.go, RuleRepo. Each method is one step under the store's lock.
module Repo {
  import opened Options
  import opened Rules
  import opened RuleIndex
  import opened Compile
  import opened Evaluate

  /** The first rule with an identifier, by position; the length of the list when there is none. */
  ghost function IndexOf(rs: seq<Rule>, id: string): (k: nat)
    ensures k <= |rs|
    ensures k < |rs| ==> rs[k].id == id
    ensures forall j :: 0 <= j < k ==> rs[j].id != id
  {
    if rs == [] || rs[0].id == id then 0 else 1 + IndexOf(rs[1..], id)
  }

  lemma IndexOfUnique(rs: seq<Rule>, id: string, k: nat)
    requires k <= |rs| && (k < |rs| ==> rs[k].id == id)
    requires forall j :: 0 <= j < k ==> rs[j].id != id
    ensures IndexOf(rs, id) == k
  {
  }

  /** How many entries of `ids` are accounted to the rule object `x`. */
  ghost function HitsFor(rs: seq<Rule>, ids: seq<Rule>, x: Rule): nat {
    if ids == [] then 0
    else
      var n := |ids| - 1;
      var k := IndexOf(rs, ids[n].id);
      HitsFor(rs, ids[..n], x) + (if k < |rs| && rs[k] == x then 1 else 0)
  }

  /** A 64-bit counter after `n` increments. */
  ghost function Bumped(h: HitCount, n: nat): HitCount {
    (h + n) % HITS_WRAP
  }

  lemma BumpedOneMore(h: HitCount, n: nat)
    ensures Bumped(h, 0) == h
    ensures (Bumped(h, n) + 1) % HITS_WRAP == Bumped(h, n + 1)
  {
  }

  lemma BumpedExact(h: HitCount, n: nat)
    ensures Bumped(h, n) == (h + n) % 18446744073709551616
  {
  }

  class RuleRepo {
    const p: Parsers
    var rules: seq<Rule>
    var compiled: CompiledSet

    /** The compiled indexes are those of the current rules and share no object with them. */
    ghost predicate Valid()
      reads this, compiled.suffix, compiled.cidr4, compiled.cidr6
      reads compiled.suffix.Repr, compiled.cidr4.Repr, compiled.cidr6.Repr
    {
      && this !in compiled.Repr()
      && (forall r :: r in rules ==> r !in compiled.Repr())
      && compiled.Holds(p, Items(rules))
    }

    constructor (p: Parsers)
      ensures Valid() && rules == [] && this.p == p
    {
      hide CompiledSet.Holds, Items;
      var c := Compile.Compile(p, []);
      this.p := p;
      rules, compiled := [], c;
    }

    /** Replace: swap in a whole rule set, compiled beforehand. */
    method Replace(rs: seq<Rule>)
      modifies this
      ensures Valid() && rules == rs && fresh(compiled.Repr())
    {
      hide CompiledSet.Holds, Items;
      var c := Compile.Compile(p, rs);
      rules, compiled := rs, c;
    }

    /** Add: validate and append; a rule without an identifier is stored under the fresh one. */
    method Add(rule: Rule, newID: string) returns (ok: bool)
      requires Valid()
      modifies this
      ensures Valid()
      ensures ok == Accepted(rule.kind, rule.matchers)
      ensures !ok ==> rules == old(rules)
      ensures ok && rule.id != "" ==> rules == old(rules) + [rule]
      ensures ok && rule.id == "" ==>
                && |rules| == |old(rules)| + 1 && rules[..|old(rules)|] == old(rules)
                && var r := rules[|old(rules)|];
                   r.id == newID && r.kind == rule.kind && r.enabled == rule.enabled && r.category == rule.category
                   && r.matchers == rule.matchers && r.name == rule.name && r.source == rule.source
                   && r.comment == rule.comment && r.hits == old(rule.hits) && r.lastHit == old(rule.lastHit)
    {
      var stored := rule;
      if rule.id == "" {
        stored := new Rule(newID, rule.name, rule.kind, rule.enabled, rule.category, rule.matchers, rule.source,
                           rule.comment, rule.hits, rule.lastHit);
      }
      ok := ValidRule(stored.kind, stored.matchers);
      ValidExact(stored.kind, stored.matchers);
      if ok {
        Replace(rules + [stored]);
      }
    }

    /** Update: put the rule in place of the first one with its identifier. */
    method Update(rule: Rule) returns (ok: bool)
      requires Valid()
      modifies this
      ensures Valid()
      ensures ok == (Accepted(rule.kind, rule.matchers) && IndexOf(old(rules), rule.id) < |old(rules)|)
      ensures rules == if ok then old(rules)[IndexOf(old(rules), rule.id) := rule] else old(rules)
    {
      hide CompiledSet.Holds, Items, ValidRule, Accepted;
      ValidExact(rule.kind, rule.matchers);
      if !ValidRule(rule.kind, rule.matchers) {
        return false;
      }
      for i := 0 to |rules|
        invariant rules == old(rules) && Valid()
        invariant forall j :: 0 <= j < i ==> rules[j].id != rule.id
      {
        if rules[i].id == rule.id {
          IndexOfUnique(rules, rule.id, i);
          Replace(rules[i := rule]);
          return true;
        }
      }
      return false;
    }

    /** Delete: drop the first rule with the identifier. */
    method Delete(id: string) returns (ok: bool)
      requires Valid()
      modifies this
      ensures Valid()
      ensures ok == (IndexOf(old(rules), id) < |old(rules)|)
      ensures rules == if ok then old(rules)[..IndexOf(old(rules), id)] + old(rules)[IndexOf(old(rules), id) + 1..]
                       else old(rules)
    {
      hide CompiledSet.Holds, Items;
      for i := 0 to |rules|
        invariant rules == old(rules) && Valid()
        invariant forall j :: 0 <= j < i ==> rules[j].id != id
      {
        if rules[i].id == id {
          IndexOfUnique(rules, id, i);
          Replace(rules[..i] + rules[i + 1..]);
          return true;
        }
      }
      return false;
    }

    /** Get: the first rule with the identifier. */
    method Get(id: string) returns (r: Rule?)
      ensures r == null <==> IndexOf(rules, id) == |rules|
      ensures r != null ==> r == rules[IndexOf(rules, id)]
    {
      for i := 0 to |rules|
        invariant forall j :: 0 <= j < i ==> rules[j].id != id
      {
        if rules[i].id == id {
          IndexOfUnique(rules, id, i);
          return rules[i];
        }
      }
      return null;
    }

    /** What accounting `ids` at time `now` makes of one rule. */
    ghost predicate Accounted(ids: seq<Rule>, now: int, x: Rule, hits0: HitCount, last0: int)
      reads this, x
    {
      && x.hits == Bumped(hits0, HitsFor(rules, ids, x))
      && x.lastHit == if HitsFor(rules, ids, x) > 0 then now else last0
    }

    /** RecordHit: hit counters and hit times move, the rules and their indexes do not. */
    method RecordHit(ids: seq<Rule>, now: int)
      requires Valid()
      modifies rules
      ensures Valid()
      ensures forall x :: x in rules ==>
                && x.hits == (old(x.hits) + HitsFor(rules, ids, x)) % 18446744073709551616
                && x.lastHit == if HitsFor(rules, ids, x) > 0 then now else old(x.lastHit)
    {
      hide CompiledSet.Holds, Items, IndexOf, Bumped;
      forall x | x in rules
        ensures Accounted(ids[..0], now, x, x.hits, x.lastHit)
      {
        BumpedOneMore(x.hits, 0);
      }
      for n := 0 to |ids|
        invariant Valid()
        invariant forall x :: x in rules ==> Accounted(ids[..n], now, x, old(x.hits), old(x.lastHit))
      {
        assert ids[..n + 1][..n] == ids[..n];
        var k := FindFirst(ids[n].id);
        if k < |rules| {
          BumpedOneMore(old(rules[k].hits), HitsFor(rules, ids[..n], rules[k]));
          rules[k].Hit(now);
        }
      }
      assert ids[..|ids|] == ids;
      forall x | x in rules
        ensures x.hits == (old(x.hits) + HitsFor(rules, ids, x)) % 18446744073709551616
      {
        BumpedExact(old(x.hits), HitsFor(rules, ids, x));
      }
    }

    method FindFirst(id: string) returns (k: nat)
      ensures k == IndexOf(rules, id)
    {
      k := 0;
      while k < |rules| && rules[k].id != id
        invariant k <= |rules| && forall j :: 0 <= j < k ==> rules[j].id != id
      {
        k := k + 1;
      }
      IndexOfUnique(rules, id, k);
    }

    method EvalBuckets(a: Attributes) returns (b: Buckets)
      requires Valid()
      ensures IsOutcome(b, Outcome(p, rules, a))
    {
      b := Evaluate.EvalBuckets(p, compiled, a, rules);
    }

    method Eval(a: Attributes) returns (d: Option<Decision>, matched: seq<Rule>)
      requires Valid()
      ensures d == Verdict(Outcome(p, rules, a))
      ensures matched == Layered(Outcome(p, rules, a), TopLayer(Outcome(p, rules, a)))
    {
      d, matched := Evaluate.Eval(p, compiled, a, rules);
    }
  }
}
