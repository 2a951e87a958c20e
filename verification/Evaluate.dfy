// Evaluation: the priority layers, the walk that fills them and the choice inside a layer
// (internal/rules/repo.go, classifyRule, collect, pick, Eval and EvalBuckets).
module Evaluate {
  import opened TreeLog
  import opened Options
  import opened Rules
  import opened RuleIndex
  import opened Compile
  import SuffixTrie
  import CidrTree

  datatype Layer = AllowLayer | BlockLayer | CategoryLayer | OtherLayer | NoLayer

  /** The layer a rule is sorted into; a rule of an unknown kind is in none. */
  function LayerOf(r: Rule): Layer {
    match r.kind
    case Allow => AllowLayer
    case Block => if r.category != "" then CategoryLayer else BlockLayer
    case Observe => OtherLayer
    case RateLimit => OtherLayer
    case OtherKind(_) => NoLayer
  }

  /** The four layers under construction and the rules met so far. */
  datatype Walk = Walk(allow: seq<Rule>, block: seq<Rule>, category: seq<Rule>, others: seq<Rule>, seen: set<Rule>)

  function Layered(w: Walk, l: Layer): seq<Rule> {
    match l
    case AllowLayer => w.allow
    case BlockLayer => w.block
    case CategoryLayer => w.category
    case OtherLayer => w.others
    case NoLayer => []
  }

  const EmptyWalk := Walk([], [], [], [], {})

  /** classifyRule: sort a rule met for the first time into its layer. */
  function ClassifyRule(w: Walk, r: Rule): Walk {
    if r in w.seen then w
    else
      var v := w.(seen := w.seen + {r});
      match r.kind
      case Allow => v.(allow := v.allow + [r])
      case Block => if r.category != "" then v.(category := v.category + [r]) else v.(block := v.block + [r])
      case Observe => v.(others := v.others + [r])
      case RateLimit => v.(others := v.others + [r])
      case OtherKind(_) => v
  }

  // ---- Specification of the layers ----

  /** The rules of one layer among those met, each at its first meeting. */
  ghost function Only(met: seq<Rule>, l: Layer): seq<Rule> {
    if met == [] then []
    else
      var n := |met| - 1;
      Only(met[..n], l) + (if met[n] !in met[..n] && LayerOf(met[n]) == l then [met[n]] else [])
  }

  ghost function WalkOf(met: seq<Rule>): Walk {
    Walk(Only(met, AllowLayer), Only(met, BlockLayer), Only(met, CategoryLayer), Only(met, OtherLayer),
         set r | r in met)
  }

  ghost predicate NoDuplicates(rs: seq<Rule>) {
    forall i, j :: 0 <= i < j < |rs| ==> rs[i] != rs[j]
  }

  /** A layer holds exactly the rules of its kind that were met, each once. */
  lemma {:induction false} OnlyExact(met: seq<Rule>, l: Layer)
    ensures forall r :: r in Only(met, l) <==> r in met && LayerOf(r) == l
    ensures NoDuplicates(Only(met, l))
  {
    if met != [] {
      var n := |met| - 1;
      OnlyExact(met[..n], l);
      assert met == met[..n] + [met[n]];
    }
  }

  lemma ClassifyStep(met: seq<Rule>, r: Rule)
    ensures ClassifyRule(WalkOf(met), r) == WalkOf(met + [r])
  {
    assert (met + [r])[..|met|] == met;
    assert (set x | x in met + [r]) == (set x | x in met) + {r};
  }

  lemma ClassifyKnown(met: seq<Rule>, r: Rule)
    requires r in met
    ensures WalkOf(met + [r]) == WalkOf(met)
  {
    assert (met + [r])[..|met|] == met;
    assert (set x | x in met + [r]) == (set x | x in met);
  }

  // ---- The walk ----

  /** One of the loops that classify every rule of an index answer. */
  method ClassifyAll(w: Walk, rs: seq<Rule>, ghost met: seq<Rule>) returns (w': Walk)
    requires w == WalkOf(met)
    ensures w' == WalkOf(met + rs)
  {
    hide WalkOf, ClassifyRule;
    w' := w;
    assert met + rs[..0] == met;
    for i := 0 to |rs|
      invariant w' == WalkOf(met + rs[..i])
    {
      ClassifyStep(met + rs[..i], rs[i]);
      assert met + rs[..i + 1] == met + rs[..i] + [rs[i]];
      w' := ClassifyRule(w', rs[i]);
    }
    assert rs[..|rs|] == rs;
  }

  /** The loop over the linear list: skip rules already met, scan the others. */
  method ScanLinear(p: Parsers, a: Attributes, w: Walk, rs: seq<Rule>, ghost met: seq<Rule>) returns (w': Walk)
    requires w == WalkOf(met)
    ensures w' == WalkOf(met + Matching(p, a, rs))
  {
    hide ClassifyRule, RuleMatches, Only;
    w' := w;
    assert met + Matching(p, a, rs[..0]) == met;
    for i := 0 to |rs|
      invariant w' == WalkOf(met + Matching(p, a, rs[..i]))
    {
      ghost var before := met + Matching(p, a, rs[..i]);
      assert rs[..i + 1][..i] == rs[..i];
      assert met + Matching(p, a, rs[..i + 1]) == before + (if RuleMatches(p, rs[i], a) then [rs[i]] else []);
      assert before + [] == before;
      if rs[i] in w'.seen {
        ClassifyKnown(before, rs[i]);
      } else {
        var ok := ScanRule(p, rs[i], a);
        if ok {
          ClassifyStep(before, rs[i]);
          w' := ClassifyRule(w', rs[i]);
        }
      }
    }
    assert rs[..|rs|] == rs;
  }

  /** collect: exact domain, suffix, exact address, CIDR, then the linear list. */
  method Collect(p: Parsers, c: CompiledSet, a: Attributes, ghost items: seq<Item>) returns (w: Walk)
    requires c.Holds(p, items)
    ensures w == WalkOf(Candidates(p, items, a))
  {
    hide WalkOf, RulesFor, FilterMap, SuffixTrie.SuffixTrie.Holds, CidrTree.CidrTree.Holds;
    hide ExactLog, SuffixLog, IpLog, Cidr4Log, Cidr6Log, LinearLog, Normalize;
    hide Key, SuffixTrie.Longest, CidrTree.Collected, CidrTree.PathOf, Matching;
    EmptyWalkIsStart();
    w := EmptyWalk;
    ghost var met: seq<Rule> := [];
    var dom := Normalize(a.domain);
    if dom != "" {
      var exact := Get(c.exact, dom);
      w := ClassifyAll(w, exact, met);
      var sfx := c.suffix.Lookup(dom, SuffixLog(items));
      w := ClassifyAll(w, sfx, met + exact);
      met := met + exact + sfx;
    }
    assert met == DomainCandidates(items, dom);
    if a.dst.Some? {
      var same := Get(c.ipExact, Key(a.dst.value));
      w := ClassifyAll(w, same, met);
      var nets;
      match a.dst.value {
        case V4(ip) => nets := c.cidr4.Lookup(ip, Cidr4Log(p, items));
        case V6(ip) => nets := c.cidr6.Lookup(ip, Cidr6Log(p, items));
      }
      w := ClassifyAll(w, nets, met + same);
      assert met + same + nets == met + (same + nets);
      met := met + (same + nets);
    }
    assert met == DomainCandidates(items, dom) + AddressCandidates(p, items, a.dst);
    w := ScanLinear(p, a, w, c.linear, met);
  }

  lemma EmptyWalkIsStart()
    ensures EmptyWalk == WalkOf([])
  {
  }

  /** The layers of an evaluation: exactly the rules that fire, each once, in the layer of its kind. */
  lemma LayersExact(p: Parsers, rs: seq<Rule>, a: Attributes, l: Layer, r: Rule)
    requires l != NoLayer
    ensures r in Layered(WalkOf(Candidates(p, Items(rs), a)), l) <==> Fires(p, rs, a, r) && LayerOf(r) == l
    ensures var layer := Layered(WalkOf(Candidates(p, Items(rs), a)), l);
            forall i, j :: 0 <= i < j < |layer| ==> layer[i] != layer[j]
  {
    hide Candidates, Fires;
    OnlyExact(Candidates(p, Items(rs), a), l);
    CandidatesFire(p, rs, a, r);
  }

  // ---- The choice inside a layer ----

  datatype Decision = Decision(action: string, matchedRule: string, category: string)

  function DecisionOf(r: Rule): Decision {
    Decision(KindName(r.kind), r.Label(), r.category)
  }

  /** `x` is preferred to `y`: fewer matchers, or as many and hit later. */
  ghost predicate Preferred(x: Rule, y: Rule)
    reads x, y
  {
    |x.matchers| < |y.matchers| || (|x.matchers| == |y.matchers| && x.lastHit > y.lastHit)
  }

  /** Position `k` holds the first of the most preferred rules. */
  ghost predicate IsPick(rs: seq<Rule>, k: nat)
    reads rs
  {
    && k < |rs|
    && (forall j :: 0 <= j < k ==> Preferred(rs[k], rs[j]))
    && (forall j :: k < j < |rs| ==> !Preferred(rs[j], rs[k]))
  }

  lemma PickUnique(rs: seq<Rule>, j: nat, k: nat)
    requires IsPick(rs, j) && IsPick(rs, k)
    ensures j == k
  {
    var x, y := rs[j], rs[k];
    assert j < k ==> Preferred(y, x);
    assert k < j ==> Preferred(x, y);
  }

  lemma {:induction false} PickExists(rs: seq<Rule>)
    requires rs != []
    ensures exists k :: IsPick(rs, k)
  {
    var n := |rs| - 1;
    if n == 0 {
      assert IsPick(rs, 0);
    } else {
      PickExists(rs[..n]);
      var k: nat :| IsPick(rs[..n], k);
      assert forall j :: 0 <= j < n ==> rs[..n][j] == rs[j];
      if Preferred(rs[n], rs[k]) {
        assert IsPick(rs, n);
      } else {
        assert IsPick(rs, k);
      }
    }
  }

  ghost function Winner(rs: seq<Rule>): (k: nat)
    requires rs != []
    reads rs
    ensures IsPick(rs, k)
  {
    PickExists(rs);
    var k: nat :| IsPick(rs, k);
    k
  }

  /** pick: one pass that keeps the best rule so far. */
  method Pick(rs: seq<Rule>) returns (d: Decision)
    requires rs != []
    ensures d == DecisionOf(rs[Winner(rs)])
  {
    var best := 0;
    for i := 1 to |rs|
      invariant best < i && IsPick(rs[..i], best)
    {
      assert forall j :: 0 <= j < i ==> rs[..i + 1][j] == rs[..i][j];
      if |rs[i].matchers| < |rs[best].matchers| {
        best := i;
      } else if |rs[i].matchers| == |rs[best].matchers| && rs[i].lastHit > rs[best].lastHit {
        best := i;
      }
    }
    assert rs[..|rs|] == rs;
    PickUnique(rs, best, Winner(rs));
    d := DecisionOf(rs[best]);
  }

  /** The layer that wins: the first non-empty one. */
  function TopLayer(w: Walk): Layer {
    if w.allow != [] then AllowLayer
    else if w.block != [] then BlockLayer
    else if w.category != [] then CategoryLayer
    else if w.others != [] then OtherLayer
    else NoLayer
  }

  ghost function Verdict(w: Walk): Option<Decision>
    reads Layered(w, TopLayer(w))
  {
    var top := Layered(w, TopLayer(w));
    if top == [] then None else Some(DecisionOf(top[Winner(top)]))
  }

  /** What every route decides, as a function of the rules and the traffic alone. */
  ghost function Outcome(p: Parsers, rs: seq<Rule>, a: Attributes): Walk {
    WalkOf(Candidates(p, Items(rs), a))
  }

  datatype Buckets = Buckets(allow: seq<Rule>, block: seq<Rule>, category: seq<Rule>, others: seq<Rule>,
                             decision: Option<Decision>)

  ghost predicate IsOutcome(b: Buckets, w: Walk)
    reads Layered(w, TopLayer(w))
  {
    && b.allow == w.allow && b.block == w.block && b.category == w.category && b.others == w.others
    && b.decision == Verdict(w)
  }

  /** EvalBuckets: every layer kept apart, the decision taken from the first non-empty one. */
  method EvalBuckets(p: Parsers, c: CompiledSet, a: Attributes, ghost rs: seq<Rule>) returns (b: Buckets)
    requires c.Holds(p, Items(rs))
    ensures IsOutcome(b, Outcome(p, rs, a))
  {
    hide WalkOf, Winner, CompiledSet.Holds, Candidates, Items;
    var w := Collect(p, c, a, Items(rs));
    var d := None;
    if |w.allow| > 0 {
      var x := Pick(w.allow);
      d := Some(x);
    } else if |w.block| > 0 {
      var x := Pick(w.block);
      d := Some(x);
    } else if |w.category| > 0 {
      var x := Pick(w.category);
      d := Some(x);
    } else if |w.others| > 0 {
      var x := Pick(w.others);
      d := Some(x);
    }
    b := Buckets(w.allow, w.block, w.category, w.others, d);
  }

  /** Eval: the loops of collect, which the source repeats line for line, then the first non-empty layer and the decision
      inside it. */
  method Eval(p: Parsers, c: CompiledSet, a: Attributes, ghost rs: seq<Rule>)
    returns (d: Option<Decision>, matched: seq<Rule>)
    requires c.Holds(p, Items(rs))
    ensures d == Verdict(Outcome(p, rs, a))
    ensures matched == Layered(Outcome(p, rs, a), TopLayer(Outcome(p, rs, a)))
  {
    hide WalkOf, Winner, CompiledSet.Holds, Candidates, Items;
    var w := Collect(p, c, a, Items(rs));
    if |w.allow| > 0 {
      var x := Pick(w.allow);
      return Some(x), w.allow;
    }
    if |w.block| > 0 {
      var x := Pick(w.block);
      return Some(x), w.block;
    }
    if |w.category| > 0 {
      var x := Pick(w.category);
      return Some(x), w.category;
    }
    if |w.others| > 0 {
      var x := Pick(w.others);
      return Some(x), w.others;
    }
    return None, [];
  }

  /** The action a rule of each kind calls for, and the layer its kind is judged in. */
  predicate ActsAs(r: Rule, action: string) {
    || (r.kind == Allow && action == "allow" && LayerOf(r) == AllowLayer)
    || (r.kind == Block && action == "block" && LayerOf(r) == if r.category == "" then BlockLayer else CategoryLayer)
    || (r.kind == Observe && action == "observe" && LayerOf(r) == OtherLayer)
    || (r.kind == RateLimit && action == "ratelimit" && LayerOf(r) == OtherLayer)
  }

  /** The best of the firing rules: one that allows beats one that blocks, one that blocks by its own matchers beats one that
      blocks a category, and both beat the others; none of its layer is preferred to it. */
  ghost predicate Best(p: Parsers, rs: seq<Rule>, a: Attributes, r: Rule)
    reads rs
  {
    && r in rs && Fires(p, rs, a, r) && !r.kind.OtherKind?
    && (forall s :: s in rs && Fires(p, rs, a, s) ==>
          && (s.kind == Allow ==> r.kind == Allow)
          && (s.kind == Block ==> r.kind == Allow || r.kind == Block)
          && (s.kind == Block && s.category == "" ==> r.kind == Allow || r.category == "")
          && (LayerOf(s) == LayerOf(r) ==> !Preferred(s, r)))
  }

  lemma FiringHasMatcher(p: Parsers, rs: seq<Rule>, a: Attributes, r: Rule)
    requires Fires(p, rs, a, r)
    ensures r in rs && r.matchers != []
  {
  }

  /** The verdict is that of the best firing rule, and of the first in its layer, at position `k`, among its equals; there is
      none exactly when no rule of a known kind fires. */
  lemma VerdictExact(p: Parsers, rs: seq<Rule>, a: Attributes) returns (best: Option<Rule>, k: nat)
    ensures best.None? <==> Verdict(Outcome(p, rs, a)).None?
    ensures best.None? <==> forall r :: r in rs && Fires(p, rs, a, r) ==> r.kind.OtherKind?
    ensures best.Some? ==>
              var r, d := best.value, Verdict(Outcome(p, rs, a)).value;
              && Best(p, rs, a, r) && r.matchers != []
              && ActsAs(r, d.action) && d.category == r.category
              && d.matchedRule == if r.name != "" then r.name
                                  else FieldName(r.matchers[0].field) + ":" + r.matchers[0].value
    ensures best.Some? ==>
              var layer := Layered(Outcome(p, rs, a), LayerOf(best.value));
              && k < |layer| && layer[k] == best.value
              && forall j :: 0 <= j < |layer| && j != k && !Preferred(best.value, layer[j]) ==> k < j
  {
    hide WalkOf, Fires, Candidates;
    k := 0;
    var w := Outcome(p, rs, a);
    forall r, l | l != NoLayer
      ensures r in Layered(w, l) <==> Fires(p, rs, a, r) && LayerOf(r) == l
    {
      LayersExact(p, rs, a, l, r);
    }
    var top := Layered(w, TopLayer(w));
    if top == [] {
      best := None;
      forall r | r in rs && Fires(p, rs, a, r)
        ensures r.kind.OtherKind?
      {
        assert LayerOf(r) != NoLayer ==> r in Layered(w, LayerOf(r));
      }
    } else {
      k := Winner(top);
      best := Some(top[k]);
      assert top[k] in top;
      FiringHasMatcher(p, rs, a, best.value);
      forall r | r in rs && Fires(p, rs, a, r)
        ensures r.kind == Allow ==> w.allow != []
        ensures r.kind == Block ==> w.block != [] || w.category != []
        ensures r.kind == Block && r.category == "" ==> w.block != []
        ensures LayerOf(r) == LayerOf(best.value) ==> !Preferred(r, best.value)
      {
        assert LayerOf(r) != NoLayer ==> r in Layered(w, LayerOf(r));
        if LayerOf(r) == LayerOf(best.value) {
          var j :| 0 <= j < |top| && top[j] == r;
        }
      }
    }
  }
}
