// The decision routes over a rule store: internal/policy/policy.go and internal/policy/decisiontrace.go.
module Policy {
  import opened Text
  import opened Options
  import opened Rules
  import opened RuleIndex
  import opened Compile
  import opened Evaluate
  import opened Repo

  datatype Mode = BypassMode | BlockMode | CustomMode
  datatype TracePath = FastPath | SlowPath | BypassPath | OverflowPath
  datatype Source = RuleSource | DetectorSource | DefaultSource | BypassSource
  datatype Report = Report(protocol: string, confidence: real, autoApply: bool, action: string)
  datatype Input = Input(attributes: Attributes, detection: Option<Report>, mode: Mode)

  datatype FinalDecision = FinalDecision(action: string, mode: Mode, matchedRule: string, category: string,
                                         confidence: real, detected: string, source: Source, path: TracePath,
                                         matchedRules: seq<Rule>)

  function MapDetectAction(a: string): string {
    if a == "drop" || a == "reject" || a == "ratelimit" || a == "allow" || a == "observe" then a else "observe"
  }

  predicate Overrides(a: string) {
    a == "reject" || a == "drop" || a == "ratelimit"
  }

  /** matchedFromBuckets / allRules: every matched rule, highest layer first. */
  function AllRules(b: Buckets): seq<Rule> {
    b.allow + b.block + b.category + b.others
  }

  // ---- The decision as a function of the rules and the input ----

  /** The detector's action when it is configured to apply itself and asks to stop or slow the traffic. */
  ghost function DetectorVerdict(i: Input): Option<Report> {
    if i.mode != BypassMode && i.detection.Some? && i.detection.value.autoApply
       && Overrides(i.detection.value.action) then i.detection else None
  }

  /** Bypass, then detector, then the verdict `d` of the rules, then the observe default. */
  ghost function Resolution(i: Input, path: TracePath, w: Walk, d: Option<Decision>): FinalDecision {
    if i.mode == BypassMode then
      FinalDecision("observe", i.mode, "", "", 0.0, "", BypassSource, path, [])
    else if DetectorVerdict(i).Some? then
      var r := DetectorVerdict(i).value;
      FinalDecision(r.action, i.mode, "", "", r.confidence, r.protocol, DetectorSource, path, [])
    else match d
      case None =>
        FinalDecision("observe", i.mode, "", "",
                      if i.detection.Some? then i.detection.value.confidence else 0.0,
                      if i.detection.Some? then i.detection.value.protocol else "", DefaultSource, path, [])
      case Some(d) =>
        FinalDecision(d.action, i.mode, d.matchedRule, d.category, 0.0, "", RuleSource, path,
                      w.allow + w.block + w.category + w.others)
  }

  // ---- The trace ----

  datatype Matched = Matched(id: string, name: string, kind: Kind, category: string, priority: nat, shown: string)

  function MatchedOf(r: Rule, priority: nat): Matched {
    Matched(r.id, r.name, r.kind, r.category, priority, r.Label())
  }

  /** Identifiers in a canonical order, so that a pair has one form. */
  function OrderedPair(a: string, b: string): (string, string) {
    if Less(b, a) then (b, a) else (a, b)
  }

  ghost function MatchedLayer(rs: seq<Rule>, priority: nat): seq<Matched> {
    seq(|rs|, i requires 0 <= i < |rs| => MatchedOf(rs[i], priority))
  }

  /** A conflict between two of the listed rules, as the trace writes it down. */
  ghost predicate ConflictPair(rs: seq<Rule>, q: (string, string)) {
    exists i, j :: 0 <= i < |rs| && 0 <= j < |rs| && ConflictsWith(rs[i], rs[j])
                   && q == OrderedPair(rs[i].id, rs[j].id)
  }

  /** The same with the first rule among the first `n`, or at `n` with the second among the first `m`. */
  ghost predicate ConflictSoFar(rs: seq<Rule>, n: nat, m: nat, q: (string, string)) {
    exists i, j :: 0 <= i < |rs| && 0 <= j < |rs| && (i < n || (i == n && j < m))
                   && ConflictsWith(rs[i], rs[j]) && q == OrderedPair(rs[i].id, rs[j].id)
  }

  lemma ConflictStep(rs: seq<Rule>, n: nat, m: nat, q: (string, string))
    requires n < |rs| && m < |rs|
    ensures ConflictSoFar(rs, n, m + 1, q)
            <==> ConflictSoFar(rs, n, m, q)
                 || (ConflictsWith(rs[n], rs[m]) && q == OrderedPair(rs[n].id, rs[m].id))
  {
    hide ConflictsWith, OrderedPair;
    if ConflictSoFar(rs, n, m + 1, q) {
      var i, j :| 0 <= i < |rs| && 0 <= j < |rs| && (i < n || (i == n && j < m + 1))
                  && ConflictsWith(rs[i], rs[j]) && q == OrderedPair(rs[i].id, rs[j].id);
      assert i < n || (i == n && j < m) || (i == n && j == m);
    }
  }

  lemma ConflictRow(rs: seq<Rule>, n: nat, q: (string, string))
    requires n < |rs|
    ensures ConflictSoFar(rs, n, |rs|, q) <==> ConflictSoFar(rs, n + 1, 0, q)
  {
    hide ConflictsWith, OrderedPair;
  }

  ghost predicate NoRepeat<T>(s: seq<T>) {
    forall i, j :: 0 <= i < j < |s| ==> s[i] != s[j]
  }

  class DecisionTrace {
    var matchedRules: seq<Matched>
    var skipped: seq<(string, string)>
    var path: TracePath
    var action: string
    var source: Source
    var detector: string
    var detectorConf: real

    constructor ()
      ensures matchedRules == [] && skipped == []
      ensures action == "" && detector == "" && detectorConf == 0.0
    {
      matchedRules, skipped, path, action, source := [], [], FastPath, "", DefaultSource;
      detector, detectorConf := "", 0.0;
    }

    method AddMatched(r: Rule, priority: nat)
      modifies this`matchedRules
      ensures matchedRules == old(matchedRules) + [MatchedOf(r, priority)]
    {
      matchedRules := matchedRules + [MatchedOf(r, priority)];
    }

    /** The loop over one layer. */
    method AddLayer(rs: seq<Rule>, priority: nat)
      modifies this`matchedRules
      ensures matchedRules == old(matchedRules) + MatchedLayer(rs, priority)
    {
      for i := 0 to |rs|
        invariant matchedRules == old(matchedRules) + MatchedLayer(rs[..i], priority)
      {
        assert MatchedLayer(rs[..i + 1], priority) == MatchedLayer(rs[..i], priority) + [MatchedOf(rs[i], priority)];
        AddMatched(rs[i], priority);
      }
      assert rs[..|rs|] == rs;
    }

    /** AddSkipped: record the pair once, whichever way round it comes. */
    method AddSkipped(a: Rule, b: Rule)
      modifies this`skipped
      ensures skipped == if OrderedPair(a.id, b.id) in old(skipped) then old(skipped)
                         else old(skipped) + [OrderedPair(a.id, b.id)]
    {
      var idA, idB := a.id, b.id;
      if Less(idB, idA) {
        idA, idB := idB, idA;
      }
      for i := 0 to |skipped|
        invariant skipped == old(skipped)
        invariant forall j :: 0 <= j < i ==> skipped[j] != (idA, idB)
      {
        if skipped[i].0 == idA && skipped[i].1 == idB {
          return;
        }
      }
      skipped := skipped + [(idA, idB)];
    }

    /** The double loop over all matched rules that surfaces overridden rules. */
    method AddConflicts(rs: seq<Rule>)
      requires NoRepeat(skipped)
      modifies this`skipped
      ensures forall q :: q in skipped <==> q in old(skipped) || ConflictPair(rs, q)
      ensures NoRepeat(skipped)
    {
      hide ConflictsWith, OrderedPair, ConflictSoFar;
      NoneSoFar(rs);
      for i := 0 to |rs|
        invariant NoRepeat(skipped)
        invariant forall q :: q in skipped <==> q in old(skipped) || ConflictSoFar(rs, i, 0, q)
      {
        if IsControl(rs[i].kind) {
          for j := 0 to |rs|
            invariant NoRepeat(skipped)
            invariant forall q :: q in skipped <==> q in old(skipped) || ConflictSoFar(rs, i, j, q)
          {
            forall q
              ensures ConflictSoFar(rs, i, j + 1, q)
                      <==> ConflictSoFar(rs, i, j, q)
                           || (ConflictsWith(rs[i], rs[j]) && q == OrderedPair(rs[i].id, rs[j].id))
            {
              ConflictStep(rs, i, j, q);
            }
            var conflict, _ := FindShared(rs[i], rs[j]);
            if conflict {
              AddSkipped(rs[i], rs[j]);
            }
          }
          forall q
            ensures ConflictSoFar(rs, i, |rs|, q) <==> ConflictSoFar(rs, i + 1, 0, q)
          {
            ConflictRow(rs, i, q);
          }
        } else {
          forall q
            ensures ConflictSoFar(rs, i, 0, q) <==> ConflictSoFar(rs, i + 1, 0, q)
          {
            NoConflictRow(rs, i, q);
          }
        }
      }
      AllSoFar(rs);
    }

    static lemma NoneSoFar(rs: seq<Rule>)
      ensures forall q :: !ConflictSoFar(rs, 0, 0, q)
    {
    }

    static lemma AllSoFar(rs: seq<Rule>)
      ensures forall q :: ConflictSoFar(rs, |rs|, 0, q) <==> ConflictPair(rs, q)
    {
      hide ConflictsWith, OrderedPair;
    }

    static lemma NoConflictRow(rs: seq<Rule>, n: nat, q: (string, string))
      requires n < |rs| && !IsControl(rs[n].kind)
      ensures ConflictSoFar(rs, n, 0, q) <==> ConflictSoFar(rs, n + 1, 0, q)
    {
      hide OrderedPair;
      forall j | 0 <= j < |rs|
        ensures !ConflictsWith(rs[n], rs[j])
      {
      }
    }
  }

  // ---- The engine ----

  /** The decision the store's current rules call for. */
  ghost function RepoResolution(repo: RuleRepo, i: Input, path: TracePath): FinalDecision
    reads repo, TopRules(repo, i)
  {
    var w := Outcome(repo.p, repo.rules, i.attributes);
    Resolution(i, path, w, Verdict(w))
  }

  ghost function TopRules(repo: RuleRepo, i: Input): seq<Rule>
    reads repo
  {
    var w := Outcome(repo.p, repo.rules, i.attributes);
    Layered(w, TopLayer(w))
  }

  /** The end of both routes: the rules' decision, or observe when no rule fires. */
  method FromBuckets(i: Input, b: Buckets, path: TracePath, ghost w: Walk) returns (fd: FinalDecision)
    requires b.allow == w.allow && b.block == w.block && b.category == w.category && b.others == w.others
    requires i.mode != BypassMode && DetectorVerdict(i).None?
    ensures fd == Resolution(i, path, w, b.decision)
    ensures fd.source == RuleSource || fd.source == DefaultSource
  {
    hide Winner;
    match b.decision {
      case None =>
        fd := FinalDecision("observe", i.mode, "", "",
                            if i.detection.Some? then i.detection.value.confidence else 0.0,
                            if i.detection.Some? then i.detection.value.protocol else "",
                            DefaultSource, path, []);
      case Some(d) =>
        fd := FinalDecision(d.action, i.mode, d.matchedRule, d.category, 0.0, "", RuleSource, path, AllRules(b));
    }
  }

  /** What one traced evaluation adds: every matched rule under its layer, and the overridden pairs, each once. */
  ghost predicate Traced(matched0: seq<Matched>, skipped0: seq<(string, string)>, matched: seq<Matched>,
                         skipped: seq<(string, string)>, allow: seq<Rule>, block: seq<Rule>, category: seq<Rule>,
                         others: seq<Rule>) {
    && matched == matched0 + MatchedLayer(allow, 0) + MatchedLayer(block, 1) + MatchedLayer(category, 2)
                  + MatchedLayer(others, 3)
    && (forall q :: q in skipped <==> q in skipped0 || ConflictPair(allow + block + category + others, q))
    && NoRepeat(skipped)
  }

  method FillTrace(b: Buckets, tr: DecisionTrace)
    requires NoRepeat(tr.skipped)
    modifies tr`matchedRules, tr`skipped
    ensures Traced(old(tr.matchedRules), old(tr.skipped), tr.matchedRules, tr.skipped,
                   b.allow, b.block, b.category, b.others)
  {
    hide ConflictPair, MatchedLayer, NoRepeat;
    tr.AddLayer(b.allow, 0);
    tr.AddLayer(b.block, 1);
    tr.AddLayer(b.category, 2);
    tr.AddLayer(b.others, 3);
    if AllRules(b) != [] {
      tr.AddConflicts(AllRules(b));
    } else {
      NoPairs();
    }
  }

  /** The evaluation, and what follows from it without a trace. */
  method Evaluated(repo: RuleRepo, i: Input, path: TracePath) returns (b: Buckets, fd: FinalDecision)
    requires repo.Valid()
    requires i.mode != BypassMode && DetectorVerdict(i).None?
    ensures fd == RepoResolution(repo, i, path)
    ensures var w := Outcome(repo.p, repo.rules, i.attributes);
            b.allow == w.allow && b.block == w.block && b.category == w.category && b.others == w.others
    ensures fd.source == RuleSource || fd.source == DefaultSource
  {
    hide Outcome, Winner, IsPick, DecisionOf, RuleRepo.Valid, Items, Resolution, DetectorVerdict, AllRules;
    b := repo.EvalBuckets(i.attributes);
    fd := FromBuckets(i, b, path, Outcome(repo.p, repo.rules, i.attributes));
  }

  /** decideBuckets: the traced route past bypass and detector. */
  method DecideBuckets(repo: RuleRepo, i: Input, tr: DecisionTrace, path: TracePath) returns (fd: FinalDecision)
    requires repo.Valid() && NoRepeat(tr.skipped)
    requires i.mode != BypassMode && DetectorVerdict(i).None?
    modifies tr
    ensures fd == RepoResolution(repo, i, path)
    ensures var w := Outcome(repo.p, repo.rules, i.attributes);
            Traced(old(tr.matchedRules), old(tr.skipped), tr.matchedRules, tr.skipped,
                   w.allow, w.block, w.category, w.others)
    ensures tr.action == fd.action && tr.source == fd.source && tr.path == path
    ensures fd.source == RuleSource || fd.source == DefaultSource
  {
    hide Outcome, Traced, NoRepeat, Winner, IsPick, DecisionOf, RuleRepo.Valid, Resolution, DetectorVerdict;
    var b;
    b, fd := Evaluated(repo, i, path);
    FillTrace(b, tr);
    tr.path, tr.action, tr.source := path, fd.action, fd.source;
  }

  lemma NoPairs()
    ensures forall q :: !ConflictPair([], q)
  {
  }

  /** Whether the detector settles the matter: not under bypass, and only with an action that stops or slows the traffic. */
  ghost predicate DetectorRules(i: Input) {
    && i.mode != BypassMode && i.detection.Some? && i.detection.value.autoApply
    && i.detection.value.action in ["reject", "drop", "ratelimit"]
  }

  /** Some enabled rule of a known kind fires for the traffic. */
  ghost predicate SomeRuleFires(p: Parsers, rs: seq<Rule>, a: Attributes) {
    exists r :: r in rs && Fires(p, rs, a, r) && !r.kind.OtherKind?
  }

  /** The best of the firing rules asks for this action, under this label and category. */
  ghost predicate RuleSays(p: Parsers, rs: seq<Rule>, a: Attributes, action: string, shown: string, category: string)
    reads rs
  {
    exists r :: r in rs && Best(p, rs, a, r) && r.matchers != [] && ActsAs(r, action) && category == r.category
                && shown == if r.name != "" then r.name else FieldName(r.matchers[0].field) + ":" + r.matchers[0].value
  }

  /** What a decision has to be, said of the input and the firing rules alone. */
  ghost predicate Proper(p: Parsers, rs: seq<Rule>, i: Input, path: TracePath, fd: FinalDecision)
    reads rs
  {
    && fd.mode == i.mode && fd.path == path
    && (fd.source == BypassSource <==> i.mode == BypassMode)
    && (fd.source == DetectorSource <==> DetectorRules(i))
    && (fd.source == RuleSource <==>
          i.mode != BypassMode && !DetectorRules(i) && SomeRuleFires(p, rs, i.attributes))
    && (fd.source == DetectorSource ==>
          var report := i.detection.value;
          fd.action == report.action && fd.confidence == report.confidence && fd.detected == report.protocol)
    && (fd.source == RuleSource ==>
          && fd.confidence == 0.0 && fd.detected == ""
          && RuleSays(p, rs, i.attributes, fd.action, fd.matchedRule, fd.category))
    && (fd.source == BypassSource || fd.source == DefaultSource ==> fd.action == "observe")
    && (fd.source == DefaultSource && i.detection.Some? ==>
          fd.confidence == i.detection.value.confidence && fd.detected == i.detection.value.protocol)
    && (fd.source == BypassSource || (fd.source == DefaultSource && i.detection.None?) ==>
          fd.confidence == 0.0 && fd.detected == "")
    && (fd.source != RuleSource ==> fd.matchedRule == "" && fd.category == "" && fd.matchedRules == [])
  }

  lemma VerdictSays(p: Parsers, rs: seq<Rule>, a: Attributes)
    ensures var d := Verdict(Outcome(p, rs, a));
            && (d.Some? <==> SomeRuleFires(p, rs, a))
            && (d.Some? ==> RuleSays(p, rs, a, d.value.action, d.value.matchedRule, d.value.category))
  {
    hide Outcome, Fires, DecisionOf, FieldName, Verdict;
    var best, _ := VerdictExact(p, rs, a);
    if best.Some? {
      assert best.value in rs && Best(p, rs, a, best.value);
    }
  }

  /** The decision the store's rules call for is a proper one. */
  lemma ResolutionProper(p: Parsers, rs: seq<Rule>, i: Input, path: TracePath)
    ensures var w := Outcome(p, rs, i.attributes); Proper(p, rs, i, path, Resolution(i, path, w, Verdict(w)))
  {
    hide Outcome, Verdict, SomeRuleFires, RuleSays;
    VerdictSays(p, rs, i.attributes);
  }

  /** A firing rule as the trace shows it, with the number of its layer. */
  ghost predicate ShownAs(r: Rule, x: Matched) {
    && x.id == r.id && x.name == r.name && x.kind == r.kind && x.category == r.category && x.shown == r.Label()
    && (|| (r.kind == Allow && x.priority == 0)
        || (r.kind == Block && x.priority == if r.category == "" then 1 else 2)
        || ((r.kind == Observe || r.kind == RateLimit) && x.priority == 3))
  }

  lemma LayerShown(p: Parsers, rs: seq<Rule>, a: Attributes, l: Layer, priority: nat, x: Matched)
    requires (l == AllowLayer && priority == 0) || (l == BlockLayer && priority == 1)
             || (l == CategoryLayer && priority == 2) || (l == OtherLayer && priority == 3)
    ensures x in MatchedLayer(Layered(Outcome(p, rs, a), l), priority)
            <==> exists r :: r in rs && Fires(p, rs, a, r) && LayerOf(r) == l && ShownAs(r, x)
  {
    hide WalkOf, Fires, Candidates;
    var layer := Layered(Outcome(p, rs, a), l);
    forall r
      ensures r in layer <==> r in rs && Fires(p, rs, a, r) && LayerOf(r) == l
    {
      LayersExact(p, rs, a, l, r);
      if Fires(p, rs, a, r) {
        FiringHasMatcher(p, rs, a, r);
      }
    }
    var shown := MatchedLayer(layer, priority);
    if x in shown {
      var i :| 0 <= i < |shown| && shown[i] == x;
      assert layer[i] in layer && ShownAs(layer[i], x);
    }
    if r :| r in rs && Fires(p, rs, a, r) && LayerOf(r) == l && ShownAs(r, x) {
      var i :| 0 <= i < |layer| && layer[i] == r;
      assert shown[i] == x;
    }
  }

  /** What a traced evaluation adds: exactly the firing rules of a known kind, each with the number of its layer, and exactly
      the pairs of firing rules that conflict, none of them twice. */
  lemma TraceExact(p: Parsers, rs: seq<Rule>, a: Attributes, matched0: seq<Matched>, skipped0: seq<(string, string)>,
                   matched: seq<Matched>, skipped: seq<(string, string)>)
    requires var w := Outcome(p, rs, a);
             Traced(matched0, skipped0, matched, skipped, w.allow, w.block, w.category, w.others)
    ensures matched0 <= matched
    ensures forall x :: x in matched[|matched0|..] <==> exists r :: r in rs && Fires(p, rs, a, r) && ShownAs(r, x)
    ensures forall q :: q in skipped <==>
              || q in skipped0
              || exists r, o :: r in rs && o in rs && Fires(p, rs, a, r) && Fires(p, rs, a, o) && ConflictsWith(r, o)
                                && q == OrderedPair(r.id, o.id)
    ensures forall i, j :: 0 <= i < j < |skipped| ==> skipped[i] != skipped[j]
  {
    hide Outcome, Fires, MatchedLayer, ConflictPair, ConflictsWith, OrderedPair, ShownAs;
    var w := Outcome(p, rs, a);
    var added := MatchedLayer(w.allow, 0) + MatchedLayer(w.block, 1) + MatchedLayer(w.category, 2)
                 + MatchedLayer(w.others, 3);
    assert matched == matched0 + added;
    forall x
      ensures x in added <==> exists r :: r in rs && Fires(p, rs, a, r) && ShownAs(r, x)
    {
      LayerShown(p, rs, a, AllowLayer, 0, x);
      LayerShown(p, rs, a, BlockLayer, 1, x);
      LayerShown(p, rs, a, CategoryLayer, 2, x);
      LayerShown(p, rs, a, OtherLayer, 3, x);
      ShownKnown(p, rs, a, x);
    }
    forall q
      ensures ConflictPair(w.allow + w.block + w.category + w.others, q) <==>
              exists r, o :: r in rs && o in rs && Fires(p, rs, a, r) && Fires(p, rs, a, o) && ConflictsWith(r, o)
                             && q == OrderedPair(r.id, o.id)
    {
      PairsFire(p, rs, a, q);
    }
  }

  lemma ShownKnown(p: Parsers, rs: seq<Rule>, a: Attributes, x: Matched)
    ensures forall r :: ShownAs(r, x) ==> LayerOf(r) != NoLayer
  {
  }

  lemma PairsFire(p: Parsers, rs: seq<Rule>, a: Attributes, q: (string, string))
    ensures var w := Outcome(p, rs, a);
            ConflictPair(w.allow + w.block + w.category + w.others, q) <==>
            exists r, o :: r in rs && o in rs && Fires(p, rs, a, r) && Fires(p, rs, a, o) && ConflictsWith(r, o)
                           && q == OrderedPair(r.id, o.id)
  {
    hide Outcome, Fires, OrderedPair, ConflictsWith;
    var w := Outcome(p, rs, a);
    var all := w.allow + w.block + w.category + w.others;
    forall r
      ensures r in all <==> r in rs && Fires(p, rs, a, r) && LayerOf(r) != NoLayer
    {
      AllFire(p, rs, a, r);
    }
    if ConflictPair(all, q) {
      var i, j :| 0 <= i < |all| && 0 <= j < |all| && ConflictsWith(all[i], all[j])
                  && q == OrderedPair(all[i].id, all[j].id);
      assert all[i] in all && all[j] in all;
    }
    if r, o :| r in rs && o in rs && Fires(p, rs, a, r) && Fires(p, rs, a, o) && ConflictsWith(r, o)
               && q == OrderedPair(r.id, o.id) {
      ConflictKnown(r, o);
      var i :| 0 <= i < |all| && all[i] == r;
      var j :| 0 <= j < |all| && all[j] == o;
    }
  }

  lemma ConflictKnown(r: Rule, o: Rule)
    requires ConflictsWith(r, o)
    ensures LayerOf(r) != NoLayer && LayerOf(o) != NoLayer
  {
  }

  lemma AllFire(p: Parsers, rs: seq<Rule>, a: Attributes, r: Rule)
    ensures var w := Outcome(p, rs, a);
            r in w.allow + w.block + w.category + w.others <==>
            r in rs && Fires(p, rs, a, r) && LayerOf(r) != NoLayer
  {
    hide WalkOf, Fires, Candidates;
    LayersExact(p, rs, a, AllowLayer, r);
    LayersExact(p, rs, a, BlockLayer, r);
    LayersExact(p, rs, a, CategoryLayer, r);
    LayersExact(p, rs, a, OtherLayer, r);
    if Fires(p, rs, a, r) {
      FiringHasMatcher(p, rs, a, r);
    }
  }

  /** The top of decide: bypass and detector settle the matter before any rule is read. */
  function Preempt(i: Input, path: TracePath): (early: Option<FinalDecision>)
    ensures early.None? <==> i.mode != BypassMode && DetectorVerdict(i).None?
    ensures early.Some? ==> early.value.source == if i.mode == BypassMode then BypassSource else DetectorSource
  {
    if i.mode == BypassMode then
      Some(FinalDecision("observe", i.mode, "", "", 0.0, "", BypassSource, path, []))
    else if i.detection.Some? && i.detection.value.autoApply then
      var r := i.detection.value;
      var a := MapDetectAction(r.action);
      if Overrides(a) then Some(FinalDecision(a, i.mode, "", "", r.confidence, r.protocol, DetectorSource, path, []))
      else None
    else None
  }

  lemma PreemptResolves(i: Input, path: TracePath, w: Walk, d: Option<Decision>)
    requires Preempt(i, path).Some?
    ensures Preempt(i, path).value == Resolution(i, path, w, d)
  {
  }

  /** What the trace learns of a decision taken before any rule is read. */
  method TraceEarly(i: Input, fd: FinalDecision, tr: DecisionTrace)
    requires i.mode != BypassMode ==> i.detection.Some?
    modifies tr
    ensures tr.matchedRules == old(tr.matchedRules) && tr.skipped == old(tr.skipped)
    ensures tr.action == fd.action && tr.source == fd.source
    ensures tr.path == if i.mode == BypassMode then BypassPath else old(tr.path)
    ensures i.mode != BypassMode ==>
              tr.detector == i.detection.value.protocol && tr.detectorConf == i.detection.value.confidence
  {
    tr.action, tr.source := fd.action, fd.source;
    if i.mode == BypassMode {
      tr.path := BypassPath;
    } else {
      tr.detector, tr.detectorConf := i.detection.value.protocol, i.detection.value.confidence;
    }
  }

  /** decide: one route for both callers, traced when a trace is given. The decision does not depend on the trace. */
  method Route(repo: RuleRepo, i: Input, tr: DecisionTrace?, path: TracePath) returns (fd: FinalDecision)
    requires repo.Valid()
    requires tr != null ==> NoRepeat(tr.skipped)
    modifies tr
    ensures fd == RepoResolution(repo, i, path)
    ensures tr != null ==> tr.action == fd.action && tr.source == fd.source
    ensures tr != null ==> tr.path == if i.mode == BypassMode then BypassPath else if DetectorRules(i) then old(tr.path) else path
    ensures tr != null && DetectorRules(i) ==>
              tr.detector == i.detection.value.protocol && tr.detectorConf == i.detection.value.confidence
    ensures tr != null && fd.source != RuleSource && fd.source != DefaultSource ==>
              tr.matchedRules == old(tr.matchedRules) && tr.skipped == old(tr.skipped)
    ensures tr != null && (fd.source == RuleSource || fd.source == DefaultSource) ==>
              var w := Outcome(repo.p, repo.rules, i.attributes);
              Traced(old(tr.matchedRules), old(tr.skipped), tr.matchedRules, tr.skipped,
                     w.allow, w.block, w.category, w.others)
  {
    hide Outcome, Traced, NoRepeat, Winner, IsPick, DecisionOf, RuleRepo.Valid, Items, Preempt;
    var early := Preempt(i, path);
    if early.Some? {
      PreemptResolves(i, path, Outcome(repo.p, repo.rules, i.attributes), Verdict(Outcome(repo.p, repo.rules, i.attributes)));
      if tr != null {
        TraceEarly(i, early.value, tr);
      }
      return early.value;
    }
    if tr != null {
      fd := DecideBuckets(repo, i, tr, path);
      return;
    }
    var _, decision := Evaluated(repo, i, path);
    fd := decision;
  }

  /** Decide: the caller that asks for no trace. */
  method Decide(repo: RuleRepo, i: Input) returns (fd: FinalDecision)
    requires repo.Valid()
    ensures fd == RepoResolution(repo, i, FastPath)
    ensures Proper(repo.p, repo.rules, i, FastPath, fd)
  {
    hide Resolution, Outcome, RuleRepo.Valid, Proper;
    fd := Route(repo, i, null, FastPath);
    ResolutionProper(repo.p, repo.rules, i, FastPath);
  }

  /** DecideWithTrace: the same decision, explained when a trace is given. */
  method DecideWithTrace(repo: RuleRepo, i: Input, path: TracePath, tr: DecisionTrace?) returns (fd: FinalDecision)
    requires repo.Valid()
    requires tr != null ==> NoRepeat(tr.skipped)
    modifies tr
    ensures fd == RepoResolution(repo, i, path)
    ensures Proper(repo.p, repo.rules, i, path, fd)
    ensures tr != null ==> tr.action == fd.action && tr.source == fd.source
  {
    hide Resolution, Outcome, RuleRepo.Valid, Proper, Traced, NoRepeat;
    if tr == null {
      fd := Route(repo, i, null, path);
    } else {
      fd := Route(repo, i, tr, path);
    }
    ResolutionProper(repo.p, repo.rules, i, path);
  }

  /** The rules credited with a rule decision are exactly the firing rules of a known kind. */
  lemma CreditedRules(p: Parsers, rs: seq<Rule>, i: Input, d: Option<Decision>, path: TracePath, r: Rule)
    requires Resolution(i, path, Outcome(p, rs, i.attributes), d).source == RuleSource
    ensures r in Resolution(i, path, Outcome(p, rs, i.attributes), d).matchedRules
            <==> Fires(p, rs, i.attributes, r) && LayerOf(r) != NoLayer
  {
    hide WalkOf, Fires, Candidates;
    LayersExact(p, rs, i.attributes, AllowLayer, r);
    LayersExact(p, rs, i.attributes, BlockLayer, r);
    LayersExact(p, rs, i.attributes, CategoryLayer, r);
    LayersExact(p, rs, i.attributes, OtherLayer, r);
  }
}
