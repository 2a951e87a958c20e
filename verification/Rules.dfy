// Rules, matchers and their pairwise conflicts: internal/rules/rules.go.
module Rules {
  import opened Options
  import opened Text

  const HITS_WRAP := 0x1_0000_0000_0000_0000

  /** A 64-bit counter, which wraps around. */
  type HitCount = h: nat | h < HITS_WRAP

  datatype Kind = Allow | Block | Observe | RateLimit | OtherKind(name: string)

  datatype Field = Domain | DomainSuffix | Wildcard | IP | CIDR | ASN | Protocol | DNS | SNI | Port | Category
                 | OtherField(name: string)

  datatype Matcher = Matcher(field: Field, value: string)

  function KindName(k: Kind): string {
    match k
    case Allow => "allow"
    case Block => "block"
    case Observe => "observe"
    case RateLimit => "ratelimit"
    case OtherKind(name) => name
  }

  function FieldName(f: Field): string {
    match f
    case Domain => "domain"
    case DomainSuffix => "domain_suffix"
    case Wildcard => "wildcard"
    case IP => "ip"
    case CIDR => "cidr"
    case ASN => "asn"
    case Protocol => "protocol"
    case DNS => "dns"
    case SNI => "sni"
    case Port => "port"
    case Category => "category"
    case OtherField(name) => name
  }

  /** The names under which rule files, labels and reports know the fields and kinds. */
  lemma Names()
    ensures FieldName(Domain) == "domain" && FieldName(DomainSuffix) == "domain_suffix"
    ensures FieldName(Wildcard) == "wildcard" && FieldName(IP) == "ip" && FieldName(CIDR) == "cidr"
    ensures FieldName(ASN) == "asn" && FieldName(Protocol) == "protocol" && FieldName(DNS) == "dns"
    ensures FieldName(SNI) == "sni" && FieldName(Port) == "port" && FieldName(Category) == "category"
    ensures KindName(Allow) == "allow" && KindName(Block) == "block"
    ensures KindName(Observe) == "observe" && KindName(RateLimit) == "ratelimit"
  {
  }

  /** A rule. The policy content never changes once the rule exists; only hit accounting does. */
  class Rule {
    const id: string
    const name: string
    const kind: Kind
    const enabled: bool
    const category: string
    const matchers: seq<Matcher>
    const source: string
    const comment: string
    var hits: HitCount
    var lastHit: int

    constructor (id: string, name: string, kind: Kind, enabled: bool, category: string, matchers: seq<Matcher>,
                 source: string, comment: string, hits: HitCount, lastHit: int)
      ensures this.id == id && this.name == name && this.kind == kind && this.enabled == enabled
      ensures this.category == category && this.matchers == matchers && this.source == source
      ensures this.comment == comment && this.hits == hits && this.lastHit == lastHit
    {
      this.id, this.name, this.kind, this.enabled := id, name, kind, enabled;
      this.category, this.matchers, this.source := category, matchers, source;
      this.comment, this.hits, this.lastHit := comment, hits, lastHit;
    }

    /** Account one match at time `now`. */
    method Hit(now: int)
      modifies this
      ensures hits == (old(hits) + 1) % HITS_WRAP && lastHit == now
    {
      hits := (hits + 1) % HITS_WRAP;
      lastHit := now;
    }

    function Label(): string {
      if name != "" then name
      else if |matchers| > 0 then FieldName(matchers[0].field) + ":" + matchers[0].value
      else id
    }
  }

  function MatchSuffix(pattern: string, domain: string): bool {
    var p := ToLower(TrimSuffix(pattern, "."));
    var d := ToLower(TrimSuffix(domain, "."));
    p == d || (HasPrefix(p, "*.") && HasSuffix(d, "." + p[2..])) || HasSuffix(d, "." + p)
  }

  function MatchesDomain(m: Matcher, domain: string): bool {
    match m.field
    case Domain => EqualFold(m.value, domain)
    case DomainSuffix => MatchSuffix(m.value, domain)
    case Wildcard => MatchSuffix(m.value, domain)
    case _ => false
  }

  /** Validate: a known kind, at least one matcher, known fields and no blank value. */
  predicate ValidRule(kind: Kind, matchers: seq<Matcher>) {
    && !kind.OtherKind?
    && matchers != []
    && forall i :: 0 <= i < |matchers| ==> !matchers[i].field.OtherField? && TrimSpace(matchers[i].value) != ""
  }

  /** What the documentation asks of a rule: one of the four kinds, at least one matcher, and in every matcher one of the
      eleven fields and a value with something other than white space in it. */
  predicate Accepted(kind: Kind, matchers: seq<Matcher>) {
    && kind in [Allow, Block, Observe, RateLimit]
    && |matchers| > 0
    && forall m :: m in matchers ==>
         && m.field in [Domain, DomainSuffix, Wildcard, IP, CIDR, ASN, Protocol, DNS, SNI, Port, Category]
         && exists i :: 0 <= i < |m.value| && !IsSpace(m.value[i])
  }

  /** Validation accepts exactly those rules. */
  lemma ValidExact(kind: Kind, matchers: seq<Matcher>)
    ensures ValidRule(kind, matchers) <==> Accepted(kind, matchers)
  {
    hide TrimSpace, IsSpace;
    forall i | 0 <= i < |matchers|
      ensures TrimSpace(matchers[i].value) != "" <==> exists k :: 0 <= k < |matchers[i].value| && !IsSpace(matchers[i].value[k])
    {
      TrimLeaves(matchers[i].value);
    }
    if ValidRule(kind, matchers) {
      forall m | m in matchers
        ensures !m.field.OtherField? && exists k :: 0 <= k < |m.value| && !IsSpace(m.value[k])
      {
        var i :| 0 <= i < |matchers| && matchers[i] == m;
      }
    }
    if Accepted(kind, matchers) {
      forall i | 0 <= i < |matchers|
        ensures !matchers[i].field.OtherField? && TrimSpace(matchers[i].value) != ""
      {
        assert matchers[i] in matchers;
      }
    }
  }

  predicate IsControl(k: Kind) {
    k == Allow || k == Block
  }

  predicate SameMatcher(m: Matcher, o: Matcher) {
    m.field == o.field && m.field != Port && EqualFold(m.value, o.value)
  }

  /** ConflictsWith: an enabled allow and an enabled block that share a matcher other than a port. */
  predicate ConflictsWith(r: Rule, o: Rule) {
    && r.id != o.id && r.enabled && o.enabled
    && r.kind != o.kind && IsControl(r.kind) && IsControl(o.kind)
    && exists i, j :: 0 <= i < |r.matchers| && 0 <= j < |o.matchers| && SameMatcher(r.matchers[i], o.matchers[j])
  }

  /** Matchers of one field with one value, up to letter case. */
  predicate Alike(m: Matcher, o: Matcher) {
    m.field == o.field && EqualFold(m.value, o.value)
  }

  /** The first matcher of `ms` that `os` has too; port matchers count only if `ports`. */
  function FirstShared(ms: seq<Matcher>, os: seq<Matcher>, ports: bool): Option<Matcher> {
    if ms == [] then None
    else if (ports || ms[0].field != Port) && exists j :: 0 <= j < |os| && Alike(ms[0], os[j]) then Some(ms[0])
    else FirstShared(ms[1..], os, ports)
  }

  lemma {:induction false} FirstSharedExists(ms: seq<Matcher>, os: seq<Matcher>, ports: bool)
    ensures FirstShared(ms, os, ports).Some? <==>
            exists i, j :: 0 <= i < |ms| && 0 <= j < |os| && Alike(ms[i], os[j]) && (ports || ms[i].field != Port)
  {
    hide EqualFold;
    if ms != [] {
      FirstSharedExists(ms[1..], os, ports);
      if i, j :| 0 <= i < |ms| && 0 <= j < |os| && Alike(ms[i], os[j]) && (ports || ms[i].field != Port) {
        assert i > 0 ==> Alike(ms[1..][i - 1], os[j]);
      }
    }
  }

  lemma SharedIsConflict(ms: seq<Matcher>, os: seq<Matcher>)
    ensures FirstShared(ms, os, false).Some?
            <==> exists i, j :: 0 <= i < |ms| && 0 <= j < |os| && SameMatcher(ms[i], os[j])
  {
    hide EqualFold;
    FirstSharedExists(ms, os, false);
    if i, j :| 0 <= i < |ms| && 0 <= j < |os| && SameMatcher(ms[i], os[j]) {
      assert Alike(ms[i], os[j]);
    }
    if i, j :| 0 <= i < |ms| && 0 <= j < |os| && Alike(ms[i], os[j]) && ms[i].field != Port {
      assert SameMatcher(ms[i], os[j]);
    }
  }

  /** The nested loops of ConflictsWith and firstMatch over two matcher lists. */
  method ScanShared(ms: seq<Matcher>, os: seq<Matcher>, ports: bool) returns (shared: Option<Matcher>)
    ensures shared == FirstShared(ms, os, ports)
  {
    for i := 0 to |ms|
      invariant FirstShared(ms, os, ports) == FirstShared(ms[i..], os, ports)
    {
      assert ms[i..][0] == ms[i] && ms[i..][1..] == ms[i + 1..];
      for j := 0 to |os|
        invariant ports || ms[i].field != Port ==> forall y :: 0 <= y < j ==> !Alike(ms[i], os[y])
      {
        if (ports || ms[i].field != Port) && Alike(ms[i], os[j]) {
          return Some(ms[i]);
        }
      }
    }
    return None;
  }

  /** ConflictsWith: whether two rules conflict, and over which field. */
  method FindShared(r: Rule, o: Rule) returns (found: bool, field: string)
    ensures found == ConflictsWith(r, o)
    ensures found ==> var shared := FirstShared(r.matchers, o.matchers, false);
                      shared.Some? && field == "matcher:" + FieldName(shared.value.field)
    ensures !found ==> field == ""
  {
    hide FirstShared, SameMatcher;
    SharedIsConflict(r.matchers, o.matchers);
    if r.id == o.id || !r.enabled || !o.enabled {
      return false, "";
    }
    if r.kind == o.kind {
      return false, "";
    }
    if !IsControl(r.kind) || !IsControl(o.kind) {
      return false, "";
    }
    var shared := ScanShared(r.matchers, o.matchers, false);
    if shared.Some? {
      return true, "matcher:" + FieldName(shared.value.field);
    }
    return false, "";
  }

  datatype Conflict = Conflict(a: Rule, b: Rule, field: string, value: string)

  /** The report on a conflicting pair. */
  ghost function Report(r: Rule, o: Rule): Conflict
    requires ConflictsWith(r, o)
  {
    SharedIsConflict(r.matchers, o.matchers);
    FirstSharedExists(r.matchers, o.matchers, true);
    FirstSharedExists(r.matchers, o.matchers, false);
    Conflict(r, o, "matcher:" + FieldName(FirstShared(r.matchers, o.matchers, false).value.field),
             FirstShared(r.matchers, o.matchers, true).value.value)
  }

  /** The conflicts of one rule with the rules in front of `k`, and of the first `n` rules with all later ones. */
  ghost function Row(rs: seq<Rule>, i: nat, k: nat): seq<Conflict>
    requires i < k <= |rs|
  {
    if k == i + 1 then []
    else Row(rs, i, k - 1) + if ConflictsWith(rs[i], rs[k - 1]) then [Report(rs[i], rs[k - 1])] else []
  }

  ghost function Rows(rs: seq<Rule>, n: nat): seq<Conflict>
    requires n <= |rs|
  {
    if n == 0 then [] else Rows(rs, n - 1) + Row(rs, n - 1, |rs|)
  }

  method ReportOn(r: Rule, o: Rule) returns (report: Option<Conflict>)
    ensures report == if ConflictsWith(r, o) then Some(Report(r, o)) else None
  {
    hide FirstShared, ConflictsWith;
    var found, field := FindShared(r, o);
    if !found {
      return None;
    }
    var first := ScanShared(r.matchers, o.matchers, true);
    FirstSharedExists(r.matchers, o.matchers, true);
    FirstSharedExists(r.matchers, o.matchers, false);
    return Some(Conflict(r, o, field, if first.Some? then first.value.value else ""));
  }

  lemma RowNext(before: seq<Conflict>, rs: seq<Rule>, i: nat, j: nat)
    requires i < j < |rs|
    ensures before + Row(rs, i, j + 1)
            == before + Row(rs, i, j) + if ConflictsWith(rs[i], rs[j]) then [Report(rs[i], rs[j])] else []
  {
    hide ConflictsWith, Report;
  }

  /** FindConflicts: every conflicting pair once, by the position of its first and then of its second rule. */
  method FindConflicts(rs: seq<Rule>) returns (out: seq<Conflict>)
    ensures out == Rows(rs, |rs|)
  {
    hide ConflictsWith, Report, Row;
    out := [];
    for i := 0 to |rs|
      invariant out == Rows(rs, i)
    {
      if !rs[i].enabled {
        NoRow(rs, i, |rs|);
      } else {
        out := ConflictsOf(rs, i, out);
      }
    }
  }

  /** The inner loop: the conflicts of rule `i` with every later rule. */
  method ConflictsOf(rs: seq<Rule>, i: nat, before: seq<Conflict>) returns (out: seq<Conflict>)
    requires i < |rs|
    ensures out == before + Row(rs, i, |rs|)
  {
    hide ConflictsWith, Report, Row;
    out := before;
    RowStart(rs, i);
    for j := i + 1 to |rs|
      invariant out == before + Row(rs, i, j)
    {
      RowNext(before, rs, i, j);
      var report := ReportOn(rs[i], rs[j]);
      if report.Some? {
        out := out + [report.value];
      }
    }
  }

  lemma RowStart(rs: seq<Rule>, i: nat)
    requires i < |rs|
    ensures Row(rs, i, i + 1) == []
  {
  }

  lemma {:induction false} NoRow(rs: seq<Rule>, i: nat, k: nat)
    requires i < k <= |rs| && !rs[i].enabled
    ensures Row(rs, i, k) == []
    decreases k
  {
    hide FirstShared, Report;
    if k > i + 1 {
      NoRow(rs, i, k - 1);
    }
  }

  ghost predicate Reported(rs: seq<Rule>, i: nat, j: nat, c: Conflict)
    requires i < |rs| && j < |rs|
  {
    ConflictsWith(rs[i], rs[j]) && c == Report(rs[i], rs[j])
  }

  lemma {:induction false} RowExact(rs: seq<Rule>, i: nat, k: nat, c: Conflict)
    requires i < k <= |rs|
    ensures c in Row(rs, i, k) <==> exists j {:trigger Reported(rs, i, j, c)} :: i < j < k && Reported(rs, i, j, c)
    decreases k
  {
    hide ConflictsWith, Report;
    if k > i + 1 {
      RowExact(rs, i, k - 1, c);
      assert Reported(rs, i, k - 1, c) <==> ConflictsWith(rs[i], rs[k - 1]) && c == Report(rs[i], rs[k - 1]);
    }
  }

  /** Exactly the conflicting pairs are reported, earlier rule first. */
  lemma {:induction false} ConflictsExact(rs: seq<Rule>, n: nat, c: Conflict)
    requires n <= |rs|
    ensures c in Rows(rs, n) <==>
            exists i, j {:trigger Reported(rs, i, j, c)} :: 0 <= i < n && i < j < |rs| && Reported(rs, i, j, c)
  {
    hide Row, Reported;
    if n > 0 {
      ConflictsExact(rs, n - 1, c);
      RowExact(rs, n - 1, |rs|, c);
    }
  }

  /** The value in a report belongs to the field in it exactly when the first shared matcher is no port matcher: the
      field is searched without ports, the value with them. */
  lemma {:induction false} ReportConsistent(ms: seq<Matcher>, os: seq<Matcher>)
    requires FirstShared(ms, os, false).Some?
    ensures FirstShared(ms, os, true).Some?
    ensures FirstShared(ms, os, true) == FirstShared(ms, os, false) <==> FirstShared(ms, os, true).value.field != Port
  {
    hide EqualFold;
    NotAPort(ms, os);
    if !(exists j :: 0 <= j < |os| && Alike(ms[0], os[j])) || ms[0].field == Port {
      ReportConsistent(ms[1..], os);
    }
  }

  lemma {:induction false} NotAPort(ms: seq<Matcher>, os: seq<Matcher>)
    ensures FirstShared(ms, os, false).Some? ==> FirstShared(ms, os, false).value.field != Port
  {
    if ms != [] {
      NotAPort(ms[1..], os);
    }
  }

  /** Two conflicting rules for port 443 of one domain: the report names the domain field and the port value. */
  lemma PortValueReported(a: Rule, b: Rule)
    requires a.matchers == b.matchers == [Matcher(Port, "443"), Matcher(Domain, "a.example")]
    requires a.id != b.id && a.enabled && b.enabled && a.kind == Allow && b.kind == Block
    ensures ConflictsWith(a, b) && Report(a, b) == Conflict(a, b, "matcher:domain", "443")
  {
    var ms := a.matchers;
    assert Alike(ms[0], ms[0]) && Alike(ms[1], ms[1]) && SameMatcher(ms[1], ms[1]);
    assert ms[1..][0] == ms[1];
    assert FirstShared(ms, ms, false) == FirstShared(ms[1..], ms, false);
  }
}
