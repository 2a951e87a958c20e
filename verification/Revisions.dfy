// The revision store over a rule repository: internal/rules/version.go, RevisionStore.
module Revisions {
  import opened Options
  import opened Rules
  import opened Repo
  import opened Versions

  const BOOT_ID := "rev-0"

  /** An entry of the history. Its rule objects are its own copies; the live repository shares those of the head. */
  datatype Revision = Revision(id: string, createdAt: int, author: string, source: string, message: string,
                               parent: string, changes: seq<Change>, rules: seq<Rule>)

  datatype Preview = Preview(valid: bool, incoming: nat, changes: seq<Change>, conflicts: seq<Conflict>)

  function Book(rs: seq<Rule>): Rulebook {
    Index(Contents(rs))
  }

  predicate ValidSet(rs: seq<Rule>) {
    forall i :: 0 <= i < |rs| ==> ValidRule(rs[i].kind, rs[i].matchers)
  }

  /** Every rule of the set is one the documentation accepts. */
  ghost predicate AcceptedSet(rs: seq<Rule>) {
    forall r :: r in rs ==> Accepted(r.kind, r.matchers)
  }

  lemma ValidSetExact(rs: seq<Rule>)
    ensures ValidSet(rs) <==> AcceptedSet(rs)
  {
    hide ValidRule, Accepted;
    forall i | 0 <= i < |rs|
      ensures ValidRule(rs[i].kind, rs[i].matchers) <==> Accepted(rs[i].kind, rs[i].matchers)
    {
      ValidExact(rs[i].kind, rs[i].matchers);
    }
  }

  /** Validity depends on content only. */
  lemma SameValidity(a: seq<Rule>, b: seq<Rule>)
    requires Contents(a) == Contents(b)
    ensures ValidSet(a) <==> ValidSet(b)
  {
    hide ValidRule;
    forall i | 0 <= i < |a|
      ensures a[i].kind == b[i].kind && a[i].matchers == b[i].matchers
    {
      assert Contents(a)[i] == Contents(b)[i];
    }
  }

  /** cloneRules: new objects with the same content and hit accounting. */
  method CloneRules(rs: seq<Rule>) returns (out: seq<Rule>)
    ensures Contents(out) == Contents(rs)
    ensures forall i :: 0 <= i < |out| ==> fresh(out[i])
    ensures forall i :: 0 <= i < |out| ==> out[i].hits == rs[i].hits && out[i].lastHit == rs[i].lastHit
  {
    out := [];
    for i := 0 to |rs|
      invariant |out| == i
      invariant forall k :: 0 <= k < i ==> fresh(out[k]) && ContentOf(out[k]) == ContentOf(rs[k])
      invariant forall k :: 0 <= k < i ==> out[k].hits == rs[k].hits && out[k].lastHit == rs[k].lastHit
    {
      var r := rs[i];
      var c := new Rule(r.id, r.name, r.kind, r.enabled, r.category, r.matchers, r.source, r.comment, r.hits, r.lastHit);
      out := out + [c];
    }
    assert Contents(out) == Contents(rs);
  }

  // ---- The chain ----

  /** A revision follows its predecessor: it names it as parent and lists the differences from it. */
  ghost predicate Follows(prev: Option<Revision>, rv: Revision) {
    match prev
    case None => rv.parent == "" && (rv.changes == DiffOf(map[], Book(rv.rules)) || (rv.id == BOOT_ID && rv.changes == []))
    case Some(p) => rv.parent == p.id && rv.changes == DiffOf(Book(p.rules), Book(rv.rules))
  }

  ghost function Before(revs: seq<Revision>, i: nat): Option<Revision>
    requires i <= |revs|
  {
    if i == 0 then None else Some(revs[i - 1])
  }

  ghost predicate Chained(revs: seq<Revision>) {
    forall i :: 0 <= i < |revs| ==> Follows(Before(revs, i), revs[i])
  }

  ghost predicate Disjoint(a: seq<Rule>, b: seq<Rule>) {
    forall r :: r in a ==> r !in b
  }

  /** No two revisions share a rule object. */
  ghost predicate Separate(revs: seq<Revision>) {
    forall i, j :: 0 <= i < j < |revs| ==> Disjoint(revs[i].rules, revs[j].rules)
  }

  lemma ChainMore(revs: seq<Revision>, rv: Revision)
    requires Chained(revs) && Follows(Before(revs, |revs|), rv)
    ensures Chained(revs + [rv])
  {
    hide Follows;
    var all := revs + [rv];
    forall i | 0 <= i < |all|
      ensures Follows(Before(all, i), all[i])
    {
      if i < |revs| {
        assert Follows(Before(revs, i), revs[i]);
        assert Before(all, i) == Before(revs, i);
      } else {
        assert Before(all, i) == Before(revs, i);
      }
    }
  }

  /** The first revision with an identifier. */
  function Find(revs: seq<Revision>, id: string): Option<Revision> {
    if revs == [] then None
    else if revs[0].id == id then Some(revs[0])
    else Find(revs[1..], id)
  }

  /** History: latest revision first, without the boot revision. */
  function HistoryOf(revs: seq<Revision>): seq<Revision> {
    if revs == [] then []
    else
      var n := |revs| - 1;
      (if revs[n].id == BOOT_ID then [] else [revs[n]]) + HistoryOf(revs[..n])
  }

  class RevisionStore {
    var revisions: seq<Revision>
    var head: Option<Revision>

    /** The head is the last revision, every revision follows its predecessor, and none shares rule objects. */
    ghost predicate Valid()
      reads this
    {
      && head == Before(revisions, |revisions|)
      && Chained(revisions) && Separate(revisions)
    }

    /** The live repository holds the rules of the head. */
    ghost predicate Live(repo: RuleRepo)
      reads this, repo
    {
      head.Some? && Contents(repo.rules) == Contents(head.value.rules)
    }

    constructor ()
      ensures Valid() && revisions == []
    {
      revisions, head := [], None;
    }

    function HeadRules(): seq<Rule>
      reads this
    {
      if head.Some? then head.value.rules else []
    }

    /** headRulesLocked: a deep copy of the head's snapshot. */
    method CopyHead() returns (rs: seq<Rule>)
      ensures Contents(rs) == Contents(HeadRules())
    {
      if head.None? {
        return [];
      }
      rs := CloneRules(head.value.rules);
    }

    /** Append a revision made of new rule objects and make it the head. */
    method Push(rv: Revision)
      requires Valid() && Follows(head, rv)
      requires forall i :: 0 <= i < |revisions| ==> Disjoint(revisions[i].rules, rv.rules)
      modifies this
      ensures Valid() && revisions == old(revisions) + [rv]
    {
      hide Follows, Disjoint;
      ChainMore(revisions, rv);
      revisions := revisions + [rv];
      head := Some(rv);
    }

    /** The common end of Apply and Rollback: swap new rule objects in and record them. */
    method Install(repo: RuleRepo, snap: seq<Rule>, changes: seq<Change>, author: string, source: string,
                   message: string, id: string, now: int)
      returns (rv: Revision)
      requires Valid() && changes == DiffOf(Book(HeadRules()), Book(snap))
      requires forall i :: 0 <= i < |revisions| ==> Disjoint(revisions[i].rules, snap)
      modifies this, repo
      ensures Valid() && revisions == old(revisions) + [rv]
      ensures rv.id == id && rv.createdAt == now && rv.author == author && rv.source == source && rv.message == message
      ensures rv.changes == changes && rv.rules == snap
      ensures rv.parent == if old(head).Some? then old(head).value.id else ""
      ensures repo.Valid() && repo.rules == snap
      ensures Live(repo) && forall i :: 0 <= i < |old(revisions)| ==> Disjoint(revisions[i].rules, repo.rules)
    {
      hide DiffOf, Index, Separate, Chained, RuleRepo.Valid, Contents, Disjoint;
      repo.Replace(snap);
      var parent := if head.Some? then head.value.id else "";
      rv := Revision(id, now, author, source, message, parent, changes, snap);
      NothingBook();
      Push(rv);
    }

    /** EnableBootRevision: the rules present at start become revision zero; done once. */
    method EnableBootRevision(repo: RuleRepo, author: string, now: int)
      requires Valid()
      modifies this
      ensures Valid()
      ensures old(revisions) != [] ==> revisions == old(revisions)
      ensures old(revisions) == [] ==>
                && |revisions| == 1
                && revisions[0] == Revision(BOOT_ID, now, author, "", "initial state", "", [], revisions[0].rules)
                && Live(repo)
    {
      if |revisions| > 0 {
        return;
      }
      var snapshot := CloneRules(repo.rules);
      Push(Revision(BOOT_ID, now, author, "", "initial state", "", [], snapshot));
    }

    /** Apply: validate a copy of the rules, swap it in, and record it with its difference from the head. */
    method Apply(repo: RuleRepo, next: seq<Rule>, author: string, source: string, message: string, id: string, now: int)
      returns (rv: Option<Revision>)
      requires Valid()
      modifies this, repo
      ensures Valid()
      ensures rv.Some? <==> AcceptedSet(next)
      ensures rv.None? ==> revisions == old(revisions) && repo.rules == old(repo.rules)
      ensures rv.Some? ==>
                && revisions == old(revisions) + [rv.value]
                && repo.Valid() && repo.rules == rv.value.rules && Contents(repo.rules) == Contents(next)
                && rv.value.changes == DiffOf(Book(old(HeadRules())), Book(next))
                && rv.value.id == id && rv.value.author == author && rv.value.source == source
                && rv.value.message == message && rv.value.createdAt == now
                && rv.value.parent == (if old(head).Some? then old(head).value.id else "")
                && Live(repo)
                && forall i, r :: 0 <= i < |old(revisions)| && r in old(revisions)[i].rules ==> r !in repo.rules
    {
      hide DiffOf, Index, ValidSet, AcceptedSet, Separate, Chained, RuleRepo.Valid, Contents, Live;
      ValidSetExact(next);
      var dup := CloneRules(next);
      SameValidity(dup, next);
      if !ValidSet(dup) {
        return None;
      }
      var current := CopyHead();
      var changes := Diff(current, dup);
      var revision := Install(repo, dup, changes, author, source, message, id, now);
      return Some(revision);
    }

    /** Rollback: a copy of an earlier revision's rules becomes live again, recorded as a new revision. */
    method Rollback(repo: RuleRepo, revisionID: string, author: string, id: string, now: int) returns (rv: Option<Revision>)
      requires Valid()
      modifies this, repo
      ensures Valid()
      ensures rv.Some? <==> Find(old(revisions), revisionID).Some?
      ensures rv.None? ==> revisions == old(revisions) && repo.rules == old(repo.rules)
      ensures rv.Some? ==>
                && revisions == old(revisions) + [rv.value]
                && repo.Valid() && repo.rules == rv.value.rules
                && Contents(repo.rules) == Contents(Find(old(revisions), revisionID).value.rules)
                && rv.value.changes == DiffOf(Book(old(HeadRules())), Book(repo.rules))
                && rv.value.id == id && rv.value.author == author && rv.value.source == "rollback"
                && rv.value.message == "rollback to " + revisionID && rv.value.createdAt == now
                && rv.value.parent == (if old(head).Some? then old(head).value.id else "")
                && Live(repo)
                && forall i, r :: 0 <= i < |old(revisions)| && r in old(revisions)[i].rules ==> r !in repo.rules
    {
      hide DiffOf, Index, Separate, Chained, RuleRepo.Valid, Contents, Live;
      var target := FindRevision(revisionID);
      if target.None? {
        return None;
      }
      var current := CopyHead();
      var snap := CloneRules(target.value.rules);
      var changes := Diff(current, snap);
      var revision := Install(repo, snap, changes, author, "rollback", "rollback to " + revisionID, id, now);
      return Some(revision);
    }

    /** DryRun: what Apply would report, without touching anything. */
    method DryRun(next: seq<Rule>) returns (p: Preview, ghost dup: seq<Rule>)
      ensures p.valid == AcceptedSet(next) && p.incoming == |next|
      ensures Contents(dup) == Contents(next)
      ensures p.valid ==> p.changes == DiffOf(Book(HeadRules()), Book(next)) && p.conflicts == Rows(dup, |dup|)
      ensures !p.valid ==> p.changes == [] && p.conflicts == []
    {
      hide DiffOf, Index, ValidSet, AcceptedSet, Rows, Contents;
      ValidSetExact(next);
      var copy := CloneRules(next);
      dup := copy;
      SameValidity(copy, next);
      SameLength(copy, next);
      if !ValidSet(copy) {
        return Preview(false, |copy|, [], []), dup;
      }
      var current := CopyHead();
      var changes := Diff(current, copy);
      var conflicts := FindConflicts(copy);
      return Preview(true, |copy|, changes, conflicts), dup;
    }

    /** History. */
    method History() returns (out: seq<Revision>)
      ensures out == HistoryOf(revisions)
    {
      out := [];
      var i := |revisions|;
      assert revisions[..i] == revisions;
      while i > 0
        invariant 0 <= i <= |revisions|
        invariant HistoryOf(revisions) == out + HistoryOf(revisions[..i])
      {
        i := i - 1;
        assert revisions[..i + 1][..i] == revisions[..i];
        var rv := revisions[i];
        if rv.id != BOOT_ID {
          out := out + [rv];
        }
      }
    }

    /** Get and findLocked. */
    method FindRevision(id: string) returns (rv: Option<Revision>)
      ensures rv == Find(revisions, id)
    {
      for i := 0 to |revisions|
        invariant Find(revisions, id) == Find(revisions[i..], id)
      {
        if revisions[i].id == id {
          return Some(revisions[i]);
        }
      }
      return None;
    }
  }

  lemma NothingBook()
    ensures Book([]) == map[]
  {
    assert Contents([]) == [];
  }

  lemma SameLength(a: seq<Rule>, b: seq<Rule>)
    requires Contents(a) == Contents(b)
    ensures |a| == |b|
  {
    assert |Contents(a)| == |a| && |Contents(b)| == |b|;
  }

  // ---- What a chain tells ----

  /** The identifiers reached by carrying out the changes of revisions 1..n on those of revision 0. */
  ghost function Replayed(revs: seq<Revision>, n: nat): set<string>
    requires n < |revs|
  {
    if n == 0 then Book(revs[0].rules).Keys else Patch(Replayed(revs, n - 1), revs[n].changes)
  }

  lemma LinkAt(revs: seq<Revision>, n: nat)
    requires Chained(revs) && 0 < n < |revs|
    ensures revs[n].parent == revs[n - 1].id
    ensures revs[n].changes == DiffOf(Book(revs[n - 1].rules), Book(revs[n].rules))
  {
    hide DiffOf, Book;
    assert Follows(Before(revs, n), revs[n]);
  }

  /** Replaying the recorded changes from the first revision reproduces the identifiers of every later one. */
  lemma {:induction false} ReplayReaches(revs: seq<Revision>, n: nat)
    requires Chained(revs) && n < |revs|
    ensures Replayed(revs, n) == Book(revs[n].rules).Keys
  {
    hide DiffOf, Patch, Chained, Follows, Book;
    if n > 0 {
      ReplayReaches(revs, n - 1);
      LinkAt(revs, n);
      PatchDiff(Book(revs[n - 1].rules), Book(revs[n].rules));
    }
  }

  /** A rollback to the predecessor of the head records the head's changes read backwards. */
  lemma RollbackReverses(prev: Revision, rv: Revision, back: Revision, c: Change)
    requires Follows(Some(prev), rv) && Follows(Some(rv), back) && Contents(back.rules) == Contents(prev.rules)
    ensures c in rv.changes <==> Swap(c) in back.changes
    ensures Book(back.rules) == Book(prev.rules)
  {
    hide DiffOf;
    DiffReversed(Book(prev.rules), Book(rv.rules), c);
  }

  /** A revision that changes nothing is one whose rules agree with its predecessor's. */
  lemma NoChangeRevision(prev: Revision, rv: Revision)
    requires Follows(Some(prev), rv)
    ensures rv.changes == [] <==> Book(prev.rules) == Book(rv.rules)
  {
    hide DiffOf;
    DiffEmpty(Book(prev.rules), Book(rv.rules));
  }

  /** The revisions other than the boot revision, in the order they were made. */
  function Recorded(revs: seq<Revision>): seq<Revision> {
    if revs == [] then [] else (if revs[0].id == BOOT_ID then [] else [revs[0]]) + Recorded(revs[1..])
  }

  lemma {:induction false} RecordedMore(revs: seq<Revision>, rv: Revision)
    ensures Recorded(revs + [rv]) == Recorded(revs) + if rv.id == BOOT_ID then [] else [rv]
  {
    if revs == [] {
      assert [rv][1..] == [];
    } else {
      RecordedMore(revs[1..], rv);
      assert (revs + [rv])[1..] == revs[1..] + [rv];
    }
  }

  /** History lists exactly the recorded revisions, latest first. */
  lemma {:induction false} HistoryIsReversed(revs: seq<Revision>)
    ensures var h, r := HistoryOf(revs), Recorded(revs);
            |h| == |r| && forall i :: 0 <= i < |h| ==> h[i] == r[|r| - 1 - i]
  {
    if revs != [] {
      var n := |revs| - 1;
      HistoryIsReversed(revs[..n]);
      RecordedMore(revs[..n], revs[n]);
      assert revs == revs[..n] + [revs[n]];
    }
  }

  lemma {:induction false} RecordedMember(revs: seq<Revision>, rv: Revision)
    ensures rv in Recorded(revs) <==> rv in revs && rv.id != BOOT_ID
  {
    if revs != [] {
      RecordedMember(revs[1..], rv);
      assert revs == [revs[0]] + revs[1..];
    }
  }

  lemma {:induction false} RecordedDistinct(revs: seq<Revision>)
    requires forall i, j :: 0 <= i < j < |revs| ==> revs[i] != revs[j]
    ensures var r := Recorded(revs); forall i, j :: 0 <= i < j < |r| ==> r[i] != r[j]
  {
    if revs != [] {
      RecordedDistinct(revs[1..]);
      RecordedMember(revs[1..], revs[0]);
    }
  }

  /** The documented oldest-first order is met exactly when at most one revision has been recorded. */
  lemma OldestFirstIff(revs: seq<Revision>)
    requires forall i, j :: 0 <= i < j < |revs| ==> revs[i] != revs[j]
    ensures HistoryOf(revs) == Recorded(revs) <==> |Recorded(revs)| <= 1
  {
    HistoryIsReversed(revs);
    RecordedDistinct(revs);
    var h, r := HistoryOf(revs), Recorded(revs);
    if |r| > 1 {
      assert h[0] == r[|r| - 1] && r[0] != r[|r| - 1];
    }
  }
}
