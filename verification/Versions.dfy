// Rule-set differences and the revision chain: internal/rules/version.go.
module Versions {
  import opened Options
  import opened Text
  import opened Sorting
  import opened Rules
  import opened Repo

  // ---- Contents ----

  /** The policy part of a rule: everything but its hit accounting. */
  datatype Content = Content(id: string, name: string, kind: Kind, enabled: bool, category: string, source: string,
                             comment: string, matchers: seq<Matcher>)

  function ContentOf(r: Rule): Content {
    Content(r.id, r.name, r.kind, r.enabled, r.category, r.source, r.comment, r.matchers)
  }

  function Contents(rs: seq<Rule>): (cs: seq<Content>)
    ensures |cs| == |rs|
    ensures forall i :: 0 <= i < |rs| ==> cs[i] == ContentOf(rs[i])
  {
    seq(|rs|, i requires 0 <= i < |rs| => ContentOf(rs[i]))
  }

  /** ruleSnapshot. */
  function Snapshot(c: Content): string {
    if c.name != "" then c.name
    else if |c.matchers| > 0 then FieldName(c.matchers[0].field) + ":" + c.matchers[0].value
    else c.id
  }

  /** A change names a rule as decisions do. */
  lemma SnapshotIsLabel(r: Rule)
    ensures Snapshot(ContentOf(r)) == r.Label()
  {
  }

  /** Two rules have the same content exactly when they agree in everything but their hit accounting. */
  lemma ContentExact(a: Rule, b: Rule)
    ensures ContentOf(a) == ContentOf(b) <==>
              && a.id == b.id && a.name == b.name && a.kind == b.kind && a.enabled == b.enabled
              && a.category == b.category && a.source == b.source && a.comment == b.comment && a.matchers == b.matchers
  {
  }

  /** The rules of a set by identifier; of several with one identifier the last counts. */
  function Index(cs: seq<Content>): (m: map<string, Content>)
    ensures forall id :: id in m ==> m[id].id == id && m[id] in cs
    ensures forall c :: c in cs ==> c.id in m
  {
    if cs == [] then map[]
    else
      var n := |cs| - 1;
      assert cs == cs[..n] + [cs[n]];
      Index(cs[..n])[cs[n].id := cs[n]]
  }

  ghost predicate DistinctIds(cs: seq<Content>) {
    forall i, j :: 0 <= i < j < |cs| ==> cs[i].id != cs[j].id
  }

  /** With distinct identifiers the index holds every rule. */
  lemma {:induction false} IndexDistinct(cs: seq<Content>)
    requires DistinctIds(cs)
    ensures forall i :: 0 <= i < |cs| ==> Index(cs)[cs[i].id] == cs[i]
  {
    if cs != [] {
      var front := cs[..|cs| - 1];
      IndexDistinct(front);
      forall i | 0 <= i < |front|
        ensures Index(cs)[cs[i].id] == cs[i]
      {
        assert front[i] == cs[i];
      }
    }
  }

  // ---- Changes ----

  datatype Change = Added(id: string, after: string)
                  | Modified(id: string, before: string, after: string)
                  | Removed(id: string, before: string)

  type Rulebook = m: map<string, Content> | forall id :: id in m ==> m[id].id == id witness map[]

  /** What happened to one identifier. */
  function ChangeFor(from: Rulebook, to: Rulebook, id: string): (c: Option<Change>)
    ensures c.Some? ==> c.value.id == id
  {
    if id in to then
      if id !in from then Some(Added(id, Snapshot(to[id])))
      else if from[id] != to[id] then Some(Modified(id, Snapshot(from[id]), Snapshot(to[id])))
      else None
    else if id in from then Some(Removed(id, Snapshot(from[id])))
    else None
  }

  function ChangesFor(ids: seq<string>, from: Rulebook, to: Rulebook): seq<Change> {
    if ids == [] then []
    else
      var n := |ids| - 1;
      var c := ChangeFor(from, to, ids[n]);
      ChangesFor(ids[..n], from, to) + if c.Some? then [c.value] else []
  }

  /** Added and modified rules by identifier, removed rules after them by identifier. */
  ghost function DiffOf(from: Rulebook, to: Rulebook): seq<Change> {
    ChangesFor(SortedIds(to.Keys), from, to) + ChangesFor(SortedIds(from.Keys - to.Keys), from, to)
  }

  function IdOf(c: Change): string {
    c.id
  }

  lemma {:induction false} ChangesForExact(ids: seq<string>, from: Rulebook, to: Rulebook, c: Change)
    ensures c in ChangesFor(ids, from, to) <==> c.id in ids && ChangeFor(from, to, c.id) == Some(c)
  {
    hide ChangeFor;
    if ids != [] {
      var n := |ids| - 1;
      ChangesForExact(ids[..n], from, to, c);
      assert ids == ids[..n] + [ids[n]];
    }
  }

  lemma {:induction false} ChangesForStrict(ids: seq<string>, from: Rulebook, to: Rulebook)
    requires Strict(ids, Itself)
    ensures Strict(ChangesFor(ids, from, to), IdOf)
  {
    hide ChangeFor, Less;
    if ids != [] {
      var n := |ids| - 1;
      var front := ChangesFor(ids[..n], from, to);
      ChangesForStrict(ids[..n], from, to);
      forall i | 0 <= i < |front|
        ensures Less(front[i].id, ids[n])
      {
        ChangesForExact(ids[..n], from, to, front[i]);
        var k :| 0 <= k < n && ids[..n][k] == front[i].id;
        assert Less(Itself(ids[k]), Itself(ids[n]));
      }
    }
  }

  /** One change for every identifier whose rule differs, and no other. */
  lemma DiffExact(from: Rulebook, to: Rulebook, c: Change)
    ensures c in DiffOf(from, to) <==> ChangeFor(from, to, c.id) == Some(c)
  {
    ChangesForExact(SortedIds(to.Keys), from, to, c);
    ChangesForExact(SortedIds(from.Keys - to.Keys), from, to, c);
  }

  /** A list laid out as documented: added and modified rules by identifier, then removed rules by identifier. */
  ghost predicate LaidOut(cs: seq<Change>, k: nat) {
    && k <= |cs|
    && Strict(cs[..k], IdOf) && Strict(cs[k..], IdOf)
    && (forall i :: 0 <= i < k ==> !cs[i].Removed?)
    && (forall i :: k <= i < |cs| ==> cs[i].Removed?)
  }

  lemma DiffLaidOut(from: Rulebook, to: Rulebook)
    ensures LaidOut(DiffOf(from, to), |ChangesFor(SortedIds(to.Keys), from, to)|)
  {
    hide Strict;
    var first, second := SortedIds(to.Keys), SortedIds(from.Keys - to.Keys);
    var cs, a, b := DiffOf(from, to), ChangesFor(first, from, to), ChangesFor(second, from, to);
    ChangesForStrict(first, from, to);
    ChangesForStrict(second, from, to);
    assert cs[..|a|] == a && cs[|a|..] == b;
    forall c | c in a
      ensures !c.Removed?
    {
      ChangesForExact(first, from, to, c);
    }
    forall c | c in b
      ensures c.Removed?
    {
      ChangesForExact(second, from, to, c);
    }
  }

  /** No identifier is listed twice. */
  lemma DiffOnePerId(from: Rulebook, to: Rulebook, i: nat, j: nat)
    requires i < j < |DiffOf(from, to)|
    ensures DiffOf(from, to)[i].id != DiffOf(from, to)[j].id
  {
    hide DiffOf, ChangeFor, LaidOut, ChangesFor, SortedIds;
    var cs, k := DiffOf(from, to), |ChangesFor(SortedIds(to.Keys), from, to)|;
    DiffLaidOut(from, to);
    DiffExact(from, to, cs[i]);
    DiffExact(from, to, cs[j]);
    LaidOutDistinct(cs, k, i, j);
  }

  lemma LaidOutDistinct(cs: seq<Change>, k: nat, i: nat, j: nat)
    requires LaidOut(cs, k) && i < j < |cs|
    requires cs[i].id == cs[j].id ==> cs[i] == cs[j]
    ensures cs[i].id != cs[j].id
  {
    hide Less, Strict;
    if j < k {
      StrictPair(cs[..k], IdOf, i, j);
    } else if i >= k {
      StrictPair(cs[k..], IdOf, i - k, j - k);
    }
    LessTotal(cs[i].id, cs[j].id);
  }

  /** The documented order and content leave only one list. */
  lemma DiffUnique(from: Rulebook, to: Rulebook, cs: seq<Change>, k: nat)
    requires LaidOut(cs, k)
    requires forall c :: c in cs <==> ChangeFor(from, to, c.id) == Some(c)
    ensures cs == DiffOf(from, to)
  {
    hide Strict, ChangeFor, DiffOf, ChangesFor, Less;
    var ds := DiffOf(from, to);
    DiffLaidOut(from, to);
    var j := |ChangesFor(SortedIds(to.Keys), from, to)|;
    forall c
      ensures c in cs <==> c in ds
    {
      DiffExact(from, to, c);
    }
    Parts(cs, k);
    Parts(ds, j);
    StrictUnique(cs[..k], ds[..j], IdOf);
    StrictUnique(cs[k..], ds[j..], IdOf);
    assert cs == cs[..k] + cs[k..] && ds == ds[..j] + ds[j..];
  }

  lemma Parts(cs: seq<Change>, k: nat)
    requires LaidOut(cs, k)
    ensures forall c :: c in cs[..k] <==> c in cs && !c.Removed?
    ensures forall c :: c in cs[k..] <==> c in cs && c.Removed?
  {
    hide Strict;
    forall c | c in cs
      ensures c.Removed? ==> c in cs[k..]
      ensures !c.Removed? ==> c in cs[..k]
    {
      var i :| 0 <= i < |cs| && cs[i] == c;
      if i < k {
        assert cs[..k][i] == c;
      } else {
        assert cs[k..][i - k] == c;
      }
    }
  }

  /** No changes exactly when the two rule sets agree, identifier by identifier. */
  lemma DiffEmpty(from: Rulebook, to: Rulebook)
    ensures DiffOf(from, to) == [] <==> from == to
  {
    if DiffOf(from, to) == [] {
      forall id
        ensures ChangeFor(from, to, id) == None
      {
        var c := ChangeFor(from, to, id);
        if c.Some? {
          DiffExact(from, to, c.value);
        }
      }
      assert from.Keys == to.Keys by {
        forall id
          ensures id in from <==> id in to
        {
          assert ChangeFor(from, to, id) == None;
        }
      }
      forall id | id in from
        ensures from[id] == to[id]
      {
        assert ChangeFor(from, to, id) == None;
      }
    } else {
      DiffExact(from, to, DiffOf(from, to)[0]);
    }
  }

  /** With distinct identifiers: no changes exactly when the same rules occur on both sides, in any order. */
  lemma DiffEmptyDistinct(a: seq<Content>, b: seq<Content>)
    requires DistinctIds(a) && DistinctIds(b)
    ensures DiffOf(Index(a), Index(b)) == [] <==> forall c :: c in a <==> c in b
  {
    IndexDistinct(a);
    IndexDistinct(b);
    DiffEmpty(Index(a), Index(b));
    forall c
      ensures c in a <==> c.id in Index(a) && Index(a)[c.id] == c
      ensures c in b <==> c.id in Index(b) && Index(b)[c.id] == c
    {
    }
    if forall c :: c in a <==> c in b {
      forall id
        ensures id in Index(a) <==> id in Index(b)
        ensures id in Index(a) ==> Index(a)[id] == Index(b)[id]
      {
        if id in Index(a) {
          assert Index(a)[id] in b;
        }
        if id in Index(b) {
          assert Index(b)[id] in a;
        }
      }
      assert Index(a) == Index(b);
    }
  }

  /** With a repeated identifier a dropped rule goes unnoticed. */
  lemma RepeatedIdHidesChange(a: Content, b: Content)
    requires a.id == b.id
    ensures DiffOf(Index([a, b]), Index([b])) == []
  {
    assert [a, b][..1] == [a] && [b][..0] == [] && [a][..0] == [];
    assert Index([a, b]) == Index([b]);
    DiffEmpty(Index([a, b]), Index([b]));
  }

  /** The change read backwards. */
  function Swap(c: Change): Change {
    match c
    case Added(id, after) => Removed(id, after)
    case Modified(id, before, after) => Modified(id, after, before)
    case Removed(id, before) => Added(id, before)
  }

  /** Reversing the direction swaps added with removed rules, and before with after. */
  lemma DiffReversed(from: Rulebook, to: Rulebook, c: Change)
    ensures c in DiffOf(from, to) <==> Swap(c) in DiffOf(to, from)
  {
    hide DiffOf;
    DiffExact(from, to, c);
    DiffExact(to, from, Swap(c));
  }

  /** The identifiers left when a list of changes is carried out on a set of them. */
  function Patch(ids: set<string>, cs: seq<Change>): set<string> {
    (ids - set c | c in cs && c.Removed? :: c.id) + set c | c in cs && c.Added? :: c.id
  }

  /** Carrying out a diff leads from the one set of identifiers to the other. */
  lemma PatchDiff(from: Rulebook, to: Rulebook)
    ensures Patch(from.Keys, DiffOf(from, to)) == to.Keys
  {
    var cs := DiffOf(from, to);
    forall id
      ensures id in Patch(from.Keys, cs) <==> id in to
    {
      hide DiffOf;
      if id in to && id !in from {
        var c := Added(id, Snapshot(to[id]));
        DiffExact(from, to, c);
        assert c in cs && c.Added?;
      }
      if id in from && id !in to {
        var c := Removed(id, Snapshot(from[id]));
        DiffExact(from, to, c);
        assert c in cs && c.Removed?;
      }
      forall c | c in cs && c.id == id
        ensures ChangeFor(from, to, id) == Some(c)
      {
        DiffExact(from, to, c);
      }
    }
  }

  // ---- Diff as the loops of the source ----

  /** The keys of a map, collected in an arbitrary order and sorted. */
  method SortedKeys(keys: set<string>) returns (ids: seq<string>)
    ensures ids == SortedIds(keys)
  {
    hide Less, Strict, SortBy;
    ids := [];
    var left := keys;
    while left != {}
      invariant left <= keys
      invariant forall x :: x in ids <==> x in keys && x !in left
      invariant forall i, j :: 0 <= i < j < |ids| ==> ids[i] != ids[j]
      decreases left
    {
      var id :| id in left;
      assert id !in ids;
      ids := ids + [id];
      left := left - {id};
    }
    SortDistinct(ids);
    assert keys == set x | x in ids;
    ids := SortBy(ids, Itself);
  }

  method IndexRules(rs: seq<Rule>) returns (m: map<string, Rule>)
    ensures Indexes(m, Index(Contents(rs)))
  {
    m := map[];
    ghost var cs := Contents(rs);
    for i := 0 to |rs|
      invariant Indexes(m, Index(cs[..i]))
    {
      assert cs[..i + 1][..i] == cs[..i];
      m := m[rs[i].id := rs[i]];
    }
    assert cs[..|rs|] == cs;
  }

  /** Diff. */
  method Diff(from: seq<Rule>, to: seq<Rule>) returns (changes: seq<Change>)
    ensures changes == DiffOf(Index(Contents(from)), Index(Contents(to)))
  {
    hide Index, Contents, ChangesFor, SortedIds;
    ghost var f: Rulebook, t: Rulebook := Index(Contents(from)), Index(Contents(to));
    var idxTo := IndexRules(to);
    var idxFrom := IndexRules(from);
    changes := AddedAndModified(idxFrom, idxTo, f, t);
    var removed := RemovedChanges(idxFrom, idxTo, f, t);
    changes := changes + removed;
  }

  /** The index of a rule set on both levels: rule objects and their contents. */
  ghost predicate Indexes(m: map<string, Rule>, f: Rulebook) {
    m.Keys == f.Keys && forall id :: id in f ==> ContentOf(m[id]) == f[id]
  }

  /** The first loop of Diff, over the destination. */
  method AddedAndModified(idxFrom: map<string, Rule>, idxTo: map<string, Rule>, ghost f: Rulebook, ghost t: Rulebook)
    returns (changes: seq<Change>)
    requires Indexes(idxFrom, f) && Indexes(idxTo, t)
    ensures changes == ChangesFor(SortedIds(t.Keys), f, t)
  {
    hide Strict, Snapshot;
    changes := [];
    var ids := SortedKeys(idxTo.Keys);
    for i := 0 to |ids|
      invariant changes == ChangesFor(ids[..i], f, t)
    {
      ChangesForNext(ids, i, f, t);
      var id := ids[i];
      assert id in ids;
      var b := idxTo[id];
      if id !in idxFrom {
        changes := changes + [Added(id, Snapshot(ContentOf(b)))];
      } else {
        var a := idxFrom[id];
        if ContentOf(a) != ContentOf(b) {
          changes := changes + [Modified(id, Snapshot(ContentOf(a)), Snapshot(ContentOf(b)))];
        }
      }
    }
    assert ids[..|ids|] == ids;
  }

  lemma ChangesForNext(ids: seq<string>, i: nat, f: Rulebook, t: Rulebook)
    requires i < |ids|
    ensures var c := ChangeFor(f, t, ids[i]);
            ChangesFor(ids[..i + 1], f, t) == ChangesFor(ids[..i], f, t) + if c.Some? then [c.value] else []
  {
    hide ChangeFor;
    assert ids[..i + 1][..i] == ids[..i];
  }

  /** The second loop of Diff, over what is gone. */
  method RemovedChanges(idxFrom: map<string, Rule>, idxTo: map<string, Rule>, ghost f: Rulebook, ghost t: Rulebook)
    returns (changes: seq<Change>)
    requires Indexes(idxFrom, f) && Indexes(idxTo, t)
    ensures changes == ChangesFor(SortedIds(f.Keys - t.Keys), f, t)
  {
    hide Strict, Snapshot, ChangesFor;
    changes := [];
    var rm := SortedKeys(idxFrom.Keys - idxTo.Keys);
    NoChanges(rm, f, t);
    for i := 0 to |rm|
      invariant changes == ChangesFor(rm[..i], f, t)
    {
      ChangesForNext(rm, i, f, t);
      var id := rm[i];
      assert id in rm;
      changes := changes + [Removed(id, Snapshot(ContentOf(idxFrom[id])))];
    }
    assert rm[..|rm|] == rm;
  }

  lemma NoChanges(ids: seq<string>, f: Rulebook, t: Rulebook)
    ensures ChangesFor(ids[..0], f, t) == []
  {
  }
}
