// The rule slice that the live repository and the head revision share after Apply and Rollback: internal/rules/version.go
// hands one slice to both, and internal/rules/repo.go edits it in place. Here the slice is an array and a live length, so
// that direct edits show in the history.
module SharedRules {
  import opened Rules
  import opened Repo
  import opened Versions

  // ---- Edits ----

  /** A direct edit of the live repository, past its validation. */
  datatype Edit = Add(rule: Rule) | Update(rule: Rule) | Delete(id: string)

  /** What a revision holds, what is live, and whether the live slice still lies in the revision's array. */
  datatype State = State(snapshot: seq<Rule>, live: seq<Rule>, shared: bool)

  /** append(rules[:k], rules[k+1:]...): the tail moves down, and the last element stays behind. */
  function ShiftDown(s: seq<Rule>, k: nat): (t: seq<Rule>)
    requires k < |s|
    ensures |t| == |s|
  {
    s[..k] + s[k + 1..] + [s[|s| - 1]]
  }

  lemma ShiftFront(s: seq<Rule>, rest: seq<Rule>, k: nat)
    requires k < |s|
    ensures (ShiftDown(s, k) + rest)[..|s| - 1] == s[..k] + s[k + 1..]
  {
  }

  /** Write `rules` over the front of the snapshot. */
  function Over(rules: seq<Rule>, snapshot: seq<Rule>): seq<Rule>
    requires |rules| <= |snapshot|
  {
    rules + snapshot[|rules|..]
  }

  /** The live slice lies at the front of the revision's array. */
  predicate Fits(s: State) {
    s.shared ==> |s.live| <= |s.snapshot| && s.live == s.snapshot[..|s.live|]
  }

  ghost function Edited(s: State, e: Edit): State
    requires Fits(s)
  {
    match e
    case Add(r) =>
      if s.shared && |s.live| < |s.snapshot| then State(s.snapshot[|s.live| := r], s.live + [r], true)
      else State(s.snapshot, s.live + [r], false)
    case Update(r) =>
      var k := IndexOf(s.live, r.id);
      if k == |s.live| then s
      else State(if s.shared then s.snapshot[k := r] else s.snapshot, s.live[k := r], s.shared)
    case Delete(id) =>
      var k := IndexOf(s.live, id);
      if k == |s.live| then s
      else State(if s.shared then Over(ShiftDown(s.live, k), s.snapshot) else s.snapshot,
                 s.live[..k] + s.live[k + 1..], s.shared)
  }

  lemma EditedFits(s: State, e: Edit)
    requires Fits(s)
    ensures Fits(Edited(s, e)) && |Edited(s, e).snapshot| == |s.snapshot|
  {
  }

  // ---- The slice in place ----

  class LiveSlice {
    var data: array<Rule>
    var len: nat

    ghost predicate Valid()
      reads this
    {
      len <= data.Length
    }

    ghost function View(snapshot: array<Rule>): (s: State)
      reads this, data, snapshot
      requires Valid()
      ensures Fits(s)
    {
      State(snapshot[..], data[..len], data == snapshot)
    }

    /** Right after Apply or Rollback: the array has no spare capacity, and the revision holds all of it. */
    constructor (snapshot: array<Rule>)
      ensures Valid() && data == snapshot && View(snapshot) == State(snapshot[..], snapshot[..], true)
    {
      data, len := snapshot, snapshot.Length;
    }

    method Find(id: string) returns (k: nat)
      requires Valid()
      ensures k == IndexOf(data[..len], id)
    {
      k := 0;
      while k < len && data[k].id != id
        invariant k <= len && forall j :: 0 <= j < k ==> data[j].id != id
      {
        k := k + 1;
      }
      IndexOfUnique(data[..len], id, k);
    }

    /** append(r.rules, rule): into spare capacity when there is some, else into a new array with `spare` free places. */
    method Add(rule: Rule, spare: nat, ghost snapshot: array<Rule>) returns (ok: bool)
      requires Valid()
      modifies this, data
      ensures Valid() && ok == ValidRule(rule.kind, rule.matchers)
      ensures View(snapshot) == if ok then Edited(old(View(snapshot)), Edit.Add(rule)) else old(View(snapshot))
    {
      hide ValidRule;
      ok := ValidRule(rule.kind, rule.matchers);
      if !ok {
        return;
      }
      ghost var before := data[..len];
      if len == data.Length {
        var bigger := new Rule[len + 1 + spare](_ => rule);
        for i := 0 to len
          modifies bigger
          invariant forall j :: 0 <= j < i ==> bigger[j] == data[j]
          invariant forall j :: i <= j < bigger.Length ==> bigger[j] == rule
        {
          bigger[i] := data[i];
        }
        data := bigger;
      } else {
        data[len] := rule;
      }
      assert data[..len] == before && data[len] == rule;
      len := len + 1;
      assert data[..len] == before + [rule];
    }

    /** RuleRepo.Update: overwrite the first rule with the identifier. */
    method Update(rule: Rule, ghost snapshot: array<Rule>) returns (ok: bool)
      requires Valid()
      modifies data
      ensures Valid() && ok == (ValidRule(rule.kind, rule.matchers) && IndexOf(old(data[..len]), rule.id) < len)
      ensures View(snapshot) == if ok then Edited(old(View(snapshot)), Edit.Update(rule)) else old(View(snapshot))
    {
      hide ValidRule;
      if !ValidRule(rule.kind, rule.matchers) {
        return false;
      }
      var k := Find(rule.id);
      ok := k < len;
      if ok {
        data[k] := rule;
      }
    }

    /** RuleRepo.Delete: move the tail down over the first rule with the identifier. */
    method Delete(id: string, ghost snapshot: array<Rule>) returns (ok: bool)
      requires Valid()
      modifies this`len, data
      ensures Valid() && ok == (IndexOf(old(data[..len]), id) < old(len))
      ensures View(snapshot) == Edited(old(View(snapshot)), Edit.Delete(id))
    {
      hide ShiftDown;
      var k := Find(id);
      ok := k < len;
      if ok {
        ghost var live, rest := data[..len], data[len..];
        MoveDown(k);
        ShiftFront(live, rest, k);
        assert data[..len - 1] == data[..][..len - 1];
        len := len - 1;
      }
    }

    /** copy(rules[k:], rules[k+1:]). */
    method MoveDown(k: nat)
      requires Valid() && k < len
      modifies data
      ensures data[..] == ShiftDown(old(data[..len]), k) + old(data[len..])
    {
      ghost var was := data[..];
      for j := k to len - 1
        invariant forall x :: 0 <= x < k ==> data[x] == was[x]
        invariant forall x :: k <= x < j ==> data[x] == was[x + 1]
        invariant forall x :: j <= x < data.Length ==> data[x] == was[x]
      {
        data[j] := data[j + 1];
      }
      ghost var now := ShiftDown(was[..len], k) + was[len..];
      forall x | 0 <= x < data.Length
        ensures data[..][x] == now[x]
      {
        if x < k {
          assert now[x] == was[..len][..k][x];
        } else if x < len - 1 {
          assert now[x] == was[..len][k + 1..][x - k];
        } else if x >= len {
          assert now[x] == was[len..][x - len];
        }
      }
    }
  }

  // ---- Which edits reach the history ----

  /** The snapshot after each edit of a run. */
  ghost function After(s: State, edits: seq<Edit>): (t: State)
    requires Fits(s)
    ensures Fits(t) && |t.snapshot| == |s.snapshot|
    decreases |edits|
  {
    if edits == [] then s
    else
      EditedFits(s, edits[0]);
      After(Edited(s, edits[0]), edits[1..])
  }

  /** Where the live slice is, which the edits so far decide: the first `len` places of the revision's array, or not in it. */
  datatype Place = InArray(len: nat) | Elsewhere

  ghost predicate Within(cs: seq<Content>, at: Place) {
    at.InArray? ==> at.len <= |cs|
  }

  ghost function FirstWithId(cs: seq<Content>, id: string): (k: nat)
    ensures k <= |cs|
    ensures k < |cs| ==> cs[k].id == id
    ensures forall j :: 0 <= j < k ==> cs[j].id != id
  {
    if cs == [] || cs[0].id == id then 0 else 1 + FirstWithId(cs[1..], id)
  }

  /** An edit leaves the recorded contents `cs` as they are. Once the slice has moved out of the revision's array every
      edit does. Before that: an addition without spare capacity, which moves it out, or of what the next place holds
      anyway; an update to the content already there; a deletion of the last live rule, or of one followed only by its
      equals; and edits that find no rule. */
  ghost predicate Harmless(cs: seq<Content>, at: Place, e: Edit)
    requires Within(cs, at)
  {
    at.InArray? ==>
      match e
      case Add(r) => at.len < |cs| ==> cs[at.len] == ContentOf(r)
      case Update(r) =>
        var k := FirstWithId(cs[..at.len], r.id);
        k < at.len ==> cs[k] == ContentOf(r)
      case Delete(id) =>
        forall j :: FirstWithId(cs[..at.len], id) <= j < at.len - 1 ==> cs[j] == cs[j + 1]
  }

  /** Where the live slice is after an edit that leaves `cs` as it is. */
  ghost function Onward(cs: seq<Content>, at: Place, e: Edit): (next: Place)
    requires Within(cs, at)
    ensures Within(cs, next)
  {
    if at.Elsewhere? then Elsewhere
    else
      match e
      case Add(_) => if at.len < |cs| then InArray(at.len + 1) else Elsewhere
      case Update(_) => at
      case Delete(id) => if FirstWithId(cs[..at.len], id) < at.len then InArray(at.len - 1) else at
  }

  /** Every edit of the run is harmless where the ones before it have left the slice. */
  ghost predicate AllHarmless(cs: seq<Content>, at: Place, edits: seq<Edit>)
    requires Within(cs, at)
    decreases |edits|
  {
    edits == [] || (Harmless(cs, at, edits[0]) && AllHarmless(cs, Onward(cs, at, edits[0]), edits[1..]))
  }

  ghost function PlaceOf(s: State): Place {
    if s.shared then InArray(|s.live|) else Elsewhere
  }

  lemma SameFirst(rs: seq<Rule>, cs: seq<Content>, id: string)
    requires Contents(rs) == cs
    ensures IndexOf(rs, id) == FirstWithId(cs, id)
  {
    assert forall j :: 0 <= j < |rs| ==> rs[j].id == cs[j].id;
    IndexOfUnique(rs, id, FirstWithId(cs, id));
  }

  lemma LiveContents(s: State)
    requires Fits(s) && s.shared
    ensures Contents(s.live) == Contents(s.snapshot)[..|s.live|]
  {
  }

  lemma PlaceMoves(s: State, e: Edit)
    requires Fits(s)
    ensures PlaceOf(Edited(s, e)) == Onward(Contents(s.snapshot), PlaceOf(s), e)
  {
    if s.shared {
      hide Contents, Over, ShiftDown;
      LiveContents(s);
      if e.Delete? {
        SameFirst(s.live, Contents(s.live), e.id);
      }
    }
  }

  /** One edit of a slice whose snapshot is still as recorded. */
  lemma EditKeepsIff(s: State, e: Edit)
    requires Fits(s)
    ensures Contents(Edited(s, e).snapshot) == Contents(s.snapshot) <==> Harmless(Contents(s.snapshot), PlaceOf(s), e)
  {
    if s.shared {
      hide Contents, Edited;
      LiveContents(s);
      match e
      case Add(r) => AddKeepsIff(s, r);
      case Update(r) =>
        SameFirst(s.live, Contents(s.live), r.id);
        UpdateKeepsIff(s, r);
      case Delete(id) =>
        SameFirst(s.live, Contents(s.live), id);
        DeleteKeepsIff(s, id);
    }
  }

  lemma WrittenIff(rs: seq<Rule>, k: nat, r: Rule)
    requires k < |rs|
    ensures Contents(rs[k := r]) == Contents(rs) <==> Contents(rs)[k] == ContentOf(r)
  {
    assert Contents(rs[k := r])[k] == ContentOf(r);
    assert Contents(rs[k := r]) == Contents(rs)[k := ContentOf(r)];
  }

  lemma AddKeepsIff(s: State, r: Rule)
    requires Fits(s) && s.shared
    ensures Contents(Edited(s, Edit.Add(r)).snapshot) == Contents(s.snapshot)
            <==> (|s.live| < |s.snapshot| ==> Contents(s.snapshot)[|s.live|] == ContentOf(r))
  {
    if |s.live| < |s.snapshot| {
      WrittenIff(s.snapshot, |s.live|, r);
    }
  }

  lemma UpdateKeepsIff(s: State, r: Rule)
    requires Fits(s) && s.shared
    ensures var k := IndexOf(s.live, r.id);
            Contents(Edited(s, Edit.Update(r)).snapshot) == Contents(s.snapshot)
            <==> (k < |s.live| ==> Contents(s.snapshot)[k] == ContentOf(r))
  {
    var k := IndexOf(s.live, r.id);
    if k < |s.live| {
      WrittenIff(s.snapshot, k, r);
    }
  }

  lemma ShiftedAt(live: seq<Rule>, snapshot: seq<Rule>, k: nat)
    requires k < |live| <= |snapshot| && live == snapshot[..|live|]
    ensures var t := Over(ShiftDown(live, k), snapshot);
            && |t| == |snapshot|
            && forall j :: 0 <= j < |t| ==> t[j] == if k <= j < |live| - 1 then snapshot[j + 1] else snapshot[j]
  {
  }

  lemma ShiftedContents(cs: seq<Content>, ds: seq<Content>, k: nat, n: nat)
    requires |ds| == |cs| && n <= |cs|
    requires forall j :: 0 <= j < |cs| ==> ds[j] == if k <= j < n - 1 then cs[j + 1] else cs[j]
    ensures ds == cs <==> forall j :: k <= j < n - 1 ==> cs[j] == cs[j + 1]
  {
    if ds == cs {
      forall j | k <= j < n - 1
        ensures cs[j] == cs[j + 1]
      {
        assert ds[j] == cs[j + 1];
      }
    }
    if forall j :: k <= j < n - 1 ==> cs[j] == cs[j + 1] {
      forall j | 0 <= j < |cs|
        ensures ds[j] == cs[j]
      {
        assert ds[j] == if k <= j < n - 1 then cs[j + 1] else cs[j];
      }
    }
  }

  lemma DeleteKeepsIff(s: State, id: string)
    requires Fits(s) && s.shared
    ensures var cs := Contents(s.snapshot);
            Contents(Edited(s, Edit.Delete(id)).snapshot) == cs
            <==> forall j :: IndexOf(s.live, id) <= j < |s.live| - 1 ==> cs[j] == cs[j + 1]
  {
    hide Over, ShiftDown;
    var k := IndexOf(s.live, id);
    if k < |s.live| {
      ShiftedAt(s.live, s.snapshot, k);
      ShiftedContents(Contents(s.snapshot), Contents(Over(ShiftDown(s.live, k), s.snapshot)), k, |s.live|);
    }
  }

  /** After Apply or Rollback, the head's snapshot reads as recorded at every moment of a run of direct additions, updates
      and deletions exactly when each of them is harmless where the ones before it have left the live slice. */
  lemma {:induction false} HistoryKeptIff(s: State, edits: seq<Edit>)
    requires Fits(s)
    ensures (forall n :: 0 <= n <= |edits| ==> Contents(After(s, edits[..n]).snapshot) == Contents(s.snapshot))
            <==> AllHarmless(Contents(s.snapshot), PlaceOf(s), edits)
    decreases |edits|
  {
    hide Edited, Harmless, Onward, Contents, PlaceOf;
    var cs := Contents(s.snapshot);
    if edits == [] {
      assert edits[..0] == [];
    } else {
      EditKeepsIff(s, edits[0]);
      PlaceMoves(s, edits[0]);
      EditedFits(s, edits[0]);
      var t, rest := Edited(s, edits[0]), edits[1..];
      if Contents(t.snapshot) == cs {
        HistoryKeptIff(t, rest);
        assert edits[..0] == [];
        forall n | 0 < n <= |edits|
          ensures After(s, edits[..n]) == After(t, rest[..n - 1])
        {
          assert edits[..n][1..] == rest[..n - 1];
        }
        forall n | 0 <= n <= |rest|
          ensures After(t, rest[..n]) == After(s, edits[..n + 1])
        {
          assert edits[..n + 1][1..] == rest[..n];
        }
      } else {
        assert edits[..1] == [edits[0]] && edits[..1][1..] == [];
        assert After(s, edits[..1]) == t;
      }
    }
  }

  /** With distinct identifiers a deletion is harmless exactly when it finds nothing or drops the last live rule. */
  lemma DeleteHarmlessIff(cs: seq<Content>, len: nat, id: string)
    requires len <= |cs| && DistinctIds(cs)
    ensures Harmless(cs, InArray(len), Edit.Delete(id))
            <==> FirstWithId(cs[..len], id) == len || FirstWithId(cs[..len], id) == len - 1
  {
    var k := FirstWithId(cs[..len], id);
    if k < len - 1 {
      assert cs[k].id != cs[k + 1].id;
    }
  }

  /** An addition right after Apply or Rollback moves the live slice out, and no later edit reaches the history. */
  lemma AddFirstProtects(snapshot: seq<Rule>, r: Rule, edits: seq<Edit>)
    ensures AllHarmless(Contents(snapshot), InArray(|snapshot|), [Edit.Add(r)] + edits)
  {
    assert ([Edit.Add(r)] + edits)[1..] == edits;
    ElsewhereHarmless(Contents(snapshot), edits);
  }

  lemma {:induction false} ElsewhereHarmless(cs: seq<Content>, edits: seq<Edit>)
    ensures AllHarmless(cs, Elsewhere, edits)
    decreases |edits|
  {
    if edits != [] {
      ElsewhereHarmless(cs, edits[1..]);
    }
  }

  // ---- Runs that change the history ----

  /** Right after Apply or Rollback. */
  function Fresh(snapshot: seq<Rule>): State {
    State(snapshot, snapshot, true)
  }

  /** The last rule deleted, another one added: the recorded revision now ends in a rule that was never in it. */
  lemma DeleteThenAdd(a: Rule, b: Rule, c: Rule, d: Rule)
    requires a.id != c.id && b.id != c.id
    ensures After(Fresh([a, b, c]), [Edit.Delete(c.id), Edit.Add(d)]).snapshot == [a, b, d]
  {
    var s, e, f := Fresh([a, b, c]), Edit.Delete(c.id), Edit.Add(d);
    IndexOfUnique([a, b, c], c.id, 2);
    var t := Edited(s, e);
    assert t.snapshot == [a, b, c] && t.live == [a, b];
    assert Edited(t, f).snapshot == [a, b, d];
    TwoEdits(s, e, f);
  }

  /** A rule deleted in front of another one: the recorded revision lists that one twice. */
  lemma DeleteDoubles(a: Rule, b: Rule)
    ensures After(Fresh([a, b]), [Edit.Delete(a.id)]).snapshot == [b, b]
  {
    var s, e := Fresh([a, b]), Edit.Delete(a.id);
    IndexOfUnique([a, b], a.id, 0);
    assert Edited(s, e).snapshot == [b, b];
    assert [e][1..] == [];
  }

  lemma TwoEdits(s: State, e: Edit, f: Edit)
    requires Fits(s)
    ensures Fits(Edited(s, e)) && After(s, [e, f]) == Edited(Edited(s, e), f)
  {
    hide Edited;
    EditedFits(s, e);
    var t := Edited(s, e);
    EditedFits(t, f);
    assert [e, f][1..] == [f] && [f][1..] == [];
    assert After(t, [f]) == After(Edited(t, f), []);
  }
}
