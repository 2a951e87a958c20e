// The lookup trees of the compiled rule index are specified by the log of insertions made into them.
module TreeLog {

  /** A position in a tree of nodes: the edges walked from the root. */
  datatype Path<C> = Root | Step(up: Path<C>, edge: C)

  /** The payloads inserted under exactly the key `k`, oldest first. */
  ghost function RulesFor<K, T>(log: seq<(K, T)>, k: K): seq<T> {
    if log == [] then []
    else
      var n := |log| - 1;
      RulesFor(log[..n], k) + (if log[n].0 == k then [log[n].1] else [])
  }

  ghost predicate Stored<K, T>(log: seq<(K, T)>, k: K) {
    exists i :: 0 <= i < |log| && log[i].0 == k
  }

  lemma {:induction false} StoredHasRules<K, T>(log: seq<(K, T)>, k: K)
    ensures Stored(log, k) <==> RulesFor(log, k) != []
  {
    if log != [] {
      var n := |log| - 1;
      StoredHasRules(log[..n], k);
      if Stored(log, k) {
        var i :| 0 <= i < |log| && log[i].0 == k;
        assert i < n ==> log[..n][i].0 == k;
      }
      if Stored(log[..n], k) {
        var i :| 0 <= i < n && log[..n][i].0 == k;
        assert log[i].0 == k;
      }
    }
  }

  lemma RulesForAppend<K, T>(log: seq<(K, T)>, e: (K, T), k: K)
    ensures RulesFor(log + [e], k) == RulesFor(log, k) + (if e.0 == k then [e.1] else [])
  {
    assert (log + [e])[..|log|] == log;
  }

  /** A payload is listed under a key exactly when that pair was inserted. */
  lemma {:induction false} RulesForMember<K, T>(log: seq<(K, T)>, k: K, x: T)
    ensures x in RulesFor(log, k) <==> (k, x) in log
  {
    if log != [] {
      var n := |log| - 1;
      RulesForMember(log[..n], k, x);
      assert log == log[..n] + [log[n]];
      assert log[n] == (log[n].0, log[n].1);
    }
  }

  /** What the nodes of a tree hold, `contents`, is exactly what was inserted. */
  ghost predicate Records<C, T>(contents: map<Path<C>, seq<T>>, log: seq<(Path<C>, T)>) {
    && (forall p :: p in contents ==> contents[p] == RulesFor(log, p))
    && (forall i :: 0 <= i < |log| ==> log[i].0 in contents)
  }

  lemma RecordsGrow<C, T>(contents: map<Path<C>, seq<T>>, log: seq<(Path<C>, T)>, p: Path<C>)
    requires Records(contents, log)
    requires p !in contents
    ensures !Stored(log, p) && RulesFor(log, p) == []
    ensures Records(contents[p := []], log)
  {
    StoredHasRules(log, p);
  }

  lemma RecordsAppend<C, T>(contents: map<Path<C>, seq<T>>, log: seq<(Path<C>, T)>, p: Path<C>, r: T)
    requires Records(contents, log)
    requires p in contents
    ensures Records(contents[p := contents[p] + [r]], log + [(p, r)])
  {
    forall q | q in contents
      ensures RulesFor(log + [(p, r)], q) == contents[q] + (if p == q then [r] else [])
    {
      RulesForAppend(log, (p, r), q);
    }
  }
}
