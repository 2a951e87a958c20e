// The reversed byte trie behind suffix and wildcard rules: internal/rules/repo.go, suffixTrie.
//
// The tree lives on the heap and grows in place through a moving node pointer. Its shape is
// described by a flat ghost map from path to node, so that every step of a walk is one lookup.
module SuffixTrie {
  import opened TreeLog

  /** Where a suffix lives: its last byte is the edge out of the root. */
  ghost function PathOf(s: string): Path<char> {
    if s == "" then Root else Step(PathOf(s[1..]), s[0])
  }

  lemma {:induction false} PathOfInjective(s: string, t: string)
    requires PathOf(s) == PathOf(t)
    ensures s == t
  {
    if s != "" {
      PathOfInjective(s[1..], t[1..]);
      assert s == [s[0]] + s[1..] && t == [t[0]] + t[1..];
    }
  }

  // ---- Specification: an insertion log instead of a tree ----

  /** Reference lookup: try the whole domain, then drop leading bytes until something is stored. */
  ghost function Longest<T>(log: seq<(Path<char>, T)>, domain: string): seq<T> {
    if domain == "" then []
    else if Stored(log, PathOf(domain)) then RulesFor(log, PathOf(domain))
    else Longest(log, domain[1..])
  }

  /** The suffix of `domain` from byte `j` is the longest non-empty inserted one. */
  ghost predicate IsLongest<T>(log: seq<(Path<char>, T)>, domain: string, j: nat) {
    && j < |domain|
    && Stored(log, PathOf(domain[j..]))
    && forall i :: 0 <= i < j ==> !Stored(log, PathOf(domain[i..]))
  }

  /** `Longest` answers with the rules of the longest stored non-empty suffix, and nothing without one. */
  lemma {:induction false} LongestIsLongest<T>(log: seq<(Path<char>, T)>, domain: string, j: nat)
    requires IsLongest(log, domain, j)
    ensures Longest(log, domain) == RulesFor(log, PathOf(domain[j..]))
  {
    assert domain[0..] == domain;
    if j > 0 {
      assert domain[1..][j - 1..] == domain[j..];
      forall i | 0 <= i < j - 1
        ensures !Stored(log, PathOf(domain[1..][i..]))
      {
        assert domain[1..][i..] == domain[i + 1..];
      }
      LongestIsLongest(log, domain[1..], j - 1);
    }
  }

  /** A non-empty answer comes from a longest stored suffix. */
  lemma {:induction false} LongestFound<T>(log: seq<(Path<char>, T)>, domain: string) returns (j: nat)
    requires Longest(log, domain) != []
    ensures IsLongest(log, domain, j)
  {
    assert domain[0..] == domain;
    if Stored(log, PathOf(domain)) {
      j := 0;
    } else {
      var k := LongestFound(log, domain[1..]);
      j := k + 1;
      assert domain[1..][k..] == domain[j..];
      forall i | 0 <= i < j
        ensures !Stored(log, PathOf(domain[i..]))
      {
        if i > 0 {
          assert domain[1..][i - 1..] == domain[i..];
        }
      }
    }
  }

  // ---- The tree ----

  class TrieNode<T> {
    var children: map<char, TrieNode<T>>
    var rules: seq<T>
    ghost const path: Path<char>

    constructor (ghost path: Path<char>)
      ensures children == map[] && rules == [] && this.path == path
    {
      this.path := path;
      children := map[];
      rules := [];
    }
  }

  class SuffixTrie<T> {
    const root: TrieNode<T>
    ghost var nodes: map<Path<char>, TrieNode<T>>
    ghost var contents: map<Path<char>, seq<T>>
    ghost var Repr: set<object>

    /** The tree stands for the insertions in `log`. */
    ghost predicate Holds(log: seq<(Path<char>, T)>)
      reads this, Repr
      ensures Holds(log) ==> this in Repr
    {
      Shape() && Records(contents, log)
    }

    /** The nodes form one tree: children and the flat map agree, and no node is shared. */
    ghost predicate Shape()
      reads this, Repr
      ensures Shape() ==> this in Repr
    {
      && this in Repr
      && Root in nodes && nodes[Root] == root
      && (forall p :: p in nodes ==> nodes[p] in Repr && nodes[p].path == p)
      && (forall p :: p in nodes ==> p in contents && nodes[p].rules == contents[p])
      && (forall p :: p in contents ==> p in nodes)
      && (forall p, c :: Step(p, c) in nodes ==>
            p in nodes && c in nodes[p].children && nodes[p].children[c] == nodes[Step(p, c)])
      && (forall p, c {:trigger c in nodes[p].children} :: p in nodes && c in nodes[p].children ==> Step(p, c) in nodes)
    }

    constructor ()
      ensures Holds([]) && fresh(Repr)
    {
      var r := new TrieNode<T>(Root);
      root := r;
      nodes := map[Root := r];
      contents := map[Root := []];
      Repr := {this, r};
    }

    /** Adding one child keeps the tree a tree: the heap before against the heap after. */
    twostate lemma ChildShape(new here: Path<char>, new node: TrieNode<T>, new c: char, new child: TrieNode<T>)
      requires old(Shape())
      requires here in old(nodes) && old(nodes)[here] == node && c !in old(node.children)
      requires !old(allocated(child)) && child.children == map[] && child.rules == [] && child.path == Step(here, c)
      requires node.children == old(node.children)[c := child] && node.rules == old(node.rules)
      requires forall n: TrieNode<T> :: n in old(Repr) && n != node ==> unchanged(n)
      requires nodes == old(nodes)[Step(here, c) := child]
      requires contents == old(contents)[Step(here, c) := []]
      requires Repr == old(Repr) + {child}
      ensures Shape()
    {
    }

    method Attach(node: TrieNode<T>, c: char, ghost path: Path<char>) returns (child: TrieNode<T>)
      modifies node`children
      ensures fresh(child) && child.children == map[] && child.rules == [] && child.path == path
      ensures node.children == old(node.children)[c := child]
    {
      child := new TrieNode<T>(path);
      node.children := node.children[c := child];
    }

    /** Hang a fresh, empty node under `node` for the byte `c`. */
    method AddChild(ghost here: Path<char>, node: TrieNode<T>, c: char)
      requires Shape()
      requires here in nodes && nodes[here] == node && c !in node.children
      modifies this`nodes, this`contents, this`Repr, node`children
      ensures Shape() && fresh(Repr - old(Repr)) && old(Repr) <= Repr
      ensures Step(here, c) !in old(contents) && contents == old(contents)[Step(here, c) := []]
      ensures nodes[here] == node && c in node.children
    {
      assert Step(here, c) !in nodes;
      var child := Attach(node, c, Step(here, c));
      nodes := nodes[Step(here, c) := child];
      contents := contents[Step(here, c) := []];
      Repr := Repr + {child};
      ChildShape(here, node, c, child);
    }

    /** One step of the insertion walk: the child for `c`, created when it is missing. */
    method Descend(ghost here: Path<char>, node: TrieNode<T>, c: char, ghost log: seq<(Path<char>, T)>)
      returns (next: TrieNode<T>)
      requires Holds(log)
      requires here in nodes && nodes[here] == node
      modifies Repr
      ensures Holds(log) && fresh(Repr - old(Repr))
      ensures Step(here, c) in nodes && nodes[Step(here, c)] == next
    {
      if c !in node.children {
        RecordsGrow(contents, log, Step(here, c));
        AddChild(here, node, c);
      }
      next := node.children[c];
    }

    /** Appending to one node keeps the tree a tree. */
    twostate lemma RuleShape(new p: Path<char>, new node: TrieNode<T>, new r: T)
      requires old(Shape())
      requires p in old(nodes) && old(nodes)[p] == node
      requires nodes == old(nodes) && Repr == old(Repr)
      requires node.children == old(node.children) && node.rules == old(node.rules) + [r]
      requires forall q :: q in old(nodes) && q != p ==> unchanged(old(nodes)[q])
      requires contents == old(contents)[p := old(contents)[p] + [r]]
      ensures Shape()
    {
    }

    /** Append a rule at one node. */
    method Append(ghost p: Path<char>, node: TrieNode<T>, r: T)
      requires Shape()
      requires p in nodes && nodes[p] == node
      modifies this`contents, node`rules
      ensures Shape() && contents == old(contents)[p := old(contents)[p] + [r]]
    {
      contents := contents[p := contents[p] + [r]];
      node.rules := node.rules + [r];
      RuleShape(p, node, r);
    }

    /** insert: extend the tree along the suffix, last byte first, then append at the end node. */
    method Insert(suffix: string, r: T, ghost log: seq<(Path<char>, T)>)
      requires Holds(log)
      modifies Repr
      ensures Holds(log + [(PathOf(suffix), r)]) && fresh(Repr - old(Repr))
    {
      var node := root;
      var i := |suffix|;
      while i > 0
        invariant 0 <= i <= |suffix|
        invariant Holds(log) && fresh(Repr - old(Repr))
        invariant PathOf(suffix[i..]) in nodes && nodes[PathOf(suffix[i..])] == node
      {
        i := i - 1;
        assert suffix[i..][1..] == suffix[i + 1..];
        node := Descend(PathOf(suffix[i + 1..]), node, suffix[i], log);
      }
      assert suffix[0..] == suffix;
      RecordsAppend(contents, log, PathOf(suffix), r);
      Append(PathOf(suffix), node, r);
    }

    /** lookup: walk the domain from its end, remembering the deepest node that holds rules. */
    method Lookup(domain: string, ghost log: seq<(Path<char>, T)>) returns (acc: seq<T>)
      requires Holds(log)
      ensures acc == Longest(log, domain)
    {
      acc := [];
      var node := root;
      var i := |domain|;
      while i > 0
        invariant 0 <= i <= |domain|
        invariant PathOf(domain[i..]) in nodes && nodes[PathOf(domain[i..])] == node
        invariant acc == Longest(log, domain[i..])
      {
        var c := domain[i - 1];
        assert domain[i - 1..][1..] == domain[i..];
        if c !in node.children {
          NothingBelow(domain, i - 1, log);
          return;
        }
        i := i - 1;
        node := node.children[c];
        StoredHasRules(log, PathOf(domain[i..]));
        if |node.rules| > 0 {
          acc := node.rules;
        }
      }
      assert domain[0..] == domain;
    }

    /** When a walk falls off the tree, no longer suffix of the domain was ever inserted. */
    lemma {:induction false} NothingBelow(domain: string, k: nat, log: seq<(Path<char>, T)>)
      requires Holds(log)
      requires k < |domain| && PathOf(domain[k..]) !in nodes
      ensures PathOf(domain) !in nodes
      ensures Longest(log, domain) == Longest(log, domain[k + 1..])
    {
      if k == 0 {
        assert domain[0..] == domain;
      } else {
        assert domain[k..] == domain[1..][k - 1..] && domain[k + 1..] == domain[1..][k..];
        NothingBelow(domain[1..], k - 1, log);
      }
      RecordsGrow(contents, log, PathOf(domain));
    }
  }
}
