// The binary radix tree behind CIDR rules: internal/rules/repo.go, cidrTree. The IPv4 and the IPv6
// half run the same code at 4 and at 16 octets, so one class is written for any number of octets.
module CidrTree {
  import opened Arith
  import opened TreeLog
  import opened Wire

  /** 2^(7-j) for a bit position inside an octet, counted from the most significant bit. */
  function Weight(j: nat): (w: nat)
    requires j < 8
    ensures w >= 1
  {
    match j
    case 0 => 128
    case 1 => 64
    case 2 => 32
    case 3 => 16
    case 4 => 8
    case 5 => 4
    case 6 => 2
    case _ => 1
  }

  /** Bit `i` of an address, the most significant bit of its first octet being bit 0. */
  function Bit(a: seq<Octet>, i: nat): bool
    requires i < 8 * |a|
  {
    (a[i / 8] / Weight(i % 8)) % 2 == 1
  }

  /** The tree position of the prefix made of the first `n` bits of an address. */
  ghost function PathOf(a: seq<Octet>, n: nat): (p: Path<bool>)
    requires n <= 8 * |a|
    ensures Depth(p) == n
  {
    if n == 0 then Root else Step(PathOf(a, n - 1), Bit(a, n - 1))
  }

  ghost function Depth(p: Path<bool>): nat {
    match p
    case Root => 0
    case Step(up, _) => Depth(up) + 1
  }

  /** The prefix `p` covers the address `ip`: the walk to `ip` passes `p`. */
  ghost predicate Covers(p: Path<bool>, ip: Path<bool>) {
    p == ip || (ip.Step? && Covers(p, ip.up))
  }

  // ---- Specification: which insertions cover an address ----

  /** The rules found under the prefixes of `ip`, the shortest prefix first. */
  ghost function Collected<T>(log: seq<(Path<bool>, T)>, ip: Path<bool>): seq<T> {
    (if ip.Root? then [] else Collected(log, ip.up)) + RulesFor(log, ip)
  }

  /** Log positions that inserted exactly the prefix `p`. */
  ghost function At<T>(log: seq<(Path<bool>, T)>, p: Path<bool>): seq<nat> {
    if log == [] then []
    else
      var n := |log| - 1;
      At(log[..n], p) + (if log[n].0 == p then [n] else [])
  }

  /** Log positions of the prefixes of `ip`, the shortest prefix first. */
  ghost function Covering<T>(log: seq<(Path<bool>, T)>, ip: Path<bool>): seq<nat> {
    (if ip.Root? then [] else Covering(log, ip.up)) + At(log, ip)
  }

  ghost predicate InLog<T>(log: seq<(Path<bool>, T)>, at: seq<nat>) {
    forall i :: 0 <= i < |at| ==> at[i] < |log|
  }

  ghost function Payloads<T>(log: seq<(Path<bool>, T)>, at: seq<nat>): seq<T>
    requires InLog(log, at)
  {
    seq(|at|, i requires 0 <= i < |at| => log[at[i]].1)
  }

  /** `i` before `j`: shorter prefix first, then insertion order. */
  ghost predicate Before<T>(log: seq<(Path<bool>, T)>, i: nat, j: nat)
    requires i < |log| && j < |log|
  {
    Depth(log[i].0) < Depth(log[j].0) || (Depth(log[i].0) == Depth(log[j].0) && i < j)
  }

  ghost predicate Ordered<T>(log: seq<(Path<bool>, T)>, at: seq<nat>)
    requires InLog(log, at)
  {
    forall a, b :: 0 <= a < b < |at| ==> Before(log, at[a], at[b])
  }

  lemma {:induction false} AtExact<T>(log: seq<(Path<bool>, T)>, p: Path<bool>)
    ensures forall i: nat :: i in At(log, p) <==> i < |log| && log[i].0 == p
    ensures forall a, b :: 0 <= a < b < |At(log, p)| ==> At(log, p)[a] < At(log, p)[b]
    ensures InLog(log, At(log, p))
  {
    if log != [] {
      var n := |log| - 1;
      AtExact(log[..n], p);
      forall i: nat
        ensures i in At(log, p) <==> i < |log| && log[i].0 == p
      {
        if i < n {
          assert log[..n][i] == log[i];
        }
      }
    }
  }

  lemma PayloadsPrefix<T>(log: seq<(Path<bool>, T)>, n: nat, at: seq<nat>)
    requires n <= |log| && InLog(log[..n], at)
    ensures InLog(log, at) && Payloads(log[..n], at) == Payloads(log, at)
  {
  }

  lemma {:induction false} AtPayloads<T>(log: seq<(Path<bool>, T)>, p: Path<bool>)
    ensures InLog(log, At(log, p)) && RulesFor(log, p) == Payloads(log, At(log, p))
  {
    hide Payloads;
    AtExact(log, p);
    if log == [] {
      NoPayloads(log);
    } else {
      var n := |log| - 1;
      AtPayloads(log[..n], p);
      PayloadsPrefix(log, n, At(log[..n], p));
      if log[n].0 == p {
        PayloadsAppend(log, At(log[..n], p), [n]);
        OnePayload(log, n);
      } else {
        assert At(log, p) == At(log[..n], p);
        assert RulesFor(log, p) == RulesFor(log[..n], p);
      }
    }
  }

  lemma NoPayloads<T>(log: seq<(Path<bool>, T)>)
    ensures InLog(log, []) && Payloads(log, []) == []
  {
  }

  lemma OnePayload<T>(log: seq<(Path<bool>, T)>, n: nat)
    requires n < |log|
    ensures InLog(log, [n]) && Payloads(log, [n]) == [log[n].1]
  {
  }

  /** A lookup meets exactly the covering insertions. */
  lemma {:induction false} CoveringExact<T>(log: seq<(Path<bool>, T)>, ip: Path<bool>, i: nat)
    ensures i in Covering(log, ip) <==> i < |log| && Covers(log[i].0, ip)
  {
    AtExact(log, ip);
    if ip.Step? {
      CoveringExact(log, ip.up, i);
    }
  }

  lemma {:induction false} CoversDepth(p: Path<bool>, ip: Path<bool>)
    requires Covers(p, ip)
    ensures Depth(p) <= Depth(ip)
  {
    if p != ip {
      CoversDepth(p, ip.up);
    }
  }

  lemma OrderedAppend<T>(log: seq<(Path<bool>, T)>, s: seq<nat>, t: seq<nat>, n: nat)
    requires InLog(log, s) && InLog(log, t) && Ordered(log, s)
    requires forall x :: x in s ==> Depth(log[x].0) < n
    requires forall y :: y in t ==> Depth(log[y].0) == n
    requires forall a, b :: 0 <= a < b < |t| ==> t[a] < t[b]
    ensures Ordered(log, s + t)
  {
    assert forall a :: 0 <= a < |s| ==> s[a] in s;
    assert forall b :: 0 <= b < |t| ==> t[b] in t;
  }

  /** It meets each of them once, shorter prefixes first and equal prefixes in insertion order. */
  lemma {:induction false} CoveringOrdered<T>(log: seq<(Path<bool>, T)>, ip: Path<bool>)
    ensures InLog(log, Covering(log, ip)) && Ordered(log, Covering(log, ip))
    ensures var at := Covering(log, ip);
            forall a, b :: 0 <= a < b < |at| ==>
              || Depth(log[at[a]].0) < Depth(log[at[b]].0)
              || (Depth(log[at[a]].0) == Depth(log[at[b]].0) && at[a] < at[b])
  {
    AtExact(log, ip);
    if ip.Step? {
      CoveringOrdered(log, ip.up);
      forall x | x in Covering(log, ip.up)
        ensures x < |log| && Depth(log[x].0) < Depth(ip)
      {
        CoveringExact(log, ip.up, x);
        CoversDepth(log[x].0, ip.up);
      }
      OrderedAppend(log, Covering(log, ip.up), At(log, ip), Depth(ip));
    }
  }

  lemma PayloadsAppend<T>(log: seq<(Path<bool>, T)>, s: seq<nat>, t: seq<nat>)
    requires InLog(log, s) && InLog(log, t)
    ensures InLog(log, s + t) && Payloads(log, s + t) == Payloads(log, s) + Payloads(log, t)
  {
  }

  /** A lookup returns exactly the payloads of the covering insertions, in their order. */
  lemma {:induction false} CollectedIsCovering<T>(log: seq<(Path<bool>, T)>, ip: Path<bool>)
    ensures InLog(log, Covering(log, ip))
    ensures Collected(log, ip) == Payloads(log, Covering(log, ip))
  {
    AtPayloads(log, ip);
    CoveringOrdered(log, ip);
    if ip.Step? {
      CollectedIsCovering(log, ip.up);
      PayloadsAppend(log, Covering(log, ip.up), At(log, ip));
    }
  }

  // ---- What covering means for addresses as numbers ----

  ghost function Pow2(n: nat): (p: nat)
    ensures p >= 1
  {
    if n == 0 then 1 else 2 * Pow2(n - 1)
  }

  /** An address as one big-endian number. */
  ghost function Number(a: seq<Octet>): nat {
    if a == [] then 0 else 256 * Number(a[..|a| - 1]) + a[|a| - 1]
  }

  /** `ip` lies in the block of `net` with `ones` fixed leading bits: both agree above the host part. */
  ghost predicate InBlock(net: seq<Octet>, ones: nat, ip: seq<Octet>)
    requires |net| == |ip| && ones <= 8 * |net|
  {
    Number(ip) / Pow2(8 * |ip| - ones) == Number(net) / Pow2(8 * |net| - ones)
  }

  ghost function Value(p: Path<bool>): nat {
    match p
    case Root => 0
    case Step(up, b) => 2 * Value(up) + (if b then 1 else 0)
  }

  lemma {:induction false} ValueInjective(p: Path<bool>, q: Path<bool>)
    requires Depth(p) == Depth(q) && Value(p) == Value(q)
    ensures p == q
  {
    if p.Step? {
      ValueInjective(p.up, q.up);
    }
  }

  /** Dropping the last bits of a prefix is a division by a power of two. */
  lemma {:induction false} ValueDrop(a: seq<Octet>, n: nat, k: nat)
    requires k <= n <= 8 * |a|
    ensures Value(PathOf(a, n)) / Pow2(n - k) == Value(PathOf(a, k))
    decreases n - k
  {
    if k < n {
      ValueDrop(a, n, k + 1);
      DivHalf(Value(PathOf(a, n)), Pow2(n - k - 1));
      assert PathOf(a, k + 1).up == PathOf(a, k);
    }
  }

  lemma {:induction false} SamePath(a: seq<Octet>, b: seq<Octet>, n: nat)
    requires n <= 8 * |a| && n <= 8 * |b|
    requires forall i :: 0 <= i < n ==> Bit(a, i) == Bit(b, i)
    ensures PathOf(a, n) == PathOf(b, n)
  {
    if n > 0 {
      SamePath(a, b, n - 1);
    }
  }

  /** The bits of the first octets do not depend on the later ones. */
  lemma PrefixPath(a: seq<Octet>, k: nat)
    requires k <= |a|
    ensures PathOf(a, 8 * k) == PathOf(a[..k], 8 * k)
  {
    hide PathOf;
    SamePath(a, a[..k], 8 * k);
  }

  lemma Pow2Ends()
    ensures Pow2(8) == 256 && Pow2(0) == 1
  {
    assert Pow2(2) == 4 && Pow2(4) == 16 && Pow2(6) == 64;
  }

  lemma {:induction false} ValueIsNumber(a: seq<Octet>)
    ensures Value(PathOf(a, 8 * |a|)) == Number(a)
  {
    if a != [] {
      hide Bit, Weight, PathOf, Value, Pow2;
      var k := |a| - 1;
      ValueIsNumber(a[..k]);
      PrefixPath(a, k);
      OctetValue(a, k, 8);
      Pow2Ends();
      assert 8 * k + 8 == 8 * |a|;
    }
  }

  lemma WeightIsPow2(j: nat)
    requires j < 8
    ensures Weight(j) == Pow2(7 - j)
  {
    assert Pow2(2) == 4 && Pow2(4) == 16 && Pow2(6) == 64;
  }

  /** One bit of octet `k`, read below the bits before it. */
  lemma BitStep(a: seq<Octet>, k: nat, j: nat)
    requires k < |a| && j < 8
    ensures Value(PathOf(a, 8 * k + j + 1)) == 2 * Value(PathOf(a, 8 * k + j)) + a[k] / Pow2(7 - j) % 2
  {
    assert (8 * k + j) / 8 == k && (8 * k + j) % 8 == j;
    WeightIsPow2(j);
  }

  /** Reading `j` bits of octet `k` shifts the value so far and adds the octet's high bits. */
  lemma {:induction false} OctetValue(a: seq<Octet>, k: nat, j: nat)
    requires k < |a| && j <= 8
    ensures Value(PathOf(a, 8 * k + j)) == Pow2(j) * Value(PathOf(a, 8 * k)) + a[k] / Pow2(8 - j)
  {
    hide Bit, Weight, Value, PathOf;
    if j == 0 {
      assert Pow2(2) == 4 && Pow2(4) == 16 && Pow2(6) == 64 && Pow2(8) == 256;
    } else {
      OctetValue(a, k, j - 1);
      BitStep(a, k, j - 1);
      AddBit(Value(PathOf(a, 8 * k)), Pow2(j - 1), a[k], Pow2(8 - j));
    }
  }

  lemma AddBit(v: nat, m: nat, b: nat, p: nat)
    requires p >= 1
    ensures 2 * (m * v + b / (2 * p)) + b / p % 2 == 2 * m * v + b / p
  {
    DivHalf(b, p);
  }

  lemma {:induction false} CoversIsPrefix(p: Path<bool>, ip: seq<Octet>, n: nat)
    requires n <= 8 * |ip|
    ensures Covers(p, PathOf(ip, n)) <==> Depth(p) <= n && p == PathOf(ip, Depth(p))
  {
    if n > 0 {
      CoversIsPrefix(p, ip, n - 1);
    }
  }

  /** The tree's notion of covering, a bit prefix, is membership in the numeric address block. */
  lemma CoverIsBlock(net: seq<Octet>, ones: nat, ip: seq<Octet>)
    requires |net| == |ip| && ones <= 8 * |net|
    ensures Covers(PathOf(net, ones), PathOf(ip, 8 * |ip|)) <==> InBlock(net, ones, ip)
  {
    ValueIsNumber(net);
    ValueIsNumber(ip);
    ValueDrop(net, 8 * |net|, ones);
    ValueDrop(ip, 8 * |ip|, ones);
    CoversIsPrefix(PathOf(net, ones), ip, 8 * |ip|);
    if InBlock(net, ones, ip) {
      ValueInjective(PathOf(net, ones), PathOf(ip, ones));
    }
  }

  // ---- The tree ----

  class BitNode<T> {
    var left: BitNode?<T>
    var right: BitNode?<T>
    var rules: seq<T>
    ghost const path: Path<bool>

    constructor (ghost path: Path<bool>)
      ensures left == null && right == null && rules == [] && this.path == path
    {
      this.path := path;
      left, right, rules := null, null, [];
    }  }

  class CidrTree<T> {
    const octets: nat
    const root: BitNode<T>
    ghost var nodes: map<Path<bool>, BitNode<T>>
    ghost var contents: map<Path<bool>, seq<T>>
    ghost var Repr: set<object>

    /** The tree stands for the insertions in `log`. */
    ghost predicate Holds(log: seq<(Path<bool>, T)>)
      reads this, Repr
      ensures Holds(log) ==> this in Repr
    {
      Shape() && Records(contents, log)
    }

    /** The nodes form one tree: child pointers and the flat map agree, and no node is shared. */
    ghost predicate Shape()
      reads this, Repr
      ensures Shape() ==> this in Repr
    {
      && this in Repr
      && Root in nodes && nodes[Root] == root
      && (forall p :: p in nodes ==> nodes[p] in Repr && nodes[p].path == p)
      && (forall p :: p in nodes ==> p in contents && nodes[p].rules == contents[p])
      && (forall p :: p in contents ==> p in nodes)
      && (forall p :: Step(p, false) in nodes ==> p in nodes && nodes[p].left == nodes[Step(p, false)])
      && (forall p :: Step(p, true) in nodes ==> p in nodes && nodes[p].right == nodes[Step(p, true)])
      && (forall p {:trigger nodes[p].left} :: p in nodes && nodes[p].left != null ==> Step(p, false) in nodes)
      && (forall p {:trigger nodes[p].right} :: p in nodes && nodes[p].right != null ==> Step(p, true) in nodes)
    }

    constructor (octets: nat)
      ensures Holds([]) && fresh(Repr) && this.octets == octets
    {
      var r := new BitNode<T>(Root);
      this.octets := octets;
      root := r;
      nodes := map[Root := r];
      contents := map[Root := []];
      Repr := {this, r};
    }

    /** Adding one child keeps the tree a tree: the heap before against the heap after. */
    twostate lemma ChildShape(new here: Path<bool>, new node: BitNode<T>, new b: bool, new child: BitNode<T>)
      requires old(Shape())
      requires here in old(nodes) && old(nodes)[here] == node && (b ==> old(node.right) == null) && (!b ==> old(node.left) == null)
      requires !old(allocated(child)) && child.path == Step(here, b)
      requires child.left == null && child.right == null && child.rules == []
      requires b ==> node.right == child && node.left == old(node.left)
      requires !b ==> node.left == child && node.right == old(node.right)
      requires node.rules == old(node.rules)
      requires forall n: BitNode<T> :: n in old(Repr) && n != node ==> unchanged(n)
      requires nodes == old(nodes)[Step(here, b) := child]
      requires contents == old(contents)[Step(here, b) := []]
      requires Repr == old(Repr) + {child}
      ensures Shape()
    {
    }

    /** Hang a fresh, empty node on side `b` of `node`. */
    method AddChild(ghost here: Path<bool>, node: BitNode<T>, b: bool)
      requires Shape()
      requires here in nodes && nodes[here] == node && (b ==> node.right == null) && (!b ==> node.left == null)
      modifies this`nodes, this`contents, this`Repr, node`left, node`right
      ensures Shape() && fresh(Repr - old(Repr)) && old(Repr) <= Repr
      ensures Step(here, b) !in old(contents) && contents == old(contents)[Step(here, b) := []]
      ensures nodes[here] == node && (b ==> node.right != null) && (!b ==> node.left != null)
    {
      assert Step(here, b) !in nodes;
      var child := new BitNode<T>(Step(here, b));
      if b {
        node.right := child;
      } else {
        node.left := child;
      }
      nodes := nodes[Step(here, b) := child];
      contents := contents[Step(here, b) := []];
      Repr := Repr + {child};
      ChildShape(here, node, b, child);
    }

    /** One step of the insertion walk: the child for the bit, created when it is missing. */
    method Descend(ghost here: Path<bool>, cur: BitNode<T>, bit: bool, ghost log: seq<(Path<bool>, T)>)
      returns (next: BitNode<T>)
      requires Holds(log)
      requires here in nodes && nodes[here] == cur
      modifies Repr
      ensures Holds(log) && fresh(Repr - old(Repr))
      ensures Step(here, bit) in nodes && nodes[Step(here, bit)] == next
    {
      if bit {
        if cur.right == null {
          RecordsGrow(contents, log, Step(here, bit));
          AddChild(here, cur, bit);
        }
        next := cur.right;
      } else {
        if cur.left == null {
          RecordsGrow(contents, log, Step(here, bit));
          AddChild(here, cur, bit);
        }
        next := cur.left;
      }
    }

    /** Append a rule at one node. */
    method Append(ghost p: Path<bool>, node: BitNode<T>, r: T)
      requires Shape()
      requires p in nodes && nodes[p] == node
      modifies this`contents, node`rules
      ensures Shape() && contents == old(contents)[p := old(contents)[p] + [r]]
    {
      node.rules := node.rules + [r];
      contents := contents[p := contents[p] + [r]];
    }

    /** insert4 / insert6: follow the first `ones` bits of the network, growing the path, and append there. */
    method Insert(parts: seq<Octet>, ones: nat, r: T, ghost log: seq<(Path<bool>, T)>)
      requires Holds(log)
      requires |parts| == octets && ones <= 8 * octets
      modifies Repr
      ensures Holds(log + [(PathOf(parts, ones), r)]) && fresh(Repr - old(Repr))
    {
      var cur := root;
      for i := 0 to ones
        invariant Holds(log) && fresh(Repr - old(Repr))
        invariant PathOf(parts, i) in nodes && nodes[PathOf(parts, i)] == cur
      {
        cur := Descend(PathOf(parts, i), cur, Bit(parts, i), log);
      }
      RecordsAppend(contents, log, PathOf(parts, ones), r);
      Append(PathOf(parts, ones), cur, r);
    }

    /** lookup4 / lookup6: collect the rules of every node on the address's path. */
    method Lookup(ip: seq<Octet>, ghost log: seq<(Path<bool>, T)>) returns (acc: seq<T>)
      requires Holds(log)
      requires |ip| == octets
      ensures acc == Collected(log, PathOf(ip, 8 * octets))
    {
      hide Collected, Bit, Records;
      acc := [];
      var cur := root;
      for i := 0 to 8 * octets
        invariant PathOf(ip, i) in nodes && nodes[PathOf(ip, i)] == cur
        invariant acc == if i == 0 then [] else Collected(log, PathOf(ip, i - 1))
      {
        CollectedNext(ip, i, cur, log);
        if |cur.rules| > 0 {
          acc := acc + cur.rules;
        }
        var next := if Bit(ip, i) then cur.right else cur.left;
        if next == null {
          CoversIsPrefix(PathOf(ip, i + 1), ip, 8 * octets);
          NothingBelow(PathOf(ip, i + 1), PathOf(ip, 8 * octets), log);
          return;
        }
        cur := next;
      }
      CollectedNext(ip, 8 * octets, cur, log);
      if |cur.rules| > 0 {
        acc := acc + cur.rules;
      }
    }

    /** One node further down, its rules join the collection. */
    lemma CollectedNext(ip: seq<Octet>, i: nat, cur: BitNode<T>, log: seq<(Path<bool>, T)>)
      requires Holds(log) && i <= 8 * |ip|
      requires PathOf(ip, i) in nodes && nodes[PathOf(ip, i)] == cur
      ensures Collected(log, PathOf(ip, i))
              == (if i == 0 then [] else Collected(log, PathOf(ip, i - 1))) + cur.rules
    {
    }

    /** When a walk falls off the tree at `stop`, no prefix from there on was ever inserted. */
    lemma {:induction false} NothingBelow(stop: Path<bool>, ip: Path<bool>, log: seq<(Path<bool>, T)>)
      requires Holds(log)
      requires stop.Step? && Covers(stop, ip) && stop !in nodes
      ensures ip !in nodes && Collected(log, ip) == Collected(log, stop.up)
    {
      if stop != ip {
        NothingBelow(stop, ip.up, log);
        if ip.edge {
          assert ip == Step(ip.up, true);
        } else {
          assert ip == Step(ip.up, false);
        }
      }
      RecordsGrow(contents, log, ip);
    }
  }
}
