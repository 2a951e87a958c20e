// The sharded flow table: internal/flow/table.go. Get, Put and UpdateBytes run under one shard lock each, so each is one
// step; Sweep locks the shards one after another, so its steps are the chains it sweeps.
// Bucket `b` of shard `s` is cell 256*s + b of a single array of chain heads.
module FlowTable {
  import opened Arith

  const WRAP: nat := 0x1_0000_0000_0000_0000
  const BUCKETS: nat := 256

  /** A 64-bit counter, which wraps around. */
  type Counter = n: nat | n < WRAP

  /** What a 64-bit counter shows after `n` increments from zero. */
  function Wrap(n: nat): Counter {
    n % WRAP
  }

  function Plus(c: Counter, n: nat): Counter {
    (c + n) % WRAP
  }

  lemma WrapNext(n: nat)
    ensures Wrap(n + 1) == Plus(Wrap(n), 1)
  {
  }

  /** The 5-tuple that identifies a flow. */
  datatype Key = Key(src: seq<nat>, dst: seq<nat>, proto: string, srcPort: nat, dstPort: nat)

  /** The two hash functions: one picks the shard, a seeded one picks the bucket inside it. */
  datatype Hashes = Hashes(shard: Key -> Counter, bucket: (nat, Key) -> Counter)

  // ---- Masks ----

  /** Bitwise and of two numbers. */
  function BitAnd(x: nat, y: nat): nat {
    if x == 0 || y == 0 then 0
    else (if x % 2 == 1 && y % 2 == 1 then 1 else 0) + 2 * BitAnd(x / 2, y / 2)
  }

  ghost predicate IsPowerOfTwo(p: nat) {
    p == 1 || (p > 1 && p % 2 == 0 && IsPowerOfTwo(p / 2))
  }

  lemma MaskStep(x: nat, q: nat)
    requires q > 0
    ensures BitAnd(x, 2 * q - 1) == 2 * BitAnd(x / 2, q - 1) + x % 2
  {
    assert (2 * q - 1) / 2 == q - 1 && (2 * q - 1) % 2 == 1;
  }

  /** The bits above the mask. */
  ghost function Above(x: nat, p: nat): nat {
    if p <= 1 then x else Above(x / 2, p / 2)
  }

  lemma {:induction false} MaskSplits(x: nat, p: nat)
    requires IsPowerOfTwo(p)
    ensures BitAnd(x, p - 1) < p && x == p * Above(x, p) + BitAnd(x, p - 1)
  {
    if p > 1 {
      hide BitAnd;
      MaskSplits(x / 2, p / 2);
      MaskStep(x, p / 2);
      Recombine(x, p / 2, Above(x / 2, p / 2), BitAnd(x / 2, p / 2 - 1));
    } else {
      assert BitAnd(x, 0) == 0;
    }
  }

  lemma Recombine(x: nat, q: nat, above: nat, low: nat)
    requires x / 2 == q * above + low && low < q
    ensures x == (2 * q) * above + (2 * low + x % 2) && 2 * low + x % 2 < 2 * q
  {
    assert (2 * q) * above == 2 * (q * above);
  }

  /** Masking with one less than a power of two is the remainder. */
  lemma MaskIsMod(x: nat, p: nat)
    requires IsPowerOfTwo(p)
    ensures BitAnd(x, p - 1) == x % p
  {
    hide BitAnd, Above;
    MaskSplits(x, p);
    DivModUnique(x, p, Above(x, p), BitAnd(x, p - 1));
  }

  /** The shard count: the least power of two that is at least `n`. */
  method RoundUp(n: int) returns (p: nat)
    ensures IsPowerOfTwo(p) && p >= n
    ensures p == 1 || p / 2 < n
  {
    p := 1;
    while p < n
      invariant IsPowerOfTwo(p)
      invariant p == 1 || p / 2 < n
      decreases n - p
    {
      assert 2 * p / 2 == p;
      p := 2 * p;
    }
  }

  // ---- Flows and chain entries ----

  /** The flow fields the table changes while the flow is resident, and the cached action. */
  datatype Flow = Flow(sampled: bool, flowStart: int, bytesUp: Counter, bytesDown: Counter,
                       packetsUp: Counter, packetsDown: Counter, action: string)

  function AddBytes(f: Flow, up: Counter, down: Counter, pUp: Counter, pDown: Counter): Flow {
    f.(bytesUp := Plus(f.bytesUp, up), bytesDown := Plus(f.bytesDown, down),
       packetsUp := Plus(f.packetsUp, pUp), packetsDown := Plus(f.packetsDown, pDown))
  }

  /** What one UpdateBytes adds. */
  datatype Delta = Delta(up: Counter, down: Counter, pUp: Counter, pDown: Counter)

  /** A flow after a list of updates, none of them to another flow. */
  ghost function Updated(f: Flow, ds: seq<Delta>): Flow {
    if ds == [] then f
    else
      var d := ds[|ds| - 1];
      AddBytes(Updated(f, ds[..|ds| - 1]), d.up, d.down, d.pUp, d.pDown)
  }

  ghost function Sum(xs: seq<Counter>): nat {
    if xs == [] then 0 else Sum(xs[..|xs| - 1]) + xs[|xs| - 1]
  }

  lemma PlusPlus(c: Counter, n: nat, m: nat)
    ensures Plus(c, 0) == c && Plus(Plus(c, n), m) == Plus(c, n + m)
  {
  }

  lemma {:induction false} ColumnsAdd(f: Flow, ds: seq<Delta>, up: seq<Counter>, down: seq<Counter>, pUp: seq<Counter>,
                                      pDown: seq<Counter>)
    requires |ds| == |up| == |down| == |pUp| == |pDown|
    requires forall i :: 0 <= i < |ds| ==> ds[i] == Delta(up[i], down[i], pUp[i], pDown[i])
    ensures Updated(f, ds) == f.(bytesUp := Plus(f.bytesUp, Sum(up)), bytesDown := Plus(f.bytesDown, Sum(down)),
                                 packetsUp := Plus(f.packetsUp, Sum(pUp)), packetsDown := Plus(f.packetsDown, Sum(pDown)))
  {
    hide Plus;
    if ds == [] {
      PlusPlus(f.bytesUp, 0, 0);
      PlusPlus(f.bytesDown, 0, 0);
      PlusPlus(f.packetsUp, 0, 0);
      PlusPlus(f.packetsDown, 0, 0);
    } else {
      var n := |ds| - 1;
      ColumnsAdd(f, ds[..n], up[..n], down[..n], pUp[..n], pDown[..n]);
      PlusPlus(f.bytesUp, Sum(up[..n]), up[n]);
      PlusPlus(f.bytesDown, Sum(down[..n]), down[n]);
      PlusPlus(f.packetsUp, Sum(pUp[..n]), pUp[n]);
      PlusPlus(f.packetsDown, Sum(pDown[..n]), pDown[n]);
    }
  }

  /** While a flow stays resident each of its counters is what it began with plus its own column of the updates, modulo 2^64,
      and the updates touch nothing else. */
  lemma UpdatesAddUp(f: Flow, ds: seq<Delta>, up: seq<Counter>, down: seq<Counter>, pUp: seq<Counter>,
                     pDown: seq<Counter>)
    requires |ds| == |up| == |down| == |pUp| == |pDown|
    requires forall i :: 0 <= i < |ds| ==> ds[i] == Delta(up[i], down[i], pUp[i], pDown[i])
    ensures var u := Updated(f, ds);
            && u.bytesUp == (f.bytesUp + Sum(up)) % WRAP && u.bytesDown == (f.bytesDown + Sum(down)) % WRAP
            && u.packetsUp == (f.packetsUp + Sum(pUp)) % WRAP && u.packetsDown == (f.packetsDown + Sum(pDown)) % WRAP
            && u.sampled == f.sampled && u.flowStart == f.flowStart && u.action == f.action
  {
    hide Sum, Updated;
    ColumnsAdd(f, ds, up, down, pUp, pDown);
  }

  class Entry {
    const k: Key
    const id: Counter
    const insert: int
    ghost const n: nat  // which insertion created the entry, counted from 1
    var f: Flow
    var next: Entry?

    constructor (k: Key, id: Counter, f: Flow, insert: int, ghost n: nat, next: Entry?)
      ensures this.k == k && this.id == id && this.f == f && this.insert == insert && this.n == n && this.next == next
    {
      this.k, this.id, this.f, this.insert, this.n, this.next := k, id, f, insert, n, next;
    }
  }

  ghost function Head(c: seq<Entry>): Entry? {
    if c == [] then null else c[0]
  }

  ghost predicate DistinctKeys(c: seq<Entry>) {
    forall i, j :: 0 <= i < j < |c| ==> c[i].k != c[j].k
  }

  class Table {
    const h: Hashes
    const shards: nat
    const mask: nat
    const ttl: int
    const cells: array<Entry?>
    var active: int
    var hits: Counter
    var misses: Counter
    var nextID: Counter
    ghost var chains: seq<seq<Entry>>
    ghost var live: map<Key, Entry>
    ghost var inserts: nat

    /** sel: the cell of a key. */
    function Sel(k: Key): nat {
      var shard := if mask > 0 then BitAnd(h.shard(k), mask) else 0;
      BUCKETS * shard + BitAnd(h.bucket(shard, k), BUCKETS - 1)
    }

    ghost predicate Sized()
      reads this`chains
    {
      && IsPowerOfTwo(shards) && mask == shards - 1
      && cells.Length == BUCKETS * shards && |chains| == cells.Length
    }

    /** Shard and bucket of a key are the hashes modulo the shard count and 256. */
    lemma SelIsMod(k: Key)
      requires Sized()
      ensures Sel(k) == BUCKETS * (h.shard(k) % shards) + h.bucket(h.shard(k) % shards, k) % BUCKETS
      ensures Sel(k) < cells.Length
    {
      MaskIsMod(h.shard(k), shards);
      Pow256();
      MaskIsMod(h.bucket(h.shard(k) % shards, k), BUCKETS);
      assert h.shard(k) % shards <= shards - 1;
    }

    static lemma Pow256()
      ensures IsPowerOfTwo(BUCKETS)
    {
      assert IsPowerOfTwo(2);
      assert IsPowerOfTwo(4);
      assert IsPowerOfTwo(8);
      assert IsPowerOfTwo(16);
      assert IsPowerOfTwo(32);
      assert IsPowerOfTwo(64);
      assert IsPowerOfTwo(128);
    }

    /** A well-placed chain: every entry at home in the cell, one entry a key, all of them live. */
    ghost predicate Placed(c: nat, chain: seq<Entry>, live: map<Key, Entry>) {
      && DistinctKeys(chain)
      && (forall j :: 0 <= j < |chain| ==>
            Sel(chain[j].k) == c && chain[j].k in live && live[chain[j].k] == chain[j])
    }

    /** The chains hold exactly the entries of `live`. */
    ghost predicate Listed(chains: seq<seq<Entry>>, live: map<Key, Entry>) {
      && (forall c :: 0 <= c < |chains| ==> Placed(c, chains[c], live))
      && (forall k :: k in live ==> Sel(k) < |chains| && live[k] in chains[Sel(k)] && live[k].k == k)
    }

    /** The cells and `next` pointers thread the chains. */
    ghost predicate Linked(chains: seq<seq<Entry>>, live: map<Key, Entry>)
      reads cells, (set k | k in live :: live[k])`next
    {
      && |chains| == cells.Length
      && (forall c :: 0 <= c < |chains| ==> cells[c] == Head(chains[c]))
      && (forall k :: k in live ==> Threaded(chains, live[k]))
    }

    /** The successor of an entry is the next one of its chain. */
    ghost predicate Threaded(chains: seq<seq<Entry>>, e: Entry)
      reads e`next
    {
      && Sel(e.k) < |chains|
      && forall j :: 0 <= j < |chains[Sel(e.k)]| && chains[Sel(e.k)][j] == e ==>
           e.next == Head(chains[Sel(e.k)][j + 1..])
    }

    /** Identifiers follow the order of insertion. */
    static ghost predicate Numbered(live: map<Key, Entry>, inserts: nat) {
      && (forall k :: k in live ==> 1 <= live[k].n <= inserts && live[k].id == Wrap(live[k].n))
      && (forall k, l :: k in live && l in live && live[k].n == live[l].n ==> k == l)
    }

    ghost predicate Valid()
      reads this`chains, this`live, this`nextID, this`inserts, this`active
      reads cells, (set k | k in live :: live[k])`next
    {
      && Sized() && Listed(chains, live) && Linked(chains, live)
      && Numbered(live, inserts) && nextID == Wrap(inserts)
      && active == |live|
    }

    constructor (n: int, ttl: int, h: Hashes)
      ensures Valid() && live == map[] && inserts == 0 && this.ttl == ttl && this.h == h
      ensures hits == 0 && misses == 0 && nextID == 0
      ensures IsPowerOfTwo(shards) && shards >= n && (shards == 1 || shards / 2 < n)
    {
      var p := RoundUp(if n < 1 then 1 else n);
      this.h, this.ttl, shards, mask := h, ttl, p, p - 1;
      cells := new Entry?[BUCKETS * p](i => null);
      active, hits, misses, nextID := 0, 0, 0, 0;
      chains := seq(BUCKETS * p, i => []);
      live, inserts := map[], 0;
    }

    /** The chain walk shared by every operation. */
    method Find(k: Key) returns (e: Entry?)
      requires Valid()
      ensures e == if k in live then live[k] else null
    {
      SelIsMod(k);
      var c := Sel(k);
      e := cells[c];
      ghost var i, chain := 0, chains[c];
      assert chain[0..] == chain && Placed(c, chain, live);
      while e != null && e.k != k
        invariant 0 <= i <= |chain| && e == Head(chain[i..])
        invariant forall j :: 0 <= j < i ==> chain[j].k != k
        decreases |chain| - i
      {
        assert e == chain[i] && Threaded(chains, e);
        e := e.next;
        i := i + 1;
      }
    }

    /** Get: a hit unpins the flow and restarts its clock, whatever its age; the table keeps its entries. */
    method Get(k: Key, now: int) returns (e: Entry?)
      requires Valid()
      modifies this`hits, this`misses, (set l | l in live :: live[l])`f
      ensures Valid()
      ensures e == if k in live then live[k] else null
      ensures k in live ==> live[k].f == old(live[k].f).(sampled := false, flowStart := now)
      ensures forall l :: l in live && l != k ==> live[l].f == old(live[l].f)
      ensures hits == if k in live then Plus(old(hits), 1) else old(hits)
      ensures misses == if k in live then old(misses) else Plus(old(misses), 1)
    {
      hide Sized, Linked, Wrap, Plus, Sel;
      e := Find(k);
      if e != null {
        e.f := e.f.(sampled := false, flowStart := now);
        hits := Plus(hits, 1);
      } else {
        misses := Plus(misses, 1);
      }
    }

    /** UpdateBytes: the counters of a resident flow grow, an unknown key is ignored. */
    method UpdateBytes(k: Key, up: Counter, down: Counter, pUp: Counter, pDown: Counter)
      requires Valid()
      modifies (set l | l in live :: live[l])`f
      ensures Valid()
      ensures k in live ==>
                var f, was := live[k].f, old(live[k].f);
                && f.bytesUp == (was.bytesUp + up) % WRAP && f.bytesDown == (was.bytesDown + down) % WRAP
                && f.packetsUp == (was.packetsUp + pUp) % WRAP && f.packetsDown == (was.packetsDown + pDown) % WRAP
                && f.sampled == was.sampled && f.flowStart == was.flowStart && f.action == was.action
      ensures k in live ==> live[k].f == Updated(old(live[k].f), [Delta(up, down, pUp, pDown)])
      ensures forall l :: l in live && l != k ==> live[l].f == old(live[l].f)
    {
      hide Sized, Linked, Wrap, Sel;
      var e := Find(k);
      if e != null {
        e.f := AddBytes(e.f, up, down, pUp, pDown);
      }
    }

    lemma ListedPut(chains: seq<seq<Entry>>, live: map<Key, Entry>, c: nat, e: Entry)
      requires Listed(chains, live) && e.k !in live && c == Sel(e.k) && c < |chains|
      ensures Listed(chains[c := [e] + chains[c]], live[e.k := e])
    {
      var chains', live' := chains[c := [e] + chains[c]], live[e.k := e];
      forall d | 0 <= d < |chains'|
        ensures Placed(d, chains'[d], live')
      {
        assert Placed(d, chains[d], live);
      }
      forall k | k in live'
        ensures live'[k] in chains'[Sel(k)]
      {
        if k == e.k {
          assert chains'[c][0] == e;
        }
      }
    }

    lemma NumberedPut(live: map<Key, Entry>, inserts: nat, e: Entry)
      requires Numbered(live, inserts)
      requires e.k !in live && e.n == inserts + 1 && e.id == Wrap(inserts + 1)
      ensures Numbered(live[e.k := e], inserts + 1)
    {
    }

    /** Link a new entry in front of the chain of its cell. */
    method Prepend(e: Entry)
      requires Sized() && Listed(chains, live) && Linked(chains, live)
      requires e.k !in live && Sel(e.k) < cells.Length && e.next == cells[Sel(e.k)]
      modifies this`chains, this`live, cells
      ensures Sized() && Listed(chains, live) && Linked(chains, live)
      ensures live == old(live)[e.k := e]
      ensures Sel(e.k) < |old(chains)|
      ensures chains == old(chains)[Sel(e.k) := [e] + old(chains[Sel(e.k)])]
    {
      hide Sel, Listed, Threaded, IsPowerOfTwo;
      var c := Sel(e.k);
      ListedPut(chains, live, c, e);
      cells[c] := e;
      LinkedPut(chains, live, c, e);
      chains := chains[c := [e] + chains[c]];
      live := live[e.k := e];
    }

    lemma LinkedPut(chains: seq<seq<Entry>>, live: map<Key, Entry>, c: nat, e: Entry)
      requires |chains| == cells.Length && Listed(chains, live)
      requires e.k !in live && c == Sel(e.k) && c < |chains|
      requires cells[c] == e && e.next == Head(chains[c])
      requires forall d :: 0 <= d < |chains| && d != c ==> cells[d] == Head(chains[d])
      requires forall k :: k in live ==> Threaded(chains, live[k])
      ensures Linked(chains[c := [e] + chains[c]], live[e.k := e])
    {
      hide Sel, Threaded;
      var chains' := chains[c := [e] + chains[c]];
      forall k | k in live
        ensures Threaded(chains', live[k])
      {
        ThreadedPut(chains, live, c, e, k);
      }
      ThreadedNew(chains, live, c, e);
    }

    lemma ThreadedPut(chains: seq<seq<Entry>>, live: map<Key, Entry>, c: nat, e: Entry, k: Key)
      requires Listed(chains, live) && e.k !in live && c == Sel(e.k) && c < |chains|
      requires k in live && Threaded(chains, live[k])
      ensures Threaded(chains[c := [e] + chains[c]], live[k])
    {
      hide Sel;
      var chains' := chains[c := [e] + chains[c]];
      forall j | 0 <= j < |chains'[Sel(k)]| && chains'[Sel(k)][j] == live[k]
        ensures live[k].next == Head(chains'[Sel(k)][j + 1..])
      {
        if Sel(k) == c {
          assert chains[c][j - 1] == live[k];
          assert chains'[c][j + 1..] == chains[c][j..];
        }
      }
    }

    lemma ThreadedNew(chains: seq<seq<Entry>>, live: map<Key, Entry>, c: nat, e: Entry)
      requires Listed(chains, live) && e.k !in live && c == Sel(e.k) && c < |chains|
      requires e.next == Head(chains[c])
      ensures Threaded(chains[c := [e] + chains[c]], e)
    {
      hide Sel;
      var chain' := [e] + chains[c];
      assert Placed(c, chains[c], live);
      assert chain'[1..] == chains[c];
      forall j | 0 < j < |chain'|
        ensures chain'[j] != e
      {
        assert chain'[j] == chains[c][j - 1];
      }
    }

    /** Put: insert if absent, at the head of the chain, with the next identifier. */
    method Put(k: Key, f: Flow, now: int) returns (e: Entry)
      requires Valid()
      modifies this`active, this`nextID, this`chains, this`live, this`inserts, cells
      ensures Valid()
      ensures k in live && e == live[k]
      ensures k in old(live) ==> live == old(live) && inserts == old(inserts)
      ensures k !in old(live) ==>
                && live == old(live)[k := e] && inserts == old(inserts) + 1 && nextID == Plus(old(nextID), 1)
                && e.id == nextID && e.n == inserts && e.insert == now && e.f == f
                && Sel(k) < |old(chains)| && chains == old(chains)[Sel(k) := [e] + old(chains)[Sel(k)]]
    {
      hide Sized, Listed, Linked, Numbered, Wrap, Plus, BitAnd, Sel;
      var found := Find(k);
      if found != null {
        return found;
      }
      assert Sel(k) < cells.Length by {
        SelIsMod(k);
      }
      WrapNext(inserts);
      e := new Entry(k, Plus(nextID, 1), f, now, inserts + 1, cells[Sel(k)]);
      NumberedPut(live, inserts, e);
      Prepend(e);
      nextID := Plus(nextID, 1);
      inserts := inserts + 1;
      active := active + 1;
    }

    // ---- Eviction ----

    /** Past its time to live and not pinned by sampling. */
    ghost predicate Expired(e: Entry, now: int)
      reads e`f
    {
      now - e.insert > ttl && !e.f.sampled
    }

    static ghost function Cut(chain: seq<Entry>, i: nat): seq<Entry>
      requires i < |chain|
    {
      chain[..i] + chain[i + 1..]
    }

    lemma PlacedCut(c: nat, chain: seq<Entry>, live: map<Key, Entry>, i: nat)
      requires Placed(c, chain, live) && i < |chain|
      ensures Placed(c, Cut(chain, i), live - {chain[i].k})
    {
      hide Sel;
      var cut := Cut(chain, i);
      forall j | 0 <= j < |cut|
        ensures cut[j] == chain[if j < i then j else j + 1]
      {
      }
    }

    lemma PlacedOther(d: nat, chain: seq<Entry>, live: map<Key, Entry>, k: Key)
      requires Placed(d, chain, live) && Sel(k) != d
      ensures Placed(d, chain, live - {k})
    {
      hide Sel;
    }

    lemma StillThere(chain: seq<Entry>, i: nat, e: Entry)
      requires i < |chain| && e in chain && e != chain[i]
      ensures e in Cut(chain, i)
    {
      var j :| 0 <= j < |chain| && chain[j] == e;
      assert Cut(chain, i)[if j < i then j else j - 1] == e;
    }

    lemma ListedDrop(chains: seq<seq<Entry>>, live: map<Key, Entry>, c: nat, i: nat)
      requires Listed(chains, live) && c < |chains| && i < |chains[c]|
      ensures Listed(chains[c := Cut(chains[c], i)], live - {chains[c][i].k})
    {
      hide Cut, Sel;
      var k := chains[c][i].k;
      var chains', live' := chains[c := Cut(chains[c], i)], live - {k};
      assert Placed(c, chains[c], live);
      assert Sel(k) == c && live[k] == chains[c][i];
      hide Placed;
      forall d | 0 <= d < |chains'|
        ensures Placed(d, chains'[d], live')
      {
        if d == c {
          PlacedCut(c, chains[c], live, i);
        } else {
          PlacedOther(d, chains[d], live, k);
        }
      }
      forall l | l in live'
        ensures live'[l] in chains'[Sel(l)]
      {
        if Sel(l) == c {
          StillThere(chains[c], i, live[l]);
        }
      }
    }

    lemma LinkedDrop(chains: seq<seq<Entry>>, live: map<Key, Entry>, c: nat, i: nat)
      requires |chains| == cells.Length && Listed(chains, live)
      requires c < |chains| && i < |chains[c]|
      requires cells[c] == Head(Cut(chains[c], i))
      requires i > 0 ==> chains[c][i - 1].next == Head(chains[c][i + 1..])
      requires forall d :: 0 <= d < |chains| && d != c ==> cells[d] == Head(chains[d])
      requires forall k :: k in live && (i == 0 || live[k] != chains[c][i - 1]) ==> Threaded(chains, live[k])
      ensures Linked(chains[c := Cut(chains[c], i)], live - {chains[c][i].k})
    {
      hide Sel;
      var chain := chains[c];
      var chains', live' := chains[c := Cut(chain, i)], live - {chain[i].k};
      assert Placed(c, chain, live);
      assert forall k :: k in live ==> Sel(k) < |chains| && live[k].k == k;
      assert i > 0 ==> chain[i - 1] == live[chain[i - 1].k] && Sel(chain[i - 1].k) == c;
      hide Listed, Placed, Cut, Head, Threaded;
      forall k | k in live'
        ensures Threaded(chains', live[k])
      {
        if Sel(k) == c {
          ThreadedDrop(chains, live, c, i, k);
        } else {
          ThreadedElsewhere(chains, c, Cut(chain, i), live[k]);
        }
      }
    }

    lemma ThreadedElsewhere(chains: seq<seq<Entry>>, c: nat, chain: seq<Entry>, e: Entry)
      requires c < |chains| && Sel(e.k) != c && Threaded(chains, e)
      ensures Threaded(chains[c := chain], e)
    {
      hide Sel;
    }

    lemma ThreadedDrop(chains: seq<seq<Entry>>, live: map<Key, Entry>, c: nat, i: nat, k: Key)
      requires c < |chains| && i < |chains[c]| && Placed(c, chains[c], live)
      requires k in live && live[k].k == k && Sel(k) == c && k != chains[c][i].k
      requires i > 0 ==> chains[c][i - 1].next == Head(chains[c][i + 1..])
      requires i == 0 || live[k] != chains[c][i - 1] ==> Threaded(chains, live[k])
      ensures Threaded(chains[c := Cut(chains[c], i)], live[k])
    {
      var chain, cut := chains[c], Cut(chains[c], i);
      forall j | 0 <= j < |cut| && cut[j] == live[k]
        ensures live[k].next == Head(cut[j + 1..])
      {
        if j >= i {
          assert chain[j + 1] == live[k] && chain[j + 2..] == cut[j + 1..];
        } else if j + 1 < i {
          assert chain[j] == live[k] && chain[j + 1] == cut[j + 1];
        } else {
          assert chain[i - 1] == live[k] && cut[j + 1..] == chain[i + 1..];
        }
      }
    }

    /** Splice entry `i` out of its chain, in place. */
    method Unlink(c: nat, ghost i: nat, e: Entry, prev: Entry?)
      requires Valid()
      requires c < |chains| && i < |chains[c]| && e == chains[c][i]
      requires prev == if i == 0 then null else chains[c][i - 1]
      modifies this`active, this`chains, this`live, cells, (if prev == null then {} else {prev})`next
      ensures Valid()
      ensures chains == old(chains)[c := Cut(old(chains)[c], i)]
      ensures live == old(live) - {e.k} && e.k in old(live)
    {
      hide Sized, Listed, Linked, Wrap, Sel;
      UnlinkCell(c, i, e, prev);
      active := active - 1;
    }

    /** The first entry of a chain: the cell itself moves on. */
    method SpliceHead(c: nat, e: Entry)
      requires Listed(chains, live) && Linked(chains, live)
      requires c < |chains| && chains[c] != [] && e == chains[c][0]
      modifies cells
      ensures Linked(chains[c := Cut(chains[c], 0)], live - {e.k})
    {
      hide Sel, Listed;
      assert e.next == Head(Cut(chains[c], 0)) by {
        NextIs(c, 0);
        assert Cut(chains[c], 0) == chains[c][1..];
      }
      cells[c] := e.next;
      hide Threaded;
      LinkedDrop(chains, live, c, 0);
    }

    /** A later entry: its predecessor's pointer moves on. */
    method SpliceAfter(c: nat, ghost i: nat, e: Entry, prev: Entry)
      requires Listed(chains, live) && Linked(chains, live)
      requires c < |chains| && 0 < i < |chains[c]| && e == chains[c][i] && prev == chains[c][i - 1]
      modifies prev`next
      ensures Linked(chains[c := Cut(chains[c], i)], live - {e.k})
    {
      hide Sel, Listed;
      NextIs(c, i);
      assert Cut(chains[c], i)[0] == chains[c][0];
      prev.next := e.next;
      LinkedDrop(chains, live, c, i);
    }

    lemma NextIs(c: nat, i: nat)
      requires Listed(chains, live) && Linked(chains, live)
      requires c < |chains| && i < |chains[c]|
      ensures chains[c][i].k in live
      ensures chains[c][i].next == Head(chains[c][i + 1..])
    {
      assert Placed(c, chains[c], live);
      assert Threaded(chains, live[chains[c][i].k]);
    }

    method UnlinkCell(c: nat, ghost i: nat, e: Entry, prev: Entry?)
      requires Sized() && Listed(chains, live) && Linked(chains, live)
      requires c < |chains| && i < |chains[c]| && e == chains[c][i]
      requires prev == if i == 0 then null else chains[c][i - 1]
      modifies this`chains, this`live, cells, (if prev == null then {} else {prev})`next
      ensures Sized() && Listed(chains, live) && Linked(chains, live)
      ensures chains == old(chains)[c := Cut(old(chains)[c], i)]
      ensures e.k in old(live) && live == old(live) - {e.k}
    {
      hide Sel, Listed, Linked, Cut;
      NextIs(c, i);
      ListedDrop(chains, live, c, i);
      if prev == null {
        SpliceHead(c, e);
      } else {
        SpliceAfter(c, i, e, prev);
      }
      chains := chains[c := Cut(chains[c], i)];
      live := live - {e.k};
    }

    lemma ChainFacts(c: nat)
      requires Valid() && c < cells.Length
      ensures |chains| == cells.Length && cells[c] == Head(chains[c]) && chains[c][0..] == chains[c]
    {
    }

    lemma EntryFacts(c: nat, i: nat)
      requires Valid() && c < |chains| && i < |chains[c]|
      ensures var e := chains[c][i]; e.k in live && live[e.k] == e && Sel(e.k) == c
      ensures chains[c][i].next == Head(chains[c][i + 1..])
    {
      assert Placed(c, chains[c], live);
      NextIs(c, i);
    }

    static lemma CutFacts(chain: seq<Entry>, i: nat)
      requires i < |chain|
      ensures |Cut(chain, i)| == |chain| - 1 && Cut(chain, i)[i..] == chain[i + 1..]
      ensures forall j :: 0 <= j < i ==> Cut(chain, i)[j] == chain[j]
    {
    }

    /** One entry of a walk: unlink it if it has expired, and go on to its successor. */
    method SweepEntry(c: nat, ghost i: nat, e: Entry, prev: Entry?, now: int) returns (reaped: bool, before: Entry?, next: Entry?)
      requires Valid() && c < cells.Length
      requires c < |chains| && i < |chains[c]| && e == chains[c][i]
      requires prev == if i == 0 then null else chains[c][i - 1]
      modifies this`active, this`chains, this`live, cells, (if prev == null then {} else {prev})`next
      ensures Valid() && |chains| == |old(chains)|
      ensures reaped == Expired(e, now) && e.k in old(live) && old(live)[e.k] == e && Sel(e.k) == c
      ensures chains[c] == if reaped then Cut(old(chains)[c], i) else old(chains)[c]
      ensures live == if reaped then old(live) - {e.k} else old(live)
      ensures var j := if reaped then i else i + 1;
              && j <= |chains[c]| && next == Head(chains[c][j..])
              && before == (if j == 0 then null else chains[c][j - 1])
              && (before != null ==> before.k in live && live[before.k] == before)
    {
      hide Valid, Sel, Cut;
      EntryFacts(c, i);
      reaped := now - e.insert > ttl && !e.f.sampled;
      ghost var j := i;
      if reaped {
        CutFacts(chains[c], i);
        Unlink(c, i, e, prev);
        before := prev;
      } else {
        before := e;
        j := i + 1;
      }
      ChainFacts(c);
      if before != null {
        EntryFacts(c, j - 1);
        next := before.next;
      } else {
        next := cells[c];
      }
    }

    /** What is gone of `was` had expired in this cell, and what is left is as it was. */
    ghost predicate Swept(was: map<Key, Entry>, now: map<Key, Entry>, c: nat, time: int)
      reads (set k | k in was :: was[k])`f
    {
      && (forall k :: k in now ==> k in was && now[k] == was[k])
      && (forall k :: k in was && k !in now ==> Sel(k) == c && Expired(was[k], time))
    }

    lemma SweptMore(was: map<Key, Entry>, now: map<Key, Entry>, c: nat, time: int, e: Entry)
      requires Swept(was, now, c, time) && e.k in now && now[e.k] == e && Sel(e.k) == c && Expired(e, time)
      ensures Swept(was, now - {e.k}, c, time) && |now - {e.k}| == |now| - 1
    {
      assert now == (now - {e.k})[e.k := e];
    }

    /** The entries in front of position `i` have not expired. */
    ghost predicate KeptUpTo(chain: seq<Entry>, i: nat, time: int)
      requires i <= |chain|
      reads (set e | e in chain)`f
    {
      forall j :: 0 <= j < i ==> !Expired(chain[j], time)
    }

    lemma KeptCut(chain: seq<Entry>, i: nat, time: int)
      requires i < |chain| && KeptUpTo(chain, i, time)
      ensures KeptUpTo(Cut(chain, i), i, time) && |Cut(chain, i)| == |chain| - 1
    {
    }

    /** One walk over a chain, unlinking the expired entries as it goes. */
    method SweepCell(c: nat, now: int) returns (n: nat)
      requires Valid() && c < cells.Length
      modifies this`active, this`chains, this`live, cells, (set k | k in live :: live[k])`next
      ensures Valid()
      ensures n + |live| == |old(live)|
      ensures Swept(old(live), live, c, now)
      ensures forall k :: k in live && Sel(k) == c ==> !Expired(live[k], now)
    {
      hide Valid, Sel, Cut, Swept, KeptUpTo, Expired;
      n := 0;
      var prev: Entry? := null;
      var e := cells[c];
      ghost var i, was := 0, live;
      ChainFacts(c);
      SweepStart(c, now);
      while e != null
        invariant Valid() && |chains| == cells.Length && i <= |chains[c]|
        invariant e == Head(chains[c][i..])
        invariant prev == if i == 0 then null else chains[c][i - 1]
        invariant prev != null ==> prev.k in live && live[prev.k] == prev
        invariant KeptUpTo(chains[c], i, now) && Swept(was, live, c, now)
        invariant forall k :: k in live ==> k in was && live[k] == was[k]
        invariant n + |live| == |was|
        decreases |chains[c]| - i
      {
        ghost var chain, left := chains[c], live;
        var reaped;
        var entry := e;
        reaped, prev, e := SweepEntry(c, i, entry, prev, now);
        if reaped {
          KeptCut(chain, i, now);
          SweptMore(was, left, c, now, entry);
          n := n + 1;
        } else {
          KeptMore(chain, i, now);
          i := i + 1;
        }
      }
      AllKept(c, i, now);
    }

    lemma SweepStart(c: nat, now: int)
      requires c < |chains|
      ensures KeptUpTo(chains[c], 0, now) && Swept(live, live, c, now)
    {
    }

    lemma KeptMore(chain: seq<Entry>, i: nat, time: int)
      requires i < |chain| && KeptUpTo(chain, i, time) && !Expired(chain[i], time)
      ensures KeptUpTo(chain, i + 1, time)
    {
    }

    lemma AllKept(c: nat, i: nat, now: int)
      requires Valid() && c < |chains| && i <= |chains[c]| && KeptUpTo(chains[c], i, now) && Head(chains[c][i..]) == null
      ensures forall k :: k in live && Sel(k) == c ==> !Expired(live[k], now)
    {
      hide Valid, Sel;
      assert i == |chains[c]|;
      forall k | k in live && Sel(k) == c
        ensures !Expired(live[k], now)
      {
        Home(k);
        var j :| 0 <= j < |chains[c]| && chains[c][j] == live[k];
      }
    }

    lemma Home(k: Key)
      requires Valid() && k in live
      ensures Sel(k) < |chains| && live[k] in chains[Sel(k)]
    {
    }

    /** Sweep: evict exactly the flows that are expired and not sampled, and count them. */
    method Sweep(now: int) returns (evicted: nat)
      requires Valid()
      modifies this`active, this`chains, this`live, cells, (set k | k in live :: live[k])`next
      ensures Valid()
      ensures forall k :: k in live <==> k in old(live) && !Expired(old(live)[k], now)
      ensures forall k :: k in live ==> live[k] == old(live)[k]
      ensures evicted == |old(live)| - |live| && active == old(active) - evicted
    {
      hide Sized, Listed, Linked, Wrap, Sel;
      evicted := 0;
      for c := 0 to cells.Length
        invariant Valid()
        invariant evicted + |live| == |old(live)|
        invariant forall k :: k in live ==> k in old(live) && live[k] == old(live)[k]
        invariant forall k :: k in old(live) && k !in live ==> Expired(old(live)[k], now)
        invariant forall k :: k in live && Sel(k) < c ==> !Expired(live[k], now)
      {
        var n := SweepCell(c, now);
        evicted := evicted + n;
      }
      forall k | k in live
        ensures Sel(k) < cells.Length
      {
        SelIsMod(k);
      }
    }
  }
}
