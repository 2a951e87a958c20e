// Sorting by a string key, as the library's sort.Strings and sort.SliceStable do it.
module Sorting {
  import opened Text

  /** Keys never go down. */
  ghost predicate Ordered<T>(s: seq<T>, key: T -> string) {
    forall i, j :: 0 <= i < j < |s| ==> !Less(key(s[j]), key(s[i]))
  }

  /** Keys go up strictly. */
  ghost predicate Strict<T>(s: seq<T>, key: T -> string) {
    forall i, j :: 0 <= i < j < |s| ==> Less(key(s[i]), key(s[j]))
  }

  lemma StrictPair<T>(s: seq<T>, key: T -> string, i: nat, j: nat)
    requires Strict(s, key) && i < j < |s|
    ensures Less(key(s[i]), key(s[j]))
  {
  }

  /** The elements with one key, in order. */
  function WithKey<T>(s: seq<T>, key: T -> string, k: string): seq<T> {
    if s == [] then []
    else
      var n := |s| - 1;
      WithKey(s[..n], key, k) + if key(s[n]) == k then [s[n]] else []
  }

  /** Insert behind every element whose key is not greater. */
  function Insert<T>(s: seq<T>, x: T, key: T -> string): seq<T> {
    if s == [] then [x]
    else
      var n := |s| - 1;
      if Less(key(x), key(s[n])) then Insert(s[..n], x, key) + [s[n]] else s + [x]
  }

  /** The stable sort by key. */
  function SortBy<T>(s: seq<T>, key: T -> string): seq<T> {
    if s == [] then [] else Insert(SortBy(s[..|s| - 1], key), s[|s| - 1], key)
  }

  lemma {:induction false} InsertElements<T>(s: seq<T>, x: T, key: T -> string)
    ensures multiset(Insert(s, x, key)) == multiset(s) + multiset{x}
  {
    if s != [] {
      var n := |s| - 1;
      InsertElements(s[..n], x, key);
      assert s == s[..n] + [s[n]];
    }
  }

  lemma {:induction false} InsertMember<T>(s: seq<T>, x: T, key: T -> string, y: T)
    ensures y in Insert(s, x, key) <==> y in s || y == x
  {
    if s != [] {
      var n := |s| - 1;
      InsertMember(s[..n], x, key, y);
      assert s == s[..n] + [s[n]];
    }
  }

  /** `last` behind everything that is not above it. */
  lemma OrderedAppend<T>(s: seq<T>, last: T, key: T -> string)
    requires Ordered(s, key) && forall y :: y in s ==> !Less(key(last), key(y))
    ensures Ordered(s + [last], key)
    ensures Strict(s, key) && (forall y :: y in s ==> Less(key(y), key(last))) ==> Strict(s + [last], key)
  {
    hide Less;
  }

  lemma {:induction false} InsertOrdered<T>(s: seq<T>, x: T, key: T -> string)
    requires Ordered(s, key)
    ensures Ordered(Insert(s, x, key), key)
    ensures Strict(s, key) && (forall y :: y in s ==> key(y) != key(x)) ==> Strict(Insert(s, x, key), key)
  {
    hide Less;
    if s != [] {
      var n := |s| - 1;
      var front, last := s[..n], s[n];
      if Less(key(x), key(last)) {
        InsertOrdered(front, x, key);
        LessTotal(key(x), key(last));
        forall y | y in Insert(front, x, key)
          ensures !Less(key(last), key(y))
          ensures Strict(s, key) ==> Less(key(y), key(last))
        {
          InsertMember(front, x, key, y);
          if y != x {
            var i :| 0 <= i < n && front[i] == y;
            assert s[i] == y;
          }
        }
        OrderedAppend(Insert(front, x, key), last, key);
      } else {
        forall y | y in s
          ensures !Less(key(x), key(y))
          ensures Strict(s, key) && key(last) != key(x) ==> Less(key(y), key(x))
        {
          NotBefore(s, key, y);
          LessTotal(key(x), key(last));
          Below(key(x), key(y), key(last));
          Below(key(y), key(last), key(x));
        }
        OrderedAppend(s, x, key);
      }
    }
  }

  lemma NotBefore<T>(s: seq<T>, key: T -> string, y: T)
    requires Ordered(s, key) && y in s
    ensures !Less(key(s[|s| - 1]), key(y))
    ensures Strict(s, key) && y != s[|s| - 1] ==> Less(key(y), key(s[|s| - 1]))
  {
    var i :| 0 <= i < |s| && s[i] == y;
    LessTotal(key(y), key(y));
  }

  /** A weak step in front of, or behind, a strict one. */
  lemma Below(a: string, b: string, c: string)
    ensures Less(a, b) && !Less(c, b) ==> Less(a, c)
    ensures !Less(b, a) && Less(b, c) ==> Less(a, c)
  {
    LessTotal(b, c);
    LessTotal(a, b);
    if Less(a, b) && Less(b, c) {
      LessTransitive(a, b, c);
    }
  }

  lemma {:induction false} InsertStable<T>(s: seq<T>, x: T, key: T -> string, k: string)
    requires Ordered(s, key)
    ensures WithKey(Insert(s, x, key), key, k) == WithKey(s, key, k) + if key(x) == k then [x] else []
  {
    if s == [] {
      assert [x][..0] == [];
    } else {
      var n := |s| - 1;
      if Less(key(x), key(s[n])) {
        InsertStable(s[..n], x, key, k);
        var t := Insert(s[..n], x, key) + [s[n]];
        assert t[..|t| - 1] == Insert(s[..n], x, key);
        LessTotal(key(x), key(x));
      } else {
        assert (s + [x])[..|s|] == s;
      }
    }
  }

  /** The stable sort keeps every element, orders them by key and keeps equal keys in their order. */
  lemma {:induction false} SortByIsSort<T>(s: seq<T>, key: T -> string)
    ensures multiset(SortBy(s, key)) == multiset(s)
    ensures Ordered(SortBy(s, key), key)
    ensures forall k :: WithKey(SortBy(s, key), key, k) == WithKey(s, key, k)
  {
    if s != [] {
      var n := |s| - 1;
      var front := SortBy(s[..n], key);
      SortByIsSort(s[..n], key);
      assert s == s[..n] + [s[n]];
      InsertElements(front, s[n], key);
      InsertOrdered(front, s[n], key);
      forall k
        ensures WithKey(SortBy(s, key), key, k) == WithKey(s, key, k)
      {
        InsertStable(front, s[n], key, k);
      }
    }
  }

  /** Strictly ordered lists with the same elements are equal. */
  lemma {:induction false} StrictUnique<T>(a: seq<T>, b: seq<T>, key: T -> string)
    requires Strict(a, key) && Strict(b, key)
    requires forall x :: x in a <==> x in b
    ensures a == b
    decreases |a|
  {
    assert b != [] ==> b[0] in a;
    if a != [] {
      var n := |a| - 1;
      assert a[n] in b;
      var m := |b| - 1;
      assert b[m] in a;
      StrictLast(a, key);
      StrictLast(b, key);
      LessTotal(key(a[n]), key(b[m]));
      assert a[n] == b[m];
      forall x
        ensures x in a[..n] <==> x in b[..m]
      {
        assert x in a[..n] <==> x in a && x != a[n];
        assert x in b[..m] <==> x in b && x != b[m];
      }
      StrictUnique(a[..n], b[..m], key);
      assert a == a[..n] + [a[n]] && b == b[..m] + [b[m]];
    }
  }

  /** The last element is above every other one, and no other one equals it. */
  lemma StrictLast<T>(s: seq<T>, key: T -> string)
    requires s != [] && Strict(s, key)
    ensures var last := s[|s| - 1];
            && (forall x :: x in s && x != last ==> Less(key(x), key(last)))
            && (forall x :: x in s[..|s| - 1] <==> x in s && x != last)
  {
    var n := |s| - 1;
    forall x
      ensures x in s[..n] <==> x in s && x != s[n]
      ensures x in s && x != s[n] ==> Less(key(x), key(s[n]))
    {
      if x in s[..n] {
        var i :| 0 <= i < n && s[..n][i] == x;
        assert s[i] == x;
        LessTotal(key(x), key(x));
      }
      if x in s && x != s[n] {
        var i :| 0 <= i <= n && s[i] == x;
        assert s[..n][i] == x;
      }
    }
  }

  function Itself(x: string): string {
    x
  }

  lemma InsertMembers(s: seq<string>, x: string)
    ensures forall y :: y in Insert(s, x, Itself) <==> y in s || y == x
  {
    forall y {
      InsertMember(s, x, Itself, y);
    }
  }

  /** The elements of a set of strings in strictly increasing order. */
  ghost function SortedIds(ids: set<string>): (s: seq<string>)
    ensures Strict(s, Itself)
    ensures forall x :: x in s <==> x in ids
  {
    if ids == {} then []
    else
      var x :| x in ids;
      var rest := SortedIds(ids - {x});
      assert Ordered(rest, Itself) by { StrictOrdered(rest); }
      InsertOrdered(rest, x, Itself);
      InsertMembers(rest, x);
      Insert(rest, x, Itself)
  }

  lemma StrictOrdered(s: seq<string>)
    requires Strict(s, Itself)
    ensures Ordered(s, Itself)
  {
    forall i, j | 0 <= i < j < |s|
      ensures !Less(s[j], s[i])
    {
      LessTotal(s[i], s[j]);
    }
  }

  /** Sorting the distinct strings of a set, in whatever order they come. */
  lemma SortDistinct(s: seq<string>)
    requires forall i, j :: 0 <= i < j < |s| ==> s[i] != s[j]
    ensures SortBy(s, Itself) == SortedIds(set x | x in s)
  {
    SortByIsSort(s, Itself);
    var t := SortBy(s, Itself);
    forall x
      ensures x in t <==> x in s
    {
      assert x in t <==> x in multiset(t);
      assert x in s <==> x in multiset(s);
    }
    SortStrict(s);
    StrictUnique(t, SortedIds(set x | x in s), Itself);
  }

  lemma {:induction false} SortStrict(s: seq<string>)
    requires forall i, j :: 0 <= i < j < |s| ==> s[i] != s[j]
    ensures Strict(SortBy(s, Itself), Itself)
  {
    if s != [] {
      var n := |s| - 1;
      SortStrict(s[..n]);
      var front := SortBy(s[..n], Itself);
      SortByIsSort(s[..n], Itself);
      forall y | y in front
        ensures y != s[n]
      {
        assert y in multiset(front) && y in multiset(s[..n]);
      }
      InsertOrdered(front, s[n], Itself);
    }
  }
}
