/**
 * The orders Python's `sorted` and `list.sort` use in the folder code: strings
 * compare lexicographically by code point, and sort keys `(rank, name)` compare
 * as tuples.
 */
module Ordering {

  /** `a < b` on Python strings. */
  predicate StrLess(a: string, b: string)
    decreases |a|
  {
    if a == [] then b != []
    else b != [] && (a[0] < b[0] || (a[0] == b[0] && StrLess(a[1..], b[1..])))
  }

  lemma {:induction false} StrLessIrreflexive(a: string)
    ensures !StrLess(a, a)
    decreases |a|
  {
    if a != [] {
      StrLessIrreflexive(a[1..]);
    }
  }

  lemma {:induction false} StrLessTransitive(a: string, b: string, c: string)
    requires StrLess(a, b) && StrLess(b, c)
    ensures StrLess(a, c)
    decreases |a|
  {
    if a != [] && a[0] == b[0] && b[0] == c[0] {
      StrLessTransitive(a[1..], b[1..], c[1..]);
    }
  }

  lemma {:induction false} StrLessTotal(a: string, b: string)
    ensures a == b || StrLess(a, b) || StrLess(b, a)
    decreases |a|
  {
    if a != [] && b != [] && a[0] == b[0] {
      StrLessTotal(a[1..], b[1..]);
      if a[1..] == b[1..] {
        assert a == [a[0]] + a[1..] && b == [b[0]] + b[1..];
      }
    }
  }

  /** A proper prefix sorts first. */
  lemma {:induction false} StrLessPrefix(a: string, b: string)
    requires |a| < |b| && b[..|a|] == a
    ensures StrLess(a, b)
    decreases |a|
  {
    if a != [] {
      assert b[1..][..|a| - 1] == a[1..];
      StrLessPrefix(a[1..], b[1..]);
    }
  }

  predicate StrictlySorted(s: seq<string>)
  {
    forall i, j :: 0 <= i < j < |s| ==> StrLess(s[i], s[j])
  }

  /** Inserts `x` into a strictly sorted list, keeping it strictly sorted and free of duplicates. */
  function InsertStr(s: seq<string>, x: string): (r: seq<string>)
    requires StrictlySorted(s)
    ensures StrictlySorted(r)
    ensures forall y :: y in r <==> y in s || y == x
  {
    if s == [] then [x]
    else if StrLess(x, s[0]) then
      assert forall j :: 0 < j < |s| ==> StrLess(x, s[j]) by {
        forall j | 0 < j < |s| ensures StrLess(x, s[j]) { StrLessTransitive(x, s[0], s[j]); }
      }
      [x] + s
    else if x == s[0] then s
    else
      StrLessTotal(x, s[0]);
      var t := InsertStr(s[1..], x);
      assert forall y :: y in t ==> StrLess(s[0], y);
      [s[0]] + t
  }

  /** The members of `S` in increasing order, each once: the only such sequence, by `SortedUnique`. */
  ghost function SortedOf(S: set<string>): (r: seq<string>)
    ensures StrictlySorted(r)
    ensures forall y :: y in r <==> y in S
    decreases |S|
  {
    if S == {} then []
    else
      var x :| x in S;
      InsertStr(SortedOf(S - {x}), x)
  }

  /** Two strictly sorted lists with the same members are equal. */
  lemma {:induction false} SortedUnique(a: seq<string>, b: seq<string>)
    requires StrictlySorted(a) && StrictlySorted(b)
    requires forall y :: y in a <==> y in b
    ensures a == b
    decreases |a|
  {
    if b != [] {
      assert b[0] in a;
    }
    if a != [] {
      assert a[0] in b;
      assert b != [] && b[0] in a;
      if a[0] != b[0] {
        var i :| 0 <= i < |a| && a[i] == b[0];
        var j :| 0 <= j < |b| && b[j] == a[0];
        assert StrLess(a[0], b[0]) && StrLess(b[0], a[0]);
        StrLessTransitive(a[0], b[0], a[0]);
        StrLessIrreflexive(a[0]);
      }
      forall y
        ensures y in a[1..] <==> y in b[1..]
      {
        if y in a[1..] {
          var i :| 1 <= i < |a| && a[i] == y;
          StrLessIrreflexive(y);
          assert y != b[0] && y in b;
          var j :| 0 <= j < |b| && b[j] == y;
          assert b[1..][j - 1] == y;
        }
        if y in b[1..] {
          var j :| 1 <= j < |b| && b[j] == y;
          StrLessIrreflexive(y);
          assert y != a[0] && y in a;
          var i :| 0 <= i < |a| && a[i] == y;
          assert a[1..][i - 1] == y;
        }
      }
      SortedUnique(a[1..], b[1..]);
      assert a == [a[0]] + a[1..] && b == [b[0]] + b[1..];
    }
  }

  /** `sorted(S)` for a set of strings: the members in increasing order, each once. */
  method SortedSet(S: set<string>) returns (r: seq<string>)
    ensures StrictlySorted(r)
    ensures forall y :: y in r <==> y in S
    ensures r == SortedOf(S)
  {
    r := [];
    var rest := S;
    while rest != {}
      invariant StrictlySorted(r)
      invariant forall y :: y in S <==> y in r || y in rest
      decreases |rest|
    {
      var x :| x in rest;
      r := InsertStr(r, x);
      rest := rest - {x};
    }
    SortedUnique(r, SortedOf(S));
  }

  /** A sort key `(rank, name)`, compared as a Python tuple. */
  datatype SortKey = SortKey(rank: int, name: string)

  predicate KeyLess(a: SortKey, b: SortKey)
  {
    a.rank < b.rank || (a.rank == b.rank && StrLess(a.name, b.name))
  }

  lemma KeyLessOrder(a: SortKey, b: SortKey, c: SortKey)
    ensures !KeyLess(a, a)
    ensures KeyLess(a, b) && KeyLess(b, c) ==> KeyLess(a, c)
    ensures a == b || KeyLess(a, b) || KeyLess(b, a)
  {
    StrLessIrreflexive(a.name);
    if KeyLess(a, b) && KeyLess(b, c) && a.rank == b.rank == c.rank {
      StrLessTransitive(a.name, b.name, c.name);
    }
    StrLessTotal(a.name, b.name);
  }

  /** No element is followed by one with a smaller key. */
  predicate SortedByKey<T>(s: seq<T>, key: T -> SortKey)
  {
    forall i, j :: 0 <= i < j < |s| ==> !KeyLess(key(s[j]), key(s[i]))
  }

  /** Puts `x` in front of the first element whose key is not smaller. */
  function InsertByKey<T>(x: T, s: seq<T>, key: T -> SortKey): (r: seq<T>)
    requires SortedByKey(s, key)
    ensures SortedByKey(r, key)
    ensures multiset(r) == multiset(s) + multiset{x}
  {
    if s == [] then [x]
    else if !KeyLess(key(s[0]), key(x)) then
      InsertFront(x, s, key);
      [x] + s
    else
      var t := InsertByKey(x, s[1..], key);
      InsertBehind(x, s, t, key);
      [s[0]] + t
  }

  lemma InsertFront<T>(x: T, s: seq<T>, key: T -> SortKey)
    requires SortedByKey(s, key) && s != [] && !KeyLess(key(s[0]), key(x))
    ensures SortedByKey([x] + s, key)
  {
    assert forall j :: 0 <= j < |s| ==> !KeyLess(key(s[j]), key(x)) by {
      forall j | 0 <= j < |s| ensures !KeyLess(key(s[j]), key(x)) {
        KeyLessOrder(key(s[j]), key(x), key(s[0]));
        KeyLessOrder(key(s[0]), key(x), key(s[0]));
      }
    }
  }

  lemma InsertBehind<T>(x: T, s: seq<T>, t: seq<T>, key: T -> SortKey)
    requires SortedByKey(s, key) && s != [] && KeyLess(key(s[0]), key(x))
    requires SortedByKey(t, key) && multiset(t) == multiset(s[1..]) + multiset{x}
    ensures SortedByKey([s[0]] + t, key)
    ensures multiset([s[0]] + t) == multiset(s) + multiset{x}
  {
    assert forall y :: y in multiset(t) ==> y == x || y in multiset(s[1..]);
    assert forall j :: 0 <= j < |t| ==> !KeyLess(key(t[j]), key(s[0])) by {
      forall j | 0 <= j < |t| ensures !KeyLess(key(t[j]), key(s[0])) {
        assert t[j] in multiset(t);
        if t[j] != x {
          var m :| 0 <= m < |s[1..]| && s[1..][m] == t[j];
          assert s[m + 1] == t[j];
        } else {
          KeyLessOrder(key(s[0]), key(x), key(s[0]));
        }
      }
    }
    assert s == [s[0]] + s[1..];
  }

  /** `list.sort(key=...)`: a permutation of `s`, ordered by key. */
  function SortByKey<T>(s: seq<T>, key: T -> SortKey): (r: seq<T>)
    ensures SortedByKey(r, key)
    ensures multiset(r) == multiset(s)
  {
    if s == [] then []
    else
      assert s == [s[0]] + s[1..];
      InsertByKey(s[0], SortByKey(s[1..], key), key)
  }
}
