/** Python's ordering of `str` values (lexicographic by code point) and `sorted(...)`
    over items ranked by a string key, ascending or with `reverse=True`. */
module Ordering {

  /** Python's `a <= b` on strings. */
  predicate StrLe(a: string, b: string)
    decreases |a|
  {
    |a| == 0 || (|b| > 0 && (a[0] < b[0] || (a[0] == b[0] && StrLe(a[1..], b[1..]))))
  }

  lemma StrLeTotal(a: string, b: string)
    ensures StrLe(a, b) || StrLe(b, a)
    decreases |a|
  {
    if |a| > 0 && |b| > 0 && a[0] == b[0] {
      StrLeTotal(a[1..], b[1..]);
    }
  }

  lemma StrLeTransitive(a: string, b: string, c: string)
    requires StrLe(a, b) && StrLe(b, c)
    ensures StrLe(a, c)
    decreases |a|
  {
    if |a| > 0 && a[0] == b[0] && b[0] == c[0] {
      StrLeTransitive(a[1..], b[1..], c[1..]);
    }
  }

  lemma StrLeAntisymmetric(a: string, b: string)
    requires StrLe(a, b) && StrLe(b, a)
    ensures a == b
    decreases |a|
  {
    if |a| > 0 {
      StrLeAntisymmetric(a[1..], b[1..]);
      assert a == [a[0]] + a[1..];
      assert b == [b[0]] + b[1..];
    }
  }

  /** `a` may precede `b` in an ascending (or, with `desc`, descending) order. */
  predicate InOrder(desc: bool, a: string, b: string) {
    if desc then StrLe(b, a) else StrLe(a, b)
  }

  lemma InOrderTotal(desc: bool, a: string, b: string)
    ensures InOrder(desc, a, b) || InOrder(desc, b, a)
  {
    StrLeTotal(a, b);
  }

  lemma InOrderTransitive(desc: bool, a: string, b: string, c: string)
    requires InOrder(desc, a, b) && InOrder(desc, b, c)
    ensures InOrder(desc, a, c)
  {
    if desc { StrLeTransitive(c, b, a); } else { StrLeTransitive(a, b, c); }
  }

  ghost predicate SortedBy<T>(xs: seq<T>, key: T -> string, desc: bool) {
    forall i, j | 0 <= i < j < |xs| :: InOrder(desc, key(xs[i]), key(xs[j]))
  }

  /** Places `x` before the first element it may precede (so equal keys keep their input order). */
  function Insert<T>(x: T, xs: seq<T>, key: T -> string, desc: bool): (r: seq<T>)
    requires SortedBy(xs, key, desc)
    ensures SortedBy(r, key, desc)
    ensures multiset(r) == multiset(xs) + multiset{x}
    ensures |r| == |xs| + 1
  {
    if |xs| == 0 then [x]
    else if InOrder(desc, key(x), key(xs[0])) then
      PrecedesAll(x, xs, key, desc);
      ConsSorted(x, xs, key, desc);
      [x] + xs
    else
      var rest := Insert(x, xs[1..], key, desc);
      assert xs == [xs[0]] + xs[1..];
      InOrderTotal(desc, key(x), key(xs[0]));
      HeadPrecedesTail(xs, key, desc);
      InsertMembers(x, xs[1..], rest);
      ConsSorted(xs[0], rest, key, desc);
      [xs[0]] + rest
  }

  /** In a sorted sequence the first item may precede every later one. */
  lemma HeadPrecedesTail<T>(xs: seq<T>, key: T -> string, desc: bool)
    requires SortedBy(xs, key, desc) && |xs| > 0
    ensures forall y | y in xs :: InOrder(desc, key(xs[0]), key(y))
  {
    forall y | y in xs
      ensures InOrder(desc, key(xs[0]), key(y))
    {
      var k :| 0 <= k < |xs| && xs[k] == y;
      if k == 0 { InOrderTotal(desc, key(y), key(y)); }
    }
  }

  /** An item that may precede the head of a sorted sequence may precede all of it. */
  lemma PrecedesAll<T>(x: T, xs: seq<T>, key: T -> string, desc: bool)
    requires SortedBy(xs, key, desc) && |xs| > 0
    requires InOrder(desc, key(x), key(xs[0]))
    ensures forall y | y in xs :: InOrder(desc, key(x), key(y))
  {
    HeadPrecedesTail(xs, key, desc);
    forall y | y in xs
      ensures InOrder(desc, key(x), key(y))
    {
      InOrderTransitive(desc, key(x), key(xs[0]), key(y));
    }
  }

  /** Every item of `r`, which holds `xs` and one `x`, is `x` or an item of `xs`. */
  lemma InsertMembers<T>(x: T, xs: seq<T>, r: seq<T>)
    requires multiset(r) == multiset(xs) + multiset{x}
    ensures forall y | y in r :: y == x || y in xs
  {
    forall y | y in r
      ensures y == x || y in xs
    {
      assert y in multiset(r);
    }
  }

  /** A sorted sequence stays sorted under a new head that may precede all of it. */
  lemma ConsSorted<T>(x: T, xs: seq<T>, key: T -> string, desc: bool)
    requires SortedBy(xs, key, desc)
    requires forall y | y in xs :: InOrder(desc, key(x), key(y))
    ensures SortedBy([x] + xs, key, desc)
  {
    var r := [x] + xs;
    forall i, j | 0 <= i < j < |r|
      ensures InOrder(desc, key(r[i]), key(r[j]))
    {
      if i == 0 {
        assert r[j] == xs[j - 1];
        assert xs[j - 1] in xs;
      } else {
        assert r[i] == xs[i - 1] && r[j] == xs[j - 1];
      }
    }
  }

  /** Python's `sorted(xs, key=key, reverse=desc)` by insertion. */
  function SortBy<T>(xs: seq<T>, key: T -> string, desc: bool): (r: seq<T>)
    ensures SortedBy(r, key, desc)
    ensures multiset(r) == multiset(xs)
    ensures |r| == |xs|
  {
    if |xs| == 0 then []
    else
      assert xs == [xs[0]] + xs[1..];
      Insert(xs[0], SortBy(xs[1..], key, desc), key, desc)
  }

  /** No two items share a key (what a directory listing guarantees of names). */
  ghost predicate DistinctKeys<T>(xs: seq<T>, key: T -> string) {
    forall i, j | 0 <= i < j < |xs| :: key(xs[i]) != key(xs[j])
  }

  lemma {:induction false} SortKeepsDistinctKeys<T>(xs: seq<T>, key: T -> string, desc: bool)
    requires DistinctKeys(xs, key)
    ensures DistinctKeys(SortBy(xs, key, desc), key)
  {
    if |xs| > 0 {
      var tail := SortBy(xs[1..], key, desc);
      SortKeepsDistinctKeys(xs[1..], key, desc);
      forall y | y in tail
        ensures key(y) != key(xs[0])
      {
        assert y in multiset(tail);
        var k :| 0 <= k < |xs[1..]| && xs[1..][k] == y;
        assert xs[k + 1] == y;
      }
      InsertKeepsDistinctKeys(xs[0], tail, key, desc);
    }
  }

  lemma {:induction false} InsertKeepsDistinctKeys<T>(x: T, xs: seq<T>, key: T -> string, desc: bool)
    requires SortedBy(xs, key, desc) && DistinctKeys(xs, key)
    requires forall y | y in xs :: key(y) != key(x)
    ensures DistinctKeys(Insert(x, xs, key, desc), key)
  {
    if |xs| > 0 {
      if InOrder(desc, key(x), key(xs[0])) {
        ConsDistinct(x, xs, key);
      } else {
        var rest := Insert(x, xs[1..], key, desc);
        assert xs == [xs[0]] + xs[1..];
        TailDistinct(xs, key);
        InsertKeepsDistinctKeys(x, xs[1..], key, desc);
        InsertMembers(x, xs[1..], rest);
        ConsDistinct(xs[0], rest, key);
      }
    }
  }

  /** After a distinct first key, the rest of a sequence with distinct keys avoids it. */
  lemma TailDistinct<T>(xs: seq<T>, key: T -> string)
    requires DistinctKeys(xs, key) && |xs| > 0
    ensures DistinctKeys(xs[1..], key)
    ensures forall y | y in xs[1..] :: key(y) != key(xs[0])
  {
    forall y | y in xs[1..]
      ensures key(y) != key(xs[0])
    {
      var k :| 0 <= k < |xs[1..]| && xs[1..][k] == y;
      assert xs[k + 1] == y;
    }
  }

  /** Keys stay distinct under a head whose key none of the rest has. */
  lemma ConsDistinct<T>(x: T, xs: seq<T>, key: T -> string)
    requires DistinctKeys(xs, key)
    requires forall y | y in xs :: key(y) != key(x)
    ensures DistinctKeys([x] + xs, key)
  {
    var r := [x] + xs;
    forall i, j | 0 <= i < j < |r|
      ensures key(r[i]) != key(r[j])
    {
      if i == 0 {
        assert r[j] == xs[j - 1];
        assert xs[j - 1] in xs;
      } else {
        assert r[i] == xs[i - 1] && r[j] == xs[j - 1];
      }
    }
  }
}
