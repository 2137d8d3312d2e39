/** Facts about sequences of any element type, stated once so that proofs about strings and
    lists of strings can use them without unfolding the elements. */
module Sequences {

  lemma ConcatAssoc<T>(a: seq<T>, b: seq<T>, c: seq<T>)
    ensures a + (b + c) == (a + b) + c
  {
  }

  lemma SplitLast<T>(a: seq<T>, b: seq<T>)
    requires |b| > 0
    ensures a + b == (a + b[..|b| - 1]) + [b[|b| - 1]]
  {
    assert b == b[..|b| - 1] + [b[|b| - 1]];
  }

  lemma PrefixOfPrefix<T>(r: seq<T>, s: seq<T>, e: seq<T>)
    requires |e| <= |s| <= |r| && r[..|s|] == s && s[..|e|] == e
    ensures r[..|e|] == e
  {
    assert r[..|e|] == r[..|s|][..|e|];
  }

  lemma AppendPrefix<T>(a: seq<T>, x: T)
    ensures (a + [x])[..|a|] == a && (a + [x])[|a|] == x
  {
  }

  lemma TakeNext<T>(s: seq<T>, i: nat)
    requires i < |s|
    ensures s[..i + 1] == s[..i] + [s[i]]
  {
  }

  lemma TakeAll<T>(s: seq<T>)
    ensures s[..|s|] == s
  {
  }

  lemma Three<T>(s: seq<T>)
    requires |s| == 3
    ensures s == [s[0], s[1], s[2]]
  {
  }

  lemma Two<T>(s: seq<T>)
    requires |s| == 2
    ensures s == [s[0], s[1]]
  {
  }

  /** `[f(x) for x in xs]`. */
  function Map<A, B>(f: A -> B, xs: seq<A>): (r: seq<B>)
    ensures |r| == |xs|
    ensures forall k | 0 <= k < |xs| :: r[k] == f(xs[k])
  {
    if |xs| == 0 then [] else [f(xs[0])] + Map(f, xs[1..])
  }

  lemma {:induction false} MapAppend<A, B>(f: A -> B, a: seq<A>, b: seq<A>)
    ensures Map(f, a + b) == Map(f, a) + Map(f, b)
  {
    if |a| == 0 {
      assert a + b == b;
    } else {
      assert (a + b)[0] == a[0];
      assert (a + b)[1..] == a[1..] + b;
      MapAppend(f, a[1..], b);
      ConcatAssoc([f(a[0])], Map(f, a[1..]), Map(f, b));
    }
  }

  lemma MapTwo<A, B>(f: A -> B, a: A, b: A)
    ensures Map(f, [a, b]) == [f(a), f(b)]
  {
    Two(Map(f, [a, b]));
  }

  lemma MapThree<A, B>(f: A -> B, a: A, b: A, c: A)
    ensures Map(f, [a, b, c]) == [f(a), f(b), f(c)]
  {
    Three(Map(f, [a, b, c]));
  }

  /** The two sides of a single separating item. */
  lemma SplitAround<T>(a: seq<T>, x: T, b: seq<T>)
    ensures (a + [x] + b)[..|a|] == a
    ensures (a + [x] + b)[|a|] == x
    ensures (a + [x] + b)[|a| + 1..] == b
  {
  }

  lemma AppendEmpty<T>(a: seq<T>)
    ensures a + [] == a
  {
  }

  lemma Literals<T>(a: T, b: T, c: T)
    ensures [a] + [b] == [a, b]
    ensures [a] + ([b] + [c]) == [a, b, c]
  {
  }

  /** The concatenation of a list of lists. */
  function Flatten<T>(xss: seq<seq<T>>): (r: seq<T>)
    ensures |xss| > 0 ==> r == xss[0] + Flatten(xss[1..])
  {
    if |xss| == 0 then [] else xss[0] + Flatten(xss[1..])
  }

  /** Every item of every part is in the concatenation. */
  lemma {:induction false} FlattenHas<T>(xss: seq<seq<T>>, k: nat, i: nat)
    requires k < |xss| && i < |xss[k]|
    ensures xss[k][i] in Flatten(xss)
  {
    if k == 0 {
      assert Flatten(xss)[i] == xss[0][i];
    } else {
      FlattenHas(xss[1..], k - 1, i);
      var m :| 0 <= m < |Flatten(xss[1..])| && Flatten(xss[1..])[m] == xss[k][i];
      assert Flatten(xss)[|xss[0]| + m] == xss[k][i];
    }
  }
}
