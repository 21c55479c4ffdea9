/**
 * `Array.prototype.reduce` as the source uses it: a left fold that adds a
 * per-element quantity to an accumulator starting at zero.
 */
module Folds {

  /** `s.reduce((acc, x) => acc + f(x), 0)` */
  function SumOf<T>(s: seq<T>, f: T -> nat): (total: nat)
  {
    if s == [] then 0 else SumOf(s[..|s| - 1], f) + f(s[|s| - 1])
  }

  /** The multiset union of `f(x)` over the elements of `s`. */
  function UnionOf<T, U>(s: seq<T>, f: T -> multiset<U>): (bag: multiset<U>)
  {
    if s == [] then multiset{} else UnionOf(s[..|s| - 1], f) + f(s[|s| - 1])
  }

  lemma {:induction false} SumOfAppend<T>(a: seq<T>, b: seq<T>, f: T -> nat)
    ensures SumOf(a + b, f) == SumOf(a, f) + SumOf(b, f)
    decreases |b|
  {
    if b == [] {
      assert a + b == a;
    } else {
      assert (a + b)[..|a + b| - 1] == a + b[..|b| - 1];
      SumOfAppend(a, b[..|b| - 1], f);
    }
  }

  lemma {:induction false} UnionOfAppend<T, U>(a: seq<T>, b: seq<T>, f: T -> multiset<U>)
    ensures UnionOf(a + b, f) == UnionOf(a, f) + UnionOf(b, f)
    decreases |b|
  {
    if b == [] {
      assert a + b == a;
    } else {
      assert (a + b)[..|a + b| - 1] == a + b[..|b| - 1];
      UnionOfAppend(a, b[..|b| - 1], f);
    }
  }

  lemma SumOfSplitAt<T>(s: seq<T>, i: nat, f: T -> nat)
    requires i < |s|
    ensures SumOf(s, f) == SumOf(s[..i], f) + f(s[i]) + SumOf(s[i + 1..], f)
  {
    assert s == s[..i] + [s[i]] + s[i + 1..];
    SumOfAppend(s[..i] + [s[i]], s[i + 1..], f);
    SumOfAppend(s[..i], [s[i]], f);
    assert SumOf([s[i]], f) == f(s[i]) by { assert [s[i]][..0] == []; }
  }

  lemma UnionOfSplitAt<T, U>(s: seq<T>, i: nat, f: T -> multiset<U>)
    requires i < |s|
    ensures UnionOf(s, f) == UnionOf(s[..i], f) + f(s[i]) + UnionOf(s[i + 1..], f)
  {
    assert s == s[..i] + [s[i]] + s[i + 1..];
    UnionOfAppend(s[..i] + [s[i]], s[i + 1..], f);
    UnionOfAppend(s[..i], [s[i]], f);
    assert UnionOf([s[i]], f) == f(s[i]) by { assert [s[i]][..0] == []; }
  }

  /** Replacing one element changes the total by the difference of the two quantities. */
  lemma SumOfUpdate<T>(s: seq<T>, i: nat, v: T, f: T -> nat)
    requires i < |s|
    ensures SumOf(s[i := v], f) + f(s[i]) == SumOf(s, f) + f(v)
  {
    SumOfSplitAt(s, i, f);
    SumOfSplitAt(s[i := v], i, f);
    assert s[i := v][..i] == s[..i] && s[i := v][i + 1..] == s[i + 1..];
  }

  lemma UnionOfUpdate<T, U>(s: seq<T>, i: nat, v: T, f: T -> multiset<U>)
    requires i < |s|
    ensures UnionOf(s[i := v], f) + f(s[i]) == UnionOf(s, f) + f(v)
  {
    UnionOfSplitAt(s, i, f);
    UnionOfSplitAt(s[i := v], i, f);
    assert s[i := v][..i] == s[..i] && s[i := v][i + 1..] == s[i + 1..];
  }

  /** The total does not depend on the order of the elements. */
  lemma {:induction false} SumOfPermutation<T>(a: seq<T>, b: seq<T>, f: T -> nat)
    requires multiset(a) == multiset(b)
    ensures SumOf(a, f) == SumOf(b, f)
    decreases |a|
  {
    if a != [] {
      var front, x := a[..|a| - 1], a[|a| - 1];
      assert a == front + [x];
      assert x in multiset(b);
      var j :| 0 <= j < |b| && b[j] == x;
      var rest := b[..j] + b[j + 1..];
      RemoveOne(front, b, j);
      SumOfPermutation(front, rest, f);
      SumOfSplitAt(b, j, f);
      SumOfAppend(b[..j], b[j + 1..], f);
    } else {
      assert |b| == |multiset(b)|;
    }
  }

  /** Taking the same element out of two equal bags leaves equal bags. */
  lemma RemoveOne<T>(front: seq<T>, b: seq<T>, j: nat)
    requires j < |b| && multiset(front) + multiset{b[j]} == multiset(b)
    ensures multiset(front) == multiset(b[..j] + b[j + 1..])
  {
    var x, rest := b[j], b[..j] + b[j + 1..];
    assert b == b[..j] + [x] + b[j + 1..];
    assert multiset(b) == multiset(rest) + multiset{x};
    forall y ensures multiset(front)[y] == multiset(rest)[y] {
      assert (multiset(front) + multiset{x})[y] == (multiset(rest) + multiset{x})[y];
    }
  }

  /** Two exchanges of bags compose: what `x` gave for `x'` and `old` for `new` cancel out. */
  lemma BagSwap<U>(after: multiset<U>, before: multiset<U>, x: multiset<U>, x': multiset<U>, old': multiset<U>, new': multiset<U>)
    requires after + x == before + x'
    requires x' + old' == x + new'
    ensures after + old' == before + new'
  {
    forall y ensures (after + old')[y] == (before + new')[y] {
      assert (after + x)[y] == (before + x')[y];
      assert (x' + old')[y] == (x + new')[y];
    }
  }
}
