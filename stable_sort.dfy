/**
 * A stable sort by an integer key, the behaviour of `Array.prototype.sort`
 * with a comparator `(a, b) => key(a) - key(b)` (stable since ECMAScript
 * 2019).
 *
 * Stability is stated through `WithKey`: the items of each key, in order.
 */
module StableSort {

  predicate Sorted<T>(s: seq<T>, key: T -> int)
  {
    forall i, j :: 0 <= i < j < |s| ==> key(s[i]) <= key(s[j])
  }

  /** The elements of `s` whose key is `k`, in their order in `s`. */
  function WithKey<T>(s: seq<T>, key: T -> int, k: int): (r: seq<T>)
  {
    if s == [] then []
    else (if key(s[0]) == k then [s[0]] else []) + WithKey(s[1..], key, k)
  }

  /** `r` and `s` list the elements of every key in the same order. */
  ghost predicate SameOrderPerKey<T>(r: seq<T>, s: seq<T>, key: T -> int)
  {
    forall k :: WithKey(r, key, k) == WithKey(s, key, k)
  }

  lemma {:induction false} WithKeyAppend<T>(a: seq<T>, b: seq<T>, key: T -> int, k: int)
    ensures WithKey(a + b, key, k) == WithKey(a, key, k) + WithKey(b, key, k)
    decreases |a|
  {
    if a == [] {
      assert a + b == b;
    } else {
      var head := if key(a[0]) == k then [a[0]] else [];
      WithKeyAppend(a[1..], b, key, k);
      assert (a + b)[0] == a[0];
      assert (a + b)[1..] == a[1..] + b;
      assert WithKey(a + b, key, k) == head + WithKey(a[1..] + b, key, k);
      assert WithKey(a, key, k) == head + WithKey(a[1..], key, k);
      assert head + (WithKey(a[1..], key, k) + WithKey(b, key, k))
          == (head + WithKey(a[1..], key, k)) + WithKey(b, key, k);
    }
  }

  lemma WithKeySingle<T>(x: T, key: T -> int, k: int)
    ensures WithKey([x], key, k) == if key(x) == k then [x] else []
  {
    assert [x][1..] == [];
  }

  lemma {:induction false} WithKeyNone<T>(s: seq<T>, key: T -> int, k: int)
    requires forall i :: 0 <= i < |s| ==> key(s[i]) != k
    ensures WithKey(s, key, k) == []
    decreases |s|
  {
    if s != [] {
      WithKeyNone(s[1..], key, k);
    }
  }

  lemma {:induction false} WithKeyFound<T>(s: seq<T>, key: T -> int, k: int)
    requires WithKey(s, key, k) != []
    ensures exists i :: 0 <= i < |s| && key(s[i]) == k
    decreases |s|
  {
    if key(s[0]) != k {
      WithKeyFound(s[1..], key, k);
      var i :| 0 <= i < |s[1..]| && key(s[1..][i]) == k;
      assert key(s[i + 1]) == k;
    }
  }

  /** Inserts `x` after every leading element whose key is not greater than its own. */
  function Insert<T>(s: seq<T>, x: T, key: T -> int): (r: seq<T>)
    decreases |s|
  {
    if s == [] then [x]
    else if key(x) < key(s[0]) then [x] + s
    else [s[0]] + Insert(s[1..], x, key)
  }

  /** Insertion adds exactly `x`. */
  lemma {:induction false} InsertPermutes<T>(s: seq<T>, x: T, key: T -> int)
    ensures multiset(Insert(s, x, key)) == multiset(s) + multiset{x}
    ensures |Insert(s, x, key)| == |s| + 1
    decreases |s|
  {
    if s != [] && key(x) >= key(s[0]) {
      InsertPermutes(s[1..], x, key);
      assert s == [s[0]] + s[1..];
    }
  }

  /** Every key of the inserted list is at least `m` when that holds of `s` and of `x`. */
  lemma {:induction false} InsertKeysAbove<T>(s: seq<T>, x: T, key: T -> int, m: int)
    requires forall i :: 0 <= i < |s| ==> m <= key(s[i])
    requires m <= key(x)
    ensures forall j :: 0 <= j < |Insert(s, x, key)| ==> m <= key(Insert(s, x, key)[j])
    decreases |s|
  {
    if s != [] && key(x) >= key(s[0]) {
      InsertKeysAbove(s[1..], x, key, m);
      assert Insert(s, x, key) == [s[0]] + Insert(s[1..], x, key);
    }
  }

  lemma {:induction false} InsertSorted<T>(s: seq<T>, x: T, key: T -> int)
    requires Sorted(s, key)
    ensures Sorted(Insert(s, x, key), key)
    decreases |s|
  {
    if s != [] && key(x) >= key(s[0]) {
      var rest := Insert(s[1..], x, key);
      InsertSorted(s[1..], x, key);
      InsertKeysAbove(s[1..], x, key, key(s[0]));
      assert Insert(s, x, key) == [s[0]] + rest;
    }
  }

  lemma WithKeyCons<T>(y: T, s: seq<T>, key: T -> int, k: int)
    ensures WithKey([y] + s, key, k) == WithKey([y], key, k) + WithKey(s, key, k)
  {
    assert ([y] + s)[0] == y && ([y] + s)[1..] == s;
    WithKeySingle(y, key, k);
  }

  /** Putting `x` before a sorted list whose keys all exceed its own. */
  lemma InsertWithKeyFront<T>(s: seq<T>, x: T, key: T -> int, k: int)
    requires Sorted(s, key) && s != [] && key(x) < key(s[0])
    ensures WithKey([x] + s, key, k) == WithKey(s, key, k) + WithKey([x], key, k)
  {
    WithKeyCons(x, s, key, k);
    WithKeySingle(x, key, k);
    if k == key(x) {
      forall i | 0 <= i < |s| ensures key(s[i]) != k {
        if i > 0 { assert key(s[0]) <= key(s[i]); }
      }
      WithKeyNone(s, key, k);
    }
  }

  /** Inserting past the head `s[0]` keeps the head in front of the keyed elements. */
  lemma InsertWithKeyStep<T>(s: seq<T>, x: T, key: T -> int, k: int)
    requires s != [] && key(x) >= key(s[0])
    requires WithKey(Insert(s[1..], x, key), key, k) == WithKey(s[1..], key, k) + WithKey([x], key, k)
    ensures WithKey(Insert(s, x, key), key, k) == WithKey(s, key, k) + WithKey([x], key, k)
  {
    var rest := Insert(s[1..], x, key);
    assert Insert(s, x, key) == [s[0]] + rest;
    WithKeyCons(s[0], rest, key, k);
    WithKeyCons(s[0], s[1..], key, k);
    assert s == [s[0]] + s[1..];
    var h, t, w := WithKey([s[0]], key, k), WithKey(s[1..], key, k), WithKey([x], key, k);
    assert h + (t + w) == (h + t) + w;
  }

  lemma {:induction false} InsertWithKey<T>(s: seq<T>, x: T, key: T -> int, k: int)
    requires Sorted(s, key)
    ensures WithKey(Insert(s, x, key), key, k) == WithKey(s, key, k) + WithKey([x], key, k)
    decreases |s|
  {
    if s == [] {
      assert Insert(s, x, key) == [x];
    } else if key(x) < key(s[0]) {
      assert Insert(s, x, key) == [x] + s;
      InsertWithKeyFront(s, x, key, k);
    } else {
      InsertWithKey(s[1..], x, key, k);
      InsertWithKeyStep(s, x, key, k);
    }
  }

  /** Insertion sort from the back: each element goes after the equal keys already placed. */
  function SortBy<T>(s: seq<T>, key: T -> int): (r: seq<T>)
    ensures multiset(r) == multiset(s) && |r| == |s|
    decreases |s|
  {
    if s == [] then []
    else
      var r := Insert(SortBy(s[..|s| - 1], key), s[|s| - 1], key);
      InsertPermutes(SortBy(s[..|s| - 1], key), s[|s| - 1], key);
      assert s == s[..|s| - 1] + [s[|s| - 1]];
      r
  }

  /** The result is ordered by key and lists the elements of each key in their input order. */
  lemma {:induction false} SortIsStable<T>(s: seq<T>, key: T -> int)
    ensures Sorted(SortBy(s, key), key)
    ensures SameOrderPerKey(SortBy(s, key), s, key)
    decreases |s|
  {
    if s != [] {
      var front, last := s[..|s| - 1], s[|s| - 1];
      SortIsStable(front, key);
      var sf := SortBy(front, key);
      InsertSorted(sf, last, key);
      assert s == front + [last];
      forall k ensures WithKey(SortBy(s, key), key, k) == WithKey(s, key, k) {
        InsertWithKey(sf, last, key, k);
        WithKeyAppend(front, [last], key, k);
      }
    }
  }

  /** Two sorted lists that list the elements of every key in the same order are equal. */
  lemma {:induction false} SortedUnique<T>(r: seq<T>, s: seq<T>, key: T -> int)
    requires Sorted(r, key) && Sorted(s, key) && SameOrderPerKey(r, s, key)
    ensures r == s
    decreases |r|
  {
    assert r == [] <==> s == [] by {
      if r != [] { assert WithKey(r, key, key(r[0])) != []; }
      if s != [] { assert WithKey(s, key, key(s[0])) != []; }
    }
    if r != [] {
      var a, b := key(r[0]), key(s[0]);
      assert WithKey(s, key, a) != [] by { assert WithKey(r, key, a) != []; }
      WithKeyFound(s, key, a);
      assert WithKey(r, key, b) != [] by { assert WithKey(s, key, b) != []; }
      WithKeyFound(r, key, b);
      assert a == b;
      assert r[0] == WithKey(r, key, a)[0] == WithKey(s, key, a)[0] == s[0];
      assert SameOrderPerKey(r[1..], s[1..], key) by {
        forall k ensures WithKey(r[1..], key, k) == WithKey(s[1..], key, k) {
          var wr, ws := WithKey(r[1..], key, k), WithKey(s[1..], key, k);
          if k == a {
            assert WithKey(r, key, k) == [r[0]] + wr;
            assert WithKey(s, key, k) == [s[0]] + ws;
            assert wr == ([r[0]] + wr)[1..];
            assert ws == ([s[0]] + ws)[1..];
          } else {
            assert WithKey(r, key, k) == wr;
            assert WithKey(s, key, k) == ws;
          }
        }
      }
      SortedUnique(r[1..], s[1..], key);
      assert r == [r[0]] + r[1..] && s == [s[0]] + s[1..];
    }
  }

  /** Sorting a sorted list leaves it as it is. */
  lemma SortSortedIdentity<T>(s: seq<T>, key: T -> int)
    requires Sorted(s, key)
    ensures SortBy(s, key) == s
  {
    SortIsStable(s, key);
    SortedUnique(SortBy(s, key), s, key);
  }

  /**
   * Push followed by the sort: the pushed element lands after every element
   * of the same key that was already there, and the other keys keep their order.
   */
  lemma PushThenSortPlacesLast<T>(s: seq<T>, x: T, key: T -> int)
    ensures WithKey(SortBy(s + [x], key), key, key(x)) == WithKey(s, key, key(x)) + [x]
    ensures forall k :: k != key(x) ==> WithKey(SortBy(s + [x], key), key, k) == WithKey(s, key, k)
  {
    var t := s + [x];
    SortIsStable(t, key);
    forall k ensures WithKey(SortBy(t, key), key, k) == WithKey(s, key, k) + (if key(x) == k then [x] else []) {
      assert WithKey(SortBy(t, key), key, k) == WithKey(t, key, k);
      WithKeyAppend(s, [x], key, k);
      WithKeySingle(x, key, k);
    }
  }

  /** Moving the element at `i` to the end keeps the per-key order when no later element shares its key. */
  lemma MoveToEndSameOrder<T>(s: seq<T>, i: nat, key: T -> int)
    requires i < |s|
    requires forall j :: i < j < |s| ==> key(s[j]) != key(s[i])
    ensures SameOrderPerKey(s[..i] + s[i + 1..] + [s[i]], s, key)
  {
    var x := s[i];
    var a, b := s[..i], s[i + 1..];
    assert s == a + [x] + b;
    forall k ensures WithKey(a + b + [x], key, k) == WithKey(s, key, k) {
      WithKeyAppend(a + b, [x], key, k);
      WithKeyAppend(a, b, key, k);
      WithKeyAppend(a + [x], b, key, k);
      WithKeyAppend(a, [x], key, k);
      WithKeySingle(x, key, k);
      if k == key(x) {
        forall j | 0 <= j < |b| ensures key(b[j]) != k {
          assert b[j] == s[i + 1 + j];
        }
        WithKeyNone(b, key, k);
      }
    }
  }

  /**
   * Taking the element at `i` out of a sorted list and pushing it back, then
   * sorting, gives the list back when no later element has the same key.
   */
  lemma ReinsertInOwnPlace<T>(s: seq<T>, i: nat, key: T -> int)
    requires i < |s| && Sorted(s, key)
    requires forall j :: i < j < |s| ==> key(s[j]) != key(s[i])
    ensures SortBy(s[..i] + s[i + 1..] + [s[i]], key) == s
  {
    var t := s[..i] + s[i + 1..] + [s[i]];
    SortIsStable(t, key);
    MoveToEndSameOrder(s, i, key);
    assert SameOrderPerKey(SortBy(t, key), s, key) by {
      forall k ensures WithKey(SortBy(t, key), key, k) == WithKey(s, key, k) {
        assert WithKey(SortBy(t, key), key, k) == WithKey(t, key, k);
      }
    }
    SortedUnique(SortBy(t, key), s, key);
  }
}
