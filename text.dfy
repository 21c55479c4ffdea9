/**
 * JavaScript's `String.prototype.trim`, used by operator renaming and by
 * work-site creation to reject blank names.
 */
module Text {

  /** JavaScript's WhiteSpace and LineTerminator code points, the set `trim` removes. */
  predicate IsWhitespace(c: char)
  {
    || c == '\t' || c == '\n' || c == '\U{000B}' || c == '\U{000C}' || c == '\r'
    || c == ' ' || c == '\U{00A0}' || c == '\U{1680}'
    || ('\U{2000}' <= c <= '\U{200A}')
    || c == '\U{2028}' || c == '\U{2029}' || c == '\U{202F}' || c == '\U{205F}'
    || c == '\U{3000}' || c == '\U{FEFF}'
  }

  predicate AllWhitespace(s: string)
  {
    WhitespaceBetween(s, 0, |s|)
  }

  /** Every character of `s` at a position in [lo, hi) is whitespace. */
  predicate WhitespaceBetween(s: string, lo: int, hi: int)
  {
    forall i :: lo <= i < hi && 0 <= i < |s| ==> IsWhitespace(s[i])
  }

  /** Drops leading whitespace: the result is the longest suffix that does not start with whitespace. */
  function TrimStart(s: string): (r: string)
    ensures |r| <= |s| && r == s[|s| - |r|..]
    ensures WhitespaceBetween(s, 0, |s| - |r|)
    ensures r == [] || !IsWhitespace(r[0])
    decreases |s|
  {
    if |s| > 0 && IsWhitespace(s[0]) then
      var r := TrimStart(s[1..]);
      assert WhitespaceBetween(s, 0, |s| - |r|) by {
        forall i | 0 < i < |s| - |r| ensures IsWhitespace(s[i]) {
          assert s[i] == s[1..][i - 1];
        }
      }
      r
    else s
  }

  /** Drops trailing whitespace: the result is the longest prefix that does not end with whitespace. */
  function TrimEnd(s: string): (r: string)
    ensures |r| <= |s| && r == s[..|r|]
    ensures WhitespaceBetween(s, |r|, |s|)
    ensures r == [] || !IsWhitespace(r[|r| - 1])
    decreases |s|
  {
    if |s| > 0 && IsWhitespace(s[|s| - 1]) then
      var r := TrimEnd(s[..|s| - 1]);
      assert WhitespaceBetween(s, |r|, |s|) by {
        forall i | |r| <= i < |s| - 1 ensures IsWhitespace(s[i]) {
          assert s[i] == s[..|s| - 1][i];
        }
      }
      r
    else s
  }

  /** `s.trim()`: the input with whitespace removed from both ends. */
  function Trim(s: string): (r: string)
    ensures exists i ::
              && 0 <= i <= |s| - |r| && r == s[i..i + |r|]
              && WhitespaceBetween(s, 0, i) && WhitespaceBetween(s, i + |r|, |s|)
    ensures r == [] || (!IsWhitespace(r[0]) && !IsWhitespace(r[|r| - 1]))
  {
    var a := TrimStart(s);
    var r := TrimEnd(a);
    TrimWindow(s, a, r);
    r
  }

  /** Where a prefix `r` of a suffix `a` of `s` sits inside `s`, and that only whitespace surrounds it. */
  lemma TrimWindow(s: string, a: string, r: string)
    requires |a| <= |s| && a == s[|s| - |a|..] && WhitespaceBetween(s, 0, |s| - |a|)
    requires |r| <= |a| && r == a[..|r|] && WhitespaceBetween(a, |r|, |a|)
    requires a == [] || !IsWhitespace(a[0])
    requires r == [] || !IsWhitespace(r[|r| - 1])
    ensures exists i ::
              && 0 <= i <= |s| - |r| && r == s[i..i + |r|]
              && WhitespaceBetween(s, 0, i) && WhitespaceBetween(s, i + |r|, |s|)
    ensures r == [] || (!IsWhitespace(r[0]) && !IsWhitespace(r[|r| - 1]))
  {
    var i := |s| - |a|;
    assert r == s[i..][..|r|];
    WhitespaceInSuffix(s, i, |r|, |a|);
    assert r != [] ==> r[0] == a[0];
  }

  /** Whitespace found in the suffix `s[i..]` is whitespace of `s`, shifted by `i`. */
  lemma WhitespaceInSuffix(s: string, i: nat, lo: int, hi: int)
    requires i <= |s| && 0 <= lo && WhitespaceBetween(s[i..], lo, hi)
    ensures WhitespaceBetween(s, i + lo, i + hi)
  {
    forall j | i + lo <= j < i + hi && 0 <= j < |s| ensures IsWhitespace(s[j]) {
      assert s[j] == s[i..][j - i];
    }
  }

  /** A name is rejected exactly when it consists of whitespace only (the empty string included). */
  lemma TrimEmptyIffBlank(s: string)
    ensures Trim(s) == [] <==> AllWhitespace(s)
  {
    var a := TrimStart(s);
    var n := |s| - |a|;
    if a != [] {
      assert a[0] == s[n];
    }
  }

  /** Trimming twice is trimming once. */
  lemma TrimIdempotent(s: string)
    ensures Trim(Trim(s)) == Trim(s)
  {
    var r := Trim(s);
    if r != [] {
      assert TrimStart(r) == r;
      assert TrimEnd(r) == r;
    }
  }
}
