/**
 * The string primitives the city normalisers use: Python's `str.strip()` and
 * `str.lower()` / `str.casefold()`, restricted to ASCII.
 */
module Text {

  /** `c.isspace()` on ASCII: space, \t \n \v \f \r, and the separators \x1c..\x1f. */
  predicate IsSpace(c: char) {
    var n := c as int;
    n == 32 || 9 <= n <= 13 || 28 <= n <= 31
  }

  predicate AllSpace(s: string) {
    forall i :: 0 <= i < |s| ==> IsSpace(s[i])
  }

  /** Neither end of `s` is whitespace (the empty string included). */
  predicate Stripped(s: string) {
    s == [] || (!IsSpace(s[0]) && !IsSpace(s[|s| - 1]))
  }

  /** Drops leading whitespace: the result is a suffix of `s`, and what was dropped is whitespace. */
  function TrimStart(s: string): (r: string)
    ensures |r| <= |s| && r == s[|s| - |r|..]
    ensures AllSpace(s[..|s| - |r|])
    ensures r == [] || !IsSpace(r[0])
  {
    if |s| > 0 && IsSpace(s[0]) then
      var r := TrimStart(s[1..]);
      assert s[..|s| - |r|] == [s[0]] + s[1..][..|s| - 1 - |r|];
      r
    else s
  }

  /** Drops trailing whitespace: the result is a prefix of `s`, and what was dropped is whitespace. */
  function TrimEnd(s: string): (r: string)
    ensures |r| <= |s| && r == s[..|r|]
    ensures AllSpace(s[|r|..])
    ensures r == [] || !IsSpace(r[|r| - 1])
  {
    if |s| > 0 && IsSpace(s[|s| - 1]) then
      var r := TrimEnd(s[..|s| - 1]);
      assert s[|r|..] == s[..|s| - 1][|r|..] + [s[|s| - 1]];
      r
    else s
  }

  /** Python's `s.strip()`: a slice of `s` with only whitespace around it, and no whitespace at its ends. */
  function Strip(s: string): (r: string)
    ensures Stripped(r)
    ensures SpaceAround(r, s)
  {
    var t := TrimStart(s);
    var r := TrimEnd(t);
    TrimBoth(s, t, r);
    r
  }

  /** `r` is a slice of `s` with only whitespace before and after it. */
  predicate SpaceAround(r: string, s: string) {
    exists i, j :: 0 <= i <= j <= |s| && r == s[i..j] && AllSpace(s[..i]) && AllSpace(s[j..])
  }

  /**
   * A suffix `t` of `s` after leading whitespace, then a prefix `r` of `t`
   * before trailing whitespace, is a stripped slice of `s` with only
   * whitespace around it.
   */
  lemma TrimBoth(s: string, t: string, r: string)
    requires |t| <= |s| && t == s[|s| - |t|..] && AllSpace(s[..|s| - |t|]) && (t == [] || !IsSpace(t[0]))
    requires |r| <= |t| && r == t[..|r|] && AllSpace(t[|r|..]) && (r == [] || !IsSpace(r[|r| - 1]))
    ensures Stripped(r) && SpaceAround(r, s)
  {
    assert r != [] ==> r[0] == t[0];
    var i, j := |s| - |t|, |s| - |t| + |r|;
    assert t == s[i..] && r == t[..|r|];
    forall k | 0 <= k < |r| ensures r[k] == s[i..j][k] {
      assert r[k] == t[k] == s[i + k];
    }
    assert r == s[i..j];
    forall k | 0 <= k < |s| - j ensures s[j..][k] == t[|r|..][k] {
      assert t[|r| + k] == s[j + k];
    }
    assert s[j..] == t[|r|..];
    assert 0 <= i <= j <= |s| && AllSpace(s[..i]) && AllSpace(s[j..]);
  }

  lemma {:induction false} TrimStartPadded(pre: string, w: string)
    requires AllSpace(pre) && (w == [] || !IsSpace(w[0]))
    ensures TrimStart(pre + w) == w
  {
    if pre != [] {
      assert (pre + w)[1..] == pre[1..] + w;
      TrimStartPadded(pre[1..], w);
    }
  }

  lemma {:induction false} TrimEndPadded(w: string, post: string)
    requires AllSpace(post) && (w == [] || !IsSpace(w[|w| - 1]))
    ensures TrimEnd(w + post) == w
  {
    if post != [] {
      var s := w + post;
      assert s[..|s| - 1] == w + post[..|post| - 1];
      TrimEndPadded(w, post[..|post| - 1]);
    } else {
      assert w + post == w;
    }
  }

  /** Stripping finds exactly the text between whitespace padding. */
  lemma StripPadded(pre: string, w: string, post: string)
    requires AllSpace(pre) && AllSpace(post) && Stripped(w)
    ensures Strip(pre + w + post) == w
  {
    var s := pre + w + post;
    if w == [] {
      assert s == pre + post;
      StripAllSpace(s);
    } else {
      assert s == pre + (w + post);
      TrimStartPadded(pre, w + post);
      TrimEndPadded(w, post);
    }
  }

  /** A stripped string is its own strip: `strip` is idempotent. */
  lemma StripOfStripped(s: string)
    requires Stripped(s)
    ensures Strip(s) == s
  {
    StripPadded([], s, []);
    assert [] + s + [] == s;
  }

  /** Stripping yields the empty string exactly when the input is all whitespace. */
  lemma StripAllSpace(s: string)
    ensures Strip(s) == [] <==> AllSpace(s)
  {
    EmptyCoreAllSpace(Strip(s), s);
  }

  /** A stripped slice with only whitespace around it is empty exactly when everything is whitespace. */
  lemma EmptyCoreAllSpace(r: string, s: string)
    requires Stripped(r) && SpaceAround(r, s)
    ensures r == [] <==> AllSpace(s)
  {
    var i, j :| 0 <= i <= j <= |s| && r == s[i..j] && AllSpace(s[..i]) && AllSpace(s[j..]);
    if r != [] {
      assert r[0] == s[i] && !IsSpace(s[i]);
    } else {
      assert i == j;
      forall k | 0 <= k < |s| ensures IsSpace(s[k]) {
        if k < i { assert s[..i][k] == s[k]; } else { assert s[j..][k - j] == s[k]; }
      }
    }
  }

  function LowerChar(c: char): char {
    if 'A' <= c <= 'Z' then (c as int + 32) as char else c
  }

  /**
   * Python's `s.lower()` on ASCII; `s.casefold()` agrees with it there.
   * Every upper-case letter becomes lower-case, everything else is kept.
   */
  function Lower(s: string): (r: string)
    ensures |r| == |s|
    ensures forall i :: 0 <= i < |s| ==> r[i] == LowerChar(s[i])
  {
    seq(|s|, i requires 0 <= i < |s| => LowerChar(s[i]))
  }
}
