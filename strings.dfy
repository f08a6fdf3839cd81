/** Python's `str.strip()` with no argument: remove leading and trailing whitespace. */
module Strings {

  /** The characters for which Python's `str.isspace()` holds. */
  predicate IsSpace(c: char)
  {
    || ('\t' <= c <= '\r')
    || ('\U{1C}' <= c <= '\U{1F}')
    || c == ' '
    || c == '\U{85}'
    || c == '\U{A0}'
    || c == '\U{1680}'
    || ('\U{2000}' <= c <= '\U{200A}')
    || c == '\U{2028}'
    || c == '\U{2029}'
    || c == '\U{202F}'
    || c == '\U{205F}'
    || c == '\U{3000}'
  }

  predicate AllSpace(s: string)
  {
    forall k :: 0 <= k < |s| ==> IsSpace(s[k])
  }

  /** `r` is the slice of `s` starting at `i`, with only whitespace around it. */
  predicate SliceAmidSpace(s: string, r: string, i: int)
  {
    0 <= i <= |s| - |r| && r == s[i..i + |r|] && AllSpace(s[..i]) && AllSpace(s[i + |r|..])
  }

  /** `s.lstrip()`: the suffix left after dropping the leading whitespace. */
  function StripStart(s: string): (r: string)
    ensures |r| <= |s| && r == s[|s| - |r|..]
    ensures AllSpace(s[..|s| - |r|])
    ensures r == [] || !IsSpace(r[0])
  {
    if s != [] && IsSpace(s[0]) then
      var r := StripStart(s[1..]);
      SpaceBefore(s, r);
      r
    else s
  }

  /** `s.rstrip()`: the prefix left after dropping the trailing whitespace. */
  function StripEnd(s: string): (r: string)
    ensures |r| <= |s| && r == s[..|r|]
    ensures AllSpace(s[|r|..])
    ensures r == [] || !IsSpace(r[|r| - 1])
  {
    if s != [] && IsSpace(s[|s| - 1]) then
      var r := StripEnd(s[..|s| - 1]);
      SpaceAfter(s, r);
      r
    else s
  }

  /** A suffix of `s[1..]` with only whitespace before it, behind a leading
      whitespace character, is a suffix of `s` with only whitespace before it. */
  lemma SpaceBefore(s: string, r: string)
    requires s != [] && IsSpace(s[0])
    requires |r| <= |s| - 1 && r == s[1..][|s| - 1 - |r|..]
    requires AllSpace(s[1..][..|s| - 1 - |r|])
    ensures r == s[|s| - |r|..] && AllSpace(s[..|s| - |r|])
  {
    assert s[..|s| - |r|] == [s[0]] + s[1..][..|s| - 1 - |r|];
    AllSpaceConcat([s[0]], s[1..][..|s| - 1 - |r|]);
  }

  /** The mirror image of `SpaceBefore` for a trailing whitespace character. */
  lemma SpaceAfter(s: string, r: string)
    requires s != [] && IsSpace(s[|s| - 1])
    requires |r| <= |s| - 1 && r == s[..|s| - 1][..|r|]
    requires AllSpace(s[..|s| - 1][|r|..])
    ensures r == s[..|r|] && AllSpace(s[|r|..])
  {
    assert s[|r|..] == s[..|s| - 1][|r|..] + [s[|s| - 1]];
    AllSpaceConcat(s[..|s| - 1][|r|..], [s[|s| - 1]]);
  }

  lemma AllSpaceConcat(a: string, b: string)
    requires AllSpace(a) && AllSpace(b)
    ensures AllSpace(a + b)
  {
    forall k | 0 <= k < |a + b| ensures IsSpace((a + b)[k]) {
      if k >= |a| {
        assert (a + b)[k] == b[k - |a|];
      }
    }
  }

  /** `s.strip()`: a slice of `s` with only whitespace outside it, and no
      whitespace at either of its own ends. */
  function Strip(s: string): (r: string)
    ensures exists i :: SliceAmidSpace(s, r, i)
    ensures r == [] || (!IsSpace(r[0]) && !IsSpace(r[|r| - 1]))
  {
    var t := StripStart(s);
    var r := StripEnd(t);
    TrimmedIsSlice(s, t, r);
    r
  }

  /** Cutting leading whitespace and then trailing whitespace leaves a slice
      with only whitespace around it. */
  lemma TrimmedIsSlice(s: string, t: string, r: string)
    requires |t| <= |s| && t == s[|s| - |t|..] && AllSpace(s[..|s| - |t|])
    requires t == [] || !IsSpace(t[0])
    requires |r| <= |t| && r == t[..|r|] && AllSpace(t[|r|..])
    requires r == [] || !IsSpace(r[|r| - 1])
    ensures exists i :: SliceAmidSpace(s, r, i)
    ensures r == [] || (!IsSpace(r[0]) && !IsSpace(r[|r| - 1]))
  {
    var i := |s| - |t|;
    assert r == s[i..i + |r|];
    assert s[i + |r|..] == t[|r|..];
    assert SliceAmidSpace(s, r, i);
    if r != [] {
      assert r[0] == t[0];
    }
  }

  /** Stripping twice is stripping once. */
  lemma StripIdempotent(s: string)
    ensures Strip(Strip(s)) == Strip(s)
  {
    var r := Strip(s);
    assert StripStart(r) == r;
    assert StripEnd(r) == r;
  }

  /** Every character of a whitespace-only slice is whitespace. */
  lemma SpacesAt(s: string, lo: nat, hi: nat)
    requires lo <= hi <= |s|
    requires AllSpace(s[lo..hi])
    ensures forall m :: lo <= m < hi ==> IsSpace(s[m])
  {
    forall m | lo <= m < hi ensures IsSpace(s[m]) {
      assert s[lo..hi][m - lo] == s[m];
    }
  }

  /** Any slice with only whitespace around it and none at its own ends is
      what `strip` returns: the two contracts above pin the result down. */
  lemma StripUnique(s: string, i: nat, j: nat)
    requires i <= j <= |s|
    requires AllSpace(s[..i]) && AllSpace(s[j..])
    requires i == j || (!IsSpace(s[i]) && !IsSpace(s[j - 1]))
    ensures Strip(s) == s[i..j] || (i == j && Strip(s) == [])
  {
    var r := Strip(s);
    var k :| SliceAmidSpace(s, r, k);
    TrimmedSlicesAgree(s, r, k, i, j);
  }

  lemma TrimmedSlicesAgree(s: string, r: string, k: nat, i: nat, j: nat)
    requires SliceAmidSpace(s, r, k)
    requires r == [] || (!IsSpace(r[0]) && !IsSpace(r[|r| - 1]))
    requires i <= j <= |s|
    requires AllSpace(s[..i]) && AllSpace(s[j..])
    requires i == j || (!IsSpace(s[i]) && !IsSpace(s[j - 1]))
    ensures r == s[i..j] || (i == j && r == [])
  {
    assert s[..k] == s[0..k] && s[k + |r|..] == s[k + |r|..|s|];
    assert s[..i] == s[0..i] && s[j..] == s[j..|s|];
    SpacesAt(s, 0, k);
    SpacesAt(s, k + |r|, |s|);
    SpacesAt(s, 0, i);
    SpacesAt(s, j, |s|);
    if i < j {
      assert IsSpace(s[i]) || (k <= i < k + |r|);
      var last := |r| - 1;
      assert r[0] == s[k];
      assert r[last] == s[k..k + |r|][last];
      assert k == i;
      assert IsSpace(s[j - 1]) || (k <= j - 1 < k + |r|);
      assert k + |r| == j;
    }
  }
}
