/**
 * Character-level string helpers: Python's default whitespace test, the
 * no-argument `str.strip()`, and literal substring search.
 */
module Text {
  import opened Wrappers

  /** The characters Python's `str.isspace` accepts, which are exactly the ones
      a no-argument `str.strip()` removes. */
  predicate IsSpace(c: char) {
    || ('\t' <= c <= '\r')
    || ('\U{1C}' <= c <= '\U{1F}')
    || c == ' '
    || c == '\U{85}'
    || c == '\U{A0}'
    || c == '\U{1680}'
    || ('\U{2000}' <= c <= '\U{200A}')
    || c == '\U{2028}'
    || c == '\U{2029}'
    || c == '\U{202F}'
    || c == '\U{205F}'
    || c == '\U{3000}'
  }

  predicate AllSpace(s: string) {
    forall k :: 0 <= k < |s| ==> IsSpace(s[k])
  }

  /** No leading and no trailing whitespace. */
  predicate Trimmed(s: string) {
    |s| > 0 ==> !IsSpace(s[0]) && !IsSpace(s[|s| - 1])
  }

  /** `s[i..j]` is what is left of `s` once its leading and trailing
      whitespace is removed. */
  predicate IsStripWindow(s: string, i: int, j: int) {
    && 0 <= i <= j <= |s|
    && AllSpace(s[..i])
    && AllSpace(s[j..])
    && Trimmed(s[i..j])
  }

  /** The first index at or after `from` that is not whitespace, or `|s|`. */
  function SkipLeading(s: string, from: nat): (k: nat)
    requires from <= |s|
    ensures from <= k <= |s|
    ensures forall m :: from <= m < k ==> IsSpace(s[m])
    ensures k < |s| ==> !IsSpace(s[k])
    decreases |s| - from
  {
    if from == |s| || !IsSpace(s[from]) then from else SkipLeading(s, from + 1)
  }

  /** The least `k` in `[lo, hi]` such that `s[k..hi]` is all whitespace. */
  function SkipTrailing(s: string, lo: nat, hi: nat): (k: nat)
    requires lo <= hi <= |s|
    ensures lo <= k <= hi
    ensures forall m :: k <= m < hi ==> IsSpace(s[m])
    ensures lo < k ==> !IsSpace(s[k - 1])
    decreases hi - lo
  {
    if hi == lo || !IsSpace(s[hi - 1]) then hi else SkipTrailing(s, lo, hi - 1)
  }

  /** Any two strip windows of the same string select the same text. */
  lemma StripWindowUnique(s: string, i: int, j: int, i': int, j': int)
    requires IsStripWindow(s, i, j) && IsStripWindow(s, i', j')
    ensures s[i..j] == s[i'..j']
  {
    SpaceOutsideWindow(s, i, j);
    SpaceOutsideWindow(s, i', j');
    if i < j && i' < j' {
      // both windows run from the first to the last non-space character
      assert i == i' && j == j';
    }
  }

  /** Every character outside a strip window is whitespace, and a non-empty
      window starts and ends on non-whitespace. */
  lemma SpaceOutsideWindow(s: string, i: int, j: int)
    requires IsStripWindow(s, i, j)
    ensures forall k :: 0 <= k < i ==> IsSpace(s[k])
    ensures forall k :: j <= k < |s| ==> IsSpace(s[k])
    ensures i < j ==> !IsSpace(s[i]) && !IsSpace(s[j - 1])
  {
    forall k | 0 <= k < i ensures IsSpace(s[k]) {
      assert s[..i][k] == s[k];
    }
    forall k | j <= k < |s| ensures IsSpace(s[k]) {
      assert s[j..][k - j] == s[k];
    }
    if i < j {
      assert s[i..j][0] == s[i] && s[i..j][j - i - 1] == s[j - 1];
    }
  }

  /** The window a no-argument `str.strip()` keeps. */
  function StripBounds(s: string): (w: (nat, nat))
    ensures IsStripWindow(s, w.0, w.1)
  {
    var i := SkipLeading(s, 0);
    var j := SkipTrailing(s, i, |s|);
    assert forall m :: 0 <= m < i ==> s[..i][m] == s[m];
    assert forall m :: 0 <= m < |s| - j ==> s[j..][m] == s[j + m];
    (i, j)
  }

  /** Python's `s.strip()`: the text between the leading and the trailing run
      of whitespace. */
  function Strip(s: string): (r: string)
    ensures Trimmed(r)
    ensures |r| <= |s|
    ensures forall i, j :: IsStripWindow(s, i, j) ==> r == s[i..j]
    ensures r == [] <==> AllSpace(s)
  {
    var (i, j) := StripBounds(s);
    forall i', j' | IsStripWindow(s, i', j')
      ensures s[i..j] == s[i'..j']
    {
      StripWindowUnique(s, i, j, i', j');
    }
    SpaceOutsideWindow(s, i, j);
    s[i..j]
  }

  /** Stripping twice is stripping once. */
  lemma StripIdempotent(s: string)
    ensures Strip(Strip(s)) == Strip(s)
  {
    var r := Strip(s);
    assert r[0..|r|] == r;
    assert IsStripWindow(r, 0, |r|);
  }

  /** Whitespace added around a string does not change what it strips to. */
  lemma StripPadded(a: string, s: string, b: string)
    requires AllSpace(a) && AllSpace(b)
    ensures Strip(a + s + b) == Strip(s)
  {
    var (i, j) := StripBounds(s);
    var t := a + s + b;
    SpaceOutsideWindow(s, i, j);
    assert t[|a| + i..|a| + j] == s[i..j];
    assert t[..|a| + i] == a + s[..i];
    assert t[|a| + j..] == s[j..] + b;
    assert IsStripWindow(t, |a| + i, |a| + j);
  }

  /** A string with no surrounding whitespace strips to itself. */
  lemma StripTrimmed(s: string)
    requires Trimmed(s)
    ensures Strip(s) == s
  {
    assert s[0..|s|] == s;
    assert IsStripWindow(s, 0, |s|);
  }

  /** `pat` occurs in `s` starting at index `k`. */
  predicate OccursAt(s: string, pat: string, k: int) {
    0 <= k && k + |pat| <= |s| && s[k..k + |pat|] == pat
  }

  /** The first occurrence of `pat` in `s` at or after `from` (`str.find`). */
  function FindFirst(s: string, pat: string, from: nat): (r: Option<nat>)
    ensures r.Some? ==> from <= r.value && OccursAt(s, pat, r.value)
    ensures r.Some? ==> forall k :: from <= k < r.value ==> !OccursAt(s, pat, k)
    ensures r.None? ==> forall k :: from <= k ==> !OccursAt(s, pat, k)
    decreases |s| - from
  {
    if |s| < from + |pat| then None
    else if OccursAt(s, pat, from) then Some(from)
    else FindFirst(s, pat, from + 1)
  }

  /** The last occurrence of `pat` in `s` that starts at or after `from`. */
  function FindLast(s: string, pat: string, from: nat): (r: Option<nat>)
    ensures r.Some? ==> from <= r.value && OccursAt(s, pat, r.value)
    ensures r.Some? ==> forall k :: r.value < k ==> !OccursAt(s, pat, k)
    ensures r.None? ==> forall k :: from <= k ==> !OccursAt(s, pat, k)
    decreases |s| - from
  {
    if |s| < from + |pat| then None
    else match FindLast(s, pat, from + 1)
      case Some(k) => Some(k)
      case None => if OccursAt(s, pat, from) then Some(from) else None
  }
}
