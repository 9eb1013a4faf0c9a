/**
 * The response parser: `parse_code` pulls the code out of a model reply with
 * `re.search(r"```python(.*)```", rsp, re.DOTALL)` and falls back to the
 * whole reply. Only this one pattern is modelled, spelled out as literal
 * search: the leftmost opener that has a closer after it, then (because
 * `.*` is greedy and DOTALL lets it cross lines) the LAST closer after it.
 */
module ResponseParser {
  import opened Wrappers
  import opened Text

  /** The literal text the pattern starts with; the language tag is required. */
  const Opener: string := "```python"

  /** The literal text the pattern ends with. */
  const Fence: string := "```"

  /** The pattern matches `s[p..q + |Fence|]`, capturing `s[p + |Opener|..q]`. */
  ghost predicate MatchesAt(s: string, p: int, q: int) {
    OccursAt(s, Opener, p) && p + |Opener| <= q && OccursAt(s, Fence, q)
  }

  /** `re.search` finds something at all. */
  ghost predicate HasMatch(s: string) {
    exists p, q :: MatchesAt(s, p, q)
  }

  /** The match `re.search` reports: the leftmost start at which the pattern
      matches, and for that start the longest body (greedy `.*`). */
  ghost predicate IsSearchResult(s: string, p: int, q: int) {
    && MatchesAt(s, p, q)
    && (forall p', q' :: MatchesAt(s, p', q') ==> p <= p' && (p' == p ==> q' <= q))
  }

  /** At most one match is the reported one. */
  lemma SearchResultUnique(s: string, p: int, q: int, p': int, q': int)
    requires IsSearchResult(s, p, q) && IsSearchResult(s, p', q')
    ensures p == p' && q == q'
  {
  }

  /** The search itself: the first opener, then the last closer that starts
      after that opener ends. */
  function Search(s: string): (m: Option<(nat, nat)>)
    ensures m.Some? ==> IsSearchResult(s, m.value.0, m.value.1)
    ensures m.None? ==> !HasMatch(s)
  {
    match FindFirst(s, Opener, 0)
    case None => None
    case Some(p) =>
      match FindLast(s, Fence, p + |Opener|)
      case None => None
      case Some(q) => Some((p, q))
  }

  /** `parse_code`: the stripped captured body when the pattern matches,
      otherwise the stripped reply. It never fails. */
  function ParseCode(rsp: string): (code: string)
    ensures Trimmed(code)
    ensures !HasMatch(rsp) ==> code == Strip(rsp)
    ensures forall p, q :: IsSearchResult(rsp, p, q) ==> code == Strip(rsp[p + |Opener|..q])
  {
    match Search(rsp)
    case Some((p, q)) =>
      assert forall p', q' :: IsSearchResult(rsp, p', q') ==> p' == p && q' == q;
      Strip(rsp[p + |Opener|..q])
    case None => Strip(rsp)
  }

  /** A part of a reply without a match has no match either. */
  lemma NoMatchInSlice(s: string, i: int, j: int)
    requires !HasMatch(s) && 0 <= i <= j <= |s|
    ensures !HasMatch(s[i..j])
  {
    var t := s[i..j];
    forall p, q | MatchesAt(t, p, q)
      ensures MatchesAt(s, i + p, i + q)
    {
      SliceOfSlice(s, i, j, p, |Opener|);
      SliceOfSlice(s, i, j, q, |Fence|);
    }
  }

  lemma SliceOfSlice(s: string, i: int, j: int, k: int, n: int)
    requires 0 <= i <= j <= |s| && 0 <= k && 0 <= n && k + n <= j - i
    ensures s[i..j][k..k + n] == s[i + k..i + k + n]
  {
    var u, v := s[i..j][k..k + n], s[i + k..i + k + n];
    assert |u| == n == |v|;
    forall m | 0 <= m < n ensures u[m] == v[m] {
      assert u[m] == s[i..j][k + m] == s[i + k + m];
    }
  }

  /** Without a fenced block, parsing the parser's own output changes nothing. */
  lemma ParseCodeIdempotentOnFallback(rsp: string)
    requires !HasMatch(rsp)
    ensures ParseCode(ParseCode(rsp)) == ParseCode(rsp)
  {
    var (i, j) := StripBounds(rsp);
    NoMatchInSlice(rsp, i, j);
    StripIdempotent(rsp);
  }

  /** Whenever the extracted code holds no further fenced block, parsing it
      again returns it unchanged. */
  lemma ParseCodeStable(rsp: string)
    requires !HasMatch(ParseCode(rsp))
    ensures ParseCode(ParseCode(rsp)) == ParseCode(rsp)
  {
    StripTrimmed(ParseCode(rsp));
  }

  /** Every occurrence of `Fence` (and so of `Opener`) covers three backticks. */
  lemma FenceBackticks(s: string, pat: string, k: int)
    requires OccursAt(s, pat, k) && |pat| >= 3 && pat[..3] == Fence
    ensures s[k] == '`' && s[k + 1] == '`' && s[k + 2] == '`'
  {
    assert s[k..k + |pat|][..3] == Fence;
  }

  /** A reply made of backtick-free text `a`, an opener, any `body`, a closer
      and backtick-free text `c` parses to the stripped `body`, whatever
      fences `body` itself contains. */
  lemma ParseCodeEnclosed(a: string, body: string, c: string)
    requires '`' !in a && '`' !in c
    ensures ParseCode(a + Opener + body + Fence + c) == Strip(body)
  {
    var s := a + Opener + body + Fence + c;
    EnclosedSearchResult(s, a, body, c);
    assert s[|a| + |Opener|..|a| + |Opener| + |body|] == body;
  }

  /** The search result for such a reply: the opener right after `a`, the
      closer right before `c`. */
  lemma EnclosedSearchResult(s: string, a: string, body: string, c: string)
    requires s == a + Opener + body + Fence + c
    requires '`' !in a && '`' !in c
    ensures IsSearchResult(s, |a|, |a| + |Opener| + |body|)
  {
    var p, q := |a|, |a| + |Opener| + |body|;
    assert s[p..p + |Opener|] == Opener;
    assert s[q..q + |Fence|] == Fence;
    forall p', q' | MatchesAt(s, p', q')
      ensures p <= p' && (p' == p ==> q' <= q)
    {
      FenceBackticks(s, Opener, p');
      BacktickNotIn(s, a, s[|a|..], p');
      FenceBackticks(s, Fence, q');
      BacktickNotIn(s, s[..q + |Fence|], c, q' + 2);
    }
  }

  /** A backtick of `pre + post` where `pre` has none lies in `post`, and
      one where `post` has none lies in `pre`. */
  lemma BacktickNotIn(s: string, pre: string, post: string, k: int)
    requires s == pre + post && 0 <= k < |s| && s[k] == '`'
    ensures '`' !in pre ==> |pre| <= k
    ensures '`' !in post ==> k < |pre|
  {
    if k < |pre| {
      assert s[k] == pre[k];
    } else {
      assert s[k] == post[k - |pre|];
    }
  }

  /** A block laid out as the prompt asks for it (opener, newline, code,
      newline, closer) between backtick-free text yields exactly the code. */
  lemma ParseCodeSingleBlock(rsp: string, a: string, code: string, c: string)
    requires rsp == a + "```python\n" + code + "\n```" + c
    requires '`' !in a && '`' !in c && Trimmed(code)
    ensures ParseCode(rsp) == code
  {
    assert rsp == a + Opener + ("\n" + code + "\n") + Fence + c;
    ParseCodeEnclosed(a, "\n" + code + "\n", c);
    assert AllSpace("\n");
    StripPadded("\n", code, "\n");
    StripTrimmed(code);
  }

  /** A reply that is nothing but one such block yields exactly the code. */
  lemma ParseCodeBareBlock(rsp: string, code: string)
    requires rsp == "```python\n" + code + "\n```"
    requires Trimmed(code)
    ensures ParseCode(rsp) == code
  {
    assert rsp == "" + "```python\n" + code + "\n```" + "";
    ParseCodeSingleBlock(rsp, "", code, "");
  }
}
