/** The two pieces of Rust's `str` API the server relies on when it cuts the
    HTML shell in two: `find` (the index of the first occurrence of a pattern)
    and `split_once` (the text before and after that first occurrence, with the
    pattern itself removed from both halves). Strings are sequences of
    characters, so indices here count characters rather than UTF-8 bytes. */
module Text {

  datatype Option<T> = None | Some(value: T)

  /** `pat` occurs in `s` starting at index `i`. */
  predicate OccursAt(s: string, pat: string, i: nat) {
    i + |pat| <= |s| && s[i..i + |pat|] == pat
  }

  /** `pat` occurs somewhere in `s`. */
  ghost predicate Contains(s: string, pat: string) {
    exists i: nat :: i <= |s| && OccursAt(s, pat, i)
  }

  /** The first index at or after `from` where `pat` occurs, if any. */
  function FindFrom(s: string, pat: string, from: nat): (r: Option<nat>)
    requires from <= |s|
    ensures r.Some? ==> from <= r.value && OccursAt(s, pat, r.value)
    ensures r.Some? ==> forall j: nat :: from <= j < r.value ==> !OccursAt(s, pat, j)
    ensures r.None? ==> forall j: nat :: from <= j <= |s| ==> !OccursAt(s, pat, j)
    decreases |s| - from
  {
    if OccursAt(s, pat, from) then Some(from)
    else if |s| <= from + |pat| then None
    else FindFrom(s, pat, from + 1)
  }

  /** `str::find`: the index of the first occurrence of `pat` in `s`. */
  function Find(s: string, pat: string): (r: Option<nat>)
    ensures r.None? <==> !Contains(s, pat)
    ensures r.Some? ==> OccursAt(s, pat, r.value)
    ensures r.Some? ==> forall j: nat :: j < r.value ==> !OccursAt(s, pat, j)
  {
    FindFrom(s, pat, 0)
  }

  /** `str::split_once`: cut `s` at the first occurrence of `pat`, dropping
      the pattern; `None` when `pat` does not occur. */
  function SplitOnce(s: string, pat: string): (r: Option<(string, string)>)
    ensures r.None? <==> !Contains(s, pat)
    ensures r.Some? ==> r.value.0 + pat + r.value.1 == s
    ensures r.Some? ==> Find(s, pat) == Some(|r.value.0|)
  {
    match Find(s, pat)
    case None => None
    case Some(i) =>
      assert s[i..i + |pat|] == pat;
      assert s[..i] + pat + s[i + |pat|..] == s[..i] + s[i..i + |pat|] + s[i + |pat|..];
      assert s[..i] + s[i..i + |pat|] + s[i + |pat|..] == s;
      Some((s[..i], s[i + |pat|..]))
  }

  /** An occurrence inside a prefix of `s` is an occurrence in `s` itself. */
  lemma OccursInPrefix(s: string, pat: string, n: nat, j: nat)
    requires n <= |s|
    requires OccursAt(s[..n], pat, j)
    ensures OccursAt(s, pat, j)
  {
    assert s[..n][j..j + |pat|] == s[j..j + |pat|];
  }

  /** An occurrence inside a suffix of `s` is an occurrence in `s` itself,
      shifted by where the suffix starts, and vice versa. */
  lemma OccursInSuffix(s: string, pat: string, n: nat, j: nat)
    requires n <= |s|
    ensures OccursAt(s[n..], pat, j) <==> OccursAt(s, pat, n + j)
  {
    if j + |pat| <= |s| - n {
      assert s[n..][j..j + |pat|] == s[n + j..n + j + |pat|];
    }
  }

  /** One mismatching character rules out an occurrence. */
  lemma MismatchNotOccurs(s: string, pat: string, i: nat, k: nat)
    requires k < |pat| && i + k < |s| && s[i + k] != pat[k]
    ensures !OccursAt(s, pat, i)
  {
    if i + |pat| <= |s| {
      assert s[i..i + |pat|][k] == s[i + k];
    }
  }
}
