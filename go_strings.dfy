/** Go's `strings.HasPrefix`, `HasSuffix`, `TrimPrefix` and `TrimSuffix`
    over strings modelled as sequences of characters. */
module GoStrings {

  predicate HasPrefix(s: string, prefix: string) {
    |prefix| <= |s| && s[..|prefix|] == prefix
  }

  predicate HasSuffix(s: string, suffix: string) {
    |suffix| <= |s| && s[|s| - |suffix|..] == suffix
  }

  /** Removes ONE leading occurrence of `prefix`, and only when it is there. */
  function TrimPrefix(s: string, prefix: string): (r: string)
    ensures HasPrefix(s, prefix) ==> prefix + r == s
    ensures !HasPrefix(s, prefix) ==> r == s
  {
    if HasPrefix(s, prefix) then
      assert s == s[..|prefix|] + s[|prefix|..];
      s[|prefix|..]
    else s
  }

  /** Removes ONE trailing occurrence of `suffix`, and only when it is there. */
  function TrimSuffix(s: string, suffix: string): (r: string)
    ensures HasSuffix(s, suffix) ==> r + suffix == s
    ensures !HasSuffix(s, suffix) ==> r == s
  {
    if HasSuffix(s, suffix) then
      assert s == s[..|s| - |suffix|] + s[|s| - |suffix|..];
      s[..|s| - |suffix|]
    else s
  }

  lemma PrefixOfConcat(a: string, b: string)
    ensures HasPrefix(a + b, a) && TrimPrefix(a + b, a) == b
  {
    assert (a + b)[..|a|] == a;
    assert (a + b)[|a|..] == b;
  }

  lemma SuffixOfConcat(a: string, b: string)
    ensures HasSuffix(a + b, b) && TrimSuffix(a + b, b) == a
  {
    assert (a + b)[|a + b| - |b|..] == b;
    assert (a + b)[..|a + b| - |b|] == a;
  }

  /** Trimming removes a single occurrence only: a doubled prefix keeps one copy. */
  lemma TrimPrefixOnce(p: string, s: string)
    ensures TrimPrefix(p + p + s, p) == p + s
  {
    PrefixOfConcat(p, p + s);
    assert p + p + s == p + (p + s);
  }
}
