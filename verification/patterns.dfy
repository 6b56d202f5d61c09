/** Regular expressions, which the model does not interpret: `re.search`
    with `re.IGNORECASE` and `re.compile` are supplied as an oracle, so
    every property proved here holds for any regex engine. */
module Patterns {
  import opened Text

  /** `search(pattern, text)`: `re.search(pattern, text, re.IGNORECASE) is not None`,
      a case-insensitive search anywhere in `text`.
      `compiles(pattern)`: `re.compile(pattern)` does not raise `re.error`. */
  datatype Regex = Regex(search: (string, string) -> bool, compiles: string -> bool)

  /** The grouper's `__matchesPattern`: the regex search, or, when the
      pattern does not compile, case-insensitive substring containment. */
  function GroupMatch(re: Regex, text: string, pattern: string): bool {
    if re.compiles(pattern) then re.search(pattern, text)
    else IsSubstring(Lower(pattern), Lower(text))
  }

  /** On a pattern that does not compile, the fallback ignores letter case:
      a merchant holding the pattern verbatim is matched. */
  lemma FallbackFindsVerbatim(re: Regex, pattern: string, before: string, after: string)
    requires !re.compiles(pattern)
    ensures GroupMatch(re, before + pattern + after, pattern)
  {
    var text := before + pattern + after;
    var lt, lp := Lower(text), Lower(pattern);
    assert lt[|before|..|before| + |lp|] == lp;
    SubstringAt(lp, lt, |before|);
  }
}
