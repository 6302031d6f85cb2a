/** The two JavaScript string tests the post view relies on,
    `String.prototype.startsWith` and `String.prototype.endsWith`, on
    strings seen as sequences of characters. */
module Strings {

  /** `s.startsWith(prefix)`: the first |prefix| characters of s are prefix. */
  predicate StartsWith(s: string, prefix: string) {
    |prefix| <= |s| && s[..|prefix|] == prefix
  }

  /** `s.endsWith(suffix)`: the last |suffix| characters of s are suffix. */
  predicate EndsWith(s: string, suffix: string) {
    |suffix| <= |s| && s[|s| - |suffix|..] == suffix
  }

  /** Any string followed by suffix ends with suffix. */
  lemma EndsWithAppend(p: string, suffix: string)
    ensures EndsWith(p + suffix, suffix)
  {
    assert (p + suffix)[|p|..] == suffix;
  }

  /** Two suffixes of the same string: the shorter is a suffix of the longer. */
  lemma EndsWithBoth(s: string, a: string, b: string)
    requires EndsWith(s, a) && EndsWith(s, b) && |b| <= |a|
    ensures EndsWith(a, b)
  {
    assert a[|a| - |b|..] == s[|s| - |b|..];
  }
}
