/** Prefix and suffix tests on strings, as `str.startswith` / `str.endswith` and `String.prototype.startsWith` read them. */
module Text {
  predicate StartsWith(s: string, prefix: string) {
    |prefix| <= |s| && s[..|prefix|] == prefix
  }

  predicate EndsWith(s: string, suffix: string) {
    |suffix| <= |s| && s[|s| - |suffix|..] == suffix
  }
}
