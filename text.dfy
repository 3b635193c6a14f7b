/** String tests the routes and handlers share: Rust's `str::starts_with`,
    `str::ends_with`, and what the regular expression `.` accepts. */
module Text {

  predicate StartsWith(s: string, prefix: string)
  {
    |prefix| <= |s| && s[..|prefix|] == prefix
  }

  predicate EndsWith(s: string, suffix: string)
  {
    |suffix| <= |s| && s[|s| - |suffix|..] == suffix
  }

  /** Every character matches the regular expression `.`, which accepts any
      character except a line feed. */
  predicate AllDots(s: string)
  {
    forall i :: 0 <= i < |s| ==> s[i] != '\n'
  }
}
