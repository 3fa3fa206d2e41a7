/** Characters and C strings, in ASCII. */
module Characters {

  predicate IsDigit(c: char)
  {
    '0' <= c <= '9'
  }

  predicate IsAlpha(c: char)
  {
    'a' <= c <= 'z' || 'A' <= c <= 'Z'
  }

  predicate IsSpace(c: char)
  {
    c == ' ' || '\t' <= c <= '\r'
  }

  const NUL: char := '\0'

  /** The character at the end of a C string is NUL. */
  function At(s: string, k: nat): char
  {
    if k < |s| then s[k] else NUL
  }

  /** `strrchr`: the last position of `c`, or -1. */
  function LastIndex(s: string, c: char): (k: int)
    ensures -1 <= k < |s|
    ensures k >= 0 ==> s[k] == c
    ensures forall x :: k < x < |s| ==> s[x] != c
  {
    if s == "" then -1
    else if s[|s| - 1] == c then |s| - 1
    else LastIndex(s[..|s| - 1], c)
  }
}
