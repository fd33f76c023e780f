/** Text as the repository handles it: C++ byte strings, one `char` per byte. */
module Text {

  datatype Option<+T> = None | Some(value: T)

  const NUL: char := '\0'
  const BACKSPACE: char := '\U{08}'
  const FORM_FEED: char := '\U{0C}'

  predicate Digit(c: char) {
    '0' <= c <= '9'
  }

  predicate Space(c: char) {
    c == ' ' || c == '\t' || c == '\r' || c == '\n'
  }

  /** The characters the number scanner swallows. */
  predicate NumberChar(c: char) {
    Digit(c) || c == '.' || c == 'e' || c == 'E' || c == '+' || c == '-'
  }

  /** `isControlCharacter`: NUL is not one. */
  predicate Control(c: char) {
    NUL < c <= '\U{1F}'
  }

  predicate NulFree(s: string) {
    forall i :: 0 <= i < |s| ==> s[i] != NUL
  }

  /** What is left of a byte string once it is read back through `c_str()`. */
  function CStr(s: string): (t: string)
    ensures t <= s && NulFree(t)
    ensures |t| < |s| ==> s[|t|] == NUL
  {
    if s == "" || s[0] == NUL then "" else [s[0]] + CStr(s[1..])
  }

  lemma CStrOfNulFree(s: string)
    requires NulFree(s)
    ensures CStr(s) == s
  {
  }

  /** `r` is what remains of `s` after some prefix has been read. */
  predicate Suffix(r: string, s: string) {
    |r| <= |s| && r == s[|s| - |r|..]
  }

  lemma SuffixTrans(a: string, b: string, c: string)
    requires Suffix(a, b) && Suffix(b, c)
    ensures Suffix(a, c) && |a| <= |b| <= |c|
  {
  }

  /** A text that ends in `a` and one that starts with `b` can be put together without a number growing. */
  predicate Joins(a: string, b: string) {
    a == "" || b == "" || !NumberChar(a[|a| - 1]) || !NumberChar(b[0])
  }
}
