/** NUL-terminated strings: the sequence of characters before the NUL. */
module CStrings {

  const NUL := '\0'

  type CString = s: string | NUL !in s witness ""

  /** The character at an index, with the terminator in its place. */
  function CharAt(s: CString, i: nat): (c: char)
    requires i <= |s|
    ensures c == NUL <==> i == |s|
  {
    if i < |s| then (assert s[i] in s; s[i]) else NUL
  }

  /** What a reader of C strings sees of a buffer. */
  function Text(s: string): (t: CString)
    ensures t <= s && (NUL !in s ==> t == s) && (|t| < |s| ==> s[|t|] == NUL)
  {
    if s == [] || s[0] == NUL then [] else [s[0]] + Text(s[1..])
  }
}
