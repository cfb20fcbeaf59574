/** What the two host languages strip from the ends of a text. */
module Whitespace {

  // ECMAScript white space and line terminators.
  predicate IsJsSpace(c: char) {
    c in "\t\n\r \U{000B}\U{000C}\U{00A0}\U{1680}\U{2028}\U{2029}\U{202F}\U{205F}\U{3000}\U{FEFF}" ||
    '\U{2000}' <= c <= '\U{200A}'
  }

  // Python's str.isspace, which is also what `\s` matches.
  predicate IsPySpace(c: char) {
    c in "\t\n\r \U{000B}\U{000C}\U{001C}\U{001D}\U{001E}\U{001F}\U{0085}\U{00A0}" ||
    c in "\U{1680}\U{2028}\U{2029}\U{202F}\U{205F}\U{3000}" ||
    '\U{2000}' <= c <= '\U{200A}'
  }

  function TrimStart(space: char -> bool, s: string): (t: string)
    ensures |t| <= |s| && t == s[|s| - |t|..]
    ensures t != "" ==> !space(t[0])
  {
    if s != "" && space(s[0]) then TrimStart(space, s[1..]) else s
  }

  function TrimEnd(space: char -> bool, s: string): (t: string)
    ensures t <= s
    ensures t != "" ==> !space(t[|t| - 1])
  {
    if s != "" && space(s[|s| - 1]) then TrimEnd(space, s[..|s| - 1]) else s
  }

  function Trim(space: char -> bool, s: string): (t: string)
    ensures t != "" ==> !space(t[0]) && !space(t[|t| - 1])
  {
    TrimEnd(space, TrimStart(space, s))
  }
}
