/** White space at the ends of strings, as the standard `trim` sees it. */
module Texts {

  predicate WhiteSpace(c: char)
  {
    || '\t' <= c <= '\r' || c == ' ' || c == '\U{85}' || c == '\U{a0}' || c == '\U{1680}'
    || '\U{2000}' <= c <= '\U{200a}' || c == '\U{2028}' || c == '\U{2029}' || c == '\U{202f}'
    || c == '\U{205f}' || c == '\U{3000}'
  }

  function TrimStart(s: string): string
  {
    if s != "" && WhiteSpace(s[0]) then TrimStart(s[1..]) else s
  }

  function TrimEnd(s: string): string
  {
    if s != "" && WhiteSpace(s[|s| - 1]) then TrimEnd(s[..|s| - 1]) else s
  }

  function Trim(s: string): string { TrimEnd(TrimStart(s)) }

  predicate Blank(s: string) { TrimStart(s) == "" }
}
