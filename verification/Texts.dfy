/** Lines of text and the string tests the release scripts use on them. A file is its lines, cut at every `\n`. */
module Texts {
  type Line = string

  predicate StartsWith(l: Line, prefix: string) { |prefix| <= |l| && l[..|prefix|] == prefix }

  predicate EndsWith(l: Line, suffix: string) { |suffix| <= |l| && l[|l| - |suffix|..] == suffix }

  predicate Contains(l: Line, part: string) {
    exists i :: 0 <= i <= |l| && StartsWith(l[i..], part)
  }

  /** The white space `String.prototype.trim` removes, but for the line break. */
  predicate IsWhite(c: char) {
    || c in [' ', '\t', '\r', '\U{B}', '\U{C}', '\U{A0}', '\U{1680}', '\U{2028}', '\U{2029}', '\U{202F}', '\U{205F}',
             '\U{3000}', '\U{FEFF}']
    || '\U{2000}' <= c <= '\U{200A}'
  }

  /** `line.trim() === ''`. */
  predicate IsBlank(l: Line) { forall c :: c in l ==> IsWhite(c) }
}
