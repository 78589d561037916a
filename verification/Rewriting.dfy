/**
 * Rewriting the text a branch added: `rewriteVersions`, `rewriteLine` and `rewriteAddedLines`
 * (scripts/renumber/plan.ts).
 */
module Rewriting {
  import opened Decimals
  import opened LineDiff
  import opened Seqs
  import opened Texts
  import opened Versions

  // ---------------------------------------------------------------------------------------------
  // One global replacement: the text cut into the tokens of a pattern and the characters around them

  datatype Piece = Plain(c: char) | Token(text: string)

  /**
   * A pattern of `String.replace(/…/g, …)`: the characters a token can start with, the characters it cannot follow
   * (its lookbehind), and the length of the token at the start of a text, 0 when there is none.
   */
  datatype Pattern = Pattern(starts: char -> bool, blocks: char -> bool, length: string -> nat)

  function TokenLength(p: Pattern, blocked: bool, s: string): (n: nat)
    ensures n <= |s|
  {
    if s == [] || blocked || !p.starts(s[0]) || p.length(s) > |s| then 0 else p.length(s)
  }

  /** The pieces of `s`, where `blocked` says whether the character before it rules out a token. */
  function Pieces(p: Pattern, blocked: bool, s: string): seq<Piece>
    decreases |s|
  {
    if s == [] then []
    else
      var n := TokenLength(p, blocked, s);
      if n > 0 then [Token(s[..n])] + Pieces(p, p.blocks(s[n - 1]), s[n..])
      else [Plain(s[0])] + Pieces(p, p.blocks(s[0]), s[1..])
  }

  function TextOf(x: Piece): string { match x case Plain(c) => [c] case Token(t) => t }

  function Put(pieces: seq<Piece>): string { if pieces == [] then "" else TextOf(pieces[0]) + Put(pieces[1..]) }

  function MovePiece(x: Piece, f: string -> string): Piece {
    match x case Plain(_) => x case Token(t) => Token(f(t))
  }

  function Move(pieces: seq<Piece>, f: string -> string): seq<Piece> { Map(pieces, (x: Piece) => MovePiece(x, f)) }

  /** `s.replace(pattern, f)`. */
  function Replace(p: Pattern, blocked: bool, s: string, f: string -> string): string {
    Put(Move(Pieces(p, blocked, s), f))
  }

  lemma {:induction false} PutPieces(p: Pattern, blocked: bool, s: string)
    ensures Put(Pieces(p, blocked, s)) == s
    decreases |s|
  {
    if s != [] {
      hide TokenLength, Put;
      var t := TokenLength(p, blocked, s);
      var n := if t > 0 then t else 1;
      PutPieces(p, p.blocks(s[n - 1]), s[n..]);
      PutFirst(if t > 0 then Token(s[..n]) else Plain(s[0]), Pieces(p, p.blocks(s[n - 1]), s[n..]));
      FirstPart(s, n);
    } else {
      PutNothing();
    }
  }

  lemma {:induction false} PutNothing()
    ensures Put([]) == ""
  {
  }

  lemma {:induction false} PutFirst(x: Piece, rest: seq<Piece>)
    ensures Put([x] + rest) == TextOf(x) + Put(rest)
  {
    assert ([x] + rest)[1..] == rest;
  }

  lemma {:induction false} FirstPart(s: string, n: nat)
    requires 1 <= n <= |s|
    ensures s[..n] + s[n..] == s && s[..1] == [s[0]]
  {
  }

  lemma {:induction false} MoveFirst(x: Piece, rest: seq<Piece>, f: string -> string)
    ensures Move([x] + rest, f) == [MovePiece(x, f)] + Move(rest, f)
    ensures Put(Move([x] + rest, f)) == TextOf(MovePiece(x, f)) + Put(Move(rest, f))
  {
    assert ([MovePiece(x, f)] + Move(rest, f))[1..] == Move(rest, f);
  }

  /** A prefix in which no token can start stays as it is. */
  lemma {:induction false} ReplaceKeepsPrefix(p: Pattern, blocked: bool, prefix: string, s: string, f: string -> string)
    returns (b: bool)
    requires forall c :: c in prefix ==> !p.starts(c)
    ensures Replace(p, blocked, prefix + s, f) == prefix + Replace(p, b, s, f)
    decreases |prefix|
  {
    hide *;
    if prefix == [] {
      b := blocked;
      assert prefix + s == s && prefix + Replace(p, b, s, f) == Replace(p, b, s, f);
    } else {
      var c, more := prefix[0], prefix[1..];
      b := ReplaceKeepsPrefix(p, p.blocks(c), more, s, f);
      ReplacePlain(p, blocked, c, more + s, f);
      assert prefix + s == [c] + (more + s);
      assert prefix + Replace(p, b, s, f) == [c] + (more + Replace(p, b, s, f));
    }
  }

  lemma {:induction false} ReplacePlain(p: Pattern, blocked: bool, c: char, s: string, f: string -> string)
    requires !p.starts(c)
    ensures Replace(p, blocked, [c] + s, f) == [c] + Replace(p, p.blocks(c), s, f)
  {
    assert ([c] + s)[1..] == s;
    MoveFirst(Plain(c), Pieces(p, p.blocks(c), s), f);
  }

  // ---------------------------------------------------------------------------------------------
  // The patterns

  /** `\w`. */
  predicate IsWord(c: char) { IsDigit(c) || 'a' <= c <= 'z' || 'A' <= c <= 'Z' || c == '_' }

  function VersionLength(s: string): nat { match MatchVersion(s, 0) case None => 0 case Some(m) => m.length }

  /** A version that does not follow a character of `blocks`. */
  function VersionPattern(blocks: char -> bool): Pattern { Pattern(c => c == 'v', blocks, VersionLength) }

  predicate Never(c: char) { false }

  /** `/\bv\d+\.\d+\.\d+(?![\d])/g`. */
  const LATIN_VERSION := VersionPattern(IsWord)

  function PersianDigit(c: char): char { if IsDigit(c) then ' ' else ToLatin(c) }

  /** The text with its Persian digits read as digits and its Latin ones as none. */
  function OnlyPersian(s: string): string { Map(s, PersianDigit) }

  /** `/v[۰-۹]+\.[۰-۹]+\.[۰-۹]+(?![۰-۹])/g`. */
  const PERSIAN_VERSION := Pattern(c => c == 'v', Never, (s: string) => VersionLength(OnlyPersian(s)))

  predicate DigitOrDot(c: char) { IsDigit(c) || c == '.' }

  predicate StartsFour(s: string) { |s| >= 4 && AllDigits(s[..4]) && (|s| == 4 || !IsDigit(s[4])) }

  /** `/(?<![\d.])\d{4}(?![\d])/g`. */
  const FOUR_DIGITS := Pattern(IsDigit, DigitOrDot, (s: string) => if StartsFour(s) then 4 else 0)

  const REFERENCES := ["STABILITY_AUDIT_V9.md` §", "STABILITY_AUDIT_V9.md §"]

  function PersianAt(s: string, i: nat): nat
    requires i <= |s|
  {
    Run(s, IsPersian, i)
  }

  function ReferenceLength(s: string): nat {
    var k := FindFrom(REFERENCES, (r: string) => StartsWith(s, r), 0);
    if k == |REFERENCES| || PersianAt(s, |REFERENCES[k]|) == 0 then 0
    else |REFERENCES[k]| + PersianAt(s, |REFERENCES[k]|)
  }

  /** `/(STABILITY_AUDIT_V9\.md`? §)([۰-۹]+)/g`. */
  const REFERENCE := Pattern(c => c == 'S', _ => false, ReferenceLength)

  // ---------------------------------------------------------------------------------------------
  // Lines

  datatype LineMaps = LineMaps(versions: map<string, string>, numbers: map<string, string>, sections: map<nat, nat>)

  function Renamed(m: map<string, string>, t: string): string { if t in m then m[t] else t }

  function PersianRenamed(m: map<string, string>, t: string): string {
    if Latin(t) in m then Persian(m[Latin(t)]) else t
  }

  function LatinVersions(l: Line, m: map<string, string>): Line {
    Replace(LATIN_VERSION, false, l, (t: string) => Renamed(m, t))
  }

  function PersianVersions(l: Line, m: map<string, string>): Line {
    Replace(PERSIAN_VERSION, false, l, (t: string) => PersianRenamed(m, t))
  }

  function RewriteVersions(l: Line, m: map<string, string>): Line { PersianVersions(LatinVersions(l, m), m) }

  function Numbers(l: Line, m: map<string, string>): Line {
    Replace(FOUR_DIGITS, false, l, (t: string) => Renamed(m, t))
  }

  /** `sec`: the number of a section, in the digits of the document. */
  function SectionNumber(sections: map<nat, nat>, digits: string): string
    requires AllPersian(digits)
  {
    var n := ValueOf(Latin(digits));
    if n in sections then Persian(Decimal(sections[n])) else digits
  }

  /** `/^(#{2,3} )([۰-۹]+)(?=\.)/` of the audit report. */
  function HeadingNumber(l: Line, sections: map<nat, nat>): Line {
    var k := if StartsWith(l, "## ") then 3 else if StartsWith(l, "### ") then 4 else 0;
    if k == 0 then l
    else
      var n := PersianAt(l, k);
      if n == 0 || k + n == |l| || l[k + n] != '.' then l
      else
        var digits := l[k..k + n];
        assert forall i :: 0 <= i < n ==> digits[i] == l[k + i];
        l[..k] + SectionNumber(sections, digits) + l[k + n..]
  }

  function PersianAtEnd(s: string): (n: nat)
    ensures n <= |s| && forall i :: |s| - n <= i < |s| ==> IsPersian(s[i])
  {
    if s != [] && IsPersian(s[|s| - 1]) then 1 + PersianAtEnd(s[..|s| - 1]) else 0
  }

  function ReferenceNumber(t: string, sections: map<nat, nat>): string {
    var k := |t| - PersianAtEnd(t);
    t[..k] + SectionNumber(sections, t[k..])
  }

  function Sections(l: Line, audit: bool, sections: map<nat, nat>): Line {
    Replace(REFERENCE, false, if audit then HeadingNumber(l, sections) else l, (t: string) => ReferenceNumber(t, sections))
  }

  /** The version and number passes. */
  function RewriteTokens(l: Line, maps: LineMaps): Line {
    var out := RewriteVersions(l, maps.versions);
    if |maps.numbers| > 0 then Numbers(out, maps.numbers) else out
  }

  /** `audit`: the line is of the audit report itself. */
  function RewriteLine(l: Line, audit: bool, maps: LineMaps): Line {
    var out := RewriteTokens(l, maps);
    if |maps.sections| > 0 then Sections(out, audit, maps.sections) else out
  }

  // ---------------------------------------------------------------------------------------------
  // The lines the branch added

  const COMMENT_MARKS := ["//", "/*", "*", "#", "--"]

  /** `/^\s*(\/\/|\/\*|\*|#|--)/`. */
  predicate IsComment(l: Line) {
    var rest := l[Run(l, IsWhite, 0)..];
    exists k :: 0 <= k < |COMMENT_MARKS| && StartsWith(rest, COMMENT_MARKS[k])
  }

  datatype FileKind = Code | Document | AuditReport

  function RewriteAdded(l: Line, kind: FileKind, maps: LineMaps): Line {
    if kind != Code || IsComment(l) then RewriteLine(l, kind == AuditReport, maps) else RewriteVersions(l, maps.versions)
  }

  /** Every line of a new file (`base` is `None`), otherwise the lines the diff marks. */
  function RewriteAddedLines(base: Option<seq<Line>>, cur: seq<Line>, kind: FileKind, maps: LineMaps): (r: seq<Line>)
    ensures |r| == |cur|
  {
    var marked := if base.None? then {} else AddedLines(base.value, cur);
    seq(|cur|, k requires 0 <= k < |cur| => if base.None? || k in marked then RewriteAdded(cur[k], kind, maps) else cur[k])
  }

  /**
   * The lines that stay are the branch's unmarked lines, in order; with the exact diff they are a longest common
   * subsequence of the base and the branch.
   */
  lemma {:induction false} SharedLinesStay(base: seq<Line>, cur: seq<Line>, kind: FileKind, maps: LineMaps)
    ensures var kept := Kept(RewriteAddedLines(Some(base), cur, kind, maps), AddedLines(base, cur), 0);
            && kept == Kept(cur, AddedLines(base, cur), 0)
            && (IsExact(base, cur) ==>
                  && Subsequence(kept, base)
                  && forall t :: Subsequence(t, base) && Subsequence(t, cur) ==> |t| <= |kept|)
  {
    hide *;
    UnmarkedStay(base, cur, kind, maps);
    if IsExact(base, cur) {
      AddedLinesAreExact(base, cur);
    }
  }

  lemma {:induction false} UnmarkedStay(base: seq<Line>, cur: seq<Line>, kind: FileKind, maps: LineMaps)
    ensures Kept(RewriteAddedLines(Some(base), cur, kind, maps), AddedLines(base, cur), 0) == Kept(cur, AddedLines(base, cur), 0)
  {
    hide RewriteAdded, AddedLines, Kept;
    KeptSame(cur, RewriteAddedLines(Some(base), cur, kind, maps), AddedLines(base, cur), 0);
  }

  /** A file the branch did not change stays whole, whatever the maps. */
  lemma {:induction false} SameFileStays(cur: seq<Line>, kind: FileKind, maps: LineMaps)
    ensures RewriteAddedLines(Some(cur), cur, kind, maps) == cur
  {
    SubsequenceSelf(cur);
    AddedLinesAreFew(cur, cur, cur);
    hide *;
    assert AddedLines(cur, cur) == {};
    NothingMarked(Some(cur), cur, kind, maps);
  }

  lemma {:induction false} NothingMarked(base: Option<seq<Line>>, cur: seq<Line>, kind: FileKind, maps: LineMaps)
    requires base.Some? && AddedLines(base.value, cur) == {}
    ensures RewriteAddedLines(base, cur, kind, maps) == cur
  {
    hide AddedLines, RewriteAdded;
  }

  lemma {:induction false} KeptSame(a: seq<Line>, b: seq<Line>, marked: set<nat>, offset: nat)
    requires |a| == |b| && forall i :: 0 <= i < |a| && i + offset !in marked ==> a[i] == b[i]
    ensures Kept(a, marked, offset) == Kept(b, marked, offset)
  {
    if a != [] {
      var a', b' := a[1..], b[1..];
      assert forall i :: 0 <= i < |a'| && i + offset + 1 !in marked ==> a'[i] == b'[i];
      KeptSame(a', b', marked, offset + 1);
    }
  }
}
