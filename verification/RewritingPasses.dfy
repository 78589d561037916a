/**
 * The lines a branch added, after the rewriting (`rewriteAddedLines`, scripts/renumber/plan.ts): which passes each of
 * them gets and what each pass writes, place by place.
 */
module RewritingPasses {
  import opened Decimals
  import opened LineDiff
  import opened Rewriting
  import opened RewritingTheorems
  import SecondPass
  import opened Seqs
  import opened Texts
  import opened Versions

  // ---------------------------------------------------------------------------------------------
  // A pass, read from left to right

  /** A token of `n` characters stands at place `i`. */
  type Stands = (string, nat, nat) -> bool

  /** What a token may become. */
  type Becomes = (string, string) -> bool

  ghost predicate TokenHere(s: string, i: nat, n: nat, at: Stands) { 0 < n && i + n <= |s| && at(s, i, n) }

  /** From place `i` on, `r` is `s` with every token replaced where it stands and every other character kept. */
  ghost predicate Scans(s: string, i: nat, r: string, at: Stands, to: Becomes)
    decreases |s| - i
  {
    if i >= |s| then r == ""
    else if exists n :: TokenHere(s, i, n, at) then
      exists n, t :: TokenHere(s, i, n, at) && to(s[i..i + n], t) && StartsWith(r, t) && Scans(s, i + n, r[|t|..], at, to)
    else r != "" && r[0] == s[i] && Scans(s, i + 1, r[1..], at, to)
  }

  predicate BlockedAt(p: Pattern, s: string, i: nat) { 0 < i <= |s| && p.blocks(s[i - 1]) }

  /** The pattern finds exactly the tokens that stand in the text. */
  ghost predicate Finds(p: Pattern, s: string, at: Stands) {
    forall i: nat, n: nat :: i < |s| ==> (TokenHere(s, i, n, at) <==> 0 < n == TokenLength(p, BlockedAt(p, s, i), s[i..]))
  }

  ghost predicate Turns(s: string, at: Stands, f: string -> string, to: Becomes) {
    forall i: nat, n: nat :: TokenHere(s, i, n, at) ==> to(s[i..i + n], f(s[i..i + n]))
  }

  lemma {:induction false} ScansToken(s: string, i: nat, n: nat, t: string, more: string, at: Stands, to: Becomes)
    requires TokenHere(s, i, n, at) && to(s[i..i + n], t) && Scans(s, i + n, more, at, to)
    ensures Scans(s, i, t + more, at, to)
  {
    var r := t + more;
    assert r[..|t|] == t && r[|t|..] == more;
    assert StartsWith(r, t);
  }

  lemma {:induction false} ScansPlain(s: string, i: nat, more: string, at: Stands, to: Becomes)
    requires i < |s| && (forall n :: !TokenHere(s, i, n, at)) && Scans(s, i + 1, more, at, to)
    ensures Scans(s, i, [s[i]] + more, at, to)
  {
    var r := [s[i]] + more;
    assert r[1..] == more;
  }

  lemma {:induction false} ScansNothing(s: string, at: Stands, to: Becomes)
    ensures Scans(s, |s|, "", at, to)
  {
  }

  lemma {:induction false} ReplaceScans(p: Pattern, s: string, i: nat, f: string -> string, at: Stands, to: Becomes)
    requires i <= |s| && Finds(p, s, at) && Turns(s, at, f, to)
    ensures Scans(s, i, Replace(p, BlockedAt(p, s, i), s[i..], f), at, to)
    decreases |s| - i
  {
    hide *;
    if i < |s| {
      var b, rest := BlockedAt(p, s, i), s[i..];
      var n := TokenLength(p, b, rest);
      var k := if n > 0 then n else 1;
      assert rest[k..] == s[i + k..] && rest[..k] == s[i..i + k] && rest[k - 1] == s[i + k - 1];
      ReplaceScans(p, s, i + k, f, at, to);
      ReplaceStep(p, b, rest, f, n, k);
      BlockedNext(p, s, i + k);
      var more := Replace(p, BlockedAt(p, s, i + k), s[i + k..], f);
      FoundHere(p, s, i, at);
      if n > 0 {
        TurnsHere(s, at, f, to, i, n);
        ScansToken(s, i, n, f(s[i..i + n]), more, at, to);
      } else {
        assert s[i..i + 1] == [s[i]];
        ScansPlain(s, i, more, at, to);
      }
    } else {
      assert s[i..] == "";
      ReplaceNothing(p, BlockedAt(p, s, i), f);
      ScansNothing(s, at, to);
    }
  }

  lemma {:induction false} ReplaceNothing(p: Pattern, b: bool, f: string -> string)
    ensures Replace(p, b, "", f) == ""
  {
  }

  lemma {:induction false} BlockedNext(p: Pattern, s: string, i: nat)
    requires 0 < i <= |s|
    ensures BlockedAt(p, s, i) == p.blocks(s[i - 1])
  {
  }

  lemma {:induction false} FoundHere(p: Pattern, s: string, i: nat, at: Stands)
    requires Finds(p, s, at) && i < |s|
    ensures var n := TokenLength(p, BlockedAt(p, s, i), s[i..]);
            if n > 0 then TokenHere(s, i, n, at) else forall m :: !TokenHere(s, i, m, at)
  {
    hide TokenHere, TokenLength;
  }

  lemma {:induction false} TurnsHere(s: string, at: Stands, f: string -> string, to: Becomes, i: nat, n: nat)
    requires Turns(s, at, f, to) && TokenHere(s, i, n, at)
    ensures i + n <= |s| && to(s[i..i + n], f(s[i..i + n]))
  {
  }

  lemma {:induction false} ReplaceStep(p: Pattern, b: bool, s: string, f: string -> string, n: nat, k: nat)
    requires s != [] && n == TokenLength(p, b, s) && k == if n > 0 then n else 1
    ensures Replace(p, b, s, f) == (if n > 0 then f(s[..k]) else s[..k]) + Replace(p, p.blocks(s[k - 1]), s[k..], f)
  {
    PiecesStep(p, b, s);
    hide Pieces, TokenLength, Put;
    assert s[..1] == [s[0]];
    MoveFirst(if n > 0 then Token(s[..k]) else Plain(s[0]), Pieces(p, p.blocks(s[k - 1]), s[k..]), f);
  }

  // ---------------------------------------------------------------------------------------------
  // What stands in a line

  predicate DigitsAt(s: string, i: int, j: int, digit: char -> bool) {
    0 <= i < j <= |s| && forall k :: i <= k < j ==> digit(s[k])
  }

  /** `v`, three numerals with points at `a` and `b`, and no further digit. */
  predicate PartsAt(s: string, i: int, n: int, a: int, b: int, digit: char -> bool) {
    && 0 <= i && i + n <= |s| && n > 0 && s[i] == 'v'
    && DigitsAt(s, i + 1, a, digit) && a < |s| && s[a] == '.'
    && DigitsAt(s, a + 1, b, digit) && b < |s| && s[b] == '.'
    && DigitsAt(s, b + 1, i + n, digit)
    && (i + n == |s| || !digit(s[i + n]))
  }

  ghost predicate VersionAt(s: string, i: int, n: int, digit: char -> bool) {
    exists a, b :: PartsAt(s, i, n, a, b, digit)
  }

  /** A version in Latin digits at the start of a word. */
  ghost predicate LatinVersionAt(s: string, i: nat, n: nat) {
    VersionAt(s, i, n, IsDigit) && (0 < i <= |s| ==> !IsWord(s[i - 1]))
  }

  ghost predicate PersianVersionAt(s: string, i: nat, n: nat) { VersionAt(s, i, n, IsPersian) }

  /** Four digits without a digit around them and without a point before. */
  predicate NumberAt(s: string, i: nat, n: nat) { n == 4 && TokenAt(false, s, i) }

  /** The audit report, a section sign, and a numeral in Persian digits. */
  predicate ReferenceAt(s: string, i: nat, n: nat) {
    exists h :: h in {"STABILITY_AUDIT_V9.md` §", "STABILITY_AUDIT_V9.md §"} && ReferenceTo(s, i, n, h)
  }

  predicate ReferenceTo(s: string, i: nat, n: nat, h: string) {
    && i + |h| < i + n <= |s| && s[i..i + |h|] == h
    && DigitsAt(s, i + |h|, i + n, IsPersian) && (i + n == |s| || !IsPersian(s[i + n]))
  }

  // ---------------------------------------------------------------------------------------------
  // The patterns find what stands there

  lemma {:induction false} PartsShift(s: string, i: nat, n: int, a: int, b: int, digit: char -> bool)
    requires i <= |s|
    ensures PartsAt(s, i, n, a, b, digit) <==> PartsAt(s[i..], 0, n, a - i, b - i, digit)
  {
    var t := s[i..];
    assert forall k :: i <= k < |s| ==> s[k] == t[k - i];
    assert forall k :: 0 <= k < |t| ==> t[k] == s[k + i];
    if PartsAt(t, 0, n, a - i, b - i, digit) {
      assert PartsAt(s, i, n, a, b, digit);
    }
    if PartsAt(s, i, n, a, b, digit) {
      assert PartsAt(t, 0, n, a - i, b - i, digit);
    }
  }

  lemma {:induction false} VersionShift(s: string, i: nat, n: int, digit: char -> bool)
    requires i <= |s|
    ensures VersionAt(s, i, n, digit) <==> VersionAt(s[i..], 0, n, digit)
  {
    hide PartsAt;
    if VersionAt(s, i, n, digit) {
      var a, b :| PartsAt(s, i, n, a, b, digit);
      PartsShift(s, i, n, a, b, digit);
    }
    if VersionAt(s[i..], 0, n, digit) {
      var a, b :| PartsAt(s[i..], 0, n, a, b, digit);
      PartsShift(s, i, n, a + i, b + i, digit);
    }
  }

  lemma {:induction false} NumeralIs(t: string, i: int, j: int)
    requires DigitsAt(t, i, j, IsDigit) && (j == |t| || !IsDigit(t[j]))
    ensures MatchNumeral(t, i).Some? && MatchNumeral(t, i).value.length == j - i
    ensures j < |t| && t[j] == '.' ==> MatchPart(t, i).Some? && MatchPart(t, i).value.length == j + 1 - i
  {
    RunIs(t, IsDigit, i, j - i);
    hide Run, ValueOf;
  }

  lemma {:induction false} MatchIsAt(t: string, n: int)
    requires VersionAt(t, 0, n, IsDigit)
    ensures MatchVersion(t, 0).Some? && MatchVersion(t, 0).value.length == n
  {
    var a, b :| PartsAt(t, 0, n, a, b, IsDigit);
    hide *;
    PartsMatch(t, n, a, b);
    VersionOfParts(t, MatchPart(t, 1).value, MatchPart(t, a + 1).value, MatchNumeral(t, b + 1).value);
  }

  lemma {:induction false} PartsMatch(t: string, n: int, a: int, b: int)
    requires PartsAt(t, 0, n, a, b, IsDigit)
    ensures 0 <= a && 0 <= b
    ensures MatchPart(t, 1).Some? && MatchPart(t, 1).value.length == a
    ensures MatchPart(t, a + 1).Some? && MatchPart(t, a + 1).value.length == b - a
    ensures MatchNumeral(t, b + 1).Some? && MatchNumeral(t, b + 1).value.length == n - b - 1
    ensures HasParts(t, MatchPart(t, 1).value, MatchPart(t, a + 1).value, MatchNumeral(t, b + 1).value)
  {
    hide MatchPart, MatchNumeral;
    PointEnds(t, a);
    PointEnds(t, b);
    NumeralIs(t, 1, a);
    NumeralIs(t, a + 1, b);
    NumeralIs(t, b + 1, n);
    hide DigitsAt;
  }

  lemma {:induction false} PointEnds(t: string, a: int)
    requires 0 <= a < |t| && t[a] == '.'
    ensures !IsDigit(t[a])
  {
  }

  lemma {:induction false} AtIsMatch(t: string)
    requires MatchVersion(t, 0).Some?
    ensures VersionAt(t, 0, MatchVersion(t, 0).value.length, IsDigit)
  {
    var a := 1 + Run(t, IsDigit, 1);
    var b := a + 1 + Run(t, IsDigit, a + 1);
    assert PartsAt(t, 0, MatchVersion(t, 0).value.length, a, b, IsDigit);
  }

  lemma {:induction false} FindsLatin(s: string)
    ensures Finds(LATIN_VERSION, s, LatinVersionAt)
  {
    forall i: nat, n: nat | i < |s|
      ensures TokenHere(s, i, n, LatinVersionAt) <==> 0 < n == TokenLength(LATIN_VERSION, BlockedAt(LATIN_VERSION, s, i), s[i..])
    {
      var t := s[i..];
      VersionShift(s, i, n, IsDigit);
      if MatchVersion(t, 0).Some? {
        AtIsMatch(t);
      }
      if VersionAt(t, 0, n, IsDigit) {
        MatchIsAt(t, n);
      }
      hide VersionAt, MatchVersion;
    }
  }

  lemma {:induction false} PersianReading(t: string, n: int)
    ensures VersionAt(t, 0, n, IsPersian) <==> VersionAt(OnlyPersian(t), 0, n, IsDigit)
  {
    var h := OnlyPersian(t);
    assert forall k :: 0 <= k < |t| ==> (IsDigit(h[k]) <==> IsPersian(t[k])) && (h[k] == 'v' <==> t[k] == 'v') && (h[k] == '.' <==> t[k] == '.');
    hide PersianDigit, IsPersian, IsDigit, OnlyPersian;
    forall a, b ensures PartsAt(t, 0, n, a, b, IsPersian) <==> PartsAt(h, 0, n, a, b, IsDigit) {
    }
  }

  lemma {:induction false} FindsPersian(s: string)
    ensures Finds(PERSIAN_VERSION, s, PersianVersionAt)
  {
    forall i: nat, n: nat | i < |s|
      ensures TokenHere(s, i, n, PersianVersionAt) <==> 0 < n == TokenLength(PERSIAN_VERSION, BlockedAt(PERSIAN_VERSION, s, i), s[i..])
    {
      VersionShift(s, i, n, IsPersian);
      PersianFound(s[i..], n);
      PersianUnblocked(s, i);
      hide VersionAt, TokenLength;
    }
  }

  lemma {:induction false} PersianUnblocked(s: string, i: nat)
    ensures !BlockedAt(PERSIAN_VERSION, s, i)
  {
  }

  lemma {:induction false} PersianFound(t: string, n: nat)
    requires t != []
    ensures 0 < n <= |t| && VersionAt(t, 0, n, IsPersian) <==> 0 < n == TokenLength(PERSIAN_VERSION, false, t)
  {
    var h := OnlyPersian(t);
    PersianReading(t, n);
    if MatchVersion(h, 0).Some? {
      AtIsMatch(h);
      PersianReading(t, MatchVersion(h, 0).value.length);
      assert h[0] == 'v' <==> t[0] == 'v';
    }
    if VersionAt(h, 0, n, IsDigit) {
      MatchIsAt(h, n);
    }
    hide VersionAt, MatchVersion, OnlyPersian;
  }

  lemma {:induction false} FindsNumbers(s: string)
    ensures Finds(FOUR_DIGITS, s, NumberAt)
  {
    forall i: nat, n: nat | i < |s|
      ensures TokenHere(s, i, n, NumberAt) <==> 0 < n == TokenLength(FOUR_DIGITS, BlockedAt(FOUR_DIGITS, s, i), s[i..])
    {
      var b := BlockedAt(FOUR_DIGITS, s, i);
      TokenFirst(b, s[i..]);
      if i > 0 {
        TokenLater(false, s, i, 0);
      } else {
        assert s[0..] == s;
      }
      hide TokenAt, TokenLength;
      TokenFits(s, i);
    }
  }

  lemma {:induction false} TokenFits(s: string, i: nat)
    ensures TokenAt(false, s, i) ==> i + 4 <= |s|
  {
  }

  lemma {:induction false} FindsReferences(s: string)
    ensures Finds(REFERENCE, s, ReferenceAt)
  {
    forall i: nat, n: nat | i < |s|
      ensures TokenHere(s, i, n, ReferenceAt) <==> 0 < n == TokenLength(REFERENCE, BlockedAt(REFERENCE, s, i), s[i..])
    {
      ReferenceFound(s, i, n);
    }
  }

  lemma {:induction false} ReferenceFound(s: string, i: nat, n: nat)
    requires i < |s|
    ensures TokenHere(s, i, n, ReferenceAt) <==> 0 < n == TokenLength(REFERENCE, BlockedAt(REFERENCE, s, i), s[i..])
  {
    var t := s[i..];
    var a, b := REFERENCES[0], REFERENCES[1];
    assert a[21] == '`' && b[21] == ' ';
    ReferenceHead(s, i, n, a);
    ReferenceHead(s, i, n, b);
    assert a[0] == 'S' && b[0] == 'S';
    HeadLetter(t, a, 0);
    HeadLetter(t, b, 0);
    HeadLetter(t, a, 21);
    HeadLetter(t, b, 21);
    hide ReferenceTo, StartsWith, PersianAt;
    assert FindFrom(REFERENCES, (r: string) => StartsWith(t, r), 0) == if StartsWith(t, a) then 0 else if StartsWith(t, b) then 1 else 2;
  }

  lemma {:induction false} HeadLetter(t: string, h: string, k: nat)
    requires k < |h|
    ensures StartsWith(t, h) ==> k < |t| && t[k] == h[k]
  {
    assert StartsWith(t, h) ==> t[k] == t[..|h|][k];
  }

  lemma {:induction false} ReferenceHead(s: string, i: nat, n: nat, h: string)
    requires i <= |s|
    ensures ReferenceTo(s, i, n, h) <==> StartsWith(s[i..], h) && 0 < PersianAt(s[i..], |h|) == n - |h|
  {
    var t := s[i..];
    assert forall k :: 0 <= k < |t| ==> t[k] == s[k + i];
    if |h| <= |t| {
      assert t[..|h|] == s[i..i + |h|];
      if ReferenceTo(s, i, n, h) {
        RunIs(t, IsPersian, |h|, n - |h|);
      }
    }
  }

  // ---------------------------------------------------------------------------------------------
  // What the tokens become

  ghost predicate NewName(m: map<string, string>, t: string, u: string) { u == if t in m then m[t] else t }

  /** A version in Persian digits is looked up in Latin ones and written in its own. */
  ghost predicate NewPersian(m: map<string, string>, t: string, u: string) {
    u == if Latin(t) in m then Persian(m[Latin(t)]) else t
  }

  /** The number of a section in Persian digits. */
  predicate NewSection(sections: map<nat, nat>, d: string, e: string) {
    AllPersian(d) && e == if ValueOf(Latin(d)) in sections then Persian(Decimal(sections[ValueOf(Latin(d))])) else d
  }

  /** The words of the reference stay, its number is the section's new one. */
  ghost predicate NewReference(sections: map<nat, nat>, t: string, u: string) {
    exists h, d, e :: RefersAnew(sections, t, u, h, d, e)
  }

  predicate RefersAnew(sections: map<nat, nat>, t: string, u: string, h: string, d: string, e: string) {
    h in {"STABILITY_AUDIT_V9.md` §", "STABILITY_AUDIT_V9.md §"} && d != "" && t == h + d && u == h + e && NewSection(sections, d, e)
  }

  /** `## ` or `### `, a numeral in Persian digits and a point at the start of the line. */
  predicate NumberedHeading(l: Line, marks: string, d: string, rest: string) {
    marks in {"## ", "### "} && d != "" && AllPersian(d) && l == marks + d + "." + rest
  }

  ghost predicate NewHeading(sections: map<nat, nat>, l: Line, r: Line) {
    && (forall marks, d, rest :: NumberedHeading(l, marks, d, rest) ==>
          exists e :: NewSection(sections, d, e) && r == marks + e + "." + rest)
    && ((forall marks, d, rest :: !NumberedHeading(l, marks, d, rest)) ==> r == l)
  }

  lemma {:induction false} EndIs(t: string, k: nat)
    requires k <= |t| && (forall i :: k <= i < |t| ==> IsPersian(t[i])) && (0 < k ==> !IsPersian(t[k - 1]))
    ensures PersianAtEnd(t) == |t| - k
    decreases |t|
  {
    if k < |t| {
      EndIs(t[..|t| - 1], k);
    }
  }

  lemma {:induction false} ReferenceTurns(h: string, d: string, sections: map<nat, nat>)
    requires h in {"STABILITY_AUDIT_V9.md` §", "STABILITY_AUDIT_V9.md §"} && d != "" && AllPersian(d)
    ensures NewReference(sections, h + d, ReferenceNumber(h + d, sections))
  {
    assert !IsPersian(h[|h| - 1]);
    ReferenceParts(h, d, sections);
    SectionIs(sections, d);
    hide ReferenceNumber, SectionNumber, NewSection;
    assert RefersAnew(sections, h + d, ReferenceNumber(h + d, sections), h, d, SectionNumber(sections, d));
  }

  lemma {:induction false} ReferenceParts(h: string, d: string, sections: map<nat, nat>)
    requires h != "" && !IsPersian(h[|h| - 1]) && AllPersian(d)
    ensures ReferenceNumber(h + d, sections) == h + SectionNumber(sections, d)
  {
    var t := h + d;
    assert forall i :: |h| <= i < |t| ==> t[i] == d[i - |h|];
    EndIs(t, |h|);
    hide SectionNumber, IsPersian, PersianAtEnd;
    assert t[..|h|] == h && t[|h|..] == d;
  }

  lemma {:induction false} SectionIs(sections: map<nat, nat>, d: string)
    requires AllPersian(d)
    ensures NewSection(sections, d, SectionNumber(sections, d))
  {
  }

  lemma {:induction false} ReferencesTurn(s: string, sections: map<nat, nat>)
    ensures Turns(s, ReferenceAt, (t: string) => ReferenceNumber(t, sections), (t: string, u: string) => NewReference(sections, t, u))
  {
    forall i: nat, n: nat | TokenHere(s, i, n, ReferenceAt)
      ensures NewReference(sections, s[i..i + n], ReferenceNumber(s[i..i + n], sections))
    {
      var h :| h in {"STABILITY_AUDIT_V9.md` §", "STABILITY_AUDIT_V9.md §"} && ReferenceTo(s, i, n, h);
      var d := s[i + |h|..i + n];
      assert s[i..i + n] == h + d;
      assert AllPersian(d);
      ReferenceTurns(h, d, sections);
    }
  }

  // ---------------------------------------------------------------------------------------------
  // The passes

  ghost predicate LatinMoved(l: Line, r: Line, m: map<string, string>) {
    Scans(l, 0, r, LatinVersionAt, (t: string, u: string) => NewName(m, t, u))
  }

  ghost predicate PersianMoved(l: Line, r: Line, m: map<string, string>) {
    Scans(l, 0, r, PersianVersionAt, (t: string, u: string) => NewPersian(m, t, u))
  }

  ghost predicate VersionsMoved(l: Line, r: Line, m: map<string, string>) {
    exists v :: LatinMoved(l, v, m) && PersianMoved(v, r, m)
  }

  ghost predicate NumbersMoved(l: Line, r: Line, m: map<string, string>) {
    Scans(l, 0, r, NumberAt, (t: string, u: string) => NewName(m, t, u))
  }

  ghost predicate ReferencesMoved(l: Line, r: Line, sections: map<nat, nat>) {
    Scans(l, 0, r, ReferenceAt, (t: string, u: string) => NewReference(sections, t, u))
  }

  lemma {:induction false} LatinScan(l: Line, m: map<string, string>)
    ensures LatinMoved(l, LatinVersions(l, m), m)
  {
    assert l[0..] == l;
    FindsLatin(l);
    hide Finds, Replace, LatinVersionAt, Scans, TokenHere;
    ReplaceScans(LATIN_VERSION, l, 0, (t: string) => Renamed(m, t), LatinVersionAt, (t: string, u: string) => NewName(m, t, u));
  }

  lemma {:induction false} PersianTurn(s: string, m: map<string, string>)
    ensures Turns(s, PersianVersionAt, (t: string) => PersianRenamed(m, t), (t: string, u: string) => NewPersian(m, t, u))
  {
    hide PersianVersionAt, Latin, Persian;
  }

  lemma {:induction false} PersianScan(l: Line, m: map<string, string>)
    ensures PersianMoved(l, PersianVersions(l, m), m)
  {
    FindsPersian(l);
    PersianTurn(l, m);
    assert PersianVersions(l, m) == Replace(PERSIAN_VERSION, false, l, (t: string) => PersianRenamed(m, t)) by {
      hide Replace, PersianRenamed;
    }
    hide *;
    assert l[0..] == l;
    assert !BlockedAt(PERSIAN_VERSION, l, 0) by {
      PersianUnblocked(l, 0);
    }
    ReplaceScans(PERSIAN_VERSION, l, 0, (t: string) => PersianRenamed(m, t), PersianVersionAt, (t: string, u: string) => NewPersian(m, t, u));
    PersianMovedIs(l, PersianVersions(l, m), m);
  }

  lemma {:induction false} PersianMovedIs(l: Line, r: Line, m: map<string, string>)
    ensures PersianMoved(l, r, m) <==> Scans(l, 0, r, PersianVersionAt, (t: string, u: string) => NewPersian(m, t, u))
  {
    hide Scans, PersianVersionAt, NewPersian;
  }

  lemma {:induction false} VersionsScan(l: Line, m: map<string, string>)
    ensures VersionsMoved(l, RewriteVersions(l, m), m)
  {
    LatinScan(l, m);
    PersianScan(LatinVersions(l, m), m);
    hide LatinMoved, PersianMoved;
  }

  lemma {:induction false} NumbersScan(l: Line, m: map<string, string>)
    ensures NumbersMoved(l, if |m| > 0 then Numbers(l, m) else l, m)
  {
    assert l[0..] == l;
    FindsNumbers(l);
    hide Finds, Replace, Scans, TokenHere;
    ReplaceScans(FOUR_DIGITS, l, 0, (t: string) => Renamed(m, t), NumberAt, (t: string, u: string) => NewName(m, t, u));
    if |m| == 0 {
      SecondPass.ReplaceSame(FOUR_DIGITS, l, (t: string) => Renamed(m, t));
    }
  }

  lemma {:induction false} HeadingMoves(l: Line, sections: map<nat, nat>)
    ensures NewHeading(sections, l, HeadingNumber(l, sections))
  {
    forall marks, d, rest | NumberedHeading(l, marks, d, rest)
      ensures exists e :: NewSection(sections, d, e) && HeadingNumber(l, sections) == marks + e + "." + rest
    {
      HeadingIs(l, marks, d, rest, sections);
      assert NewSection(sections, d, SectionNumber(sections, d));
    }
    if forall marks, d, rest :: !NumberedHeading(l, marks, d, rest) {
      NoHeading(l, sections);
    }
  }

  lemma {:induction false} HeadingLength(l: Line, marks: string, d: string, rest: string)
    requires NumberedHeading(l, marks, d, rest)
    ensures var k := |marks|;
            && k in {3, 4} && k + |d| < |l| && l[..k] == marks && l[k..k + |d|] == d && l[k + |d|] == '.' && l[k + |d|..] == "." + rest
            && (if StartsWith(l, "## ") then 3 else if StartsWith(l, "### ") then 4 else 0) == k
            && PersianAt(l, k) == |d|
  {
    var k := |marks|;
    assert l[..k] == marks && l[k..k + |d|] == d && l[k + |d|] == '.' && l[k + |d|..] == "." + rest;
    assert marks == "### " ==> l[2] == marks[2] == '#';
    assert StartsWith(l, "## ") ==> l[2] == "## "[2] == ' ';
    forall i | k <= i < k + |d| ensures IsPersian(l[i]) {
      assert l[i] == l[k..k + |d|][i - k] == d[i - k];
    }
    RunIs(l, IsPersian, k, |d|);
  }

  lemma {:induction false} HeadingIs(l: Line, marks: string, d: string, rest: string, sections: map<nat, nat>)
    requires NumberedHeading(l, marks, d, rest)
    ensures HeadingNumber(l, sections) == marks + SectionNumber(sections, d) + "." + rest
  {
    HeadingLength(l, marks, d, rest);
    hide SectionNumber, NumberedHeading, PersianAt, StartsWith;
    var k, e := |marks|, SectionNumber(sections, d);
    assert HeadingNumber(l, sections) == l[..k] + e + l[k + |d|..];
    assert marks + e + ("." + rest) == marks + e + "." + rest;
  }

  lemma {:induction false} NoHeading(l: Line, sections: map<nat, nat>)
    requires forall marks, d, rest :: !NumberedHeading(l, marks, d, rest)
    ensures HeadingNumber(l, sections) == l
  {
    hide SectionNumber;
    if StartsWith(l, "## ") {
      NoNumber(l, 3);
    } else if StartsWith(l, "### ") {
      NoNumber(l, 4);
    }
  }

  lemma {:induction false} NoNumber(l: Line, k: nat)
    requires k in {3, 4} && k <= |l| && l[..k] in {"## ", "### "}
    requires forall marks, d, rest :: !NumberedHeading(l, marks, d, rest)
    ensures PersianAt(l, k) == 0 || k + PersianAt(l, k) == |l| || l[k + PersianAt(l, k)] != '.'
  {
    hide NumberedHeading, Run;
    if PersianAt(l, k) > 0 && k + PersianAt(l, k) < |l| && l[k + PersianAt(l, k)] == '.' {
      NumberFound(l, k, PersianAt(l, k));
    }
  }

  lemma {:induction false} NumberFound(l: Line, k: nat, n: nat)
    requires k <= |l| && l[..k] in {"## ", "### "} && n == PersianAt(l, k) > 0 && k + n < |l| && l[k + n] == '.'
    ensures NumberedHeading(l, l[..k], l[k..k + n], l[k + n + 1..])
  {
    var d := l[k..k + n];
    assert forall i :: 0 <= i < n ==> d[i] == l[k + i];
    assert l == l[..k] + d + "." + l[k + n + 1..];
  }

  lemma {:induction false} ReferencesScan(l: Line, sections: map<nat, nat>)
    ensures ReferencesMoved(l, Replace(REFERENCE, false, l, (t: string) => ReferenceNumber(t, sections)), sections)
  {
    assert l[0..] == l;
    FindsReferences(l);
    ReferencesTurn(l, sections);
    hide Finds, Replace, Scans, TokenHere, Turns;
    ReplaceScans(REFERENCE, l, 0, (t: string) => ReferenceNumber(t, sections), ReferenceAt, (t: string, u: string) => NewReference(sections, t, u));
  }

  /** Versions, then numbers, then in the audit report the section's own heading, then the references. */
  ghost predicate AllMoved(l: Line, r: Line, audit: bool, maps: LineMaps) {
    exists v, n, h ::
      && VersionsMoved(l, v, maps.versions) && NumbersMoved(v, n, maps.numbers)
      && (if audit then NewHeading(maps.sections, n, h) else h == n) && ReferencesMoved(h, r, maps.sections)
  }

  // ---------------------------------------------------------------------------------------------
  // The added lines

  lemma {:induction false} LineMoves(l: Line, audit: bool, maps: LineMaps)
    ensures AllMoved(l, RewriteLine(l, audit, maps), audit, maps)
  {
    var v := RewriteVersions(l, maps.versions);
    var n := RewriteTokens(l, maps);
    VersionsScan(l, maps.versions);
    NumbersScan(v, maps.numbers);
    hide RewriteVersions, Numbers, Replace, VersionsMoved, NumbersMoved, ReferencesMoved, NewHeading, HeadingNumber;
    if |maps.sections| > 0 {
      var h := if audit then HeadingNumber(n, maps.sections) else n;
      HeadingMoves(n, maps.sections);
      ReferencesScan(h, maps.sections);
    } else {
      HeadingMoves(n, maps.sections);
      SectionsSame(n, maps.sections);
      ReferencesScan(n, maps.sections);
    }
  }

  /** Without sections to move, heading and references stay. */
  lemma {:induction false} SectionsSame(l: Line, sections: map<nat, nat>)
    requires |sections| == 0
    ensures HeadingNumber(l, sections) == l
    ensures Replace(REFERENCE, false, l, (t: string) => ReferenceNumber(t, sections)) == l
  {
    HeadingSame(l, sections);
    forall t: string ensures ReferenceNumber(t, sections) == t {
      var k := |t| - PersianAtEnd(t);
      assert t[..k] + t[k..] == t;
    }
    hide ReferenceNumber, Replace, HeadingNumber;
    SecondPass.ReplaceSame(REFERENCE, l, (t: string) => ReferenceNumber(t, sections));
  }

  lemma {:induction false} HeadingSame(l: Line, sections: map<nat, nat>)
    requires |sections| == 0
    ensures HeadingNumber(l, sections) == l
  {
  }

  /** White space, and then the start of a comment. */
  predicate CommentAt(l: Line, i: int) {
    && 0 <= i <= |l| && (forall j :: 0 <= j < i ==> IsWhite(l[j]))
    && (|| StartsWith(l[i..], "//") || StartsWith(l[i..], "/*") || StartsWith(l[i..], "*")
        || StartsWith(l[i..], "#") || StartsWith(l[i..], "--"))
  }

  lemma {:induction false} CommentIff(l: Line)
    ensures IsComment(l) <==> exists i :: CommentAt(l, i)
  {
    var n := Run(l, IsWhite, 0);
    var rest := l[n..];
    assert IsComment(l) <==> CommentAt(l, n) by {
      assert COMMENT_MARKS[0] == "//" && COMMENT_MARKS[1] == "/*" && COMMENT_MARKS[2] == "*" && COMMENT_MARKS[3] == "#" && COMMENT_MARKS[4] == "--";
      hide StartsWith, Run, IsWhite;
    }
    forall i | CommentAt(l, i) ensures i == n {
      assert i < |l| && l[i..][0] == l[i];
      assert l[i] in {'/', '*', '#', '-'};
      RunIs(l, IsWhite, 0, i);
    }
  }

  /** The line `l` of a file becomes `r`, when the branch added it. */
  ghost predicate Moves(l: Line, r: Line, kind: FileKind, maps: LineMaps) {
    if kind != Code || exists i :: CommentAt(l, i) then AllMoved(l, r, kind == AuditReport, maps)
    else VersionsMoved(l, r, maps.versions)
  }

  /**
   * In every line of a new file and every marked line of a changed one, versions, four-digit numbers and sections take
   * their new numbers if the file is Markdown or the line is a comment; in other code only versions do. All else stays.
   */
  lemma {:induction false} AddedLinesMove(base: Option<seq<Line>>, cur: seq<Line>, kind: FileKind, maps: LineMaps, k: nat)
    requires k < |cur|
    ensures var r := RewriteAddedLines(base, cur, kind, maps)[k];
            if base.Some? && k !in AddedLines(base.value, cur) then r == cur[k] else Moves(cur[k], r, kind, maps)
  {
    AddedMoves(cur[k], kind, maps);
    hide AddedLines, RewriteAdded, Moves;
  }

  lemma {:induction false} AddedMoves(l: Line, kind: FileKind, maps: LineMaps)
    ensures Moves(l, RewriteAdded(l, kind, maps), kind, maps)
  {
    LineMoves(l, kind == AuditReport, maps);
    VersionsScan(l, maps.versions);
    CommentIff(l);
    hide RewriteLine, RewriteVersions, AllMoved, VersionsMoved, IsComment, CommentAt;
  }
}
