/**
 * Where the version sections of CHANGELOG.md stand and how they are cut, said on the file's lines: what `sortChangelogMd`
 * (scripts/renumber/plan.ts) sorts and `activeMdBlocks` (scripts/renumber/conflicts.ts) reads.
 */
module VersionSections {
  import opened ChangelogMd
  import opened Decimals
  import opened MdMerge
  import opened Seqs
  import opened Texts
  import opened Versions

  /** The series' header is on line `h`, with lines under it, and its body ends before line `e`: a rule or the end of the file. */
  predicate BodyAt(lines: seq<Line>, series: nat, h: int, e: int) {
    && 0 <= h && h + 1 < e <= |lines|
    && Contains(lines[h], Header(series)) && (forall i :: 0 <= i < h ==> !Contains(lines[i], Header(series)))
    && (forall i :: h + 2 <= i < e ==> !StartsWith(lines[i], "---")) && (e < |lines| ==> StartsWith(lines[e], "---"))
  }

  /** The first line at or after `from` that starts a version. */
  predicate FirstAt(lines: seq<Line>, from: int, f: int, e: int)
    requires 0 <= from && e <= |lines|
  {
    from <= f < e && StartsWith(lines[f], "### v") && forall i :: from <= i < f ==> !StartsWith(lines[i], "### v")
  }

  predicate HasNone(lines: seq<Line>, from: int, e: int)
    requires 0 <= from && e <= |lines|
  {
    forall i :: from <= i < e ==> !StartsWith(lines[i], "### v")
  }

  lemma {:induction false} BodyIs(lines: seq<Line>, series: nat, h: int, e: int)
    requires BodyAt(lines, series, h, e)
    ensures 0 <= h && h + 1 < e <= |lines|
    ensures HeaderLine(lines, series) == h && FindFrom(lines, IsRule, h + 2) == e
  {
    assert forall l :: HoldsHeader(series, l) <==> Contains(l, Header(series));
    hide HoldsHeader, Contains, StartsWith;
    FindFromIs(lines, (l: Line) => HoldsHeader(series, l), 0, h);
    FindFromIs(lines, IsRule, h + 2, e);
  }

  lemma {:induction false} FirstIs(lines: seq<Line>, from: nat, e: nat)
    requires from <= e <= |lines|
    ensures forall f :: FirstAt(lines, from, f, e) ==> FindFrom(lines, IsHeading, from) == f
    ensures HasNone(lines, from, e) ==> FindFrom(lines, IsHeading, from) >= e
  {
    hide StartsWith;
    forall f | FirstAt(lines, from, f, e) ensures FindFrom(lines, IsHeading, from) == f {
      FindFromIs(lines, IsHeading, from, f);
    }
  }

  /** What is sorted: from the first version under the body's first line to its end; nothing without one. */
  lemma {:induction false} SortsWhere(lines: seq<Line>, series: nat, h: int, e: int)
    requires BodyAt(lines, series, h, e)
    ensures 0 <= h && e <= |lines|
    ensures forall f :: FirstAt(lines, h + 2, f, e) ==>
              && 0 <= f < e
              && SortChangelogMd(lines, series) == lines[..f] + SortSection(lines[f..e]) + lines[e..]
    ensures HasNone(lines, h + 2, e) ==> SortChangelogMd(lines, series) == lines
  {
    BodyIs(lines, series, h, e);
    FirstIs(lines, h + 2, e);
    hide BodyAt, FirstAt, HasNone, HeaderLine, SortSection, IsRule;
    forall f | FirstAt(lines, h + 2, f, e)
      ensures 0 <= f < e && SortChangelogMd(lines, series) == lines[..f] + SortSection(lines[f..e]) + lines[e..]
    {
      assert 0 <= f < e by { FirstFits(lines, h + 2, f, e); }
      assert SectionOf(lines, series) == Some(Section(f, e));
    }
    if HasNone(lines, h + 2, e) {
      assert SectionOf(lines, series) == None;
    }
  }

  lemma {:induction false} FirstFits(lines: seq<Line>, from: nat, f: int, e: nat)
    requires e <= |lines| && FirstAt(lines, from, f, e)
    ensures from <= f < e && IsHeading(lines[f])
  {
  }

  /** A section: its heading, no other heading under it, and no empty line at its end. */
  predicate IsVersionText(t: Text) {
    t != [] && StartsWith(t[0], "### v") && t[|t| - 1] != "" && forall i :: 1 <= i < |t| ==> !StartsWith(t[i], "### v")
  }

  /** `lines` are the texts in order, each with the empty lines behind it. */
  predicate CutInto(lines: seq<Line>, texts: seq<Text>, blanks: seq<nat>) {
    && |blanks| == |texts| && lines == Assemble(texts, blanks) && forall t :: t in texts ==> IsVersionText(t)
  }

  lemma {:induction false} CutIsRead(lines: seq<Line>, texts: seq<Text>)
    requires lines != [] ==> IsHeading(lines[0])
    ensures TextsOf(lines) == texts <==> exists blanks :: CutInto(lines, texts, blanks)
  {
    assert forall t: Text :: IsText(t) <==> IsVersionText(t);
    hide IsText, IsVersionText;
    if blanks :| CutInto(lines, texts, blanks) {
      ReadAssembled(texts, blanks);
    }
    if TextsOf(lines) == texts {
      TextsAreTexts(lines);
      AssembleRead(lines);
      assert CutInto(lines, texts, BlanksOf(lines));
    }
  }

  /** Which sections are read: all of the body from its first version on, and nothing else. */
  lemma {:induction false} SectionsAreRead(lines: seq<Line>, series: nat, h: int, e: int)
    requires BodyAt(lines, series, h, e)
    ensures 0 <= h && e <= |lines|
    ensures HasNone(lines, h + 1, e) ==> ActiveSections(lines, series) == Some(Sections(h + 1, e, []))
    ensures forall f, texts :: FirstAt(lines, h + 1, f, e) ==>
              (ActiveSections(lines, series) == Some(Sections(f, e, texts)) <==> exists blanks :: CutInto(lines[f..e], texts, blanks))
  {
    BodyIs(lines, series, h, e);
    FirstIs(lines, h + 1, e);
    hide BodyAt, FirstAt, HasNone, HeaderLine, IsRule, CutInto, TextsOf;
    forall f: int, texts | FirstAt(lines, h + 1, f, e)
      ensures 0 <= f < e
      ensures ActiveSections(lines, series) == Some(Sections(f, e, texts)) <==> exists blanks :: CutInto(lines[f..e], texts, blanks)
    {
      FirstFits(lines, h + 1, f, e);
      CutIsRead(lines[f..e], texts);
      assert SectionsFrom(lines, h + 1) == Sections(f, e, TextsOf(lines[f..e]));
    }
  }

  /** A section sorts by the version its heading shows. */
  lemma {:induction false} HeadingShows(v: Version, rest: string, below: seq<Line>)
    requires rest == "" || !IsDigit(rest[0])
    ensures TextVersion(["### " + VersionText(v) + rest] + below) == v
  {
    var l := "### " + VersionText(v) + rest;
    MatchPrinted("### ", v, rest);
    assert l[..5] == "### v" by {
      assert l[4] == VersionText(v)[0] == 'v';
    }
  }
}
