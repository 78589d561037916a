/**
 * The lines under `### Unreleased` in a merge: `unreleasedLines` and `unionUnreleased` (scripts/renumber/conflicts.ts),
 * on the lines of CHANGELOG.md.
 */
module Unreleased {
  import opened ChangelogMd
  import opened Seqs
  import opened Texts

  const UNRELEASED := "### Unreleased"

  predicate NamesUnreleased(l: Line) { EndsWith(l, UNRELEASED) }

  /** `/^(### |---$|## )/`. */
  predicate EndsRegion(l: Line) { StartsWith(l, "### ") || l == "---" || StartsWith(l, "## ") }

  predicate Filled(l: Line) { !IsBlank(l) }

  /** Lines `start` up to `end`, without them. */
  datatype Region = Region(start: nat, end: nat)

  function RegionFrom(lines: seq<Line>, start: nat): Region
    requires start <= |lines|
  {
    Region(start, FindFrom(lines, EndsRegion, start))
  }

  /** `None`: no header of the series, or no `### Unreleased` line before its first version. */
  function RegionOf(lines: seq<Line>, series: nat): (r: Option<Region>)
    ensures r.Some? ==> HeaderLine(lines, series) < r.value.start <= r.value.end <= |lines|
  {
    var h := HeaderLine(lines, series);
    if h == |lines| then None
    else
      var u := FindFrom(lines, NamesUnreleased, h);
      var v := FindFrom(lines, IsHeading, h + 1);
      if u + 1 >= |lines| || u >= v then None else Some(RegionFrom(lines, u + 1))
  }

  /** The lines of the section, without the blank ones. */
  function LinesIn(lines: seq<Line>, r: Region): seq<Line>
    requires r.start <= r.end <= |lines|
  {
    Filter(lines[r.start..r.end], Filled)
  }

  /** No lines when there is no section. */
  function UnreleasedLines(lines: seq<Line>, series: nat): seq<Line> {
    match RegionOf(lines, series) case None => [] case Some(r) => LinesIn(lines, r)
  }

  /** The branch's lines that are new. */
  function Own(ours: seq<Line>, theirs: seq<Line>, ancestor: seq<Line>): seq<Line> {
    Filter(ours, (l: Line) => l !in theirs && l !in ancestor)
  }

  /** The base's lines the branch did not release. */
  function Kept(ours: seq<Line>, theirs: seq<Line>, ancestor: seq<Line>): seq<Line> {
    Filter(theirs, (l: Line) => !(l in ancestor && l !in ours))
  }

  function ReplaceRegion(out: seq<Line>, r: Region, ls: seq<Line>): seq<Line>
    requires r.start <= r.end <= |out|
  {
    out[..r.start] + ls + [""] + (if r.end == |out| then [""] else out[r.end..])
  }

  /** The empty line under the header after which a missing section is created; `|out|` when there is none. */
  function BlankLine(out: seq<Line>, series: nat): (p: nat)
    ensures p <= |out|
    ensures HeaderLine(out, series) < |out| ==> HeaderLine(out, series) < p
    ensures p < |out| ==> out[p] == ""
  {
    var h := HeaderLine(out, series);
    var from := if h == |out| then 0 else h;
    if out == [] then 0 else FindFrom(out, (l: Line) => l == "", from + 1)
  }

  /** Without such a line, or with it at the end of the file, the source inserts after the first character. */
  function CreateRegion(out: seq<Line>, series: nat, own: seq<Line>): seq<Line> {
    var p := BlankLine(out, series);
    if p + 1 < |out| then out[..p + 1] + [UNRELEASED] + own + [""] + out[p + 1..]
    else if out == [] || out == [""] then [UNRELEASED] + own + ["", ""]
    else if out[0] == "" then ["", UNRELEASED] + own + [""] + out[1..]
    else [out[0][..1] + UNRELEASED] + own + ["", out[0][1..]] + out[1..]
  }

  function UnionUnreleased(out: seq<Line>, ours: seq<Line>, base: seq<Line>, series: nat): seq<Line> {
    if RegionOf(ours, series).None? then out
    else
      var o, t, a := UnreleasedLines(ours, series), UnreleasedLines(out, series), UnreleasedLines(base, series);
      var own, kept := Own(o, t, a), Kept(o, t, a);
      if own == [] && |kept| == |t| then out
      else
        match RegionOf(out, series)
        case None => CreateRegion(out, series, own)
        case Some(r) => ReplaceRegion(out, r, own + kept)
  }

  // ---------------------------------------------------------------------------------------------
  // The exact three-way merge

  function SetOf(ls: seq<Line>): set<Line> { set l | l in ls }

  /** In both sides, or in one side and not in the ancestor. */
  function ThreeWay(o: set<Line>, t: set<Line>, a: set<Line>): set<Line> { o * t + (o - t - a) + (t - o - a) }

  predicate IsEntry(l: Line) { Filled(l) && !EndsRegion(l) }

  lemma {:induction false} EntriesOf(lines: seq<Line>, series: nat)
    ensures forall l :: l in UnreleasedLines(lines, series) ==> IsEntry(l)
  {
    hide Filled, EndsRegion;
    if RegionOf(lines, series).Some? {
      var r := RegionOf(lines, series).value;
      forall l | l in lines[r.start..r.end] ensures !EndsRegion(l) {
        var k :| 0 <= k < r.end - r.start && lines[r.start..r.end][k] == l;
        assert l == lines[r.start + k];
      }
    }
  }

  lemma {:induction false} FilledEntries(ls: seq<Line>, rest: seq<Line>)
    requires forall l :: l in ls ==> IsEntry(l)
    ensures Filter(ls + rest, Filled) == ls + Filter(rest, Filled)
  {
    FilterAppend(ls, rest, Filled);
    FilterAll(ls, Filled);
  }

  /** The section that starts after entries `ls` and an empty line reads as `ls` and what follows. */
  lemma {:induction false} ReadEntries(front: seq<Line>, ls: seq<Line>, rest: seq<Line>)
    requires forall l :: l in ls ==> IsEntry(l)
    ensures var all := front + ls + [""] + rest;
            LinesIn(all, RegionFrom(all, |front|)) == ls + LinesIn(rest, RegionFrom(rest, 0))
  {
    hide *;
    var e := FindFrom(rest, EndsRegion, 0);
    EntriesEnd(front, ls, rest);
    SliceEntries(front, ls, rest, e);
    SliceReads(front + ls + [""] + rest, |front|, ls, rest, e);
  }

  lemma {:induction false} SliceReads(all: seq<Line>, start: nat, ls: seq<Line>, rest: seq<Line>, e: nat)
    requires (forall l :: l in ls ==> IsEntry(l)) && e == FindFrom(rest, EndsRegion, 0)
    requires start <= |all| && start + |ls| + 1 + e == FindFrom(all, EndsRegion, start)
    requires all[start..start + |ls| + 1 + e] == ls + ([""] + rest[..e])
    ensures LinesIn(all, RegionFrom(all, start)) == ls + LinesIn(rest, RegionFrom(rest, 0))
  {
    hide *;
    RegionLines(all, start);
    FirstRegionLines(rest);
    FilledEntries(ls, [""] + rest[..e]);
    SkipBlank(rest[..e]);
  }

  lemma {:induction false} SliceEntries(front: seq<Line>, ls: seq<Line>, rest: seq<Line>, e: nat)
    requires e <= |rest|
    ensures (front + ls + [""] + rest)[|front|..|front| + |ls| + 1 + e] == ls + ([""] + rest[..e])
  {
  }

  lemma {:induction false} SkipBlank(rest: seq<Line>)
    ensures Filter([""] + rest, Filled) == Filter(rest, Filled)
  {
    assert !Filled("") && ([""] + rest)[1..] == rest;
    hide Filled;
  }

  lemma {:induction false} FirstRegionLines(lines: seq<Line>)
    ensures LinesIn(lines, RegionFrom(lines, 0)) == Filter(lines[..FindFrom(lines, EndsRegion, 0)], Filled)
  {
    assert lines[0..FindFrom(lines, EndsRegion, 0)] == lines[..FindFrom(lines, EndsRegion, 0)];
  }

  lemma {:induction false} RegionLines(lines: seq<Line>, start: nat)
    requires start <= |lines|
    ensures LinesIn(lines, RegionFrom(lines, start)) == Filter(lines[start..FindFrom(lines, EndsRegion, start)], Filled)
  {
  }

  lemma {:induction false} EntriesEnd(front: seq<Line>, ls: seq<Line>, rest: seq<Line>)
    requires forall l :: l in ls ==> IsEntry(l)
    ensures FindFrom(front + ls + [""] + rest, EndsRegion, |front|) == |front| + |ls| + 1 + FindFrom(rest, EndsRegion, 0)
  {
    var all := front + ls + [""] + rest;
    var e := FindFrom(rest, EndsRegion, 0);
    var n := |front| + |ls| + 1;
    assert !EndsRegion("");
    forall l | l in ls ensures !EndsRegion(l) {
      assert IsEntry(l);
    }
    hide Filled, EndsRegion, IsEntry;
    forall i | |front| <= i < n + e ensures !EndsRegion(all[i]) {
      assert all[i] == if i < n - 1 then ls[i - |front|] else if i == n - 1 then "" else rest[i - n];
    }
    FindFromIs(all, EndsRegion, |front|, n + e);
  }

  /** Line `u` opens the region when it is the first to name it and no version heading comes before it. */
  lemma {:induction false} RegionIs(lines: seq<Line>, series: nat, h: nat, u: nat)
    requires h <= u && u + 1 < |lines|
    requires HoldsHeader(series, lines[h]) && forall i :: 0 <= i < h ==> !HoldsHeader(series, lines[i])
    requires NamesUnreleased(lines[u]) && forall i :: h <= i < u ==> !NamesUnreleased(lines[i])
    requires forall i :: h < i <= u ==> !IsHeading(lines[i])
    ensures HeaderLine(lines, series) == h
    ensures RegionOf(lines, series) == Some(RegionFrom(lines, u + 1))
  {
    hide HoldsHeader, NamesUnreleased, IsHeading, RegionFrom;
    FindFromIs(lines, (l: Line) => HoldsHeader(series, l), 0, h);
    FindFromIs(lines, NamesUnreleased, h, u);
  }

  function RestOf(out: seq<Line>, r: Region): seq<Line>
    requires r.end <= |out|
  {
    if r.end == |out| then [""] else out[r.end..]
  }

  /** What is written over an existing section is read back, in order. */
  lemma {:induction false} ReplacedIsRead(out: seq<Line>, series: nat, ls: seq<Line>)
    requires RegionOf(out, series).Some? && forall l :: l in ls ==> IsEntry(l)
    ensures UnreleasedLines(ReplaceRegion(out, RegionOf(out, series).value, ls), series) == ls
  {
    hide *;
    RegionStart(out, series);
    var r := RegionOf(out, series).value;
    var after := ReplaceRegion(out, r, ls);
    var h, u := HeaderLine(out, series), r.start - 1;
    RestIsBare(out, u + 1);
    ReplacedParts(out, r, ls);
    ReadEntries(out[..r.start], ls, RestOf(out, r));
    RegionIs(after, series, h, u);
    SectionReads(after, series, u + 1);
  }

  lemma {:induction false} ReplacedParts(out: seq<Line>, r: Region, ls: seq<Line>)
    requires r.start <= r.end <= |out|
    ensures ReplaceRegion(out, r, ls) == out[..r.start] + ls + [""] + RestOf(out, r)
    ensures |ReplaceRegion(out, r, ls)| > r.start
    ensures forall i :: 0 <= i < r.start ==> ReplaceRegion(out, r, ls)[i] == out[i]
  {
  }

  lemma {:induction false} SectionReads(lines: seq<Line>, series: nat, start: nat)
    requires start <= |lines| && RegionOf(lines, series) == Some(RegionFrom(lines, start))
    ensures UnreleasedLines(lines, series) == LinesIn(lines, RegionFrom(lines, start))
  {
  }

  /** Nothing between the end of a section and the line that ends it. */
  lemma {:induction false} RestIsBare(out: seq<Line>, start: nat)
    requires start <= |out|
    ensures var rest := RestOf(out, RegionFrom(out, start));
            rest != [] && LinesIn(rest, RegionFrom(rest, 0)) == []
  {
    var r := RegionFrom(out, start);
    var rest := RestOf(out, r);
    assert !EndsRegion("") && !Filled("");
    hide EndsRegion, Filled;
    FindFromIs(rest, EndsRegion, 0, if r.end < |out| then 0 else 1);
  }

  lemma {:induction false} RegionStart(lines: seq<Line>, series: nat)
    requires RegionOf(lines, series).Some?
    ensures var h, u := HeaderLine(lines, series), RegionOf(lines, series).value.start - 1;
            && h <= u && u + 1 < |lines| && HoldsHeader(series, lines[h]) && NamesUnreleased(lines[u])
            && (forall i :: h <= i < u ==> !NamesUnreleased(lines[i]))
            && (forall i :: h < i <= u ==> !IsHeading(lines[i]))
            && (forall i :: 0 <= i < h ==> !HoldsHeader(series, lines[i]))
            && RegionOf(lines, series) == Some(RegionFrom(lines, u + 1))
  {
  }

  /** The lines a section created under the blank line would take in, because no heading follows the blank line. */
  function Stray(out: seq<Line>, series: nat): seq<Line>
    requires BlankLine(out, series) + 1 < |out|
  {
    LinesIn(out, RegionFrom(out, BlankLine(out, series) + 1))
  }

  /** The first version heading under the header; `|out|` when there is none. */
  function FirstHeading(out: seq<Line>, series: nat): (v: nat)
    requires HeaderLine(out, series) < |out|
    ensures HeaderLine(out, series) < v <= |out|
  {
    FindFrom(out, IsHeading, HeaderLine(out, series) + 1)
  }

  /** A created section is read back before the first version only, together with the stray lines under it. */
  lemma {:induction false} CreatedIsRead(out: seq<Line>, series: nat, own: seq<Line>)
    requires HeaderLine(out, series) < |out| && BlankLine(out, series) + 1 < |out|
    requires RegionOf(out, series).None? && forall l :: l in own ==> IsEntry(l)
    ensures UnreleasedLines(CreateRegion(out, series, own), series)
         == if BlankLine(out, series) < FirstHeading(out, series) then own + Stray(out, series) else []
  {
    hide *;
    var h, p, v := HeaderLine(out, series), BlankLine(out, series), FirstHeading(out, series);
    var front := out[..p + 1] + [UNRELEASED];
    var after := CreateRegion(out, series, own);
    CreatedParts(out, series, own);
    NotYetNamed(out, series, p + 1);
    UnreleasedIsNoHeading();
    if p < v {
      ReadEntries(front, own, out[p + 1..]);
      RestReads(out, p + 1);
      RegionIs(after, series, h, p + 1);
      SectionReads(after, series, p + 2);
      StrayReads(out, series);
    } else {
      NoRegion(after, series, h, v);
      NoSection(after, series);
    }
  }

  lemma {:induction false} UnreleasedIsNoHeading()
    ensures NamesUnreleased(UNRELEASED) && !IsHeading(UNRELEASED) && !IsHeading("")
  {
    assert UNRELEASED[..5][4] == 'U';
  }

  lemma {:induction false} NoSection(lines: seq<Line>, series: nat)
    requires RegionOf(lines, series).None?
    ensures UnreleasedLines(lines, series) == []
  {
  }

  lemma {:induction false} StrayReads(out: seq<Line>, series: nat)
    requires BlankLine(out, series) + 1 < |out|
    ensures Stray(out, series) == LinesIn(out, RegionFrom(out, BlankLine(out, series) + 1))
  {
  }

  lemma {:induction false} CreatedParts(out: seq<Line>, series: nat, own: seq<Line>)
    requires HeaderLine(out, series) < |out| && BlankLine(out, series) + 1 < |out|
    ensures var h, p, v := HeaderLine(out, series), BlankLine(out, series), FirstHeading(out, series);
            var after := CreateRegion(out, series, own);
            && after == out[..p + 1] + [UNRELEASED] + own + [""] + out[p + 1..]
            && |after| > p + 2 && after[p + 1] == UNRELEASED
            && (forall i :: 0 <= i <= p ==> after[i] == out[i])
            && HoldsHeader(series, out[h]) && (forall i :: 0 <= i < h ==> !HoldsHeader(series, out[i]))
            && (forall i :: h < i < v ==> !IsHeading(out[i]))
            && (v < |out| ==> IsHeading(out[v])) && out[p] == ""
  {
    var p := BlankLine(out, series);
    var after := CreateRegion(out, series, own);
    hide HoldsHeader, IsHeading;
    assert after == out[..p + 1] + [UNRELEASED] + own + [""] + out[p + 1..];
  }

  lemma {:induction false} NotYetNamed(out: seq<Line>, series: nat, p: nat)
    requires HeaderLine(out, series) < |out| && p < |out| && RegionOf(out, series).None?
    ensures forall i :: HeaderLine(out, series) <= i < p && i < FirstHeading(out, series) ==> !NamesUnreleased(out[i])
  {
  }

  lemma {:induction false} RestReads(out: seq<Line>, k: nat)
    requires k <= |out|
    ensures LinesIn(out[k..], RegionFrom(out[k..], 0)) == LinesIn(out, RegionFrom(out, k))
  {
    hide EndsRegion;
    var e := FindFrom(out, EndsRegion, k);
    assert forall i :: 0 <= i < |out| - k ==> out[k..][i] == out[k + i];
    FindFromIs(out[k..], EndsRegion, 0, e - k);
    assert out[k..][..e - k] == out[k..e];
  }

  /** A version heading with no named line before it hides whatever comes later. */
  lemma {:induction false} NoRegion(lines: seq<Line>, series: nat, h: nat, v: nat)
    requires h < v < |lines|
    requires HoldsHeader(series, lines[h]) && forall i :: 0 <= i < h ==> !HoldsHeader(series, lines[i])
    requires IsHeading(lines[v]) && forall i :: h <= i < v ==> !NamesUnreleased(lines[i])
    ensures RegionOf(lines, series) == None
  {
    hide HoldsHeader, NamesUnreleased, IsHeading;
    FindFromIs(lines, (l: Line) => HoldsHeader(series, l), 0, h);
  }

  // ---------------------------------------------------------------------------------------------
  // Without an empty line under the header

  /** The header of the series is on one line of the file, and on none of the lines to be written. */
  ghost predicate QuotedOnce(out: seq<Line>, series: nat, own: seq<Line>) {
    && (forall i :: 0 <= i < |out| && i != HeaderLine(out, series) ==> !HoldsHeader(series, out[i]))
    && (forall l :: l in own ==> !HoldsHeader(series, l))
  }

  /** The lines from the header on are where they were, `d` lines further down. */
  lemma {:induction false} ShiftedHasNone(r: seq<Line>, out: seq<Line>, series: nat, d: nat)
    requires HeaderLine(out, series) < |out| && RegionOf(out, series).None? && |r| == |out| + d
    requires var h := HeaderLine(out, series);
             && HoldsHeader(series, r[h + d]) && (forall i :: 0 <= i < h + d ==> !HoldsHeader(series, r[i]))
             && (forall i :: h + d < i < |r| ==> r[i] == out[i - d])
             && (NamesUnreleased(r[h + d]) ==> NamesUnreleased(out[h]))
    ensures RegionOf(r, series).None?
  {
    hide HoldsHeader, NamesUnreleased, IsHeading;
    var h := HeaderLine(out, series);
    FindFromIs(r, (l: Line) => HoldsHeader(series, l), 0, h + d);
    var u, v := FindFrom(out, NamesUnreleased, h), FindFrom(out, IsHeading, h + 1);
    FindFromIs(r, IsHeading, h + d + 1, v + d);
    forall i | h + d <= i < u + d ensures !NamesUnreleased(r[i]) {
      assert i == h + d || r[i] == out[i - d];
    }
  }

  lemma {:induction false} SuffixOfLine(series: nat, l: Line)
    requires l != ""
    ensures HoldsHeader(series, l[1..]) ==> HoldsHeader(series, l)
    ensures NamesUnreleased(l[1..]) ==> NamesUnreleased(l)
  {
    var t := l[1..];
    if HoldsHeader(series, t) {
      var i :| 0 <= i <= |t| && StartsWith(t[i..], Header(series));
      assert t[i..] == l[1 + i..];
    }
    if NamesUnreleased(t) {
      assert t[|t| - |UNRELEASED|..] == l[|l| - |UNRELEASED|..];
    }
  }

  lemma {:induction false} ShortHoldsNone(series: nat, l: Line)
    requires |l| <= |UNRELEASED| + 1
    ensures !HoldsHeader(series, l)
  {
    assert |Header(series)| > 20;
  }

  /** Without a header there is no section. */
  lemma {:induction false} NoHeaderNoRegion(r: seq<Line>, series: nat)
    requires forall l :: l in r ==> !HoldsHeader(series, l)
    ensures RegionOf(r, series).None?
  {
    hide HoldsHeader;
    FindFromIs(r, (l: Line) => HoldsHeader(series, l), 0, |r|);
  }

  /** The lines written after the first character of the file are not read back: they stand above the header. */
  lemma {:induction false} LinesAreLost(out: seq<Line>, series: nat, own: seq<Line>)
    requires HeaderLine(out, series) < |out| && BlankLine(out, series) + 1 >= |out|
    requires RegionOf(out, series).None? && QuotedOnce(out, series, own)
    ensures UnreleasedLines(CreateRegion(out, series, own), series) == []
  {
    var r, h := CreateRegion(out, series, own), HeaderLine(out, series);
    ShortHoldsNone(series, "");
    ShortHoldsNone(series, UNRELEASED);
    assert out != [] && (out[0] == "" ==> h > 0 && out != [""]);
    if out[0] == "" {
      EmptyFirst(out, series, own);
    } else {
      CutFirst(out, series, own);
    }
    NoSection(r, series);
  }

  lemma {:induction false} EmptyFirst(out: seq<Line>, series: nat, own: seq<Line>)
    requires HeaderLine(out, series) < |out| && RegionOf(out, series).None? && QuotedOnce(out, series, own)
    requires out[0] == "" && HeaderLine(out, series) > 0
    ensures RegionOf(["", UNRELEASED] + own + [""] + out[1..], series).None?
  {
    var front := ["", UNRELEASED] + own + [""];
    var r, d, h := front + out[1..], |front| - 1, HeaderLine(out, series);
    ShortHoldsNone(series, "");
    ShortHoldsNone(series, UNRELEASED);
    hide HoldsHeader, NamesUnreleased, HeaderLine;
    assert forall i :: |front| <= i < |r| ==> r[i] == out[i - d];
    forall i | 0 <= i < h + d ensures !HoldsHeader(series, r[i]) {
      assert i < |front| ==> r[i] == front[i] && (r[i] == "" || r[i] == UNRELEASED || r[i] in own);
    }
    HeaderThere(out, series);
    ShiftedHasNone(r, out, series, d);
  }

  lemma {:induction false} HeaderThere(out: seq<Line>, series: nat)
    requires HeaderLine(out, series) < |out|
    ensures HoldsHeader(series, out[HeaderLine(out, series)])
  {
  }

  lemma {:induction false} CutFirst(out: seq<Line>, series: nat, own: seq<Line>)
    requires HeaderLine(out, series) < |out| && RegionOf(out, series).None? && QuotedOnce(out, series, own)
    requires out[0] != ""
    ensures RegionOf([out[0][..1] + UNRELEASED] + own + ["", out[0][1..]] + out[1..], series).None?
  {
    var first := out[0][..1] + UNRELEASED;
    var front := [first] + own + [""];
    var r, d, h := front + [out[0][1..]] + out[1..], |front|, HeaderLine(out, series);
    ShortHoldsNone(series, "");
    ShortHoldsNone(series, first);
    SuffixOfLine(series, out[0]);
    hide HoldsHeader, NamesUnreleased, HeaderLine;
    assert r == [first] + own + ["", out[0][1..]] + out[1..];
    assert forall i :: d < i < |r| ==> r[i] == out[i - d];
    assert r[d] == out[0][1..];
    forall i | 0 <= i < |r| && i != h + d ensures !HoldsHeader(series, r[i]) {
      assert i < d ==> r[i] == front[i] && (r[i] == "" || r[i] == first || r[i] in own);
    }
    HeaderThere(out, series);
    if HoldsHeader(series, r[h + d]) {
      ShiftedHasNone(r, out, series, d);
    } else {
      NoHeaderNoRegion(r, series);
    }
  }

  lemma {:induction false} FilterIsFull(s: seq<Line>, p: Line -> bool)
    requires |Filter(s, p)| == |s|
    ensures Filter(s, p) == s
  {
    if s != [] {
      FilterIsFull(s[1..], p);
    }
  }

  /** The merged lines: the branch's new ones on top, then the base's. */
  lemma {:induction false} MergedLines(out: seq<Line>, ours: seq<Line>, base: seq<Line>, series: nat)
    requires RegionOf(ours, series).Some? && RegionOf(out, series).Some?
    ensures var o, t, a := UnreleasedLines(ours, series), UnreleasedLines(out, series), UnreleasedLines(base, series);
            UnreleasedLines(UnionUnreleased(out, ours, base, series), series) == Own(o, t, a) + Kept(o, t, a)
  {
    var o, t, a := UnreleasedLines(ours, series), UnreleasedLines(out, series), UnreleasedLines(base, series);
    EntriesOf(ours, series);
    EntriesOf(out, series);
    var own, kept := Own(o, t, a), Kept(o, t, a);
    hide UnreleasedLines, IsEntry, ReplaceRegion, CreateRegion;
    if own == [] && |kept| == |t| {
      FilterIsFull(t, (l: Line) => !(l in a && l !in o));
      assert own + kept == t;
    } else {
      ReplacedIsRead(out, series, own + kept);
    }
  }

  predicate MergesExactly(out: seq<Line>, ours: seq<Line>, base: seq<Line>, series: nat)
    requires HeaderLine(out, series) < |out|
  {
    var own := Own(UnreleasedLines(ours, series), UnreleasedLines(out, series), UnreleasedLines(base, series));
    if RegionOf(ours, series).None? then SetOf(UnreleasedLines(out, series)) !! SetOf(UnreleasedLines(base, series))
    else || RegionOf(out, series).Some?
         || own == []
         || (&& BlankLine(out, series) + 1 < |out| && BlankLine(out, series) < FirstHeading(out, series)
             && SetOf(Stray(out, series)) <= SetOf(own))
  }

  /**
   * The Unreleased lines of the merge are exactly the three-way merge of the two sides, except: a branch without the
   * section releases nothing, so the lines the base kept from the ancestor stay; and a section that must be created is
   * read back only if there is an empty line under the header before the first version, and takes in whatever lines
   * stand there.
   */
  lemma {:induction false} UnionIsThreeWayIff(out: seq<Line>, ours: seq<Line>, base: seq<Line>, series: nat)
    requires HeaderLine(out, series) < |out|
    requires BlankLine(out, series) + 1 >= |out| ==> QuotedOnce(out, series, UnreleasedLines(ours, series))
    ensures SetOf(UnreleasedLines(UnionUnreleased(out, ours, base, series), series))
            == ThreeWay(SetOf(UnreleasedLines(ours, series)), SetOf(UnreleasedLines(out, series)), SetOf(UnreleasedLines(base, series)))
       <==> MergesExactly(out, ours, base, series)
  {
    var o, t, a := UnreleasedLines(ours, series), UnreleasedLines(out, series), UnreleasedLines(base, series);
    MergedSets(o, t, a);
    hide *;
    if RegionOf(ours, series).None? {
      NoBranchSection(out, ours, base, series);
    } else if RegionOf(out, series).Some? {
      MergedLines(out, ours, base, series);
      BothSections(out, ours, base, series);
    } else {
      NoBaseSection(out, ours, base, series);
      CreatedMerge(out, ours, base, series, Own(o, t, a));
    }
  }

  lemma {:induction false} BothSections(out: seq<Line>, ours: seq<Line>, base: seq<Line>, series: nat)
    requires HeaderLine(out, series) < |out|
    requires RegionOf(ours, series).Some? && RegionOf(out, series).Some?
    ensures MergesExactly(out, ours, base, series)
  {
  }

  lemma {:induction false} NoBaseSection(out: seq<Line>, ours: seq<Line>, base: seq<Line>, series: nat)
    requires RegionOf(out, series).None?
    ensures var o, t, a := UnreleasedLines(ours, series), UnreleasedLines(out, series), UnreleasedLines(base, series);
            Own(o, t, a) + Kept(o, t, a) == Own(o, t, a)
  {
    var o, a := UnreleasedLines(ours, series), UnreleasedLines(base, series);
    assert Kept(o, [], a) == [];
    assert Own(o, [], a) + [] == Own(o, [], a);
  }

  lemma {:induction false} CreatedMerge(out: seq<Line>, ours: seq<Line>, base: seq<Line>, series: nat, own: seq<Line>)
    requires HeaderLine(out, series) < |out|
    requires BlankLine(out, series) + 1 >= |out| ==> QuotedOnce(out, series, UnreleasedLines(ours, series))
    requires RegionOf(ours, series).Some? && RegionOf(out, series).None?
    requires own == Own(UnreleasedLines(ours, series), UnreleasedLines(out, series), UnreleasedLines(base, series))
    ensures SetOf(UnreleasedLines(UnionUnreleased(out, ours, base, series), series)) == SetOf(own)
       <==> MergesExactly(out, ours, base, series)
  {
    hide *;
    Created(out, ours, base, series, own);
    EntriesOf(ours, series);
    if own != [] {
      if BlankLine(out, series) + 1 < |out| {
        CreatedIsRead(out, series, own);
        SetFacts(own, Stray(out, series));
      } else {
        StillOnce(out, series, UnreleasedLines(ours, series), own);
        LinesAreLost(out, series, own);
        SetFacts(own, []);
      }
    }
  }

  lemma {:induction false} StillOnce(out: seq<Line>, series: nat, lines: seq<Line>, own: seq<Line>)
    requires QuotedOnce(out, series, lines) && forall l :: l in own ==> l in lines
    ensures QuotedOnce(out, series, own)
  {
    hide HoldsHeader, HeaderLine;
  }

  lemma {:induction false} SetFacts(x: seq<Line>, y: seq<Line>)
    ensures SetOf(x + y) == SetOf(x) + SetOf(y)
    ensures x != [] ==> SetOf(x) != SetOf([])
  {
    assert x != [] ==> x[0] in SetOf(x);
  }

  lemma {:induction false} Created(out: seq<Line>, ours: seq<Line>, base: seq<Line>, series: nat, own: seq<Line>)
    requires HeaderLine(out, series) < |out|
    requires RegionOf(ours, series).Some? && RegionOf(out, series).None?
    requires own == Own(UnreleasedLines(ours, series), UnreleasedLines(out, series), UnreleasedLines(base, series))
    ensures UnreleasedLines(out, series) == []
    ensures UnionUnreleased(out, ours, base, series) == if own == [] then out else CreateRegion(out, series, own)
    ensures forall l :: l in own ==> l in UnreleasedLines(ours, series)
    ensures MergesExactly(out, ours, base, series)
       <==> || own == []
            || (&& BlankLine(out, series) + 1 < |out| && BlankLine(out, series) < FirstHeading(out, series)
                && SetOf(Stray(out, series)) <= SetOf(own))
  {
    hide BlankLine, FirstHeading, Stray, CreateRegion, RegionOf;
  }

  lemma {:induction false} NoBranchSection(out: seq<Line>, ours: seq<Line>, base: seq<Line>, series: nat)
    requires HeaderLine(out, series) < |out|
    requires RegionOf(ours, series).None?
    ensures UnreleasedLines(ours, series) == [] && UnionUnreleased(out, ours, base, series) == out
    ensures MergesExactly(out, ours, base, series)
       <==> SetOf(UnreleasedLines(out, series)) !! SetOf(UnreleasedLines(base, series))
  {
  }

  lemma {:induction false} MergedSets(o: seq<Line>, t: seq<Line>, a: seq<Line>)
    ensures SetOf(Own(o, t, a) + Kept(o, t, a)) == ThreeWay(SetOf(o), SetOf(t), SetOf(a))
    ensures forall x: seq<Line>, y: seq<Line> :: SetOf(x + y) == SetOf(x) + SetOf(y)
    ensures o == [] ==> (SetOf(t) == ThreeWay(SetOf(o), SetOf(t), SetOf(a)) <==> SetOf(t) !! SetOf(a))
  {
  }

  /** With a section on both sides it does not matter which side is the branch. */
  lemma {:induction false} UnionIsSymmetric(left: seq<Line>, right: seq<Line>, base: seq<Line>, series: nat)
    requires RegionOf(left, series).Some? && RegionOf(right, series).Some?
    ensures SetOf(UnreleasedLines(UnionUnreleased(left, right, base, series), series))
         == SetOf(UnreleasedLines(UnionUnreleased(right, left, base, series), series))
  {
    var l, r, a := UnreleasedLines(left, series), UnreleasedLines(right, series), UnreleasedLines(base, series);
    MergedLines(left, right, base, series);
    MergedLines(right, left, base, series);
    MergedSets(l, r, a);
    MergedSets(r, l, a);
  }

  /** The first exception at work: the base cut no release, the branch did, and the released line stays unreleased. */
  lemma {:induction false} ReleasedLineStays(series: nat)
    ensures var base := [Header(series), "", UNRELEASED, "- a", ""];
            var ours := [Header(series), "", "### v1.0.0", "- a"];
            && UnreleasedLines(base, series) == ["- a"] && UnreleasedLines(ours, series) == []
            && UnreleasedLines(UnionUnreleased(base, ours, base, series), series) == ["- a"]
            && ThreeWay({}, {"- a"}, {"- a"}) == {}
  {
    var base := [Header(series), "", UNRELEASED, "- a", ""];
    var ours := [Header(series), "", "### v1.0.0", "- a"];
    ExampleLines(series);
    hide *;
    RegionIs(base, series, 0, 2);
    SectionReads(base, series, 3);
    ExampleReads(base);
    NoRegion(ours, series, 0, 2);
    NoSection(ours, series);
    NothingToUnite(base, ours, base, series);
    assert ThreeWay({}, {"- a"}, {"- a"}) == {} by {
      NothingReleased("- a");
    }
  }

  lemma {:induction false} ExampleLines(series: nat)
    ensures HoldsHeader(series, Header(series)) && !NamesUnreleased(Header(series)) && !NamesUnreleased("")
    ensures NamesUnreleased(UNRELEASED) && !IsHeading(UNRELEASED) && !IsHeading("") && !IsHeading("- a") && IsHeading("### v1.0.0")
  {
    HeaderHolds(series);
    UnreleasedIsNoHeading();
  }

  lemma {:induction false} ExampleReads(base: seq<Line>)
    requires |base| == 5 && base[3] == "- a" && base[4] == ""
    ensures LinesIn(base, RegionFrom(base, 3)) == ["- a"]
  {
    var l: Line := "- a";
    assert l[0] == '-' && l[0] in l && l[1] == ' ' && l[..3][0] == '-';
    assert !EndsRegion("- a") && !EndsRegion("") && !Filled("") && Filled("- a");
    hide EndsRegion, Filled;
    FindFromIs(base, EndsRegion, 3, 5);
    RegionLines(base, 3);
    FilterAppend([l], [""], Filled);
    FilterAll([l], Filled);
    FilterNone([""], Filled);
    assert base[3..5] == [l] + [""];
  }

  lemma {:induction false} NothingToUnite(out: seq<Line>, ours: seq<Line>, base: seq<Line>, series: nat)
    requires RegionOf(ours, series).None?
    ensures UnionUnreleased(out, ours, base, series) == out
  {
  }

  lemma {:induction false} NothingReleased(l: Line)
    ensures ThreeWay({}, {l}, {l}) == {}
  {
  }

  lemma {:induction false} HeaderHolds(series: nat)
    ensures HoldsHeader(series, Header(series))
  {
    assert StartsWith(Header(series)[0..], Header(series));
  }
}
