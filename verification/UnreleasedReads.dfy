/** Which lines are the Unreleased lines of a file, and which lines a merge writes for them, said on the file's lines. */
module UnreleasedReads {
  import opened ChangelogMd
  import opened Seqs
  import opened Texts
  import opened Unreleased

  /** `### Unreleased` stands on line `u` under the header on line `h`, before any version, and its section ends before `e`. */
  predicate SectionAt(lines: seq<Line>, series: nat, h: int, u: int, e: int) {
    && 0 <= h <= u && u + 1 < |lines| && u < e <= |lines|
    && Contains(lines[h], Header(series)) && (forall i :: 0 <= i < h ==> !Contains(lines[i], Header(series)))
    && EndsWith(lines[u], "### Unreleased") && (forall i :: h <= i < u ==> !EndsWith(lines[i], "### Unreleased"))
    && (forall i :: h < i <= u ==> !StartsWith(lines[i], "### v"))
    && (forall i :: u < i < e ==> !Ends(lines[i])) && (e < |lines| ==> Ends(lines[e]))
  }

  /** A heading of a version, of the file, or a rule. */
  predicate Ends(l: Line) { StartsWith(l, "### ") || StartsWith(l, "## ") || l == "---" }

  predicate HasText(l: Line) { exists c :: c in l && !IsWhite(c) }

  /** The lines with text from the section's first to its last. */
  function Listed(lines: seq<Line>, u: nat, e: nat): seq<Line>
    requires u < e <= |lines|
  {
    Filter(lines[u + 1..e], HasText)
  }

  lemma {:induction false} SectionIs(lines: seq<Line>, series: nat, h: int, u: int, e: int)
    requires SectionAt(lines, series, h, u, e)
    ensures HeaderLine(lines, series) == h && RegionOf(lines, series) == Some(Region(u + 1, e))
  {
    assert forall l :: EndsRegion(l) <==> Ends(l);
    assert forall l :: NamesUnreleased(l) <==> EndsWith(l, "### Unreleased");
    assert forall l :: IsHeading(l) <==> StartsWith(l, "### v");
    assert forall l :: HoldsHeader(series, l) <==> Contains(l, Header(series));
    hide EndsRegion, Ends, NamesUnreleased, IsHeading, HoldsHeader, Contains, StartsWith, EndsWith;
    RegionIs(lines, series, h, u);
    FindFromIs(lines, EndsRegion, u + 1, e);
  }

  lemma {:induction false} SectionFound(lines: seq<Line>, series: nat)
    requires RegionOf(lines, series).Some?
    ensures var r := RegionOf(lines, series).value;
            SectionAt(lines, series, HeaderLine(lines, series), r.start - 1, r.end)
  {
    RegionStart(lines, series);
    assert forall l :: EndsRegion(l) <==> Ends(l);
    hide EndsRegion, Ends, NamesUnreleased, IsHeading, RegionOf;
    var r := RegionOf(lines, series).value;
    assert r == RegionFrom(lines, r.start);
    forall i | 0 <= i < |lines| ensures NamesUnreleased(lines[i]) <==> EndsWith(lines[i], "### Unreleased") {
      NamesIs(lines[i]);
    }
  }

  lemma {:induction false} NamesIs(l: Line)
    ensures NamesUnreleased(l) <==> EndsWith(l, "### Unreleased")
    ensures IsHeading(l) <==> StartsWith(l, "### v")
  {
  }

  lemma {:induction false} TextIs(ls: seq<Line>)
    ensures Filter(ls, Filled) == Filter(ls, HasText)
  {
    FilterAgree(ls, Filled, HasText);
  }

  lemma {:induction false} SectionFits(lines: seq<Line>, series: nat, h: int, u: int, e: int)
    requires SectionAt(lines, series, h, u, e)
    ensures 0 <= u < e <= |lines|
  {
  }

  /** The Unreleased lines are those listed in the section, in order; without a section there are none. */
  lemma {:induction false} LinesAreListed(lines: seq<Line>, series: nat)
    ensures forall h, u, e :: SectionAt(lines, series, h, u, e) ==> UnreleasedLines(lines, series) == Listed(lines, u, e)
    ensures (forall h, u, e :: !SectionAt(lines, series, h, u, e)) ==> UnreleasedLines(lines, series) == []
  {
    hide SectionAt, RegionOf, Filled, HasText, HeaderLine;
    forall h, u, e | SectionAt(lines, series, h, u, e)
      ensures 0 <= u < e <= |lines| && UnreleasedLines(lines, series) == Listed(lines, u, e)
    {
      SectionFits(lines, series, h, u, e);
      SectionIs(lines, series, h, u, e);
      TextIs(lines[u + 1..e]);
    }
    if RegionOf(lines, series).Some? {
      SectionFound(lines, series);
    }
  }

  // ---------------------------------------------------------------------------------------------
  // What a merge writes

  /** The branch's lines that neither the base nor the ancestor lists. */
  function Added(ours: seq<Line>, theirs: seq<Line>, base: seq<Line>, series: nat): seq<Line> {
    var o, t, a := UnreleasedLines(ours, series), UnreleasedLines(theirs, series), UnreleasedLines(base, series);
    Filter(o, (l: Line) => l !in t && l !in a)
  }

  /** The base's lines, without those the branch took out of what the ancestor listed. */
  function Remaining(ours: seq<Line>, theirs: seq<Line>, base: seq<Line>, series: nat): seq<Line> {
    var o, t, a := UnreleasedLines(ours, series), UnreleasedLines(theirs, series), UnreleasedLines(base, series);
    Filter(t, (l: Line) => l in o || l !in a)
  }

  /**
   * Only the lines of the section are written: the branch's new lines on top of the base's, and an empty line. The lines
   * above and below stay as they are; with nothing to change the whole file does.
   */
  lemma {:induction false} SectionIsWritten(out: seq<Line>, ours: seq<Line>, base: seq<Line>, series: nat, h: int, u: int, e: int)
    requires RegionOf(ours, series).Some? && SectionAt(out, series, h, u, e)
    ensures 0 <= u < e <= |out|
    ensures var r := UnionUnreleased(out, ours, base, series);
            var added, left := Added(ours, out, base, series), Remaining(ours, out, base, series);
            if added == [] && left == UnreleasedLines(out, series) then r == out
            else r == out[..u + 1] + added + left + [""] + (if e < |out| then out[e..] else [""])
  {
    hide RegionOf, SectionAt;
    SectionFits(out, series, h, u, e);
    SectionIs(out, series, h, u, e);
    KeptIsLeft(out, ours, base, series);
    hide UnreleasedLines, Own, Kept, Added, Remaining;
    var r := Region(u + 1, e);
    var added, left := Added(ours, out, base, series), Remaining(ours, out, base, series);
    if !(added == [] && left == UnreleasedLines(out, series)) {
      assert UnionUnreleased(out, ours, base, series) == ReplaceRegion(out, r, added + left);
      assert out[..u + 1] + (added + left) == out[..u + 1] + added + left;
    }
  }

  lemma {:induction false} KeptIsLeft(out: seq<Line>, ours: seq<Line>, base: seq<Line>, series: nat)
    ensures var o, t, a := UnreleasedLines(ours, series), UnreleasedLines(out, series), UnreleasedLines(base, series);
            && Own(o, t, a) == Added(ours, out, base, series) && Kept(o, t, a) == Remaining(ours, out, base, series)
            && (|Kept(o, t, a)| == |t| <==> Remaining(ours, out, base, series) == t)
  {
    hide UnreleasedLines;
    var o, t, a := UnreleasedLines(ours, series), UnreleasedLines(out, series), UnreleasedLines(base, series);
    var kept := (l: Line) => !(l in a && l !in o);
    FilterAgree(t, kept, (l: Line) => l in o || l !in a);
    if |Kept(o, t, a)| == |t| {
      FilterIsFull(t, kept);
    }
  }

  /** The first empty line under the header, with a line behind it. */
  predicate GapAt(out: seq<Line>, series: nat, h: int, p: int) {
    && 0 <= h < p && p + 1 < |out|
    && Contains(out[h], Header(series)) && (forall i :: 0 <= i < h ==> !Contains(out[i], Header(series)))
    && out[p] == "" && (forall i :: h < i < p ==> out[i] != "")
  }

  /** A missing section is written behind that line, and nothing else changes; without new lines nothing does. */
  lemma {:induction false} SectionIsCreated(out: seq<Line>, ours: seq<Line>, base: seq<Line>, series: nat, h: int, p: int)
    requires RegionOf(ours, series).Some? && RegionOf(out, series).None? && GapAt(out, series, h, p)
    ensures 0 <= p && p + 1 < |out|
    ensures var added := Added(ours, out, base, series);
            UnionUnreleased(out, ours, base, series)
            == if added == [] then out else out[..p + 1] + ["### Unreleased"] + added + [""] + out[p + 1..]
  {
    hide *;
    GapIs(out, series, h, p);
    NoSection(out, series);
    KeptIsLeft(out, ours, base, series);
    NothingRemains(out, ours, base, series);
    CreatesOrKeeps(out, ours, base, series, Added(ours, out, base, series));
    CreatedAt(out, series, Added(ours, out, base, series));
  }

  lemma {:induction false} NothingRemains(out: seq<Line>, ours: seq<Line>, base: seq<Line>, series: nat)
    requires UnreleasedLines(out, series) == []
    ensures Remaining(ours, out, base, series) == []
  {
  }

  lemma {:induction false} CreatesOrKeeps(out: seq<Line>, ours: seq<Line>, base: seq<Line>, series: nat, added: seq<Line>)
    requires RegionOf(ours, series).Some? && RegionOf(out, series).None? && UnreleasedLines(out, series) == []
    requires var o, t, a := UnreleasedLines(ours, series), UnreleasedLines(out, series), UnreleasedLines(base, series);
             Own(o, t, a) == added && Kept(o, t, a) == []
    ensures UnionUnreleased(out, ours, base, series) == if added == [] then out else CreateRegion(out, series, added)
  {
    hide RegionOf, UnreleasedLines, Own, Kept, CreateRegion;
  }

  lemma {:induction false} CreatedAt(out: seq<Line>, series: nat, added: seq<Line>)
    requires BlankLine(out, series) + 1 < |out|
    ensures var p := BlankLine(out, series);
            CreateRegion(out, series, added) == out[..p + 1] + ["### Unreleased"] + added + [""] + out[p + 1..]
  {
    hide BlankLine;
  }

  lemma {:induction false} GapIs(out: seq<Line>, series: nat, h: int, p: int)
    requires GapAt(out, series, h, p)
    ensures BlankLine(out, series) == p && 0 <= p && p + 1 < |out|
  {
    assert forall l :: HoldsHeader(series, l) <==> Contains(l, Header(series));
    hide HoldsHeader, Contains;
    FindFromIs(out, (l: Line) => HoldsHeader(series, l), 0, h);
    FindFromIs(out, (l: Line) => l == "", h + 1, p);
  }
}
