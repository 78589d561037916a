/**
 * The active series section of CHANGELOG.md: `sortChangelogMd` (scripts/renumber/plan.ts) on the lines of the file.
 */
module ChangelogMd {
  import opened Decimals
  import opened Seqs
  import opened Sorting
  import opened Texts
  import opened Versions

  function Header(series: nat): string { "## Version " + Decimal(series) + ".x Series (Active" }

  predicate HoldsHeader(series: nat, l: Line) { Contains(l, Header(series)) }

  predicate IsRule(l: Line) { StartsWith(l, "---") }

  predicate IsHeading(l: Line) { StartsWith(l, "### v") }

  /** Index of the first line with the header of the series; `|lines|` when there is none. */
  function HeaderLine(lines: seq<Line>, series: nat): (h: nat)
    ensures h <= |lines|
    ensures forall i :: 0 <= i < h ==> !HoldsHeader(series, lines[i])
    ensures h < |lines| ==> HoldsHeader(series, lines[h])
  {
    FindFrom(lines, (l: Line) => HoldsHeader(series, l), 0)
  }

  /** Where the version blocks are: from the first heading up to the rule (or the end of the file). */
  datatype Section = Section(first: nat, end: nat)

  /** The line the body starts on: the one after the header, and the first of the file when the header is the last. */
  function BodyStart(lines: seq<Line>, h: nat): nat { if h + 1 < |lines| then h + 1 else 0 }

  function SectionFrom(lines: seq<Line>, b: nat): (s: Option<Section>)
    requires b < |lines|
    ensures s.Some? ==> b < s.value.first < s.value.end <= |lines|
    ensures s.Some? ==> IsHeading(lines[s.value.first])
    ensures s.Some? ==> forall i :: b < i < s.value.first ==> !IsHeading(lines[i])
    ensures s.Some? ==> forall i :: b < i < s.value.end ==> !IsRule(lines[i])
    ensures s.Some? && s.value.end < |lines| ==> IsRule(lines[s.value.end])
  {
    var end := FindFrom(lines, IsRule, b + 1);
    var first := FindFrom(lines, IsHeading, b + 1);
    if first >= end then None else Some(Section(first, end))
  }

  /** `None`: no header of the series, or no version heading under it. */
  function SectionOf(lines: seq<Line>, series: nat): (s: Option<Section>)
    ensures s.Some? ==> 0 < s.value.first < s.value.end <= |lines| && IsHeading(lines[s.value.first])
  {
    var h := HeaderLine(lines, series);
    if h == |lines| then None else SectionFrom(lines, BodyStart(lines, h))
  }

  // ---------------------------------------------------------------------------------------------
  // Blocks

  type Text = seq<Line>

  /** `b.replace(/\n+$/, '')`: the lines without the empty ones at the end. */
  function Strip(chunk: seq<Line>): (t: Text)
    ensures |t| <= |chunk| && chunk[..|t|] == t
    ensures forall i :: |t| <= i < |chunk| ==> chunk[i] == ""
    ensures t != [] ==> t[|t| - 1] != ""
  {
    if chunk != [] && chunk[|chunk| - 1] == "" then Strip(chunk[..|chunk| - 1]) else chunk
  }

  function Blanks(n: nat): (r: seq<Line>)
    ensures |r| == n && forall i :: 0 <= i < n ==> r[i] == ""
  {
    seq(n, _ => "")
  }

  /** Length of the first block: up to the next heading. */
  function BlockLength(lines: seq<Line>): (n: nat)
    requires lines != []
    ensures 1 <= n <= |lines|
    ensures forall i :: 1 <= i < n ==> !IsHeading(lines[i])
    ensures n < |lines| ==> IsHeading(lines[n])
  {
    FindFrom(lines, IsHeading, 1)
  }

  /** The texts of the blocks. */
  function TextsOf(lines: seq<Line>): (texts: seq<Text>) {
    if lines == [] then []
    else
      var n := BlockLength(lines);
      [Strip(lines[..n])] + TextsOf(lines[n..])
  }

  /** The number of empty lines at the end of each block. */
  function BlanksOf(lines: seq<Line>): (blanks: seq<nat>)
    ensures |blanks| == |TextsOf(lines)|
  {
    if lines == [] then []
    else
      var n := BlockLength(lines);
      [n - |Strip(lines[..n])|] + BlanksOf(lines[n..])
  }

  /** Each slot's text followed by the empty lines of the slot. */
  function Assemble(texts: seq<Text>, blanks: seq<nat>): seq<Line>
    requires |texts| == |blanks|
  {
    if texts == [] then [] else texts[0] + Blanks(blanks[0]) + Assemble(texts[1..], blanks[1..])
  }

  const UNVERSIONED := Version(0, 0, 0)

  /** The version of a heading line `### vX.Y.Z…`. */
  function HeadingVersion(l: Line): Version {
    if !IsHeading(l) then UNVERSIONED
    else match MatchVersion(l, 4) case None => UNVERSIONED case Some(m) => m.value
  }

  function TextVersion(t: Text): Version { if t == [] then UNVERSIONED else HeadingVersion(t[0]) }

  predicate NewestFirst(a: Text, b: Text) { AtMost(TextVersion(b), TextVersion(a)) }

  function SortSection(lines: seq<Line>): seq<Line> {
    Assemble(Sort(TextsOf(lines), NewestFirst), BlanksOf(lines))
  }

  function SortChangelogMd(lines: seq<Line>, series: nat): seq<Line> {
    match SectionOf(lines, series)
    case None => lines
    case Some(s) => lines[..s.first] + SortSection(lines[s.first..s.end]) + lines[s.end..]
  }

  // ---------------------------------------------------------------------------------------------
  // Reading back what was assembled

  /** A block text: a heading, no other one below it, and no empty line at the end. */
  predicate IsText(t: Text) {
    t != [] && IsHeading(t[0]) && t[|t| - 1] != "" && forall i :: 1 <= i < |t| ==> !IsHeading(t[i])
  }

  lemma {:induction false} TextsAreTexts(lines: seq<Line>)
    requires lines != [] ==> IsHeading(lines[0])
    ensures forall t :: t in TextsOf(lines) ==> IsText(t)
    decreases |lines|
  {
    if lines != [] {
      var n := BlockLength(lines);
      var t := Strip(lines[..n]);
      assert lines[..n][0] == lines[0] != "";
      assert IsText(t) by {
        assert forall i :: 0 <= i < |t| ==> t[i] == lines[i];
      }
      TextsAreTexts(lines[n..]);
    }
  }

  lemma {:induction false} StripText(t: Text, n: nat)
    requires t != [] && t[|t| - 1] != ""
    ensures Strip(t + Blanks(n)) == t
  {
    var s := t + Blanks(n);
    if n == 0 {
      assert s == t;
    } else {
      StripText(t, n - 1);
      assert s[..|s| - 1] == t + Blanks(n - 1);
    }
  }

  /** Assembled texts are read back, with their empty lines. */
  lemma {:induction false} ReadAssembled(texts: seq<Text>, blanks: seq<nat>)
    requires |texts| == |blanks| && forall t :: t in texts ==> IsText(t)
    ensures TextsOf(Assemble(texts, blanks)) == texts
    ensures BlanksOf(Assemble(texts, blanks)) == blanks
    ensures texts != [] ==> Assemble(texts, blanks) != [] && IsHeading(Assemble(texts, blanks)[0])
  {
    if texts != [] {
      hide TextsOf, BlanksOf, Strip, IsText;
      var t, n, more, slots := texts[0], blanks[0], texts[1..], blanks[1..];
      ReadAssembled(more, slots);
      assert texts == [t] + more && blanks == [n] + slots;
      AssembleFirst(t, more, n, slots);
      hide Assemble;
      assert IsText(t);
      ReadFirst(t, n, Assemble(more, slots));
    }
  }

  lemma {:induction false} ReadFirst(t: Text, n: nat, rest: seq<Line>)
    requires IsText(t) && (rest != [] ==> IsHeading(rest[0]))
    ensures var all := t + Blanks(n) + rest;
            TextsOf(all) == [t] + TextsOf(rest) && BlanksOf(all) == [n] + BlanksOf(rest) && IsHeading(all[0])
  {
    var chunk := t + Blanks(n);
    var all := chunk + rest;
    StripText(t, n);
    assert !IsHeading("");
    hide Strip, TextsOf, BlanksOf, IsHeading;
    forall i | 1 <= i < |chunk| ensures !IsHeading(all[i]) {
      assert all[i] == if i < |t| then t[i] else "";
    }
    FirstBlock(all, chunk, rest);
  }

  lemma {:induction false} FirstBlock(all: seq<Line>, chunk: seq<Line>, rest: seq<Line>)
    requires all == chunk + rest && chunk != []
    requires forall i :: 1 <= i < |chunk| ==> !IsHeading(all[i])
    requires rest != [] ==> IsHeading(rest[0])
    ensures TextsOf(all) == [Strip(chunk)] + TextsOf(rest)
    ensures BlanksOf(all) == [|chunk| - |Strip(chunk)|] + BlanksOf(rest)
  {
    FindFromIs(all, IsHeading, 1, |chunk|);
    assert all[..|chunk|] == chunk && all[|chunk|..] == rest;
  }

  lemma {:induction false} AssembleRead(lines: seq<Line>)
    ensures Assemble(TextsOf(lines), BlanksOf(lines)) == lines
    decreases |lines|
  {
    if lines != [] {
      var n := BlockLength(lines);
      var chunk, rest := lines[..n], lines[n..];
      AssembleRead(rest);
      ReadParts(lines, n);
      StripAndBlanks(chunk);
      Rejoin(lines, n);
      hide *;
      AssembleFirst(Strip(chunk), TextsOf(rest), n - |Strip(chunk)|, BlanksOf(rest));
    }
  }

  lemma {:induction false} Rejoin(lines: seq<Line>, n: nat)
    requires n <= |lines|
    ensures lines[..n] + lines[n..] == lines
  {
  }

  lemma {:induction false} ReadParts(lines: seq<Line>, n: nat)
    requires lines != [] && n == BlockLength(lines)
    ensures TextsOf(lines) == [Strip(lines[..n])] + TextsOf(lines[n..])
    ensures BlanksOf(lines) == [n - |Strip(lines[..n])|] + BlanksOf(lines[n..])
  {
    hide Strip, BlockLength;
  }

  lemma {:induction false} StripAndBlanks(chunk: seq<Line>)
    ensures Strip(chunk) + Blanks(|chunk| - |Strip(chunk)|) == chunk
  {
    hide Strip;
  }

  lemma {:induction false} AssembleFirst(t: Text, texts: seq<Text>, n: nat, blanks: seq<nat>)
    requires |texts| == |blanks|
    ensures Assemble([t] + texts, [n] + blanks) == t + Blanks(n) + Assemble(texts, blanks)
  {
    assert ([t] + texts)[1..] == texts && ([n] + blanks)[1..] == blanks;
  }

  /** The number of lines the assembled blocks have does not depend on the order of the texts. */
  lemma {:induction false} AssembleLines(texts: seq<Text>, blanks: seq<nat>)
    requires |texts| == |blanks|
    ensures multiset(Assemble(texts, blanks)) == multiset(Flat(texts)) + multiset(BlankLines(blanks))
  {
    if texts != [] {
      AssembleLines(texts[1..], blanks[1..]);
    }
  }

  function Flat(texts: seq<Text>): seq<Line> { if texts == [] then [] else texts[0] + Flat(texts[1..]) }

  function BlankLines(blanks: seq<nat>): seq<Line> {
    if blanks == [] then [] else Blanks(blanks[0]) + BlankLines(blanks[1..])
  }

  lemma {:induction false} FlatAppend(a: seq<Text>, b: seq<Text>)
    ensures Flat(a + b) == Flat(a) + Flat(b)
  {
    if a == [] {
      assert a + b == b;
    } else {
      assert (a + b)[1..] == a[1..] + b;
      FlatAppend(a[1..], b);
    }
  }

  lemma {:induction false} FlatPermutation(a: seq<Text>, b: seq<Text>)
    requires multiset(a) == multiset(b)
    ensures multiset(Flat(a)) == multiset(Flat(b))
    decreases |a|
  {
    if a == [] {
      assert b == [] by {
        assert |multiset(b)| == 0;
      }
    } else {
      assert a == [a[0]] + a[1..];
      assert a[0] in multiset(b);
      var k :| 0 <= k < |b| && b[k] == a[0];
      var rest := b[..k] + b[k + 1..];
      assert b == b[..k] + ([b[k]] + b[k + 1..]);
      assert multiset(rest) == multiset(b) - multiset{a[0]};
      FlatPermutation(a[1..], rest);
      FlatAppend(b[..k], [b[k]] + b[k + 1..]);
      FlatAppend(b[..k], b[k + 1..]);
      assert ([b[k]] + b[k + 1..])[1..] == b[k + 1..];
    }
  }

  // ---------------------------------------------------------------------------------------------
  // What sorting does

  lemma {:induction false} NewestFirstIsTotal()
    ensures TotalPreorder(NewestFirst)
  {
  }

  /** The sorted section holds the same lines, and its blocks are the texts in order over the slots' empty lines. */
  lemma {:induction false} SortSectionReads(lines: seq<Line>)
    requires lines != [] && IsHeading(lines[0])
    ensures TextsOf(SortSection(lines)) == Sort(TextsOf(lines), NewestFirst)
    ensures BlanksOf(SortSection(lines)) == BlanksOf(lines)
    ensures multiset(SortSection(lines)) == multiset(lines) && |SortSection(lines)| == |lines|
    ensures IsHeading(SortSection(lines)[0])
  {
    var texts, blanks := TextsOf(lines), BlanksOf(lines);
    var sorted := Sort(texts, NewestFirst);
    TextsAreTexts(lines);
    forall t | t in sorted ensures IsText(t) {
      assert t in multiset(sorted);
    }
    AssembleRead(lines);
    AssembleLines(texts, blanks);
    AssembleLines(sorted, blanks);
    FlatPermutation(texts, sorted);
    assert sorted != [];
    hide Assemble, TextsOf, BlanksOf, Sort, Flat, IsText;
    ReadAssembled(sorted, blanks);
    assert |multiset(SortSection(lines))| == |multiset(lines)|;
  }

  /**
   * Everything outside the section stays; inside, the block texts are put in descending order of version, equal versions
   * in the order they had, and every slot keeps its own empty lines.
   */
  lemma {:induction false} SortedSection(lines: seq<Line>, series: nat)
    requires SectionOf(lines, series).Some?
    ensures var s := SectionOf(lines, series).value;
            var r := SortChangelogMd(lines, series);
            && |r| == |lines|
            && r[..s.first] == lines[..s.first] && r[s.end..] == lines[s.end..]
            && multiset(TextsOf(r[s.first..s.end])) == multiset(TextsOf(lines[s.first..s.end]))
            && Sorted(TextsOf(r[s.first..s.end]), NewestFirst)
            && (forall t :: Ties(TextsOf(r[s.first..s.end]), NewestFirst, t) == Ties(TextsOf(lines[s.first..s.end]), NewestFirst, t))
            && BlanksOf(r[s.first..s.end]) == BlanksOf(lines[s.first..s.end])
  {
    var s := SectionOf(lines, series).value;
    var body := lines[s.first..s.end];
    SortSectionReads(body);
    NewestFirstIsTotal();
    SortIsStable(TextsOf(body), NewestFirst);
    SortedParts(lines, series);
  }

  lemma {:induction false} SortedParts(lines: seq<Line>, series: nat)
    requires SectionOf(lines, series).Some?
    ensures var s := SectionOf(lines, series).value;
            var r := SortChangelogMd(lines, series);
            && |r| == |lines|
            && r[..s.first] == lines[..s.first] && r[s.end..] == lines[s.end..]
            && r[s.first..s.end] == SortSection(lines[s.first..s.end])
  {
    hide SortSection, SectionOf;
    var s := SectionOf(lines, series).value;
    SortSectionReads(lines[s.first..s.end]);
  }

  /** The version headings from `lo` to `hi` descend. */
  ghost predicate Descends(lines: seq<Line>, lo: nat, hi: nat)
    requires hi <= |lines|
  {
    forall i, j :: lo <= i < j < hi && IsHeading(lines[i]) && IsHeading(lines[j]) ==>
      AtMost(HeadingVersion(lines[j]), HeadingVersion(lines[i]))
  }

  ghost predicate LinesBelow(v: Version, lines: seq<Line>) {
    forall l :: l in lines && IsHeading(l) ==> AtMost(HeadingVersion(l), v)
  }

  ghost predicate TextsBelow(v: Version, texts: seq<Text>) { forall t :: t in texts ==> AtMost(TextVersion(t), v) }

  /** The blocks are in order exactly when the headings descend. */
  lemma {:induction false} SortedIffDescends(lines: seq<Line>)
    requires lines != [] ==> IsHeading(lines[0])
    ensures Sorted(TextsOf(lines), NewestFirst) <==> Descends(lines, 0, |lines|)
    decreases |lines|
  {
    if lines != [] {
      var n := BlockLength(lines);
      var rest := lines[n..];
      var t := FirstText(lines);
      SortedIffDescends(rest);
      SortedFirst(t, TextsOf(rest));
      BelowIff(HeadingVersion(lines[0]), rest);
      hide *;
      DescendsFirst(lines, n);
    }
  }

  lemma {:induction false} FirstText(lines: seq<Line>) returns (t: Text)
    requires lines != [] && IsHeading(lines[0])
    ensures TextsOf(lines) == [t] + TextsOf(lines[BlockLength(lines)..]) && TextVersion(t) == HeadingVersion(lines[0])
  {
    t := Strip(lines[..BlockLength(lines)]);
    TextsAreTexts(lines);
    assert TextsOf(lines)[0] == t && IsText(t);
  }

  lemma {:induction false} DescendsFirst(lines: seq<Line>, n: nat)
    requires 1 <= n <= |lines| && IsHeading(lines[0]) && forall i :: 1 <= i < n ==> !IsHeading(lines[i])
    ensures Descends(lines, 0, |lines|)
       <==> Descends(lines[n..], 0, |lines| - n) && LinesBelow(HeadingVersion(lines[0]), lines[n..])
  {
    hide AtMost, IsHeading, HeadingVersion;
    var rest := lines[n..];
    assert forall i :: n <= i < |lines| ==> lines[i] == rest[i - n];
    if Descends(lines, 0, |lines|) {
      forall i, j | 0 <= i < j < |rest| && IsHeading(rest[i]) && IsHeading(rest[j])
        ensures AtMost(HeadingVersion(rest[j]), HeadingVersion(rest[i]))
      {
        assert rest[i] == lines[n + i] && rest[j] == lines[n + j];
      }
      forall l | l in rest && IsHeading(l) ensures AtMost(HeadingVersion(l), HeadingVersion(lines[0])) {
        var j :| 0 <= j < |rest| && rest[j] == l;
        assert l == lines[n + j];
      }
    }
    if Descends(rest, 0, |rest|) && LinesBelow(HeadingVersion(lines[0]), rest) {
      forall i, j | 0 <= i < j < |lines| && IsHeading(lines[i]) && IsHeading(lines[j])
        ensures AtMost(HeadingVersion(lines[j]), HeadingVersion(lines[i]))
      {
        assert j >= n && lines[j] in rest;
      }
    }
  }

  lemma {:induction false} SortedFirst(t: Text, rest: seq<Text>)
    ensures Sorted([t] + rest, NewestFirst) <==> Sorted(rest, NewestFirst) && TextsBelow(TextVersion(t), rest)
  {
    hide AtMost, TextVersion;
    var all := [t] + rest;
    assert all[1..] == rest;
    if Sorted(all, NewestFirst) {
      forall i, j | 0 <= i < j < |rest| ensures NewestFirst(rest[i], rest[j]) {
        assert rest[i] == all[i + 1] && rest[j] == all[j + 1];
      }
      forall x | x in rest ensures NewestFirst(t, x) {
        var k :| 0 <= k < |rest| && rest[k] == x;
        assert all[0] == t && all[k + 1] == x;
      }
    }
  }

  /** A version is at least that of every text exactly when it is at least that of every heading. */
  lemma {:induction false} BelowIff(v: Version, lines: seq<Line>)
    requires lines != [] ==> IsHeading(lines[0])
    ensures TextsBelow(v, TextsOf(lines)) <==> LinesBelow(v, lines)
    decreases |lines|
  {
    if lines != [] {
      var n := BlockLength(lines);
      var rest := lines[n..];
      BelowIff(v, rest);
      var t := FirstText(lines);
      assert forall x :: x in TextsOf(lines) <==> x == t || x in TextsOf(rest);
      hide TextsOf, AtMost, IsHeading, HeadingVersion, TextVersion;
      forall l | l in lines && IsHeading(l) ensures l == lines[0] || l in rest {
        var j :| 0 <= j < |lines| && lines[j] == l;
        assert j >= n ==> rest[j - n] == l;
      }
    }
  }

  /** A file is returned as it is exactly when the version headings of its section already descend. */
  lemma {:induction false} SortedFileIsKeptIff(lines: seq<Line>, series: nat)
    ensures SortChangelogMd(lines, series) == lines
       <==> SectionOf(lines, series).None? ||
            Descends(lines, SectionOf(lines, series).value.first, SectionOf(lines, series).value.end)
  {
    if SectionOf(lines, series).Some? {
      var s := SectionOf(lines, series).value;
      var body := lines[s.first..s.end];
      SortedIffDescends(body);
      DescendsBody(lines, s.first, s.end);
      SectionIsKeptIff(body);
      SortedParts(lines, series);
      hide *;
      var r := SortChangelogMd(lines, series);
      if SortSection(body) == body {
        assert r == r[..s.first] + r[s.first..s.end] + r[s.end..];
        assert lines == lines[..s.first] + body + lines[s.end..];
      }
    }
  }

  lemma {:induction false} SectionIsKeptIff(body: seq<Line>)
    requires body != [] && IsHeading(body[0])
    ensures SortSection(body) == body <==> Sorted(TextsOf(body), NewestFirst)
  {
    SortSectionReads(body);
    NewestFirstIsTotal();
    SortIsStable(TextsOf(body), NewestFirst);
    if Sorted(TextsOf(body), NewestFirst) {
      SortedIsFixed(TextsOf(body), NewestFirst);
      AssembleRead(body);
    }
  }

  lemma {:induction false} DescendsBody(lines: seq<Line>, lo: nat, hi: nat)
    requires lo <= hi <= |lines|
    ensures Descends(lines, lo, hi) <==> Descends(lines[lo..hi], 0, hi - lo)
  {
    hide AtMost, IsHeading, HeadingVersion;
    var body := lines[lo..hi];
    assert forall i :: lo <= i < hi ==> lines[i] == body[i - lo];
    assert forall i :: 0 <= i < hi - lo ==> body[i] == lines[lo + i];
  }

  /** The headings of the sorted file descend over the whole section that was sorted. */
  lemma {:induction false} SortedFileDescends(lines: seq<Line>, series: nat)
    requires SectionOf(lines, series).Some?
    ensures |SortChangelogMd(lines, series)| == |lines|
    ensures Descends(SortChangelogMd(lines, series), SectionOf(lines, series).value.first, SectionOf(lines, series).value.end)
  {
    var s := SectionOf(lines, series).value;
    var r := SortChangelogMd(lines, series);
    SortedSection(lines, series);
    SortedParts(lines, series);
    SortSectionReads(lines[s.first..s.end]);
    SortedIffDescends(r[s.first..s.end]);
    DescendsBody(r, s.first, s.end);
  }

  /** Sorting twice is sorting once, also when the header is the last line and its block moves. */
  lemma {:induction false} SortIsIdempotent(lines: seq<Line>, series: nat)
    ensures SortChangelogMd(SortChangelogMd(lines, series), series) == SortChangelogMd(lines, series)
  {
    if SectionOf(lines, series).Some? {
      var s := SectionOf(lines, series).value;
      var r := SortChangelogMd(lines, series);
      SortedFileDescends(lines, series);
      SortedFileIsKeptIff(r, series);
      if SectionOf(r, series).Some? {
        SectionNarrows(lines, series);
        var t := SectionOf(r, series).value;
        hide SectionOf, SortChangelogMd, AtMost, IsHeading, HeadingVersion;
        assert Descends(r, t.first, t.end);
      }
    }
  }

  /** The section read from the sorted file lies within the one that was sorted. */
  lemma {:induction false} SectionNarrows(lines: seq<Line>, series: nat)
    requires SectionOf(lines, series).Some? && SectionOf(SortChangelogMd(lines, series), series).Some?
    ensures var s, t := SectionOf(lines, series).value, SectionOf(SortChangelogMd(lines, series), series).value;
            s.first <= t.first && t.end <= s.end
  {
    hide *;
    var s := SectionOf(lines, series).value;
    var r := SortChangelogMd(lines, series);
    SectionBody(lines, series);
    SectionBody(r, series);
    SortedParts(lines, series);
    SortSectionReads(lines[s.first..s.end]);
    Outside(lines, r, s);
    SameLines(lines[s.first..s.end], SortSection(lines[s.first..s.end]));
    forall i | s.first <= i < s.end ensures r[i] in lines[s.first..s.end] {
      assert r[i] == r[s.first..s.end][i - s.first];
    }
    BodyStartGrows(lines, r, series, s);
    WithinSection(lines, r, s, BodyStart(lines, HeaderLine(lines, series)), BodyStart(r, HeaderLine(r, series)));
  }

  lemma {:induction false} SectionBody(lines: seq<Line>, series: nat)
    requires SectionOf(lines, series).Some?
    ensures HeaderLine(lines, series) < |lines| && BodyStart(lines, HeaderLine(lines, series)) < |lines|
    ensures SectionFrom(lines, BodyStart(lines, HeaderLine(lines, series))) == SectionOf(lines, series)
  {
  }

  lemma {:induction false} SameLines(a: seq<Line>, b: seq<Line>)
    requires multiset(a) == multiset(b)
    ensures forall l :: l in b ==> l in a
  {
    forall l | l in b ensures l in a {
      assert l in multiset(b);
    }
  }

  lemma {:induction false} BodyStartGrows(lines: seq<Line>, r: seq<Line>, series: nat, s: Section)
    requires |r| == |lines| && HeaderLine(lines, series) < |lines| && HeaderLine(r, series) < |r|
    requires s.first <= s.end <= |lines|
    requires BodyStart(lines, HeaderLine(lines, series)) < s.first
    requires forall i :: 0 <= i < s.first || s.end <= i < |r| ==> r[i] == lines[i]
    requires forall i :: s.first <= i < s.end ==> r[i] in lines[s.first..s.end]
    ensures BodyStart(lines, HeaderLine(lines, series)) <= BodyStart(r, HeaderLine(r, series)) < |r|
    ensures s.end < |lines| ==> BodyStart(r, HeaderLine(r, series)) < s.end
  {
    var h := HeaderLine(lines, series);
    if h + 1 < |lines| || s.end < |lines| {
      forall i | 0 <= i < h ensures !HoldsHeader(series, r[i]) {
        if s.first <= i < s.end {
          assert r[i] in lines[..h] by {
            assert r[i] in lines[s.first..s.end];
          }
        }
      }
      SameHeader(lines, r, series);
    }
  }

  lemma {:induction false} Outside(lines: seq<Line>, r: seq<Line>, s: Section)
    requires s.first <= s.end <= |lines| == |r|
    requires r[..s.first] == lines[..s.first] && r[s.end..] == lines[s.end..]
    ensures forall i :: 0 <= i < s.first || s.end <= i < |r| ==> r[i] == lines[i]
  {
    forall i | 0 <= i < s.first || s.end <= i < |r| ensures r[i] == lines[i] {
      if i < s.first {
        assert r[i] == r[..s.first][i];
      } else {
        assert r[i] == r[s.end..][i - s.end];
      }
    }
  }

  lemma {:induction false} WithinSection(lines: seq<Line>, r: seq<Line>, s: Section, b: nat, b': nat)
    requires b < |lines| == |r| && b <= b' < |r| && SectionFrom(lines, b) == Some(s) && SectionFrom(r, b').Some?
    requires s.end < |lines| ==> b' < s.end
    requires forall i :: 0 <= i < s.first || s.end <= i < |r| ==> r[i] == lines[i]
    ensures s.first <= SectionFrom(r, b').value.first && SectionFrom(r, b').value.end <= s.end
  {
    var t := SectionFrom(r, b').value;
    hide SectionFrom, IsHeading, IsRule;
    assert forall i :: b' < i < s.first ==> r[i] == lines[i];
    assert s.end < |lines| ==> r[s.end] == lines[s.end];
  }

  lemma {:induction false} SameHeader(lines: seq<Line>, r: seq<Line>, series: nat)
    requires |r| == |lines| && HeaderLine(lines, series) < |lines|
    requires forall i :: 0 <= i < HeaderLine(lines, series) ==> !HoldsHeader(series, r[i])
    requires HoldsHeader(series, r[HeaderLine(lines, series)])
    ensures HeaderLine(r, series) == HeaderLine(lines, series)
  {
    FindFromIs(r, (l: Line) => HoldsHeader(series, l), 0, HeaderLine(lines, series));
  }
}
