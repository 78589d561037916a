/** Every run of changes and release cuts keeps the lines, the layout and the version locations in order. */
module ReleaseTheorems {
  import opened ChangelogMd
  import D = DebtTheorems
  import opened DebtRegistry
  import opened Release
  import opened Seqs
  import opened Texts
  import opened Unreleased
  import opened Versions

  // ---------------------------------------------------------------------------------------------
  // Reading what was written

  /** Only the header line ends with the header, the lines are items, and what follows ends the section. */
  ghost predicate Clean(o: Opened, active: ActiveSeries) {
    && |o.front| >= 2 && EndsWithHeader(active, o.front[|o.front| - 2]) && o.front[|o.front| - 1] == ""
    && (forall i :: 0 <= i < |o.front| && i != |o.front| - 2 ==> !EndsWithHeader(active, o.front[i]))
    && (forall l :: l in o.lines ==> IsItem(l) && Filled(l) && !EndsWithHeader(active, l))
    && (forall l :: l in o.rest ==> !EndsWithHeader(active, l))
    && EndsSection(o.rest)
  }

  predicate EndsSection(rest: seq<Line>) { rest == [""] || (rest != [] && EndsRegion(rest[0])) }

  lemma {:induction false} ItemIsEntry(l: Line)
    requires IsItem(l)
    ensures !EndsRegion(l) && l != UNRELEASED && !IsRule(l)
  {
    assert l[0] == l[..2][0] == '-' && l[1] == l[..2][1] == ' ';
    assert UNRELEASED[0] == '#';
    assert |l| >= 3 ==> l[..3][1] == l[1];
    assert |l| >= 4 ==> l[..4][0] == l[0];
    assert |l| >= 3 ==> l[..3][0] == l[0];
  }

  lemma {:induction false} HeaderIsLong(active: ActiveSeries)
    ensures !EndsWithHeader(active, UNRELEASED) && !EndsWithHeader(active, "") && !EndsWithHeader(active, "---")
    ensures !IsRule(UNRELEASED) && !IsRule("") && !EndsRegion("") && EndsRegion(UNRELEASED) && !Filled("")
  {
    assert |FullHeader(active)| > 20;
    assert UNRELEASED[..3][0] == '#';
    assert UNRELEASED[..4] == "### ";
  }

  /** Whatever is written with clean parts is read back as the same parts. */
  lemma {:induction false} ReadRendered(o: Opened, active: ActiveSeries)
    requires Clean(o, active)
    ensures UnreleasedOf(Render(o), active) == Ok(o)
  {
    var md, i := Render(o), |o.front| - 2;
    HeaderIsLong(active);
    hide EndsWithHeader, EndsRegion, Filled, IsStray, IsItem;
    OneHeader(o, active);
    assert md[i + 2] == UNRELEASED && WithSection(md, i) == md;
    SectionOfRendered(o, active);
    assert md[..i + 2] == o.front;
  }

  lemma {:induction false} OneHeader(o: Opened, active: ActiveSeries)
    requires Clean(o, active)
    ensures FindHeader(Render(o), active, 0) == |o.front| - 2
    ensures FindHeader(Render(o), active, |o.front| - 1) == |Render(o)|
  {
    var md, i := Render(o), |o.front| - 2;
    HeaderIsLong(active);
    hide EndsWithHeader, EndsRegion, Filled, IsStray, IsItem;
    forall k | 0 <= k < |md| && k != i ensures !EndsWithHeader(active, md[k]) {
      RenderAt(o, k);
    }
    RenderAt(o, i);
    RenderAt(o, i + 1);
    FindHeaderIs(md, active, 0, i);
    FindHeaderIs(md, active, i + 1, |md|);
  }

  lemma {:induction false} FindHeaderIs(md: seq<Line>, active: ActiveSeries, from: nat, k: nat)
    requires from <= k <= |md| && (forall j :: from <= j < k ==> !HeaderAt(md, active, j))
    requires k < |md| ==> HeaderAt(md, active, k)
    ensures FindHeader(md, active, from) == k
  {
    hide HeaderAt;
    var f := FindHeader(md, active, from);
    assert !(f < k) && !(k < f);
  }

  lemma {:induction false} RenderAt(o: Opened, k: nat)
    requires k < |Render(o)|
    ensures var n := |o.front|;
            Render(o)[k] == if k < n then o.front[k]
                            else if k == n then UNRELEASED
                            else if k <= n + |o.lines| then o.lines[k - n - 1]
                            else if k == n + |o.lines| + 1 then ""
                            else o.rest[k - n - |o.lines| - 2]
  {
  }

  lemma {:induction false} SectionOfRendered(o: Opened, active: ActiveSeries)
    requires Clean(o, active)
    ensures var md := Render(o);
            var r := RegionFrom(md, |o.front| + 1);
            && LinesIn(md, r) == o.lines && RestOf(md, r) == o.rest
            && FindFrom(md[r.start..r.end], IsStray, 0) == r.end - r.start
  {
    hide *;
    var md := Render(o);
    var front := o.front + [UNRELEASED];
    CleanParts(o, active);
    EndOfRest(o.rest);
    ReadEntries(front, o.lines, o.rest);
    EntriesEnd(front, o.lines, o.rest);
    NoStray(front, o.lines, o.rest, |front| + |o.lines| + 1 + (if o.rest == [""] then 1 else 0));
    AfterSection(front, o.lines, o.rest);
    RegionParts(md, |front|);
    assert o.lines + [] == o.lines;
  }

  lemma {:induction false} RegionParts(md: seq<Line>, start: nat)
    requires start <= |md|
    ensures RegionFrom(md, start) == Region(start, FindFrom(md, EndsRegion, start))
    ensures var r := RegionFrom(md, start); RestOf(md, r) == if r.end == |md| then [""] else md[r.end..]
  {
  }

  lemma {:induction false} CleanParts(o: Opened, active: ActiveSeries)
    requires Clean(o, active)
    ensures Render(o) == o.front + [UNRELEASED] + o.lines + [""] + o.rest
    ensures (forall l :: l in o.lines ==> IsEntry(l) && !IsStray(l)) && !IsStray("") && EndsSection(o.rest)
  {
    HeaderIsLong(active);
    hide EndsWithHeader, EndsRegion, Filled;
    forall l | l in o.lines ensures IsEntry(l) && !IsStray(l) {
      ItemIsEntry(l);
    }
  }

  lemma {:induction false} EndOfRest(rest: seq<Line>)
    requires EndsSection(rest)
    ensures FindFrom(rest, EndsRegion, 0) == if rest == [""] then 1 else 0
    ensures LinesIn(rest, RegionFrom(rest, 0)) == []
  {
    assert !EndsRegion("") && !Filled("");
    hide EndsRegion, Filled;
    FindFromIs(rest, EndsRegion, 0, if rest == [""] then 1 else 0);
  }

  lemma {:induction false} AfterSection(front: seq<Line>, lines: seq<Line>, rest: seq<Line>)
    requires EndsSection(rest) && FindFrom(rest, EndsRegion, 0) == if rest == [""] then 1 else 0
    ensures var md := front + lines + [""] + rest;
            var end := |front| + |lines| + 1 + FindFrom(rest, EndsRegion, 0);
            (if end == |md| then [""] else md[end..]) == rest
  {
    hide EndsRegion;
  }

  lemma {:induction false} NoStray(front: seq<Line>, lines: seq<Line>, rest: seq<Line>, end: nat)
    requires (forall l :: l in lines ==> !IsStray(l)) && !IsStray("")
    requires EndsSection(rest) && end == |front| + |lines| + 1 + (if rest == [""] then 1 else 0)
    ensures var md := front + lines + [""] + rest;
            FindFrom(md[|front|..end], IsStray, 0) == end - |front|
  {
    hide IsStray;
    var md := front + lines + [""] + rest;
    var part := md[|front|..end];
    forall i | 0 <= i < |part| ensures !IsStray(part[i]) {
      assert part[i] == if i < |lines| then lines[i] else "";
    }
    FindFromIs(part, IsStray, 0, |part|);
  }

  // ---------------------------------------------------------------------------------------------
  // The file a run starts from

  ghost predicate QuotesOnce(md: seq<Line>, active: ActiveSeries) {
    forall i, j :: 0 <= i < |md| && 0 <= j < |md| && EndsWithHeader(active, md[i]) && EndsWithHeader(active, md[j]) ==> i == j
  }

  /** How the file was taken apart. */
  lemma {:induction false} OpenedParts(md: seq<Line>, active: ActiveSeries, o: Opened)
    returns (i: nat, full: seq<Line>, end: nat)
    requires UnreleasedOf(md, active) == Ok(o)
    ensures HeaderAt(md, active, i) && i == FindHeader(md, active, 0) && full == WithSection(md, i) && |full| >= i + 3
    ensures i + 3 <= end <= |full| && end == FindFrom(full, EndsRegion, i + 3)
    ensures o == Opened(full[..i + 2], Filter(full[i + 3..end], Filled), if end == |full| then [""] else full[end..])
    ensures forall k :: i + 3 <= k < end ==> !IsStray(full[k])
    ensures o.front == md[..i + 2] && full[i + 2] == UNRELEASED
  {
    hide *;
    var r;
    i, full, r := OpenedRaw(md, active, o);
    end := r.end;
    RegionParts(full, i + 3);
    AtHeader(md, active, i);
    SectionStart(md, i);
    LinesInIs(full, r);
    forall k | i + 3 <= k < end ensures !IsStray(full[k]) {
      assert full[r.start..r.end][k - r.start] == full[k];
    }
  }

  lemma {:induction false} OpenedRaw(md: seq<Line>, active: ActiveSeries, o: Opened)
    returns (i: nat, full: seq<Line>, r: Region)
    requires UnreleasedOf(md, active) == Ok(o)
    ensures HeaderAt(md, active, i) && i == FindHeader(md, active, 0) && i + 2 < |md| && full == WithSection(md, i)
    ensures |full| >= i + 3 && r == RegionFrom(full, i + 3) && r.start == i + 3 <= r.end <= |full|
    ensures o == Opened(full[..i + 2], LinesIn(full, r), RestOf(full, r))
    ensures FindFrom(full[r.start..r.end], IsStray, 0) == r.end - r.start
  {
    i := FindHeader(md, active, 0);
    hide FindHeader, EndsRegion, IsStray, LinesIn, RestOf, EndsWithHeader;
    full := WithSection(md, i);
    r := RegionFrom(full, i + 3);
  }

  lemma {:induction false} SectionStart(md: seq<Line>, i: nat)
    requires i + 2 < |md|
    ensures |WithSection(md, i)| >= i + 3 && WithSection(md, i)[..i + 2] == md[..i + 2] && WithSection(md, i)[i + 2] == UNRELEASED
  {
  }

  lemma {:induction false} LinesInIs(lines: seq<Line>, r: Region)
    requires r.start <= r.end <= |lines|
    ensures LinesIn(lines, r) == Filter(lines[r.start..r.end], Filled)
  {
  }

  /** A file that was read and quotes its header once has clean parts. */
  lemma {:induction false} OpenedIsClean(md: seq<Line>, active: ActiveSeries, o: Opened)
    requires UnreleasedOf(md, active) == Ok(o) && QuotesOnce(md, active)
    ensures Clean(o, active)
  {
    hide *;
    var i, full, end := OpenedParts(md, active, o);
    AtHeader(md, active, i);
    OneQuote(md, active, i, full);
    HeaderIsLong(active);
    var part := full[i + 3..end];
    forall l | l in part ensures !IsStray(l) && !EndsWithHeader(active, l) {
      var k := IndexOf(full, i + 3, end, l);
    }
    forall l | l in o.rest ensures !EndsWithHeader(active, l) {
      if end < |full| {
        assert full[end..] == full[end..|full|];
        var k := IndexOf(full, end, |full|, l);
      }
    }
    FilteredItems(part, active);
    RestEnds(full, end);
    CleanIs(o, active, md, i);
  }

  /** Of the lines from the header on only the header ends like it. */
  lemma {:induction false} OneQuote(md: seq<Line>, active: ActiveSeries, i: nat, full: seq<Line>)
    requires QuotesOnce(md, active) && HeaderAt(md, active, i) && i + 2 < |md| && full == WithSection(md, i)
    ensures EndsWithHeader(active, md[i]) && md[i + 1] == ""
    ensures forall k :: 0 <= k < |md| && k != i ==> !EndsWithHeader(active, md[k])
    ensures forall k :: i + 2 <= k < |full| ==> !EndsWithHeader(active, full[k])
  {
    HeaderIsLong(active);
    hide EndsWithHeader, WithSection;
    forall k | i + 2 <= k < |full| ensures !EndsWithHeader(active, full[k]) {
      SectionLine(md, i, k);
    }
  }

  lemma {:induction false} FilteredItems(part: seq<Line>, active: ActiveSeries)
    requires forall l :: l in part ==> !IsStray(l) && !EndsWithHeader(active, l)
    ensures forall l :: l in Filter(part, Filled) ==> IsItem(l) && Filled(l) && !EndsWithHeader(active, l)
  {
    hide Filled, IsItem, EndsWithHeader;
  }

  lemma {:induction false} RestEnds(full: seq<Line>, end: nat)
    requires end <= |full| && (end < |full| ==> EndsRegion(full[end]))
    ensures EndsSection(if end == |full| then [""] else full[end..])
  {
    hide EndsRegion;
  }

  lemma {:induction false} CleanIs(o: Opened, active: ActiveSeries, md: seq<Line>, i: nat)
    requires i + 2 < |md| && o.front == md[..i + 2] && EndsWithHeader(active, md[i]) && md[i + 1] == ""
    requires forall k :: 0 <= k < |md| && k != i ==> !EndsWithHeader(active, md[k])
    requires (forall l :: l in o.lines ==> IsItem(l) && Filled(l) && !EndsWithHeader(active, l))
    requires (forall l :: l in o.rest ==> !EndsWithHeader(active, l)) && EndsSection(o.rest)
    ensures Clean(o, active)
  {
    hide EndsWithHeader, IsItem, Filled, EndsSection;
  }

  lemma {:induction false} IndexOf(lines: seq<Line>, lo: nat, hi: nat, l: Line) returns (k: nat)
    requires lo <= hi <= |lines| && l in lines[lo..hi]
    ensures lo <= k < hi && lines[k] == l
  {
    var j :| 0 <= j < hi - lo && lines[lo..hi][j] == l;
    k := lo + j;
  }

  lemma {:induction false} SectionLine(md: seq<Line>, i: nat, k: nat)
    requires i + 2 < |md| && i + 2 <= k < |WithSection(md, i)|
    ensures var l := WithSection(md, i)[k];
            l == UNRELEASED || l == "" || exists j :: i < j < |md| && md[j] == l
  {
    var l := WithSection(md, i)[k];
    if WithSection(md, i) == md {
      assert md[k] == l;
    } else if k >= i + 4 {
      assert md[k - 2] == l;
    }
  }

  // ---------------------------------------------------------------------------------------------
  // No line is lost

  function Contents(md: seq<Line>): seq<Line> { Filter(md, Filled) }

  /** The section is there and a line follows its heading. */
  predicate HasSection(md: seq<Line>, active: ActiveSeries) {
    var i := FindHeader(md, active, 0);
    i + 3 < |md| && md[i + 2] == UNRELEASED
  }

  lemma {:induction false} ContentsAppend(a: seq<Line>, b: seq<Line>)
    ensures Contents(a + b) == Contents(a) + Contents(b)
  {
    FilterAppend(a, b, Filled);
  }

  lemma {:induction false} ContentsOfOne(l: Line)
    ensures Contents([l]) == if Filled(l) then [l] else []
    ensures Contents([UNRELEASED]) == [UNRELEASED] && Contents([""]) == []
  {
    assert [l][1..] == [] && [UNRELEASED][1..] == [] && [""][1..] == [];
    assert UNRELEASED[0] == '#' && UNRELEASED[0] in UNRELEASED;
  }

  lemma {:induction false} ContentsOfRender(o: Opened)
    ensures Contents(Render(o)) == Contents(o.front) + [UNRELEASED] + Contents(o.lines) + Contents(o.rest)
  {
    hide Contents;
    ContentsOfOne("");
    ContentsAppend(o.front + [UNRELEASED] + o.lines + [""], o.rest);
    ContentsAppend(o.front + [UNRELEASED] + o.lines, [""]);
    ContentsAppend(o.front + [UNRELEASED], o.lines);
    ContentsAppend(o.front, [UNRELEASED]);
    assert Contents(o.front) + [UNRELEASED] + Contents(o.lines) + [] == Contents(o.front) + [UNRELEASED] + Contents(o.lines);
  }

  /** The parts of a file hold all its lines but the blank ones, in order, and the section if it had to be created. */
  lemma {:induction false} ContentsOfOpened(md: seq<Line>, active: ActiveSeries, o: Opened)
    requires UnreleasedOf(md, active) == Ok(o)
    ensures Contents(md) == Contents(o.front) + (if HasSection(md, active) then [UNRELEASED] else []) + o.lines + Contents(o.rest)
  {
    hide *;
    var i, full, end := OpenedParts(md, active, o);
    ContentsAppend(full[i + 3..end], full[end..]);
    assert full[i + 3..] == full[i + 3..end] + full[end..];
    ContentsOfRest(full, end);
    ContentsIs(full[i + 3..end]);
    AtHeader(md, active, i);
    SectionContents(md, active, i, full);
  }

  lemma {:induction false} ContentsOfRest(full: seq<Line>, end: nat)
    requires end <= |full|
    ensures Contents(full[end..]) == Contents(if end == |full| then [""] else full[end..])
  {
    ContentsOfOne("");
  }

  lemma {:induction false} AtHeader(md: seq<Line>, active: ActiveSeries, i: nat)
    requires HeaderAt(md, active, i)
    ensures i + 2 < |md|
  {
  }

  lemma {:induction false} NoContents()
    ensures Contents([]) == []
  {
  }

  lemma {:induction false} ContentsIs(ls: seq<Line>)
    ensures Contents(ls) == Filter(ls, Filled)
  {
  }

  lemma {:induction false} SectionContents(md: seq<Line>, active: ActiveSeries, i: nat, full: seq<Line>)
    requires i + 2 < |md| && full == WithSection(md, i) && |full| >= i + 3 && i == FindHeader(md, active, 0)
    ensures Contents(md)
         == Contents(md[..i + 2]) + (if HasSection(md, active) then [UNRELEASED] else []) + Contents(full[i + 3..])
  {
    hide Contents, FindHeader;
    ContentsOfOne("");
    assert md == md[..i + 2] + md[i + 2..];
    ContentsAppend(md[..i + 2], md[i + 2..]);
    SectionTail(md, i);
    if HasSection(md, active) {
      ContentsAppend([UNRELEASED], full[i + 3..]);
    } else {
      ContentsAppend([""], md[i + 2..]);
    }
  }

  lemma {:induction false} SectionTail(md: seq<Line>, i: nat)
    requires i + 2 < |md|
    ensures var full := WithSection(md, i);
            && |full| >= i + 3
            && (if i + 3 < |md| && md[i + 2] == UNRELEASED then md[i + 2..] == [UNRELEASED] + full[i + 3..]
                else full[i + 3..] == [""] + md[i + 2..])
  {
    var full := WithSection(md, i);
    if !(i + 3 < |md| && md[i + 2] == UNRELEASED) {
      assert full == md[..i + 2] + ([UNRELEASED] + ([""] + md[i + 2..]));
    }
  }

  /** The lines a release adds: its entry, and the heading of a cut. */
  function Added(spec: ReleaseSpec): seq<Line> {
    Waiting(spec, []) + (if spec.version.Some? then [Heading(spec.version.value, spec.title)] else [])
  }

  lemma {:induction false} WaitingIs(spec: ReleaseSpec, lines: seq<Line>)
    ensures Waiting(spec, lines) == Waiting(spec, []) + lines
    ensures forall l :: l in Added(spec) ==> Filled(l)
  {
    if spec.line.Some? {
      var entry := Entry(spec.line.value);
      assert entry[0] == '-' && entry[0] in entry;
    }
    if spec.version.Some? {
      var h := Heading(spec.version.value, spec.title);
      assert h[0] == '#' && h[0] in h;
    }
    hide Heading, Filled;
  }

  /** A release that goes through changes no line: it adds its own, once each, and the section when it was missing. */
  lemma {:induction false} LinesAreConserved(f: Files, spec: ReleaseSpec, active: ActiveSeries)
    requires ReleaseOf(f, spec, active).Ok?
    ensures multiset(Contents(ReleaseOf(f, spec, active).value.md))
         == multiset(Contents(f.md)) + multiset(Added(spec)) + multiset(if HasSection(f.md, active) then [] else [UNRELEASED])
  {
    hide *;
    var o := ReleaseParts(f, spec, active);
    ContentsOfOpened(f.md, active, o);
    OwnContents(f.md, active, o);
    if spec.version.Some? {
      CutContents(spec, o);
    } else {
      ChangeContents(spec, o);
    }
  }

  lemma {:induction false} OwnContents(md: seq<Line>, active: ActiveSeries, o: Opened)
    requires UnreleasedOf(md, active) == Ok(o)
    ensures Contents(o.lines) == o.lines
  {
    hide UnreleasedOf;
    var i, full, end := OpenedParts(md, active, o);
    hide Filled;
    FilterFilter(full[i + 3..end], Filled, Filled);
  }

  lemma {:induction false} ChangeContents(spec: ReleaseSpec, o: Opened)
    requires spec.version.None? && Contents(o.lines) == o.lines
    ensures multiset(Contents(Render(Changed(o, spec))))
         == multiset(Contents(o.front)) + multiset{UNRELEASED} + multiset(o.lines) + multiset(Contents(o.rest)) + multiset(Added(spec))
  {
    WaitingIs(spec, o.lines);
    WaitingContents(spec, o);
    hide Contents, Waiting, Render;
    ContentsOfRender(Changed(o, spec));
  }

  lemma {:induction false} CutContents(spec: ReleaseSpec, o: Opened)
    requires spec.version.Some? && Contents(o.lines) == o.lines
    ensures multiset(Contents(Render(Cut(o, spec))))
         == multiset(Contents(o.front)) + multiset{UNRELEASED} + multiset(o.lines) + multiset(Contents(o.rest)) + multiset(Added(spec))
  {
    var heading := Heading(spec.version.value, spec.title);
    var lines := Waiting(spec, o.lines);
    WaitingIs(spec, o.lines);
    WaitingContents(spec, o);
    assert heading in Added(spec) && Filled(heading);
    NoContents();
    hide Contents, Waiting, Render, Heading, Filled;
    ContentsOfRender(Cut(o, spec));
    ContentsOfOne(heading);
    ContentsAppend([heading] + lines + [""], o.rest);
    ContentsAppend([heading] + lines, [""]);
    ContentsAppend([heading], lines);
  }

  lemma {:induction false} WaitingContents(spec: ReleaseSpec, o: Opened)
    requires Contents(o.lines) == o.lines
    ensures Contents(Waiting(spec, o.lines)) == Waiting(spec, o.lines)
  {
    WaitingIs(spec, o.lines);
    ContentsAppend(Waiting(spec, []), o.lines);
    FilterAll(Waiting(spec, []), Filled);
  }

  /** What a release that goes through writes. */
  lemma {:induction false} ReleaseParts(f: Files, spec: ReleaseSpec, active: ActiveSeries) returns (o: Opened)
    requires ReleaseOf(f, spec, active).Ok?
    ensures SpecError(spec, active).None? && UnreleasedOf(f.md, active) == Ok(o)
    ensures UpdateDebt(f.registry, spec.debt, active.series).Ok?
    ensures ReleaseOf(f, spec, active).value.registry == UpdateDebt(f.registry, spec.debt, active.series).value.registry
    ensures ReleaseOf(f, spec, active).value.md == Render(if spec.version.Some? then Cut(o, spec) else Changed(o, spec))
    ensures spec.version.None? ==> ReleaseOf(f, spec, active).value.locations == f.locations
    ensures spec.version.Some? ==> spec.prev.Some?
    ensures spec.version.Some? ==>
              MoveVersion(f.locations, spec.prev.value, spec.version.value) == Ok(ReleaseOf(f, spec, active).value.locations)
    ensures spec.version.Some? ==> Waiting(spec, o.lines) != []
  {
    hide SpecError, UpdateDebt, UnreleasedOf, MoveVersion, Render, Cut, Changed, Waiting;
    o := UnreleasedOf(f.md, active).value;
  }

  // ---------------------------------------------------------------------------------------------
  // The ledger: what a reader of CHANGELOG.md sees

  datatype Published = Published(heading: Line, lines: seq<Line>)

  /** The waiting lines and the releases, each newest first. */
  datatype Ledger = Ledger(waiting: seq<Line>, released: seq<Published>)

  function Book(l: Ledger, spec: ReleaseSpec): Ledger {
    if spec.version.None? then l.(waiting := Waiting(spec, l.waiting))
    else Ledger([], [Published(Heading(spec.version.value, spec.title), Waiting(spec, l.waiting))] + l.released)
  }

  function Sections(released: seq<Published>): seq<Line> {
    if released == [] then [] else [released[0].heading] + released[0].lines + [""] + Sections(released[1..])
  }

  /** Neither the entry nor the heading ends like the header of the series. */
  predicate PlainSpec(spec: ReleaseSpec, active: ActiveSeries) { forall l :: l in Added(spec) ==> !EndsWithHeader(active, l) }

  lemma {:induction false} AddedIs(spec: ReleaseSpec)
    ensures forall l :: l in Waiting(spec, []) ==> l in Added(spec) && IsItem(l) && Filled(l)
    ensures spec.version.Some? ==>
              var h := Heading(spec.version.value, spec.title); h in Added(spec) && EndsRegion(h) && h != UNRELEASED && !IsRule(h)
  {
    WaitingIs(spec, []);
    if spec.line.Some? {
      assert Entry(spec.line.value)[..2] == "- ";
    }
    if spec.version.Some? {
      var h := Heading(spec.version.value, spec.title);
      assert h[..4] == "### " && h[..3][0] == '#';
      assert h[4] == 'v' && UNRELEASED[4] == 'U';
    }
  }

  /** A change leaves clean parts, with its entry on top. */
  lemma {:induction false} ChangeIsClean(o: Opened, spec: ReleaseSpec, active: ActiveSeries)
    requires Clean(o, active) && PlainSpec(spec, active)
    ensures Clean(Changed(o, spec), active)
  {
    AddedIs(spec);
    WaitingIs(spec, o.lines);
    hide EndsWithHeader, IsItem, Filled, Added, Waiting, EndsRegion;
  }

  /** A cut leaves clean parts, with nothing waiting and the new release on top of the older ones. */
  lemma {:induction false} CutIsClean(o: Opened, spec: ReleaseSpec, active: ActiveSeries)
    requires Clean(o, active) && PlainSpec(spec, active) && spec.version.Some?
    ensures Clean(Cut(o, spec), active)
  {
    AddedIs(spec);
    WaitingIs(spec, o.lines);
    HeaderIsLong(active);
    hide EndsWithHeader, IsItem, Filled, Added, Waiting, EndsRegion, Heading;
    var h := Heading(spec.version.value, spec.title);
    assert Cut(o, spec).rest[0] == h;
    forall l | l in Cut(o, spec).rest ensures !EndsWithHeader(active, l) {
      assert l == h || l in Waiting(spec, o.lines) || l == "" || l in o.rest;
    }
  }

  /** The file reads as the ledger, over the sections `old` that were there before. */
  ghost predicate Shows(md: seq<Line>, active: ActiveSeries, front: seq<Line>, l: Ledger, older: seq<Line>) {
    var o := Opened(front, l.waiting, Sections(l.released) + older);
    UnreleasedOf(md, active) == Ok(o) && Clean(o, active)
  }

  /** A release that goes through is booked: its line waits on top, or it is released with all that waited. */
  lemma {:induction false} ReleaseIsBooked(f: Files, spec: ReleaseSpec, active: ActiveSeries, front: seq<Line>,
                                           l: Ledger, older: seq<Line>)
    requires Shows(f.md, active, front, l, older) && PlainSpec(spec, active) && ReleaseOf(f, spec, active).Ok?
    ensures Shows(ReleaseOf(f, spec, active).value.md, active, front, Book(l, spec), older)
  {
    hide *;
    ShowsIs(f.md, active, front, l, older);
    var o := ReleaseParts(f, spec, active);
    BookParts(o, l, spec, older);
    var p := if spec.version.Some? then Cut(o, spec) else Changed(o, spec);
    if spec.version.Some? {
      CutIsClean(o, spec, active);
    } else {
      ChangeIsClean(o, spec, active);
    }
    ReadRendered(p, active);
    ShowsIs(ReleaseOf(f, spec, active).value.md, active, front, Book(l, spec), older);
  }

  lemma {:induction false} ShowsIs(md: seq<Line>, active: ActiveSeries, front: seq<Line>, l: Ledger, older: seq<Line>)
    ensures Shows(md, active, front, l, older) <==>
              (UnreleasedOf(md, active) == Ok(Opened(front, l.waiting, Sections(l.released) + older))
               && Clean(Opened(front, l.waiting, Sections(l.released) + older), active))
  {
    hide UnreleasedOf, Clean, Sections;
  }

  lemma {:induction false} BookParts(o: Opened, l: Ledger, spec: ReleaseSpec, older: seq<Line>)
    requires o.lines == l.waiting && o.rest == Sections(l.released) + older
    ensures (if spec.version.Some? then Cut(o, spec) else Changed(o, spec))
         == Opened(o.front, Book(l, spec).waiting, Sections(Book(l, spec).released) + older)
  {
    hide Waiting, Heading;
    if spec.version.Some? {
      var b := Book(l, spec);
      assert b.released[1..] == l.released;
      var mine := [Heading(spec.version.value, spec.title)] + Waiting(spec, o.lines) + [""];
      assert mine + (Sections(l.released) + older) == (mine + Sections(l.released)) + older;
    }
  }

  // ---------------------------------------------------------------------------------------------
  // The gate

  /** No line before the header line mentions the header of the series. */
  predicate Aligned(front: seq<Line>, series: nat) {
    forall i :: 0 <= i < |front| - 2 ==> !HoldsHeader(series, front[i])
  }

  /** The lines of `rest` that the gate counts to the section. */
  function RestBody(rest: seq<Line>): seq<Line> { rest[..FindFrom(rest, IsRule, 0)] }

  lemma {:induction false} FullHeaderHolds(active: ActiveSeries, l: Line)
    requires EndsWithHeader(active, l)
    ensures HoldsHeader(active.series, l)
  {
    var n := |l| - |FullHeader(active)|;
    var h := Header(active.series);
    assert FullHeader(active)[..|h|] == h;
    assert l[n..] == FullHeader(active);
    assert StartsWith(l[n..], h);
  }

  /** The section as the gate sees it. */
  lemma {:induction false} SectionOfClean(o: Opened, active: ActiveSeries)
    requires Clean(o, active) && Aligned(o.front, active.series)
    ensures SectionLines(Render(o), active.series)
         == [o.front[|o.front| - 2], "", UNRELEASED] + o.lines + [""] + RestBody(o.rest)
  {
    hide *;
    var md, h, k := Render(o), |o.front| - 2, FindFrom(o.rest, IsRule, 0);
    var end := |o.front| + |o.lines| + 2 + k;
    MarksOfClean(o, active, end);
    FindFromIs(md, (l: Line) => HoldsHeader(active.series, l), 0, h);
    FindFromIs(md, IsRule, h + 1, end);
    CleanFront(o, active);
    SliceOfRender(o, k);
    RestBodyIs(o.rest);
    SectionLinesIs(md, active.series, h, end);
  }

  lemma {:induction false} SectionLinesIs(md: seq<Line>, series: nat, h: nat, end: nat)
    requires h < end <= |md| && FindFrom(md, (l: Line) => HoldsHeader(series, l), 0) == h && FindFrom(md, IsRule, h + 1) == end
    ensures SectionLines(md, series) == md[h..end]
  {
    hide HoldsHeader, IsRule;
  }

  lemma {:induction false} CleanFront(o: Opened, active: ActiveSeries)
    requires Clean(o, active)
    ensures |o.front| >= 2 && o.front[|o.front| - 1] == ""
  {
  }

  lemma {:induction false} MarksOfClean(o: Opened, active: ActiveSeries, end: nat)
    requires Clean(o, active) && Aligned(o.front, active.series)
    requires end == |o.front| + |o.lines| + 2 + FindFrom(o.rest, IsRule, 0)
    ensures |Render(o)| == |o.front| + |o.lines| + 2 + |o.rest| && |o.front| >= 2
    ensures forall i :: 0 <= i < |Render(o)| ==>
              && (i < |o.front| - 2 ==> !HoldsHeader(active.series, Render(o)[i]))
              && (i == |o.front| - 2 ==> HoldsHeader(active.series, Render(o)[i]))
              && (|o.front| - 2 < i < end ==> !IsRule(Render(o)[i]))
              && (i == end ==> IsRule(Render(o)[i]))
  {
    FullHeaderHolds(active, o.front[|o.front| - 2]);
    HeaderIsLong(active);
    forall l | l in o.lines ensures !IsRule(l) {
      ItemIsEntry(l);
    }
    hide HoldsHeader, EndsWithHeader, IsRule, IsItem, Filled, EndsRegion, EndsSection;
    assert |Render(o)| == |o.front| + |o.lines| + 2 + |o.rest|;
    forall i | 0 <= i < |Render(o)|
      ensures i < |o.front| - 2 ==> !HoldsHeader(active.series, Render(o)[i])
      ensures i == |o.front| - 2 ==> HoldsHeader(active.series, Render(o)[i])
      ensures |o.front| - 2 < i < end ==> !IsRule(Render(o)[i])
      ensures i == end ==> IsRule(Render(o)[i])
    {
      RenderAt(o, i);
    }
  }

  lemma {:induction false} RestBodyIs(rest: seq<Line>)
    ensures RestBody(rest) == rest[..FindFrom(rest, IsRule, 0)]
  {
  }

  lemma {:induction false} SliceOfRender(o: Opened, k: nat)
    requires |o.front| >= 2 && o.front[|o.front| - 1] == "" && k <= |o.rest|
    ensures Render(o)[|o.front| - 2..|o.front| + |o.lines| + 2 + k]
         == [o.front[|o.front| - 2], "", UNRELEASED] + o.lines + [""] + o.rest[..k]
  {
    assert o.front == o.front[..|o.front| - 2] + [o.front[|o.front| - 2], ""];
  }

  /** The gate accepts what was written exactly when the older sections name no second Unreleased and no version is skipped. */
  lemma {:induction false} GateAcceptsIff(o: Opened, active: ActiveSeries, versions: seq<Version>)
    requires Clean(o, active) && Aligned(o.front, active.series)
    ensures LayoutViolations(Render(o), active.series, versions) == []
       <==> UNRELEASED !in RestBody(o.rest) && !Skipped(versions)
  {
    hide *;
    var body := RestBody(o.rest);
    SectionOfClean(o, active);
    CountUnreleased(o, active);
    NoStrayInClean(o, active);
    OnlyWhenPresent(body);
    CleanFront(o, active);
    SilentIff(Render(o), active.series, versions, [o.front[|o.front| - 2], "", UNRELEASED] + o.lines + [""] + body);
    assert |[UNRELEASED] + Filter(body, IsUnreleased)| > 1 <==> Filter(body, IsUnreleased) != [];
  }

  lemma {:induction false} SilentIff(md: seq<Line>, series: nat, versions: seq<Version>, lines: seq<Line>)
    requires SectionLines(md, series) == lines && |lines| >= 3 && lines[1] == "" && lines[2] == UNRELEASED && StrayOf(lines).None?
    ensures LayoutViolations(md, series, versions) == [] <==> |Filter(lines, IsUnreleased)| <= 1 && !Skipped(versions)
  {
    hide SectionLines, StrayOf, Skipped;
  }

  lemma {:induction false} OnlyWhenPresent(body: seq<Line>)
    ensures Filter(body, IsUnreleased) == [] <==> UNRELEASED !in body
  {
    if body != [] {
      OnlyWhenPresent(body[1..]);
    }
  }

  lemma {:induction false} CountUnreleased(o: Opened, active: ActiveSeries)
    requires Clean(o, active)
    ensures var body := RestBody(o.rest);
            Filter([o.front[|o.front| - 2], "", UNRELEASED] + o.lines + [""] + body, IsUnreleased)
            == [UNRELEASED] + Filter(body, IsUnreleased)
  {
    HeaderIsLong(active);
    forall l | l in o.lines ensures !IsUnreleased(l) {
      ItemIsEntry(l);
    }
    assert !IsUnreleased(o.front[|o.front| - 2]);
    hide *;
    CountIn(o.front[|o.front| - 2], o.lines, RestBody(o.rest));
  }

  lemma {:induction false} CountIn(head: Line, lines: seq<Line>, body: seq<Line>)
    requires !IsUnreleased(head) && forall l :: l in lines ==> !IsUnreleased(l)
    ensures Filter([head, "", UNRELEASED] + lines + [""] + body, IsUnreleased) == [UNRELEASED] + Filter(body, IsUnreleased)
  {
    assert !IsUnreleased("") && IsUnreleased(UNRELEASED);
    hide IsUnreleased;
    FilterAppend([head, "", UNRELEASED] + lines + [""], body, IsUnreleased);
    FilterAppend([head, "", UNRELEASED] + lines, [""], IsUnreleased);
    FilterAppend([head, "", UNRELEASED], lines, IsUnreleased);
    FilterNone(lines, IsUnreleased);
    FilterNone([""], IsUnreleased);
    assert [head, "", UNRELEASED] == [head, ""] + [UNRELEASED];
    FilterAppend([head, ""], [UNRELEASED], IsUnreleased);
    FilterNone([head, ""], IsUnreleased);
    FilterAll([UNRELEASED], IsUnreleased);
  }

  lemma {:induction false} NoStrayInClean(o: Opened, active: ActiveSeries)
    requires Clean(o, active)
    ensures StrayOf([o.front[|o.front| - 2], "", UNRELEASED] + o.lines + [""] + RestBody(o.rest)) == None
  {
    CleanParts(o, active);
    HeaderIsLong(active);
    var body := RestBody(o.rest);
    assert body == [] || body == [""] || EndsRegion(body[0]);
    assert forall l :: l in o.lines ==> !EndsRegion(l) && !IsStray(l) by {
      hide EndsRegion, IsStray, Clean;
    }
    hide *;
    NoStrayIn([o.front[|o.front| - 2], "", UNRELEASED], o.lines, body);
  }

  lemma {:induction false} NoStrayIn(head: seq<Line>, items: seq<Line>, body: seq<Line>)
    requires |head| == 3 && (forall l :: l in items ==> !EndsRegion(l) && !IsStray(l)) && !EndsRegion("") && !IsStray("")
    requires body == [] || body == [""] || EndsRegion(body[0])
    ensures StrayOf(head + items + [""] + body) == None
  {
    hide EndsRegion, IsStray;
    var lines := head + items + [""] + body;
    var next := 3 + |items| + 1 + (if body == [""] then 1 else 0);
    forall i | 3 <= i < next ensures !EndsRegion(lines[i]) && !IsStray(lines[i]) {
      assert lines[i] == if i < 3 + |items| then items[i - 3] else "";
    }
    assert next < |lines| ==> lines[next] == body[0];
    FindFromIs(lines, EndsRegion, 3, next);
    var part := lines[3..next];
    assert forall i :: 0 <= i < |part| ==> part[i] == lines[i + 3];
    FindFromIs(part, IsStray, 0, |part|);
  }

  /**
   * In a file the gate accepts the writer finds the section, and no second one further down, exactly when a line follows
   * the section's heading: it does not see a heading that ends the file.
   */
  lemma {:induction false} AcceptedStartIff(md: seq<Line>, active: ActiveSeries, o: Opened, versions: seq<Version>)
    requires UnreleasedOf(md, active) == Ok(o) && Clean(o, active) && Aligned(o.front, active.series)
    requires LayoutViolations(md, active.series, versions) == []
    ensures |md| > |o.front| + 1 <==> UNRELEASED !in RestBody(o.rest)
    ensures |md| > |o.front| + 1 <==> HasSection(md, active)
  {
    hide *;
    if |md| > |o.front| + 1 {
      AcceptedStart(md, active, o, versions);
    } else {
      HeadingAtEnd(md, active, o, versions);
    }
  }

  lemma {:induction false} HeadingAtEnd(md: seq<Line>, active: ActiveSeries, o: Opened, versions: seq<Version>)
    requires UnreleasedOf(md, active) == Ok(o) && Aligned(o.front, active.series) && |md| <= |o.front| + 1
    requires LayoutViolations(md, active.series, versions) == []
    ensures UNRELEASED in RestBody(o.rest) && !HasSection(md, active)
  {
    hide *;
    var i, full, end := OpenedParts(md, active, o);
    AtHeader(md, active, i);
    HeaderFirst(md, active, o, i);
    var lines := SilentParts(md, active.series, versions);
    LastLine(md, active, i, lines);
    EndReads(md[..i + 2], full, end);
    NoSectionAtEnd(md, active, i);
  }

  /** The heading is the last line of the file. */
  lemma {:induction false} LastLine(md: seq<Line>, active: ActiveSeries, i: nat, lines: seq<Line>)
    requires i + 3 == |md| && HeaderLine(md, active.series) == i
    requires lines == SectionLines(md, active.series) && |lines| >= 3 && lines[2] == UNRELEASED
    ensures md[i + 2] == UNRELEASED && WithSection(md, i) == md[..i + 2] + [UNRELEASED, "", UNRELEASED]
  {
    hide HeaderLine, IsRule;
    assert lines[2] == md[i + 2];
    assert md[i + 2..] == [UNRELEASED];
  }

  lemma {:induction false} EndReads(front: seq<Line>, full: seq<Line>, end: nat)
    requires full == front + [UNRELEASED, "", UNRELEASED]
    requires |front| + 1 <= end <= |full| && end == FindFrom(full, EndsRegion, |front| + 1)
    ensures end < |full| && UNRELEASED in RestBody(full[end..])
  {
    assert !EndsRegion("") && EndsRegion(UNRELEASED) && !IsRule(UNRELEASED) by {
      UnreleasedEnds();
    }
    hide EndsRegion, IsRule;
    var n := |front|;
    assert full[n + 1] == "" && full[n + 2] == UNRELEASED;
    FindFromIs(full, EndsRegion, n + 1, n + 2);
    assert full[n + 2..] == [UNRELEASED];
    FindFromIs([UNRELEASED], IsRule, 0, 1);
  }

  lemma {:induction false} UnreleasedEnds()
    ensures !EndsRegion("") && EndsRegion(UNRELEASED) && !IsRule(UNRELEASED)
  {
    assert UNRELEASED[..3][0] == '#' && UNRELEASED[..4] == "### ";
  }

  lemma {:induction false} NoSectionAtEnd(md: seq<Line>, active: ActiveSeries, i: nat)
    requires i + 3 == |md| && i == FindHeader(md, active, 0)
    ensures !HasSection(md, active)
  {
    hide FindHeader;
  }

  /** A file the gate accepts: the header, an empty line and the heading of the section. */
  function ShortFile(active: ActiveSeries): seq<Line> { [FullHeader(active), "", UNRELEASED] }

  const NO_DEBT := DebtSpec([], CloseRow("", "", "", ""), [])

  /** A change that adds the line `x`. */
  const SMALL_CHANGE := ReleaseSpec(None, None, None, "", Some("x"), NO_DEBT)

  lemma {:induction false} ShortHeader(active: ActiveSeries)
    ensures EndsWithHeader(active, FullHeader(active)) && HoldsHeader(active.series, FullHeader(active))
    ensures !IsRule(FullHeader(active)) && !IsUnreleased(FullHeader(active))
  {
    var h := FullHeader(active);
    assert h[|h| - |h|..] == h;
    FullHeaderHolds(active, h);
    assert h[0] == Header(active.series)[0] == '#' && |h| >= 3 && h[..3][0] == h[0];
    assert |h| > 20;
  }

  lemma {:induction false} ShortFileReads(active: ActiveSeries)
    ensures UnreleasedOf(ShortFile(active), active) == Ok(Opened([FullHeader(active), ""], [], [UNRELEASED]))
  {
    ShortHeader(active);
    UnreleasedEnds();
    hide FullHeader, EndsWithHeader, HoldsHeader, EndsRegion;
    var md := ShortFile(active);
    FindHeaderIs(md, active, 0, 0);
    FindHeaderIs(md, active, 1, 3);
    var full := WithSection(md, 0);
    assert full == [FullHeader(active), "", UNRELEASED, "", UNRELEASED];
    FindFromIs(full, EndsRegion, 3, 4);
    assert full[3..4] == [""] && full[4..] == [UNRELEASED] && full[..2] == [FullHeader(active), ""];
    assert !Filled("");
    FilterNone([""], Filled);
    FindFromIs([""], IsStray, 0, 1);
  }

  lemma {:induction false} ShortFileIsClean(active: ActiveSeries)
    ensures Clean(Opened([FullHeader(active), ""], [], [UNRELEASED]), active)
    ensures Aligned([FullHeader(active), ""], active.series) && RestBody([UNRELEASED]) == [UNRELEASED]
  {
    ShortHeader(active);
    UnreleasedEnds();
    HeaderIsLong(active);
    hide EndsWithHeader, EndsRegion, IsRule, HoldsHeader, FullHeader;
    FindFromIs([UNRELEASED], IsRule, 0, 1);
  }

  lemma {:induction false} ShortFileIsAccepted(active: ActiveSeries, versions: seq<Version>)
    requires !Skipped(versions)
    ensures LayoutViolations(ShortFile(active), active.series, versions) == []
  {
    var md := ShortFile(active);
    ShortHeader(active);
    UnreleasedEnds();
    hide FullHeader, HoldsHeader, IsRule, Skipped;
    assert !IsRule(md[1]) by {
      HeaderIsLong(active);
    }
    FindFromIs(md, (l: Line) => HoldsHeader(active.series, l), 0, 0);
    FindFromIs(md, IsRule, 1, 3);
    assert md[0..3] == md && md == [FullHeader(active), ""] + [UNRELEASED];
    FilterAppend([FullHeader(active), ""], [UNRELEASED], IsUnreleased);
    FilterNone([FullHeader(active), ""], IsUnreleased);
    FilterAll([UNRELEASED], IsUnreleased);
  }

  lemma {:induction false} SmallChange(f: Files, active: ActiveSeries)
    requires UnreleasedOf(f.md, active).Ok?
    ensures ReleaseOf(f, SMALL_CHANGE, active) == Ok(f.(md := Render(Changed(UnreleasedOf(f.md, active).value, SMALL_CHANGE))))
  {
    SmallSpec(active);
    NoDebt(f.registry, active);
    hide UnreleasedOf, Render, Changed, SpecError, UpdateDebt;
  }

  lemma {:induction false} NoDebt(reg: Registry, active: ActiveSeries)
    ensures UpdateDebt(reg, NO_DEBT, active.series).Ok?
    ensures UpdateDebt(reg, NO_DEBT, active.series).value.registry == reg
  {
    hide ReadCounter, NewTable, WithClosed, SetCounter;
  }

  lemma {:induction false} SmallSpec(active: ActiveSeries)
    ensures SpecError(SMALL_CHANGE, active).None?
  {
    assert 'x' in "x" && !IsWhite('x') && !IsBlank("x") && !StartsWithDash("x");
    assert CloseRowsOf(NO_DEBT) == Ok([]);
    hide CloseRowsOf, StartsWithDash, IsBlank;
  }

  lemma {:induction false} SmallAdded(active: ActiveSeries)
    ensures Waiting(SMALL_CHANGE, []) == ["- x"] && Added(SMALL_CHANGE) == ["- x"] && PlainSpec(SMALL_CHANGE, active)
  {
    assert Entry("x") == "- x";
    assert |FullHeader(active)| > 20;
    hide FullHeader;
  }

  /** One change to that file writes a second heading, which the gate then refuses. */
  lemma {:induction false} HeadingAtEndIsDoubled(f: Files, active: ActiveSeries)
    requires f.md == ShortFile(active) && !Skipped(f.locations.changelog)
    ensures LayoutViolations(f.md, active.series, f.locations.changelog) == []
    ensures var g := ReleaseOf(f, SMALL_CHANGE, active);
            && g.Ok? && g.value.md == [FullHeader(active), "", UNRELEASED, "- x", "", UNRELEASED]
            && UnreleasedTwice in LayoutViolations(g.value.md, active.series, g.value.locations.changelog)
  {
    hide *;
    var o := Opened([FullHeader(active), ""], [], [UNRELEASED]);
    ShortFileReads(active);
    ShortFileIsClean(active);
    ShortFileIsAccepted(active, f.locations.changelog);
    SmallChange(f, active);
    SmallAdded(active);
    ChangeIsClean(o, SMALL_CHANGE, active);
    var c := Changed(o, SMALL_CHANGE);
    ChangedShort(active);
    SectionOfClean(c, active);
    CountUnreleased(c, active);
    TwiceIsFound(c, active, f.locations.changelog);
  }

  lemma {:induction false} ChangedShort(active: ActiveSeries)
    ensures var o := Opened([FullHeader(active), ""], [], [UNRELEASED]);
            var c := Changed(o, SMALL_CHANGE);
            && c == o.(lines := ["- x"])
            && Render(c) == [FullHeader(active), "", UNRELEASED, "- x", "", UNRELEASED]
  {
    SmallAdded(active);
    hide FullHeader, Entry, Added, PlainSpec;
  }

  lemma {:induction false} TwiceIsFound(c: Opened, active: ActiveSeries, versions: seq<Version>)
    requires RestBody(c.rest) == [UNRELEASED] && |c.front| >= 2
    requires var body := RestBody(c.rest);
             && SectionLines(Render(c), active.series) == [c.front[|c.front| - 2], "", UNRELEASED] + c.lines + [""] + body
             && Filter([c.front[|c.front| - 2], "", UNRELEASED] + c.lines + [""] + body, IsUnreleased)
                == [UNRELEASED] + Filter(body, IsUnreleased)
    ensures UnreleasedTwice in LayoutViolations(Render(c), active.series, versions)
  {
    hide SectionLines, Render, RestBody, StrayOf, Skipped;
    FilterAll([UNRELEASED], IsUnreleased);
  }

  lemma {:induction false} AcceptedStart(md: seq<Line>, active: ActiveSeries, o: Opened, versions: seq<Version>)
    requires UnreleasedOf(md, active) == Ok(o) && Clean(o, active) && Aligned(o.front, active.series)
    requires |md| > |o.front| + 1 && LayoutViolations(md, active.series, versions) == []
    ensures UNRELEASED !in RestBody(o.rest) && HasSection(md, active)
  {
    hide *;
    var i, full, end := OpenedParts(md, active, o);
    AtHeader(md, active, i);
    HeaderFirst(md, active, o, i);
    var lines := SilentParts(md, active.series, versions);
    SectionHere(md, active, i, full, lines);
    var k := SectionEnd(md, active, i, end, o);
    if UNRELEASED in RestBody(o.rest) {
      SecondUnreleased(lines, md, i, end, k, o);
      assert false;
    }
  }

  lemma {:induction false} HeaderFirst(md: seq<Line>, active: ActiveSeries, o: Opened, i: nat)
    requires HeaderAt(md, active, i) && o.front == md[..i + 2] && Aligned(o.front, active.series)
    ensures HeaderLine(md, active.series) == i && |o.front| == i + 2
  {
    FullHeaderHolds(active, md[i]);
    hide HoldsHeader, EndsWithHeader;
    assert forall k :: 0 <= k < i ==> md[k] == o.front[k];
    FindFromIs(md, (l: Line) => HoldsHeader(active.series, l), 0, i);
  }

  lemma {:induction false} SilentParts(md: seq<Line>, series: nat, versions: seq<Version>) returns (lines: seq<Line>)
    requires LayoutViolations(md, series, versions) == []
    ensures lines == SectionLines(md, series) && |lines| >= 3 && lines[2] == UNRELEASED
    ensures |Filter(lines, IsUnreleased)| <= 1 && !Skipped(versions)
  {
    lines := SectionLines(md, series);
    hide SectionLines, StrayOf, Skipped;
  }

  lemma {:induction false} SectionHere(md: seq<Line>, active: ActiveSeries, i: nat, full: seq<Line>, lines: seq<Line>)
    requires i + 3 < |md| && i == FindHeader(md, active, 0) && HeaderLine(md, active.series) == i && full == WithSection(md, i)
    requires lines == SectionLines(md, active.series) && |lines| >= 3 && lines[2] == UNRELEASED
    ensures full == md && HasSection(md, active) && lines == md[i..FindFrom(md, IsRule, i + 1)]
  {
    hide FindHeader, HeaderLine;
  }

  /** No rule before the end of the section, so what follows is counted up to the first rule in it. */
  lemma {:induction false} SectionEnd(md: seq<Line>, active: ActiveSeries, i: nat, end: nat, o: Opened) returns (k: nat)
    requires i + 3 <= end <= |md| && md[i + 2] == UNRELEASED && HeaderAt(md, active, i)
    requires forall j :: i + 3 <= j < end ==> !IsStray(md[j])
    requires o.rest == if end == |md| then [""] else md[end..]
    ensures k == FindFrom(md, IsRule, i + 1) && end <= k
    ensures RestBody(o.rest) == if end == |md| then [""] else md[end..k]
  {
    HeaderIsLong(active);
    forall j | i + 3 <= j < end ensures !IsRule(md[j]) {
      if IsItem(md[j]) {
        ItemIsEntry(md[j]);
      } else {
        BlankIsNoRule(md[j]);
      }
    }
    hide IsRule, IsStray, EndsWithHeader;
    k := FindFrom(md, IsRule, i + 1);
    assert md[i + 1] == "";
    if end < |md| {
      assert forall j :: 0 <= j < |md| - end ==> o.rest[j] == md[end + j];
      FindFromIs(o.rest, IsRule, 0, k - end);
      assert o.rest[..k - end] == md[end..k];
    } else {
      FindFromIs([""], IsRule, 0, 1);
    }
  }

  lemma {:induction false} BlankIsNoRule(l: Line)
    requires !Filled(l)
    ensures !IsRule(l)
  {
    assert |l| >= 3 ==> l[..3][0] == l[0] && l[0] in l;
  }

  lemma {:induction false} SecondUnreleased(lines: seq<Line>, md: seq<Line>, i: nat, end: nat, k: nat, o: Opened)
    requires i + 3 <= end <= k <= |md| && lines == md[i..k] && md[i + 2] == UNRELEASED
    requires UNRELEASED in (if end == |md| then [""] else md[end..k])
    ensures |Filter(lines, IsUnreleased)| > 1
  {
    var a, b := md[i..i + 3], md[i + 3..k];
    assert lines == a + b && UNRELEASED != "";
    assert UNRELEASED in b by {
      var j := IndexOf(md, end, k, UNRELEASED);
      assert b[j - i - 3] == UNRELEASED;
    }
    assert a[2] == UNRELEASED;
    FilterAppend(a, b, IsUnreleased);
    OnlyWhenPresent(a);
    OnlyWhenPresent(b);
  }

  // ---------------------------------------------------------------------------------------------
  // The version locations

  /** Every location names `v`, and the top version of the changelog follows the one before it. */
  ghost predicate InSync(l: Locations, v: Version) {
    && l.arrayHeads == 1 && l.readme == [v] && l.package == [v]
    && |l.lock| >= 2 && l.lock[0] == v && l.lock[1] == v
    && l.changelog != [] && l.changelog[0] == v
    && (|l.changelog| >= 2 ==> IsNextVersion(l.changelog[1], l.changelog[0]))
  }

  /** A cut from locations in sync must start from their version, and moves all of them: the root versions, nothing else. */
  lemma {:induction false} CutKeepsSync(l: Locations, v: Version, prev: Version, next: Version)
    requires InSync(l, v) && IsNextVersion(prev, next) && MoveVersion(l, prev, next).Ok?
    ensures prev == v && InSync(MoveVersion(l, prev, next).value, next)
    ensures MoveVersion(l, prev, next).value.lock[2..] == l.lock[2..]
    ensures MoveVersion(l, prev, next).value.changelog == [next] + l.changelog
  {
    assert Times(l.readme, prev) == if prev == v then 1 else 0;
    var m := MoveVersion(l, prev, next).value;
    assert l.readme[1..] == [];
    assert ReplaceFirst([v], v, next, 1) == [next];
    var rest := l.lock[1..];
    assert rest[1..] == l.lock[2..] && rest[0] == v;
    assert ReplaceFirst(rest, v, next, 1) == [next] + ReplaceFirst(rest[1..], v, next, 0) == [next] + l.lock[2..];
    assert m.lock == [next] + ReplaceFirst(rest, v, next, 1);
    assert m.changelog[1] == l.changelog[0];
  }

  // ---------------------------------------------------------------------------------------------
  // Runs

  /** What is on disk after a release: nothing changes when it fails. */
  function After(f: Files, spec: ReleaseSpec, active: ActiveSeries): Files {
    match ReleaseOf(f, spec, active) case Ok(g) => g case Err(_) => f
  }

  /** The ledger is in CHANGELOG.md, the gate is silent, the versions are in sync and the registry is consistent. */
  ghost predicate InOrder(f: Files, active: ActiveSeries, front: seq<Line>, older: seq<Line>, l: Ledger, v: Version) {
    && Shows(f.md, active, front, l, older) && Aligned(front, active.series)
    && UNRELEASED !in RestBody(Sections(l.released) + older)
    && LayoutViolations(f.md, active.series, f.locations.changelog) == []
    && InSync(f.locations, v)
    && D.Consistent(f.registry, active.series)
  }

  function BookIf(f: Files, spec: ReleaseSpec, active: ActiveSeries, l: Ledger): Ledger {
    if ReleaseOf(f, spec, active).Ok? then Book(l, spec) else l
  }

  function VersionAfter(f: Files, spec: ReleaseSpec, active: ActiveSeries, v: Version): Version {
    if ReleaseOf(f, spec, active).Ok? && spec.version.Some? then spec.version.value else v
  }

  ghost predicate PlainRelease(spec: ReleaseSpec, active: ActiveSeries) {
    PlainSpec(spec, active) && D.CountersApart(spec.debt.openRows)
  }

  lemma {:induction false} StaysInOrder(f: Files, spec: ReleaseSpec, active: ActiveSeries, front: seq<Line>,
                                        older: seq<Line>,
                                        l: Ledger, v: Version)
    requires InOrder(f, active, front, older, l, v) && PlainRelease(spec, active)
    ensures InOrder(After(f, spec, active), active, front, older, BookIf(f, spec, active, l), VersionAfter(f, spec, active, v))
  {
    hide ReleaseOf, Shows, Aligned, RestBody, Sections, LayoutViolations, InSync, PlainSpec, Book;
    if ReleaseOf(f, spec, active).Ok? {
      var g := ReleaseOf(f, spec, active).value;
      ReleaseIsBooked(f, spec, active, front, l, older);
      RegistryFollows(f, spec, active);
      SyncFollows(f, spec, active, v);
      RestFollows(f, spec, active, front, older, l);
      GateFollows(f, spec, active, front, older, l, VersionAfter(f, spec, active, v));
    }
  }

  lemma {:induction false} RegistryFollows(f: Files, spec: ReleaseSpec, active: ActiveSeries)
    requires D.Consistent(f.registry, active.series) && D.CountersApart(spec.debt.openRows) && ReleaseOf(f, spec, active).Ok?
    ensures D.Consistent(ReleaseOf(f, spec, active).value.registry, active.series)
    ensures forall id :: D.Follows(D.StatusOf(f.registry, id), D.StatusOf(ReleaseOf(f, spec, active).value.registry, id))
  {
    hide *;
    var o := ReleaseParts(f, spec, active);
    D.AfterIs(f.registry, spec.debt, active.series);
    D.StepKeeps(f.registry, spec.debt, active.series);
  }

  lemma {:induction false} SyncFollows(f: Files, spec: ReleaseSpec, active: ActiveSeries, v: Version)
    requires InSync(f.locations, v) && ReleaseOf(f, spec, active).Ok?
    ensures InSync(ReleaseOf(f, spec, active).value.locations, VersionAfter(f, spec, active, v))
  {
    var o := ReleaseParts(f, spec, active);
    hide ReleaseOf, InSync, MoveVersion, UpdateDebt, UnreleasedOf, Render;
    if spec.version.Some? {
      CutKeepsSync(f.locations, v, spec.prev.value, spec.version.value);
    }
  }

  /** A cut puts its own lines in front of the older sections, none of them a rule or a second Unreleased. */
  lemma {:induction false} RestFollows(f: Files, spec: ReleaseSpec, active: ActiveSeries, front: seq<Line>,
                                       older: seq<Line>, l: Ledger)
    requires Shows(f.md, active, front, l, older) && ReleaseOf(f, spec, active).Ok?
    requires UNRELEASED !in RestBody(Sections(l.released) + older)
    ensures UNRELEASED !in RestBody(Sections(Book(l, spec).released) + older)
  {
    hide *;
    ShowsIs(f.md, active, front, l, older);
    var o := Opened(front, l.waiting, Sections(l.released) + older);
    BookParts(o, l, spec, older);
    if spec.version.Some? {
      CutRest(o, spec, active);
    } else {
      ChangedRest(o, spec);
    }
  }

  lemma {:induction false} ChangedRest(o: Opened, spec: ReleaseSpec)
    ensures Changed(o, spec).rest == o.rest
  {
  }

  lemma {:induction false} CutRest(o: Opened, spec: ReleaseSpec, active: ActiveSeries)
    requires Clean(o, active) && spec.version.Some?
    ensures UNRELEASED in RestBody(Cut(o, spec).rest) ==> UNRELEASED in RestBody(o.rest)
  {
    hide *;
    var mine := CutLines(o, spec, active);
    Prepended(mine, o.rest);
  }

  lemma {:induction false} CutLines(o: Opened, spec: ReleaseSpec, active: ActiveSeries) returns (mine: seq<Line>)
    requires Clean(o, active) && spec.version.Some?
    ensures Cut(o, spec).rest == mine + o.rest && forall l :: l in mine ==> !IsRule(l) && l != UNRELEASED
  {
    var h := Heading(spec.version.value, spec.title);
    mine := [h] + Waiting(spec, o.lines) + [""];
    AddedIs(spec);
    WaitingIs(spec, o.lines);
    HeaderIsLong(active);
    hide IsRule, Heading, IsItem, Filled, EndsRegion, EndsWithHeader, Waiting, Added;
    forall l | l in mine ensures !IsRule(l) && l != UNRELEASED {
      assert l == h || l in Waiting(spec, []) || l in o.lines || l == "";
      if IsItem(l) {
        ItemIsEntry(l);
      }
    }
  }

  lemma {:induction false} Prepended(mine: seq<Line>, rest: seq<Line>)
    requires forall l :: l in mine ==> !IsRule(l) && l != UNRELEASED
    ensures UNRELEASED in RestBody(mine + rest) ==> UNRELEASED in RestBody(rest)
  {
    hide IsRule;
    var k := FindFrom(rest, IsRule, 0);
    var all := mine + rest;
    forall i | 0 <= i < |mine| + k ensures !IsRule(all[i]) {
      assert all[i] == if i < |mine| then mine[i] else rest[i - |mine|];
    }
    FindFromIs(all, IsRule, 0, |mine| + k);
    assert all[..|mine| + k] == mine + rest[..k];
  }

  lemma {:induction false} GateFollows(f: Files, spec: ReleaseSpec, active: ActiveSeries, front: seq<Line>,
                                       older: seq<Line>,
                                       l: Ledger, v: Version)
    requires Shows(f.md, active, front, l, older) && PlainSpec(spec, active) && Aligned(front, active.series)
    requires ReleaseOf(f, spec, active).Ok? && InSync(ReleaseOf(f, spec, active).value.locations, v)
    requires UNRELEASED !in RestBody(Sections(Book(l, spec).released) + older)
    ensures LayoutViolations(ReleaseOf(f, spec, active).value.md, active.series, ReleaseOf(f, spec, active).value.locations.changelog) == []
  {
    hide *;
    var g := ReleaseOf(f, spec, active).value;
    ShowsIs(f.md, active, front, l, older);
    var o := ReleaseParts(f, spec, active);
    BookParts(o, l, spec, older);
    var p := if spec.version.Some? then Cut(o, spec) else Changed(o, spec);
    if spec.version.Some? {
      CutIsClean(o, spec, active);
    } else {
      ChangeIsClean(o, spec, active);
    }
    NothingSkipped(g.locations, v);
    GateAcceptsIff(p, active, g.locations.changelog);
  }

  lemma {:induction false} NothingSkipped(l: Locations, v: Version)
    requires InSync(l, v)
    ensures !Skipped(l.changelog)
  {
  }

  ghost predicate IsRun(files: seq<Files>, specs: seq<ReleaseSpec>, active: ActiveSeries) {
    && |files| == |specs| + 1
    && forall i :: 0 <= i < |specs| ==> PlainRelease(specs[i], active) && files[i + 1] == After(files[i], specs[i], active)
  }

  /** The ledger after the first `i` specs, of which the failed ones count for nothing. */
  function LedgerAt(files: seq<Files>, specs: seq<ReleaseSpec>, active: ActiveSeries, start: Ledger, i: nat): Ledger
    requires i <= |specs| && i <= |files|
  {
    if i == 0 then start else BookIf(files[i - 1], specs[i - 1], active, LedgerAt(files, specs, active, start, i - 1))
  }

  function VersionAt(files: seq<Files>, specs: seq<ReleaseSpec>, active: ActiveSeries, start: Version, i: nat): Version
    requires i <= |specs| && i <= |files|
  {
    if i == 0 then start else VersionAfter(files[i - 1], specs[i - 1], active, VersionAt(files, specs, active, start, i - 1))
  }

  /** After any run of changes and cuts the files are in order, and CHANGELOG.md shows the ledger of the run. */
  lemma {:induction false} RunStaysInOrder(files: seq<Files>, specs: seq<ReleaseSpec>, active: ActiveSeries,
                                           front: seq<Line>,
                                           older: seq<Line>, l: Ledger, v: Version, i: nat)
    requires IsRun(files, specs, active) && InOrder(files[0], active, front, older, l, v) && i < |files|
    ensures InOrder(files[i], active, front, older, LedgerAt(files, specs, active, l, i), VersionAt(files, specs, active, v, i))
  {
    hide InOrder, PlainRelease, After, BookIf, VersionAfter;
    if i > 0 {
      RunStaysInOrder(files, specs, active, front, older, l, v, i - 1);
      StaysInOrder(files[i - 1], specs[i - 1], active, front, older,
                   LedgerAt(files, specs, active, l, i - 1), VersionAt(files, specs, active, v, i - 1));
    }
  }

  /** All the lines of the ledger, waiting or released. */
  function LinesOf(l: Ledger): multiset<Line> { multiset(l.waiting) + ReleasedLines(l.released) }

  function ReleasedLines(released: seq<Published>): multiset<Line> {
    if released == [] then multiset{} else multiset(released[0].lines) + ReleasedLines(released[1..])
  }

  /** The entries of the releases that went through among the first `i`. */
  function EntriesAt(files: seq<Files>, specs: seq<ReleaseSpec>, active: ActiveSeries, i: nat): seq<Line>
    requires i <= |specs| && i <= |files|
  {
    if i == 0 then []
    else EntriesAt(files, specs, active, i - 1)
         + (if ReleaseOf(files[i - 1], specs[i - 1], active).Ok? then Waiting(specs[i - 1], []) else [])
  }

  lemma {:induction false} BookKeepsLines(l: Ledger, spec: ReleaseSpec)
    ensures LinesOf(Book(l, spec)) == LinesOf(l) + multiset(Waiting(spec, []))
    ensures spec.version.Some? ==> Book(l, spec).waiting == [] && Book(l, spec).released[1..] == l.released
  {
    WaitingIs(spec, l.waiting);
    hide Waiting;
    if spec.version.Some? {
      assert Book(l, spec).released[1..] == l.released;
    }
  }

  /** Over a run every line stays in the ledger exactly as often as it was added, first waiting, then under one version. */
  lemma {:induction false} LedgerHoldsEveryLine(files: seq<Files>, specs: seq<ReleaseSpec>, active: ActiveSeries,
                                                l: Ledger, i: nat)
    requires i <= |specs| && i <= |files|
    ensures LinesOf(LedgerAt(files, specs, active, l, i)) == LinesOf(l) + multiset(EntriesAt(files, specs, active, i))
  {
    hide ReleaseOf, Waiting, LinesOf, Book;
    if i > 0 {
      LedgerHoldsEveryLine(files, specs, active, l, i - 1);
      BookKeepsLines(LedgerAt(files, specs, active, l, i - 1), specs[i - 1]);
    }
  }
}
