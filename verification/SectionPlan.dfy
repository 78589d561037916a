/** Numbers for the audit report sections a branch added: `planSections` (scripts/renumber/plan.ts). */
module SectionPlan {
  import opened Decimals
  import opened LineDiff
  import opened Rewriting
  import opened RewritingTheorems
  import opened Seqs
  import opened Texts

  /** The numeral of `/^## ([۰-۹0-9]+)\. /`. */
  function HeadingDigits(l: Line): (d: Option<string>)
    ensures d.Some? ==> d.value != "" && AllAnyDigits(d.value)
  {
    if !StartsWith(l, "## ") then None
    else
      var n := Run(l, IsAnyDigit, 3);
      if n == 0 || 3 + n + 2 > |l| || l[3 + n..3 + n + 2] != ". " then None
      else
        var d := l[3..3 + n];
        assert forall i :: 0 <= i < n ==> d[i] == l[3 + i];
        Some(d)
  }

  function SectionHeading(l: Line): Option<nat> {
    match HeadingDigits(l) case None => None case Some(d) => Some(AnyValue(d))
  }

  /** The section numbers of the lines, in order. */
  function NumbersOf(lines: seq<Line>): seq<nat> {
    if lines == [] then []
    else
      (match SectionHeading(lines[0]) case None => [] case Some(n) => [n]) + NumbersOf(lines[1..])
  }

  /** The marked lines of `cur`; `offset` is the index of its first line. */
  function MarkedLines(cur: seq<Line>, marked: set<nat>, offset: nat): seq<Line> {
    if cur == [] then []
    else (if offset in marked then [cur[0]] else []) + MarkedLines(cur[1..], marked, offset + 1)
  }

  function MaxOf(used: seq<nat>): (m: nat)
    ensures forall n :: n in used ==> n <= m
  {
    if used == [] then 0
    else
      var rest := MaxOf(used[1..]);
      assert used == [used[0]] + used[1..];
      if used[0] > rest then used[0] else rest
  }

  /** The new numbers for the headings `ns` still to come, where `used` are taken and `moved` are planned. */
  function PlanFrom(ns: seq<nat>, used: seq<nat>, moved: map<nat, nat>): map<nat, nat> {
    if ns == [] then moved
    else if ns[0] !in used && ns[0] !in moved then PlanFrom(ns[1..], used + [ns[0]], moved)
    else
      var next := MaxOf(used) + 1;
      PlanFrom(ns[1..], used + [next], moved[ns[0] := next])
  }

  function BaseLines(base: Option<seq<Line>>): seq<Line> { if base.None? then [""] else base.value }

  function AddedHeadings(base: Option<seq<Line>>, cur: seq<Line>): seq<Line> {
    MarkedLines(cur, AddedLines(BaseLines(base), cur), 0)
  }

  method PlanSections(base: Option<seq<Line>>, cur: Option<seq<Line>>) returns (moved: map<nat, nat>)
    ensures moved == if cur.None? then map[]
                     else PlanFrom(NumbersOf(AddedHeadings(base, cur.value)), NumbersOf(BaseLines(base)), map[])
  {
    hide SectionHeading, AddedLines, MarkedLines, NumbersOf, PlanFrom, BaseLines;
    moved := map[];
    if cur.None? {
      return;
    }
    var baseLines := BaseLines(base);
    var used: seq<nat> := NumbersOf(baseLines);
    var added := AddedLineIndexes(baseLines, cur.value);
    var lines := cur.value;
    ghost var plan := PlanFrom(NumbersOf(MarkedLines(lines, added, 0)), used, map[]);
    assert lines[0..] == lines;
    NothingLeft(lines, added);
    for k := 0 to |lines|
      invariant plan == PlanFrom(NumbersOf(MarkedLines(lines[k..], added, k)), used, moved)
    {
      NextNumbers(lines, added, k);
      var n := SectionHeading(lines[k]);
      if k in added && n.Some? {
        PlanNext(n.value, NumbersOf(MarkedLines(lines[k + 1..], added, k + 1)), used, moved);
        if n.value !in used && n.value !in moved {
          used := used + [n.value];
        } else {
          var next := MaxOf(used) + 1;
          used := used + [next];
          moved := moved[n.value := next];
        }
      }
    }
    PlanDone(used, moved);
  }

  lemma {:induction false} NothingLeft(lines: seq<Line>, added: set<nat>)
    ensures NumbersOf(MarkedLines(lines[|lines|..], added, |lines|)) == []
  {
  }

  lemma {:induction false} PlanDone(used: seq<nat>, moved: map<nat, nat>)
    ensures PlanFrom([], used, moved) == moved
  {
  }

  lemma {:induction false} PlanNext(n: nat, rest: seq<nat>, used: seq<nat>, moved: map<nat, nat>)
    ensures PlanFrom([n] + rest, used, moved)
         == if n !in used && n !in moved then PlanFrom(rest, used + [n], moved)
            else PlanFrom(rest, used + [MaxOf(used) + 1], moved[n := MaxOf(used) + 1])
  {
    assert ([n] + rest)[1..] == rest;
  }

  lemma {:induction false} NextNumbers(lines: seq<Line>, added: set<nat>, k: nat)
    requires k < |lines|
    ensures var rest := NumbersOf(MarkedLines(lines[k + 1..], added, k + 1));
            NumbersOf(MarkedLines(lines[k..], added, k))
            == if k in added && SectionHeading(lines[k]).Some? then [SectionHeading(lines[k]).value] + rest else rest
  {
    hide SectionHeading;
    assert lines[k..][1..] == lines[k + 1..];
    var rest := MarkedLines(lines[k + 1..], added, k + 1);
    assert ([lines[k]] + rest)[1..] == rest;
    assert [] + rest == rest;
  }

  // ---------------------------------------------------------------------------------------------
  // The numbers after the plan

  function Final(moved: map<nat, nat>, n: nat): nat { if n in moved then moved[n] else n }

  function Finals(moved: map<nat, nat>, ns: seq<nat>): seq<nat> { Map(ns, (n: nat) => Final(moved, n)) }

  /** A later step changes no number planned before it. */
  lemma {:induction false} PlanKeeps(ns: seq<nat>, used: seq<nat>, moved: map<nat, nat>, n: nat)
    requires n !in ns
    ensures n in PlanFrom(ns, used, moved) <==> n in moved
    ensures Final(PlanFrom(ns, used, moved), n) == Final(moved, n)
    decreases |ns|
  {
    if ns != [] {
      assert n != ns[0] && n !in ns[1..];
      if ns[0] !in used && ns[0] !in moved {
        PlanKeeps(ns[1..], used + [ns[0]], moved, n);
      } else {
        var next := MaxOf(used) + 1;
        PlanKeeps(ns[1..], used + [next], moved[ns[0] := next], n);
      }
    }
  }

  /** The number the first heading gets: its own, or the next free one. */
  function First(n: nat, used: seq<nat>): nat { if n in used then MaxOf(used) + 1 else n }

  function FirstMoved(n: nat, used: seq<nat>, moved: map<nat, nat>): map<nat, nat> {
    if n in used then moved[n := First(n, used)] else moved
  }

  lemma {:induction false} PlanStep(ns: seq<nat>, used: seq<nat>, moved: map<nat, nat>)
    requires ns != [] && Distinct(ns) && forall n :: n in ns ==> n !in moved
    ensures var n, rest := ns[0], ns[1..];
            && PlanFrom(ns, used, moved) == PlanFrom(rest, used + [First(n, used)], FirstMoved(n, used, moved))
            && Final(PlanFrom(ns, used, moved), n) == First(n, used)
            && (n in PlanFrom(ns, used, moved) <==> n in used)
            && First(n, used) !in used
            && n !in rest && Distinct(rest) && forall x :: x in rest ==> x !in FirstMoved(n, used, moved)
  {
    var n, rest := ns[0], ns[1..];
    assert ns == [n] + rest;
    DistinctConcat([n], rest);
    PlanKeeps(rest, used + [First(n, used)], FirstMoved(n, used, moved), n);
  }

  /** Different numbers come out different, and none of them was in use before. */
  lemma {:induction false} PlanApart(ns: seq<nat>, used: seq<nat>, moved: map<nat, nat>)
    requires Distinct(ns) && forall n :: n in ns ==> n !in moved
    ensures Distinct(Finals(PlanFrom(ns, used, moved), ns))
    ensures forall f :: f in Finals(PlanFrom(ns, used, moved), ns) ==> f !in used
    decreases |ns|
  {
    if ns != [] {
      hide PlanFrom, Final, First, FirstMoved;
      var n, rest := ns[0], ns[1..];
      var first := First(n, used);
      var plan := PlanFrom(ns, used, moved);
      PlanStep(ns, used, moved);
      PlanApart(rest, used + [first], FirstMoved(n, used, moved));
      var fs := Finals(plan, rest);
      assert Finals(plan, ns) == [first] + fs;
      hide Finals;
      forall f | f in fs ensures f !in used && f != first {
        assert f !in used + [first];
      }
      DistinctConcat([first], fs);
    }
  }

  /** Heading `j` is moved and takes the number `n`. */
  predicate GivenAt(ns: seq<nat>, plan: map<nat, nat>, j: int, n: nat) {
    0 <= j < |ns| && ns[j] in plan && plan[ns[j]] == n
  }

  /** A number moves exactly when it is in use: by the base, or given to an earlier heading. */
  lemma {:induction false} PlanMovesIff(ns: seq<nat>, used: seq<nat>, moved: map<nat, nat>, i: nat)
    requires Distinct(ns) && (forall n :: n in ns ==> n !in moved) && i < |ns|
    ensures var plan := PlanFrom(ns, used, moved);
            ns[i] in plan <==> ns[i] in used || exists j :: j < i && GivenAt(ns, plan, j, ns[i])
    decreases |ns|
  {
    PlanStep(ns, used, moved);
    var n, rest := ns[0], ns[1..];
    var plan := PlanFrom(ns, used, moved);
    if i > 0 {
      PlanMovesIff(rest, used + [First(n, used)], FirstMoved(n, used, moved), i - 1);
      hide PlanFrom, FirstMoved;
      assert ns[i] == rest[i - 1] && ns[i] != n;
      assert First(n, used) == ns[i] && ns[i] !in used ==> GivenAt(ns, plan, 0, ns[i]);
      assert forall j :: GivenAt(rest, plan, j, ns[i]) ==> GivenAt(ns, plan, j + 1, ns[i]);
      assert forall j :: 0 < j && GivenAt(ns, plan, j, ns[i]) ==> GivenAt(rest, plan, j - 1, ns[i]);
      if GivenAt(ns, plan, 0, ns[i]) {
        assert First(n, used) == ns[i];
      }
    }
  }

  // ---------------------------------------------------------------------------------------------
  // On the page

  /** The start of a section heading with these digits. */
  function HeadingStart(d: string): string { "## " + d + ". " }

  lemma {:induction false} ReadHeading(d: string, rest: string)
    requires d != "" && AllAnyDigits(d)
    ensures HeadingDigits(HeadingStart(d) + rest) == Some(d)
  {
    var l := HeadingStart(d) + rest;
    assert forall k :: 0 <= k < |d| ==> l[3 + k] == d[k];
    assert l[3 + |d|] == '.' && l[3 + |d| + 1] == ' ';
    forall k | 3 <= k < 3 + |d| ensures IsAnyDigit(l[k]) {
      assert l[k] == d[k - 3];
    }
    RunIs(l, IsAnyDigit, 3, |d|);
    assert l[3..3 + |d|] == d && l[3 + |d|..3 + |d| + 2] == ". ";
    assert l[..3] == "## ";
  }

  /** A line with a section heading is its start and the rest. */
  lemma {:induction false} HeadingParts(l: Line) returns (rest: string)
    requires HeadingDigits(l).Some?
    ensures l == HeadingStart(HeadingDigits(l).value) + rest
  {
    var d := HeadingDigits(l).value;
    rest := l[3 + |d| + 2..];
    assert l == l[..3] + l[3..3 + |d|] + l[3 + |d|..3 + |d| + 2] + rest;
  }

  lemma {:induction false} StartParts(d: string, rest: string)
    ensures var l := HeadingStart(d) + rest;
            && |l| == |d| + 5 + |rest| && l[..3] == "## " && l[3..3 + |d|] == d && l[3 + |d|..] == ". " + rest
            && l[3 + |d|] == '.' && forall k :: 0 <= k < |d| ==> l[3 + k] == d[k]
  {
    var l := HeadingStart(d) + rest;
    assert l[3 + |d|..] == ". " + rest;
  }

  /** Only a heading written in Persian digits alone takes its new number. */
  lemma {:induction false} HeadingTakes(d: string, rest: string, sections: map<nat, nat>)
    requires d != "" && AllAnyDigits(d)
    ensures HeadingNumber(HeadingStart(d) + rest, sections)
         == HeadingStart(if AllPersian(d) then SectionNumber(sections, d) else d) + rest
  {
    var l := HeadingStart(d) + rest;
    StartParts(d, rest);
    hide HeadingStart;
    if AllPersian(d) {
      forall k | 3 <= k < 3 + |d| ensures IsPersian(l[k]) {
        assert l[k] == d[k - 3];
      }
      RunIs(l, IsPersian, 3, |d|);
      hide SectionNumber, IsPersian;
      var e := SectionNumber(sections, d);
      assert HeadingNumber(l, sections) == l[..3] + e + l[3 + |d|..];
      StartOf(e, rest);
    } else {
      MixedRun(l, d);
    }
  }

  lemma {:induction false} StartOf(e: string, rest: string)
    ensures "## " + e + (". " + rest) == HeadingStart(e) + rest
  {
  }

  lemma {:induction false} MixedRun(l: string, d: string)
    requires 3 + |d| < |l| && (forall k :: 0 <= k < |d| ==> l[3 + k] == d[k]) && AllAnyDigits(d) && !AllPersian(d)
    ensures PersianAt(l, 3) < |d| && l[3 + PersianAt(l, 3)] != '.'
  {
    var n := PersianAt(l, 3);
    var k :| 0 <= k < |d| && !IsPersian(d[k]);
    assert !IsPersian(l[3 + k]);
    assert l[3 + n] == d[n];
  }

  /** The number a heading line shows after the rewriting of its number. */
  function Shown(l: Line, sections: map<nat, nat>): Option<nat> { SectionHeading(HeadingNumber(l, sections)) }

  predicate InPersian(l: Line) { HeadingDigits(l).Some? && AllPersian(HeadingDigits(l).value) }

  lemma {:induction false} ShownIs(l: Line, sections: map<nat, nat>)
    requires SectionHeading(l).Some?
    ensures Shown(l, sections) == Some(if InPersian(l) then Final(sections, SectionHeading(l).value) else SectionHeading(l).value)
  {
    var d := HeadingDigits(l).value;
    var rest := HeadingParts(l);
    var n := AnyValue(d);
    HeadingTakes(d, rest, sections);
    if AllPersian(d) && n in sections {
      AnyValueOfPersian(sections[n]);
      ReadHeading(Persian(Decimal(sections[n])), rest);
    } else {
      ReadHeading(d, rest);
    }
  }

  /** Every added heading that is moved is written in Persian digits alone. */
  predicate MovedInPersian(hs: seq<Line>, moved: map<nat, nat>) {
    forall i :: 0 <= i < |hs| && SectionHeading(hs[i]).Some? && SectionHeading(hs[i]).value in moved ==> InPersian(hs[i])
  }

  /** The shown numbers are pairwise different and none of them is the base's. */
  ghost predicate ShownApart(hs: seq<Line>, moved: map<nat, nat>, base: seq<nat>) {
    && (forall i, j :: 0 <= i < j < |hs| ==> Shown(hs[i], moved) != Shown(hs[j], moved))
    && forall i :: 0 <= i < |hs| ==> Shown(hs[i], moved).Some? && Shown(hs[i], moved).value !in base
  }

  predicate AllHeadings(hs: seq<Line>) { forall i :: 0 <= i < |hs| ==> SectionHeading(hs[i]).Some? }

  lemma {:induction false} NumberAt(hs: seq<Line>, i: nat)
    requires AllHeadings(hs) && i < |hs|
    ensures |NumbersOf(hs)| == |hs| && Some(NumbersOf(hs)[i]) == SectionHeading(hs[i])
    decreases |hs|
  {
    hide SectionHeading;
    var rest := hs[1..];
    assert forall k :: 0 <= k < |rest| ==> rest[k] == hs[k + 1];
    assert SectionHeading(hs[0]).Some?;
    if rest == [] {
      assert NumbersOf(rest) == [];
    } else {
      NumberAt(rest, if i == 0 then 0 else i - 1);
    }
  }

  /** Heading `i` has number `ns[i]` and shows `fs[i]`, or its own number when it is not in Persian digits. */
  ghost predicate ShownAs(hs: seq<Line>, moved: map<nat, nat>, ns: seq<nat>, fs: seq<nat>) {
    && |ns| == |fs| == |hs|
    && forall i :: 0 <= i < |hs| ==>
         && SectionHeading(hs[i]) == Some(ns[i])
         && fs[i] == Final(moved, ns[i])
         && Shown(hs[i], moved) == Some(if InPersian(hs[i]) then fs[i] else ns[i])
  }

  lemma {:induction false} ShowsAll(hs: seq<Line>, moved: map<nat, nat>)
    requires AllHeadings(hs)
    ensures ShownAs(hs, moved, NumbersOf(hs), Finals(moved, NumbersOf(hs)))
  {
    hide SectionHeading, NumbersOf, Shown, InPersian;
    if hs == [] {
      NoNumbers();
    } else {
      NumberAt(hs, 0);
    }
    forall i | 0 <= i < |hs|
      ensures |NumbersOf(hs)| == |hs| && SectionHeading(hs[i]) == Some(NumbersOf(hs)[i])
      ensures Shown(hs[i], moved) == Some(if InPersian(hs[i]) then Final(moved, NumbersOf(hs)[i]) else NumbersOf(hs)[i])
    {
      NumberAt(hs, i);
      ShownIs(hs[i], moved);
    }
  }

  lemma {:induction false} NoNumbers()
    ensures NumbersOf([]) == []
  {
  }

  lemma {:induction false} PersianApart(hs: seq<Line>, moved: map<nat, nat>, base: seq<nat>, ns: seq<nat>, fs: seq<nat>)
    requires ShownAs(hs, moved, ns, fs) && MovedInPersian(hs, moved)
    requires Distinct(fs) && forall f :: f in fs ==> f !in base
    ensures ShownApart(hs, moved, base)
  {
    hide SectionHeading, Shown, InPersian;
    assert forall i :: 0 <= i < |hs| ==> Shown(hs[i], moved) == Some(fs[i]) && fs[i] in fs;
  }

  lemma {:induction false} ApartPersian(hs: seq<Line>, moved: map<nat, nat>, base: seq<nat>, ns: seq<nat>, fs: seq<nat>)
    requires ShownAs(hs, moved, ns, fs) && ShownApart(hs, moved, base)
    requires forall i: nat :: i < |ns| && ns[i] in moved ==> ns[i] in base || exists j :: j < i && GivenAt(ns, moved, j, ns[i])
    ensures MovedInPersian(hs, moved)
  {
    hide SectionHeading, Shown, InPersian;
    var i := FindFrom(hs, (l: Line) => SectionHeading(l).Some? && SectionHeading(l).value in moved && !InPersian(l), 0);
    assert i == |hs|;
  }

  /**
   * When the branch's new headings have different numbers, the plan keeps them different and off the base's numbers,
   * also where a fresh number meets a later heading, exactly if every moved heading is written in Persian digits:
   * headings are read in both digits but rewritten in Persian ones only.
   */
  lemma {:induction false} SectionsApartIff(hs: seq<Line>, base: seq<nat>)
    requires AllHeadings(hs) && Distinct(NumbersOf(hs))
    ensures var moved := PlanFrom(NumbersOf(hs), base, map[]);
            ShownApart(hs, moved, base) <==> MovedInPersian(hs, moved)
  {
    hide *;
    var ns := NumbersOf(hs);
    var moved := PlanFrom(ns, base, map[]);
    var fs := Finals(moved, ns);
    ShowsAll(hs, moved);
    PlanApart(ns, base, map[]);
    if MovedInPersian(hs, moved) {
      PersianApart(hs, moved, base, ns, fs);
    }
    if ShownApart(hs, moved, base) {
      forall i: nat | i < |ns| && ns[i] in moved ensures ns[i] in base || exists j :: j < i && GivenAt(ns, moved, j, ns[i]) {
        PlanMovesIff(ns, base, map[], i);
      }
      ApartPersian(hs, moved, base, ns, fs);
    }
  }

  // ---------------------------------------------------------------------------------------------
  // The other passes over a heading line

  lemma {:induction false} StartHasNoToken(d: string)
    requires AllPersian(d)
    ensures forall c :: c in HeadingStart(d) ==> c != 'v' && c != 'S' && !IsDigit(c)
  {
  }

  /** The version, number and reference passes leave a Persian heading alone, so the line shows the planned number. */
  lemma {:induction false} LineShowsPlanned(l: Line, maps: LineMaps)
    requires InPersian(l)
    ensures SectionHeading(RewriteLine(l, true, maps)) == Shown(l, maps.sections)
  {
    var d := HeadingDigits(l).value;
    var r0 := HeadingParts(l);
    var r := TokensKeepStart(d, r0, maps);
    hide RewriteTokens, HeadingStart, HeadingDigits, Shown, SectionHeading, Sections;
    SectionsShow(d, r0, r, maps.sections);
  }

  lemma {:induction false} TokensKeepStart(d: string, r0: string, maps: LineMaps) returns (r: string)
    requires AllPersian(d)
    ensures RewriteTokens(HeadingStart(d) + r0, maps) == HeadingStart(d) + r
  {
    var start := HeadingStart(d);
    StartHasNoToken(d);
    hide Replace, HeadingStart;
    var r1 := PassKeepsStart(LATIN_VERSION, start, r0, (t: string) => Renamed(maps.versions, t));
    var r2 := PassKeepsStart(PERSIAN_VERSION, start, r1, (t: string) => PersianRenamed(maps.versions, t));
    var r3 := PassKeepsStart(FOUR_DIGITS, start, r2, (t: string) => Renamed(maps.numbers, t));
    r := if |maps.numbers| > 0 then r3 else r2;
  }

  lemma {:induction false} PassKeepsStart(p: Pattern, start: string, s: string, f: string -> string)
    returns (rest: string)
    requires forall c :: c in start ==> !p.starts(c)
    ensures Replace(p, false, start + s, f) == start + rest
  {
    hide Replace;
    var b := ReplaceKeepsPrefix(p, false, start, s, f);
    rest := Replace(p, b, s, f);
  }

  lemma {:induction false} SectionsShow(d: string, r0: string, r3: string, sections: map<nat, nat>)
    requires d != "" && AllPersian(d)
    ensures SectionHeading(if |sections| > 0 then Sections(HeadingStart(d) + r3, true, sections) else HeadingStart(d) + r3)
         == Shown(HeadingStart(d) + r0, sections)
  {
    HeadingTakes(d, r0, sections);
    HeadingTakes(d, r3, sections);
    var e := SectionNumber(sections, d);
    assert e != "" && AllPersian(e) && (sections == map[] ==> e == d);
    StartHasNoToken(e);
    var f := (t: string) => ReferenceNumber(t, sections);
    var b := ReplaceKeepsPrefix(REFERENCE, false, HeadingStart(e), r3, f);
    ReadHeading(e, r0);
    ReadHeading(e, r3);
    ReadHeading(e, Replace(REFERENCE, b, r3, f));
    hide Replace, HeadingStart, HeadingNumber, HeadingDigits, SectionNumber;
  }

  /** A numeral of fewer than four digits keeps its place before the number pass too. */
  lemma {:induction false} ShortStays(d: string, rest: string, m: map<string, string>) returns (more: string)
    requires AllAnyDigits(d) && |d| < 4 && ToFourDigits(m)
    ensures Numbers(HeadingStart(d) + rest, m) == HeadingStart(d) + more
  {
    var start := HeadingStart(d);
    var l := start + rest;
    var r := Numbers(l, m);
    NumbersMoveAtOnce(l, m);
    NoTokenInStart(d, rest);
    hide Numbers, TokenAt, HeadingStart;
    forall j | 0 <= j < |start| ensures r[j] == start[j] {
      assert !Covered(false, l, j);
      assert l[j] == start[j];
    }
    more := r[|start|..];
    assert r == r[..|start|] + more && r[..|start|] == start;
  }

  lemma {:induction false} NoTokenInStart(d: string, rest: string)
    requires AllAnyDigits(d) && |d| < 4
    ensures forall j :: 0 <= j < |HeadingStart(d)| ==> !Covered(false, HeadingStart(d) + rest, j)
  {
    hide HeadingStart, TokenAt;
    forall j | 0 <= j < |HeadingStart(d)| ensures !Covered(false, HeadingStart(d) + rest, j) {
      forall i | i <= j < i + 4 ensures !TokenAt(false, HeadingStart(d) + rest, i) {
        NoTokenAt(d, rest, i, j);
      }
    }
  }

  lemma {:induction false} NoTokenAt(d: string, rest: string, i: int, j: int)
    requires AllAnyDigits(d) && |d| < 4 && i <= j < i + 4 && j < |HeadingStart(d)|
    ensures !TokenAt(false, HeadingStart(d) + rest, i)
  {
    var start := HeadingStart(d);
    var l := start + rest;
    assert start[2] == ' ' && start[3 + |d|] == '.' && start[4 + |d|] == ' ' && start[0] == '#' && start[1] == '#';
    hide HeadingStart;
    if 0 <= i {
      var k := if i < 3 then i else if i <= 3 + |d| then 3 + |d| else 4 + |d|;
      assert l[k] == start[k];
    }
  }

  /** The version and number passes leave a heading with a short numeral alone, in whatever digits it is written. */
  lemma {:induction false} LineShowsShort(l: Line, maps: LineMaps)
    requires HeadingDigits(l).Some? && |HeadingDigits(l).value| < 4 && !InPersian(l) && ToFourDigits(maps.numbers)
    ensures SectionHeading(RewriteLine(l, true, maps)) == SectionHeading(l)
  {
    var d := HeadingDigits(l).value;
    var r0 := HeadingParts(l);
    var r := VersionsKeepStart(d, r0, maps);
    hide RewriteVersions, HeadingStart, HeadingDigits, SectionHeading, Sections, Numbers;
    if |maps.numbers| > 0 {
      r := ShortStays(d, r, maps.numbers);
    }
    assert RewriteTokens(l, maps) == HeadingStart(d) + r;
    OwnNumberStays(d, r0, r, maps.sections);
  }

  lemma {:induction false} VersionsKeepStart(d: string, r0: string, maps: LineMaps) returns (r: string)
    requires AllAnyDigits(d)
    ensures RewriteVersions(HeadingStart(d) + r0, maps.versions) == HeadingStart(d) + r
  {
    var start := HeadingStart(d);
    assert forall c :: c in start ==> c != 'v';
    hide Replace, HeadingStart;
    var r1 := PassKeepsStart(LATIN_VERSION, start, r0, (t: string) => Renamed(maps.versions, t));
    r := PassKeepsStart(PERSIAN_VERSION, start, r1, (t: string) => PersianRenamed(maps.versions, t));
  }

  lemma {:induction false} OwnNumberStays(d: string, r0: string, r: string, sections: map<nat, nat>)
    requires d != "" && AllAnyDigits(d) && !AllPersian(d)
    ensures SectionHeading(if |sections| > 0 then Sections(HeadingStart(d) + r, true, sections) else HeadingStart(d) + r)
         == SectionHeading(HeadingStart(d) + r0)
  {
    HeadingTakes(d, r, sections);
    assert forall c :: c in HeadingStart(d) ==> c != 'S';
    var b := ReplaceKeepsPrefix(REFERENCE, false, HeadingStart(d), r, (t: string) => ReferenceNumber(t, sections));
    ReadHeading(d, r0);
    ReadHeading(d, r);
    ReadHeading(d, Replace(REFERENCE, b, r, (t: string) => ReferenceNumber(t, sections)));
    hide Replace, HeadingStart, HeadingNumber, HeadingDigits, SectionNumber;
  }

  // ---------------------------------------------------------------------------------------------
  // In the written file

  predicate IsSection(l: Line) { SectionHeading(l).Some? }

  /** The added headings, and no other added line. */
  function NewSections(base: seq<Line>, cur: seq<Line>): seq<Line> { Filter(AddedHeadings(Some(base), cur), IsSection) }

  lemma {:induction false} SectionsOnly(lines: seq<Line>)
    ensures NumbersOf(Filter(lines, IsSection)) == NumbersOf(lines)
  {
    hide SectionHeading;
    if lines != [] {
      var rest := Filter(lines[1..], IsSection);
      SectionsOnly(lines[1..]);
      assert ([lines[0]] + rest)[1..] == rest;
      assert [] + NumbersOf(rest) == NumbersOf(rest);
    }
  }

  /** Each added line of the written file is the rewritten added line. */
  lemma {:induction false} MarkedRewritten(cur: seq<Line>, r: seq<Line>, marked: set<nat>, offset: nat, f: Line -> Line)
    requires |r| == |cur| && forall i :: 0 <= i < |cur| && i + offset in marked ==> r[i] == f(cur[i])
    ensures MarkedLines(r, marked, offset) == Map(MarkedLines(cur, marked, offset), f)
  {
    if cur != [] {
      var c, q := cur[1..], r[1..];
      assert forall i :: 0 <= i < |c| && i + (offset + 1) in marked ==> q[i] == f(c[i]);
      MarkedRewritten(c, q, marked, offset + 1, f);
      var first := if offset in marked then [cur[0]] else [];
      MapConcat(first, MarkedLines(c, marked, offset + 1), f);
    }
  }

  function Rewrite(maps: LineMaps): Line -> Line { (l: Line) => RewriteLine(l, true, maps) }

  /** The added lines of the audit report are rewritten as documentation, one by one. */
  lemma {:induction false} AddedAreRewritten(base: seq<Line>, cur: seq<Line>, maps: LineMaps)
    ensures var r := RewriteAddedLines(Some(base), cur, AuditReport, maps);
            MarkedLines(r, AddedLines(base, cur), 0) == Map(AddedHeadings(Some(base), cur), Rewrite(maps))
  {
    hide AddedLines, RewriteLine, MarkedLines;
    MarkedRewritten(cur, RewriteAddedLines(Some(base), cur, AuditReport, maps), AddedLines(base, cur), 0, Rewrite(maps));
  }

  /** The numbers the written headings read are pairwise different and none of them is the base's. */
  ghost predicate WrittenApart(hs: seq<Line>, maps: LineMaps, base: seq<nat>) {
    && (forall i, j :: 0 <= i < j < |hs| ==> SectionHeading(Rewrite(maps)(hs[i])) != SectionHeading(Rewrite(maps)(hs[j])))
    && forall i :: 0 <= i < |hs| ==>
         SectionHeading(Rewrite(maps)(hs[i])).Some? && SectionHeading(Rewrite(maps)(hs[i])).value !in base
  }

  /** A heading that is not in Persian digits has fewer than four: a four-digit numeral is a migration number. */
  predicate ShortWhenLatin(hs: seq<Line>) {
    forall i :: 0 <= i < |hs| && HeadingDigits(hs[i]).Some? && !InPersian(hs[i]) ==> |HeadingDigits(hs[i]).value| < 4
  }

  lemma {:induction false} LineShows(l: Line, maps: LineMaps)
    requires SectionHeading(l).Some? && ToFourDigits(maps.numbers)
    requires !InPersian(l) ==> |HeadingDigits(l).value| < 4
    ensures SectionHeading(Rewrite(maps)(l)) == Shown(l, maps.sections)
  {
    hide RewriteLine, Shown, ToFourDigits;
    if InPersian(l) {
      LineShowsPlanned(l, maps);
    } else {
      LineShowsShort(l, maps);
      ShownIs(l, maps.sections);
    }
  }

  /**
   * After the audit report was rewritten with the planned numbers, its new sections have pairwise different numbers and
   * none of the base's, exactly if every heading the plan moves is written in Persian digits.
   */
  lemma {:induction false} WrittenSectionsApartIff(base: seq<Line>, cur: seq<Line>, maps: LineMaps)
    requires Distinct(NumbersOf(AddedHeadings(Some(base), cur))) && ToFourDigits(maps.numbers)
    requires maps.sections == PlanFrom(NumbersOf(AddedHeadings(Some(base), cur)), NumbersOf(base), map[])
    requires ShortWhenLatin(NewSections(base, cur))
    ensures WrittenApart(NewSections(base, cur), maps, NumbersOf(base)) <==> MovedInPersian(NewSections(base, cur), maps.sections)
  {
    hide *;
    var hs := NewSections(base, cur);
    NewSectionsAre(base, cur);
    SectionsApartIff(hs, NumbersOf(base));
    AllShow(hs, maps);
    SameShown(hs, maps, NumbersOf(base));
  }

  lemma {:induction false} NewSectionsAre(base: seq<Line>, cur: seq<Line>)
    ensures AllHeadings(NewSections(base, cur))
    ensures NumbersOf(NewSections(base, cur)) == NumbersOf(AddedHeadings(Some(base), cur))
  {
    SectionsOnly(AddedHeadings(Some(base), cur));
    hide SectionHeading, NumbersOf, AddedHeadings;
    assert forall i :: 0 <= i < |NewSections(base, cur)| ==> NewSections(base, cur)[i] in NewSections(base, cur);
  }

  /** Every heading of the list shows in the file what the heading pass alone makes of it. */
  ghost predicate ShowAlike(hs: seq<Line>, maps: LineMaps) {
    forall i :: 0 <= i < |hs| ==> SectionHeading(Rewrite(maps)(hs[i])) == Shown(hs[i], maps.sections)
  }

  lemma {:induction false} AllShow(hs: seq<Line>, maps: LineMaps)
    requires AllHeadings(hs) && ShortWhenLatin(hs) && ToFourDigits(maps.numbers)
    ensures ShowAlike(hs, maps)
  {
    hide SectionHeading, Shown, InPersian, HeadingDigits, ToFourDigits, Rewrite;
    forall i | 0 <= i < |hs| ensures SectionHeading(Rewrite(maps)(hs[i])) == Shown(hs[i], maps.sections) {
      HasDigits(hs[i]);
      LineShows(hs[i], maps);
    }
  }

  lemma {:induction false} SameShown(hs: seq<Line>, maps: LineMaps, base: seq<nat>)
    requires ShowAlike(hs, maps)
    ensures WrittenApart(hs, maps, base) <==> ShownApart(hs, maps.sections, base)
  {
    hide SectionHeading, Shown, Rewrite;
  }

  lemma {:induction false} HasDigits(l: Line)
    ensures SectionHeading(l).Some? <==> HeadingDigits(l).Some?
  {
    hide HeadingDigits;
  }

  /** An added heading in Latin digits is planned but not rewritten, and keeps the number of the base's section. */
  lemma {:induction false} LatinHeadingCollides()
    ensures var base := ["## 1. a"];
            var cur := ["## 1. a", "## 1. x"];
            var maps := LineMaps(map[], map[], PlanFrom(NumbersOf(AddedHeadings(Some(base), cur)), NumbersOf(base), map[]));
            && NewSections(base, cur) == ["## 1. x"] && maps.sections == map[1 := 2]
            && NumbersOf(base) == [1] && SectionHeading(RewriteAddedLines(Some(base), cur, AuditReport, maps)[1]) == Some(1)
  {
    var base: seq<Line> := ["## 1. a"];
    var cur: seq<Line> := ["## 1. a", "## 1. x"];
    OneAdded(base[0], cur[1]);
    OneHeading("## 1. a", "a");
    OneHeading("## 1. x", "x");
    NumberOfOne(base[0], 1);
    NumberOfOne(cur[1], 1);
    PlanOfOne();
    hide *;
    assert AddedHeadings(Some(base), cur) == [cur[1]] by {
      AddedIs(base, cur);
    }
    KeepsOne(cur[1]);
    var maps := LineMaps(map[], map[], map[1 := 2]);
    StaysLatin(cur[1], maps);
    LineWritten(base, cur, maps);
  }

  lemma {:induction false} AddedIs(base: seq<Line>, cur: seq<Line>)
    ensures AddedHeadings(Some(base), cur) == MarkedLines(cur, AddedLines(base, cur), 0)
  {
    hide AddedLines, MarkedLines;
  }

  lemma {:induction false} KeepsOne(l: Line)
    requires SectionHeading(l).Some?
    ensures Filter([l], IsSection) == [l]
  {
    FilterAll([l], IsSection);
  }

  lemma {:induction false} PlanOfOne()
    ensures PlanFrom([1], [1], map[]) == map[1 := 2]
  {
    assert [1][1..] == [] && MaxOf([1]) == 1;
    assert PlanFrom([], [1] + [2], map[1 := 2]) == map[1 := 2];
  }

  lemma {:induction false} NumberOfOne(l: Line, n: nat)
    requires SectionHeading(l) == Some(n)
    ensures NumbersOf([l]) == [n]
  {
    hide SectionHeading;
    assert [l][1..] == [];
  }

  lemma {:induction false} OneHeading(l: Line, rest: string)
    requires l == HeadingStart("1") + rest
    ensures HeadingDigits(l) == Some("1") && SectionHeading(l) == Some(1) && !InPersian(l)
  {
    ReadHeading("1", rest);
    assert Latin("1") == "1" && "1"[..0] == "";
    assert ValueOf("1") == 1;
    hide HeadingDigits, HeadingStart;
  }

  lemma {:induction false} StaysLatin(l: Line, maps: LineMaps)
    requires HeadingDigits(l) == Some("1") && SectionHeading(l) == Some(1) && !InPersian(l) && maps.numbers == map[]
    ensures SectionHeading(RewriteLine(l, true, maps)) == Some(1)
  {
    LineShowsShort(l, maps);
  }

  lemma {:induction false} LineWritten(base: seq<Line>, cur: seq<Line>, maps: LineMaps)
    requires |cur| == 2 && AddedLines(base, cur) == {1}
    ensures RewriteAddedLines(Some(base), cur, AuditReport, maps)[1] == RewriteLine(cur[1], true, maps)
  {
    hide AddedLines, RewriteLine;
  }

  lemma {:induction false} OneAdded(a: Line, x: Line)
    ensures AddedLines([a], [a, x]) == {1} && MarkedLines([a, x], {1}, 0) == [x]
  {
    assert [a][1..] == [] && [a, x][1..] == [x] && [x][1..] == [];
    assert MarkedLines([x], {1}, 1) == [x] + MarkedLines([], {1}, 2);
    assert [] + [x] == [x];
  }
}
