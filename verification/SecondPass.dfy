/** Rewriting the audit report a second time (`planSections`, `rewriteAddedLines`, scripts/renumber/plan.ts). */
module SecondPass {
  import opened Decimals
  import opened LineDiff
  import opened Rewriting
  import opened RewritingTheorems
  import opened SectionPlan
  import opened Seqs
  import opened Texts

  // ---------------------------------------------------------------------------------------------
  // The lines a second diff marks

  lemma {:induction false} WalkMarksNew(base: seq<Line>, cur: seq<Line>, offset: nat, k: nat)
    requires k < |cur| && cur[k] !in base
    ensures offset + k in Walk(base, cur, offset)
    decreases |base| + |cur|
  {
    hide Lcs;
    if base == [] || (base[0] != cur[0] && Lcs(base[1..], cur) < Lcs(base, cur[1..])) {
      if k > 0 {
        WalkMarksNew(base, cur[1..], offset + 1, k - 1);
      }
    } else if base[0] == cur[0] {
      WalkMarksNew(base[1..], cur[1..], offset + 1, k - 1);
    } else {
      WalkMarksNew(base[1..], cur, offset, k);
    }
  }

  lemma {:induction false} PoolMarksNew(pool: multiset<Line>, cur: seq<Line>, offset: nat, k: nat)
    requires k < |cur| && cur[k] !in pool
    ensures offset + k in Pooled(pool, cur, offset)
  {
    if k > 0 {
      PoolMarksNew(if cur[0] in pool then pool - multiset{cur[0]} else pool, cur[1..], offset + 1, k - 1);
    }
  }

  lemma {:induction false} WhereLine(h: seq<Line>, c: seq<Line>, l: seq<Line>, k: nat)
    requires k < |h + c + l|
    ensures var x := (h + c + l)[k];
            x in h || x in l || (|h| <= k < |h| + |c| && c[k - |h|] == x)
  {
  }

  /** A line the base does not have is marked. */
  lemma {:induction false} NewIsMarked(base: seq<Line>, cur: seq<Line>, k: nat)
    requires k < |cur| && cur[k] !in base
    ensures k in AddedLines(base, cur)
  {
    hide SplitEnds, Walk, Pooled;
    EndsJoin(base, cur);
    var s := SplitEnds(base, cur);
    WhereLine(s.head, s.cur, s.last, k);
    assert forall l :: l in s.head || l in s.base || l in s.last ==> l in base;
    var i := k - |s.head|;
    WalkMarksNew(s.base, s.cur, |s.head|, i);
    PoolMarksNew(multiset(s.base), s.cur, |s.head|, i);
  }

  /** Changing the marked lines to lines the base does not have leaves the same lines marked. */
  lemma {:induction false} SameMarks(base: seq<Line>, cur: seq<Line>, r: seq<Line>)
    requires |r| == |cur| && Subsequence(Kept(cur, AddedLines(base, cur), 0), base)
    requires forall k :: 0 <= k < |cur| && k !in AddedLines(base, cur) ==> r[k] == cur[k]
    requires forall k :: 0 <= k < |cur| && k in AddedLines(base, cur) ==> r[k] !in base
    ensures AddedLines(base, r) == AddedLines(base, cur)
  {
    hide SplitEnds, AddedLines, Kept, Subsequence;
    var marked, again := AddedLines(base, cur), AddedLines(base, r);
    forall k | k in marked ensures k in again {
      NewIsMarked(base, r, k);
    }
    var kept := Kept(cur, marked, 0);
    KeptSame(cur, r, marked, 0);
    KeptSubsequence(r, marked, 0);
    AddedLinesAreFew(base, r, kept);
    KeptAndMarked(cur, marked, 0);
    SubsetIsAll(marked, again);
  }

  lemma {:induction false} SubsetIsAll(a: set<nat>, b: set<nat>)
    requires a <= b && |b| <= |a|
    ensures a == b
  {
    assert b == a + (b - a) && |b| == |a| + |b - a|;
  }

  // ---------------------------------------------------------------------------------------------
  // Nothing to move

  /** A plan moves nothing exactly when the numbers are different and free. */
  lemma {:induction false} PlanIsEmptyIff(ns: seq<nat>, used: seq<nat>)
    ensures PlanFrom(ns, used, map[]) == map[] <==> Distinct(ns) && forall n :: n in ns ==> n !in used
    decreases |ns|
  {
    hide PlanFrom;
    if ns == [] {
      PlanDone(used, map[]);
    } else {
      var n, rest := ns[0], ns[1..];
      assert ns == [n] + rest;
      PlanNext(n, rest, used, map[]);
      DistinctConcat([n], rest);
      if n in used {
        PlanGrows(rest, used + [MaxOf(used) + 1], map[n := MaxOf(used) + 1], n);
      } else {
        PlanIsEmptyIff(rest, used + [n]);
      }
    }
  }

  lemma {:induction false} PlanGrows(ns: seq<nat>, used: seq<nat>, moved: map<nat, nat>, n: nat)
    requires n in moved
    ensures n in PlanFrom(ns, used, moved)
    decreases |ns|
  {
    if ns != [] {
      if ns[0] !in used && ns[0] !in moved {
        PlanGrows(ns[1..], used + [ns[0]], moved, n);
      } else {
        PlanGrows(ns[1..], used + [MaxOf(used) + 1], moved[ns[0] := MaxOf(used) + 1], n);
      }
    }
  }

  // ---------------------------------------------------------------------------------------------
  // No pass makes a heading

  /** Tokens start with `c` before and after: what starts without it started so before. */
  lemma {:induction false} StartIsOld(p: Pattern, blocked: bool, s: string, f: string -> string, c: char, start: string)
    requires forall x :: p.starts(x) ==> x == c
    requires forall t :: t != "" && t[0] == c ==> f(t) != "" && f(t)[0] == c
    requires c !in start && StartsWith(Replace(p, blocked, s, f), start)
    ensures StartsWith(s, start)
    decreases |start|
  {
    hide TokenLength;
    if start != [] {
      if s == [] {
        NothingReplaced(p, blocked, f);
      } else {
        var n := TokenLength(p, blocked, s);
        ReplaceStep(p, blocked, s, f);
        if n > 0 {
          TokenStarts(p, blocked, s);
          OtherStart(Replace(p, blocked, s, f), start, c);
        } else {
          var rest := Replace(p, p.blocks(s[0]), s[1..], f);
          var r := [s[0]] + rest;
          assert r[..|start|] == start && r[0] == start[0];
          assert rest[..|start| - 1] == r[..|start|][1..];
          StartIsOld(p, p.blocks(s[0]), s[1..], f, c, start[1..]);
          assert s[..|start|] == [s[0]] + s[1..][..|start| - 1];
        }
      }
    }
  }

  lemma {:induction false} OtherStart(r: string, start: string, c: char)
    requires r != "" && r[0] == c && start != "" && c !in start
    ensures !StartsWith(r, start)
  {
    assert |start| <= |r| ==> r[..|start|][0] == c;
  }

  lemma {:induction false} NothingReplaced(p: Pattern, blocked: bool, f: string -> string)
    ensures Replace(p, blocked, [], f) == []
  {
  }

  lemma {:induction false} ReplaceStep(p: Pattern, blocked: bool, s: string, f: string -> string)
    requires s != []
    ensures var n := TokenLength(p, blocked, s);
            Replace(p, blocked, s, f)
            == if n > 0 then f(s[..n]) + Replace(p, p.blocks(s[n - 1]), s[n..], f)
               else [s[0]] + Replace(p, p.blocks(s[0]), s[1..], f)
  {
    hide TokenLength;
    var n := TokenLength(p, blocked, s);
    if n > 0 {
      MoveFirst(Token(s[..n]), Pieces(p, p.blocks(s[n - 1]), s[n..]), f);
    } else {
      MoveFirst(Plain(s[0]), Pieces(p, p.blocks(s[0]), s[1..]), f);
    }
  }

  lemma {:induction false} TokenStarts(p: Pattern, blocked: bool, s: string)
    requires TokenLength(p, blocked, s) > 0
    ensures s != [] && p.starts(s[0])
  {
  }

  predicate StartsV(t: string) { t != "" && t[0] == 'v' }

  lemma {:induction false} LatinKeepsStart(l: Line, m: map<string, string>, start: string)
    requires ToVersions(m) && 'v' !in start && StartsWith(LatinVersions(l, m), start)
    ensures StartsWith(l, start)
  {
    var f := (t: string) => Renamed(m, t);
    forall t | StartsV(t) ensures StartsV(f(t)) {
      if t in m {
        VersionLetters(m[t]);
      }
    }
    hide Replace, IsVersion;
    StartIsOld(LATIN_VERSION, false, l, f, 'v', start);
  }

  lemma {:induction false} PersianKeepsStart(l: Line, m: map<string, string>, start: string)
    requires ToVersions(m) && 'v' !in start && StartsWith(PersianVersions(l, m), start)
    ensures StartsWith(l, start)
  {
    var f := (t: string) => PersianRenamed(m, t);
    PersianStarts();
    hide Replace, IsVersion, VersionLength, OnlyPersian, PersianRenamed, ToVersions, StartsWith, PERSIAN_VERSION;
    forall t | StartsV(t) ensures StartsV(f(t)) {
      PersianStartsV(m, t);
    }
    PersianIs(l, m);
    StartIsOld(PERSIAN_VERSION, false, l, f, 'v', start);
  }

  lemma {:induction false} PersianStarts()
    ensures forall c :: PERSIAN_VERSION.starts(c) ==> c == 'v'
  {
  }

  lemma {:induction false} PersianIs(l: Line, m: map<string, string>)
    ensures PersianVersions(l, m) == Replace(PERSIAN_VERSION, false, l, (t: string) => PersianRenamed(m, t))
  {
    hide Replace, PersianRenamed, PERSIAN_VERSION;
  }

  lemma {:induction false} PersianStartsV(m: map<string, string>, t: string)
    requires ToVersions(m) && StartsV(t)
    ensures StartsV(PersianRenamed(m, t))
  {
    if Latin(t) in m {
      VersionLetters(m[Latin(t)]);
      hide IsVersion;
      assert Persian(m[Latin(t)])[0] == 'v';
    }
  }

  predicate StartsS(t: string) { t != "" && t[0] == 'S' }

  lemma {:induction false} ReferencesKeepStart(l: Line, sections: map<nat, nat>, start: string)
    requires 'S' !in start && StartsWith(Replace(REFERENCE, false, l, (t: string) => ReferenceNumber(t, sections)), start)
    ensures StartsWith(l, start)
  {
    var f := (t: string) => ReferenceNumber(t, sections);
    forall t | StartsS(t) ensures StartsS(f(t)) {
      ReferenceStartsS(t, sections);
    }
    hide Replace, ReferenceNumber, ReferenceLength, StartsWith;
    StartIsOld(REFERENCE, false, l, f, 'S', start);
  }

  lemma {:induction false} ReferenceStartsS(t: string, sections: map<nat, nat>)
    requires StartsS(t)
    ensures StartsS(ReferenceNumber(t, sections))
  {
    hide SectionNumber;
    assert |t| - PersianAtEnd(t) == 0 ==> IsPersian(t[0]);
  }

  /** A line with this start is a heading. */
  lemma {:induction false} StartIsHeading(l: Line, d: string)
    requires d != "" && AllAnyDigits(d) && StartsWith(l, HeadingStart(d))
    ensures IsSection(l)
  {
    var n := |HeadingStart(d)|;
    assert l == HeadingStart(d) + l[n..];
    ReadHeading(d, l[n..]);
  }

  lemma {:induction false} HeadingStarts(l: Line) returns (d: string)
    requires IsSection(l)
    ensures d != "" && AllAnyDigits(d) && StartsWith(l, HeadingStart(d)) && 'v' !in HeadingStart(d) && 'S' !in HeadingStart(d)
  {
    d := HeadingDigits(l).value;
    var rest := HeadingParts(l);
    hide HeadingDigits;
    assert forall k :: 0 <= k < |d| ==> d[k] != 'v' && d[k] != 'S';
  }

  /** The number pass keeps every place a digit or what it was. */
  lemma {:induction false} NumbersKeepHeading(l: Line, m: map<string, string>)
    requires ToFourDigits(m) && IsSection(Numbers(l, m))
    ensures IsSection(l)
  {
    var r := Numbers(l, m);
    var d := HeadingStarts(r);
    var n := |d|;
    forall j | 0 <= j < |l| ensures |r| == |l| && (r[j] == l[j] || (IsDigit(r[j]) && IsDigit(l[j]))) {
      PlaceKept(l, m, j);
    }
    hide Numbers, IsSection;
    KeepsHeading(r, d, l);
  }

  /** A line that has the heading's characters, or other digits for its digits, is a heading. */
  lemma {:induction false} KeepsHeading(r: Line, d: string, l: Line)
    requires d != "" && AllAnyDigits(d) && StartsWith(r, HeadingStart(d)) && |l| == |r|
    requires forall j :: 0 <= j < |l| ==> r[j] == l[j] || (IsDigit(r[j]) && IsDigit(l[j]))
    ensures IsSection(l)
  {
    var n := |d|;
    var rest := r[n + 5..];
    StartParts(d, rest);
    assert r == HeadingStart(d) + rest;
    var e := l[3..3 + n];
    forall k | 0 <= k < n ensures IsAnyDigit(e[k]) {
      assert e[k] == l[3 + k] && r[3 + k] == d[k];
    }
    SignsKept(r, n, l);
    hide IsSection;
    assert l[..n + 5] == l[..3] + e + l[3 + n..5 + n];
    StartIsHeading(l, e);
  }

  lemma {:induction false} SignsKept(r: Line, n: nat, l: Line)
    requires |r| == |l| >= 5 + n && r[..3] == "## " && StartsWith(r[3 + n..], ". ")
    requires forall j :: 0 <= j < |l| ==> r[j] == l[j] || (IsDigit(r[j]) && IsDigit(l[j]))
    ensures l[..3] == "## " && l[3 + n..5 + n] == ". "
  {
    assert r[0] == r[..3][0] && r[1] == r[..3][1] && r[2] == r[..3][2];
    assert r[3 + n..][..2][0] == r[3 + n] && r[3 + n..][..2][1] == r[4 + n];
  }

  lemma {:induction false} PlaceKept(l: Line, m: map<string, string>, j: nat)
    requires ToFourDigits(m) && j < |l|
    ensures |Numbers(l, m)| == |l| && (Numbers(l, m)[j] == l[j] || (IsDigit(Numbers(l, m)[j]) && IsDigit(l[j])))
  {
    hide Numbers, TokenAt;
    NumbersMoveAtOnce(l, m);
    if Covered(false, l, j) {
      var i :| i <= j < i + 4 && TokenAt(false, l, i);
      CoveredIsDigit(l, Numbers(l, m), m, i, j);
    }
  }

  lemma {:induction false} HeadingPassKeeps(l: Line, sections: map<nat, nat>)
    requires IsSection(HeadingNumber(l, sections))
    ensures IsSection(l)
  {
    var r := HeadingNumber(l, sections);
    if StartsWith(l, "## ") && r != l {
      hide IsSection, HeadingNumber;
      var e := NumberReplaced(l, sections);
      var n := PersianAt(l, 3);
      SameRest(r, e, l[3 + n..]);
      NumberIsHeading(l, n);
    } else if StartsWith(l, "### ") {
      DeeperHeading(l, sections);
    }
  }

  lemma {:induction false} NumberIsHeading(l: Line, n: nat)
    requires StartsWith(l, "## ") && 0 < n && 3 + n + 2 <= |l| && AllPersian(l[3..3 + n]) && l[3 + n..][..2] == ". "
    ensures IsSection(l)
  {
    var d, rest := l[3..3 + n], l[3 + n + 2..];
    assert l == l[..3] + d + l[3 + n..][..2] + rest;
    assert l == HeadingStart(d) + rest;
    ReadHeading(d, rest);
  }

  lemma {:induction false} NumberReplaced(l: Line, sections: map<nat, nat>) returns (e: string)
    requires StartsWith(l, "## ") && HeadingNumber(l, sections) != l
    ensures var n := PersianAt(l, 3);
            && 0 < n && 3 + n < |l| && l[3 + n] == '.' && AllPersian(l[3..3 + n])
            && HeadingNumber(l, sections) == "## " + e + l[3 + n..] && e != "" && AllPersian(e)
  {
    var n := PersianAt(l, 3);
    var d := l[3..3 + n];
    assert forall i :: 0 <= i < n ==> d[i] == l[3 + i];
    e := SectionNumber(sections, d);
  }

  /** A heading reads on behind its number. */
  lemma {:induction false} SameRest(r: Line, e: string, rest: Line)
    requires r == "## " + e + rest && e != "" && AllPersian(e) && rest != "" && rest[0] == '.' && IsSection(r)
    ensures |rest| >= 2 && rest[..2] == ". "
  {
    var n := |e|;
    forall k | 3 <= k < 3 + n ensures IsAnyDigit(r[k]) {
      assert r[k] == e[k - 3];
    }
    assert r[3 + n] == rest[0];
    RunIs(r, IsAnyDigit, 3, n);
    assert r[3 + n..3 + n + 2] == rest[..2];
  }

  lemma {:induction false} DeeperHeading(l: Line, sections: map<nat, nat>)
    requires StartsWith(l, "### ")
    ensures !IsSection(HeadingNumber(l, sections))
  {
    var r := HeadingNumber(l, sections);
    hide SectionNumber;
    assert l[..4][2] == '#' && l[..4] == "### ";
    OtherThird(l, "## ");
    assert r[2] == l[2] == '#';
    OtherThird(r, "## ");
  }

  lemma {:induction false} OtherThird(l: Line, start: string)
    requires |l| > 2 && start == "## " && l[2] == '#'
    ensures !StartsWith(l, start)
  {
    assert |l| >= 3 ==> l[..3][2] == l[2];
  }

  /** Rewriting a line makes no section heading of a line that is none. */
  lemma {:induction false} NoNewHeading(l: Line, maps: LineMaps)
    requires ToVersions(maps.versions) && ToFourDigits(maps.numbers) && IsSection(Rewrite(maps)(l))
    ensures IsSection(l)
  {
    hide *;
    RewriteIs(l, maps);
    var r1 := LatinVersions(l, maps.versions);
    var r2 := PersianVersions(r1, maps.versions);
    var r3 := if |maps.numbers| > 0 then Numbers(r2, maps.numbers) else r2;
    var r4 := if |maps.sections| > 0 then HeadingNumber(r3, maps.sections) else r3;
    var d := HeadingStarts(Rewrite(maps)(l));
    if |maps.sections| > 0 {
      ReferencesKeepStart(r4, maps.sections, HeadingStart(d));
    }
    StartIsHeading(r4, d);
    if |maps.sections| > 0 {
      HeadingPassKeeps(r3, maps.sections);
    }
    if |maps.numbers| > 0 {
      NumbersKeepHeading(r2, maps.numbers);
    }
    var e := HeadingStarts(r2);
    PersianKeepsStart(r1, maps.versions, HeadingStart(e));
    LatinKeepsStart(l, maps.versions, HeadingStart(e));
    StartIsHeading(l, e);
  }

  lemma {:induction false} RewriteIs(l: Line, maps: LineMaps)
    ensures var r2 := PersianVersions(LatinVersions(l, maps.versions), maps.versions);
            var r3 := if |maps.numbers| > 0 then Numbers(r2, maps.numbers) else r2;
            Rewrite(maps)(l)
            == if |maps.sections| > 0 then Replace(REFERENCE, false, HeadingNumber(r3, maps.sections),
                                                   (t: string) => ReferenceNumber(t, maps.sections))
               else r3
  {
    hide LatinVersions, PersianVersions, Numbers, HeadingNumber, Replace;
  }

  // ---------------------------------------------------------------------------------------------
  // The second plan

  lemma {:induction false} WrittenNumbers(lines: seq<Line>, f: Line -> Line)
    requires forall l :: l in lines ==> (IsSection(f(l)) <==> IsSection(l))
    ensures var hs, ns := Filter(lines, IsSection), NumbersOf(Map(lines, f));
            |ns| == |hs| && forall i :: 0 <= i < |hs| ==> SectionHeading(f(hs[i])) == Some(ns[i])
  {
    hide SectionHeading;
    if lines != [] {
      var l, rest := lines[0], lines[1..];
      assert Map(lines, f) == [f(l)] + Map(rest, f);
      WrittenNumbers(rest, f);
      assert ([f(l)] + Map(rest, f))[1..] == Map(rest, f);
    }
  }

  /** No line of the list is rewritten into a line of the base. */
  ghost predicate WrittenIsNew(base: seq<Line>, lines: seq<Line>, maps: LineMaps) {
    forall l :: l in lines ==> Rewrite(maps)(l) !in base
  }

  /**
   * When the unmarked lines are in the base in their order and no line was rewritten into one of the base's, a second plan
   * finds nothing to move in the written audit report exactly when the first one moved only headings in Persian digits.
   */
  lemma {:induction false} SecondPlanIsEmptyIff(base: seq<Line>, cur: seq<Line>, maps: LineMaps)
    requires Distinct(NumbersOf(AddedHeadings(Some(base), cur))) && ToFourDigits(maps.numbers) && ToVersions(maps.versions)
    requires maps.sections == PlanFrom(NumbersOf(AddedHeadings(Some(base), cur)), NumbersOf(base), map[])
    requires ShortWhenLatin(NewSections(base, cur))
    requires Subsequence(Kept(cur, AddedLines(base, cur), 0), base)
    requires WrittenIsNew(base, AddedHeadings(Some(base), cur), maps)
    ensures var r := RewriteAddedLines(Some(base), cur, AuditReport, maps);
            PlanFrom(NumbersOf(AddedHeadings(Some(base), r)), NumbersOf(base), map[]) == map[]
            <==> MovedInPersian(NewSections(base, cur), maps.sections)
  {
    hide *;
    var added, hs := AddedHeadings(Some(base), cur), NewSections(base, cur);
    var r := RewriteAddedLines(Some(base), cur, AuditReport, maps);
    WrittenLinesStay(base, cur, maps);
    SameMarks(base, cur, r);
    AddedIs(base, r);
    AddedAreRewritten(base, cur, maps);
    var ns := NumbersOf(Map(added, Rewrite(maps)));
    PlanIsEmptyIff(ns, NumbersOf(base));
    WrittenSectionsApartIff(base, cur, maps);
    AddedShow(base, cur, maps);
    WrittenNumbers(added, Rewrite(maps));
    ApartIs(hs, maps, ns, NumbersOf(base));
  }

  lemma {:induction false} WrittenLinesStay(base: seq<Line>, cur: seq<Line>, maps: LineMaps)
    requires WrittenIsNew(base, AddedHeadings(Some(base), cur), maps)
    ensures var r, marked := RewriteAddedLines(Some(base), cur, AuditReport, maps), AddedLines(base, cur);
            && |r| == |cur|
            && (forall k :: 0 <= k < |cur| && k !in marked ==> r[k] == cur[k])
            && (forall k :: 0 <= k < |cur| && k in marked ==> r[k] !in base)
  {
    hide AddedLines, RewriteLine, MarkedLines;
    forall k | 0 <= k < |cur| && k in AddedLines(base, cur) ensures cur[k] in AddedHeadings(Some(base), cur) {
      MarkedIn(cur, AddedLines(base, cur), 0, k);
    }
  }

  lemma {:induction false} MarkedIn(cur: seq<Line>, marked: set<nat>, offset: nat, k: nat)
    requires k < |cur| && offset + k in marked
    ensures cur[k] in MarkedLines(cur, marked, offset)
  {
    if k > 0 {
      MarkedIn(cur[1..], marked, offset + 1, k - 1);
    }
  }

  lemma {:induction false} AddedShow(base: seq<Line>, cur: seq<Line>, maps: LineMaps)
    requires ToFourDigits(maps.numbers) && ToVersions(maps.versions) && ShortWhenLatin(NewSections(base, cur))
    ensures forall l :: l in AddedHeadings(Some(base), cur) ==> (IsSection(Rewrite(maps)(l)) <==> IsSection(l))
    ensures NewSections(base, cur) == Filter(AddedHeadings(Some(base), cur), IsSection)
  {
    hide Rewrite, HeadingDigits, SectionHeading, ToFourDigits, ToVersions, AddedHeadings, InPersian;
    var added, hs := AddedHeadings(Some(base), cur), NewSections(base, cur);
    forall l | l in added ensures IsSection(Rewrite(maps)(l)) <==> IsSection(l) {
      if IsSection(Rewrite(maps)(l)) {
        NoNewHeading(l, maps);
      }
      if IsSection(l) {
        assert l in hs;
        var i :| 0 <= i < |hs| && hs[i] == l;
        HasDigits(l);
        LineShows(l, maps);
        ShownIs(l, maps.sections);
      }
    }
  }

  lemma {:induction false} ApartIs(hs: seq<Line>, maps: LineMaps, ns: seq<nat>, base: seq<nat>)
    requires |ns| == |hs| && forall i :: 0 <= i < |hs| ==> SectionHeading(Rewrite(maps)(hs[i])) == Some(ns[i])
    ensures WrittenApart(hs, maps, base) <==> Distinct(ns) && forall n :: n in ns ==> n !in base
  {
    hide SectionHeading, Rewrite;
    assert forall i :: 0 <= i < |ns| ==> ns[i] in ns;
  }

  // ---------------------------------------------------------------------------------------------
  // The second pass

  predicate KeepsVersions(m: map<string, string>) { forall v :: v in m ==> m[v] == v }

  lemma {:induction false} ReplaceSame(p: Pattern, s: string, f: string -> string)
    requires forall x :: x in Pieces(p, false, s) && x.Token? ==> f(x.text) == x.text
    ensures Replace(p, false, s, f) == s
  {
    hide Pieces, Put;
    var pieces := Pieces(p, false, s);
    assert forall i :: 0 <= i < |pieces| ==> pieces[i] in pieces;
    assert Move(pieces, f) == pieces;
    PutPieces(p, false, s);
  }

  lemma {:induction false} VersionsSame(l: Line, m: map<string, string>)
    requires KeepsVersions(m)
    ensures RewriteVersions(l, m) == l
  {
    hide Pieces, Replace, IsPersianVersion, Latin, Persian;
    ReplaceSame(LATIN_VERSION, l, (t: string) => Renamed(m, t));
    PersianTokens(false, l);
    forall x | x in Pieces(PERSIAN_VERSION, false, l) && x.Token? ensures PersianRenamed(m, x.text) == x.text {
      PersianVersionIs(x.text);
      PersianOfLatin(x.text);
    }
    ReplaceSame(PERSIAN_VERSION, l, (t: string) => PersianRenamed(m, t));
  }

  /** Maps that move nothing change nothing. */
  lemma {:induction false} SettledMapsKeep(base: Option<seq<Line>>, cur: seq<Line>, kind: FileKind, maps: LineMaps)
    requires KeepsVersions(maps.versions) && maps.numbers == map[] && maps.sections == map[]
    ensures RewriteAddedLines(base, cur, kind, maps) == cur
  {
    hide AddedLines, RewriteVersions, IsComment;
    forall l: Line ensures RewriteAdded(l, kind, maps) == l {
      VersionsSame(l, maps.versions);
    }
    hide RewriteAdded;
  }

  /**
   * When the first pass moved only headings in Persian digits, the whole pass run again on the audit report, with versions
   * and migrations that no longer move, plans no section and changes no line.
   */
  lemma {:induction false} SecondPassKeepsReport(base: seq<Line>, cur: seq<Line>, maps: LineMaps, versions: map<string, string>)
    requires Distinct(NumbersOf(AddedHeadings(Some(base), cur))) && ToFourDigits(maps.numbers) && ToVersions(maps.versions)
    requires maps.sections == PlanFrom(NumbersOf(AddedHeadings(Some(base), cur)), NumbersOf(base), map[])
    requires ShortWhenLatin(NewSections(base, cur)) && MovedInPersian(NewSections(base, cur), maps.sections)
    requires Subsequence(Kept(cur, AddedLines(base, cur), 0), base)
    requires WrittenIsNew(base, AddedHeadings(Some(base), cur), maps) && KeepsVersions(versions)
    ensures var r := RewriteAddedLines(Some(base), cur, AuditReport, maps);
            var again := LineMaps(versions, map[], PlanFrom(NumbersOf(AddedHeadings(Some(base), r)), NumbersOf(base), map[]));
            again.sections == map[] && RewriteAddedLines(Some(base), r, AuditReport, again) == r
  {
    hide *;
    SecondPlanIsEmptyIff(base, cur, maps);
    var r := RewriteAddedLines(Some(base), cur, AuditReport, maps);
    SettledMapsKeep(Some(base), r, AuditReport, LineMaps(versions, map[], map[]));
  }
}
