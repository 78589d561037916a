/** Which changes and cuts go through, from files in order: exactly when `applyRelease` (scripts/release.ts) accepts them. */
module ReleaseAccepts {
  import A = DebtAccepts
  import opened ChangelogMd
  import D = DebtTheorems
  import opened DebtRegistry
  import opened Release
  import opened ReleaseTheorems
  import opened Decimals
  import opened Seqs
  import opened Texts
  import opened Unreleased
  import opened Versions

  // ---------------------------------------------------------------------------------------------
  // What is asked

  predicate HasText(t: string) { exists i :: 0 <= i < |t| && !IsWhite(t[i]) }

  /** The first character but white space is a dash. */
  predicate LeadsWithDash(t: string) {
    exists i :: 0 <= i < |t| && t[i] == '-' && forall j :: 0 <= j < i ==> IsWhite(t[j])
  }

  predicate IsLine(t: string) { HasText(t) && !LeadsWithDash(t) }

  /** A change: its line and nothing of a cut. */
  predicate IsChange(spec: ReleaseSpec) {
    && spec.prev.None? && spec.changes.None? && spec.title == ""
    && spec.line.Some? && IsLine(spec.line.value)
  }

  /** A cut of the release after `v`: the next patch or the next minor in the series, with changes and a title. */
  predicate IsCut(spec: ReleaseSpec, active: ActiveSeries, v: Version)
    requires spec.version.Some?
  {
    && spec.prev == Some(v) && v.major == active.series
    && spec.version.value in {Version(v.major, v.minor, v.patch + 1), Version(v.major, v.minor + 1, 0)}
    && spec.changes.Some? && spec.changes.value > 0 && HasText(spec.title)
    && (spec.line.Some? ==> IsLine(spec.line.value))
  }

  lemma {:induction false} BlankIff(t: string)
    ensures IsBlank(t) <==> !HasText(t)
  {
  }

  lemma {:induction false} DashIff(t: string)
    ensures StartsWithDash(t) <==> LeadsWithDash(t)
    decreases |t|
  {
    if t != "" {
      var rest := t[1..];
      DashIff(rest);
      assert !IsWhite('-');
      if LeadsWithDash(t) && t[0] != '-' {
        var i :| 0 <= i < |t| && t[i] == '-' && forall j :: 0 <= j < i ==> IsWhite(t[j]);
        assert rest[i - 1] == '-' && forall j :: 0 <= j < i - 1 ==> IsWhite(rest[j]);
      }
      if LeadsWithDash(rest) && IsWhite(t[0]) {
        var i :| 0 <= i < |rest| && rest[i] == '-' && forall j :: 0 <= j < i ==> IsWhite(rest[j]);
        assert t[i + 1] == '-' && forall j :: 0 <= j < i + 1 ==> IsWhite(t[j]);
      }
    }
  }

  /** The checks of a spec but for its debt rows, for a cut but for `prev`. */
  lemma {:induction false} SpecIff(spec: ReleaseSpec, active: ActiveSeries)
    ensures SpecError(spec, active).None?
       <==> && CloseRowsOf(spec.debt).Ok?
            && if spec.version.None? then IsChange(spec)
               else spec.prev.Some? && IsCut(spec, active, spec.prev.value)
  {
    BlankIff(spec.title);
    if spec.line.Some? {
      BlankIff(spec.line.value);
      DashIff(spec.line.value);
    }
    hide CloseRowsOf, IsBlank, HasText, StartsWithDash, LeadsWithDash;
  }

  // ---------------------------------------------------------------------------------------------
  // The version locations

  /** `v` is named at place `i` and nowhere else. */
  predicate OnlyAt(vs: seq<Version>, v: Version, i: int) {
    0 <= i < |vs| && vs[i] == v && forall k :: 0 <= k < |vs| && k != i ==> vs[k] != v
  }

  /** `v` is named at the places `i` and `j`, and not before or between. */
  predicate FirstTwo(vs: seq<Version>, v: Version, i: int, j: int) {
    0 <= i < j < |vs| && vs[i] == v && vs[j] == v && forall k :: 0 <= k < j && k != i ==> vs[k] != v
  }

  lemma {:induction false} TimesFirst(vs: seq<Version>, v: Version)
    requires vs != []
    ensures Times(vs, v) == (if vs[0] == v then 1 else 0) + Times(vs[1..], v)
  {
    assert vs == [vs[0]] + vs[1..];
  }

  lemma {:induction false} NotNamed(vs: seq<Version>, v: Version)
    ensures Times(vs, v) == 0 <==> v !in vs
  {
    assert v in multiset(vs) <==> v in vs;
  }

  lemma {:induction false} NothingReplaced(vs: seq<Version>, v: Version, next: Version, n: nat)
    requires v !in vs || n == 0
    ensures ReplaceFirst(vs, v, next, n) == vs
  {
    if vs != [] && n > 0 {
      NothingReplaced(vs[1..], v, next, n);
      assert vs == [vs[0]] + vs[1..];
    }
  }

  lemma {:induction false} OnceIff(vs: seq<Version>, v: Version, next: Version)
    ensures Times(vs, v) == 1 <==> exists i :: OnlyAt(vs, v, i)
    ensures forall i :: OnlyAt(vs, v, i) ==> ReplaceFirst(vs, v, next, 1) == vs[i := next]
  {
    if vs != [] {
      var rest := vs[1..];
      OnceIff(rest, v, next);
      TimesFirst(vs, v);
      NotNamed(rest, v);
      NothingReplaced(rest, v, next, 0);
      assert vs == [vs[0]] + rest;
      if vs[0] == v {
        assert v !in rest <==> OnlyAt(vs, v, 0) by {
          assert forall k :: 0 <= k < |rest| ==> rest[k] == vs[k + 1];
        }
        forall i | OnlyAt(vs, v, i) ensures i == 0 {
        }
      } else {
        forall i ensures OnlyAt(vs, v, i + 1) <==> OnlyAt(rest, v, i) {
          assert forall k :: 0 <= k < |rest| ==> rest[k] == vs[k + 1];
        }
        forall i | OnlyAt(vs, v, i) ensures ReplaceFirst(vs, v, next, 1) == vs[i := next] {
          assert OnlyAt(rest, v, i - 1);
        }
        if i :| OnlyAt(rest, v, i) {
          assert OnlyAt(vs, v, i + 1);
        }
        if i :| OnlyAt(vs, v, i) {
          assert OnlyAt(rest, v, i - 1);
        }
      }
    }
  }

  lemma {:induction false} FirstIs(vs: seq<Version>, v: Version) returns (i: nat)
    requires v in vs
    ensures i < |vs| && vs[i] == v && forall k :: 0 <= k < i ==> vs[k] != v
  {
    if vs[0] == v {
      i := 0;
    } else {
      i := FirstIs(vs[1..], v);
      i := i + 1;
    }
  }

  lemma {:induction false} ReplaceOne(vs: seq<Version>, v: Version, next: Version, i: nat, n: nat)
    requires i < |vs| && vs[i] == v && n > 0 && forall k :: 0 <= k < i ==> vs[k] != v
    ensures ReplaceFirst(vs, v, next, n) == vs[..i] + [next] + ReplaceFirst(vs[i + 1..], v, next, n - 1)
    ensures Times(vs, v) == 1 + Times(vs[i + 1..], v)
    decreases i
  {
    TimesFirst(vs, v);
    hide Times;
    if i > 0 {
      var rest := vs[1..];
      assert forall k :: 0 <= k < |rest| ==> rest[k] == vs[k + 1];
      ReplaceOne(rest, v, next, i - 1, n);
      assert rest[i..] == vs[i + 1..] && [vs[0]] + rest[..i - 1] == vs[..i];
      ReplaceNext(vs, v, next, n);
      var more := ReplaceFirst(vs[i + 1..], v, next, n - 1);
      hide ReplaceFirst;
      assert [vs[0]] + (rest[..i - 1] + [next] + more) == vs[..i] + [next] + more;
    }
  }

  lemma {:induction false} ReplaceNext(vs: seq<Version>, v: Version, next: Version, n: nat)
    requires vs != [] && vs[0] != v && n > 0
    ensures ReplaceFirst(vs, v, next, n) == [vs[0]] + ReplaceFirst(vs[1..], v, next, n)
  {
  }

  lemma {:induction false} TwiceIff(vs: seq<Version>, v: Version, next: Version)
    ensures Times(vs, v) >= 2 <==> exists i, j :: FirstTwo(vs, v, i, j)
    ensures forall i, j :: FirstTwo(vs, v, i, j) ==> ReplaceFirst(vs, v, next, 2) == vs[i := next][j := next]
  {
    NotNamed(vs, v);
    forall i, j | FirstTwo(vs, v, i, j)
      ensures Times(vs, v) >= 2 && ReplaceFirst(vs, v, next, 2) == vs[i := next][j := next]
    {
      TwoReplaced(vs, v, next, i, j);
    }
    if Times(vs, v) >= 2 {
      var i := FirstIs(vs, v);
      var rest := vs[i + 1..];
      ReplaceOne(vs, v, next, i, 2);
      NotNamed(rest, v);
      var k := FirstIs(rest, v);
      assert forall x :: i < x < |vs| ==> vs[x] == rest[x - i - 1];
      assert FirstTwo(vs, v, i, i + 1 + k);
    }
  }

  lemma {:induction false} TwoReplaced(vs: seq<Version>, v: Version, next: Version, i: nat, j: nat)
    requires FirstTwo(vs, v, i, j)
    ensures Times(vs, v) >= 2 && ReplaceFirst(vs, v, next, 2) == vs[i := next][j := next]
  {
    var rest, k := vs[i + 1..], j - i - 1;
    assert forall x :: 0 <= x < |rest| ==> rest[x] == vs[x + i + 1];
    hide Times, ReplaceFirst;
    ReplaceOne(vs, v, next, i, 2);
    ReplaceOne(rest, v, next, k, 1);
    NothingReplaced(rest[k + 1..], v, next, 0);
    Updated(vs, next, i, j);
  }

  lemma {:induction false} Updated(vs: seq<Version>, next: Version, i: nat, j: nat)
    requires i < j < |vs|
    ensures var rest, k := vs[i + 1..], j - i - 1;
            vs[i := next][j := next] == vs[..i] + [next] + (rest[..k] + [next] + rest[k + 1..])
  {
  }

  /** The places that name the old version: one in the README and in package.json, the first two of the lock file. */
  ghost predicate MovesTo(l: Locations, prev: Version, next: Version, m: Locations) {
    && (exists i :: OnlyAt(l.readme, prev, i) && m.readme == l.readme[i := next])
    && (exists i :: OnlyAt(l.package, prev, i) && m.package == l.package[i := next])
    && (exists i, j :: FirstTwo(l.lock, prev, i, j) && m.lock == l.lock[i := next][j := next])
    && m.arrayHeads == l.arrayHeads == 1 && m.changelog == [next] + l.changelog
  }

  /** The locations move exactly when the old version stands there as it should, and then at these places only. */
  lemma {:induction false} VersionMovesIff(l: Locations, prev: Version, next: Version)
    ensures MoveVersion(l, prev, next).Ok?
       <==> && l.arrayHeads == 1 && (exists i :: OnlyAt(l.readme, prev, i)) && (exists i :: OnlyAt(l.package, prev, i))
            && exists i, j :: FirstTwo(l.lock, prev, i, j)
    ensures MoveVersion(l, prev, next).Ok? ==> MovesTo(l, prev, next, MoveVersion(l, prev, next).value)
  {
    OnceIff(l.readme, prev, next);
    OnceIff(l.package, prev, next);
    TwiceIff(l.lock, prev, next);
    hide OnlyAt, FirstTwo, ReplaceFirst, Times;
  }

  lemma {:induction false} SyncedMovesIff(l: Locations, v: Version, prev: Version, next: Version)
    requires InSync(l, v)
    ensures MoveVersion(l, prev, next).Ok? <==> prev == v
  {
    VersionMovesIff(l, prev, next);
    hide MoveVersion, MovesTo;
    if prev == v {
      assert OnlyAt(l.readme, v, 0) && OnlyAt(l.package, v, 0) && FirstTwo(l.lock, v, 0, 1);
    }
  }

  // ---------------------------------------------------------------------------------------------
  // The release

  lemma {:induction false} ReleaseIff(f: Files, spec: ReleaseSpec, active: ActiveSeries)
    ensures ReleaseOf(f, spec, active).Ok?
       <==> && SpecError(spec, active).None? && UpdateDebt(f.registry, spec.debt, active.series).Ok?
            && UnreleasedOf(f.md, active).Ok?
            && (spec.version.Some? ==>
                  && Waiting(spec, UnreleasedOf(f.md, active).value.lines) != []
                  && spec.prev.Some? && MoveVersion(f.locations, spec.prev.value, spec.version.value).Ok?)
  {
    hide SpecError, UpdateDebt, UnreleasedOf, MoveVersion, Waiting, Render;
  }

  lemma {:induction false} InOrderParts(f: Files, active: ActiveSeries, front: seq<Line>, older: seq<Line>, l: Ledger, v: Version)
    requires InOrder(f, active, front, older, l, v)
    ensures UnreleasedOf(f.md, active).Ok? && UnreleasedOf(f.md, active).value.lines == l.waiting
    ensures InSync(f.locations, v) && D.Consistent(f.registry, active.series)
  {
    hide UnreleasedOf, Clean, InSync, D.Consistent, Sections, RestBody, LayoutViolations, Aligned;
  }

  lemma {:induction false} DebtIff(reg: Registry, spec: DebtSpec, series: nat)
    requires D.Consistent(reg, series)
    ensures CloseRowsOf(spec).Ok? && UpdateDebt(reg, spec, series).Ok? <==> A.Fits(reg, spec)
  {
    A.UpdateAcceptsIff(reg, spec, series);
    A.UpdateIff(reg, spec, series);
    hide CloseRowsOf, UpdateDebt, A.Fits;
  }

  lemma {:induction false} WaitingIff(spec: ReleaseSpec, lines: seq<Line>)
    ensures (spec.line.Some? ==> IsLine(spec.line.value)) ==>
              (Waiting(spec, lines) != [] <==> lines != [] || spec.line.Some?)
  {
  }

  /** From files in order at version `v`, a change goes through exactly with a line, no field of a cut, and debt rows that fit. */
  lemma {:induction false} ChangeGoesThroughIff(f: Files, spec: ReleaseSpec, active: ActiveSeries, front: seq<Line>,
                                                older: seq<Line>, l: Ledger, v: Version)
    requires InOrder(f, active, front, older, l, v) && spec.version.None?
    ensures ReleaseOf(f, spec, active).Ok? <==> IsChange(spec) && A.Fits(f.registry, spec.debt)
  {
    hide *;
    InOrderParts(f, active, front, older, l, v);
    ReleaseIff(f, spec, active);
    SpecIff(spec, active);
    DebtIff(f.registry, spec.debt, active.series);
  }

  /**
   * From files in order at version `v`, a cut goes through exactly when it names `v` and the release after it in the
   * series, has changes, a title and a line to release, and its debt rows fit.
   */
  lemma {:induction false} CutGoesThroughIff(f: Files, spec: ReleaseSpec, active: ActiveSeries, front: seq<Line>,
                                             older: seq<Line>, l: Ledger, v: Version)
    requires InOrder(f, active, front, older, l, v) && spec.version.Some?
    ensures ReleaseOf(f, spec, active).Ok? <==> IsCut(spec, active, v) && (l.waiting != [] || spec.line.Some?) && A.Fits(f.registry, spec.debt)
  {
    hide *;
    InOrderParts(f, active, front, older, l, v);
    ReleaseIff(f, spec, active);
    SpecIff(spec, active);
    DebtIff(f.registry, spec.debt, active.series);
    WaitingIff(spec, l.waiting);
    if spec.prev.Some? {
      SyncedMovesIff(f.locations, v, spec.prev.value, spec.version.value);
    }
    CutIs(spec, active, v);
  }

  lemma {:induction false} CutIs(spec: ReleaseSpec, active: ActiveSeries, v: Version)
    requires spec.version.Some?
    ensures IsCut(spec, active, v) ==> spec.prev == Some(v) && (spec.line.Some? ==> IsLine(spec.line.value))
  {
    hide IsLine, HasText;
  }

  // ---------------------------------------------------------------------------------------------
  // The lines a release writes

  /** The list item of a given line; none for an absent or empty one. */
  function Item(spec: ReleaseSpec): seq<Line> {
    if spec.line.None? || spec.line.value == "" then [] else ["- " + spec.line.value]
  }

  /**
   * A change puts its line on top of those that wait; a cut leaves the list empty and puts its heading, its line and those
   * that waited under it. The lines around them are the file's own.
   */
  lemma {:induction false} LinesAreWritten(f: Files, spec: ReleaseSpec, active: ActiveSeries)
    requires ReleaseOf(f, spec, active).Ok?
    ensures UnreleasedOf(f.md, active).Ok?
    ensures var o, md := UnreleasedOf(f.md, active).value, ReleaseOf(f, spec, active).value.md;
            match spec.version
            case None => md == o.front + ["### Unreleased"] + Item(spec) + o.lines + [""] + o.rest
            case Some(v) =>
              md == o.front + ["### Unreleased", ""]
                    + ["### v" + Decimal(v.major) + "." + Decimal(v.minor) + "." + Decimal(v.patch) + " — " + spec.title]
                    + Item(spec) + o.lines + [""] + o.rest
  {
    hide SpecError, UpdateDebt, UnreleasedOf, MoveVersion;
    var o := UnreleasedOf(f.md, active).value;
    ItemsWait(spec, o.lines);
    hide Waiting, Item;
    if spec.version.Some? {
      var v := spec.version.value;
      HeadingText(v, spec.title);
      hide Heading;
      CutLines(o, Heading(v, spec.title), Item(spec));
    } else {
      assert (o.front + [UNRELEASED]) + (Item(spec) + o.lines) == o.front + ["### Unreleased"] + Item(spec) + o.lines;
    }
  }

  lemma {:induction false} ItemsWait(spec: ReleaseSpec, lines: seq<Line>)
    ensures Waiting(spec, lines) == Item(spec) + lines
  {
    assert [] + lines == lines;
  }

  lemma {:induction false} HeadingText(v: Version, title: string)
    ensures Heading(v, title) == "### v" + Decimal(v.major) + "." + Decimal(v.minor) + "." + Decimal(v.patch) + " — " + title
  {
    var a, b, c := Decimal(v.major), Decimal(v.minor), Decimal(v.patch);
    assert "### " + ("v" + a + "." + b + "." + c) == "### v" + a + "." + b + "." + c;
  }

  lemma {:induction false} CutLines(o: Opened, heading: Line, items: seq<Line>)
    ensures o.front + [UNRELEASED] + [] + [""] + ([heading] + (items + o.lines) + [""] + o.rest)
         == o.front + ["### Unreleased", ""] + [heading] + items + o.lines + [""] + o.rest
  {
  }
}
