/**
 * Release bookkeeping: `unreleasedOf` and `applyRelease` (scripts/release.ts), and the gate
 * `findReleaseLayoutViolations` (scripts/governance/releaseGuards.ts).
 */
module Release {
  import opened ChangelogMd
  import opened DebtRegistry
  import opened Seqs
  import opened Texts
  import opened Unreleased
  import opened Versions

  /** The active series and the file of its changelog entries. */
  datatype ActiveSeries = ActiveSeries(series: nat, file: string)

  datatype ReleaseError =
    | OutOfSeries | PrevRequired | NotNext | ChangesRequired | TitleRequired | CutFieldsWithoutVersion | LineRequired | BadLine
    | Debt(error: DebtError) | HeaderNotOnce | StrayLine(line: Line) | NothingToRelease | NotOnce(file: string) | LockVersionsMissing

  /**
   * The part of a spec that concerns versions and CHANGELOG.md; `changes` counts `entry.changes`, an absent title is
   * empty, and `title` and `line` are one line each.
   */
  datatype ReleaseSpec = ReleaseSpec(version: Option<Version>, prev: Option<Version>, changes: Option<nat>,
                                     title: string, line: Option<string>, debt: DebtSpec)

  // ---------------------------------------------------------------------------------------------
  // What a spec must look like

  function CutError(spec: ReleaseSpec, active: ActiveSeries): Option<ReleaseError>
    requires spec.version.Some?
  {
    if spec.version.value.major != active.series then Some(OutOfSeries)
    else if spec.prev.None? then Some(PrevRequired)
    else if !IsNextVersion(spec.prev.value, spec.version.value) then Some(NotNext)
    else if spec.changes.None? || spec.changes.value == 0 then Some(ChangesRequired)
    else if IsBlank(spec.title) then Some(TitleRequired)
    else None
  }

  function ChangeError(spec: ReleaseSpec): Option<ReleaseError> {
    if spec.prev.Some? || spec.changes.Some? || spec.title != "" then Some(CutFieldsWithoutVersion)
    else if spec.line.None? || IsBlank(spec.line.value) then Some(LineRequired)
    else None
  }

  /** `/^\s*-/`. */
  predicate StartsWithDash(l: string) {
    l != "" && (l[0] == '-' || (IsWhite(l[0]) && StartsWithDash(l[1..])))
  }

  function SpecError(spec: ReleaseSpec, active: ActiveSeries): (e: Option<ReleaseError>)
    ensures e.None? && spec.version.Some? ==> spec.prev.Some?
  {
    var shape := if spec.version.Some? then CutError(spec, active) else ChangeError(spec);
    if shape.Some? then shape
    else if spec.line.Some? && (IsBlank(spec.line.value) || StartsWithDash(spec.line.value)) then Some(BadLine)
    else match CloseRowsOf(spec.debt) case Err(e) => Some(Debt(e)) case Ok(_) => None
  }

  // ---------------------------------------------------------------------------------------------
  // The section of CHANGELOG.md

  function FullHeader(active: ActiveSeries): string { Header(active.series) + " — see `" + active.file + "`)" }

  predicate EndsWithHeader(active: ActiveSeries, l: Line) { EndsWith(l, FullHeader(active)) }

  /** The header, an empty line and the start of a further line. */
  predicate HeaderAt(md: seq<Line>, active: ActiveSeries, i: nat) {
    i + 2 < |md| && EndsWithHeader(active, md[i]) && md[i + 1] == ""
  }

  function FindHeader(md: seq<Line>, active: ActiveSeries, from: nat): (i: nat)
    requires from <= |md|
    ensures from <= i <= |md|
    ensures i < |md| ==> HeaderAt(md, active, i)
    ensures forall k :: from <= k < i ==> !HeaderAt(md, active, k)
    decreases |md| - from
  {
    if from == |md| || HeaderAt(md, active, from) then from else FindHeader(md, active, from + 1)
  }

  predicate IsItem(l: Line) { StartsWith(l, "- ") }

  predicate IsStray(l: Line) { Filled(l) && !IsItem(l) }

  /** The file up to the section, the lines of the section, and what follows it. */
  datatype Opened = Opened(front: seq<Line>, lines: seq<Line>, rest: seq<Line>)

  /** The file with the section, created after the header when it is missing; `i` is the header line. */
  function WithSection(md: seq<Line>, i: nat): seq<Line>
    requires i + 2 < |md|
  {
    if md[i + 2] == UNRELEASED && i + 3 < |md| then md else md[..i + 2] + [UNRELEASED, ""] + md[i + 2..]
  }

  function UnreleasedOf(md: seq<Line>, active: ActiveSeries): Result<Opened, ReleaseError> {
    var i := FindHeader(md, active, 0);
    if i == |md| || FindHeader(md, active, i + 1) < |md| then Err(HeaderNotOnce)
    else
      var full := WithSection(md, i);
      var r := RegionFrom(full, i + 3);
      var k := FindFrom(full[r.start..r.end], IsStray, 0);
      if k < r.end - r.start then Err(StrayLine(full[r.start + k]))
      else Ok(Opened(full[..i + 2], LinesIn(full, r), RestOf(full, r)))
  }

  function Entry(line: string): Line { "- " + line }

  function Heading(version: Version, title: string): Line { "### " + VersionText(version) + " — " + title }

  /** The lines to release or to keep waiting, newest first. */
  function Waiting(spec: ReleaseSpec, lines: seq<Line>): seq<Line> {
    if spec.line.Some? && spec.line.value != "" then [Entry(spec.line.value)] + lines else lines
  }

  /** A section with lines `lines`. */
  function Render(o: Opened): seq<Line> { o.front + [UNRELEASED] + o.lines + [""] + o.rest }

  function Changed(o: Opened, spec: ReleaseSpec): Opened { o.(lines := Waiting(spec, o.lines)) }

  function Cut(o: Opened, spec: ReleaseSpec): Opened
    requires spec.version.Some?
  {
    Opened(o.front, [], [Heading(spec.version.value, spec.title)] + Waiting(spec, o.lines) + [""] + o.rest)
  }

  // ---------------------------------------------------------------------------------------------
  // The version locations

  /**
   * The versions a file names, in order: README `نسخه مستقر`, the `"version"` fields of package.json and of
   * package-lock.json, and the entries of the active changelog, of which `arrayHeads` counts the array heads.
   */
  datatype Locations = Locations(readme: seq<Version>, package: seq<Version>, lock: seq<Version>,
                                 arrayHeads: nat, changelog: seq<Version>)

  function Times(vs: seq<Version>, v: Version): nat { multiset(vs)[v] }

  /** The first `n` occurrences of `prev` replaced. */
  function ReplaceFirst(vs: seq<Version>, prev: Version, next: Version, n: nat): (r: seq<Version>)
    ensures |r| == |vs|
  {
    if vs == [] || n == 0 then vs
    else if vs[0] == prev then [next] + ReplaceFirst(vs[1..], prev, next, n - 1)
    else [vs[0]] + ReplaceFirst(vs[1..], prev, next, n)
  }

  function MoveVersion(l: Locations, prev: Version, next: Version): Result<Locations, ReleaseError> {
    if l.arrayHeads != 1 then Err(NotOnce("changelog"))
    else if Times(l.readme, prev) != 1 then Err(NotOnce("README.md"))
    else if Times(l.package, prev) != 1 then Err(NotOnce("package.json"))
    else if Times(l.lock, prev) < 2 then Err(LockVersionsMissing)
    else Ok(Locations(ReplaceFirst(l.readme, prev, next, 1), ReplaceFirst(l.package, prev, next, 1),
                      ReplaceFirst(l.lock, prev, next, 2), l.arrayHeads, [next] + l.changelog))
  }

  // ---------------------------------------------------------------------------------------------
  // One release

  datatype Files = Files(md: seq<Line>, locations: Locations, registry: Registry)

  function WriteChangelog(f: Files, spec: ReleaseSpec, o: Opened): Result<Files, ReleaseError>
    requires spec.version.Some? ==> spec.prev.Some?
  {
    if spec.version.None? then Ok(f.(md := Render(Changed(o, spec))))
    else if Waiting(spec, o.lines) == [] then Err(NothingToRelease)
    else
      match MoveVersion(f.locations, spec.prev.value, spec.version.value)
      case Err(e) => Err(e)
      case Ok(locations) => Ok(f.(md := Render(Cut(o, spec)), locations := locations))
  }

  function ReleaseOf(f: Files, spec: ReleaseSpec, active: ActiveSeries): Result<Files, ReleaseError> {
    match SpecError(spec, active)
    case Some(e) => Err(e)
    case None =>
      match UpdateDebt(f.registry, spec.debt, active.series)
      case Err(e) => Err(Debt(e))
      case Ok(u) =>
        match UnreleasedOf(f.md, active)
        case Err(e) => Err(e)
        case Ok(o) => WriteChangelog(f.(registry := u.registry), spec, o)
  }

  /** The files in memory; the command writes them to disk only when the whole release went through. */
  class ReleaseFiles {
    var md: seq<Line>
    var locations: Locations
    var registry: Registry

    function Value(): Files
      reads this
    {
      Files(md, locations, registry)
    }

    constructor (f: Files)
      ensures Value() == f
    {
      md, locations, registry := f.md, f.locations, f.registry;
    }

    method ApplyRelease(spec: ReleaseSpec, active: ActiveSeries) returns (r: Result<(nat, nat), ReleaseError>)
      modifies this
      ensures match ReleaseOf(old(Value()), spec, active)
              case Err(e) => r == Err(e)
              case Ok(f) =>
                var u := UpdateDebt(old(registry), spec.debt, active.series).value;
                r == Ok((u.active, u.archived)) && Value() == f
    {
      hide SpecError, UpdateDebt, UnreleasedOf, MoveVersion;
      var refused := SpecError(spec, active);
      if refused.Some? {
        return Err(refused.value);
      }
      var debts := new DebtFiles(registry);
      var counts := debts.UpdateTechDebt(spec.debt, active.series);
      if counts.Err? {
        return Err(Debt(counts.error));
      }
      registry := debts.Value();
      var u := UnreleasedOf(md, active);
      if u.Err? {
        return Err(u.error);
      }
      var o := u.value;
      if spec.version.None? {
        md := Render(Changed(o, spec));
        return Ok(counts.value);
      }
      if |Waiting(spec, o.lines)| == 0 {
        return Err(NothingToRelease);
      }
      md := Render(Cut(o, spec));
      var moved := MoveVersion(locations, spec.prev.value, spec.version.value);
      if moved.Err? {
        return Err(moved.error);
      }
      locations := moved.value;
      r := Ok(counts.value);
    }
  }

  // ---------------------------------------------------------------------------------------------
  // The gate

  datatype LayoutViolation = NoUnreleased | UnreleasedTwice | StrayUnreleased(line: Line) | VersionSkipped

  predicate IsUnreleased(l: Line) { l == UNRELEASED }

  /** The lines of the section: from the header line to the first rule under it. */
  function SectionLines(md: seq<Line>, series: nat): seq<Line> {
    var h := HeaderLine(md, series);
    if h == |md| then [] else md[h..FindFrom(md, IsRule, h + 1)]
  }

  function StrayOf(lines: seq<Line>): Option<Line> {
    if |lines| <= 3 then None
    else
      var next := FindFrom(lines, EndsRegion, 3);
      var k := FindFrom(lines[3..next], IsStray, 0);
      if k < next - 3 then Some(lines[3 + k]) else None
  }

  function Skipped(versions: seq<Version>): bool { |versions| >= 2 && !IsNextVersion(versions[1], versions[0]) }

  method FindReleaseLayoutViolations(md: seq<Line>, series: nat, versions: seq<Version>) returns (out: seq<LayoutViolation>)
    ensures out == LayoutViolations(md, series, versions)
  {
    hide SectionLines, StrayOf, Skipped;
    out := [];
    var lines := SectionLines(md, series);
    if |lines| < 3 || lines[1] != "" || lines[2] != UNRELEASED {
      out := out + [NoUnreleased];
    }
    if |Filter(lines, IsUnreleased)| > 1 {
      out := out + [UnreleasedTwice];
    }
    var stray := StrayOf(lines);
    if stray.Some? {
      out := out + [StrayUnreleased(stray.value)];
    }
    if Skipped(versions) {
      out := out + [VersionSkipped];
    }
  }

  function LayoutViolations(md: seq<Line>, series: nat, versions: seq<Version>): seq<LayoutViolation> {
    var lines := SectionLines(md, series);
    (if |lines| < 3 || lines[1] != "" || lines[2] != UNRELEASED then [NoUnreleased] else [])
    + (if |Filter(lines, IsUnreleased)| > 1 then [UnreleasedTwice] else [])
    + (match StrayOf(lines) case None => [] case Some(l) => [StrayUnreleased(l)])
    + (if Skipped(versions) then [VersionSkipped] else [])
  }
}
