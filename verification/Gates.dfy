/**
 * What the two gates find in any file (scripts/governance/releaseGuards.ts): each finding exactly when its reason stands in
 * the files.
 */
module Gates {
  import opened ChangelogMd
  import A = DebtAccepts
  import opened DebtRegistry
  import opened DebtRows
  import opened Decimals
  import R = Release
  import opened Seqs
  import opened Texts
  import U = Unreleased
  import opened Versions

  // ---------------------------------------------------------------------------------------------
  // The debt registry

  predicate ListsId(l: Line, id: string) { IsId(id) && StartsWith(l, "| " + id + " |") }

  /** How often the lines list the id. */
  function Rows(lines: seq<Line>, id: string): nat { |Filter(lines, (l: Line) => ListsId(l, id))| }

  lemma {:induction false} ListsIff(l: Line, id: string)
    ensures ListsId(l, id) <==> DebtId(l) == Some(id)
  {
    if IsId(id) {
      RowOfId(l, id);
    } else if DebtId(l) == Some(id) {
      A.DebtIdIsId(l);
    }
  }

  lemma {:induction false} IdCounts(lines: seq<Line>, id: string)
    ensures multiset(Ids(lines))[id] == Rows(lines, id)
  {
    if lines != [] {
      hide DebtId, ListsId;
      IdCounts(lines[1..], id);
      ListsIff(lines[0], id);
      IdsFirst(lines);
    }
  }

  lemma {:induction false} FirstOnesAre(ids: seq<string>, seen: set<string>)
    ensures forall id :: id in FirstOnes(ids, seen) <==> id in ids && id !in seen
    ensures Distinct(FirstOnes(ids, seen))
  {
    if ids != [] {
      FirstOnesAre(ids[1..], seen + {ids[0]});
      assert forall id :: id in ids <==> id == ids[0] || id in ids[1..];
    }
  }

  lemma {:induction false} TwiceAre(ids: seq<string>)
    ensures forall id, n :: ListedTwice(id, n) in Twice(ids) <==> n > 1 && multiset(ids)[id] == n
    ensures forall id :: ActiveAndClosed(id) !in Twice(ids)
  {
    FirstOnesAre(ids, {});
    var order := FirstOnes(ids, {});
    var more := Filter(order, (id: string) => Repeats(ids, id));
    var r := Twice(ids);
    forall id, n: nat ensures ListedTwice(id, n) in r <==> n > 1 && multiset(ids)[id] == n {
      if ListedTwice(id, n) in r {
        var k :| 0 <= k < |r| && r[k] == ListedTwice(id, n);
        assert more[k] in more && Repeats(ids, id);
      }
      if n > 1 && multiset(ids)[id] == n {
        assert id in order && id in more;
        var k :| 0 <= k < |more| && more[k] == id;
        assert r[k] == ListedTwice(id, n);
      }
    }
  }

  lemma {:induction false} BothAre(active: seq<string>, archived: seq<string>)
    ensures var r := Map(Filter(FirstOnes(active, {}), (id: string) => id in archived), (id: string) => ActiveAndClosed(id));
            && (forall id :: ActiveAndClosed(id) in r <==> id in active && id in archived)
            && (forall id, n :: ListedTwice(id, n) !in r)
            && Distinct(r)
  {
    FirstOnesAre(active, {});
    var order := FirstOnes(active, {});
    var both := Filter(order, (id: string) => id in archived);
    FilterDistinct(order, (id: string) => id in archived);
    var r := Map(both, (id: string) => ActiveAndClosed(id));
    forall id | id in active && id in archived ensures ActiveAndClosed(id) in r {
      var k :| 0 <= k < |both| && both[k] == id;
      assert r[k] == ActiveAndClosed(id);
    }
  }

  /** The gate names an id as active and closed exactly when it has a row on both sides, and as repeated with its number of rows. */
  lemma {:induction false} DebtGateFinds(debt: seq<Line>, closed: seq<Line>)
    ensures forall id :: ActiveAndClosed(id) in FindDebtRegistryViolations(debt, closed)
                    <==> Rows(debt, id) > 0 && Rows(closed, id) > 0
    ensures forall id, n :: ListedTwice(id, n) in FindDebtRegistryViolations(debt, closed)
                    <==> n > 1 && (Rows(debt, id) == n || Rows(closed, id) == n)
  {
    var active, archived := Ids(debt), Ids(closed);
    BothAre(active, archived);
    TwiceAre(active);
    TwiceAre(archived);
    forall id ensures multiset(active)[id] == Rows(debt, id) && multiset(archived)[id] == Rows(closed, id) {
      IdCounts(debt, id);
      IdCounts(closed, id);
    }
    hide Ids, Twice, FirstOnes, Rows;
    assert forall id :: id in active <==> multiset(active)[id] > 0;
    assert forall id :: id in archived <==> multiset(archived)[id] > 0;
  }

  // ---------------------------------------------------------------------------------------------
  // The layout of CHANGELOG.md

  /** The section of the series: from the first line with its header to the next rule. */
  predicate SectionAt(md: seq<Line>, series: nat, h: int, e: int) {
    && 0 <= h < e <= |md|
    && Contains(md[h], Header(series)) && (forall i :: 0 <= i < h ==> !Contains(md[i], Header(series)))
    && (forall i :: h < i < e ==> !StartsWith(md[i], "---")) && (e < |md| ==> StartsWith(md[e], "---"))
  }

  /** The section starts with the header, an empty line and the list of the changes that wait. */
  predicate StartsWell(md: seq<Line>, h: int, e: int)
    requires 0 <= h < e <= |md|
  {
    h + 2 < e && md[h + 1] == "" && md[h + 2] == "### Unreleased"
  }

  predicate NamedTwice(md: seq<Line>, h: int, e: int)
    requires 0 <= h < e <= |md|
  {
    exists i, j :: h <= i < j < e && md[i] == "### Unreleased" && md[j] == "### Unreleased"
  }

  predicate Ends(l: Line) { StartsWith(l, "### ") || StartsWith(l, "## ") || l == "---" }

  predicate NoItem(l: Line) { !IsBlank(l) && !StartsWith(l, "- ") }

  /** Line `k` of the list is the first that is no item. */
  predicate StrayAt(md: seq<Line>, h: int, e: int, k: int)
    requires 0 <= h < e <= |md|
  {
    h + 3 <= k < e && NoItem(md[k]) && (forall i :: h + 3 <= i <= k ==> !Ends(md[i]))
    && forall i :: h + 3 <= i < k ==> !NoItem(md[i])
  }

  /** The newest version is not the next patch after the one before it, nor the first patch of the next minor. */
  predicate SkipsVersion(versions: seq<Version>) {
    && |versions| >= 2
    && versions[0] != versions[1].(patch := versions[1].patch + 1)
    && versions[0] != versions[1].(minor := versions[1].minor + 1, patch := 0)
  }

  lemma {:induction false} SectionIs(md: seq<Line>, series: nat, h: int, e: int)
    requires SectionAt(md, series, h, e)
    ensures R.SectionLines(md, series) == md[h..e]
  {
    assert forall l :: HoldsHeader(series, l) <==> Contains(l, Header(series));
    hide HoldsHeader, Contains, StartsWith;
    FindFromIs(md, (l: Line) => HoldsHeader(series, l), 0, h);
    FindFromIs(md, IsRule, h + 1, e);
  }

  lemma {:induction false} TwoOf<T(!new)>(s: seq<T>, p: T -> bool)
    ensures |Filter(s, p)| > 0 <==> exists i :: 0 <= i < |s| && p(s[i])
    ensures |Filter(s, p)| > 1 <==> exists i, j :: 0 <= i < j < |s| && p(s[i]) && p(s[j])
  {
    if s != [] {
      var t := s[1..];
      TwoOf(t, p);
      assert forall i :: 0 <= i < |t| ==> t[i] == s[i + 1];
      if i :| 0 <= i < |t| && p(t[i]) {
        assert p(s[i + 1]);
      }
      if i, j :| 0 <= i < j < |t| && p(t[i]) && p(t[j]) {
        assert p(s[i + 1]) && p(s[j + 1]);
      }
      if i, j :| 0 <= i < j < |s| && p(s[i]) && p(s[j]) {
        assert p(t[j - 1]);
        assert i > 0 ==> p(t[i - 1]);
      }
    }
  }

  lemma {:induction false} NamedTwiceIff(md: seq<Line>, h: int, e: int)
    requires 0 <= h < e <= |md|
    ensures |Filter(md[h..e], R.IsUnreleased)| > 1 <==> NamedTwice(md, h, e)
  {
    var lines := md[h..e];
    TwoOf(lines, R.IsUnreleased);
    assert forall i :: 0 <= i < |lines| ==> lines[i] == md[h + i];
    if i, j :| h <= i < j < e && md[i] == "### Unreleased" && md[j] == "### Unreleased" {
      assert R.IsUnreleased(lines[i - h]) && R.IsUnreleased(lines[j - h]);
    }
  }

  lemma {:induction false} StrayIff(md: seq<Line>, h: int, e: int)
    requires 0 <= h < e <= |md|
    ensures var s := R.StrayOf(md[h..e]);
            forall l :: s == Some(l) <==> exists k :: StrayAt(md, h, e, k) && md[k] == l
  {
    var lines := md[h..e];
    assert forall i :: 0 <= i < |lines| ==> lines[i] == md[h + i];
    assert forall l :: U.EndsRegion(l) <==> Ends(l);
    assert forall l :: R.IsStray(l) <==> NoItem(l);
    hide U.EndsRegion, R.IsStray, Ends, NoItem;
    if |lines| > 3 {
      var next := FindFrom(lines, U.EndsRegion, 3);
      var k := FindFrom(lines[3..next], R.IsStray, 0);
      if k < next - 3 {
        assert StrayAt(md, h, e, h + 3 + k) by {
          forall i | h + 3 <= i < h + 3 + k ensures !NoItem(md[i]) {
            assert lines[3..next][i - h - 3] == md[i];
          }
        }
      }
      forall j | StrayAt(md, h, e, j) ensures k == j - h - 3 < next - 3 {
        assert lines[3..next][j - h - 3] == md[j];
        forall i | 0 <= i < j - h - 3 ensures !R.IsStray(lines[3..next][i]) {
          assert lines[3..next][i] == md[h + 3 + i];
        }
        FindFromIs(lines[3..next], R.IsStray, 0, j - h - 3);
      }
    }
  }

  lemma {:induction false} SkipsIff(versions: seq<Version>)
    ensures R.Skipped(versions) <==> SkipsVersion(versions)
  {
  }

  lemma {:induction false} FindingsAre(md: seq<Line>, series: nat, versions: seq<Version>)
    ensures var lines, r := R.SectionLines(md, series), R.LayoutViolations(md, series, versions);
            && (R.NoUnreleased in r <==> |lines| < 3 || lines[1] != "" || lines[2] != "### Unreleased")
            && (R.UnreleasedTwice in r <==> |Filter(lines, R.IsUnreleased)| > 1)
            && (forall l :: R.StrayUnreleased(l) in r <==> R.StrayOf(lines) == Some(l))
            && (R.VersionSkipped in r <==> R.Skipped(versions))
  {
    hide R.SectionLines, R.StrayOf, R.Skipped, R.IsUnreleased;
    var lines, r := R.SectionLines(md, series), R.LayoutViolations(md, series, versions);
    var a := if |lines| < 3 || lines[1] != "" || lines[2] != "### Unreleased" then [R.NoUnreleased] else [];
    var b := if |Filter(lines, R.IsUnreleased)| > 1 then [R.UnreleasedTwice] else [];
    var c := match R.StrayOf(lines) case None => [] case Some(l) => [R.StrayUnreleased(l)];
    var d := if R.Skipped(versions) then [R.VersionSkipped] else [];
    assert r == a + b + c + d;
    assert forall x :: x in r <==> x in a || x in b || x in c || x in d;
  }

  /** The four findings in a file with the section of the series, each exactly when its reason stands there. */
  lemma {:induction false} LayoutGateFinds(md: seq<Line>, series: nat, versions: seq<Version>, h: int, e: int)
    requires SectionAt(md, series, h, e)
    ensures 0 <= h < e <= |md|
    ensures var r := R.LayoutViolations(md, series, versions);
            && (R.NoUnreleased in r <==> !StartsWell(md, h, e))
            && (R.UnreleasedTwice in r <==> NamedTwice(md, h, e))
            && (forall l :: R.StrayUnreleased(l) in r <==> exists k :: StrayAt(md, h, e, k) && md[k] == l)
            && (R.VersionSkipped in r <==> SkipsVersion(versions))
  {
    SectionIs(md, series, h, e);
    NamedTwiceIff(md, h, e);
    StrayIff(md, h, e);
    SkipsIff(versions);
    var lines := md[h..e];
    assert StartsWell(md, h, e) <==> |lines| >= 3 && lines[1] == "" && lines[2] == "### Unreleased";
    FindingsAre(md, series, versions);
    hide R.LayoutViolations, R.SectionLines, R.StrayOf, R.Skipped, NamedTwice, StrayAt, StartsWell, SkipsVersion;
  }

  /** Without the section the gate asks for it. */
  lemma {:induction false} NoSectionIsFound(md: seq<Line>, series: nat, versions: seq<Version>)
    requires forall l :: l in md ==> !Contains(l, Header(series))
    ensures R.LayoutViolations(md, series, versions)
         == [R.NoUnreleased] + if SkipsVersion(versions) then [R.VersionSkipped] else []
  {
    assert HeaderLine(md, series) == |md|;
    SkipsIff(versions);
    hide Contains, SkipsVersion, R.Skipped, HeaderLine;
    assert R.SectionLines(md, series) == [];
  }
}
