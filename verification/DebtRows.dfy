/** Debt rows `| TD-### | … |` as every release script recognises them, and the union of two sides of a conflict. */
module DebtRows {
  import opened Decimals
  import opened Hunks
  import opened Seqs
  import opened Texts

  /** The id of `/^\| (TD-\d+) \|/`. */
  function DebtId(l: Line): (id: Option<string>)
    ensures id.Some? ==> StartsWith(l, "| " + id.value + " |")
  {
    if !StartsWith(l, "| TD-") then None
    else
      var n := Run(l, IsDigit, 5);
      if n == 0 || 5 + n + 2 > |l| || l[5 + n..5 + n + 2] != " |" then None
      else
        assert l[..5 + n + 2] == l[..2] + l[2..5 + n] + l[5 + n..5 + n + 2];
        assert l[..2] == l[..5][..2];
        Some(l[2..5 + n])
  }

  predicate IsRow(l: Line) { DebtId(l).Some? }

  /** `/^TD-\d+$/`. */
  predicate IsId(id: string) {
    StartsWith(id, "TD-") && |id| > 3 && AllDigits(id[3..])
  }

  /** A line that starts with `| id |` is the row of that id and of no other. */
  lemma {:induction false} RowOfId(l: Line, id: string)
    requires IsId(id)
    ensures StartsWith(l, "| " + id + " |") <==> DebtId(l) == Some(id)
  {
    var p := "| " + id + " |";
    if StartsWith(l, p) {
      var n := |id| - 3;
      assert p[..5] == "| TD-" by {
        assert p[2..5] == id[..3];
      }
      assert l[..5] == l[..|p|][..5];
      forall k | 5 <= k < 5 + n ensures IsDigit(l[k]) {
        assert l[k] == p[k] == id[k - 2] == id[3..][k - 5];
      }
      assert l[5 + n] == p[5 + n] == ' ' && l[5 + n + 1] == p[5 + n + 1] == '|';
      RunIs(l, IsDigit, 5, n);
      assert l[5 + n..5 + n + 2] == " |";
      assert l[2..5 + n] == id;
    }
  }

  /** The ids of the rows of `lines`, in order. */
  function Ids(lines: seq<Line>): (ids: seq<string>)
    ensures forall l :: l in lines && IsRow(l) ==> DebtId(l).value in ids
    ensures forall id :: id in ids ==> exists l :: l in lines && DebtId(l) == Some(id)
  {
    if lines == [] then []
    else
      assert forall l :: l in lines[1..] ==> l in lines;
      (if IsRow(lines[0]) then [DebtId(lines[0]).value] else []) + Ids(lines[1..])
  }

  lemma {:induction false} IdsConcat(a: seq<Line>, b: seq<Line>)
    ensures Ids(a + b) == Ids(a) + Ids(b)
  {
    if a == [] {
      assert a + b == b;
    } else {
      assert (a + b)[1..] == a[1..] + b;
      IdsConcat(a[1..], b);
    }
  }

  // ---------------------------------------------------------------------------------------------
  // `unionRows` (scripts/renumber/conflicts.ts)

  /** `Map` of the rows by id: the last row of an id wins. */
  function RowOf(lines: seq<Line>, id: string): (r: Option<Line>)
    ensures r.Some? ==> r.value in lines && DebtId(r.value) == Some(id)
    ensures r.None? <==> id !in Ids(lines)
  {
    if lines == [] then None
    else
      var rest := RowOf(lines[1..], id);
      if rest.Some? then rest else if DebtId(lines[0]) == Some(id) then Some(lines[0]) else None
  }

  /** Both sides hold a row of this id, with different text. */
  predicate Differs(h: Hunk, id: string) {
    id in Ids(h.ours) && id in Ids(h.theirs) && RowOf(h.ours, id) != RowOf(h.theirs, id)
  }

  predicate RowsOnly(lines: seq<Line>) { forall l :: l in lines ==> IsBlank(l) || IsRow(l) }

  /** The hunk rule: both sides, a row both hold once; refused when the sides hold one id with different text. */
  function PickRows(h: Hunk, rowsOnly: bool): Option<seq<Line>> {
    if rowsOnly && !(RowsOnly(h.ours) && RowsOnly(h.theirs)) then None
    else if exists id :: id in Ids(h.theirs) && Differs(h, id) then None
    else Some(h.ours + Filter(h.theirs, (l: Line) => !(IsRow(l) && l in h.ours)))
  }

  lemma {:induction false} UniqueRow(lines: seq<Line>, l: Line)
    requires Distinct(Ids(lines)) && l in lines && IsRow(l)
    ensures RowOf(lines, DebtId(l).value) == Some(l)
  {
    var id := DebtId(l).value;
    IdsFirst(lines);
    DistinctConcat(Ids([lines[0]]), Ids(lines[1..]));
    if l in lines[1..] {
      UniqueRow(lines[1..], l);
    }
  }

  lemma {:induction false} IdsFirst(lines: seq<Line>)
    requires lines != []
    ensures Ids(lines) == Ids([lines[0]]) + Ids(lines[1..])
    ensures Ids([lines[0]]) == if IsRow(lines[0]) then [DebtId(lines[0]).value] else []
  {
    hide DebtId;
    assert [lines[0]][1..] == [];
  }

  /** Neither side loses a line, and no id is listed twice when neither side lists one twice. */
  lemma {:induction false} PickRowsKeepsBoth(h: Hunk, rowsOnly: bool)
    requires PickRows(h, rowsOnly).Some?
    ensures forall l :: l in PickRows(h, rowsOnly).value <==> l in h.ours || l in h.theirs
    ensures Distinct(Ids(h.ours)) && Distinct(Ids(h.theirs)) ==> Distinct(Ids(PickRows(h, rowsOnly).value))
  {
    var keep := (l: Line) => !(IsRow(l) && l in h.ours);
    var more := Filter(h.theirs, keep);
    assert PickRows(h, rowsOnly).value == h.ours + more;
    if Distinct(Ids(h.ours)) && Distinct(Ids(h.theirs)) {
      IdsConcat(h.ours, more);
      IdsOfFilter(h.theirs, keep);
      forall id | id in Ids(more) ensures id !in Ids(h.ours) {
        var l :| l in more && DebtId(l) == Some(id);
        UniqueRow(h.theirs, l);
        assert !Differs(h, id);
      }
      hide Ids, PickRows, RowOf, Differs;
      DistinctConcat(Ids(h.ours), Ids(more));
    }
  }

  /** Line `i` is the last row of this id. */
  predicate LastRow(lines: seq<Line>, id: string, i: int) {
    0 <= i < |lines| && DebtId(lines[i]) == Some(id) && forall j :: i < j < |lines| ==> DebtId(lines[j]) != Some(id)
  }

  /** The sides hold different rows of one id. */
  predicate RowsDiffer(h: Hunk, id: string, i: int, j: int) {
    LastRow(h.ours, id, i) && LastRow(h.theirs, id, j) && h.ours[i] != h.theirs[j]
  }

  ghost predicate SidesDiffer(h: Hunk, id: string) { exists i, j :: RowsDiffer(h, id, i, j) }

  /** A line of either side is neither blank nor a row. */
  predicate HoldsProse(h: Hunk) { exists l :: l in h.ours + h.theirs && !IsBlank(l) && !IsRow(l) }

  lemma {:induction false} RowOfIs(lines: seq<Line>, id: string)
    ensures forall i :: LastRow(lines, id, i) ==> RowOf(lines, id) == Some(lines[i])
    ensures id in Ids(lines) ==> exists i :: LastRow(lines, id, i)
  {
    if lines != [] {
      var rest := lines[1..];
      RowOfIs(rest, id);
      IdsFirst(lines);
      hide DebtId, Ids;
      assert forall k :: 0 <= k < |rest| ==> rest[k] == lines[k + 1];
      forall i ensures i > 0 ==> (LastRow(lines, id, i) <==> LastRow(rest, id, i - 1)) {
      }
      if id in Ids(rest) {
        var i :| LastRow(rest, id, i);
        assert LastRow(lines, id, i + 1);
      } else if id in Ids(lines) {
        forall j | 0 < j < |lines| ensures DebtId(lines[j]) != Some(id) {
          assert lines[j] in rest;
        }
        assert LastRow(lines, id, 0);
      }
    }
  }

  /**
   * A hunk is refused exactly when it must hold rows alone and does not, or the sides hold different rows of one id;
   * otherwise it becomes our lines and, behind them in their order, those of theirs that are not rows we hold too.
   */
  lemma {:induction false} PickRowsIff(h: Hunk, rowsOnly: bool)
    ensures PickRows(h, rowsOnly).None? <==> (rowsOnly && HoldsProse(h)) || exists id :: SidesDiffer(h, id)
    ensures PickRows(h, rowsOnly).Some? ==>
              var r := PickRows(h, rowsOnly).value;
              |h.ours| <= |r| && r[..|h.ours|] == h.ours
              && r[|h.ours|..] == Filter(h.theirs, (l: Line) => IsRow(l) ==> l !in h.ours)
  {
    forall id ensures id in Ids(h.theirs) && Differs(h, id) <==> SidesDiffer(h, id) {
      DiffersIff(h, id);
    }
    ProseIff(h);
    hide DebtId, Ids, SidesDiffer, Differs, HoldsProse, RowsOnly;
    FilterAgree(h.theirs, (l: Line) => !(IsRow(l) && l in h.ours), (l: Line) => IsRow(l) ==> l !in h.ours);
  }

  lemma {:induction false} ProseIff(h: Hunk)
    ensures HoldsProse(h) <==> !(RowsOnly(h.ours) && RowsOnly(h.theirs))
  {
    hide IsBlank, DebtId;
    assert forall l :: l in h.ours + h.theirs <==> l in h.ours || l in h.theirs;
  }

  lemma {:induction false} DiffersIff(h: Hunk, id: string)
    ensures id in Ids(h.theirs) && Differs(h, id) <==> SidesDiffer(h, id)
  {
    RowOfIs(h.ours, id);
    RowOfIs(h.theirs, id);
    hide Ids, DebtId, LastRow;
    forall i, j | RowsDiffer(h, id, i, j) ensures Differs(h, id) {
      LastIsRow(h.ours, id, i);
      LastIsRow(h.theirs, id, j);
    }
    if id in Ids(h.theirs) && Differs(h, id) {
      var i :| LastRow(h.ours, id, i);
      var j :| LastRow(h.theirs, id, j);
      LastIsRow(h.ours, id, i);
      LastIsRow(h.theirs, id, j);
      assert RowsDiffer(h, id, i, j);
    }
  }

  lemma {:induction false} LastIsRow(lines: seq<Line>, id: string, i: int)
    requires LastRow(lines, id, i)
    ensures 0 <= i < |lines| && id in Ids(lines)
  {
    hide DebtId, Ids;
    assert lines[i] in lines && IsRow(lines[i]);
  }

  lemma {:induction false} IdsOfFilter(lines: seq<Line>, p: Line -> bool)
    requires Distinct(Ids(lines))
    ensures Distinct(Ids(Filter(lines, p)))
    ensures forall id :: id in Ids(Filter(lines, p)) ==> id in Ids(lines)
  {
    if lines != [] {
      IdsFirst(lines);
      DistinctConcat(Ids([lines[0]]), Ids(lines[1..]));
      IdsOfFilter(lines[1..], p);
      if p(lines[0]) {
        var rest := Filter(lines[1..], p);
        IdsConcat([lines[0]], rest);
        DistinctConcat(Ids([lines[0]]), Ids(rest));
      }
    }
  }

  /** The counter and review lines that stay once: the prefixes of `SINGLE_LINES`. */
  const SINGLE_LINES: seq<string> :=
    ["- **فعال:** ", "- **آرشیو شده (resolved):** ", "*آخرین بازبینی: "]

  function SingleKind(l: Line): Option<nat> {
    var k := FindFrom(SINGLE_LINES, (p: string) => StartsWith(l, p), 0);
    if k == |SINGLE_LINES| then None else Some(k)
  }

  /** The three kinds, each by how its lines start. */
  lemma {:induction false} KindIs(l: Line)
    ensures SingleKind(l) == Some(0) <==> StartsWith(l, "- **فعال:** ")
    ensures SingleKind(l) == Some(1) <==> StartsWith(l, "- **آرشیو شده (resolved):** ")
    ensures SingleKind(l) == Some(2) <==> StartsWith(l, "*آخرین بازبینی: ")
    ensures SingleKind(l).Some? ==> SingleKind(l).value < 3
  {
    var p := (p: string) => StartsWith(l, p);
    var k := FindFrom(SINGLE_LINES, p, 0);
    assert |SINGLE_LINES| == 3;
    KindsApart(l);
    hide StartsWith;
    assert k > 0 ==> !p(SINGLE_LINES[0]);
    assert k > 1 ==> !p(SINGLE_LINES[1]);
    assert k > 2 ==> !p(SINGLE_LINES[2]);
  }

  lemma {:induction false} KindsApart(l: Line)
    ensures !(StartsWith(l, SINGLE_LINES[0]) && StartsWith(l, SINGLE_LINES[1]))
    ensures StartsWith(l, SINGLE_LINES[2]) ==> !StartsWith(l, SINGLE_LINES[0]) && !StartsWith(l, SINGLE_LINES[1])
  {
    var a, b, c := SINGLE_LINES[0], SINGLE_LINES[1], SINGLE_LINES[2];
    assert a[4] != b[4] && a[0] != c[0] && b[0] != c[0];
    if StartsWith(l, a) { assert l[4] == a[4] && l[0] == a[0]; }
    if StartsWith(l, b) { assert l[4] == b[4] && l[0] == b[0]; }
    if StartsWith(l, c) { assert l[0] == c[0]; }
  }

  /** Line `i` is no counter or review line, or the first one of its kind. */
  predicate StaysAt(lines: seq<Line>, i: nat)
    requires i < |lines|
  {
    SingleKind(lines[i]).None? || forall j :: 0 <= j < i ==> SingleKind(lines[j]) != SingleKind(lines[i])
  }

  /** The lines before line `n` that stay, in order. */
  function StayingBefore(lines: seq<Line>, n: nat): (r: seq<Line>)
    requires n <= |lines|
  {
    if n == 0 then []
    else StayingBefore(lines, n - 1) + (if StaysAt(lines, n - 1) then [lines[n - 1]] else [])
  }

  function FirstSingles(lines: seq<Line>): seq<Line> { StayingBefore(lines, |lines|) }

  ghost predicate AreKinds(lines: seq<Line>, n: nat, seen: set<nat>)
    requires n <= |lines|
  {
    forall k :: k in seen <==> exists j :: 0 <= j < n && SingleKind(lines[j]) == Some(k)
  }

  lemma {:induction false} KindsNext(lines: seq<Line>, i: nat, seen: set<nat>)
    requires i < |lines| && AreKinds(lines, i, seen)
    ensures StaysAt(lines, i) <==> SingleKind(lines[i]).None? || SingleKind(lines[i]).value !in seen
    ensures AreKinds(lines, i + 1, seen + (if SingleKind(lines[i]).Some? then {SingleKind(lines[i]).value} else {}))
  {
    hide SingleKind;
    if !StaysAt(lines, i) {
      var j :| 0 <= j < i && SingleKind(lines[j]) == SingleKind(lines[i]);
    }
  }

  method KeepFirstSingles(lines: seq<Line>) returns (out: seq<Line>)
    ensures out == FirstSingles(lines)
  {
    hide SingleKind, StaysAt, AreKinds;
    out := [];
    var seen: set<nat> := {};
    assert AreKinds(lines, 0, seen) by {
      NoKinds(lines);
    }
    for i := 0 to |lines|
      invariant out == StayingBefore(lines, i)
      invariant AreKinds(lines, i, seen)
    {
      KindsNext(lines, i, seen);
      var k := SingleKind(lines[i]);
      if k.None? {
        out := out + [lines[i]];
        assert seen + {} == seen;
      } else {
        if k.value !in seen {
          out := out + [lines[i]];
        }
        seen := seen + {k.value};
      }
    }
  }

  lemma {:induction false} NoKinds(lines: seq<Line>)
    ensures AreKinds(lines, 0, {})
  {
  }

  predicate IsOfKind(l: Line, k: nat) { SingleKind(l) == Some(k) }

  predicate IsOther(l: Line) { SingleKind(l).None? }

  function OfKind(lines: seq<Line>, k: nat): seq<Line> { Filter(lines, (l: Line) => IsOfKind(l, k)) }

  /** One line of each kind at most. */
  ghost predicate SinglesOnce(lines: seq<Line>) {
    forall i, j :: 0 <= i < j < |lines| && SingleKind(lines[i]).Some? ==> SingleKind(lines[i]) != SingleKind(lines[j])
  }

  function FirstOf(lines: seq<Line>): seq<Line> { if lines == [] then [] else [lines[0]] }

  lemma {:induction false} StayingAreLines(lines: seq<Line>, n: nat)
    requires n <= |lines|
    ensures forall l :: l in StayingBefore(lines, n) ==> exists j :: 0 <= j < n && lines[j] == l
  {
    hide StaysAt;
    if n > 0 {
      StayingAreLines(lines, n - 1);
    }
  }

  lemma {:induction false} KindNext(lines: seq<Line>, n: nat, k: nat)
    requires n < |lines| && OfKind(StayingBefore(lines, n), k) == FirstOf(OfKind(lines[..n], k))
    ensures OfKind(StayingBefore(lines, n + 1), k) == FirstOf(OfKind(lines[..n + 1], k))
  {
    var l, front, before := lines[n], lines[..n], StayingBefore(lines, n);
    hide SingleKind, Filter;
    OfKindNext(front, l, k);
    OfKindNext(before, l, k);
    StayingNext(lines, n);
    hide StayingBefore;
    if IsOfKind(l, k) {
      StaysIff(lines, n, k);
    }
    hide StaysAt, OfKind;
  }

  lemma {:induction false} StayingNext(lines: seq<Line>, n: nat)
    requires n < |lines|
    ensures lines[..n + 1] == lines[..n] + [lines[n]]
    ensures StaysAt(lines, n) ==> StayingBefore(lines, n + 1) == StayingBefore(lines, n) + [lines[n]]
    ensures !StaysAt(lines, n) ==> StayingBefore(lines, n + 1) == StayingBefore(lines, n)
  {
    hide StaysAt;
  }

  lemma {:induction false} OfKindNext(lines: seq<Line>, l: Line, k: nat)
    ensures OfKind(lines + [l], k) == OfKind(lines, k) + (if IsOfKind(l, k) then [l] else [])
  {
    FilterNext(lines, l, (x: Line) => IsOfKind(x, k));
  }

  /** The next line of a kind stays when there is none before it. */
  lemma {:induction false} StaysIff(lines: seq<Line>, n: nat, k: nat)
    requires n < |lines| && IsOfKind(lines[n], k)
    ensures StaysAt(lines, n) <==> OfKind(lines[..n], k) == []
  {
    hide SingleKind;
    var all := OfKind(lines[..n], k);
    if !StaysAt(lines, n) {
      var j :| 0 <= j < n && SingleKind(lines[j]) == SingleKind(lines[n]);
      assert lines[..n][j] in all;
    } else {
      forall l | l in lines[..n] ensures !IsOfKind(l, k) {
        var j :| 0 <= j < n && lines[j] == l;
      }
      FilterNone(lines[..n], (l: Line) => IsOfKind(l, k));
    }
  }

  lemma {:induction false} OthersNext(lines: seq<Line>, n: nat)
    requires n < |lines| && Filter(StayingBefore(lines, n), IsOther) == Filter(lines[..n], IsOther)
    ensures Filter(StayingBefore(lines, n + 1), IsOther) == Filter(lines[..n + 1], IsOther)
  {
    var l, before := lines[n], StayingBefore(lines, n);
    hide SingleKind, Filter, StayingBefore;
    StayingNext(lines, n);
    FilterNext(lines[..n], l, IsOther);
    FilterNext(before, l, IsOther);
  }

  lemma {:induction false} OnceNext(lines: seq<Line>, n: nat)
    requires n < |lines| && SinglesOnce(StayingBefore(lines, n))
    ensures SinglesOnce(StayingBefore(lines, n + 1))
  {
    var l, before := lines[n], StayingBefore(lines, n);
    StayingAreLines(lines, n);
    StayingNext(lines, n);
    hide SingleKind, StayingBefore;
    if StaysAt(lines, n) {
      forall i | 0 <= i < |before| && SingleKind(before[i]).Some? ensures SingleKind(before[i]) != SingleKind(l) {
        assert before[i] in before;
      }
    }
  }

  lemma {:induction false} NoLines()
    ensures Filter([], IsOther) == [] && forall k :: OfKind([], k) == []
  {
  }

  /** The counter and review lines that are left are the first of each kind; all other lines stay, in order. */
  lemma {:induction false} SinglesAreFirst(lines: seq<Line>, n: nat)
    requires n <= |lines|
    ensures var r := StayingBefore(lines, n);
            && Filter(r, IsOther) == Filter(lines[..n], IsOther)
            && (forall k :: OfKind(r, k) == FirstOf(OfKind(lines[..n], k)))
            && SinglesOnce(r)
  {
    hide Filter, SingleKind;
    if n == 0 {
      NoLines();
    } else {
      SinglesAreFirst(lines, n - 1);
      OthersNext(lines, n - 1);
      OnceNext(lines, n - 1);
      hide OfKind, StayingBefore, SingleKind, FirstOf, Filter;
      forall k ensures OfKind(StayingBefore(lines, n), k) == FirstOf(OfKind(lines[..n], k)) {
        KindNext(lines, n - 1, k);
      }
    }
  }

  lemma {:induction false} AllStay(lines: seq<Line>, n: nat)
    requires n <= |lines| && SinglesOnce(lines)
    ensures StayingBefore(lines, n) == lines[..n]
  {
    hide SingleKind;
    if n > 0 {
      AllStay(lines, n - 1);
      assert StaysAt(lines, n - 1);
    }
  }

  lemma {:induction false} RowIsOther(l: Line)
    ensures IsRow(l) ==> IsOther(l)
  {
    if IsRow(l) {
      assert l[0] == l[..5][0] == '|';
      FirstSign(l, SINGLE_LINES[0]);
      FirstSign(l, SINGLE_LINES[1]);
      FirstSign(l, SINGLE_LINES[2]);
      hide StartsWith;
      FindFromIs(SINGLE_LINES, (p: string) => StartsWith(l, p), 0, 3);
    }
  }

  lemma {:induction false} FirstSign(l: Line, p: string)
    requires l != "" && p != "" && l[0] != p[0]
    ensures !StartsWith(l, p)
  {
    assert |p| <= |l| ==> l[..|p|][0] == l[0];
  }

  lemma {:induction false} IdsOfOthers(lines: seq<Line>)
    ensures Ids(Filter(lines, IsOther)) == Ids(lines)
  {
    if lines != [] {
      var rest := Filter(lines[1..], IsOther);
      IdsOfOthers(lines[1..]);
      IdsFirst(lines);
      RowIsOther(lines[0]);
      IdsConcat([lines[0]], rest);
      hide SingleKind, Ids, DebtId;
    }
  }

  /** Keeping the first of each kind loses no debt row, and keeping it twice changes nothing more. */
  lemma {:induction false} FirstSinglesIsStable(lines: seq<Line>)
    ensures FirstSingles(FirstSingles(lines)) == FirstSingles(lines)
    ensures Ids(FirstSingles(lines)) == Ids(lines)
  {
    var r := FirstSingles(lines);
    SinglesAreFirst(lines, |lines|);
    assert lines[..|lines|] == lines && r[..|r|] == r;
    AllStay(r, |r|);
    IdsOfOthers(lines);
    IdsOfOthers(r);
  }

  // ---------------------------------------------------------------------------------------------
  // The ids of the whole merged file

  /** The whole file as one side has it. */
  function OursOf(segments: seq<Segment>): seq<Line> {
    if segments == [] then []
    else (match segments[0] case Clean(l) => [l] case Conflict(h) => h.ours) + OursOf(segments[1..])
  }

  function TheirsOf(segments: seq<Segment>): seq<Line> {
    if segments == [] then []
    else (match segments[0] case Clean(l) => [l] case Conflict(h) => h.theirs) + TheirsOf(segments[1..])
  }

  predicate OnClean(s: Segment, id: string) { s.Clean? && DebtId(s.line) == Some(id) }

  predicate OnOurs(s: Segment, id: string) { s.Conflict? && id in Ids(s.hunk.ours) }

  predicate OnTheirs(s: Segment, id: string) { s.Conflict? && id in Ids(s.hunk.theirs) }

  /** One side has the row of some id in one hunk, the other side in another hunk. */
  ghost predicate Crosses(segments: seq<Segment>) {
    exists s, t, id :: 0 <= s < |segments| && 0 <= t < |segments| && s != t && OnOurs(segments[s], id) && OnTheirs(segments[t], id)
  }

  function Picker(rowsOnly: bool): Pick { (h: Hunk) => PickRows(h, rowsOnly) }

  ghost predicate NoneRefuses(segments: seq<Segment>, rowsOnly: bool) {
    forall s :: s in segments ==> !Refuses(s, Picker(rowsOnly))
  }

  ghost predicate SomeClean(segments: seq<Segment>, id: string) { exists s :: s in segments && OnClean(s, id) }

  ghost predicate SomeOurs(segments: seq<Segment>, id: string) { exists s :: s in segments && OnOurs(s, id) }

  ghost predicate SomeTheirs(segments: seq<Segment>, id: string) { exists s :: s in segments && OnTheirs(s, id) }

  /** Which ids the sides and the merged file list. */
  lemma {:induction false} IdsOfSides(segments: seq<Segment>, rowsOnly: bool)
    requires NoneRefuses(segments, rowsOnly)
    ensures forall id :: id in Ids(OursOf(segments)) <==> SomeClean(segments, id) || SomeOurs(segments, id)
    ensures forall id :: id in Ids(TheirsOf(segments)) <==> SomeClean(segments, id) || SomeTheirs(segments, id)
    ensures forall id :: id in Ids(Replace(segments, Picker(rowsOnly)))
              <==> SomeClean(segments, id) || SomeOurs(segments, id) || SomeTheirs(segments, id)
  {
    if segments != [] {
      var s, rest := segments[0], segments[1..];
      assert segments == [s] + rest;
      RestRefusesNone(segments, rowsOnly);
      IdsOfSides(rest, rowsOnly);
      IdsOfSegment(segments, rowsOnly);
      hide *;
      forall id ensures
        && (SomeClean(segments, id) <==> OnClean(s, id) || SomeClean(rest, id))
        && (SomeOurs(segments, id) <==> OnOurs(s, id) || SomeOurs(rest, id))
        && (SomeTheirs(segments, id) <==> OnTheirs(s, id) || SomeTheirs(rest, id))
      {
        SomeFirst(s, rest, id);
      }
    }
  }

  lemma {:induction false} SomeFirst(s: Segment, rest: seq<Segment>, id: string)
    ensures SomeClean([s] + rest, id) <==> OnClean(s, id) || SomeClean(rest, id)
    ensures SomeOurs([s] + rest, id) <==> OnOurs(s, id) || SomeOurs(rest, id)
    ensures SomeTheirs([s] + rest, id) <==> OnTheirs(s, id) || SomeTheirs(rest, id)
  {
    hide OnClean, OnOurs, OnTheirs;
    assert forall x :: x in [s] + rest <==> x == s || x in rest;
  }

  lemma {:induction false} RestRefusesNone(segments: seq<Segment>, rowsOnly: bool)
    requires segments != [] && NoneRefuses(segments, rowsOnly)
    ensures !Refuses(segments[0], Picker(rowsOnly)) && NoneRefuses(segments[1..], rowsOnly)
  {
    hide PickRows;
  }

  function Picked(s: Segment, rowsOnly: bool): seq<Line>
    requires !Refuses(s, Picker(rowsOnly))
  {
    match s case Clean(l) => [l] case Conflict(h) => PickRows(h, rowsOnly).value
  }

  /** The ids of the first segment and of the rest. */
  lemma {:induction false} IdsOfSegment(segments: seq<Segment>, rowsOnly: bool)
    requires segments != [] && NoneRefuses(segments, rowsOnly)
    ensures !Refuses(segments[0], Picker(rowsOnly)) && NoneRefuses(segments[1..], rowsOnly)
    ensures var s, rest := segments[0], segments[1..];
            var ours, theirs := OursOf([s]), TheirsOf([s]);
            && Ids(OursOf(segments)) == Ids(ours) + Ids(OursOf(rest))
            && Ids(TheirsOf(segments)) == Ids(theirs) + Ids(TheirsOf(rest))
            && Ids(Replace(segments, Picker(rowsOnly))) == Ids(Picked(s, rowsOnly)) + Ids(Replace(rest, Picker(rowsOnly)))
            && (forall id :: id in Ids(ours) <==> OnClean(s, id) || OnOurs(s, id))
            && (forall id :: id in Ids(theirs) <==> OnClean(s, id) || OnTheirs(s, id))
            && (forall id :: id in Ids(Picked(s, rowsOnly)) <==> OnClean(s, id) || OnOurs(s, id) || OnTheirs(s, id))
            && (Distinct(Ids(ours)) && Distinct(Ids(theirs)) ==> Distinct(Ids(Picked(s, rowsOnly))))
  {
    var s, rest := segments[0], segments[1..];
    RestRefusesNone(segments, rowsOnly);
    FirstSides(s);
    IdsConcat(OursOf([s]), OursOf(rest));
    IdsConcat(TheirsOf([s]), TheirsOf(rest));
    hide Ids, DebtId, PickRows;
    IdsConcat(Picked(s, rowsOnly), Replace(rest, Picker(rowsOnly)));
    PickedIds(s, rowsOnly);
  }

  lemma {:induction false} FirstSides(s: Segment)
    ensures OursOf([s]) == match s case Clean(l) => [l] case Conflict(h) => h.ours
    ensures TheirsOf([s]) == match s case Clean(l) => [l] case Conflict(h) => h.theirs
  {
    assert [s][1..] == [] && OursOf([]) == [] && TheirsOf([]) == [];
  }

  lemma {:induction false} PickedIds(s: Segment, rowsOnly: bool)
    requires !Refuses(s, Picker(rowsOnly))
    ensures var ours, theirs := OursOf([s]), TheirsOf([s]);
            && (forall id :: id in Ids(ours) <==> OnClean(s, id) || OnOurs(s, id))
            && (forall id :: id in Ids(theirs) <==> OnClean(s, id) || OnTheirs(s, id))
            && (forall id :: id in Ids(Picked(s, rowsOnly)) <==> OnClean(s, id) || OnOurs(s, id) || OnTheirs(s, id))
            && (Distinct(Ids(ours)) && Distinct(Ids(theirs)) ==> Distinct(Ids(Picked(s, rowsOnly))))
  {
    FirstSides(s);
    match s
    case Clean(l) =>
      IdsFirst([l]);
      hide DebtId, Ids;
    case Conflict(h) =>
      PickRowsKeepsBoth(h, rowsOnly);
      SameIds(h, PickRows(h, rowsOnly).value);
      hide Ids, PickRows;
  }

  lemma {:induction false} SameIds(h: Hunk, lines: seq<Line>)
    requires forall l :: l in lines <==> l in h.ours || l in h.theirs
    ensures forall id :: id in Ids(lines) <==> id in Ids(h.ours) || id in Ids(h.theirs)
  {
    hide DebtId;
  }

  lemma {:induction false} CrossesFirst(s: Segment, rest: seq<Segment>)
    ensures Crosses([s] + rest)
       <==> Crosses(rest) || exists id :: (OnOurs(s, id) && SomeTheirs(rest, id)) || (OnTheirs(s, id) && SomeOurs(rest, id))
  {
    hide OnOurs, OnTheirs;
    var all := [s] + rest;
    if Crosses(all) {
      var i, j, id :| 0 <= i < |all| && 0 <= j < |all| && i != j && OnOurs(all[i], id) && OnTheirs(all[j], id);
      if i == 0 {
        assert rest[j - 1] in rest && SomeTheirs(rest, id);
      } else if j == 0 {
        assert rest[i - 1] in rest && SomeOurs(rest, id);
      } else {
        assert all[i] == rest[i - 1] && all[j] == rest[j - 1];
      }
    }
    if Crosses(rest) {
      var i, j, id :| 0 <= i < |rest| && 0 <= j < |rest| && i != j && OnOurs(rest[i], id) && OnTheirs(rest[j], id);
      assert all[i + 1] == rest[i] && all[j + 1] == rest[j];
    }
    if id :| OnOurs(s, id) && SomeTheirs(rest, id) {
      var t :| t in rest && OnTheirs(t, id);
      var j :| 0 <= j < |rest| && rest[j] == t;
      assert all[0] == s && all[j + 1] == t;
    }
    if id :| OnTheirs(s, id) && SomeOurs(rest, id) {
      var t :| t in rest && OnOurs(t, id);
      var j :| 0 <= j < |rest| && rest[j] == t;
      assert all[0] == s && all[j + 1] == t;
    }
  }

  /** When neither side lists an id twice, the merged file does exactly when the sides have a row in different hunks. */
  lemma {:induction false} MergedListsOnceIff(segments: seq<Segment>, rowsOnly: bool)
    requires NoneRefuses(segments, rowsOnly) && Distinct(Ids(OursOf(segments))) && Distinct(Ids(TheirsOf(segments)))
    ensures Distinct(Ids(Replace(segments, Picker(rowsOnly)))) <==> !Crosses(segments)
  {
    hide Ids, Crosses, OursOf, TheirsOf, PickRows, Refuses, Replace, Distinct, OnClean, OnOurs, OnTheirs, DebtId;
    if segments == [] {
      NothingCrosses(rowsOnly);
    } else {
      var s, rest := segments[0], segments[1..];
      assert segments == [s] + rest;
      IdsOfSegment(segments, rowsOnly);
      DistinctConcat(Ids(OursOf([s])), Ids(OursOf(rest)));
      DistinctConcat(Ids(TheirsOf([s])), Ids(TheirsOf(rest)));
      DistinctConcat(Ids(Picked(s, rowsOnly)), Ids(Replace(rest, Picker(rowsOnly))));
      MergedListsOnceIff(rest, rowsOnly);
      IdsOfSides(rest, rowsOnly);
      CrossesFirst(s, rest);
    }
  }

  lemma {:induction false} NothingCrosses(rowsOnly: bool)
    ensures NoneRefuses([], rowsOnly) && Distinct(Ids(Replace([], Picker(rowsOnly)))) && !Crosses([])
  {
  }

  /** Both sides added the same row, in two hunks with a line of both between them. */
  function CrossedRow(row: Line): seq<Piece> {
    [Block("<<<<<<< a", [row], None, [], ">>>>>>> b"), Text(""), Block("<<<<<<< a", [], None, [row], ">>>>>>> b")]
  }

  /** Each side lists the id once, no hunk is refused, and the merged file lists it twice. */
  lemma {:induction false} CrossedRowIsDoubled(row: Line)
    requires IsRow(row)
    ensures var p, id := Parse(Print(CrossedRow(row))), DebtId(row).value;
            && !p.open && NoneRefuses(p.segments, true)
            && Ids(OursOf(p.segments)) == Ids(TheirsOf(p.segments)) == [id]
            && Ids(Replace(p.segments, Picker(true))) == [id, id]
  {
    hide *;
    CrossedParses(row);
    CrossedPicks(row);
    CrossedSides(row);
    IdsOfCrossed(row);
  }

  /** The hunks of the crossed file. */
  function CrossedHunks(row: Line): seq<Segment> {
    [Conflict(Hunk([row], [])), Clean(""), Conflict(Hunk([], [row]))]
  }

  lemma {:induction false} CrossedParses(row: Line)
    requires IsRow(row)
    ensures Parse(Print(CrossedRow(row))) == Parsed(CrossedHunks(row), false)
  {
    var doc := CrossedRow(row);
    CrossedIsPrinted(row);
    ParseNothing();
    hide *;
    ParsePrinted(doc, []);
    assert Print(doc) + [] == Print(doc);
    assert Meaning(doc) + [] == Meaning(doc);
  }

  lemma {:induction false} CrossedSides(row: Line)
    requires PickRows(Hunk([row], []), true) == Some([row]) && PickRows(Hunk([], [row]), true) == Some([row])
    ensures var segments := CrossedHunks(row);
            && NoneRefuses(segments, true) && Replace(segments, Picker(true)) == [row] + ([""] + [row])
            && OursOf(segments) == [row] + [""] && TheirsOf(segments) == [""] + [row]
  {
    hide PickRows;
    var pick := Picker(true);
    var a, b, c := Conflict(Hunk([row], [])), Clean(""), Conflict(Hunk([], [row]));
    assert pick(a.hunk) == Some([row]) && pick(c.hunk) == Some([row]);
    hide Picker, OursOf, TheirsOf, Replace;
    NextSegment(c, [], pick);
    NextSegment(b, [c], pick);
    NextSegment(a, [b, c], pick);
    assert [a] + ([b] + ([c] + [])) == CrossedHunks(row) && [c] + [] == [c] && [b] + [c] == [b, c];
    NoSegments(pick);
    assert [row] + [] == [row] && [""] + [] == [""] && [] + [row] == [row] && [] + ([""] + [row]) == [""] + [row];
  }

  lemma {:induction false} NoSegments(pick: Pick)
    ensures OursOf([]) == TheirsOf([]) == Replace([], pick) == []
  {
  }

  lemma {:induction false} NextSegment(s: Segment, rest: seq<Segment>, pick: Pick)
    requires !Refuses(s, pick) && forall x :: x in rest ==> !Refuses(x, pick)
    ensures OursOf([s] + rest) == (match s case Clean(l) => [l] case Conflict(h) => h.ours) + OursOf(rest)
    ensures TheirsOf([s] + rest) == (match s case Clean(l) => [l] case Conflict(h) => h.theirs) + TheirsOf(rest)
    ensures Replace([s] + rest, pick) == (match s case Clean(l) => [l] case Conflict(h) => pick(h).value) + Replace(rest, pick)
  {
    assert ([s] + rest)[1..] == rest && ([s] + rest)[0] == s;
  }

  lemma {:induction false} ParseNothing()
    ensures Parse([]) == Parsed([], false)
  {
  }

  lemma {:induction false} CrossedIsPrinted(row: Line)
    requires IsRow(row)
    ensures forall p :: p in CrossedRow(row) ==> WellFormed(p)
    ensures Meaning(CrossedRow(row)) == CrossedHunks(row)
  {
    assert row[0] == row[..5][0] == '|' && row[1] == row[..5][1] == ' ';
    assert |row| >= 8 ==> row[..8][1] == row[1] && "||||||| "[1] == '|';
    FirstSign(row, ">>>>>>> ");
    assert OpensHunk("<<<<<<< a") && ClosesHunk(">>>>>>> b");
    hide DebtId;
  }

  lemma {:induction false} CrossedPicks(row: Line)
    requires IsRow(row)
    ensures PickRows(Hunk([row], []), true) == Some([row]) && PickRows(Hunk([], [row]), true) == Some([row])
  {
    hide DebtId;
    var keep := (l: Line) => !(IsRow(l) && l in [row]);
    assert Filter([], keep) == [] && [row] + [] == [row] && Ids([]) == [];
    FilterAll([row], (l: Line) => !(IsRow(l) && l in []));
    assert [] + [row] == [row];
  }

  lemma {:induction false} IdsOfCrossed(row: Line)
    requires IsRow(row)
    ensures var id := DebtId(row).value;
            && Ids([row] + [""]) == Ids([""] + [row]) == [id] && Ids([row] + ([""] + [row])) == [id, id]
  {
    IdsFirst([row]);
    IdsFirst([""]);
    hide DebtId;
    IdsConcat([row], [""]);
    IdsConcat([""], [row]);
    IdsConcat([row], [""] + [row]);
  }

  /** `None` exactly when the last hunk is open or a hunk is left to the operator. */
  method UnionRows(merged: seq<Line>, rowsOnlyHunks: bool) returns (r: Option<seq<Line>>)
    ensures r.None? <==> var p := Parse(merged);
              p.open || exists s :: s in p.segments && s.Conflict? && PickRows(s.hunk, rowsOnlyHunks).None?
    ensures r.Some? ==> exists lines :: r.value == FirstSingles(lines) && SinglesOnce(r.value) && Ids(r.value) == Ids(lines)
                          && IsOutcome(merged, Picker(rowsOnlyHunks), Some(lines))
    ensures var segments := Parse(merged).segments;
            r.Some? && Distinct(Ids(OursOf(segments))) && Distinct(Ids(TheirsOf(segments))) ==>
              (Distinct(Ids(r.value)) <==> !Crosses(segments))
  {
    hide Parse, PickRows, StayingBefore, Replace, Ids, SingleKind, Crosses, OursOf, TheirsOf;
    var pick := Picker(rowsOnlyHunks);
    var resolved := ResolveHunks(merged, pick);
    ghost var p := Parse(merged);
    assert forall s :: s in p.segments ==> (Refuses(s, pick) <==> s.Conflict? && PickRows(s.hunk, rowsOnlyHunks).None?);
    if resolved.None? {
      return None;
    }
    ghost var lines := resolved.value;
    SinglesAreFirst(lines, |lines|);
    FirstSinglesIsStable(lines);
    if Distinct(Ids(OursOf(p.segments))) && Distinct(Ids(TheirsOf(p.segments))) {
      MergedListsOnceIff(p.segments, rowsOnlyHunks);
    }
    var out := KeepFirstSingles(resolved.value);
    r := Some(out);
  }
}
