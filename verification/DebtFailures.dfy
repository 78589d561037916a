/** Rows closed into a section without a table: where `updateTechDebt` puts them, and when the first id is lost. */
module DebtFailures {
  import opened DebtRegistry
  import opened DebtRows
  import opened DebtTheorems
  import opened Decimals
  import opened Seqs
  import opened Texts

  /** The text before the offset on the line the offset cuts. */
  function Glued(lines: seq<Line>, at: nat): Line {
    if lines == [] then []
    else if at <= |lines[0]| then lines[0][..at]
    else if |lines| == 1 then lines[0]
    else Glued(lines[1..], at - |lines[0]| - 1)
  }

  function Cell(id: string): string { "| " + id + " |" }

  /** Rows put at an offset: the first behind the text before it, the rest of the cut line on a line of its own. */
  lemma {:induction false} InsertedAt(lines: seq<Line>, at: nat, rows: seq<Line>)
    returns (a: seq<Line>, rest: Line, b: seq<Line>, cut: Line)
    requires rows != []
    ensures InsertAt(lines, at, rows) == a + [Glued(lines, at) + rows[0]] + rows[1..] + [rest] + b
    ensures (forall l :: l in a || l in b ==> l in lines) && cut == Glued(lines, at) + rest && (cut in lines || cut == [])
  {
    var g, r := Glued(lines, at), InsertAt(lines, at, rows);
    hide Glued, InsertAt;
    InsertStep(lines, at, rows);
    if lines == [] {
      a, rest, b := [], [], [];
    } else if at <= |lines[0]| {
      a, rest, b := [], lines[0][at..], lines[1..];
    } else if |lines| == 1 {
      a, rest, b := [], [], [];
    } else {
      var at' := at - |lines[0]| - 1;
      a, rest, b, cut := InsertedAt(lines[1..], at', rows);
      OneMore(lines[0], a, InsertAt(lines[1..], at', rows), rows[1..], g + rows[0], rest, b);
      a := [lines[0]] + a;
    }
    cut := g + rest;
  }

  lemma {:induction false} OneMore(first: Line, a: seq<Line>, r: seq<Line>, other: seq<Line>, l: Line, rest: Line, b: seq<Line>)
    requires r == a + [l] + other + [rest] + b
    ensures [first] + r == ([first] + a) + [l] + other + [rest] + b
  {
  }

  lemma {:induction false} InsertStep(lines: seq<Line>, at: nat, rows: seq<Line>)
    requires rows != []
    ensures var g, r := Glued(lines, at), InsertAt(lines, at, rows);
            if lines == [] then g == [] && g + [] == [] && r == [] + [g + rows[0]] + rows[1..] + [[]] + []
            else if at <= |lines[0]| then
              g + lines[0][at..] == lines[0] && r == [] + [g + rows[0]] + rows[1..] + [lines[0][at..]] + lines[1..]
            else if |lines| == 1 then g + [] == lines[0] && r == [] + [g + rows[0]] + rows[1..] + [[]] + []
            else
              && g == Glued(lines[1..], at - |lines[0]| - 1)
              && r == [lines[0]] + InsertAt(lines[1..], at - |lines[0]| - 1, rows)
  {
    var g := Glued(lines, at);
    assert lines == [] ==> g + rows[0] == rows[0] && [rows[0]] + rows[1..] == rows;
  }

  /** Behind other text a row keeps its id only behind its own first cell. */
  lemma {:induction false} GluedRow(g: Line, row: Line, td: string)
    requires IsId(td) && StartsWith(row, Cell(td)) && !StartsWith(g, Cell(td))
    ensures DebtId(g + row) == Some(td) <==> g == [] || g == "| " + td + " "
  {
    var p := Cell(td);
    RowOfId(g + row, td);
    forall k | 0 < k < |p| - 1 ensures p[k] != '|' {
      assert k >= 2 && k < 2 + |td| ==> p[k] == td[k - 2];
      assert 5 <= k < 2 + |td| ==> td[k - 2] == td[3..][k - 5];
      assert 2 <= k < 5 ==> td[k - 2] == td[..3][k - 2];
    }
    if g == [] {
      assert g + row == row;
    } else if |g| < |p| {
      var n := |g|;
      assert row[0] == row[..|p|][0] == '|';
      assert (g + row)[n] == '|';
      if StartsWith(g + row, p) {
        assert (g + row)[..|p|][n] == p[n];
        assert n == |p| - 1;
        assert g == (g + row)[..|p|][..n] == p[..n];
        assert p[..n] == "| " + td + " ";
      }
      if g == "| " + td + " " {
        assert (g + row)[..|p|] == g + [row[0]];
      }
    } else {
      assert (g + row)[..|p|] == g[..|p|];
    }
  }

  lemma {:induction false} TextKept(l: Line, part: Line, x: Line, y: Line)
    requires l == x + part + y
    ensures Contains(l, part)
  {
    assert l[|x|..][..|part|] == part;
    assert StartsWith(l[|x|..], part);
  }

  lemma {:induction false} PartStarts(row: Line, td: string, x: Line)
    requires StartsWith(row, Cell(td))
    ensures Contains(x + row, Cell(td))
  {
    var p := Cell(td);
    TextKept(x + row, p, x, row[|p|..]);
  }

  lemma {:induction false} EmptyFirst(l: Line)
    ensures [] + l == l
  {
  }

  /** No line of the file shows the cell of this id. */
  ghost predicate Unmentioned(lines: seq<Line>, td: string) { forall l :: l in lines ==> !Contains(l, Cell(td)) }

  lemma {:induction false} UnmentionedIds(lines: seq<Line>, td: string)
    requires IsId(td) && Unmentioned(lines, td)
    ensures td !in Ids(lines)
  {
    if td in Ids(lines) {
      var l :| l in lines && DebtId(l) == Some(td);
      RowOfId(l, td);
      PartStarts(l, td, []);
      EmptyFirst(l);
    }
  }

  /** Where the first row of a section without a table ends up, and its id. */
  lemma {:induction false} FirstRowStays(lines: seq<Line>, at: nat, closes: seq<CloseRow>)
    requires closes != [] && (forall r :: r in closes ==> CloseError(r).None?) && Distinct(TdsOf(closes))
    requires Unmentioned(lines, closes[0].td)
    ensures var after := InsertAt(lines, at, ArchiveRows(closes));
            var td := closes[0].td;
            && (closes[0].archiveRow in after <==> Glued(lines, at) == [])
            && (td in Ids(after) <==> Glued(lines, at) in [[], "| " + td + " "])
            && forall id :: id in TdsOf(closes[1..]) ==> id in Ids(after)
  {
    hide *;
    var row, td, g := closes[0].archiveRow, closes[0].td, Glued(lines, at);
    FirstRow(closes);
    var a, rest, b, cut := InsertedAt(lines, at, ArchiveRows(closes));
    var other := ArchiveRows(closes[1..]);
    IdsOfParts(a, g + row, other, rest, b);
    ArchivedIds(closes[1..]);
    NotAgain(closes);
    PartsUnmentioned(lines, td, a, b, g, rest, cut);
    UnmentionedIds(a + b, td);
    IdsConcat(a, b);
    UnmentionedIds([rest], td);
    GluedRow(g, row, td);
    RowIsApart(closes, a, b, g, rest);
  }

  lemma {:induction false} FirstRow(closes: seq<CloseRow>)
    requires closes != [] && forall r :: r in closes ==> CloseError(r).None?
    ensures var rows := ArchiveRows(closes);
            rows != [] && rows[0] == closes[0].archiveRow && rows[1..] == ArchiveRows(closes[1..])
    ensures IsId(closes[0].td) && StartsWith(closes[0].archiveRow, Cell(closes[0].td))
    ensures forall r :: r in closes[1..] ==> CloseError(r).None?
  {
    assert closes[0] in closes && CloseError(closes[0]).None?;
    hide IsId, StartsWith, CloseError;
    assert forall r :: r in closes[1..] ==> r in closes;
  }

  lemma {:induction false} IdsOfParts(a: seq<Line>, l: Line, other: seq<Line>, rest: Line, b: seq<Line>)
    ensures forall id :: id in Ids(a + [l] + other + [rest] + b)
              <==> id in Ids(a) || DebtId(l) == Some(id) || id in Ids(other) || id in Ids([rest]) || id in Ids(b)
  {
    IdsFirst([l]);
    hide *;
    IdsConcat(a + [l] + other + [rest], b);
    IdsConcat(a + [l] + other, [rest]);
    IdsConcat(a + [l], other);
    IdsConcat(a, [l]);
    OneRow(l);
  }

  lemma {:induction false} OneRow(l: Line)
    ensures forall id :: id in Ids([l]) <==> DebtId(l) == Some(id)
  {
    IdsFirst([l]);
    hide DebtId, Ids;
  }

  lemma {:induction false} NotAgain(closes: seq<CloseRow>)
    requires closes != [] && Distinct(TdsOf(closes))
    ensures closes[0].td !in TdsOf(closes[1..])
  {
    var tds := TdsOf(closes);
    assert tds == [closes[0].td] + TdsOf(closes[1..]);
    DistinctConcat([closes[0].td], TdsOf(closes[1..]));
  }

  lemma {:induction false} PartsUnmentioned(lines: seq<Line>, td: string, a: seq<Line>, b: seq<Line>, g: Line, rest: Line,
                                            cut: Line)
    requires Unmentioned(lines, td) && (forall l :: l in a || l in b ==> l in lines)
    requires cut == g + rest && (cut in lines || cut == [])
    ensures Unmentioned(a + b, td) && Unmentioned([rest], td) && !StartsWith(g, Cell(td))
  {
    Within(g, rest, Cell(td));
    assert Contains(cut, Cell(td)) ==> cut != [];
  }

  lemma {:induction false} Within(x: Line, y: Line, part: Line)
    ensures Contains(y, part) || StartsWith(x, part) ==> Contains(x + y, part)
  {
    if i :| 0 <= i <= |y| && StartsWith(y[i..], part) {
      assert (x + y)[|x| + i..] == y[i..];
    } else if StartsWith(x, part) {
      TextKept(x + y, part, [], x[|part|..] + y);
    }
  }

  lemma {:induction false} RowIsApart(closes: seq<CloseRow>, a: seq<Line>, b: seq<Line>, g: Line, rest: Line)
    requires closes != [] && (forall r :: r in closes ==> CloseError(r).None?) && Distinct(TdsOf(closes))
    requires Unmentioned(a + b, closes[0].td) && Unmentioned([rest], closes[0].td)
    ensures var row := closes[0].archiveRow;
            row in a + [g + row] + ArchiveRows(closes[1..]) + [rest] + b <==> g == []
  {
    var row, td, other := closes[0].archiveRow, closes[0].td, ArchiveRows(closes[1..]);
    FirstRow(closes);
    PartStarts(row, td, []);
    assert [] + row == row;
    RowOfId(row, td);
    NotAgain(closes);
    ArchivedIds(closes[1..]);
    hide *;
    assert row !in other by {
      RowGivesId(other, row);
    }
    assert row !in a + b && row !in [rest] by {
      NotMentioned(a + b, td, row);
      NotMentioned([rest], td, row);
    }
    assert |g + row| == |g| + |row|;
    assert g == [] ==> g + row == row;
  }

  lemma {:induction false} RowGivesId(lines: seq<Line>, l: Line)
    ensures l in lines && IsRow(l) ==> DebtId(l).value in Ids(lines)
    ensures IsRow(l) <==> DebtId(l).Some?
  {
    hide DebtId;
  }

  lemma {:induction false} NotMentioned(lines: seq<Line>, td: string, l: Line)
    requires Unmentioned(lines, td) && Contains(l, Cell(td))
    ensures l !in lines
  {
    hide Contains;
  }

  // ---------------------------------------------------------------------------------------------
  // A whole update

  /** The first closed row of an update finds a table, or the fixed offset falls at the start of a line. */
  predicate HasPlace(closed: seq<Line>, series: nat) {
    ClosedTable(closed, series).Some? || Glued(closed, |TABLE_SEP|) == []
  }

  /**
   * An accepted update of a registry without findings, whose closed file does not show the first id: the row stands in the
   * closed file exactly when it has a place there, and the id is then closed. Otherwise the id is unused again, but for a
   * cut right behind its own number. The other closed rows always stand.
   */
  lemma {:induction false} ClosedRowStandsIff(reg: Registry, spec: DebtSpec, series: nat, closes: seq<CloseRow>)
    requires CountersApart(reg.debt) && CountersApart(spec.openRows) && ReadCounter(reg.debt, ACTIVE).Some?
    requires FindDebtRegistryViolations(reg.debt, reg.closed + reg.frozen) == []
    requires CloseRowsOf(spec) == Ok(closes) && closes != [] && UpdateDebt(reg, spec, series).Ok?
    requires Unmentioned(reg.closed, closes[0].td)
    ensures var after := UpdateDebt(reg, spec, series).value.registry;
            var td, place := closes[0].td, HasPlace(reg.closed, series);
            && StatusOf(reg, td) == Open
            && (closes[0].archiveRow in after.closed <==> place)
            && StatusOf(after, td) == (if place || Glued(reg.closed, |TABLE_SEP|) == "| " + td + " " then Done else Unused)
            && forall r :: r in closes[1..] ==> StatusOf(after, r.td) == Done
  {
    hide *;
    var td := closes[0].td;
    var after := UpdateDebt(reg, spec, series).value.registry;
    AcceptedRows(spec, closes);
    var lines := UpdateParts(reg, spec, series, closes);
    GateIff(reg.debt, reg.closed + reg.frozen);
    IdsConcat(reg.closed, reg.frozen);
    NewTableKeeps(reg, closes, spec.openRows);
    TdsLeave(Ids(reg.debt), Ids(lines), TdsOf(closes), Ids(spec.openRows), reg);
    CountersSet(lines, |Ids(lines)|, ReadCounter(lines, ARCHIVED).value + |closes|);
    TdsAre(closes);
    PlaceOfFirst(reg.closed, series, closes);
    IdsConcat(after.closed, after.frozen);
    forall id | id in TdsOf(closes)
      ensures StatusOf(reg, id) == Open && StatusOf(after, id) == if id in Ids(after.closed) then Done else Unused
    {
      StatusIs(reg, id);
      StatusIs(after, id);
    }
  }

  lemma {:induction false} StatusIs(reg: Registry, id: string)
    ensures id in Ids(reg.debt) ==> StatusOf(reg, id) == Open
    ensures id !in Ids(reg.debt) ==> StatusOf(reg, id) == if id in Ids(reg.closed + reg.frozen) then Done else Unused
  {
    hide Ids;
  }

  lemma {:induction false} TdsAre(closes: seq<CloseRow>)
    requires closes != []
    ensures closes[0].td in TdsOf(closes) && forall r :: r in closes[1..] ==> r.td in TdsOf(closes) && r.td in TdsOf(closes[1..])
  {
    var tds, rest := TdsOf(closes), TdsOf(closes[1..]);
    assert tds[0] == closes[0].td;
    forall r | r in closes[1..] ensures r.td in tds && r.td in rest {
      var i :| 0 <= i < |closes[1..]| && closes[1..][i] == r;
      assert rest[i] == r.td && tds[i + 1] == r.td;
    }
  }

  lemma {:induction false} TdsLeave(debt: seq<string>, left: seq<string>, tds: seq<string>, added: seq<string>, reg: Registry)
    requires debt == Ids(reg.debt) && Distinct(debt) && Distinct(added)
    requires forall id :: id in added ==> StatusOf(reg, id) == Unused
    requires multiset(left) + multiset(tds) == multiset(debt) + multiset(added)
    ensures Distinct(tds) && forall id :: id in tds ==> id !in left
  {
    hide Ids;
    DistinctConcat(debt, added);
    assert multiset(left + tds) == multiset(debt + added);
    DistinctPermutation(debt + added, left + tds);
    DistinctConcat(left, tds);
  }

  lemma {:induction false} PlaceOfFirst(closed: seq<Line>, series: nat, closes: seq<CloseRow>)
    requires closes != [] && (forall r :: r in closes ==> CloseError(r).None?) && Distinct(TdsOf(closes))
    requires Unmentioned(closed, closes[0].td) && WithClosed(closed, series, closes).Ok?
    ensures var after := WithClosed(closed, series, closes).value;
            var td, place := closes[0].td, HasPlace(closed, series);
            && (closes[0].archiveRow in after <==> place)
            && (td in Ids(after) <==> place || Glued(closed, |TABLE_SEP|) == "| " + td + " ")
            && forall id :: id in TdsOf(closes[1..]) ==> id in Ids(after)
  {
    hide *;
    var after := WithClosed(closed, series, closes).value;
    var rows := ArchiveRows(closes);
    PlaceIs(closed, series);
    FirstRow(closes);
    if ClosedTable(closed, series).Some? {
      var t := ClosedTable(closed, series).value;
      WithTable(closed, series, closes);
      ClosedKeepsIds(closed, series, closes);
      MembersOfSum(Ids(after), Ids(closed), TdsOf(closes));
      TdsAre(closes);
      TdsTail(closes);
      assert rows[0] in closed[..t + 1] + rows + closed[t + 1..];
    } else {
      WithoutTable(closed, series, closes);
      FirstRowStays(closed, |TABLE_SEP|, closes);
    }
  }

  lemma {:induction false} TdsTail(closes: seq<CloseRow>)
    requires closes != []
    ensures forall id :: id in TdsOf(closes[1..]) ==> id in TdsOf(closes)
  {
    assert TdsOf(closes) == [closes[0].td] + TdsOf(closes[1..]);
  }

  lemma {:induction false} PlaceIs(closed: seq<Line>, series: nat)
    ensures HasPlace(closed, series) <==> ClosedTable(closed, series).Some? || Glued(closed, |TABLE_SEP|) == []
  {
    hide ClosedTable, Glued;
  }

  lemma {:induction false} MembersOfSum(all: seq<string>, a: seq<string>, b: seq<string>)
    requires multiset(all) == multiset(a) + multiset(b)
    ensures forall id :: id in b ==> id in all
  {
    forall id | id in b ensures id in all {
      assert id in multiset(b);
      assert multiset(all)[id] >= multiset(b)[id];
    }
  }

  lemma {:induction false} WithTable(closed: seq<Line>, series: nat, closes: seq<CloseRow>)
    requires closes != [] && WithClosed(closed, series, closes).Ok? && ClosedTable(closed, series).Some?
    ensures var t := ClosedTable(closed, series).value;
            WithClosed(closed, series, closes).value == closed[..t + 1] + ArchiveRows(closes) + closed[t + 1..]
  {
    hide IsSection, ClosedTable, ArchiveRows;
  }

  lemma {:induction false} WithoutTable(closed: seq<Line>, series: nat, closes: seq<CloseRow>)
    requires closes != [] && WithClosed(closed, series, closes).Ok? && ClosedTable(closed, series).None?
    ensures WithClosed(closed, series, closes).value == InsertAt(closed, |TABLE_SEP|, ArchiveRows(closes))
  {
    hide IsSection, ClosedTable, InsertAt;
  }

  // ---------------------------------------------------------------------------------------------
  // An input

  const SECTION: Line := "## " + SeriesName(1)
  const FIRST_ROW: Line := "| TD-1 | x |"

  function Counter(name: string, n: nat): Line { name + Persian(Decimal(n)) + ROWS }

  /** One active row, and a section that has no table yet. */
  function NewSeries(): Registry {
    Registry([Counter(ACTIVE, 1), Counter(ARCHIVED, 0), TABLE_SEP, FIRST_ROW], [SECTION], [])
  }

  function CloseFirst(): DebtSpec {
    DebtSpec([CloseRow("TD-1", FIRST_ROW, "", "")], CloseRow("", "", "", ""), [])
  }

  /** The update is accepted and counts one closed row, and the id is in no file any more: it was open and is unused. */
  lemma {:induction false} RowWithoutTableIsLost()
    ensures UpdateDebt(NewSeries(), CloseFirst(), 1).Ok?
    ensures var after := UpdateDebt(NewSeries(), CloseFirst(), 1).value;
            && StatusOf(NewSeries(), "TD-1") == Open && StatusOf(after.registry, "TD-1") == Unused
            && after.archived == 1
  {
    hide *;
    var reg, spec := NewSeries(), CloseFirst();
    var closes := [CloseRow("TD-1", FIRST_ROW, "", "")];
    Parts();
    FirstCloses(closes);
    CountersStand();
    FirstIsOpen();
    FirstUpdate(closes);
    SectionIsBare();
    Silent(reg);
    ClosedRowStandsIff(reg, spec, 1, closes);
    PlaceIs(reg.closed, 1);
  }

  lemma {:induction false} Parts()
    ensures NewSeries() == Registry([Counter(ACTIVE, 1), Counter(ARCHIVED, 0), TABLE_SEP, FIRST_ROW], [SECTION], [])
    ensures CloseFirst().openRows == [] && CountersApart(CloseFirst().openRows)
  {
  }

  lemma {:induction false} Silent(reg: Registry)
    requires Ids(reg.debt) == ["TD-1"] && Ids(reg.closed) == [] && reg.frozen == []
    ensures FindDebtRegistryViolations(reg.debt, reg.closed + reg.frozen) == []
  {
    GateIff(reg.debt, reg.closed + reg.frozen);
    hide Ids, FindDebtRegistryViolations;
    assert reg.closed + reg.frozen == reg.closed;
  }

  lemma {:induction false} FirstCloses(closes: seq<CloseRow>)
    requires closes == [CloseRow("TD-1", FIRST_ROW, "", "")]
    ensures CloseRowsOf(CloseFirst()) == Ok(closes) && IsId("TD-1") && DebtId(FIRST_ROW) == Some("TD-1")
  {
    assert IsId("TD-1") by {
      assert "TD-1"[..3] == "TD-" && "TD-1"[3..] == "1";
    }
    RowOfId(FIRST_ROW, "TD-1");
    assert FIRST_ROW[..8] == "| TD-1 |" == "| " + "TD-1" + " |";
    hide IsId, StartsWith, DebtId;
    assert closes[1..] == [] && CloseError(closes[0]).None?;
    assert FirstCloseError(closes).None?;
    assert CloseFirst().closes == closes && closes + [] == closes;
    assert CloseFirst().single.td == "";
  }

  /** The name of a counter stands once on its line, and the other name does not. */
  lemma {:induction false} CounterLine(name: string, other: string, n: nat)
    requires name in [ACTIVE, ARCHIVED] && other in [ACTIVE, ARCHIVED] && name != other
    ensures NamesOnce(Counter(name, n), name, other)
    ensures CounterValue(Counter(name, n), name) == Some(n) && CounterValue(Counter(name, n), other).None?
  {
    var l, e := Counter(name, n), Persian(Decimal(n));
    CounterNames();
    AnyValueOfPersian(n);
    OnlyDash(name, e);
    forall k | OccursAt(l, name, k) || OccursAt(l, other, k) ensures k == 0 && !OccursAt(l, other, k) {
      DashAt(l, if OccursAt(l, name, k) then name else other, k);
      OtherName(name, other, e + ROWS);
      assert name + (e + ROWS) == l;
    }
    assert OccursAt(l, name, 0) by {
      assert l[0..][..|name|] == name;
    }
    hide *;
    NamesOnceIs(l, name, other);
    ReadDigits(name, e, ROWS, name);
    NoNameNoCounter(l, other);
  }

  lemma {:induction false} OnlyDash(name: string, e: string)
    requires name in [ACTIVE, ARCHIVED] && AllAnyDigits(e)
    ensures forall i :: 0 <= i < |name + e + ROWS| ==> ((name + e + ROWS)[i] == '-' <==> i == 0)
  {
  }

  lemma {:induction false} DashAt(l: Line, name: string, k: int)
    requires IsName(name) && OccursAt(l, name, k)
    ensures 0 <= k < |l| && l[k] == '-'
  {
    assert l[k..][..|name|][0] == l[k];
  }

  lemma {:induction false} OtherName(name: string, other: string, y: string)
    requires name in [ACTIVE, ARCHIVED] && other in [ACTIVE, ARCHIVED] && name != other
    ensures !OccursAt(name + y, other, 0)
  {
    var l := name + y;
    assert l[0..] == l;
    assert ACTIVE[4] != ARCHIVED[4] && |ACTIVE| > 4 && |ARCHIVED| > 4;
    assert l[4] == name[4];
    PrefixFails(l, other, 4);
  }

  lemma {:induction false} NamesOnceIs(l: Line, name: string, other: string)
    requires forall k :: OccursAt(l, name, k) || OccursAt(l, other, k) ==> k == 0 && !OccursAt(l, other, k)
    requires OccursAt(l, name, 0) && IsName(name)
    ensures NamesOnce(l, name, other) && OccursOnce(l, name) && !Occurs(l, other)
  {
    assert l[0..] == l;
    assert l[..|name|][0] == name[0];
    PrefixFails(l, "| ", 0);
  }

  lemma {:induction false} NoNameOn(l: Line, name: string)
    requires name in [ACTIVE, ARCHIVED] && forall i :: 0 < i < |l| ==> l[i - 1] != '-' || l[i] != ' '
    ensures !Occurs(l, name)
  {
    assert |name| > 2 && name[0] == '-' && name[1] == ' ';
    forall k ensures !OccursAt(l, name, k) {
      var i := k + 1;
      assert 0 < i < |l| ==> l[i - 1] != '-' || l[i] != ' ';
      if 0 <= k && i < |l| {
        PrefixFails(l[k..], name, if l[k] != '-' then 0 else 1);
      }
    }
  }

  lemma {:induction false} PrefixFails(l: Line, prefix: string, i: nat)
    requires i < |l| && i < |prefix| && l[i] != prefix[i]
    ensures !StartsWith(l, prefix)
  {
    assert |prefix| <= |l| ==> l[..|prefix|][i] == l[i];
  }

  lemma {:induction false} RowsNameNothing()
    ensures NamesOnce(TABLE_SEP, ACTIVE, ARCHIVED) && NamesOnce(FIRST_ROW, ACTIVE, ARCHIVED)
  {
    NoNameOn(TABLE_SEP, ACTIVE);
    NoNameOn(TABLE_SEP, ARCHIVED);
    NoNameOn(FIRST_ROW, ACTIVE);
    NoNameOn(FIRST_ROW, ARCHIVED);
    hide Occurs;
  }

  lemma {:induction false} CountersStand()
    ensures CountersApart(NewSeries().debt)
    ensures ReadCounter(NewSeries().debt, ACTIVE) == Some(1) && ReadCounter(NewSeries().debt, ARCHIVED) == Some(0)
  {
    hide *;
    CounterNames();
    CounterLine(ACTIVE, ARCHIVED, 1);
    CounterLine(ARCHIVED, ACTIVE, 0);
    NamesOnceSym(Counter(ARCHIVED, 0));
    RowsNameNothing();
    Parts();
    CountersRead(Counter(ACTIVE, 1), Counter(ARCHIVED, 0), TABLE_SEP, FIRST_ROW);
  }

  lemma {:induction false} CountersRead(a: Line, b: Line, c: Line, d: Line)
    requires forall l :: l in [a, b, c, d] ==> NamesOnce(l, ACTIVE, ARCHIVED)
    requires CounterValue(a, ACTIVE) == Some(1) && CounterValue(a, ARCHIVED).None? && CounterValue(b, ARCHIVED) == Some(0)
    ensures CountersApart([a, b, c, d])
    ensures ReadCounter([a, b, c, d], ACTIVE) == Some(1) && ReadCounter([a, b, c, d], ARCHIVED) == Some(0)
  {
    hide NamesOnce, CounterValue, ACTIVE, ARCHIVED;
    var lines := [a, b, c, d];
    assert lines[1..][0] == b;
  }

  lemma {:induction false} CounterIsNoRow(name: string, n: nat)
    requires name in [ACTIVE, ARCHIVED]
    ensures !IsRow(Counter(name, n))
  {
    assert Counter(name, n)[0] == name[0] == '-';
    PrefixFails(Counter(name, n), "| ", 0);
    TableRow(Counter(name, n));
  }

  lemma {:induction false} HeadIsNoRow()
    ensures !IsRow(TABLE_SEP) && TABLE_SEP != EMPTY_ROW
  {
    assert TABLE_SEP[1] == '-';
    PrefixFails(TABLE_SEP, "| ", 1);
    EmptyRowShape();
    hide StartsWith;
    TableRow(TABLE_SEP);
  }

  lemma {:induction false} FirstIsOpen()
    ensures Ids(NewSeries().debt) == ["TD-1"]
    ensures NewTable(NewSeries(), [CloseRow("TD-1", FIRST_ROW, "", "")], []).Ok?
  {
    var closes := [CloseRow("TD-1", FIRST_ROW, "", "")];
    FirstCloses(closes);
    CounterIsNoRow(ACTIVE, 1);
    CounterIsNoRow(ARCHIVED, 0);
    HeadIsNoRow();
    hide *;
    Parts();
    var top, lines := [Counter(ACTIVE, 1), Counter(ARCHIVED, 0), TABLE_SEP], NewSeries().debt;
    assert lines == top + [FIRST_ROW];
    IdsConcat(top, [FIRST_ROW]);
    NoIds(top);
    RowGivesId(lines, FIRST_ROW);
    IdsFirst([FIRST_ROW]);
    NoIds([]);
    FirstClosed(lines, closes, TABLE_SEP);
  }

  lemma {:induction false} FirstClosed(lines: seq<Line>, closes: seq<CloseRow>, sep: Line)
    requires lines == NewSeries().debt && closes == [CloseRow("TD-1", FIRST_ROW, "", "")] && sep == TABLE_SEP
    requires Ids(lines) == ["TD-1"] && IsId("TD-1") && !IsRow(sep) && sep != EMPTY_ROW && sep in lines
    ensures NewTable(NewSeries(), closes, []).Ok?
  {
    hide *;
    NoRowOf(lines, "TD-1");
    SepIsNoRow(sep, "TD-1");
    SepStays(lines, closes, sep);
  }

  lemma {:induction false} SepIsNoRow(sep: Line, td: string)
    requires IsId(td) && !IsRow(sep)
    ensures !StartsRow(sep, td)
  {
    RowOfId(sep, td);
  }

  lemma {:induction false} SepStays(lines: seq<Line>, closes: seq<CloseRow>, sep: Line)
    requires lines == NewSeries().debt && |closes| == 1 && sep == TABLE_SEP && sep != EMPTY_ROW && sep in lines
    requires !StartsRow(sep, closes[0].td) && exists l :: l in lines && StartsRow(l, closes[0].td)
    ensures NewTable(NewSeries(), closes, []).Ok?
  {
    hide StartsRow, NewSeries, KnownIds, TABLE_SEP, EMPTY_ROW, TableWith;
    var left := Filter(lines, (l: Line) => !StartsRow(l, closes[0].td));
    assert CloseAll(left, closes[1..]) == Ok(left);
    assert CloseAll(lines, closes) == Ok(left);
    assert OpenError(KnownIds(NewSeries()), []).None?;
    TableStands(left, sep);
  }

  lemma {:induction false} TableStands(lines: seq<Line>, sep: Line)
    requires sep == TABLE_SEP && sep in lines && sep != EMPTY_ROW
    ensures TableWith(lines, []).Ok?
  {
    hide TABLE_SEP, EMPTY_ROW, Ids, IsRow;
    var bare := Filter(lines, (l: Line) => l != EMPTY_ROW);
    assert sep in bare;
  }

  lemma {:induction false} FirstUpdate(closes: seq<CloseRow>)
    requires closes == [CloseRow("TD-1", FIRST_ROW, "", "")]
    ensures UpdateDebt(NewSeries(), CloseFirst(), 1).Ok? && UpdateDebt(NewSeries(), CloseFirst(), 1).value.archived == 1
  {
    hide *;
    var reg := NewSeries();
    FirstCloses(closes);
    FirstIsOpen();
    CountersStand();
    Parts();
    NoRowsNameNothing();
    GateIff(reg.debt, []);
    assert CloseError(closes[0]).None? by {
      AcceptedRows(CloseFirst(), closes);
    }
    NoIds([]);
    NewTableKeeps(reg, closes, []);
    SectionIsBare();
    SectionFound(closes);
    UpdateIs(reg, CloseFirst(), 1, closes);
  }

  lemma {:induction false} NoRowsNameNothing()
    ensures CountersApart([]) && Distinct(["TD-1"])
  {
  }

  lemma {:induction false} SectionFound(closes: seq<CloseRow>)
    requires closes != [] && IsSection(1, SECTION)
    ensures WithClosed([SECTION], 1, closes).Ok?
  {
    hide IsSection, ClosedTable, InsertAt, SECTION;
    var closed := [SECTION];
    assert SECTION in closed;
  }

  lemma {:induction false} UpdateIs(reg: Registry, spec: DebtSpec, series: nat, closes: seq<CloseRow>)
    requires CloseRowsOf(spec) == Ok(closes) && closes != [] && NewTable(reg, closes, spec.openRows).Ok?
    requires ReadCounter(NewTable(reg, closes, spec.openRows).value, ARCHIVED).Some?
    requires WithClosed(reg.closed, series, closes).Ok?
    ensures UpdateDebt(reg, spec, series).Ok?
    ensures UpdateDebt(reg, spec, series).value.archived
         == ReadCounter(NewTable(reg, closes, spec.openRows).value, ARCHIVED).value + |closes|
  {
    hide NewTable, ReadCounter, WithClosed, SetCounter, Ids, CloseRowsOf;
  }

  lemma {:induction false} SectionIsBare()
    ensures IsSection(1, SECTION) && ClosedTable([SECTION], 1).None?
    ensures Unmentioned([SECTION], "TD-1") && Ids([SECTION]) == []
    ensures Glued([SECTION], |TABLE_SEP|) == SECTION && SECTION != [] && SECTION != "| TD-1 "
  {
    var l := SECTION;
    SectionStarts(l);
    assert |TABLE_SEP| == 42;
    PrefixFails(l, "| ", 0);
    TableRow(l);
    PrefixFails("| TD-1 ", "##", 0);
    hide IsSection, ClosedTable, IsRow, Ids;
    NoIds([l]);
    if Contains(l, Cell("TD-1")) {
      var i :| 0 <= i <= |l| && StartsWith(l[i..], Cell("TD-1"));
      assert l[i..][0] == Cell("TD-1")[0] == '|';
    }
  }

  lemma {:induction false} SectionStarts(l: Line)
    requires l == SECTION
    ensures |l| == 11 && l[0] == '#' && IsSection(1, l) && ClosedTable([l], 1).None? && forall i :: 0 <= i < |l| ==> l[i] != '|'
  {
    assert |Decimal(1)| == 1 && |TABLE_SEP| == 42 && Persian(Decimal(1))[0] != '|';
    assert l[..3] == "## " && l[0] == "## "[0] && l[3..] == SeriesName(1) && StartsWith(l[3..], SeriesName(1));
    assert !EndsTableHead(l);
    assert forall i :: 0 <= i < |l| ==> l[i] != '|';
    hide SeriesName, EndsTableHead, Contains;
  }
}
