/** Which debt rows a release may ask for: exactly when `updateTechDebt` (scripts/release.ts) goes through. */
module DebtAccepts {
  import opened DebtRegistry
  import opened DebtRows
  import opened DebtTheorems
  import opened Seqs
  import opened Texts

  /** The rows a spec closes, of both shapes. */
  function Asked(spec: DebtSpec): seq<CloseRow> { spec.closes + (if spec.single.td != "" then [spec.single] else []) }

  predicate ClosesWell(r: CloseRow) {
    IsId(r.td) && StartsWith(r.archiveRow, "| " + r.td + " |") && (r.knownClass != "" ==> r.testId != "")
  }

  /** Rows of the form asked for, of different ids, all of them open. */
  ghost predicate CanClose(reg: Registry, closes: seq<CloseRow>) {
    && (forall r :: r in closes ==> ClosesWell(r) && StatusOf(reg, r.td) == Open)
    && Distinct(TdsOf(closes))
  }

  /** The last character but white space is a bar. */
  predicate EndsInBar(l: Line) {
    exists k :: 0 <= k < |l| && l[k] == '|' && forall j :: k < j < |l| ==> IsWhite(l[j]) || l[j] == '\n'
  }

  predicate OpensWell(row: Line, id: string) { IsId(id) && StartsWith(row, "| " + id + " |") && EndsInBar(row) }

  /** Rows of the form asked for, of different ids, none of them used before. */
  ghost predicate CanOpen(known: set<string>, rows: seq<Line>) {
    exists ids: seq<string> :: OpenAs(known, rows, ids)
  }

  predicate OpenAs(known: set<string>, rows: seq<Line>, ids: seq<string>) {
    |ids| == |rows| && Distinct(ids) && forall i :: 0 <= i < |ids| ==> OpensWell(rows[i], ids[i]) && ids[i] !in known
  }

  /** What a release may ask of the registry. */
  ghost predicate Fits(reg: Registry, spec: DebtSpec) {
    && (spec.single.td == "" ==> spec.single.knownClass == "")
    && CanClose(reg, Asked(spec))
    && CanOpen((set id | id in Ids(reg.debt + reg.closed + reg.frozen)), spec.openRows)
    && (Asked(spec) != [] || spec.openRows != [] ==> TABLE_SEP in reg.debt)
  }

  // ---------------------------------------------------------------------------------------------
  // The rows to close

  lemma {:induction false} CloseErrorIff(r: CloseRow)
    ensures CloseError(r).None? <==> ClosesWell(r)
  {
    hide IsId, StartsWith;
  }

  lemma {:induction false} NoCloseErrorIff(rows: seq<CloseRow>)
    ensures FirstCloseError(rows).None? <==> forall r :: r in rows ==> ClosesWell(r)
  {
    hide CloseError, ClosesWell;
    if rows != [] {
      NoCloseErrorIff(rows[1..]);
      CloseErrorIff(rows[0]);
      assert forall r :: r in rows <==> r == rows[0] || r in rows[1..];
    }
  }

  lemma {:induction false} CloseRowsIff(spec: DebtSpec)
    ensures CloseRowsOf(spec).Ok? <==> (spec.single.td == "" ==> spec.single.knownClass == "") && forall r :: r in Asked(spec) ==> ClosesWell(r)
    ensures CloseRowsOf(spec).Ok? ==> CloseRowsOf(spec).value == Asked(spec)
  {
    NoCloseErrorIff(Asked(spec));
    if spec.single.td != "" {
      assert spec.single in Asked(spec);
    }
    hide FirstCloseError, IsId;
  }

  /** Rows of different ids that are all there can be taken out one after the other. */
  lemma {:induction false} CloseAllIff(lines: seq<Line>, closes: seq<CloseRow>)
    requires forall r :: r in closes ==> IsId(r.td)
    ensures CloseAll(lines, closes).Ok? <==> Distinct(TdsOf(closes)) && forall r :: r in closes ==> r.td in Ids(lines)
    decreases |closes|
  {
    hide *;
    if closes == [] {
      NothingToClose(lines);
    } else {
      var td, rest := closes[0].td, closes[1..];
      var left := Filter(lines, (l: Line) => !StartsRow(l, td));
      CloseFirst(lines, closes, td, left);
      NoRowOf(lines, td);
      IdsOfClosed(lines, td);
      CloseAllIff(left, rest);
      assert forall r :: r in closes <==> r == closes[0] || r in rest;
      assert forall id :: id in Ids(left) <==> id in Ids(lines) && id != td;
      TdsFirst(closes);
      TdsIn(rest);
    }
  }

  lemma {:induction false} NothingToClose(lines: seq<Line>)
    ensures CloseAll(lines, []).Ok? && Distinct(TdsOf([]))
  {
  }

  lemma {:induction false} CloseFirst(lines: seq<Line>, closes: seq<CloseRow>, td: string, left: seq<Line>)
    requires closes != [] && td == closes[0].td && left == Filter(lines, (l: Line) => !StartsRow(l, td))
    ensures CloseAll(lines, closes).Ok? <==> !(forall l :: l in lines ==> !StartsRow(l, td)) && CloseAll(left, closes[1..]).Ok?
  {
    hide StartsRow;
    FilterAgree(lines, (l: Line) => !StartsRow(l, td), (l: Line) => !StartsRow(l, closes[0].td));
  }

  lemma {:induction false} TdsFirst(closes: seq<CloseRow>)
    requires closes != []
    ensures Distinct(TdsOf(closes)) <==> closes[0].td !in TdsOf(closes[1..]) && Distinct(TdsOf(closes[1..]))
  {
    assert TdsOf(closes) == [closes[0].td] + TdsOf(closes[1..]);
    DistinctConcat([closes[0].td], TdsOf(closes[1..]));
  }

  lemma {:induction false} TdsIn(rows: seq<CloseRow>)
    ensures forall td :: td in TdsOf(rows) <==> exists r :: r in rows && r.td == td
  {
    forall r | r in rows ensures r.td in TdsOf(rows) {
      var i :| 0 <= i < |rows| && rows[i] == r;
      assert TdsOf(rows)[i] == r.td;
    }
  }

  // ---------------------------------------------------------------------------------------------
  // The new rows

  lemma {:induction false} EndsRowIff(l: Line)
    ensures EndsRow(l) <==> EndsInBar(l)
    decreases |l|
  {
    if l != [] {
      EndsRowIff(l[..|l| - 1]);
      EndsInBarNext(l);
      hide EndsInBar, IsWhite;
    }
  }

  lemma {:induction false} EndsInBarNext(l: Line)
    requires l != []
    ensures var n := |l| - 1;
            EndsInBar(l) <==> l[n] == '|' || ((IsWhite(l[n]) || l[n] == '\n') && EndsInBar(l[..n]))
  {
    var n := |l| - 1;
    var front := l[..n];
    hide IsWhite;
    assert forall k :: 0 <= k < n ==> front[k] == l[k];
    if EndsInBar(front) && (IsWhite(l[n]) || l[n] == '\n') {
      var k :| 0 <= k < |front| && front[k] == '|' && forall j :: k < j < |front| ==> IsWhite(front[j]) || front[j] == '\n';
      assert l[k] == '|';
    }
    if EndsInBar(l) && l[n] != '|' {
      var k :| 0 <= k < |l| && l[k] == '|' && forall j :: k < j < |l| ==> IsWhite(l[j]) || l[j] == '\n';
      assert front[k] == '|';
    }
  }

  lemma {:induction false} DebtIdIsId(l: Line)
    requires DebtId(l).Some?
    ensures IsId(DebtId(l).value)
  {
    var id := DebtId(l).value;
    assert id[..3] == l[2..5] == l[..5][2..5];
    assert forall k :: 0 <= k < |id| - 3 ==> id[3..][k] == l[5 + k];
  }

  lemma {:induction false} OpensIff(row: Line)
    ensures DebtId(row).Some? && EndsRow(row) <==> exists id :: OpensWell(row, id)
    ensures forall id :: OpensWell(row, id) ==> DebtId(row) == Some(id)
  {
    EndsRowIff(row);
    forall id | IsId(id) ensures StartsWith(row, "| " + id + " |") <==> DebtId(row) == Some(id) {
      RowOfId(row, id);
    }
    if DebtId(row).Some? {
      DebtIdIsId(row);
      hide IsId, StartsWith, EndsRow, EndsInBar, DebtId;
      assert EndsRow(row) ==> OpensWell(row, DebtId(row).value);
    }
  }

  lemma {:induction false} OpenAsRest(known: set<string>, rows: seq<Line>, ids: seq<string>)
    requires rows != [] && OpenAs(known, rows, ids)
    ensures |ids| == |rows| && OpensWell(rows[0], ids[0]) && ids[0] !in known && OpenAs(known + {ids[0]}, rows[1..], ids[1..])
  {
    hide OpensWell;
    var id, rest := ids[0], ids[1..];
    assert ids == [id] + rest;
    DistinctConcat([id], rest);
    forall i | 0 <= i < |rest| ensures OpensWell(rows[1..][i], rest[i]) && rest[i] !in known + {id} {
      assert rest[i] in rest && rest[i] == ids[i + 1] && rows[1..][i] == rows[i + 1];
    }
  }

  lemma {:induction false} OpenAsMore(known: set<string>, rows: seq<Line>, id: string, rest: seq<string>)
    requires rows != [] && OpensWell(rows[0], id) && id !in known && OpenAs(known + {id}, rows[1..], rest)
    ensures OpenAs(known, rows, [id] + rest)
  {
    hide OpensWell;
    var ids := [id] + rest;
    forall x | x in rest ensures x != id {
      var i :| 0 <= i < |rest| && rest[i] == x;
    }
    DistinctConcat([id], rest);
    forall i | 0 <= i < |ids| ensures OpensWell(rows[i], ids[i]) && ids[i] !in known {
      if i > 0 {
        assert rows[i] == rows[1..][i - 1] && ids[i] == rest[i - 1];
      }
    }
  }

  lemma {:induction false} CanOpenFirst(known: set<string>, rows: seq<Line>, id: string)
    requires rows != [] && OpensWell(rows[0], id)
    ensures CanOpen(known, rows) <==> id !in known && CanOpen(known + {id}, rows[1..])
  {
    OpensIff(rows[0]);
    hide OpensWell, OpenAs;
    if CanOpen(known, rows) {
      var ids :| OpenAs(known, rows, ids);
      OpenAsRest(known, rows, ids);
    }
    if id !in known && CanOpen(known + {id}, rows[1..]) {
      var rest :| OpenAs(known + {id}, rows[1..], rest);
      OpenAsMore(known, rows, id, rest);
    }
  }

  lemma {:induction false} CanOpenNothing(known: set<string>)
    ensures CanOpen(known, [])
  {
    assert OpenAs(known, [], []);
  }

  lemma {:induction false} OpenErrorIff(known: set<string>, rows: seq<Line>)
    ensures OpenError(known, rows).None? <==> CanOpen(known, rows)
    decreases |rows|
  {
    if rows == [] {
      CanOpenNothing(known);
    } else {
      OpensIff(rows[0]);
      hide OpensWell, EndsRow, DebtId, OpenAs;
      if DebtId(rows[0]).Some? && EndsRow(rows[0]) {
        var id :| OpensWell(rows[0], id);
        OpenErrorIff(known + {id}, rows[1..]);
        CanOpenFirst(known, rows, id);
      } else {
        forall ids ensures !OpenAs(known, rows, ids) {
          FirstOpens(known, rows, ids);
        }
      }
    }
  }

  lemma {:induction false} FirstOpens(known: set<string>, rows: seq<Line>, ids: seq<string>)
    requires rows != []
    ensures OpenAs(known, rows, ids) ==> exists id :: OpensWell(rows[0], id)
  {
    hide OpensWell;
    if OpenAs(known, rows, ids) {
      OpenAsRest(known, rows, ids);
    }
  }

  // ---------------------------------------------------------------------------------------------
  // The table

  lemma {:induction false} CloseAllKeeps(lines: seq<Line>, closes: seq<CloseRow>, l: Line)
    requires CloseAll(lines, closes).Ok? && !StartsWith(l, "| ")
    ensures l in CloseAll(lines, closes).value <==> l in lines
    decreases |closes|
  {
    if closes != [] {
      var left := Filter(lines, (x: Line) => !StartsRow(x, closes[0].td));
      NotARow(l, closes[0].td);
      hide StartsRow;
      CloseAllKeeps(left, closes[1..], l);
    }
  }

  lemma {:induction false} NotARow(l: Line, td: string)
    ensures StartsRow(l, td) ==> StartsWith(l, "| ")
  {
    var cell := "| " + td + " |";
    assert cell[..2] == "| ";
    assert StartsRow(l, td) ==> l[..2] == l[..|cell|][..2];
  }

  lemma {:induction false} TableIff(lines: seq<Line>, rows: seq<Line>)
    ensures TableWith(lines, rows).Ok? <==> TABLE_SEP in lines
    ensures TableWith(lines, rows).Ok? ==> forall l :: l in lines && !StartsWith(l, "| ") ==> l in TableWith(lines, rows).value
  {
    SepAndEmpty();
    TableFound(lines, rows);
    if TableWith(lines, rows).Ok? {
      var h, at := TableParts(lines, rows);
      hide TableWith, Ids, StartsWith;
      var bare := Filter(lines, (l: Line) => l != EMPTY_ROW);
      var full := bare[..at] + rows + bare[at..];
      forall l | l in lines && !StartsWith(l, "| ") ensures l in full && l in full[..h + 1] + [EMPTY_ROW] + full[h + 1..] {
        assert l in bare;
        StaysIn(bare, at, rows, l);
        StaysIn(full, h + 1, [EMPTY_ROW], l);
      }
    }
  }

  lemma {:induction false} StaysIn(lines: seq<Line>, at: nat, rows: seq<Line>, l: Line)
    requires at <= |lines| && l in lines
    ensures l in lines[..at] + rows + lines[at..]
  {
    assert lines == lines[..at] + lines[at..];
  }

  lemma {:induction false} TableFound(lines: seq<Line>, rows: seq<Line>)
    requires TABLE_SEP != EMPTY_ROW
    ensures TableWith(lines, rows).Ok? <==> TABLE_SEP in lines
  {
    hide Ids, IsRow;
    var bare := Filter(lines, (l: Line) => l != EMPTY_ROW);
    var header := FindFrom(bare, (l: Line) => l == TABLE_SEP, 0);
    assert TABLE_SEP in bare <==> TABLE_SEP in lines;
    assert header < |bare| ==> bare[header] in bare;
  }

  lemma {:induction false} SepAndEmpty()
    ensures TABLE_SEP != EMPTY_ROW && !StartsWith(TABLE_SEP, "| ") && StartsWith(EMPTY_ROW, "| ")
  {
    assert TABLE_SEP[1] == '-' && EMPTY_ROW[1] == ' ';
    EmptyRowShape();
    assert TABLE_SEP[..2][1] == TABLE_SEP[1];
  }

  lemma {:induction false} CounterRead(lines: seq<Line>, name: string)
    ensures ReadCounter(lines, name).Some? <==> exists l :: l in lines && CounterValue(l, name).Some?
  {
    hide CounterValue;
    if lines != [] {
      CounterRead(lines[1..], name);
      assert forall l :: l in lines <==> l == lines[0] || l in lines[1..];
    }
  }

  lemma {:induction false} NewTableIff(reg: Registry, closes: seq<CloseRow>, openRows: seq<Line>)
    requires forall r :: r in closes ==> IsId(r.td)
    requires CountersApart(reg.debt) && ReadCounter(reg.debt, ARCHIVED).Some?
    ensures NewTable(reg, closes, openRows).Ok?
       <==> && Distinct(TdsOf(closes)) && (forall r :: r in closes ==> r.td in Ids(reg.debt))
            && CanOpen(KnownIds(reg), openRows) && TABLE_SEP in reg.debt
    ensures NewTable(reg, closes, openRows).Ok? ==> ReadCounter(NewTable(reg, closes, openRows).value, ARCHIVED).Some?
  {
    hide *;
    CloseAllIff(reg.debt, closes);
    OpenErrorIff(KnownIds(reg), openRows);
    NewTableIs(reg, closes, openRows);
    SepAndEmpty();
    if CloseAll(reg.debt, closes).Ok? {
      var left := CloseAll(reg.debt, closes).value;
      CloseAllKeeps(reg.debt, closes, TABLE_SEP);
      TableIff(left, openRows);
      CounterRead(reg.debt, ARCHIVED);
      var l :| l in reg.debt && CounterValue(l, ARCHIVED).Some?;
      CounterLine(reg.debt, l);
      CloseAllKeeps(reg.debt, closes, l);
      if NewTable(reg, closes, openRows).Ok? {
        CounterRead(NewTable(reg, closes, openRows).value, ARCHIVED);
      }
    }
  }

  lemma {:induction false} CounterLine(lines: seq<Line>, l: Line)
    requires CountersApart(lines) && l in lines && CounterValue(l, ARCHIVED).Some?
    ensures !StartsWith(l, "| ")
  {
    hide NamesOnce, CounterValue, StartsWith;
    if StartsWith(l, "| ") {
      RowReadsNothing(l);
    }
  }

  lemma {:induction false} NewTableIs(reg: Registry, closes: seq<CloseRow>, openRows: seq<Line>)
    ensures NewTable(reg, closes, openRows).Ok?
       <==> && CloseAll(reg.debt, closes).Ok? && OpenError(KnownIds(reg), openRows).None?
            && TableWith(CloseAll(reg.debt, closes).value, openRows).Ok?
    ensures NewTable(reg, closes, openRows).Ok? ==>
              NewTable(reg, closes, openRows) == TableWith(CloseAll(reg.debt, closes).value, openRows)
  {
    hide CloseAll, OpenError, TableWith, KnownIds;
  }

  // ---------------------------------------------------------------------------------------------
  // The update

  lemma {:induction false} UpdateIff(reg: Registry, spec: DebtSpec, series: nat)
    ensures UpdateDebt(reg, spec, series).Ok?
       <==> && CloseRowsOf(spec).Ok?
            && var closes := CloseRowsOf(spec).value;
               (closes != [] || spec.openRows != [] ==>
                  && NewTable(reg, closes, spec.openRows).Ok?
                  && ReadCounter(NewTable(reg, closes, spec.openRows).value, ARCHIVED).Some?
                  && WithClosed(reg.closed, series, closes).Ok?)
  {
    hide CloseRowsOf, NewTable, ReadCounter, WithClosed, SetCounter, Ids;
  }

  lemma {:induction false} SectionIsThere(closed: seq<Line>, series: nat, closes: seq<CloseRow>)
    requires ClosedTable(closed, series).Some?
    ensures WithClosed(closed, series, closes).Ok?
  {
    hide IsSection, EndsTableHead, InsertAt;
  }

  /** A consistent registry takes exactly the updates that close open rows and open unused ones, in rows of the right form. */
  lemma {:induction false} UpdateAcceptsIff(reg: Registry, spec: DebtSpec, series: nat)
    requires Consistent(reg, series)
    ensures UpdateDebt(reg, spec, series).Ok? <==> Fits(reg, spec)
  {
    hide *;
    var closes := Asked(spec);
    ConsistentParts(reg, series);
    CloseRowsIff(spec);
    UpdateIff(reg, spec, series);
    SectionIsThere(reg.closed, series, closes);
    FitsIs(reg, spec);
    ClosesAreIds(closes);
    KnownIs(reg);
    if forall r :: r in closes ==> ClosesWell(r) {
      NewTableIff(reg, closes, spec.openRows);
    }
    CanOpenNothing(KnownIds(reg));
    NothingCloses(reg);
  }

  lemma {:induction false} ClosesAreIds(closes: seq<CloseRow>)
    ensures (forall r :: r in closes ==> ClosesWell(r)) ==> forall r :: r in closes ==> IsId(r.td)
  {
    hide IsId, StartsWith;
  }

  lemma {:induction false} KnownIs(reg: Registry)
    ensures KnownIds(reg) == set id | id in Ids(reg.debt + reg.closed + reg.frozen)
  {
  }

  lemma {:induction false} FitsIs(reg: Registry, spec: DebtSpec)
    ensures var closes := Asked(spec);
            Fits(reg, spec)
            <==> && (spec.single.td == "" ==> spec.single.knownClass == "")
                 && (forall r :: r in closes ==> ClosesWell(r)) && (forall r :: r in closes ==> r.td in Ids(reg.debt))
                 && Distinct(TdsOf(closes))
                 && CanOpen((set id | id in Ids(reg.debt + reg.closed + reg.frozen)), spec.openRows)
                 && (closes != [] || spec.openRows != [] ==> TABLE_SEP in reg.debt)
  {
    hide Asked, ClosesWell, CanOpen, Ids;
  }

  lemma {:induction false} NothingCloses(reg: Registry)
    ensures Distinct(TdsOf([]))
  {
  }
}
