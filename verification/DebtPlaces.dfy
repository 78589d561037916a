/** Which lines of the debt files an update changes and where its rows go: `updateTechDebt` (scripts/release.ts). */
module DebtPlaces {
  import A = DebtAccepts
  import opened DebtRegistry
  import opened DebtRows
  import opened DebtTheorems
  import opened Decimals
  import opened Seqs
  import opened Texts

  // ---------------------------------------------------------------------------------------------
  // TECH_DEBT.md

  predicate IsClosed(closes: seq<CloseRow>, l: Line) { exists r :: r in closes && StartsWith(l, "| " + r.td + " |") }

  /** The lines without the rows that close and without the placeholder. */
  function Left(debt: seq<Line>, closes: seq<CloseRow>): seq<Line> {
    Filter(debt, (l: Line) => l != "| — | — | هیچ قلم فعالی نیست | — | — |" && !IsClosed(closes, l))
  }

  /** The first table head is on line `h`, and the rows under it end before line `at`. */
  predicate TableAt(lines: seq<Line>, h: int, at: int) {
    && 0 <= h < at <= |lines|
    && lines[h] == "|----|------|-----|--------------|-------|"
    && (forall i :: 0 <= i < h ==> lines[i] != "|----|------|-----|--------------|-------|")
    && (forall i :: h < i < at ==> IsRow(lines[i])) && (at < |lines| ==> !IsRow(lines[at]))
  }

  /** The new rows under those of the table; the placeholder in a file without a row. */
  function Opened(lines: seq<Line>, h: nat, at: nat, rows: seq<Line>): seq<Line>
    requires h < at <= |lines|
  {
    if (exists l :: l in lines + rows && IsRow(l)) then lines[..at] + rows + lines[at..]
    else lines[..h + 1] + ["| — | — | هیچ قلم فعالی نیست | — | — |"] + lines[h + 1..]
  }

  predicate NamesCounter(l: Line) { Contains(l, "- **فعال:** ") || Contains(l, "- **آرشیو شده (resolved):** ") }

  /** Line by line the same, but for the lines that name a counter. */
  predicate SameButCounters(a: seq<Line>, b: seq<Line>) {
    |a| == |b| && forall i :: 0 <= i < |a| && !NamesCounter(a[i]) ==> b[i] == a[i]
  }

  lemma {:induction false} CloseAllIs(lines: seq<Line>, closes: seq<CloseRow>)
    requires CloseAll(lines, closes).Ok?
    ensures CloseAll(lines, closes).value == Filter(lines, (l: Line) => !IsClosed(closes, l))
    decreases |closes|
  {
    hide StartsWith;
    if closes == [] {
      FilterAll(lines, (l: Line) => !IsClosed(closes, l));
    } else {
      var rest := closes[1..];
      var p := (l: Line) => !StartsRow(l, closes[0].td);
      var q := (l: Line) => !IsClosed(rest, l);
      var both := (l: Line) => !IsClosed(closes, l);
      CloseAllIs(Filter(lines, p), rest);
      forall l ensures both(l) <==> p(l) && q(l) {
        assert forall r :: r in closes <==> r == closes[0] || r in rest;
      }
      FilterAgree(Filter(lines, p), q, both);
      FilterFilter(lines, p, both);
    }
  }

  lemma {:induction false} BareIs(lines: seq<Line>, closes: seq<CloseRow>)
    requires CloseAll(lines, closes).Ok?
    ensures Filter(CloseAll(lines, closes).value, (l: Line) => l != EMPTY_ROW) == Left(lines, closes)
  {
    CloseAllIs(lines, closes);
    hide IsClosed, CloseAll;
    var p := (l: Line) => !IsClosed(closes, l);
    var q := (l: Line) => l != EMPTY_ROW;
    var both := (l: Line) => l != "| — | — | هیچ قلم فعالی نیست | — | — |" && !IsClosed(closes, l);
    FilterAgree(Filter(lines, p), q, both);
    FilterFilter(lines, p, both);
  }

  lemma {:induction false} NoRowsIff(lines: seq<Line>)
    ensures Ids(lines) == [] <==> forall l :: l in lines ==> !IsRow(l)
  {
    if Ids(lines) != [] {
      assert Ids(lines)[0] in Ids(lines);
    }
  }

  lemma {:induction false} TableIs(bare: seq<Line>, left: seq<Line>, openRows: seq<Line>, h: int, at: int)
    requires bare == Filter(left, (l: Line) => l != EMPTY_ROW) && TableAt(bare, h, at) && forall l :: l in openRows ==> IsRow(l)
    ensures 0 <= h < at <= |bare|
    ensures TableWith(left, openRows) == Ok(Opened(bare, h, at, openRows))
  {
    hide IsRow, Ids;
    FindFromIs(bare, (l: Line) => l == TABLE_SEP, 0, h);
    FindFromIs(bare, NotRow, h + 1, at);
    assert TableWith(left, openRows) == Ok(Spliced(bare, h, at, openRows));
    OpenedIs(bare, h, at, openRows);
  }

  function Spliced(bare: seq<Line>, h: nat, at: nat, openRows: seq<Line>): seq<Line>
    requires h < at <= |bare|
  {
    var full := bare[..at] + openRows + bare[at..];
    if Ids(full) == [] then full[..h + 1] + [EMPTY_ROW] + full[h + 1..] else full
  }

  lemma {:induction false} OpenedIs(bare: seq<Line>, h: nat, at: nat, openRows: seq<Line>)
    requires h < at <= |bare| && forall l :: l in openRows ==> IsRow(l)
    ensures Spliced(bare, h, at, openRows) == Opened(bare, h, at, openRows)
  {
    hide IsRow, Ids;
    var full := bare[..at] + openRows + bare[at..];
    NoRowsIff(full);
    assert bare == bare[..at] + bare[at..];
    assert forall l :: l in full <==> l in bare + openRows;
    if openRows == [] {
      assert full == bare;
    } else {
      assert openRows[0] in bare + openRows;
    }
  }

  lemma {:induction false} SetKeeps(lines: seq<Line>, name: string, n: nat)
    requires name == ACTIVE || name == ARCHIVED
    ensures |SetCounter(lines, name, n)| == |lines|
    ensures forall i :: 0 <= i < |lines| && !Contains(lines[i], name) ==> SetCounter(lines, name, n)[i] == lines[i]
  {
    hide CounterValue, SetOnLine, Contains;
    if lines != [] {
      SetKeeps(lines[1..], name, n);
      NameIsThere(lines[0], name);
    }
  }

  lemma {:induction false} NameIsThere(l: Line, name: string)
    ensures CounterValue(l, name).Some? ==> Contains(l, name)
  {
    hide DigitsAt, StartsWith;
    var p := CounterFrom(l, name, 0);
    assert p.Some? ==> StartsWith(l[p.value..], name);
  }

  lemma {:induction false} CountersKeep(lines: seq<Line>, active: nat, archived: nat)
    ensures SameButCounters(lines, SetCounter(SetCounter(lines, ACTIVE, active), ARCHIVED, archived))
  {
    hide Contains, SetCounter;
    SetKeeps(lines, ACTIVE, active);
    SetKeeps(SetCounter(lines, ACTIVE, active), ARCHIVED, archived);
  }

  lemma {:induction false} OpensAreRows(known: set<string>, rows: seq<Line>)
    requires OpenError(known, rows).None?
    ensures forall l :: l in rows ==> IsRow(l)
    decreases |rows|
  {
    hide DebtId, EndsRow;
    if rows != [] {
      OpensAreRows(known + {DebtId(rows[0]).value}, rows[1..]);
      assert rows == [rows[0]] + rows[1..];
    }
  }

  lemma {:induction false} CloseRowsAre(spec: DebtSpec)
    requires CloseRowsOf(spec).Ok?
    ensures CloseRowsOf(spec).value == A.Asked(spec)
  {
    hide FirstCloseError;
  }

  lemma {:induction false} UpdateIsOk(reg: Registry, spec: DebtSpec, series: nat)
    requires UpdateDebt(reg, spec, series).Ok?
    ensures CloseRowsOf(spec).Ok?
  {
    hide CloseRowsOf, NewTable, ReadCounter, WithClosed, SetCounter, Ids;
  }

  /**
   * Of TECH_DEBT.md an accepted update takes the rows it closes, and the placeholder; it puts its new rows, in order, under
   * the table's own, and the placeholder back into a file without a row. Every other line stays, but for the counters.
   */
  lemma {:induction false} DebtLinesAre(reg: Registry, spec: DebtSpec, series: nat, h: int, at: int)
    requires UpdateDebt(reg, spec, series).Ok? && (A.Asked(spec) != [] || spec.openRows != [])
    requires TableAt(Left(reg.debt, A.Asked(spec)), h, at)
    ensures 0 <= h < at <= |Left(reg.debt, A.Asked(spec))|
    ensures SameButCounters(Opened(Left(reg.debt, A.Asked(spec)), h, at, spec.openRows), UpdateDebt(reg, spec, series).value.registry.debt)
  {
    hide *;
    UpdateIsOk(reg, spec, series);
    CloseRowsAre(spec);
    var closes := A.Asked(spec);
    var lines := UpdateParts(reg, spec, series, closes);
    var left := TableSteps(reg, closes, spec.openRows);
    OpensAreRows(KnownIds(reg), spec.openRows);
    BareIs(reg.debt, closes);
    TableIs(Left(reg.debt, closes), left, spec.openRows, h, at);
    CountersKeep(lines, |Ids(lines)|, ReadCounter(lines, ARCHIVED).value + |closes|);
  }

  // ---------------------------------------------------------------------------------------------
  // The closed rows

  /** `## … نسخه N — …`: the heading of the series' closed rows. */
  predicate NamesSeries(l: Line, series: nat) {
    StartsWith(l, "## ") && Contains(l, "نسخه " + Persian(Decimal(series)) + " —")
  }

  /**
   * Line `k` is the first heading of the series, and no line above it quotes it; line `t` is the first from there that ends
   * with a table head, and not the last of the file.
   */
  predicate PlaceAt(closed: seq<Line>, series: nat, k: int, t: int) {
    && 0 <= k <= t && t + 1 < |closed|
    && NamesSeries(closed[k], series) && (forall i :: 0 <= i < k ==> !NamesSeries(closed[i], series) && !Contains(closed[i], closed[k]))
    && EndsWith(closed[t], "|----|------|-----|--------------|-------|")
    && (forall i :: k <= i < t ==> !EndsWith(closed[i], "|----|------|-----|--------------|-------|"))
  }

  lemma {:induction false} PlaceIs(closed: seq<Line>, series: nat, k: int, t: int)
    requires PlaceAt(closed, series, k, t)
    ensures 0 <= t && t + 1 < |closed| && ClosedTable(closed, series) == Some(t)
    ensures IsSection(series, closed[k]) && closed[k] in closed
  {
    assert forall l :: IsSection(series, l) <==> NamesSeries(l, series);
    assert forall l :: EndsTableHead(l) <==> EndsWith(l, "|----|------|-----|--------------|-------|");
    SelfContained(closed[k]);
    hide IsSection, NamesSeries, EndsTableHead, EndsWith, Contains;
    FindFromIs(closed, (l: Line) => IsSection(series, l), 0, k);
    FindFromIs(closed, (l: Line) => Contains(l, closed[k]), 0, k);
    FindFromIs(closed, EndsTableHead, k, t);
  }

  /** The archive rows go right under the table head of the series' section, in the order they were named; nothing else changes. */
  lemma {:induction false} ClosedLinesAre(reg: Registry, spec: DebtSpec, series: nat, k: int, t: int)
    requires UpdateDebt(reg, spec, series).Ok? && PlaceAt(reg.closed, series, k, t)
    ensures 0 <= t && t + 1 < |reg.closed|
    ensures var after := UpdateDebt(reg, spec, series).value.registry;
            && after.frozen == reg.frozen
            && after.closed == reg.closed[..t + 1] + Map(A.Asked(spec), (r: CloseRow) => r.archiveRow) + reg.closed[t + 1..]
  {
    hide *;
    UpdateIsOk(reg, spec, series);
    CloseRowsAre(spec);
    PlaceIs(reg.closed, series, k, t);
    var closes := A.Asked(spec);
    if closes == [] && spec.openRows == [] {
      NothingAsked(reg, spec, series);
      NothingMapped(reg.closed, t + 1);
    } else {
      var lines := UpdateParts(reg, spec, series, closes);
      PutUnder(reg.closed, series, closes, t);
    }
  }

  lemma {:induction false} NothingAsked(reg: Registry, spec: DebtSpec, series: nat)
    requires CloseRowsOf(spec) == Ok([]) && spec.openRows == []
    ensures UpdateDebt(reg, spec, series).value.registry == reg
  {
    hide CloseRowsOf, ReadCounter, Ids;
  }

  lemma {:induction false} NothingMapped(closed: seq<Line>, n: nat)
    requires n <= |closed|
    ensures closed == closed[..n] + Map([], (r: CloseRow) => r.archiveRow) + closed[n..]
  {
  }

  lemma {:induction false} PutUnder(closed: seq<Line>, series: nat, closes: seq<CloseRow>, t: nat)
    requires ClosedTable(closed, series) == Some(t) && exists l :: l in closed && IsSection(series, l)
    ensures t + 1 < |closed|
    ensures WithClosed(closed, series, closes)
         == Ok(closed[..t + 1] + Map(closes, (r: CloseRow) => r.archiveRow) + closed[t + 1..])
  {
    hide ClosedTable, IsSection;
    if closes == [] {
      NothingMapped(closed, t + 1);
    }
  }
}
