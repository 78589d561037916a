/**
 * The debt registry: `closeRowsOf` and `updateTechDebt` (scripts/release.ts), the gate `findDebtRegistryViolations`
 * (scripts/governance/releaseGuards.ts), and `dropArchivedDebtRows` with its recount (scripts/renumber/plan.ts).
 */
module DebtRegistry {
  import opened DebtRows
  import opened Decimals
  import opened Seqs
  import opened Texts

  // ---------------------------------------------------------------------------------------------
  // Counters

  const ACTIVE := "- **فعال:** "
  const ARCHIVED := "- **آرشیو شده (resolved):** "
  const ROWS := " ردیف"

  /** The digits after `name` at `i`, when ` ردیف` follows them. */
  function DigitsAt(l: Line, name: string, i: nat): (n: nat)
    requires i <= |l|
    ensures n > 0 ==> i + |name| + n + |ROWS| <= |l| && AllAnyDigits(l[i + |name|..i + |name| + n])
    ensures n > 0 ==> StartsWith(l[i..], name) && StartsWith(l[i + |name| + n..], ROWS)
  {
    if !StartsWith(l[i..], name) then 0
    else
      var n := Run(l, IsAnyDigit, i + |name|);
      var digits := l[i + |name|..i + |name| + n];
      assert forall k :: 0 <= k < n ==> digits[k] == l[i + |name| + k];
      if StartsWith(l[i + |name| + n..], ROWS) then n else 0
  }

  /** Where the first counter with this name is on the line. */
  function CounterFrom(l: Line, name: string, i: nat): (p: Option<nat>)
    requires i <= |l|
    ensures p.Some? ==> i <= p.value <= |l| && DigitsAt(l, name, p.value) > 0
    ensures forall k :: i <= k < (if p.Some? then p.value else |l| + 1) ==> DigitsAt(l, name, k) == 0
    decreases |l| - i
  {
    if DigitsAt(l, name, i) > 0 then Some(i)
    else if i == |l| then None
    else CounterFrom(l, name, i + 1)
  }

  function CounterValue(l: Line, name: string): Option<nat> {
    match CounterFrom(l, name, 0)
    case None => None
    case Some(p) => Some(AnyValue(l[p + |name|..p + |name| + DigitsAt(l, name, p)]))
  }

  function SetOnLine(l: Line, name: string, n: nat): Line {
    match CounterFrom(l, name, 0)
    case None => l
    case Some(p) => l[..p + |name|] + Persian(Decimal(n)) + l[p + |name| + DigitsAt(l, name, p)..]
  }

  /** The value of the first counter with this name in the file. */
  function ReadCounter(lines: seq<Line>, name: string): Option<nat> {
    if lines == [] then None
    else if CounterValue(lines[0], name).Some? then CounterValue(lines[0], name)
    else ReadCounter(lines[1..], name)
  }

  /** `s.replace(/name[۰-۹0-9]+ ردیف/, …)`: the first counter, or nothing. */
  function SetCounter(lines: seq<Line>, name: string, n: nat): (r: seq<Line>)
    ensures |r| == |lines|
  {
    if lines == [] then []
    else if CounterValue(lines[0], name).Some? then [SetOnLine(lines[0], name, n)] + lines[1..]
    else [lines[0]] + SetCounter(lines[1..], name, n)
  }

  // ---------------------------------------------------------------------------------------------
  // What a release asks for

  datatype CloseRow = CloseRow(td: string, archiveRow: Line, knownClass: string, testId: string)

  /** `single`: the fields `td`, `archiveRow`, `knownClass` and `testId`; an absent text is the empty one. */
  datatype DebtSpec = DebtSpec(closes: seq<CloseRow>, single: CloseRow, openRows: seq<Line>)

  datatype DebtError =
    | ArchiveRowRequired | KnownClassNeedsTd
    | InvalidId(id: string) | ArchiveRowMismatch(id: string) | TestIdRequired(id: string)
    | NotActive(id: string) | MalformedRow(row: Line) | IdInUse(id: string)
    | NoTable | NoArchivedCount | NoSection

  function CloseError(r: CloseRow): Option<DebtError> {
    if !IsId(r.td) then Some(InvalidId(r.td))
    else if !StartsWith(r.archiveRow, "| " + r.td + " |") then Some(ArchiveRowMismatch(r.td))
    else if r.knownClass != "" && r.testId == "" then Some(TestIdRequired(r.td))
    else None
  }

  function FirstCloseError(rows: seq<CloseRow>): Option<DebtError> {
    if rows == [] then None
    else if CloseError(rows[0]).Some? then CloseError(rows[0])
    else FirstCloseError(rows[1..])
  }

  function CloseRowsOf(spec: DebtSpec): Result<seq<CloseRow>, DebtError> {
    if spec.single.td != "" && spec.single.archiveRow == "" then Err(ArchiveRowRequired)
    else if spec.single.td == "" && spec.single.knownClass != "" then Err(KnownClassNeedsTd)
    else
      var rows := spec.closes + (if spec.single.td != "" then [spec.single] else []);
      match FirstCloseError(rows) case Some(e) => Err(e) case None => Ok(rows)
  }

  // ---------------------------------------------------------------------------------------------
  // The tables

  const TABLE_SEP: Line := "|----|------|-----|--------------|-------|"
  const EMPTY_ROW: Line := "| — | — | هیچ قلم فعالی نیست | — | — |"

  predicate StartsRow(l: Line, td: string) { StartsWith(l, "| " + td + " |") }

  /** The debt lines without the closed rows, one after the other; an id that is not there is refused. */
  function CloseAll(lines: seq<Line>, closes: seq<CloseRow>): Result<seq<Line>, DebtError>
    decreases |closes|
  {
    if closes == [] then Ok(lines)
    else if forall l :: l in lines ==> !StartsRow(l, closes[0].td) then Err(NotActive(closes[0].td))
    else CloseAll(Filter(lines, (l: Line) => !StartsRow(l, closes[0].td)), closes[1..])
  }

  /** `row.trimEnd().endsWith('|')`. */
  predicate EndsRow(row: Line) {
    row != [] && (row[|row| - 1] == '|' || ((IsWhite(row[|row| - 1]) || row[|row| - 1] == '\n') && EndsRow(row[..|row| - 1])))
  }

  function OpenError(known: set<string>, rows: seq<Line>): Option<DebtError>
    decreases |rows|
  {
    if rows == [] then None
    else if DebtId(rows[0]).None? || !EndsRow(rows[0]) then Some(MalformedRow(rows[0]))
    else if DebtId(rows[0]).value in known then Some(IdInUse(DebtId(rows[0]).value))
    else OpenError(known + {DebtId(rows[0]).value}, rows[1..])
  }

  predicate NotRow(l: Line) { !IsRow(l) }

  /** The new rows after those of the active table, and the placeholder exactly in an empty registry. */
  function TableWith(lines: seq<Line>, openRows: seq<Line>): Result<seq<Line>, DebtError> {
    var bare := Filter(lines, (l: Line) => l != EMPTY_ROW);
    var header := FindFrom(bare, (l: Line) => l == TABLE_SEP, 0);
    if header == |bare| then Err(NoTable)
    else
      var at := FindFrom(bare, NotRow, header + 1);
      var full := bare[..at] + openRows + bare[at..];
      Ok(if Ids(full) == [] then full[..header + 1] + [EMPTY_ROW] + full[header + 1..] else full)
  }

  /** `نسخه N —`. */
  function SeriesName(series: nat): string { "نسخه " + Persian(Decimal(series)) + " —" }

  predicate IsSection(series: nat, l: Line) { StartsWith(l, "## ") && Contains(l, SeriesName(series)) }

  predicate EndsTableHead(l: Line) { EndsWith(l, TABLE_SEP) }

  /** The line the closed rows go under: the first table head at or after the first mention of the section's line. */
  function ClosedTable(closed: seq<Line>, series: nat): (t: Option<nat>)
    ensures t.Some? ==> t.value + 1 < |closed|
  {
    var k := FindFrom(closed, (l: Line) => IsSection(series, l), 0);
    if k == |closed| then None
    else
      var q := FindFrom(closed, (l: Line) => Contains(l, closed[k]), 0);
      var t := FindFrom(closed, EndsTableHead, q);
      if t + 1 < |closed| then Some(t) else None
  }

  /** `text.slice(0, at) + rows + text.slice(at)`, each row with its line break. */
  function InsertAt(lines: seq<Line>, at: nat, rows: seq<Line>): seq<Line>
    requires rows != []
  {
    if lines == [] then rows + [""]
    else if at <= |lines[0]| then [lines[0][..at] + rows[0]] + rows[1..] + [lines[0][at..]] + lines[1..]
    else if |lines| == 1 then [lines[0] + rows[0]] + rows[1..] + [""]
    else [lines[0]] + InsertAt(lines[1..], at - |lines[0]| - 1, rows)
  }

  function ArchiveRows(closes: seq<CloseRow>): seq<Line> { Map(closes, (r: CloseRow) => r.archiveRow) }

  /** A section without a table: the source then inserts at a fixed offset of the file. */
  function WithClosed(closed: seq<Line>, series: nat, closes: seq<CloseRow>): Result<seq<Line>, DebtError> {
    if closes == [] then Ok(closed)
    else if forall l :: l in closed ==> !IsSection(series, l) then Err(NoSection)
    else
      match ClosedTable(closed, series)
      case Some(t) => Ok(closed[..t + 1] + ArchiveRows(closes) + closed[t + 1..])
      case None => Ok(InsertAt(closed, |TABLE_SEP|, ArchiveRows(closes)))
  }

  // ---------------------------------------------------------------------------------------------
  // The update

  /** `TECH_DEBT.md`, `docs/rules/DEBT_LESSONS.md` and `docs/rules/CLOSED_DEBT_IDS_V10.md`. */
  datatype Registry = Registry(debt: seq<Line>, closed: seq<Line>, frozen: seq<Line>)

  datatype Updated = Updated(registry: Registry, active: nat, archived: nat)

  function KnownIds(reg: Registry): set<string> { set id | id in Ids(reg.debt + reg.closed + reg.frozen) }

  /** The debt lines after closing and opening rows, before the counters. */
  function NewTable(reg: Registry, closes: seq<CloseRow>, openRows: seq<Line>): Result<seq<Line>, DebtError> {
    match CloseAll(reg.debt, closes)
    case Err(e) => Err(e)
    case Ok(left) =>
      match OpenError(KnownIds(reg), openRows) case Some(e) => Err(e) case None => TableWith(left, openRows)
  }

  function UpdateDebt(reg: Registry, spec: DebtSpec, series: nat): Result<Updated, DebtError> {
    match CloseRowsOf(spec)
    case Err(e) => Err(e)
    case Ok(closes) =>
      if closes == [] && spec.openRows == [] then
        Ok(Updated(reg, |Ids(reg.debt)|, match ReadCounter(reg.debt, ARCHIVED) case None => 0 case Some(n) => n))
      else
        match NewTable(reg, closes, spec.openRows)
        case Err(e) => Err(e)
        case Ok(lines) =>
          match ReadCounter(lines, ARCHIVED)
          case None => Err(NoArchivedCount)
          case Some(n) =>
            var counted := SetCounter(SetCounter(lines, ACTIVE, |Ids(lines)|), ARCHIVED, n + |closes|);
            match WithClosed(reg.closed, series, closes)
            case Err(e) => Err(e)
            case Ok(closed) => Ok(Updated(Registry(counted, closed, reg.frozen), |Ids(lines)|, n + |closes|))
  }

  /** The three files as `updateTechDebt` reads and writes them; an error leaves nothing to write to disk. */
  class DebtFiles {
    var debt: seq<Line>
    var closed: seq<Line>
    const frozen: seq<Line>

    function Value(): Registry
      reads this
    {
      Registry(debt, closed, frozen)
    }

    constructor (registry: Registry)
      ensures Value() == registry
    {
      debt, closed, frozen := registry.debt, registry.closed, registry.frozen;
    }

    method UpdateTechDebt(spec: DebtSpec, series: nat) returns (r: Result<(nat, nat), DebtError>)
      modifies this
      ensures match UpdateDebt(old(Value()), spec, series)
              case Err(e) => r == Err(e) && closed == old(closed)
              case Ok(u) => r == Ok((u.active, u.archived)) && Value() == u.registry
    {
      hide CloseRowsOf, NewTable, WithClosed, ReadCounter, SetCounter, Ids;
      NothingClosed(closed, series);
      var valid := ReadCloseRows(spec);
      if valid.Err? {
        return Err(valid.error);
      }
      var closes := valid.value;
      if |closes| == 0 && |spec.openRows| == 0 {
        var counted := ReadCounter(debt, ARCHIVED);
        return Ok((|Ids(debt)|, if counted.None? then 0 else counted.value));
      }
      var table := ReplaceRows(Registry(debt, closed, frozen), closes, spec.openRows);
      if table.Err? {
        return Err(table.error);
      }
      var lines := table.value;
      var count := ReadCounter(lines, ARCHIVED);
      if count.None? {
        return Err(NoArchivedCount);
      }
      var active, archived := |Ids(lines)|, count.value + |closes|;
      debt := SetCounter(SetCounter(lines, ACTIVE, active), ARCHIVED, archived);
      if |closes| > 0 {
        var written := WithClosed(closed, series, closes);
        if written.Err? {
          return Err(written.error);
        }
        closed := written.value;
      }
      r := Ok((active, archived));
    }
  }

  lemma {:induction false} NothingClosed(closed: seq<Line>, series: nat)
    ensures WithClosed(closed, series, []) == Ok(closed)
  {
  }

  method ReplaceRows(reg: Registry, closes: seq<CloseRow>, openRows: seq<Line>) returns (r: Result<seq<Line>, DebtError>)
    ensures r == NewTable(reg, closes, openRows)
  {
    hide CloseAll, OpenError, TableWith, KnownIds;
    var left := RemoveClosed(reg.debt, closes);
    if left.Err? {
      return Err(left.error);
    }
    var refused := CheckOpenRows(KnownIds(reg), openRows);
    if refused.Some? {
      return Err(refused.value);
    }
    r := SpliceRows(left.value, openRows);
  }

  method ReadCloseRows(spec: DebtSpec) returns (r: Result<seq<CloseRow>, DebtError>)
    ensures r == CloseRowsOf(spec)
  {
    var rows := spec.closes;
    if spec.single.td != "" {
      if spec.single.archiveRow == "" {
        return Err(ArchiveRowRequired);
      }
      rows := rows + [spec.single];
    } else if spec.single.knownClass != "" {
      return Err(KnownClassNeedsTd);
    }
    assert rows[0..] == rows && spec.closes + [] == spec.closes;
    for i := 0 to |rows|
      invariant FirstCloseError(rows) == FirstCloseError(rows[i..])
    {
      assert rows[i..][1..] == rows[i + 1..];
      var e := CloseError(rows[i]);
      if e.Some? {
        return Err(e.value);
      }
    }
    r := Ok(rows);
  }

  method RemoveClosed(debt: seq<Line>, closes: seq<CloseRow>) returns (r: Result<seq<Line>, DebtError>)
    ensures r == CloseAll(debt, closes)
  {
    hide StartsRow;
    var lines := debt;
    assert closes[0..] == closes;
    for i := 0 to |closes|
      invariant CloseAll(debt, closes) == CloseAll(lines, closes[i..])
    {
      assert closes[i..][1..] == closes[i + 1..];
      if forall l :: l in lines ==> !StartsRow(l, closes[i].td) {
        return Err(NotActive(closes[i].td));
      }
      var td := closes[i].td;
      FilterAgree(lines, (l: Line) => !StartsRow(l, td), (l: Line) => !StartsRow(l, closes[i..][0].td));
      lines := Filter(lines, (l: Line) => !StartsRow(l, td));
    }
    r := Ok(lines);
  }

  method CheckOpenRows(used: set<string>, openRows: seq<Line>) returns (e: Option<DebtError>)
    ensures e == OpenError(used, openRows)
  {
    var known := used;
    assert openRows[0..] == openRows;
    for i := 0 to |openRows|
      invariant OpenError(used, openRows) == OpenError(known, openRows[i..])
    {
      hide DebtId, EndsRow;
      assert openRows[i..][1..] == openRows[i + 1..];
      var row := openRows[i];
      var id := DebtId(row);
      if id.None? || !EndsRow(row) {
        return Some(MalformedRow(row));
      }
      if id.value in known {
        return Some(IdInUse(id.value));
      }
      known := known + {id.value};
    }
    e := None;
  }

  /** The moving insertion point and the two `splice` calls of the source. */
  method SpliceRows(left: seq<Line>, openRows: seq<Line>) returns (r: Result<seq<Line>, DebtError>)
    ensures r == TableWith(left, openRows)
  {
    hide IsRow, Ids;
    var lines := Filter(left, (l: Line) => l != EMPTY_ROW);
    var header := FindFrom(lines, (l: Line) => l == TABLE_SEP, 0);
    if header == |lines| {
      return Err(NoTable);
    }
    var at := header + 1;
    while at < |lines| && IsRow(lines[at])
      invariant header < at <= |lines|
      invariant FindFrom(lines, NotRow, header + 1) == FindFrom(lines, NotRow, at)
    {
      at := at + 1;
    }
    lines := lines[..at] + openRows + lines[at..];
    if |Ids(lines)| == 0 {
      lines := lines[..header + 1] + [EMPTY_ROW] + lines[header + 1..];
    }
    r := Ok(lines);
  }

  // ---------------------------------------------------------------------------------------------
  // After a merge

  /** `dropArchivedDebtRows`: the active rows whose id is among the closed ones go. */
  function DropArchived(debt: seq<Line>, closed: seq<Line>): seq<Line> {
    Filter(debt, (l: Line) => DebtId(l).None? || DebtId(l).value !in Ids(closed))
  }

  /** `recountTechDebt`: rows dropped, then both counters from the rows of the three files. */
  function Recount(reg: Registry): Registry {
    var debt := DropArchived(reg.debt, reg.closed);
    reg.(debt := SetCounter(SetCounter(debt, ACTIVE, |Ids(debt)|), ARCHIVED, |Ids(reg.closed)| + |Ids(reg.frozen)|))
  }

  // ---------------------------------------------------------------------------------------------
  // The gate

  datatype Violation = ActiveAndClosed(id: string) | ListedTwice(id: string, times: nat)

  /** The first of each id; `seen` came before. */
  function FirstOnes(ids: seq<string>, seen: set<string>): (r: seq<string>)
    ensures forall id :: id in r ==> id in ids
  {
    if ids == [] then []
    else (if ids[0] in seen then [] else [ids[0]]) + FirstOnes(ids[1..], seen + {ids[0]})
  }

  predicate Repeats(ids: seq<string>, id: string) { multiset(ids)[id] > 1 }

  /** The ids listed more than once, in order of their first row, with how often. */
  function Twice(ids: seq<string>): seq<Violation> {
    Map(Filter(FirstOnes(ids, {}), (id: string) => Repeats(ids, id)), (id: string) => ListedTwice(id, multiset(ids)[id]))
  }

  /** `closed`: the lines of both closed files. */
  function FindDebtRegistryViolations(debt: seq<Line>, closed: seq<Line>): seq<Violation> {
    var active, archived := Ids(debt), Ids(closed);
    Map(Filter(FirstOnes(active, {}), (id: string) => id in archived), (id: string) => ActiveAndClosed(id))
    + Twice(active) + Twice(archived)
  }

  /** The counting loop: how often each id occurs, and the ids in the order of their first row. */
  method CountIds(ids: seq<string>) returns (count: map<string, nat>, order: seq<string>)
    ensures forall id :: id in count <==> id in ids
    ensures forall id :: id in count ==> count[id] == multiset(ids)[id]
    ensures order == FirstOnes(ids, {})
  {
    hide *;
    count, order := map[], [];
    NoCount(count, ids);
    for i := 0 to |ids|
      invariant IsCount(count, ids[..i]) && IsOrder(order, ids, i, count.Keys)
    {
      var id := ids[i];
      NextCount(count, ids, i);
      NextOrder(order, ids, i, count.Keys);
      if id !in count {
        order := order + [id];
      }
      count := count[id := (if id in count then count[id] else 0) + 1];
    }
    CountIs(count, ids);
    OrderIs(order, ids, count.Keys);
  }

  /** `order` and the ids still to come first at or after index `i` are all the ids in the order they come first. */
  ghost predicate IsOrder(order: seq<string>, ids: seq<string>, i: nat, seen: set<string>) {
    i <= |ids| && FirstOnes(ids, {}) == order + FirstOnes(ids[i..], seen)
  }

  lemma {:induction false} NextOrder(order: seq<string>, ids: seq<string>, i: nat, seen: set<string>)
    requires i < |ids| && IsOrder(order, ids, i, seen)
    ensures IsOrder(if ids[i] in seen then order else order + [ids[i]], ids, i + 1, seen + {ids[i]})
  {
    assert ids[i..][1..] == ids[i + 1..] && ids[i..][0] == ids[i];
    NextOnes(ids[i..], seen);
    hide FirstOnes;
    Regroup(order, ids[i], FirstOnes(ids[i + 1..], seen + {ids[i]}));
  }

  lemma {:induction false} OrderIs(order: seq<string>, ids: seq<string>, seen: set<string>)
    requires IsOrder(order, ids, |ids|, seen)
    ensures order == FirstOnes(ids, {})
  {
    NoOnes(seen);
    assert order + [] == order;
  }

  lemma {:induction false} Regroup(a: seq<string>, x: string, b: seq<string>)
    ensures a + ([x] + b) == (a + [x]) + b
  {
  }

  /** How often each of `ids` occurs in it. */
  ghost predicate IsCount(count: map<string, nat>, ids: seq<string>) {
    && (forall id :: id in count <==> id in ids)
    && (forall id :: id in count ==> count[id] == multiset(ids)[id])
  }

  lemma {:induction false} NoCount(count: map<string, nat>, ids: seq<string>)
    requires count == map[]
    ensures IsCount(count, ids[..0]) && IsOrder([], ids, 0, count.Keys)
  {
    assert ids[0..] == ids && count.Keys == {};
  }

  lemma {:induction false} CountIs(count: map<string, nat>, ids: seq<string>)
    requires IsCount(count, ids[..|ids|])
    ensures forall id :: id in count <==> id in ids
    ensures forall id :: id in count ==> count[id] == multiset(ids)[id]
  {
    assert ids[..|ids|] == ids;
  }

  lemma {:induction false} NextCount(count: map<string, nat>, ids: seq<string>, i: nat)
    requires i < |ids| && IsCount(count, ids[..i])
    ensures var next := count[ids[i] := (if ids[i] in count then count[ids[i]] else 0) + 1];
            IsCount(next, ids[..i + 1]) && next.Keys == count.Keys + {ids[i]}
  {
    assert ids[..i + 1] == ids[..i] + [ids[i]];
    assert ids[i] !in count ==> multiset(ids[..i])[ids[i]] == 0;
  }

  lemma {:induction false} NoOnes(seen: set<string>)
    ensures FirstOnes([], seen) == []
  {
  }

  lemma {:induction false} NextOnes(ids: seq<string>, seen: set<string>)
    requires ids != []
    ensures FirstOnes(ids, seen)
         == if ids[0] in seen then FirstOnes(ids[1..], seen + {ids[0]}) else [ids[0]] + FirstOnes(ids[1..], seen + {ids[0]})
  {
  }

  method FindDuplicates(ids: seq<string>) returns (r: seq<Violation>)
    ensures r == Twice(ids)
  {
    var count, order := CountIds(ids);
    r := [];
    ghost var listed := (id: string) => ListedTwice(id, multiset(ids)[id]);
    ghost var twice := (id: string) => Repeats(ids, id);
    assert order[..|order|] == order;
    for i := 0 to |order|
      invariant r == Map(Filter(order[..i], twice), listed)
    {
      hide FirstOnes;
      TakeNext(order, i, twice, listed);
      assert order[i] in ids;
      if count[order[i]] > 1 {
        r := r + [ListedTwice(order[i], count[order[i]])];
      }
    }
  }

  lemma {:induction false} TakeNext(order: seq<string>, i: nat, p: string -> bool, f: string -> Violation)
    requires i < |order|
    ensures Map(Filter(order[..i + 1], p), f) == Map(Filter(order[..i], p), f) + (if p(order[i]) then [f(order[i])] else [])
  {
    assert order[..i + 1] == order[..i] + [order[i]];
    FilterAppend(order[..i], [order[i]], p);
    assert [order[i]][1..] == [];
  }

  method FindViolations(debt: seq<Line>, closed: seq<Line>) returns (r: seq<Violation>)
    ensures r == FindDebtRegistryViolations(debt, closed)
  {
    var active, archived := Ids(debt), Ids(closed);
    var both := Filter(FirstOnes(active, {}), (id: string) => id in archived);
    var a := FindDuplicates(active);
    var c := FindDuplicates(archived);
    r := Map(both, (id: string) => ActiveAndClosed(id)) + a + c;
  }
}
